/** The upload validator of `utils/fileValidation.ts`: a fixed chain of
    rejection checks on one file, and the batch partition built on it. */
module FileValidation {
  import opened Wrappers
  import opened Text
  import opened Types
  import opened Seqs

  /** The size cap: 2 GiB. */
  const MaxSize: nat := 2 * 1024 * 1024 * 1024

  /** `SUPPORTED_VIDEO_FORMATS`: lower-case extension to expected MIME type. */
  const SupportedVideoFormats: map<string, string> := map[
    "mp4" := "video/mp4",
    "avi" := "video/x-msvideo",
    "mov" := "video/quicktime",
    "wmv" := "video/x-ms-wmv",
    "mkv" := "video/x-matroska",
    "webm" := "video/webm",
    "flv" := "video/x-flv",
    "m4v" := "video/x-m4v",
    "3gp" := "video/3gpp",
    "ogv" := "video/ogg",
    "ts" := "video/mp2t",
    "mts" := "video/mp2t"
  ]

  /** Why a file was refused, in the order the checks run. */
  datatype ValidationError =
    | Missing
    | EmptyFile
    | TooLarge
    | Unrecognized
    | Unsupported(extension: string)
    | WrongMime(reported: string)

  /** The user-facing text of each refusal. */
  function Message(e: ValidationError): string {
    match e
    case Missing => "文件不存在"
    case EmptyFile => "文件为空"
    case TooLarge => "文件大小超过限制 (最大 2GB)"
    case Unrecognized => "无法识别文件格式"
    case Unsupported(ext) => "不支持的文件格式: ." + ext
    case WrongMime(t) => "文件MIME类型不正确: " + t
  }

  /** The validator's result record `{ isValid, mimeType, error? }`. */
  datatype Validation = Validation(isValid: bool, mimeType: string, error: Option<ValidationError>)

  /** `name.split('.').pop().toLowerCase()`: the text after the last '.', or
      the whole name when it has no '.', lower-cased. */
  function Extension(name: string): (ext: string)
    ensures |ext| <= |name|
    ensures ext == ToLower(name[|name| - |ext|..])
    ensures forall i :: |name| - |ext| <= i < |name| ==> name[i] != '.'
    ensures |ext| == |name| || name[|name| - |ext| - 1] == '.'
  {
    ToLower(name[LastIndexOf(name, '.') + 1..])
  }

  /** The empty extension (which the validator refuses as unrecognisable)
      arises exactly for the empty name and for names ending in '.'. */
  lemma ExtensionEmptyIff(name: string)
    ensures Extension(name) == "" <==> (name == "" || name[|name| - 1] == '.')
  {
    if name != "" && name[|name| - 1] != '.' {
      var k := LastIndexOf(name, '.');
      assert k < |name| - 1;
      assert |Extension(name)| == |name| - k - 1;
    }
  }

  /** The three checks decided before the name is looked at all pass. */
  predicate SizeAccepted(file: Option<FileInfo>) {
    file.Some? && 0 < file.value.size <= MaxSize
  }

  /** An independent statement of acceptance: present, non-empty, within the
      cap, a listed extension, and either no reported type or a `video/` one. */
  predicate Acceptable(file: Option<FileInfo>) {
    && SizeAccepted(file)
    && Extension(file.value.name) in SupportedVideoFormats
    && (file.value.mimeType == "" || StartsWith(file.value.mimeType, "video/"))
  }

  /** `validateVideoFile`: the first failing check decides the error. */
  function ValidateVideoFile(file: Option<FileInfo>): (r: Validation)
    ensures r.isValid <==> r.error.None?
    ensures r.isValid <==> Acceptable(file)
    ensures r.error == Some(Missing) <==> file.None?
    ensures r.error == Some(EmptyFile) <==> file.Some? && file.value.size == 0
    ensures r.error == Some(TooLarge) <==> file.Some? && file.value.size > MaxSize
    ensures r.error == Some(Unrecognized) <==>
              SizeAccepted(file) && Extension(file.value.name) == ""
    ensures (r.error.Some? && r.error.value.Unsupported?) <==>
              SizeAccepted(file) && Extension(file.value.name) != ""
              && Extension(file.value.name) !in SupportedVideoFormats
    ensures (r.error.Some? && r.error.value.Unsupported?) ==>
              r.error.value.extension == Extension(file.value.name)
    ensures (r.error.Some? && r.error.value.WrongMime?) <==>
              SizeAccepted(file) && Extension(file.value.name) in SupportedVideoFormats
              && file.value.mimeType != "" && !StartsWith(file.value.mimeType, "video/")
    ensures (r.error.Some? && r.error.value.WrongMime?) ==>
              r.error.value.reported == file.value.mimeType && r.mimeType == file.value.mimeType
    ensures !r.isValid && !(r.error.Some? && r.error.value.WrongMime?) ==> r.mimeType == ""
    ensures r.isValid ==> r.mimeType == (if file.value.mimeType != "" then file.value.mimeType
                                         else SupportedVideoFormats[Extension(file.value.name)])
  {
    if file.None? then Validation(false, "", Some(Missing))
    else if file.value.size == 0 then Validation(false, "", Some(EmptyFile))
    else if file.value.size > MaxSize then Validation(false, "", Some(TooLarge))
    else
      var ext := Extension(file.value.name);
      if ext == "" then Validation(false, "", Some(Unrecognized))
      else if ext !in SupportedVideoFormats then Validation(false, "", Some(Unsupported(ext)))
      else
        var expected := SupportedVideoFormats[ext];
        if file.value.mimeType != "" && !StartsWith(file.value.mimeType, "video/") then
          Validation(false, file.value.mimeType, Some(WrongMime(file.value.mimeType)))
        else
          Validation(true, if file.value.mimeType != "" then file.value.mimeType else expected, None)
  }

  /** The size boundary: exactly 2 GiB is accepted by the size check, one byte
      more is refused with the size error whatever the name and type. */
  lemma SizeBoundary(name: string, mimeType: string)
    ensures ValidateVideoFile(Some(FileInfo(name, MaxSize, mimeType))).error != Some(TooLarge)
    ensures ValidateVideoFile(Some(FileInfo(name, MaxSize + 1, mimeType))).error == Some(TooLarge)
  {
  }

  /** The extension of `base.ext` is `ext` lower-cased whenever `ext` itself
      has no '.', whatever `base` holds. */
  lemma ExtensionOfDotted(base: string, ext: string)
    requires forall i :: 0 <= i < |ext| ==> ext[i] != '.'
    ensures Extension(base + "." + ext) == ToLower(ext)
  {
    var name := base + "." + ext;
    var k := LastIndexOf(name, '.');
    assert name[|base|] == '.';
    assert k == |base|;
    assert name[k + 1..] == ext;
  }

  /** A file that passes the size checks and has a listed extension is
      accepted: with the table's type when none is reported, and with the
      reported type when it is a `video/` one. */
  lemma AcceptedWithListedExtension(f: FileInfo)
    requires 0 < f.size <= MaxSize && Extension(f.name) in SupportedVideoFormats
    ensures f.mimeType == "" ==>
              ValidateVideoFile(Some(f)) == Validation(true, SupportedVideoFormats[Extension(f.name)], None)
    ensures StartsWith(f.mimeType, "video/") ==>
              ValidateVideoFile(Some(f)) == Validation(true, f.mimeType, None)
  {
  }

  /** Acceptance ignores the case of the extension: `NAME.MP4` with no
      reported type is accepted with the table's type for `mp4`. */
  lemma UpperCaseExtensionAccepted(base: string, size: nat)
    requires 0 < size <= MaxSize
    ensures ValidateVideoFile(Some(FileInfo(base + ".MP4", size, ""))) ==
            Validation(true, "video/mp4", None)
  {
    var name := base + ".MP4";
    assert name == base + "." + "MP4";
    ExtensionOfDotted(base, "MP4");
    LiteralFacts();
    AcceptedWithListedExtension(FileInfo(name, size, ""));
  }

  /** A reported `video/...` type wins over the table entry and is not
      compared with the extension. */
  lemma ReportedVideoTypeWins(base: string, size: nat)
    requires 0 < size <= MaxSize
    ensures ValidateVideoFile(Some(FileInfo(base + ".mkv", size, "video/webm"))) ==
            Validation(true, "video/webm", None)
  {
    var name := base + ".mkv";
    assert name == base + "." + "mkv";
    ExtensionOfDotted(base, "mkv");
    LiteralFacts();
    AcceptedWithListedExtension(FileInfo(name, size, "video/webm"));
  }

  /** The facts about literals the two examples above use. */
  lemma LiteralFacts()
    ensures ToLower("MP4") == "mp4" && ToLower("mkv") == "mkv"
    ensures "mp4" in SupportedVideoFormats && SupportedVideoFormats["mp4"] == "video/mp4"
    ensures "mkv" in SupportedVideoFormats
    ensures StartsWith("video/webm", "video/")
  {
    assert ToLower("MP4") == "mp4";
    assert ToLower("mkv") == "mkv";
    assert "video/webm"[..6] == "video/";
  }

  /** The text recorded for a refused file: the validator's message, or the
      generic fallback when it carries none. */
  function ErrorText(v: Validation): string {
    match v.error
    case Some(e) => Message(e)
    case None => "未知错误"
  }

  /** An entry of `invalidFiles`. */
  datatype Rejection = Rejection(file: Option<FileInfo>, error: string)

  datatype Summary = Summary(total: nat, valid: nat, invalid: nat)

  datatype BatchResult = BatchResult(
    validFiles: seq<Option<FileInfo>>,
    invalidFiles: seq<Rejection>,
    summary: Summary)

  /** A per-file validator, as the batch sees it. */
  type Validator = Option<FileInfo> -> Validation

  /** What one file contributes to each list: itself to the valid list if
      accepted, else one entry with its error text to the refusal list. */
  function KeptOf(f: Option<FileInfo>, validate: Validator): seq<Option<FileInfo>> {
    if validate(f).isValid then [f] else []
  }

  function RejectionOf(f: Option<FileInfo>, validate: Validator): seq<Rejection> {
    var v := validate(f);
    if v.isValid then [] else [Rejection(f, ErrorText(v))]
  }

  /** The files `validate` accepts, in input order. */
  function Accepted(files: seq<Option<FileInfo>>, validate: Validator): seq<Option<FileInfo>> {
    FlatMap(files, f => KeptOf(f, validate))
  }

  /** The files `validate` refuses, with their error text, in input order. */
  function Rejections(files: seq<Option<FileInfo>>, validate: Validator): seq<Rejection> {
    FlatMap(files, f => RejectionOf(f, validate))
  }

  /** The last file's contribution, as one step of both passes. */
  lemma PassStep(files: seq<Option<FileInfo>>, validate: Validator)
    requires |files| > 0
    ensures Accepted(files, validate)
            == Accepted(files[..|files| - 1], validate) + KeptOf(files[|files| - 1], validate)
    ensures Rejections(files, validate)
            == Rejections(files[..|files| - 1], validate) + RejectionOf(files[|files| - 1], validate)
  {
  }

  /** Every kept file is one the validator accepts. */
  lemma {:induction false} AcceptedSound(files: seq<Option<FileInfo>>, validate: Validator)
    ensures forall i :: 0 <= i < |Accepted(files, validate)| ==> validate(Accepted(files, validate)[i]).isValid
  {
    if |files| > 0 {
      AcceptedSound(files[..|files| - 1], validate);
      PassStep(files, validate);
    }
  }

  /** Every refusal names a file the validator refuses, with its text. */
  lemma {:induction false} RejectionsSound(files: seq<Option<FileInfo>>, validate: Validator)
    ensures forall i :: 0 <= i < |Rejections(files, validate)| ==>
              var e := Rejections(files, validate)[i];
              !validate(e.file).isValid && e.error == ErrorText(validate(e.file))
  {
    if |files| > 0 {
      RejectionsSound(files[..|files| - 1], validate);
      PassStep(files, validate);
    }
  }

  /** The two lists together are as long as the input. */
  lemma {:induction false} PartitionCounts(files: seq<Option<FileInfo>>, validate: Validator)
    ensures |Accepted(files, validate)| + |Rejections(files, validate)| == |files|
  {
    if |files| > 0 {
      PartitionCounts(files[..|files| - 1], validate);
      PassStep(files, validate);
    }
  }

  /** The `forEach` pass of `validateVideoFiles`: every file goes to
      exactly one of the two lists, in input order. */
  method Partition(files: seq<Option<FileInfo>>, validate: Validator)
    returns (valid: seq<Option<FileInfo>>, invalid: seq<Rejection>)
    ensures valid == Accepted(files, validate)
    ensures invalid == Rejections(files, validate)
  {
    valid := [];
    invalid := [];
    var i := 0;
    while i < |files|
      invariant 0 <= i <= |files|
      invariant valid == Accepted(files[..i], validate)
      invariant invalid == Rejections(files[..i], validate)
    {
      assert files[..i + 1][..i] == files[..i];
      PassStep(files[..i + 1], validate);
      var v := validate(files[i]);
      if v.isValid {
        valid := valid + [files[i]];
      } else {
        invalid := invalid + [Rejection(files[i], ErrorText(v))];
      }
      i := i + 1;
    }
    assert files[..i] == files;
  }

  /** `validateVideoFiles`: the partition under `validateVideoFile`, and its
      counts. */
  method ValidateVideoFiles(files: seq<Option<FileInfo>>) returns (r: BatchResult)
    ensures r.validFiles == Accepted(files, ValidateVideoFile)
    ensures r.invalidFiles == Rejections(files, ValidateVideoFile)
    ensures forall i :: 0 <= i < |r.validFiles| ==> ValidateVideoFile(r.validFiles[i]).isValid
    ensures forall i :: 0 <= i < |r.invalidFiles| ==>
              && !ValidateVideoFile(r.invalidFiles[i].file).isValid
              && r.invalidFiles[i].error == ErrorText(ValidateVideoFile(r.invalidFiles[i].file))
    ensures r.summary.total == |files|
    ensures r.summary.valid == |r.validFiles| && r.summary.invalid == |r.invalidFiles|
    ensures r.summary.valid + r.summary.invalid == r.summary.total
  {
    var valid, invalid := Partition(files, ValidateVideoFile);
    AcceptedSound(files, ValidateVideoFile);
    RejectionsSound(files, ValidateVideoFile);
    PartitionCounts(files, ValidateVideoFile);
    r := BatchResult(valid, invalid, Summary(|files|, |valid|, |invalid|));
  }

  /** The files named in the refusal list. */
  function RejectedFiles(rs: seq<Rejection>): (r: seq<Option<FileInfo>>)
    ensures |r| == |rs|
    ensures forall i :: 0 <= i < |rs| ==> r[i] == rs[i].file
  {
    seq(|rs|, i requires 0 <= i < |rs| => rs[i].file)
  }

  /** Every input file lands in exactly one of the two lists: together they
      hold each file as often as the input does. */
  lemma {:induction false} PartitionIsPermutation(files: seq<Option<FileInfo>>, validate: Validator)
    ensures multiset(Accepted(files, validate)) + multiset(RejectedFiles(Rejections(files, validate)))
            == multiset(files)
  {
    if |files| > 0 {
      var init := files[..|files| - 1];
      PartitionIsPermutation(init, validate);
      PartitionStep(files, validate);
      MultisetSnoc(files);
    }
  }

  /** One step of the partition: the last file goes to exactly one list. */
  lemma PartitionStep(files: seq<Option<FileInfo>>, validate: Validator)
    requires |files| > 0
    ensures var init := files[..|files| - 1];
            var last := files[|files| - 1];
            multiset(Accepted(files, validate)) + multiset(RejectedFiles(Rejections(files, validate)))
            == multiset(Accepted(init, validate)) + multiset(RejectedFiles(Rejections(init, validate)))
               + multiset{last}
  {
    var init := files[..|files| - 1];
    var last := files[|files| - 1];
    var acc := Accepted(init, validate);
    var rej := Rejections(init, validate);
    PassStep(files, validate);
    if validate(last).isValid {
      assert Accepted(files, validate) == acc + [last];
      assert Rejections(files, validate) == rej;
    } else {
      var e := Rejection(last, ErrorText(validate(last)));
      assert Accepted(files, validate) == acc;
      assert Rejections(files, validate) == rej + [e];
      assert RejectedFiles(rej + [e]) == RejectedFiles(rej) + [last];
    }
  }

  /** Input order is kept: validating a concatenation validates the parts in
      order, in both lists. */
  lemma PartitionKeepsOrder(a: seq<Option<FileInfo>>, b: seq<Option<FileInfo>>, validate: Validator)
    ensures Accepted(a + b, validate) == Accepted(a, validate) + Accepted(b, validate)
    ensures Rejections(a + b, validate) == Rejections(a, validate) + Rejections(b, validate)
  {
    FlatMapAppend(a, b, f => KeptOf(f, validate));
    FlatMapAppend(a, b, f => RejectionOf(f, validate));
  }

  /** A file is in the valid list exactly when the validator accepts it, and
      in the refusal list exactly when it does not. */
  lemma MembershipIff(files: seq<Option<FileInfo>>, validate: Validator, f: Option<FileInfo>)
    requires f in files
    ensures f in Accepted(files, validate) <==> validate(f).isValid
    ensures f in RejectedFiles(Rejections(files, validate)) <==> !validate(f).isValid
  {
    PartitionIsPermutation(files, validate);
    AcceptedSound(files, validate);
    RejectionsSound(files, validate);
    assert multiset(files)[f] > 0;
    if validate(f).isValid {
      assert f !in RejectedFiles(Rejections(files, validate));
    } else {
      assert f !in Accepted(files, validate);
    }
  }
}
