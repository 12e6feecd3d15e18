/** The display rules of `components/PlaylistPreview.tsx`: which bucket is
    shown, what each row says (number, name, learned mark, review prompt),
    and when the empty state replaces the list. Layout and styling are not
    modelled; the rendered screen is the `View` record. */
module Preview {
  import opened Wrappers
  import opened Text
  import opened Types

  const UnknownVideo: string := "Unknown Video"
  const LearnedMark: string := "（已学）"
  const PromptHead: string := "距离第一次观看"
  const PromptTail: string := "），建议今天进行视频复习"

  /** Index of the first record with `id`, or -1 (`videos.find`). */
  function FindIndex(videos: seq<VideoFile>, id: string): (i: int)
    ensures -1 <= i < |videos|
    ensures 0 <= i ==> videos[i].id == id
    ensures forall j :: 0 <= j < |videos| && (i < 0 || j < i) ==> videos[j].id != id
  {
    if |videos| == 0 then -1
    else if videos[0].id == id then 0
    else
      var k := FindIndex(videos[1..], id);
      if k < 0 then -1 else k + 1
  }

  /** `getVideoName`: `video?.name || 'Unknown Video'`. */
  function GetVideoName(videos: seq<VideoFile>, id: string): (r: string)
    ensures (forall j :: 0 <= j < |videos| ==> videos[j].id != id) ==> r == UnknownVideo
    ensures forall i :: 0 <= i < |videos| && videos[i].id == id
                        && (forall j :: 0 <= j < i ==> videos[j].id != id) ==>
              r == (if videos[i].name != "" then videos[i].name else UnknownVideo)
  {
    var i := FindIndex(videos, id);
    if 0 <= i && videos[i].name != "" then videos[i].name else UnknownVideo
  }

  /** An empty display name is falsy, so a found record with an empty name
      is shown as unknown too. */
  lemma EmptyNameShownAsUnknown(v: VideoFile, rest: seq<VideoFile>)
    requires v.name == ""
    ensures GetVideoName([v] + rest, v.id) == UnknownVideo
  {
  }

  /** The interval named in a review prompt. */
  function IntervalText(reviewNumber: int): (r: string)
    ensures r == "15天" <==> reviewNumber == 4
    ensures r == "15天" || r == "30天"
  {
    if reviewNumber == 4 then "15天" else "30天"
  }

  /** The prompt sentence for `days` since the first viewing. */
  function PromptText(days: int, interval: string): (r: string)
    ensures |r| == |PromptHead| + |IntToDecimal(days)| + 2 + |interval| + |PromptTail|
    ensures r[..|PromptHead|] == PromptHead
    ensures r[|PromptHead|..|PromptHead| + |IntToDecimal(days)|] == IntToDecimal(days)
    ensures r[|r| - |PromptTail|..] == PromptTail
    ensures r[|r| - |PromptTail| - |interval|..|r| - |PromptTail|] == interval
  {
    PromptHead + IntToDecimal(days) + "天（" + interval + PromptTail
  }

  /** `getReviewPrompt`: only items recommended for video review with a
      truthy (present, non-zero) day count get a prompt. */
  function GetReviewPrompt(item: PlaylistItem): (r: Option<string>)
    ensures r.Some? <==> item.isRecommendedForVideo == Some(true)
                         && item.daysSinceFirstPlay.Some? && item.daysSinceFirstPlay.value != 0
    ensures r.Some? ==> r.value == PromptText(item.daysSinceFirstPlay.value, IntervalText(item.reviewNumber))
  {
    if item.isRecommendedForVideo == Some(true)
       && item.daysSinceFirstPlay.Some? && item.daysSinceFirstPlay.value != 0
    then Some(PromptText(item.daysSinceFirstPlay.value, IntervalText(item.reviewNumber)))
    else None
  }

  /** A shown prompt names the item's own day count and the interval its
      review number calls for. */
  lemma PromptNamesDaysAndInterval(item: PlaylistItem)
    requires GetReviewPrompt(item).Some?
    ensures var p := GetReviewPrompt(item).value;
            var days := IntToDecimal(item.daysSinceFirstPlay.value);
            var interval := IntervalText(item.reviewNumber);
            && p[..|PromptHead|] == PromptHead
            && p[|PromptHead|..|PromptHead| + |days|] == days
            && p[|p| - |PromptTail| - |interval|..|p| - |PromptTail|] == interval
            && (item.reviewNumber == 4 <==> interval == "15天")
  {
  }

  /** `getCurrentItems`: the bucket the selector names. Review items never
      have their catalog index read, so they carry none here. */
  function CurrentItems(preview: PlaylistPreview, kind: Kind): (r: seq<PreviewEntry>)
    ensures kind == NewKind ==> r == preview.newVideos
    ensures kind == ReviewKind ==>
              |r| == |preview.reviews|
              && forall i :: 0 <= i < |r| ==> r[i] == PreviewEntry(preview.reviews[i], None)
  {
    match kind
    case NewKind => preview.newVideos
    case ReviewKind => seq(|preview.reviews|, i requires 0 <= i < |preview.reviews| =>
                             PreviewEntry(preview.reviews[i], None))
  }

  /** The buckets are never mixed: the shown items do not depend on the
      other bucket. */
  lemma BucketsIndependent(preview: PlaylistPreview, newVideos: seq<PreviewEntry>, reviews: seq<PlaylistItem>)
    ensures CurrentItems(preview.(reviews := reviews), NewKind) == CurrentItems(preview, NewKind)
    ensures CurrentItems(preview.(newVideos := newVideos), ReviewKind) == CurrentItems(preview, ReviewKind)
  {
  }

  /** The learned-mark rule: a new-session entry whose catalog index lies
      strictly before the stored resume index. */
  predicate IsLearned(kind: Kind, entry: PreviewEntry, lastPlayedIndex: Option<int>) {
    && kind == NewKind
    && entry.originalIndex.Some?
    && lastPlayedIndex.Some?
    && entry.originalIndex.value < lastPlayedIndex.value
  }

  /** One rendered list row: its 1-based number, name, learned mark and
      review prompt. */
  datatype Row = Row(number: nat, name: string, learnedMark: string, prompt: Option<string>)

  /** The rendered preview. The listing ends with the start button; the
      empty state has none. */
  datatype View =
    | EmptyState(title: string, message: string, hint: string)
    | Listing(title: string, count: nat, heading: string, extraBanner: bool, reviewBanner: bool, rows: seq<Row>)

  function Title(preview: PlaylistPreview, kind: Kind): string {
    match kind
    case NewKind => if preview.isExtraSession then "加餐学习预览" else "今日新学预览"
    case ReviewKind => "复习预览"
  }

  function Heading(kind: Kind, n: nat): string {
    match kind
    case NewKind => "新学习（" + NatToDecimal(n) + "个）"
    case ReviewKind => "复习 (" + NatToDecimal(n) + "个)"
  }

  function RenderRow(videos: seq<VideoFile>, kind: Kind, entry: PreviewEntry,
                     lastPlayedIndex: Option<int>, index: nat): Row {
    Row(index + 1,
        GetVideoName(videos, entry.item.videoId),
        if IsLearned(kind, entry, lastPlayedIndex) then LearnedMark else "",
        GetReviewPrompt(entry.item))
  }

  /** The whole preview. The empty-state texts exist only for the new
      bucket: the review bucket's empty state shows its title alone. */
  function RenderPreview(preview: PlaylistPreview, videos: seq<VideoFile>, kind: Kind): (v: View)
    ensures v.EmptyState? <==> |CurrentItems(preview, kind)| == 0
    ensures v.EmptyState? && kind == ReviewKind ==> v.message == "" && v.hint == ""
    ensures v.Listing? ==>
              && v.count == |CurrentItems(preview, kind)|
              && |v.rows| == |CurrentItems(preview, kind)|
              && v.extraBanner == (preview.isExtraSession && kind == NewKind)
              && v.reviewBanner == (kind == ReviewKind)
    ensures v.Listing? ==> forall i :: 0 <= i < |v.rows| ==>
              var entry := CurrentItems(preview, kind)[i];
              && v.rows[i].number == i + 1
              && v.rows[i].name == GetVideoName(videos, entry.item.videoId)
              && (v.rows[i].learnedMark == LearnedMark <==> IsLearned(kind, entry, preview.lastPlayedIndex))
              && (v.rows[i].learnedMark == "" <==> !IsLearned(kind, entry, preview.lastPlayedIndex))
              && v.rows[i].prompt == GetReviewPrompt(entry.item)
  {
    var items := CurrentItems(preview, kind);
    if |items| == 0 then
      match kind
      case NewKind =>
        EmptyState(Title(preview, kind),
                   if preview.isExtraSession then "没有可加餐的内容" else "今天没有新学任务",
                   if preview.isExtraSession then "所有视频都已开始学习或没有活跃的合辑"
                   else "可以休息一下或添加新的视频内容")
      case ReviewKind => EmptyState(Title(preview, kind), "", "")
    else
      Listing(Title(preview, kind), |items|, Heading(kind, |items|),
              preview.isExtraSession && kind == NewKind, kind == ReviewKind,
              seq(|items|, i requires 0 <= i < |items| =>
                    RenderRow(videos, kind, items[i], preview.lastPlayedIndex, i)))
  }

  /** Marking never removes or reorders anything: changing the resume index
      changes at most the marks, never the count, numbering, names or
      prompts. */
  lemma MarkingKeepsRows(preview: PlaylistPreview, videos: seq<VideoFile>, kind: Kind, last: Option<int>)
    ensures var a := RenderPreview(preview, videos, kind);
            var b := RenderPreview(preview.(lastPlayedIndex := last), videos, kind);
            && a.Listing? == b.Listing?
            && (a.Listing? ==>
                  && a.count == b.count && a.heading == b.heading && |a.rows| == |b.rows|
                  && forall i :: 0 <= i < |a.rows| ==>
                       a.rows[i] == b.rows[i].(learnedMark := a.rows[i].learnedMark))
  {
  }

  /** Nothing in the review bucket is ever marked as learned. */
  lemma ReviewRowsNeverMarked(preview: PlaylistPreview, videos: seq<VideoFile>)
    ensures var v := RenderPreview(preview, videos, ReviewKind);
            v.Listing? ==> forall i :: 0 <= i < |v.rows| ==> v.rows[i].learnedMark == ""
  {
  }

  /** Three new items at catalog indices 0, 1, 2 with resume index 1: only
      the first is marked, since the test is strict. */
  lemma ResumeIndexOneMarksOnlyFirst(a: PlaylistItem, b: PlaylistItem, c: PlaylistItem,
                                     videos: seq<VideoFile>, extra: bool)
    ensures var preview := PlaylistPreview(
              [PreviewEntry(a, Some(0)), PreviewEntry(b, Some(1)), PreviewEntry(c, Some(2))],
              [], 3, extra, Some(1));
            var v := RenderPreview(preview, videos, NewKind);
            && v.Listing? && |v.rows| == 3
            && v.rows[0].learnedMark == LearnedMark
            && v.rows[1].learnedMark == ""
            && v.rows[2].learnedMark == ""
  {
  }
}
