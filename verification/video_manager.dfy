/** The catalog operations of `hooks/useVideoManager.ts`: appending a new
    record, deleting by id, and the statistics summary. The fresh id, the
    object URL and the current time are parameters: they come from the
    random UUID generator, `URL.createObjectURL` and `new Date()`. */
module VideoManager {
  import opened Wrappers
  import opened Text
  import opened Types

  /** The regular expression `/\.[^/.]+$/` matches `name` at `k`: a '.' at
      `k` followed by at least one character, none of them '/' or '.', up to
      the end. */
  ghost predicate SuffixMatchAt(name: string, k: int) {
    && 0 <= k < |name| - 1
    && name[k] == '.'
    && forall j :: k < j < |name| ==> name[j] != '/' && name[j] != '.'
  }

  ghost predicate SuffixMatches(name: string) {
    exists k :: SuffixMatchAt(name, k)
  }

  /** `name.replace(/\.[^/.]+$/, "")`: the display name of a new record. */
  function StripExtension(name: string): (r: string)
    ensures r != name <==> SuffixMatches(name)
    ensures r != name ==> |r| < |name| && SuffixMatchAt(name, |r|) && r == name[..|r|]
  {
    var k := LastIndexOf(name, '.');
    if 0 <= k && k + 1 < |name| && forall j :: k < j < |name| ==> name[j] != '/' then
      assert SuffixMatchAt(name, k);
      name[..k]
    else
      assert !SuffixMatches(name);
      name
  }

  /** Worked cases of the display-name rule. */
  lemma StripExtensionExamples()
    ensures StripExtension("a.tar.gz") == "a.tar"
    ensures StripExtension("noext") == "noext"
    ensures StripExtension("end.") == "end."
    ensures StripExtension(".bashrc") == ""
    ensures StripExtension("v1.0/clip") == "v1.0/clip"
  {
    LastIndexOfAt("a.tar.gz", '.', 5);
    LastIndexOfAt("end.", '.', 3);
    LastIndexOfAt(".bashrc", '.', 0);
    LastIndexOfAt("v1.0/clip", '.', 2);
    assert "v1.0/clip"[4] == '/';
    assert forall j :: 0 <= j < |"noext"| ==> "noext"[j] != '.';
  }

  /** The catalog after `addVideo`, with the id it returns. */
  datatype Added = Added(videos: seq<VideoFile>, id: string)

  /** `addVideo`: builds the new record and appends it. */
  function AddVideo(videos: seq<VideoFile>, file: FileInfo, collectionId: string,
                    id: string, fileUrl: string, now: Instant): (r: Added)
    ensures |r.videos| == |videos| + 1
    ensures r.videos[..|videos|] == videos
    ensures r.id == id
    ensures var v := r.videos[|videos|];
      && v.id == id
      && v.name == StripExtension(file.name)
      && v.file == Some(file)
      && v.fileUrl == fileUrl
      && v.dateAdded == now
      && v.status == New
      && v.reviewCount == 0
      && v.collectionId == collectionId
      && v.fileSize == Some(file.size)
      && v.mimeType == Some(file.mimeType)
      && v.firstPlayDate.None? && v.nextReviewDate.None?
      && v.episodeNumber.None? && v.thumbnail.None? && v.duration.None? && v.mediaType.None?
  {
    var v := VideoFile(
      id := id,
      name := StripExtension(file.name),
      file := Some(file),
      fileUrl := fileUrl,
      dateAdded := now,
      firstPlayDate := None,
      reviewCount := 0,
      nextReviewDate := None,
      status := New,
      collectionId := collectionId,
      episodeNumber := None,
      thumbnail := None,
      duration := None,
      fileSize := Some(file.size),
      mimeType := Some(file.mimeType),
      mediaType := None);
    Added(videos + [v], id)
  }

  /** How many records carry `id`. */
  function CountId(videos: seq<VideoFile>, id: string): (n: nat)
    ensures n <= |videos|
  {
    if |videos| == 0 then 0
    else CountId(videos[..|videos| - 1], id) + (if videos[|videos| - 1].id == id then 1 else 0)
  }

  /** `deleteVideo`: `prev.filter(video => video.id !== videoId)`. */
  function DeleteVideo(videos: seq<VideoFile>, id: string): (r: seq<VideoFile>)
    ensures |r| == |videos| - CountId(videos, id)
    ensures forall i :: 0 <= i < |r| ==> r[i].id != id
  {
    if |videos| == 0 then []
    else
      var init := videos[..|videos| - 1];
      var last := videos[|videos| - 1];
      assert videos == init + [last];
      DeleteVideo(init, id) + (if last.id == id then [] else [last])
  }

  /** Deleting keeps the survivors in their original order: it distributes
      over concatenation. */
  lemma {:induction false} DeleteKeepsOrder(a: seq<VideoFile>, b: seq<VideoFile>, id: string)
    ensures DeleteVideo(a + b, id) == DeleteVideo(a, id) + DeleteVideo(b, id)
    decreases |b|
  {
    if |b| == 0 {
      assert a + b == a;
    } else {
      var b' := b[..|b| - 1];
      var last := b[|b| - 1];
      var tail := if last.id == id then [] else [last];
      DeleteKeepsOrder(a, b', id);
      var ab := a + b;
      assert ab[..|ab| - 1] == a + b';
      assert ab[|ab| - 1] == last;
      assert DeleteVideo(ab, id) == DeleteVideo(a + b', id) + tail;
      assert DeleteVideo(b, id) == DeleteVideo(b', id) + tail;
      assert DeleteVideo(a, id) + DeleteVideo(b', id) + tail
          == DeleteVideo(a, id) + (DeleteVideo(b', id) + tail);
    }
  }

  /** Exactly the records with another id survive. */
  lemma {:induction false} DeleteMembership(videos: seq<VideoFile>, id: string)
    ensures forall v :: v in DeleteVideo(videos, id) <==> v in videos && v.id != id
  {
    if |videos| > 0 {
      var init := videos[..|videos| - 1];
      var last := videos[|videos| - 1];
      DeleteMembership(init, id);
      assert videos == init + [last];
      assert DeleteVideo(videos, id) == DeleteVideo(init, id) + (if last.id == id then [] else [last]);
    }
  }

  /** Deleting an id no record carries changes nothing. */
  lemma {:induction false} DeleteAbsent(videos: seq<VideoFile>, id: string)
    requires forall i :: 0 <= i < |videos| ==> videos[i].id != id
    ensures DeleteVideo(videos, id) == videos
  {
    if |videos| > 0 {
      var init := videos[..|videos| - 1];
      DeleteAbsent(init, id);
      assert videos == init + [videos[|videos| - 1]];
    }
  }

  /** Deleting the same id twice is deleting it once. */
  lemma DeleteIdempotent(videos: seq<VideoFile>, id: string)
    ensures DeleteVideo(DeleteVideo(videos, id), id) == DeleteVideo(videos, id)
  {
    DeleteAbsent(DeleteVideo(videos, id), id);
  }

  /** Deleting the record just added, under an id not yet in use, gives back
      the catalog as it was. */
  lemma DeleteUndoesAdd(videos: seq<VideoFile>, file: FileInfo, collectionId: string,
                        id: string, fileUrl: string, now: Instant)
    requires forall i :: 0 <= i < |videos| ==> videos[i].id != id
    ensures DeleteVideo(AddVideo(videos, file, collectionId, id, fileUrl, now).videos, id) == videos
  {
    var added := AddVideo(videos, file, collectionId, id, fileUrl, now).videos;
    assert added == videos + [added[|videos|]];
    DeleteKeepsOrder(videos, [added[|videos|]], id);
    DeleteAbsent(videos, id);
    assert DeleteVideo([added[|videos|]], id) == [];
  }

  /** How many records are completed. */
  function CountCompleted(videos: seq<VideoFile>): (n: nat)
    ensures n <= |videos|
    ensures n == |videos| <==> forall i :: 0 <= i < |videos| ==> videos[i].status == Completed
    ensures n == 0 <==> forall i :: 0 <= i < |videos| ==> videos[i].status != Completed
  {
    if |videos| == 0 then 0
    else
      var init := videos[..|videos| - 1];
      var n := CountCompleted(init) + (if videos[|videos| - 1].status == Completed then 1 else 0);
      assert forall i :: 0 <= i < |init| ==> init[i] == videos[i];
      n
  }

  /** `Math.round(100 * completed / total)` in exact arithmetic: the nearest
      integer, halves rounded up; 0 for an empty catalog. */
  function ProgressPercent(completed: nat, total: nat): (p: int)
    requires completed <= total
    ensures 0 <= p <= 100
    ensures total > 0 ==> 2 * total * p <= 200 * completed + total < 2 * total * (p + 1)
    ensures total == 0 ==> p == 0
    ensures total > 0 && completed == total ==> p == 100
    ensures completed == 0 ==> p == 0
  {
    if total > 0 then
      var n := 200 * completed + total;
      var d := 2 * total;
      DivBounds(n, d);
      var p := n / d;
      assert 0 <= p <= 100 by {
        if p >= 101 {
          MulMonotone(d, 101, p);
        }
      }
      assert completed == total ==> p == 100 by {
        if completed == total && p < 100 {
          MulMonotone(d, p + 1, 100);
        }
      }
      assert completed == 0 ==> p == 0 by {
        if completed == 0 && p >= 1 {
          MulMonotone(d, 1, p);
        }
      }
      p
    else 0
  }

  /** Euclidean division brackets its dividend. */
  lemma DivBounds(n: nat, d: nat)
    requires 0 < d
    ensures d * (n / d) <= n < d * (n / d + 1)
  {
    var q := n / d;
    assert n == d * q + n % d;
    assert d * (q + 1) == d * q + d;
  }

  lemma MulMonotone(a: nat, b: int, c: int)
    requires b <= c
    ensures a * b <= a * c
  {
  }

  /** `getStats`. */
  function GetStats(videos: seq<VideoFile>): (r: LearningStats)
    ensures r.totalVideos == |videos|
    ensures r.completedVideos == CountCompleted(videos)
    ensures r.overallProgress == ProgressPercent(CountCompleted(videos), |videos|)
    ensures 0 <= r.overallProgress <= 100
    ensures r.todayNewCount == 0 && r.activeCollections == 0 && !r.canAddExtra
    ensures r.todayAudioReviewCount == Some(0) && r.todayVideoReviewCount == Some(0)
    ensures r.todayReviewCount.None?
  {
    var total := |videos|;
    var completed := CountCompleted(videos);
    LearningStats(
      totalVideos := total,
      completedVideos := completed,
      todayNewCount := 0,
      todayReviewCount := None,
      overallProgress := ProgressPercent(completed, total),
      activeCollections := 0,
      canAddExtra := false,
      todayAudioReviewCount := Some(0),
      todayVideoReviewCount := Some(0))
  }

  /** The progress is 100 when every record is completed and 0 when none is. */
  lemma ProgressExtremes(videos: seq<VideoFile>)
    ensures |videos| > 0 && (forall i :: 0 <= i < |videos| ==> videos[i].status == Completed)
            ==> GetStats(videos).overallProgress == 100
    ensures (forall i :: 0 <= i < |videos| ==> videos[i].status != Completed)
            ==> GetStats(videos).overallProgress == 0
  {
  }
}
