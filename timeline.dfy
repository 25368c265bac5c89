/** The video editor page: a video track of clips that always tiles the imported
    video, an active clip, and an append-only track of text overlays. */
module VideoTimeline {
  import opened Wrappers
  import opened JsBuiltins

  /** A file chosen in the file input; only its MIME type is inspected. */
  datatype MediaFile = MediaFile(name: string, mimeType: string)

  /** A piece of the imported video on the video track. */
  datatype Clip = Clip(id: int, start: real, end: real, duration: real, file: MediaFile)

  /** A caption shown over the video between `start` and `end`. */
  datatype TextClip = TextClip(id: int, text: string, start: real, end: real, duration: real)

  /** No split closer than this many seconds to either end of a clip. */
  const GuardBand: real := 0.1

  /** How long a new caption stays on screen, in seconds. */
  const TextSpan: real := 3.0

  /** Only files whose type starts with `video/` are loaded into the player. */
  predicate IsVideoFile(f: MediaFile) {
    StartsWith(f.mimeType, "video/")
  }

  function Min(a: real, b: real): real {
    if a <= b then a else b
  }

  // ----- The video track as a partition of the timeline -----

  /** The clips cover `[lo, hi]` end to end: the first starts at `lo`, each ends
      where the next starts, the last ends at `hi`, and every duration is the
      clip's length. */
  predicate Tiles(cs: seq<Clip>, lo: real, hi: real) {
    && |cs| > 0
    && cs[0].start == lo
    && cs[|cs| - 1].end == hi
    && (forall i | 0 <= i < |cs| :: cs[i].duration == cs[i].end - cs[i].start)
    && (forall i | 0 <= i < |cs| - 1 :: Meets(cs, i))
  }

  /** Clip `i` ends exactly where clip `i + 1` starts. */
  predicate Meets(cs: seq<Clip>, i: nat)
    requires i + 1 < |cs|
  {
    cs[i].end == cs[i + 1].start
  }

  /** Every clip is longer than the guard band. */
  predicate LongerThanGuard(cs: seq<Clip>) {
    forall i | 0 <= i < |cs| :: cs[i].duration > GuardBand
  }

  predicate UniqueIds(cs: seq<Clip>) {
    forall i, j | 0 <= i < j < |cs| :: cs[i].id != cs[j].id
  }

  function SumDurations(cs: seq<Clip>): real {
    if cs == [] then 0.0 else cs[0].duration + SumDurations(cs[1..])
  }

  /** The durations of a tiling add up to the length of what it tiles. */
  lemma {:induction false} TilesSumDurations(cs: seq<Clip>, lo: real, hi: real)
    requires Tiles(cs, lo, hi)
    ensures SumDurations(cs) == hi - lo
  {
    if |cs| > 1 {
      assert Tiles(cs[1..], cs[0].end, hi) by {
        assert Meets(cs, 0);
        forall i | 0 <= i < |cs[1..]| - 1 ensures Meets(cs[1..], i) {
          assert Meets(cs, i + 1);
        }
      }
      TilesSumDurations(cs[1..], cs[0].end, hi);
    }
  }

  /** A tiling by clips of positive length is sorted and free of overlaps:
      an earlier clip ends no later than a later one starts. */
  lemma {:induction false} TilesOrdered(cs: seq<Clip>, lo: real, hi: real)
    requires Tiles(cs, lo, hi)
    requires forall i | 0 <= i < |cs| :: cs[i].duration > 0.0
    ensures forall i, j | 0 <= i < j < |cs| :: cs[i].end <= cs[j].start
    ensures forall i, j | 0 <= i < j < |cs| :: cs[i].start < cs[j].start
  {
    if |cs| > 1 {
      var tail := cs[1..];
      assert Tiles(tail, cs[0].end, hi) by {
        assert Meets(cs, 0);
        forall i | 0 <= i < |tail| - 1 ensures Meets(tail, i) {
          assert Meets(cs, i + 1);
        }
      }
      TilesOrdered(tail, cs[0].end, hi);
      forall i, j | 0 <= i < j < |cs| ensures cs[i].end <= cs[j].start && cs[i].start < cs[j].start {
        if i > 0 {
          assert tail[i - 1].end <= tail[j - 1].start;
        } else {
          assert Meets(cs, 0);
          if j > 1 {
            assert tail[0].end <= tail[j - 1].start;
          }
        }
      }
    }
  }

  // ----- Splitting a clip -----

  /** The split point is strictly inside the clip, more than the guard band
      away from both ends; otherwise the editor refuses to split. */
  predicate SplitPointValid(c: Clip, t: real) {
    !(t <= c.start + GuardBand || t >= c.end - GuardBand)
  }

  /** The part of `c` before `t`: same id, start and file. */
  function FirstPiece(c: Clip, t: real): (p: Clip)
    ensures p.id == c.id && p.start == c.start && p.file == c.file
    ensures p.end == t && p.duration == t - c.start
  {
    c.(end := t, duration := t - c.start)
  }

  /** The part of `c` after `t`, under a new id. */
  function SecondPiece(c: Clip, t: real, newId: int): (p: Clip)
    ensures p.id == newId && p.start == t && p.end == c.end && p.file == c.file
    ensures p.duration == c.end - t
  {
    c.(id := newId, start := t, duration := c.end - t)
  }

  /** `splice(i, 1, p1, p2)`: the clip at `i` replaced by `p1` then `p2`. */
  function Splice(cs: seq<Clip>, i: nat, p1: Clip, p2: Clip): (r: seq<Clip>)
    requires i < |cs|
    ensures |r| == |cs| + 1
    ensures r[i] == p1 && r[i + 1] == p2
    ensures forall k | 0 <= k < i :: r[k] == cs[k]
    ensures forall k | i + 1 < k < |r| :: r[k] == cs[k - 1]
  {
    cs[..i] + [p1, p2] + cs[i + 1..]
  }

  /** The index of the first clip with the given id, or -1 (`findIndex`). */
  function ClipIndex(cs: seq<Clip>, id: int): (r: int)
    ensures -1 <= r < |cs|
    ensures r >= 0 ==> cs[r].id == id
    ensures forall k | 0 <= k < |cs| && (r < 0 || k < r) :: cs[k].id != id
  {
    if cs == [] then -1
    else if cs[0].id == id then 0
    else
      var r := ClipIndex(cs[1..], id);
      if r < 0 then -1 else r + 1
  }

  /** Splitting one clip of a tiling at a valid point leaves a tiling of the same
      span; both pieces are longer than the guard band, and ids stay unique when
      the new id is fresh. */
  lemma SplitKeepsTiling(cs: seq<Clip>, lo: real, hi: real, i: nat, t: real, newId: int)
    requires Tiles(cs, lo, hi) && i < |cs| && SplitPointValid(cs[i], t)
    ensures var r := Splice(cs, i, FirstPiece(cs[i], t), SecondPiece(cs[i], t, newId));
      && Tiles(r, lo, hi)
      && r[i].duration > GuardBand && r[i + 1].duration > GuardBand
      && r[i].duration + r[i + 1].duration == cs[i].duration
      && ((|cs| > 1 ==> LongerThanGuard(cs)) ==> LongerThanGuard(r))
      && (UniqueIds(cs) && (forall k | 0 <= k < |cs| :: cs[k].id != newId) ==> UniqueIds(r))
  {
    var r := Splice(cs, i, FirstPiece(cs[i], t), SecondPiece(cs[i], t, newId));
    forall k | 0 <= k < |r| - 1 ensures Meets(r, k) {
      if k < i - 1 {
        assert r[k] == cs[k] && r[k + 1] == cs[k + 1];
        assert Meets(cs, k);
      } else if k == i - 1 {
        assert r[k] == cs[i - 1];
        assert Meets(cs, i - 1);
      } else if k > i + 1 {
        assert r[k] == cs[k - 1] && r[k + 1] == cs[k];
        assert Meets(cs, k - 1);
      } else if k == i + 1 {
        assert r[k + 1] == cs[i + 1];
        assert Meets(cs, i);
      }
    }
    if |cs| > 1 ==> LongerThanGuard(cs) {
      forall k | 0 <= k < |r| ensures r[k].duration > GuardBand {
        if k < i { assert r[k] == cs[k]; }
        else if k > i + 1 { assert r[k] == cs[k - 1]; }
      }
    }
  }

  /** One split request on a bare clip list: the clip at `index` split at `time`. */
  datatype SplitRequest = SplitRequest(index: nat, time: real, newId: int)

  /** The video track after a sequence of split requests, each applied only when
      its index exists and its split point passes the guard band. */
  function ApplySplits(cs: seq<Clip>, reqs: seq<SplitRequest>): seq<Clip>
    decreases |reqs|
  {
    if reqs == [] then cs
    else
      var q := reqs[0];
      var next :=
        if q.index < |cs| && SplitPointValid(cs[q.index], q.time)
        then Splice(cs, q.index, FirstPiece(cs[q.index], q.time), SecondPiece(cs[q.index], q.time, q.newId))
        else cs;
      ApplySplits(next, reqs[1..])
  }

  /** Every clip ends no later than any later clip starts, and starts strictly
      before it: the track is sorted and free of overlaps. */
  predicate Ordered(cs: seq<Clip>) {
    forall i, j | 0 <= i < j < |cs| :: cs[i].end <= cs[j].start && cs[i].start < cs[j].start
  }

  /** A tiling that is a single clip, or whose clips all exceed the guard band,
      is sorted and free of overlaps. */
  lemma TrackOrdered(cs: seq<Clip>, lo: real, hi: real)
    requires Tiles(cs, lo, hi) && (|cs| > 1 ==> LongerThanGuard(cs))
    ensures Ordered(cs)
  {
    if |cs| > 1 {
      TilesOrdered(cs, lo, hi);
    }
  }

  /** Starting from the single clip made at import, any sequence of splits keeps
      the video track a gap-free, overlap-free partition of `[0, d]`: sorted,
      each clip longer than the guard band once there are several, and with
      durations adding up to `d`. */
  lemma {:induction false} SplitsKeepPartition(c: Clip, d: real, reqs: seq<SplitRequest>)
    requires c.start == 0.0 && c.end == d && c.duration == d
    ensures Tiles(ApplySplits([c], reqs), 0.0, d)
    ensures |ApplySplits([c], reqs)| > 1 ==> LongerThanGuard(ApplySplits([c], reqs))
    ensures Ordered(ApplySplits([c], reqs))
    ensures SumDurations(ApplySplits([c], reqs)) == d
  {
    var r := ApplySplits([c], reqs);
    SplitsKeepTiling([c], d, reqs);
    TrackOrdered(r, 0.0, d);
    TilesSumDurations(r, 0.0, d);
  }

  /** Importing 100 seconds, splitting at 40 and then splitting the second
      piece at 70 gives three clips of 40, 30 and 30 seconds; a request inside
      the guard band of a clip's start changes nothing. */
  lemma SplitExample(id: int, id2: int, id3: int, f: MediaFile)
    ensures var once := ApplySplits([Clip(id, 0.0, 100.0, 100.0, f)], [SplitRequest(0, 40.0, id2)]);
      && once == [Clip(id, 0.0, 40.0, 40.0, f), Clip(id2, 40.0, 100.0, 60.0, f)]
      && ApplySplits(once, [SplitRequest(1, 70.0, id3)]) ==
           [Clip(id, 0.0, 40.0, 40.0, f), Clip(id2, 40.0, 70.0, 30.0, f), Clip(id3, 70.0, 100.0, 30.0, f)]
      && ApplySplits(once, [SplitRequest(1, 40.05, id3)]) == once
  {
    var c := Clip(id, 0.0, 100.0, 100.0, f);
    var once := [Clip(id, 0.0, 40.0, 40.0, f), Clip(id2, 40.0, 100.0, 60.0, f)];
    assert Splice([c], 0, FirstPiece(c, 40.0), SecondPiece(c, 40.0, id2)) == once;
    var d := once[1];
    assert Splice(once, 1, FirstPiece(d, 70.0), SecondPiece(d, 70.0, id3)) ==
      [once[0], Clip(id2, 40.0, 70.0, 30.0, f), Clip(id3, 70.0, 100.0, 30.0, f)];
  }

  /** Any sequence of split requests keeps a tiling of `[0, d]`, and keeps
      every clip longer than the guard band once there are several. */
  lemma {:induction false} SplitsKeepTiling(cs: seq<Clip>, d: real, reqs: seq<SplitRequest>)
    requires Tiles(cs, 0.0, d)
    ensures Tiles(ApplySplits(cs, reqs), 0.0, d)
    ensures (|cs| > 1 ==> LongerThanGuard(cs)) ==>
      (|ApplySplits(cs, reqs)| > 1 ==> LongerThanGuard(ApplySplits(cs, reqs)))
    decreases |reqs|
  {
    if reqs != [] {
      var q := reqs[0];
      if q.index < |cs| && SplitPointValid(cs[q.index], q.time) {
        SplitKeepsTiling(cs, 0.0, d, q.index, q.time, q.newId);
      }
      var next :=
        if q.index < |cs| && SplitPointValid(cs[q.index], q.time)
        then Splice(cs, q.index, FirstPiece(cs[q.index], q.time), SecondPiece(cs[q.index], q.time, q.newId))
        else cs;
      SplitsKeepTiling(next, d, reqs[1..]);
    }
  }

  /** `findIndex(c => c.id === id)`, as a loop over the clip list. */
  method FindClipIndex(cs: seq<Clip>, id: int) returns (index: int)
    ensures index == ClipIndex(cs, id)
    ensures index >= 0 <==> exists k :: 0 <= k < |cs| && cs[k].id == id
  {
    index := 0;
    while index < |cs|
      invariant 0 <= index <= |cs|
      invariant forall k | 0 <= k < index :: cs[k].id != id
    {
      if cs[index].id == id {
        ClipIndexFirst(cs, id, index);
        return;
      }
      index := index + 1;
    }
    ClipIndexAbsent(cs, id);
    index := -1;
  }

  lemma {:induction false} ClipIndexFirst(cs: seq<Clip>, id: int, i: nat)
    requires i < |cs| && cs[i].id == id
    requires forall k | 0 <= k < i :: cs[k].id != id
    ensures ClipIndex(cs, id) == i
  {
  }

  lemma {:induction false} ClipIndexAbsent(cs: seq<Clip>, id: int)
    requires forall k | 0 <= k < |cs| :: cs[k].id != id
    ensures ClipIndex(cs, id) == -1
  {
  }

  /** The state updater handed to `setClips` by a split: the clip carrying `id`
      replaced, at the same index, by the two pieces; the list itself when no
      clip carries `id`. */
  method ReplaceClip(prev: seq<Clip>, id: int, p1: Clip, p2: Clip) returns (updated: seq<Clip>)
    ensures var i := ClipIndex(prev, id);
      updated == if i < 0 then prev else Splice(prev, i, p1, p2)
    ensures (forall k | 0 <= k < |prev| :: prev[k].id != id) ==> updated == prev
  {
    var index := FindClipIndex(prev, id);
    if index == -1 {
      return prev;
    }
    updated := prev[..index] + [p1, p2] + prev[index + 1..];
  }

  // ----- Text overlays -----

  /** The overlays shown at time `t` (both ends inclusive), in insertion order. */
  function VisibleOverlays(texts: seq<TextClip>, t: real): seq<TextClip> {
    if texts == [] then []
    else
      var c := texts[0];
      (if c.start <= t <= c.end then [c] else []) + VisibleOverlays(texts[1..], t)
  }

  /** An overlay is shown at `t` exactly when it is on the track and `t` lies
      within its span, ends included. */
  lemma {:induction false} VisibleOverlaysMembers(texts: seq<TextClip>, t: real)
    ensures forall c :: c in VisibleOverlays(texts, t) <==> c in texts && c.start <= t <= c.end
  {
    if texts != [] {
      VisibleOverlaysMembers(texts[1..], t);
      assert forall c :: c in texts <==> c == texts[0] || c in texts[1..];
    }
  }

  /** Filtering keeps insertion order: the overlays of a concatenation are the
      overlays of each part, one after the other. */
  lemma {:induction false} VisibleOverlaysAppend(a: seq<TextClip>, b: seq<TextClip>, t: real)
    ensures VisibleOverlays(a + b, t) == VisibleOverlays(a, t) + VisibleOverlays(b, t)
  {
    if a == [] {
      assert a + b == b;
    } else {
      var ab := a + b;
      assert ab[0] == a[0];
      assert ab[1..] == a[1..] + b;
      VisibleOverlaysAppend(a[1..], b, t);
    }
  }

  // ----- Clock display -----

  /** `formatTime`: minutes, a colon, and the seconds padded to two digits. */
  function FormatTime(t: JsNumber): string {
    match t
    case NaN => "0:00"
    case Num(x) =>
      IntString((x / 60.0).Floor) + ":" + PadStart(IntString(JsRem(x, 60.0).Floor), 2, '0')
  }

  /** "m:ss" for a whole number of seconds: the minutes, a colon, and the
      remaining seconds as exactly two digits. */
  function ClockText(n: nat): string {
    Decimal(n / 60) + ":" + [DigitChar(n % 60 / 10), DigitChar(n % 60 % 10)]
  }

  /** For a non-negative time the display is that of its whole seconds; a
      time that is not a number shows as "0:00". */
  lemma FormatTimeShape(x: real)
    requires x >= 0.0
    ensures FormatTime(Num(x)) == ClockText(x.Floor)
    ensures FormatTime(NaN) == ClockText(0)
  {
    var n := x.Floor;
    FloorDivision(x);
    TwoDigits(n % 60);
  }

  /** Seconds below a minute padded to two characters are their two digits. */
  lemma TwoDigits(s: nat)
    requires s < 60
    ensures PadStart(IntString(s), 2, '0') == [DigitChar(s / 10), DigitChar(s % 10)]
  {
    if s < 10 {
      assert IntString(s) == [DigitChar(s)];
      assert DigitChar(0) == '0';
    } else {
      assert Decimal(s / 10) == [DigitChar(s / 10)];
      assert IntString(s) == Decimal(s / 10) + [DigitChar(s % 10)];
    }
  }

  lemma FloorDivision(x: real)
    requires x >= 0.0
    ensures (x / 60.0).Floor == x.Floor / 60
    ensures JsRem(x, 60.0).Floor == x.Floor % 60
  {
    var n := x.Floor;
    var q := (x / 60.0).Floor;
    assert q as real <= x / 60.0 < q as real + 1.0;
    assert 60.0 * (q as real) <= x < 60.0 * (q as real) + 60.0;
    assert 60 * q <= n < 60 * q + 60;
    assert JsRem(x, 60.0) == x - 60.0 * (q as real);
  }

  /** Reads back an "m:ss" display as a number of whole seconds. */
  function ParseClock(s: string): Option<int> {
    var i := IndexOf(s, ":");
    if i < 0 then None else ClockFields(s[..i], s[i + 1..])
  }

  /** The minutes and the two-digit seconds on either side of the colon. */
  function ClockFields(m: string, sec: string): Option<int> {
    if m != [] && AllDigits(m) && |sec| == 2 && AllDigits(sec)
    then Some(60 * DecimalValue(m) + DecimalValue(sec))
    else None
  }

  /** The display of a non-negative time reads back as its whole number of seconds. */
  lemma FormatTimeRoundTrip(x: real)
    requires x >= 0.0
    ensures ParseClock(FormatTime(Num(x))) == Some(x.Floor)
  {
    FormatTimeShape(x);
    ClockTextRoundTrip(x.Floor);
  }

  lemma ClockTextRoundTrip(n: nat)
    ensures ParseClock(ClockText(n)) == Some(n)
  {
    var q, s := n / 60, n % 60;
    var m := Decimal(q);
    var sec := [DigitChar(s / 10), DigitChar(s % 10)];
    IndexOfAfter(m, ':', sec);
    ParseClockParts(m, sec);
    DecimalRoundTrip(q);
    assert sec[..1] == [DigitChar(s / 10)];
    assert DecimalValue(sec[..1]) == s / 10 by {
      assert sec[..1][..0] == [];
    }
  }

  lemma ParseClockParts(m: string, sec: string)
    requires m != [] && AllDigits(m) && |sec| == 2 && AllDigits(sec)
    requires IndexOf(m + ":" + sec, ":") == |m|
    ensures ParseClock(m + ":" + sec) == Some(60 * DecimalValue(m) + DecimalValue(sec))
  {
    var s := m + ":" + sec;
    assert s[..|m|] == m && s[|m| + 1..] == sec;
    assert ParseClock(s) == ClockFields(m, sec);
    assert ClockFields(m, sec) == Some(60 * DecimalValue(m) + DecimalValue(sec));
  }

  // ----- The editor page state -----

  class VideoEditor {
    /** The file currently held by the file input. */
    var inputFile: Option<MediaFile>
    /** The file shown by the player; the player exists only when this is set. */
    var videoSrc: Option<MediaFile>
    var duration: real
    var currentTime: real
    var clips: seq<Clip>
    var activeClip: Option<Clip>
    var textClips: seq<TextClip>
    var newText: string
    var isTextDialogOpen: bool
    /** The video duration the current clip list was imported for. */
    ghost var span: real

    /** The video track invariant, over the current fields. */
    ghost predicate Valid()
      reads this
    {
      TrackValid(clips, activeClip, span)
    }

    constructor ()
      ensures Valid()
      ensures inputFile == None && videoSrc == None
      ensures duration == 0.0 && currentTime == 0.0
      ensures clips == [] && activeClip == None && textClips == []
      ensures newText == [] && !isTextDialogOpen
    {
      inputFile, videoSrc := None, None;
      duration, currentTime := 0.0, 0.0;
      clips, activeClip, textClips := [], None, [];
      newText, isTextDialogOpen := [], false;
      span := 0.0;
    }

    /** `handleFileChange`: the input now holds `file`; the player loads it
        only when it is a video. */
    method FileChange(file: Option<MediaFile>) returns (accepted: bool)
      requires Valid()
      modifies this
      ensures Valid()
      ensures accepted <==> file.Some? && IsVideoFile(file.value)
      ensures inputFile == file
      ensures videoSrc == if accepted then file else old(videoSrc)
      ensures duration == old(duration) && currentTime == old(currentTime)
      ensures clips == old(clips) && activeClip == old(activeClip) && span == old(span)
      ensures textClips == old(textClips) && newText == old(newText)
      ensures isTextDialogOpen == old(isTextDialogOpen)
    {
      inputFile := file;
      accepted := file.Some? && IsVideoFile(file.value);
      if accepted {
        videoSrc := file;
      }
    }

    /** `handleLoadedMetadata`: the player reports the video's duration; with a
        file in the input, the video track becomes one clip spanning the whole
        video, and it becomes the active clip. */
    method LoadedMetadata(videoDuration: real, id: int)
      requires Valid()
      modifies this
      ensures Valid()
      ensures duration == if old(videoSrc).Some? then videoDuration else old(duration)
      ensures old(videoSrc).Some? && old(inputFile).Some? ==>
        && clips == [Clip(id, 0.0, videoDuration, videoDuration, old(inputFile).value)]
        && activeClip == Some(clips[0])
        && span == videoDuration
      ensures !(old(videoSrc).Some? && old(inputFile).Some?) ==>
        clips == old(clips) && activeClip == old(activeClip) && span == old(span)
      ensures inputFile == old(inputFile) && videoSrc == old(videoSrc)
      ensures currentTime == old(currentTime)
      ensures textClips == old(textClips) && newText == old(newText)
      ensures isTextDialogOpen == old(isTextDialogOpen)
    {
      if videoSrc.Some? {
        duration := videoDuration;
        if inputFile.Some? {
          var initial := Clip(id, 0.0, videoDuration, videoDuration, inputFile.value);
          clips := [initial];
          activeClip := Some(initial);
          span := videoDuration;
        }
      }
    }

    /** `handleTimeUpdate` and `handleSeek`: the playhead moves to `t`. */
    method MovePlayhead(t: real)
      requires Valid()
      modifies this
      ensures Valid()
      ensures currentTime == (if old(videoSrc).Some? then t else old(currentTime))
      ensures inputFile == old(inputFile) && videoSrc == old(videoSrc) && duration == old(duration)
      ensures clips == old(clips) && activeClip == old(activeClip) && span == old(span)
      ensures textClips == old(textClips) && newText == old(newText)
      ensures isTextDialogOpen == old(isTextDialogOpen)
    {
      if videoSrc.Some? {
        currentTime := t;
      }
    }

    /** Clicking a clip on the timeline makes it the active clip. */
    method SelectClip(i: nat)
      requires Valid() && i < |clips|
      modifies this
      ensures Valid()
      ensures clips == old(clips) && activeClip == Some(clips[i])
      ensures inputFile == old(inputFile) && videoSrc == old(videoSrc) && duration == old(duration)
      ensures currentTime == old(currentTime) && span == old(span)
      ensures textClips == old(textClips) && newText == old(newText)
      ensures isTextDialogOpen == old(isTextDialogOpen)
    {
      activeClip := Some(clips[i]);
    }

    /** `handleSplitClip` with the player at `playhead`: a no-op without a player
        or an active clip, or when the playhead is within the guard band of
        either end of the active clip; otherwise the active clip is replaced, in
        place, by its two pieces and the first piece becomes active. */
    method SplitActiveClip(playhead: real, newId: int) returns (didSplit: bool)
      requires Valid()
      requires forall k | 0 <= k < |clips| :: clips[k].id != newId
      modifies this
      ensures Valid()
      ensures didSplit <==>
        old(videoSrc).Some? && old(activeClip).Some? && SplitPointValid(old(activeClip).value, playhead)
      ensures !didSplit ==> clips == old(clips) && activeClip == old(activeClip)
      ensures didSplit ==>
        var c := old(activeClip).value;
        var i := ClipIndex(old(clips), c.id);
        && 0 <= i < |old(clips)| && old(clips)[i] == c
        && clips == Splice(old(clips), i, FirstPiece(c, playhead), SecondPiece(c, playhead, newId))
        && activeClip == Some(FirstPiece(c, playhead))
      ensures span == old(span) && inputFile == old(inputFile) && videoSrc == old(videoSrc)
      ensures duration == old(duration) && currentTime == old(currentTime)
      ensures textClips == old(textClips) && newText == old(newText)
      ensures isTextDialogOpen == old(isTextDialogOpen)
    {
      if activeClip.None? || videoSrc.None? {
        return false;
      }
      var c := activeClip.value;
      if playhead <= c.start + GuardBand || playhead >= c.end - GuardBand {
        return false;
      }
      SplitClip(c, playhead, newId);
      didSplit := true;
    }

    /** The state update of a split of the active clip `c` at a valid point:
        the track updater, then the first piece made active. */
    method SplitClip(c: Clip, playhead: real, newId: int)
      requires Valid() && activeClip == Some(c) && SplitPointValid(c, playhead)
      requires forall k | 0 <= k < |clips| :: clips[k].id != newId
      modifies this
      ensures Valid()
      ensures var i := ClipIndex(old(clips), c.id);
        && 0 <= i < |old(clips)| && old(clips)[i] == c
        && clips == Splice(old(clips), i, FirstPiece(c, playhead), SecondPiece(c, playhead, newId))
      ensures activeClip == Some(FirstPiece(c, playhead))
      ensures span == old(span) && inputFile == old(inputFile) && videoSrc == old(videoSrc)
      ensures duration == old(duration) && currentTime == old(currentTime)
      ensures textClips == old(textClips) && newText == old(newText)
      ensures isTextDialogOpen == old(isTextDialogOpen)
    {
      var first := FirstPiece(c, playhead);
      var second := SecondPiece(c, playhead, newId);
      ghost var prev := clips;
      ghost var i := ClipIndex(clips, c.id);
      SplitKeepsTrack(clips, c, span, playhead, newId);
      clips := ReplaceClip(clips, c.id, first, second);
      assert clips == Splice(prev, i, first, second);
      activeClip := Some(first);
    }

    /** `handleAddText` with the player at `playhead`: a no-op without a player
        or when the typed text is blank; otherwise one caption is appended,
        starting at the playhead and lasting three seconds but never past the
        end of the video, and the text box is cleared. */
    method AddText(playhead: real, id: int) returns (added: bool)
      requires Valid()
      modifies this
      ensures Valid()
      ensures added <==> old(videoSrc).Some? && !IsBlank(old(newText))
      ensures added ==>
        var end := Min(playhead + TextSpan, old(duration));
        && textClips == old(textClips) + [TextClip(id, old(newText), playhead, end, end - playhead)]
        && newText == [] && !isTextDialogOpen
      ensures !added ==>
        textClips == old(textClips) && newText == old(newText) && isTextDialogOpen == old(isTextDialogOpen)
      ensures inputFile == old(inputFile) && videoSrc == old(videoSrc) && duration == old(duration)
      ensures currentTime == old(currentTime) && clips == old(clips) && activeClip == old(activeClip)
      ensures span == old(span)
    {
      if IsBlank(newText) || videoSrc.None? {
        return false;
      }
      var startTime := playhead;
      var endTime := Min(startTime + TextSpan, duration);
      var clip := TextClip(id, newText, startTime, endTime, endTime - startTime);
      textClips := textClips + [clip];
      newText := [];
      isTextDialogOpen := false;
      added := true;
    }

    /** Typing in the caption box. */
    method SetNewText(s: string)
      requires Valid()
      modifies this
      ensures Valid()
      ensures newText == s
      ensures inputFile == old(inputFile) && videoSrc == old(videoSrc) && duration == old(duration)
      ensures currentTime == old(currentTime) && clips == old(clips) && activeClip == old(activeClip)
      ensures textClips == old(textClips) && span == old(span)
      ensures isTextDialogOpen == old(isTextDialogOpen)
    {
      newText := s;
    }

    /** `renderTextOverlays`: the captions shown at the current playhead. */
    function ShownOverlays(): seq<TextClip>
      reads this
    {
      VisibleOverlays(textClips, currentTime)
    }
  }

  /** The editor's invariant on its video track: it tiles `[0, span]` with
      uniquely identified clips, after the first split every clip is longer than
      the guard band, and the active clip is one of the clips. */
  ghost predicate TrackValid(clips: seq<Clip>, activeClip: Option<Clip>, span: real) {
    && (clips == [] ==> activeClip == None)
    && (clips != [] ==>
          && Tiles(clips, 0.0, span)
          && (|clips| > 1 ==> LongerThanGuard(clips))
          && UniqueIds(clips))
    && (activeClip.Some? ==> activeClip.value in clips)
  }

  /** Splitting the active clip of a valid track at a valid point, with a
      fresh id for the second piece, leaves a valid track whose active clip is
      the first piece. */
  lemma SplitKeepsTrack(clips: seq<Clip>, c: Clip, span: real, t: real, newId: int)
    requires TrackValid(clips, Some(c), span) && SplitPointValid(c, t)
    requires forall k | 0 <= k < |clips| :: clips[k].id != newId
    ensures var i := ClipIndex(clips, c.id);
      && 0 <= i < |clips| && clips[i] == c
      && TrackValid(Splice(clips, i, FirstPiece(c, t), SecondPiece(c, t, newId)), Some(FirstPiece(c, t)), span)
  {
    var i := ClipIndex(clips, c.id);
    ActiveClipIndex(clips, c);
    SplitKeepsTiling(clips, 0.0, span, i, t, newId);
  }

  /** The editor's track is sorted and free of overlaps. */
  lemma TrackValidOrdered(clips: seq<Clip>, activeClip: Option<Clip>, span: real)
    requires TrackValid(clips, activeClip, span)
    ensures Ordered(clips)
  {
    if clips != [] {
      TrackOrdered(clips, 0.0, span);
    }
  }

  /** With unique ids, the active clip is found at its own index. */
  lemma ActiveClipIndex(cs: seq<Clip>, c: Clip)
    requires UniqueIds(cs) && c in cs
    ensures 0 <= ClipIndex(cs, c.id) < |cs| && cs[ClipIndex(cs, c.id)] == c
  {
    var j :| 0 <= j < |cs| && cs[j] == c;
  }
}
