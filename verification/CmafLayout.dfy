/** Where the samples lie in the payload, and what a reader of the boxes recovers. */
module CmafLayout {
  import opened Basics
  import opened CmafSpec
  import opened CmafTheorems

  // ---------------------------------------------------------------- runs

  /** Runs that tile s from `begin`: each starts where the one before it ends, the last at the end. */
  predicate Tiles(s: seq<Sample>, runs: seq<Run>, begin: nat)
    requires begin <= |s|
  {
    if runs == [] then begin == |s|
    else runs[0].begin == begin && runs[0].begin < runs[0].end <= |s| && Tiles(s, runs[1..], runs[0].end)
  }

  /** A run holds one track and cannot be extended. */
  ghost predicate Maximal(s: seq<Sample>, r: Run) {
    && ValidRun(s, r)
    && (forall i :: r.begin <= i < r.end ==> s[i].track == s[r.begin].track)
    && (r.end < |s| ==> s[r.end].track != s[r.begin].track)
    && (r.begin > 0 ==> s[r.begin - 1].track != s[r.begin].track)
  }

  lemma {:induction false} RunEndMaximal(s: seq<Sample>, begin: nat, i: nat)
    requires begin < i <= |s| && forall j :: begin <= j < i ==> s[j].track == s[begin].track
    ensures var e := RunEnd(s, begin, i);
            && (forall j :: begin <= j < e ==> s[j].track == s[begin].track)
            && (e < |s| ==> s[e].track != s[begin].track)
    decreases |s| - i
  {
    if i < |s| && s[i].track == s[begin].track {
      RunEndMaximal(s, begin, i + 1);
    }
  }

  /** The runs are the maximal same-track segments and partition the list. */
  lemma {:induction false} RunsPartition(s: seq<Sample>, begin: nat)
    requires begin <= |s| && (0 < begin < |s| ==> s[begin - 1].track != s[begin].track)
    ensures Tiles(s, RunsFrom(s, begin), begin)
    ensures forall i :: 0 <= i < |RunsFrom(s, begin)| ==> Maximal(s, RunsFrom(s, begin)[i])
    decreases |s| - begin
  {
    if begin < |s| {
      var end := RunEnd(s, begin, begin + 1);
      RunEndMaximal(s, begin, begin + 1);
      assert s[end - 1].track == s[begin].track;
      RunsPartition(s, end);
      assert RunsFrom(s, begin) == [Run(begin, end)] + RunsFrom(s, end);
    }
  }

  function Slices(s: seq<Sample>, runs: seq<Run>): seq<Sample>
    requires ValidRuns(s, runs)
  {
    if runs == [] then [] else s[runs[0].begin..runs[0].end] + Slices(s, runs[1..])
  }

  lemma {:induction false} OfTrackConcat(a: seq<Sample>, b: seq<Sample>, track: nat)
    ensures OfTrack(a + b, track) == OfTrack(a, track) + OfTrack(b, track)
  {
    if a == [] {
      assert a + b == b;
    } else {
      assert (a + b)[1..] == a[1..] + b && (a + b)[0] == a[0];
      OfTrackConcat(a[1..], b, track);
      var own := if a[0].track == track then [a[0]] else [];
    }
  }

  lemma {:induction false} OfTrackUniform(a: seq<Sample>, owner: nat, track: nat)
    requires forall i :: 0 <= i < |a| ==> a[i].track == owner
    ensures OfTrack(a, track) == if owner == track then a else []
  {
    if a == [] {
    } else {
      OfTrackUniform(a[1..], owner, track);
    }
  }

  /** The runs of a track, joined, are exactly its samples in order. */
  lemma {:induction false} RunsHoldTrack(s: seq<Sample>, begin: nat, track: nat)
    requires begin <= |s|
    ensures Slices(s, RunsOf(s, RunsFrom(s, begin), track)) == OfTrack(s[begin..], track)
    decreases |s| - begin
  {
    hide Slices, RunsOf, OfTrack, RunEnd;
    if begin == |s| {
      NothingHeld(s, track);
    } else {
      var end := RunEnd(s, begin, begin + 1);
      OwnRun(s, begin, track);
      RunsHoldTrack(s, end, track);
      OfTrackConcat(s[begin..end], s[end..], track);
      assert s[begin..] == s[begin..end] + s[end..];
      RunsOfStep(s, Run(begin, end), RunsFrom(s, end), track);
    }
  }

  lemma {:induction false} NothingHeld(s: seq<Sample>, track: nat)
    ensures Slices(s, RunsOf(s, [], track)) == OfTrack([], track) == []
  {
  }

  /** A run belongs to one track. */
  lemma {:induction false} OwnRun(s: seq<Sample>, begin: nat, track: nat)
    requires begin < |s|
    ensures var end := RunEnd(s, begin, begin + 1);
            OfTrack(s[begin..end], track) == if s[begin].track == track then s[begin..end] else []
  {
    RunEndMaximal(s, begin, begin + 1);
    OfTrackUniform(s[begin..RunEnd(s, begin, begin + 1)], s[begin].track, track);
  }

  lemma {:induction false} RunsOfStep(s: seq<Sample>, r: Run, runs: seq<Run>, track: nat)
    requires ValidRun(s, r) && ValidRuns(s, runs)
    ensures ValidRuns(s, [r] + runs)
    ensures Slices(s, RunsOf(s, [r] + runs, track))
            == (if s[r.begin].track == track then s[r.begin..r.end] else []) + Slices(s, RunsOf(s, runs, track))
  {
    var rest := RunsOf(s, runs, track);
    assert ([r] + runs)[1..] == runs;
    if s[r.begin].track == track {
      assert RunsOf(s, [r] + runs, track) == [r] + rest;
      assert ([r] + rest)[1..] == rest;
    } else {
      assert RunsOf(s, [r] + runs, track) == rest;
    }
  }

  // ---------------------------------------------------------------- sizes

  lemma {:induction false} TrunsSizeFixed(s: seq<Sample>, runs: seq<Run>, a: nat, b: nat)
    requires ValidRuns(s, runs)
    ensures TrunsSize(TrunsOf(s, runs, a)) == TrunsSize(TrunsOf(s, runs, b))
  {
    if runs != [] {
      var n := |runs| - 1;
      TrunsSizeFixed(s, runs[..n], a, b);
      assert TrunsOf(s, runs, a)[..n] == TrunsOf(s, runs[..n], a);
      assert TrunsOf(s, runs, b)[..n] == TrunsOf(s, runs[..n], b);
    }
  }

  lemma {:induction false} TrafsStep(s: seq<Sample>, tracks: seq<Track>, vod: bool, start: nat)
    requires tracks != [] && forall t :: t in tracks ==> Rebasable(s, t, vod)
    ensures var n := |tracks| - 1; var t := tracks[n]; var runs := RunsOf(s, RunsFrom(s, 0), t.id);
            && (runs != [] ==> BaseTime(t, vod, s[runs[0].begin].time) >= 0)
            && TrafsSize(TrafsOf(s, tracks, vod, start)) == TrafsSize(TrafsOf(s, tracks[..n], vod, start))
               + if runs == [] then 0 else TrafSize(TrafOf(s, runs, t, vod, start))
  {
    var t := tracks[|tracks| - 1];
    assert Rebasable(s, t, vod);
    var before, all := TrafsOf(s, tracks[..|tracks| - 1], vod, start), TrafsOf(s, tracks, vod, start);
    var runs := RunsOf(s, RunsFrom(s, 0), t.id);
    if runs == [] {
      assert all == before;
    } else {
      assert all[..|all| - 1] == before;
    }
  }

  lemma {:induction false} TrafsSizeFixed(s: seq<Sample>, tracks: seq<Track>, vod: bool, a: nat, b: nat)
    requires forall t :: t in tracks ==> Rebasable(s, t, vod)
    ensures TrafsSize(TrafsOf(s, tracks, vod, a)) == TrafsSize(TrafsOf(s, tracks, vod, b))
  {
    if tracks != [] {
      var n := |tracks| - 1;
      var t := tracks[n];
      TrafsSizeFixed(s, tracks[..n], vod, a, b);
      assert Rebasable(s, t, vod);
      var runs := RunsOf(s, RunsFrom(s, 0), t.id);
      TrunsSizeFixed(s, runs, a, b);
      TrafsStep(s, tracks, vod, a);
      TrafsStep(s, tracks, vod, b);
    }
  }

  /** The sizing pass with a zero offset measures the box that is finally written. */
  lemma {:induction false} SizingPassExact(s: seq<Sample>, tracks: seq<Track>, vod: bool, sequenceNumber: nat,
                                           start: nat)
    requires forall t :: t in tracks ==> Rebasable(s, t, vod)
    ensures HeaderSize(s, tracks, vod, sequenceNumber) == MoofSize(MoofOf(s, tracks, vod, sequenceNumber, start)) + 8
  {
    TrafsSizeFixed(s, tracks, vod, 0, start);
  }

  // ---------------------------------------------------------------- positions

  /** Where a reader finds the k-th sample of a trun, from the start of the moof. */
  function PositionIn(t: Trun, k: nat): nat
    requires k <= |t.samples|
  {
    if k == 0 then t.dataOffset else PositionIn(t, k - 1) + t.samples[k - 1].size
  }

  lemma {:induction false} SizeBeforeMonotone(s: seq<Sample>, i: nat, j: nat)
    requires i <= j <= |s|
    ensures SizeBefore(s, i) <= SizeBefore(s, j)
  {
    if i < j {
      SizeBeforeMonotone(s, i, j - 1);
    }
  }

  lemma {:induction false} OffsetsKeepSizes(s: seq<Sample>, i: nat)
    requires i <= |s|
    ensures SizeBefore(WithOffsets(s), i) == SizeBefore(s, i)
  {
    if i > 0 {
      OffsetsKeepSizes(s, i - 1);
    }
  }

  /** Each of the first n samples' media offsets is the total size of the samples listed before it. */
  predicate OffsetsAreSums(s: seq<Sample>, n: nat)
    requires n <= |s|
  {
    n == 0 || (s[n - 1].mediaOffset == SizeBefore(s, n - 1) && OffsetsAreSums(s, n - 1))
  }

  lemma {:induction false} WithOffsetsAreSums(s: seq<Sample>, n: nat)
    requires n <= |s|
    ensures OffsetsAreSums(WithOffsets(s), n)
  {
    if n > 0 {
      OffsetsKeepSizes(s, n - 1);
      WithOffsetsAreSums(s, n - 1);
    }
  }

  lemma {:induction false} OffsetIsSum(s: seq<Sample>, n: nat, i: nat)
    requires i < n <= |s| && OffsetsAreSums(s, n)
    ensures s[i].mediaOffset == SizeBefore(s, i)
  {
    if i < n - 1 {
      OffsetIsSum(s, n - 1, i);
    }
  }

  lemma {:induction false} PositionsFollowSizes(s: seq<Sample>, t: Trun, r: Run, start: nat, k: nat)
    requires ValidRun(s, r) && k <= |t.samples| && t.samples == Records(s[r.begin..r.end])
    requires t.dataOffset == start + SizeBefore(s, r.begin)
    ensures PositionIn(t, k) == start + SizeBefore(s, r.begin + k)
  {
    if k > 0 {
      PositionsFollowSizes(s, t, r, start, k - 1);
    }
  }

  /** A reader finds every sample of a trun where the writer puts it: after everything listed before. */
  lemma {:induction false} TrunPositions(s: seq<Sample>, r: Run, start: nat, k: nat)
    requires ValidRun(s, r) && k <= r.end - r.begin
    requires s[r.begin].mediaOffset == SizeBefore(s, r.begin) && start + SizeBefore(s, r.begin) < TWO_TO_THE_32
    ensures PositionIn(TrunOf(s, r, start), k) == start + SizeBefore(s, r.begin + k)
  {
    PositionsFollowSizes(s, TrunOf(s, r, start), r, start, k);
  }

  // ---------------------------------------------------------------- the reader

  /** The sample records of a list of truns, joined. */
  function Joined(ts: seq<Trun>): seq<TrunSample> {
    if ts == [] then [] else ts[0].samples + Joined(ts[1..])
  }

  function Records(s: seq<Sample>): (r: seq<TrunSample>)
    ensures |r| == |s|
  {
    seq(|s|, i requires 0 <= i < |s| => TrunSample(s[i].size, s[i].duration, s[i].flags, s[i].offset))
  }

  lemma {:induction false} JoinedAreRecords(s: seq<Sample>, runs: seq<Run>, start: nat)
    requires ValidRuns(s, runs)
    ensures Joined(TrunsOf(s, runs, start)) == Records(Slices(s, runs))
  {
    if runs != [] {
      hide TrunOf, Records;
      var first := s[runs[0].begin..runs[0].end];
      JoinedAreRecords(s, runs[1..], start);
      assert TrunsOf(s, runs, start)[1..] == TrunsOf(s, runs[1..], start);
      TrunRecords(s, runs[0], start);
      RecordsConcat(first, Slices(s, runs[1..]));
    }
  }

  lemma {:induction false} TrunRecords(s: seq<Sample>, r: Run, start: nat)
    requires ValidRun(s, r)
    ensures TrunOf(s, r, start).samples == Records(s[r.begin..r.end])
  {
  }

  lemma {:induction false} RecordsConcat(a: seq<Sample>, b: seq<Sample>)
    ensures Records(a + b) == Records(a) + Records(b)
  {
  }

  /** A reader's decode time for the i-th record: the base time plus the durations before it. */
  function ReadTime(base: nat, rs: seq<TrunSample>, i: nat): nat
    requires i <= |rs|
  {
    if i == 0 then base else ReadTime(base, rs, i - 1) + rs[i - 1].duration
  }

  /** Lists that differ in media offsets only. */
  predicate SameButOffsets(a: seq<Sample>, b: seq<Sample>) {
    |a| == |b| && forall i :: 0 <= i < |a| ==> a[i].(mediaOffset := 0) == b[i].(mediaOffset := 0)
  }

  lemma {:induction false} OfTrackOffsets(a: seq<Sample>, b: seq<Sample>, track: nat)
    requires SameButOffsets(a, b)
    ensures SameButOffsets(OfTrack(a, track), OfTrack(b, track))
  {
    if a == [] {
    } else {
      assert a[0].(mediaOffset := 0) == b[0].(mediaOffset := 0);
      OfTrackOffsets(a[1..], b[1..], track);
    }
  }

  /** The records of a track's traf are those of its selected parts, in part order, and the base time is
      the time of the first of them. */
  lemma {:induction false} TrafHoldsTrack(tracks: seq<Track>, endTime: nat, n: nat, start: nat)
    requires AllServable(tracks) && Ascending(tracks) && n < |tracks|
    ensures var s := Listed(tracks, endTime);
            var runs := RunsOf(s, RunsFrom(s, 0), tracks[n].id);
            var mine := TrackSamples(tracks[n], endTime);
            && Joined(TrunsOf(s, runs, start)) == Records(mine)
            && (runs == [] <==> mine == [])
            && (mine != [] ==> s[runs[0].begin].time == tracks[n].firstTime)
  {
    hide Listed, SortSamples, AllSamples, RunsOf, RunsFrom, OfTrack, TrackSamples, Slices, Records, Joined, TrunsOf;
    var s := Listed(tracks, endTime);
    var runs := RunsOf(s, RunsFrom(s, 0), tracks[n].id);
    var mine := TrackSamples(tracks[n], endTime);
    JoinedAreRecords(s, runs, start);
    RunsHoldTrack(s, 0, tracks[n].id);
    assert s[0..] == s;
    ListedTrack(tracks, endTime, n);
    SameRecords(Slices(s, runs), mine);
    FirstSlice(s, runs);
    if mine != [] {
      TrackSampleAt(tracks[n], endTime, 0);
      assert Slices(s, runs)[0].(mediaOffset := 0) == mine[0].(mediaOffset := 0);
    }
  }

  lemma {:induction false} ListedTrack(tracks: seq<Track>, endTime: nat, n: nat)
    requires AllServable(tracks) && Ascending(tracks) && n < |tracks|
    ensures SameButOffsets(OfTrack(Listed(tracks, endTime), tracks[n].id), TrackSamples(tracks[n], endTime))
  {
    hide SortSamples, AllSamples, OfTrack, TrackSamples;
    OfTrackOffsets(Listed(tracks, endTime), SortSamples(AllSamples(tracks, endTime)), tracks[n].id);
    EachTrackInOrder(tracks, endTime, n);
  }

  lemma {:induction false} SameRecords(a: seq<Sample>, b: seq<Sample>)
    requires SameButOffsets(a, b)
    ensures Records(a) == Records(b)
  {
    forall i | 0 <= i < |a| ensures Records(a)[i] == Records(b)[i] {
      assert a[i].(mediaOffset := 0) == b[i].(mediaOffset := 0);
    }
  }

  lemma {:induction false} FirstSlice(s: seq<Sample>, runs: seq<Run>)
    requires ValidRuns(s, runs)
    ensures runs == [] <==> Slices(s, runs) == []
    ensures runs != [] ==> Slices(s, runs)[0] == s[runs[0].begin]
  {
  }

  /** The i-th record is the i-th selected part: its own time comes back (shifted), its size, duration and composition
      offset are the part's, and its flags say exactly whether it is a key frame: 0x02000000 for one that depends on no
      other sample, 0x01010000 for one that does and is no sync sample. */
  predicate RecoveredPart(t: Track, endTime: nat, base: nat, shift: int, rs: seq<TrunSample>, i: nat)
    requires i < |rs|
  {
    && Selected(t, t.firstPart + i, endTime)
    && ReadTime(base, rs, i) == PartTime(t, t.firstPart + i) - shift
    && (var p := t.parts[t.firstPart + i - t.firstValid];
        rs[i].size == p.size && rs[i].duration == p.duration && rs[i].offset == p.offset)
    && rs[i].flags == (if t.video && PartTime(t, t.firstPart + i) !in t.keys then 0x0101_0000 else 0x0200_0000)
  }

  /** Adding up durations from the base time gives every part its own time back (minus the first time
      of the track for VoD), next to its own size, duration and offset, and its flags tell key frames exactly. */
  lemma {:induction false} TimesRecovered(t: Track, endTime: nat, base: nat, shift: int, i: nat)
    requires Servable(t) && i < |TrackSamples(t, endTime)| && base == t.firstTime - shift
    ensures RecoveredPart(t, endTime, base, shift, Records(TrackSamples(t, endTime)), i)
  {
    hide TrackSamples, Servable;
    TrackSampleAt(t, endTime, i);
    if i > 0 {
      TimesRecovered(t, endTime, base, shift, i - 1);
      TrackSampleAt(t, endTime, i - 1);
    }
  }

  lemma {:induction false} AllTimesRecovered(t: Track, endTime: nat, base: nat, shift: int)
    requires Servable(t) && (TrackSamples(t, endTime) != [] ==> base == t.firstTime - shift)
    ensures var rs := Records(TrackSamples(t, endTime));
            forall i :: 0 <= i < |rs| ==> RecoveredPart(t, endTime, base, shift, rs, i)
  {
    var rs := Records(TrackSamples(t, endTime));
    forall i | 0 <= i < |rs| ensures RecoveredPart(t, endTime, base, shift, rs, i) {
      TimesRecovered(t, endTime, base, shift, i);
    }
  }
}
