/** The guarantees of a successfully planned fragment, stated on its boxes. */
module CmafFragment {
  import opened Basics
  import opened CmafSpec
  import opened CmafTheorems
  import opened CmafLayout

  /** The offsets were computed for the header that is written, the mdat header matches the payload, and
      everything fits the signed 32-bit offsets. */
  ghost predicate Consistent(f: Fragment, tracks: seq<Track>, vod: bool, sequenceNumber: nat) {
    && f.samples != [] && AllRebasable(f.samples, tracks, vod) && OffsetsAreSums(f.samples, |f.samples|)
    && f.moof == MoofOf(f.samples, tracks, vod, sequenceNumber, HeaderLength(f))
    && f.payloadSize == SizeBefore(f.samples, |f.samples|) && f.mdatSize == f.payloadSize + 8
    && HeaderLength(f) + f.payloadSize <= INT32_MAX
  }

  lemma {:induction false} BoxedConsistent(s: seq<Sample>, tracks: seq<Track>, vod: bool, sequenceNumber: nat,
                                           f: Fragment)
    requires s != [] && OffsetsAreSums(s, |s|) && AllRebasable(s, tracks, vod)
    requires Boxed(s, tracks, vod, sequenceNumber) == Some(f)
    ensures Consistent(f, tracks, vod, sequenceNumber) && f.samples == s
  {
    var start := HeaderSize(s, tracks, vod, sequenceNumber);
    SizingPassExact(s, tracks, vod, sequenceNumber, start);
    assert HeaderLength(f) == start;
  }

  /** A successful plan lists the selected samples and is consistent. */
  lemma {:induction false} PlanConsistent(tracks: seq<Track>, vod: bool, startTime: nat, endTime: nat,
                                          sequenceNumber: nat, f: Fragment)
    requires Plan(tracks, vod, startTime, endTime, sequenceNumber) == Some(f)
    ensures AllServable(tracks) && f.samples == Listed(tracks, endTime)
    ensures Consistent(f, tracks, vod, sequenceNumber) && f.moof.sequenceNumber == sequenceNumber % 0x1_0000_0000
  {
    var s := Listed(tracks, endTime);
    WithOffsetsAreSums(SortSamples(AllSamples(tracks, endTime)), |s|);
    BoxedConsistent(s, tracks, vod, sequenceNumber, f);
  }

  /** A track with runs has its traf in the moof. */
  lemma {:induction false} TrafPresent(s: seq<Sample>, tracks: seq<Track>, vod: bool, start: nat, n: nat)
    requires AllRebasable(s, tracks, vod) && n < |tracks|
    requires RunsOf(s, RunsFrom(s, 0), tracks[n].id) != []
    ensures var runs := RunsOf(s, RunsFrom(s, 0), tracks[n].id);
            && BaseTime(tracks[n], vod, s[runs[0].begin].time) >= 0
            && TrafOf(s, runs, tracks[n], vod, start) in TrafsOf(s, tracks, vod, start)
  {
    assert Rebasable(s, tracks[n], vod);
    if n < |tracks| - 1 {
      TrafPresent(s, tracks[..|tracks| - 1], vod, start, n);
    }
  }

  /** Every traf belongs to a track with runs. */
  lemma {:induction false} TrafHasTrack(s: seq<Sample>, tracks: seq<Track>, vod: bool, start: nat, traf: Traf)
      returns (n: nat)
    requires AllRebasable(s, tracks, vod) && traf in TrafsOf(s, tracks, vod, start)
    ensures n < |tracks|
    ensures var runs := RunsOf(s, RunsFrom(s, 0), tracks[n].id);
            && runs != [] && BaseTime(tracks[n], vod, s[runs[0].begin].time) >= 0
            && traf == TrafOf(s, runs, tracks[n], vod, start)
  {
    n := |tracks| - 1;
    assert Rebasable(s, tracks[n], vod);
    if traf in TrafsOf(s, tracks[..n], vod, start) {
      n := TrafHasTrack(s, tracks[..n], vod, start, traf);
    }
  }

  /** The run a listed sample lies in. */
  lemma {:induction false} RunContaining(s: seq<Sample>, runs: seq<Run>, begin: nat, i: nat) returns (j: nat)
    requires begin <= i < |s| && Tiles(s, runs, begin)
    ensures j < |runs| && runs[j].begin <= i < runs[j].end <= |s|
    decreases |runs|
  {
    if i < runs[0].end {
      j := 0;
    } else {
      j := RunContaining(s, runs[1..], runs[0].end, i);
      j := j + 1;
    }
  }

  lemma {:induction false} RunKept(s: seq<Sample>, runs: seq<Run>, j: nat, track: nat)
    requires ValidRuns(s, runs) && j < |runs| && s[runs[j].begin].track == track
    ensures runs[j] in RunsOf(s, runs, track)
    decreases |runs|
  {
    if j > 0 {
      RunKept(s, runs[1..], j - 1, track);
    }
  }

  /** The part of the selection a listed sample stands for, with what its record says of it. */
  ghost predicate IsPart(tracks: seq<Track>, x: Sample, rec: TrunSample) {
    exists n :: 0 <= n < |tracks| && tracks[n].id == x.track && tracks[n].firstValid <= x.part < tracks[n].EndValid()
                && var p := tracks[n].parts[x.part - tracks[n].firstValid];
                   rec.size == p.size && rec.duration == p.duration && rec.offset == p.offset
  }

  /** Where a reader finds a sample: a trun of the sample's track, and an index in it whose record has the size,
      duration and composition offset of the sample's part. */
  ghost predicate FoundAt(f: Fragment, tracks: seq<Track>, i: nat, traf: Traf, trun: Trun, k: nat)
    requires i < |f.samples|
  {
    && traf in f.moof.trafs && traf.trackId == f.samples[i].track + 1
    && trun in traf.truns && k < |trun.samples|
    && trun.samples[k] == Records(f.samples)[i] && IsPart(tracks, f.samples[i], trun.samples[k])
    && PositionIn(trun, k) == HeaderLength(f) + SizeBefore(f.samples, i)
    && PositionIn(trun, k + 1) == HeaderLength(f) + SizeBefore(f.samples, i + 1) <= INT32_MAX
  }

  /** The traf of a listed sample's track. */
  lemma {:induction false} TrafOfSample(tracks: seq<Track>, vod: bool, endTime: nat, sequenceNumber: nat,
                                        f: Fragment, i: nat)
      returns (traf: Traf, run: Run)
    requires AllServable(tracks) && Ascending(tracks) && f.samples == Listed(tracks, endTime)
    requires Consistent(f, tracks, vod, sequenceNumber) && i < |f.samples|
    ensures traf in f.moof.trafs && traf.trackId == f.samples[i].track + 1
    ensures ValidRun(f.samples, run) && run.begin <= i < run.end
    ensures TrunOf(f.samples, run, HeaderLength(f)) in traf.truns
  {
    var s, start := f.samples, HeaderLength(f);
    var all := RunsFrom(s, 0);
    RunsPartition(s, 0);
    var j := RunContaining(s, all, 0, i);
    run := all[j];
    assert Maximal(s, run);
    var id := s[i].track;
    RunKept(s, all, j, id);
    var n := TrackOfSample(tracks, endTime, i);
    TrafPresent(s, tracks, vod, start, n);
    traf := TrafOf(s, RunsOf(s, all, id), tracks[n], vod, start);
    TrunIncluded(s, RunsOf(s, all, id), run, start);
  }

  lemma {:induction false} TrunIncluded(s: seq<Sample>, runs: seq<Run>, run: Run, start: nat)
    requires ValidRuns(s, runs) && run in runs
    ensures ValidRun(s, run) && TrunOf(s, run, start) in TrunsOf(s, runs, start)
  {
    var m :| 0 <= m < |runs| && runs[m] == run;
    assert TrunsOf(s, runs, start)[m] == TrunOf(s, run, start);
  }

  /** Samples tile the payload: each is described in the boxes, at the byte right after all earlier ones. */
  lemma {:induction false} EverySampleFound(tracks: seq<Track>, vod: bool, startTime: nat, endTime: nat,
                                            sequenceNumber: nat, f: Fragment, i: nat)
    requires Plan(tracks, vod, startTime, endTime, sequenceNumber) == Some(f) && Ascending(tracks) && i < |f.samples|
    ensures exists traf, trun, k :: FoundAt(f, tracks, i, traf, trun, k)
  {
    hide Plan, Consistent, IsPart, SizeBefore, PositionIn, Records, TrunOf, HeaderLength;
    PlanConsistent(tracks, vod, startTime, endTime, sequenceNumber, f);
    var traf, run := TrafOfSample(tracks, vod, endTime, sequenceNumber, f, i);
    var start := HeaderLength(f);
    RecordOfSample(f.samples, start, run, i);
    PartOfSample(tracks, endTime, i);
    PositionOfSample(f.samples, start, run, i);
    PositionOfSample(f.samples, start, run, i + 1);
    assert FoundAt(f, tracks, i, traf, TrunOf(f.samples, run, start), i - run.begin);
  }

  lemma {:induction false} PositionOfSample(s: seq<Sample>, start: nat, run: Run, i: nat)
    requires OffsetsAreSums(s, |s|) && ValidRun(s, run) && run.begin <= i <= run.end
    requires start + SizeBefore(s, |s|) <= INT32_MAX
    ensures PositionIn(TrunOf(s, run, start), i - run.begin) == start + SizeBefore(s, i) <= INT32_MAX
  {
    SizeBeforeMonotone(s, run.begin, |s|);
    SizeBeforeMonotone(s, i, |s|);
    OffsetIsSum(s, |s|, run.begin);
    TrunPositions(s, run, start, i - run.begin);
  }

  lemma {:induction false} RecordOfSample(s: seq<Sample>, start: nat, run: Run, i: nat)
    requires ValidRun(s, run) && run.begin <= i < run.end
    ensures TrunOf(s, run, start).samples[i - run.begin] == Records(s)[i]
  {
  }

  lemma {:induction false} PartOfSample(tracks: seq<Track>, endTime: nat, i: nat)
    requires AllServable(tracks) && Ascending(tracks) && i < |Listed(tracks, endTime)|
    ensures IsPart(tracks, Listed(tracks, endTime)[i], Records(Listed(tracks, endTime))[i])
  {
    hide Listed, Ascending, IsPart, Records, SampleOf;
    var n := ListedHasPart(tracks, endTime, i);
    FieldsOfPart(tracks, Listed(tracks, endTime), endTime, i, n);
  }

  lemma {:induction false} FieldsOfPart(tracks: seq<Track>, s: seq<Sample>, endTime: nat, i: nat, n: nat)
    requires i < |s| && n < |tracks| && s[i].track == tracks[n].id && Selected(tracks[n], s[i].part, endTime)
    requires s[i].(mediaOffset := 0) == SampleOf(tracks[n], s[i].part)
    ensures IsPart(tracks, s[i], Records(s)[i])
  {
    hide PartTime;
    assert s[i].size == s[i].(mediaOffset := 0).size;
  }

  lemma {:induction false} TrackOfSample(tracks: seq<Track>, endTime: nat, i: nat) returns (n: nat)
    requires AllServable(tracks) && Ascending(tracks) && i < |Listed(tracks, endTime)|
    ensures n < |tracks| && tracks[n].id == Listed(tracks, endTime)[i].track
  {
    n := ListedHasPart(tracks, endTime, i);
  }

  /** What a reader that adds durations from the base time recovers for one track. */
  ghost predicate Recovered(traf: Traf, t: Track, vod: bool, endTime: nat) {
    && Servable(t) && traf.trackId == t.id + 1
    && traf.defaultFlags == (if t.video then 0x0101_0000 else 0x0200_0000)
    && var rs, shift := Joined(traf.truns), if vod then t.firstMs else 0;
       && |rs| == |TrackSamples(t, endTime)| && traf.baseTime == t.firstTime - shift
       && forall i :: 0 <= i < |rs| ==> RecoveredPart(t, endTime, traf.baseTime, shift, rs, i)
  }

  lemma {:induction false} TrafRecovered(s: seq<Sample>, tracks: seq<Track>, vod: bool, endTime: nat, start: nat,
                                         n: nat, traf: Traf)
    requires AllServable(tracks) && Ascending(tracks) && n < |tracks| && s == Listed(tracks, endTime)
    requires var runs := RunsOf(s, RunsFrom(s, 0), tracks[n].id);
             && runs != [] && BaseTime(tracks[n], vod, s[runs[0].begin].time) >= 0
             && traf == TrafOf(s, runs, tracks[n], vod, start)
    ensures Recovered(traf, tracks[n], vod, endTime)
  {
    var t := tracks[n];
    var runs, mine := RunsOf(s, RunsFrom(s, 0), t.id), TrackSamples(t, endTime);
    TrafHoldsTrack(tracks, endTime, n, start);
    assert Joined(traf.truns) == Records(mine);
    AllTimesRecovered(t, endTime, traf.baseTime, if vod then t.firstMs else 0);
  }

  /** Every traf gives its track's parts back with their original times and exact key flags. */
  lemma {:induction false} TimesAndKeysRecovered(tracks: seq<Track>, vod: bool, startTime: nat, endTime: nat,
                                                 sequenceNumber: nat, f: Fragment, traf: Traf)
    requires Plan(tracks, vod, startTime, endTime, sequenceNumber) == Some(f) && Ascending(tracks)
    requires traf in f.moof.trafs
    ensures exists n :: 0 <= n < |tracks| && Recovered(traf, tracks[n], vod, endTime)
  {
    PlanConsistent(tracks, vod, startTime, endTime, sequenceNumber, f);
    var n := TrafHasTrack(f.samples, tracks, vod, HeaderLength(f), traf);
    TrafRecovered(f.samples, tracks, vod, endTime, HeaderLength(f), n, traf);
  }
}
