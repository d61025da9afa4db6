/** When a plan succeeds, how long its header is, and in which order its boxes come. */
module CmafPlan {
  import opened Basics
  import opened CmafSpec
  import opened CmafTheorems
  import opened CmafLayout
  import opened CmafFragment

  // ---------------------------------------------------------------- counting by track

  function CountOf(keys: seq<nat>, id: nat): nat {
    if keys == [] then 0 else (if keys[0] == id then 1 else 0) + CountOf(keys[1..], id)
  }

  function CountAll(keys: seq<nat>, tracks: seq<Track>): nat {
    if tracks == [] then 0 else CountAll(keys, tracks[..|tracks| - 1]) + CountOf(keys, tracks[|tracks| - 1].id)
  }

  lemma {:induction false} CountNone(tracks: seq<Track>)
    ensures CountAll([], tracks) == 0
  {
    if tracks != [] {
      CountNone(tracks[..|tracks| - 1]);
    }
  }

  lemma {:induction false} CountFirst(keys: seq<nat>, tracks: seq<Track>)
    requires keys != []
    ensures CountAll(keys, tracks) == CountAll([keys[0]], tracks) + CountAll(keys[1..], tracks)
  {
    if tracks != [] {
      var init, id := tracks[..|tracks| - 1], tracks[|tracks| - 1].id;
      CountFirst(keys, init);
      CountSingle(keys[0], id);
    }
  }

  lemma {:induction false} CountSingle(k: nat, id: nat)
    ensures CountOf([k], id) == if k == id then 1 else 0
  {
    assert [k][1..] == [];
  }

  lemma {:induction false} CountedOnce(k: nat, tracks: seq<Track>)
    requires Ascending(tracks)
    ensures CountAll([k], tracks) == if exists n :: 0 <= n < |tracks| && tracks[n].id == k then 1 else 0
  {
    if tracks != [] {
      var init, last := tracks[..|tracks| - 1], tracks[|tracks| - 1];
      CountedOnce(k, init);
      CountSingle(k, last.id);
      if last.id == k {
        assert tracks[|tracks| - 1].id == k;
        forall n | 0 <= n < |init| ensures init[n].id != k {
          assert tracks[n].id < last.id;
        }
      } else if exists n :: 0 <= n < |tracks| && tracks[n].id == k {
        var n :| 0 <= n < |tracks| && tracks[n].id == k;
        assert init[n].id == k;
      }
    }
  }

  /** Every key belongs to exactly one track. */
  lemma {:induction false} CountsAdd(keys: seq<nat>, tracks: seq<Track>)
    requires Ascending(tracks)
    requires forall i :: 0 <= i < |keys| ==> Owned(tracks, keys[i])
    ensures CountAll(keys, tracks) == |keys|
  {
    if keys == [] {
      CountNone(tracks);
    } else {
      CountFirst(keys, tracks);
      CountedOnce(keys[0], tracks);
      CountsAdd(keys[1..], tracks);
    }
  }

  function SampleKeys(s: seq<Sample>): (r: seq<nat>)
    ensures |r| == |s|
  {
    seq(|s|, i requires 0 <= i < |s| => s[i].track)
  }

  function RunKeys(s: seq<Sample>, runs: seq<Run>): (r: seq<nat>)
    requires ValidRuns(s, runs)
    ensures |r| == |runs|
  {
    seq(|runs|, i requires 0 <= i < |runs| => s[runs[i].begin].track)
  }

  lemma {:induction false} OfTrackCounted(s: seq<Sample>, id: nat)
    ensures |OfTrack(s, id)| == CountOf(SampleKeys(s), id)
  {
    if s != [] {
      OfTrackCounted(s[1..], id);
      assert SampleKeys(s)[1..] == SampleKeys(s[1..]);
    }
  }

  lemma {:induction false} RunsOfCounted(s: seq<Sample>, runs: seq<Run>, id: nat)
    requires ValidRuns(s, runs)
    ensures |RunsOf(s, runs, id)| == CountOf(RunKeys(s, runs), id)
  {
    if runs != [] {
      RunsOfCounted(s, runs[1..], id);
      assert RunKeys(s, runs)[1..] == RunKeys(s, runs[1..]);
    }
  }

  // ---------------------------------------------------------------- the length of the header

  lemma {:induction false} SlicesSnoc(s: seq<Sample>, runs: seq<Run>, r: Run)
    requires ValidRuns(s, runs) && ValidRun(s, r)
    ensures ValidRuns(s, runs + [r]) && |Slices(s, runs + [r])| == |Slices(s, runs)| + (r.end - r.begin)
  {
    if runs == [] {
      assert runs + [r] == [r] && [r][1..] == [];
    } else {
      assert (runs + [r])[1..] == runs[1..] + [r];
      SlicesSnoc(s, runs[1..], r);
    }
  }

  /** 20 bytes for each trun and 16 for each record in it. */
  lemma {:induction false} TrunsMeasured(s: seq<Sample>, runs: seq<Run>, start: nat)
    requires ValidRuns(s, runs)
    ensures TrunsSize(TrunsOf(s, runs, start)) == 20 * |runs| + 16 * |Slices(s, runs)|
  {
    hide TrunsSize, TrunsOf, Slices;
    if runs == [] {
      NoTruns(s, start);
    } else {
      var n := |runs| - 1;
      LastTrun(s, runs, start);
      TrunsMeasured(s, runs[..n], start);
      SlicesSnoc(s, runs[..n], runs[n]);
      assert runs == runs[..n] + [runs[n]];
    }
  }

  lemma {:induction false} NoTruns(s: seq<Sample>, start: nat)
    ensures TrunsSize(TrunsOf(s, [], start)) == 0 && Slices(s, []) == []
  {
  }

  lemma {:induction false} LastTrun(s: seq<Sample>, runs: seq<Run>, start: nat)
    requires ValidRuns(s, runs) && runs != []
    ensures var n := |runs| - 1;
            && ValidRun(s, runs[n])
            && TrunsSize(TrunsOf(s, runs, start))
               == TrunsSize(TrunsOf(s, runs[..n], start)) + 20 + 16 * (runs[n].end - runs[n].begin)
  {
    var n := |runs| - 1;
    var ts := TrunsOf(s, runs, start);
    assert ts[..n] == TrunsOf(s, runs[..n], start);
    assert |ts[n].samples| == runs[n].end - runs[n].begin;
    hide TrunsOf;
  }

  lemma {:induction false} OneTrafMeasured(s: seq<Sample>, t: Track, vod: bool, start: nat)
    requires Rebasable(s, t, vod)
    ensures var runs := RunsOf(s, RunsFrom(s, 0), t.id);
            var count := 20 * CountOf(RunKeys(s, RunsFrom(s, 0)), t.id) + 16 * CountOf(SampleKeys(s), t.id);
            if runs == [] then count == 0 else TrafSize(TrafOf(s, runs, t, vod, start)) == 52 + count
  {
    hide TrunsOf, TrunsSize, Slices, RunsFrom;
    var runs := RunsOf(s, RunsFrom(s, 0), t.id);
    RunsOfCounted(s, RunsFrom(s, 0), t.id);
    OfTrackCounted(s, t.id);
    RunsHoldTrack(s, 0, t.id);
    assert s[0..] == s;
    FirstSlice(s, runs);
    TrunsMeasured(s, runs, start);
  }

  lemma {:induction false} TrafsMeasured(s: seq<Sample>, tracks: seq<Track>, vod: bool, start: nat)
    requires AllRebasable(s, tracks, vod)
    ensures TrafsSize(TrafsOf(s, tracks, vod, start))
            == 52 * |TrafsOf(s, tracks, vod, start)| + 20 * CountAll(RunKeys(s, RunsFrom(s, 0)), tracks)
               + 16 * CountAll(SampleKeys(s), tracks)
  {
    hide TrafSize, TrafOf, RunsFrom, RunKeys, CountOf;
    if tracks != [] {
      var init, t := tracks[..|tracks| - 1], tracks[|tracks| - 1];
      assert AllRebasable(s, init, vod) && Rebasable(s, t, vod);
      TrafsMeasured(s, init, vod, start);
      TrafsStep(s, tracks, vod, start);
      OneTrafMeasured(s, t, vod, start);
    }
  }

  /** The tracks with a part in the interval. */
  function Served(tracks: seq<Track>, endTime: nat): nat {
    if tracks == [] then 0
    else
      var t := tracks[|tracks| - 1];
      Served(tracks[..|tracks| - 1], endTime) + if t.firstPart < t.endPart && t.firstTime < endTime then 1 else 0
  }

  lemma {:induction false} ServedIff(t: Track, endTime: nat)
    requires Servable(t)
    ensures TrackSamples(t, endTime) != [] <==> t.firstPart < t.endPart && t.firstTime < endTime
  {
    if t.firstPart < t.endPart {
      assert PartTime(t, t.firstPart) == t.firstTime;
    }
  }

  /** Exactly the tracks with a part in the interval have runs. */
  ghost predicate ServedHaveRuns(s: seq<Sample>, tracks: seq<Track>, endTime: nat) {
    forall n :: 0 <= n < |tracks| ==>
      (RunsOf(s, RunsFrom(s, 0), tracks[n].id) != [] <==> tracks[n].firstPart < tracks[n].endPart && tracks[n].firstTime < endTime)
  }

  lemma {:induction false} TrafsCounted(s: seq<Sample>, tracks: seq<Track>, endTime: nat, vod: bool, start: nat)
    requires AllRebasable(s, tracks, vod) && ServedHaveRuns(s, tracks, endTime)
    ensures |TrafsOf(s, tracks, vod, start)| == Served(tracks, endTime)
  {
    hide RunsFrom, RunsOf, TrafOf;
    if tracks != [] {
      var init, t := tracks[..|tracks| - 1], tracks[|tracks| - 1];
      assert Rebasable(s, t, vod);
      TrafsCounted(s, init, endTime, vod, start);
    }
  }

  lemma {:induction false} ServedRun(tracks: seq<Track>, endTime: nat)
    requires AllServable(tracks) && Ascending(tracks)
    ensures ServedHaveRuns(Listed(tracks, endTime), tracks, endTime)
  {
    hide Listed, RunsFrom, RunsOf, Ascending, TrackSamples;
    forall n | 0 <= n < |tracks|
      ensures RunsOf(Listed(tracks, endTime), RunsFrom(Listed(tracks, endTime), 0), tracks[n].id) != []
              <==> tracks[n].firstPart < tracks[n].endPart && tracks[n].firstTime < endTime
    {
      TrafHoldsTrack(tracks, endTime, n, 0);
      assert tracks[n] in tracks;
      ServedIff(tracks[n], endTime);
    }
  }

  predicate Owned(tracks: seq<Track>, id: nat) { exists n :: 0 <= n < |tracks| && tracks[n].id == id }

  /** The header, in bytes: 32 for the moof and mdat heads and the sequence number, 52 for each track served, 20 for
      each uninterrupted run of one track's samples and 16 for each sample. */
  lemma {:induction false} HeaderMeasured(tracks: seq<Track>, endTime: nat, vod: bool, sequenceNumber: nat)
    requires AllServable(tracks) && Ascending(tracks) && AllRebasable(Listed(tracks, endTime), tracks, vod)
    ensures var s := Listed(tracks, endTime);
            HeaderSize(s, tracks, vod, sequenceNumber)
            == 32 + 52 * Served(tracks, endTime) + 20 * |RunsFrom(s, 0)| + 16 * |s|
  {
    hide Listed, RunsFrom, TrafsOf, TrafsSize, Ascending, Served, CountAll;
    var s := Listed(tracks, endTime);
    TrafsMeasured(s, tracks, vod, 0);
    ServedRun(tracks, endTime);
    TrafsCounted(s, tracks, endTime, vod, 0);
    var runs := RunsFrom(s, 0);
    forall i | 0 <= i < |s| ensures Owned(tracks, SampleKeys(s)[i]) {
      var n := TrackOfSample(tracks, endTime, i);
      assert tracks[n].id == SampleKeys(s)[i];
    }
    forall i | 0 <= i < |runs| ensures Owned(tracks, RunKeys(s, runs)[i]) {
      assert ValidRun(s, runs[i]) && RunKeys(s, runs)[i] == SampleKeys(s)[runs[i].begin];
    }
    CountsAdd(SampleKeys(s), tracks);
    CountsAdd(RunKeys(s, runs), tracks);
  }

  // ---------------------------------------------------------------- when a plan succeeds

  /** What the selection must be like: every track valid, its range within the parts there are, and a first time of
      zero only for the first part there is. */
  predicate Answerable(t: Track) {
    && t.valid && t.firstValid <= t.firstPart && t.endPart <= t.firstValid + |t.parts|
    && (t.firstPart < t.endPart && t.firstTime == 0 ==> t.firstPart == t.firstValid)
  }

  lemma {:induction false} ServableIs(tracks: seq<Track>)
    ensures AllServable(tracks) <==> forall t :: t in tracks ==> Answerable(t)
  {
    assert forall t: Track :: Servable(t) <==> Answerable(t);
  }

  lemma {:induction false} NothingListed(tracks: seq<Track>, endTime: nat)
    requires AllServable(tracks)
    ensures Listed(tracks, endTime) != [] <==> exists t :: t in tracks && t.firstPart < t.endPart && t.firstTime < endTime
  {
    if tracks != [] {
      var init, t := tracks[..|tracks| - 1], tracks[|tracks| - 1];
      NothingListed(init, endTime);
      assert tracks == init + [t];
      assert Servable(t);
      ServedIff(t, endTime);
    }
  }

  /** For VoD no served track may start before its own first time. */
  lemma {:induction false} RebasableIs(tracks: seq<Track>, endTime: nat, vod: bool)
    requires AllServable(tracks) && Ascending(tracks)
    ensures AllRebasable(Listed(tracks, endTime), tracks, vod) <==>
            (vod ==> forall t :: t in tracks && t.firstPart < t.endPart && t.firstTime < endTime ==> t.firstMs <= t.firstTime)
  {
    hide Listed, RunsFrom, Ascending;
    forall t | t in tracks
      ensures Rebasable(Listed(tracks, endTime), t, vod) <==>
              (vod && t.firstPart < t.endPart && t.firstTime < endTime ==> t.firstMs <= t.firstTime)
    {
      var n :| 0 <= n < |tracks| && tracks[n] == t;
      TrafHoldsTrack(tracks, endTime, n, 0);
      assert Servable(t);
      ServedIff(t, endTime);
    }
  }

  /** A plan succeeds exactly when the interval is not empty, every selected track can answer for it, at least one part
      falls into it, no VoD track starts before its first time, and header and payload together stay below 2^31. */
  lemma {:induction false} PlanSucceedsIff(tracks: seq<Track>, vod: bool, startTime: nat, endTime: nat,
                                           sequenceNumber: nat)
    requires Ascending(tracks)
    ensures Plan(tracks, vod, startTime, endTime, sequenceNumber).Some? <==>
            && startTime < endTime && (forall t :: t in tracks ==> Answerable(t)) && AllServable(tracks)
            && (exists t :: t in tracks && t.firstPart < t.endPart && t.firstTime < endTime)
            && (vod ==> forall t :: t in tracks && t.firstPart < t.endPart && t.firstTime < endTime ==> t.firstMs <= t.firstTime)
            && var s := Listed(tracks, endTime);
               32 + 52 * Served(tracks, endTime) + 20 * |RunsFrom(s, 0)| + 16 * |s| + SizeBefore(s, |s|) < 0x8000_0000
  {
    hide Listed, RunsFrom, Ascending, Served, AllRebasable, HeaderSize;
    ServableIs(tracks);
    if AllServable(tracks) {
      NothingListed(tracks, endTime);
      RebasableIs(tracks, endTime, vod);
      if AllRebasable(Listed(tracks, endTime), tracks, vod) {
        HeaderMeasured(tracks, endTime, vod, sequenceNumber);
      }
    }
  }

  // ---------------------------------------------------------------- the order of the boxes

  /** The boxes of all tracks are those of all but the last, and perhaps one with its number. */
  lemma {:induction false} LastTraf(s: seq<Sample>, tracks: seq<Track>, vod: bool, start: nat)
    requires AllRebasable(s, tracks, vod) && tracks != []
    ensures AllRebasable(s, tracks[..|tracks| - 1], vod)
    ensures var init, all := TrafsOf(s, tracks[..|tracks| - 1], vod, start), TrafsOf(s, tracks, vod, start);
            |init| <= |all| <= |init| + 1 && all[..|init|] == init
            && (|all| > |init| ==> all[|init|].trackId == tracks[|tracks| - 1].id + 1)
  {
    hide RunsFrom, RunsOf, TrunsOf;
    assert Rebasable(s, tracks[|tracks| - 1], vod);
  }

  lemma {:induction false} TrafAtMost(s: seq<Sample>, tracks: seq<Track>, vod: bool, start: nat, i: nat)
    requires AllRebasable(s, tracks, vod) && Ascending(tracks) && i < |TrafsOf(s, tracks, vod, start)|
    ensures tracks != [] && TrafsOf(s, tracks, vod, start)[i].trackId <= tracks[|tracks| - 1].id + 1
  {
    if tracks != [] {
      LastTraf(s, tracks, vod, start);
      var init := tracks[..|tracks| - 1];
      assert Ascending(init);
      hide TrafsOf, AllRebasable;
      if i < |TrafsOf(s, init, vod, start)| {
        TrafAtMost(s, init, vod, start, i);
      }
    }
  }

  lemma {:induction false} TrafsAscend(s: seq<Sample>, tracks: seq<Track>, vod: bool, start: nat, i: nat, j: nat)
    requires AllRebasable(s, tracks, vod) && Ascending(tracks) && i < j < |TrafsOf(s, tracks, vod, start)|
    ensures TrafsOf(s, tracks, vod, start)[i].trackId < TrafsOf(s, tracks, vod, start)[j].trackId
  {
    if tracks != [] {
      LastTraf(s, tracks, vod, start);
      var init := tracks[..|tracks| - 1];
      assert Ascending(init);
      hide TrafsOf, AllRebasable;
      if j < |TrafsOf(s, init, vod, start)| {
        TrafsAscend(s, init, vod, start, i, j);
      } else {
        TrafAtMost(s, init, vod, start, i);
      }
    }
  }

  /** The track fragment boxes come by ascending track, one for each. */
  lemma {:induction false} BoxesAscend(tracks: seq<Track>, vod: bool, startTime: nat, endTime: nat, sequenceNumber: nat,
                                       f: Fragment, i: nat, j: nat)
    requires Plan(tracks, vod, startTime, endTime, sequenceNumber) == Some(f) && Ascending(tracks)
    requires i < j < |f.moof.trafs|
    ensures f.moof.trafs[i].trackId < f.moof.trafs[j].trackId
  {
    PlanConsistent(tracks, vod, startTime, endTime, sequenceNumber, f);
    TrafsAscend(f.samples, tracks, vod, HeaderLength(f), i, j);
  }
}
