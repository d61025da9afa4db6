/** The multiplexed fragment planner, step by step. */
module Cmaf {
  import opened Basics
  import opened CmafSpec
  import CmafLayout

  ghost predicate KeysSorted(t: Track) {
    forall i, j :: 0 <= i < j < |t.keys| ==> t.keys[i] <= t.keys[j]
  }

  /** The last key at or before `time`, or the first key: where the key pointer stands. */
  ghost predicate KeyPointer(t: Track, keyIndex: nat, time: nat) {
    && (keyIndex == 0 || (keyIndex < |t.keys| && t.keys[keyIndex] <= time))
    && (keyIndex + 1 < |t.keys| ==> time < t.keys[keyIndex + 1])
  }

  lemma {:induction false} PointerFindsKey(t: Track, keyIndex: nat, time: nat)
    requires KeysSorted(t) && KeyPointer(t, keyIndex, time)
    ensures time in t.keys <==> keyIndex < |t.keys| && t.keys[keyIndex] == time
  {
    assert forall j :: keyIndex < j < |t.keys| ==> t.keys[keyIndex + 1] <= t.keys[j];
  }

  method AdvanceKey(t: Track, start: nat, time: nat) returns (keyIndex: nat)
    requires start == 0 || (start < |t.keys| && t.keys[start] <= time)
    ensures KeyPointer(t, keyIndex, time)
  {
    keyIndex := start;
    while keyIndex + 1 < |t.keys| && t.keys[keyIndex + 1] <= time
      invariant keyIndex == 0 || (keyIndex < |t.keys| && t.keys[keyIndex] <= time)
    {
      keyIndex := keyIndex + 1;
    }
  }

  /** Appends the samples of one selected track; fails when the track cannot be served. */
  method CollectTrack(t: Track, endTime: nat, samples: seq<Sample>) returns (ok: bool, out: seq<Sample>)
    requires KeysSorted(t)
    ensures ok <==> Servable(t)
    ensures ok ==> out == samples + TrackSamples(t, endTime)
  {
    out := samples;
    if !t.valid || t.firstPart < t.firstValid || t.endPart > t.EndValid() {
      return false, out;
    }
    if t.firstPart >= t.endPart {
      return true, out;
    }
    var sampleTime := t.firstTime;
    if sampleTime == 0 && t.firstPart != t.firstValid {
      return false, out;
    }
    var keyIndex: nat := AdvanceKey(t, 0, sampleTime);
    var part := t.firstPart;
    while part < t.endPart
      invariant t.firstPart <= part <= t.endPart && sampleTime == PartTime(t, part)
      invariant keyIndex == 0 || (keyIndex < |t.keys| && t.keys[keyIndex] <= sampleTime)
      invariant out + SamplesFrom(t, part, endTime) == samples + SamplesFrom(t, t.firstPart, endTime)
    {
      if sampleTime >= endTime {
        break;
      }
      keyIndex := AdvanceKey(t, keyIndex, sampleTime);
      PointerFindsKey(t, keyIndex, sampleTime);
      var isKey := !t.video || (keyIndex < |t.keys| && t.keys[keyIndex] == sampleTime);
      var p := t.parts[part - t.firstValid];
      var info := Sample(t.id, part, sampleTime, p.size, p.duration, p.offset,
                         if isKey then KEY_FLAGS else DELTA_FLAGS, 0);
      Assoc(out, [info], SamplesFrom(t, part + 1, endTime));
      out := out + [info];
      sampleTime := sampleTime + p.duration;
      part := part + 1;
    }
    ok := true;
  }

  method CollectAll(tracks: seq<Track>, endTime: nat) returns (ok: bool, samples: seq<Sample>)
    requires forall t :: t in tracks ==> KeysSorted(t)
    ensures ok <==> AllServable(tracks)
    ensures ok ==> samples == AllSamples(tracks, endTime)
  {
    samples := [];
    for i := 0 to |tracks|
      invariant AllServable(tracks[..i]) && samples == AllSamples(tracks[..i], endTime)
    {
      ok, samples := CollectTrack(tracks[i], endTime, samples);
      assert tracks[..i + 1] == tracks[..i] + [tracks[i]];
      if !ok {
        return false, samples;
      }
      assert tracks[..i + 1][..i] == tracks[..i];
    }
    assert tracks[..|tracks|] == tracks;
    ok := true;
  }

  /** Gives each sample its payload offset; fails when the payload would not fit an mdat box. */
  method AssignOffsets(sorted: seq<Sample>) returns (ok: bool, samples: seq<Sample>, totalData: nat)
    ensures ok <==> SizeBefore(sorted, |sorted|) <= MAX_MDAT_PAYLOAD
    ensures ok ==> samples == WithOffsets(sorted) && totalData == SizeBefore(sorted, |sorted|)
  {
    samples, totalData := sorted, 0;
    for i := 0 to |sorted|
      invariant |samples| == |sorted| && totalData == SizeBefore(sorted, i) <= MAX_MDAT_PAYLOAD
      invariant forall k {:trigger samples[k]} :: 0 <= k < |sorted| ==>
                  samples[k] == if k < i then WithOffsets(sorted)[k] else sorted[k]
    {
      samples := samples[i := samples[i].(mediaOffset := totalData)];
      totalData := totalData + samples[i].size;
      if totalData > MAX_MDAT_PAYLOAD {
        CmafLayout.SizeBeforeMonotone(sorted, i + 1, |sorted|);
        return false, samples, totalData;
      }
    }
    ok := true;
  }

  /** The map holds exactly the non-empty run lists. */
  ghost predicate Grouped(samples: seq<Sample>, runs: seq<Run>, trackRuns: map<nat, seq<Run>>)
    requires ValidRuns(samples, runs)
  {
    forall id :: RunsOf(samples, runs, id) == RunsIn(trackRuns, id) && (id in trackRuns ==> trackRuns[id] != [])
  }

  function RunsIn(trackRuns: map<nat, seq<Run>>, id: nat): seq<Run> {
    if id in trackRuns then trackRuns[id] else []
  }

  lemma {:induction false} GroupedAppend(samples: seq<Sample>, runs: seq<Run>, r: Run, trackRuns: map<nat, seq<Run>>)
    requires ValidRuns(samples, runs) && ValidRun(samples, r) && Grouped(samples, runs, trackRuns)
    ensures var id := samples[r.begin].track;
            Grouped(samples, runs + [r], trackRuns[id := RunsIn(trackRuns, id) + [r]])
  {
    var id := samples[r.begin].track;
    var trackRuns' := trackRuns[id := RunsIn(trackRuns, id) + [r]];
    forall other
      ensures RunsOf(samples, runs + [r], other) == RunsIn(trackRuns', other)
      ensures other in trackRuns' ==> trackRuns'[other] != []
    {
      assert RunsOf(samples, runs, other) == RunsIn(trackRuns, other);
      RunsOfAppend(samples, runs, r, other);
    }
  }

  /** Groups the samples into runs, by track. */
  method GroupRuns(samples: seq<Sample>) returns (trackRuns: map<nat, seq<Run>>)
    ensures Grouped(samples, RunsFrom(samples, 0), trackRuns)
  {
    trackRuns := map[];
    var begin := 0;
    ghost var done: seq<Run> := [];
    while begin < |samples|
      invariant begin <= |samples| && ValidRuns(samples, done)
      invariant RunsFrom(samples, 0) == done + RunsFrom(samples, begin)
      invariant Grouped(samples, done, trackRuns)
    {
      var end := begin + 1;
      while end < |samples| && samples[end].track == samples[begin].track
        invariant begin < end <= |samples| && RunEnd(samples, begin, begin + 1) == RunEnd(samples, begin, end)
      {
        end := end + 1;
      }
      var id, run := samples[begin].track, Run(begin, end);
      Assoc(done, [run], RunsFrom(samples, end));
      GroupedAppend(samples, done, run, trackRuns);
      trackRuns := trackRuns[id := RunsIn(trackRuns, id) + [run]];
      done := done + [run];
      begin := end;
    }
    assert done + [] == done;
  }

  lemma {:induction false} RunsOfAppend(s: seq<Sample>, runs: seq<Run>, r: Run, id: nat)
    requires ValidRuns(s, runs) && ValidRun(s, r)
    ensures RunsOf(s, runs + [r], id) == RunsOf(s, runs, id) + if s[r.begin].track == id then [r] else []
  {
    if runs == [] {
      assert runs + [r] == [r];
    } else {
      var first := if s[runs[0].begin].track == id then [runs[0]] else [];
      assert (runs + [r])[1..] == runs[1..] + [r] && (runs + [r])[0] == runs[0];
      RunsOfAppend(s, runs[1..], r, id);
      var last := if s[r.begin].track == id then [r] else [];
      Assoc(first, RunsOf(s, runs[1..], id), last);
    }
  }

  /** For VoD, no track may start before its own first time. */
  method CheckRebase(samples: seq<Sample>, tracks: seq<Track>, trackRuns: map<nat, seq<Run>>, vod: bool) returns (ok: bool)
    requires Grouped(samples, RunsFrom(samples, 0), trackRuns)
    ensures ok <==> AllRebasable(samples, tracks, vod)
  {
    if vod {
      for i := 0 to |tracks|
        invariant forall k :: 0 <= k < i ==> Rebasable(samples, tracks[k], vod)
      {
        var t := tracks[i];
        if t.id in trackRuns {
          assert RunsOf(samples, RunsFrom(samples, 0), t.id) == RunsIn(trackRuns, t.id);
          if samples[trackRuns[t.id][0].begin].time < t.firstMs {
            assert t in tracks && !Rebasable(samples, t, vod);
            return false;
          }
        }
      }
    }
    ok := true;
  }

  method BuildTrun(samples: seq<Sample>, run: Run, mediaDataStart: nat) returns (trun: Trun)
    requires ValidRun(samples, run)
    ensures trun == TrunOf(samples, run, mediaDataStart)
  {
    trun := Trun((mediaDataStart + samples[run.begin].mediaOffset) % TWO_TO_THE_32, []);
    for index := run.begin to run.end
      invariant trun.dataOffset == TrunOf(samples, run, mediaDataStart).dataOffset
      invariant trun.samples == TrunOf(samples, run, mediaDataStart).samples[..index - run.begin]
    {
      var x := samples[index];
      trun := trun.(samples := trun.samples + [TrunSample(x.size, x.duration, x.flags, x.offset)]);
    }
  }

  method BuildTraf(samples: seq<Sample>, runs: seq<Run>, t: Track, vod: bool, mediaDataStart: nat) returns (traf: Traf)
    requires ValidRuns(samples, runs) && runs != [] && BaseTime(t, vod, samples[runs[0].begin].time) >= 0
    ensures traf == TrafOf(samples, runs, t, vod, mediaDataStart)
  {
    var decodeTime := samples[runs[0].begin].time;
    if vod {
      decodeTime := decodeTime - t.firstMs;
    }
    traf := Traf(t.id + 1, if t.video then DELTA_FLAGS else KEY_FLAGS, decodeTime, []);
    for j := 0 to |runs|
      invariant traf == TrafOf(samples, runs, t, vod, mediaDataStart).(truns := TrunsOf(samples, runs, mediaDataStart)[..j])
    {
      var trun := BuildTrun(samples, runs[j], mediaDataStart);
      traf := traf.(truns := traf.truns + [trun]);
    }
  }

  /** buildMoof: one traf for each track with runs, in map order. */
  method BuildMoof(samples: seq<Sample>, tracks: seq<Track>, trackRuns: map<nat, seq<Run>>, vod: bool,
                   sequenceNumber: nat, mediaDataStart: nat) returns (moof: Moof)
    requires AllRebasable(samples, tracks, vod)
    requires Grouped(samples, RunsFrom(samples, 0), trackRuns)
    ensures moof == MoofOf(samples, tracks, vod, sequenceNumber, mediaDataStart)
  {
    moof := Moof(sequenceNumber % TWO_TO_THE_32, []);
    for i := 0 to |tracks|
      invariant AllRebasable(samples, tracks[..i], vod)
      invariant moof == MoofOf(samples, tracks[..i], vod, sequenceNumber, mediaDataStart)
    {
      var t := tracks[i];
      assert tracks[..i + 1][..i] == tracks[..i] && tracks[..i + 1][i] == t;
      assert Rebasable(samples, t, vod) && RunsOf(samples, RunsFrom(samples, 0), t.id)
             == RunsIn(trackRuns, t.id);
      if t.id in trackRuns {
        var traf := BuildTraf(samples, trackRuns[t.id], t, vod, mediaDataStart);
        moof := moof.(trafs := moof.trafs + [traf]);
      }
    }
    assert tracks[..|tracks|] == tracks;
  }

  ghost predicate ReadyToBox(samples: seq<Sample>, totalData: nat, tracks: seq<Track>, trackRuns: map<nat, seq<Run>>,
                             vod: bool) {
    && AllRebasable(samples, tracks, vod) && totalData == SizeBefore(samples, |samples|)
    && Grouped(samples, RunsFrom(samples, 0), trackRuns)
  }

  /** The two passes: size the moof with zero offsets, then build it for the header length found. */
  method BoxSamples(samples: seq<Sample>, totalData: nat, tracks: seq<Track>, trackRuns: map<nat, seq<Run>>, vod: bool,
                    sequenceNumber: nat) returns (r: Option<Fragment>)
    requires ReadyToBox(samples, totalData, tracks, trackRuns, vod)
    ensures r == Boxed(samples, tracks, vod, sequenceNumber)
  {
    var sizingMoof := BuildMoof(samples, tracks, trackRuns, vod, sequenceNumber, 0);
    var mediaDataStart := MoofSize(sizingMoof) + 8;
    if mediaDataStart + totalData > INT32_MAX {
      return None;
    }
    var moof := BuildMoof(samples, tracks, trackRuns, vod, sequenceNumber, mediaDataStart);
    return Some(Fragment(moof, totalData + 8, samples, totalData));
  }

  /** muxedFragment */
  method MuxedFragment(tracks: seq<Track>, vod: bool, startTime: nat, endTime: nat, sequenceNumber: nat)
      returns (r: Option<Fragment>)
    requires forall t :: t in tracks ==> KeysSorted(t)
    ensures r == Plan(tracks, vod, startTime, endTime, sequenceNumber)
  {
    if endTime <= startTime || tracks == [] {
      return None;
    }
    var ok, collected := CollectAll(tracks, endTime);
    if !ok || collected == [] {
      return None;
    }
    var sorted := SortSamples(collected);
    CmafLayout.OffsetsKeepSizes(sorted, |sorted|);
    var samples, totalData;
    ok, samples, totalData := AssignOffsets(sorted);
    if !ok {
      return None;
    }
    var trackRuns := GroupRuns(samples);
    ok := CheckRebase(samples, tracks, trackRuns, vod);
    if !ok {
      return None;
    }
    r := BoxSamples(samples, totalData, tracks, trackRuns, vod, sequenceNumber);
  }
}
