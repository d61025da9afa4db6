/** What the multiplexed fragment planner computes, as functions of what it reads from the metadata. */
module CmafSpec {
  import opened Basics

  /** One stored packet: size, duration and composition offset. */
  datatype Part = Part(size: nat, duration: nat, offset: nat)

  /** What the planner reads of one selected track: its valid parts, numbered from firstValid; the part
      range the requested interval maps to; the time of the first of these; and its key times. */
  datatype Track = Track(id: nat, valid: bool, video: bool, parts: seq<Part>, firstValid: nat,
                         firstPart: nat, endPart: nat, firstTime: nat, keys: seq<nat>, firstMs: nat)
  {
    function EndValid(): nat { firstValid + |parts| }

    predicate InRange() { firstValid <= firstPart && endPart <= EndValid() }
  }

  datatype Sample = Sample(track: nat, part: nat, time: nat, size: nat, duration: nat, offset: nat,
                           flags: nat, mediaOffset: nat)

  const NO_I_PICTURE := 0x0100_0000
  const IS_I_PICTURE := 0x0200_0000
  const NO_KEY_SAMPLE := 0x0001_0000
  const IS_KEY_SAMPLE := 0
  const KEY_FLAGS := IS_I_PICTURE + IS_KEY_SAMPLE
  const DELTA_FLAGS := NO_I_PICTURE + NO_KEY_SAMPLE

  const INT32_MAX := 0x7FFF_FFFF
  const MAX_MDAT_PAYLOAD := 0xFFFF_FFFF - 8

  // ---------------------------------------------------------------- collection

  /** The decode time of a part: the first time plus the durations before it. */
  function PartTime(t: Track, part: nat): nat
    requires t.InRange() && t.firstPart <= part <= t.endPart
    decreases part
  {
    if part == t.firstPart then t.firstTime
    else PartTime(t, part - 1) + t.parts[part - 1 - t.firstValid].duration
  }

  function SampleOf(t: Track, part: nat): Sample
    requires t.InRange() && t.firstPart <= part < t.endPart
  {
    var p := t.parts[part - t.firstValid];
    var time := PartTime(t, part);
    Sample(t.id, part, time, p.size, p.duration, p.offset,
           if !t.video || time in t.keys then KEY_FLAGS else DELTA_FLAGS, 0)
  }

  /** The samples of a track from `part` on, up to the first that is not before endTime. */
  function SamplesFrom(t: Track, part: nat, endTime: nat): seq<Sample>
    requires t.InRange() && t.firstPart <= part <= t.endPart
    decreases t.endPart - part
  {
    if part == t.endPart || PartTime(t, part) >= endTime then []
    else [SampleOf(t, part)] + SamplesFrom(t, part + 1, endTime)
  }

  /** A track that cannot be served makes the whole fragment fail. */
  predicate Servable(t: Track) {
    && t.valid && t.InRange()
    && (t.firstPart < t.endPart && t.firstTime == 0 ==> t.firstPart == t.firstValid)
  }

  function TrackSamples(t: Track, endTime: nat): seq<Sample>
    requires Servable(t)
  {
    if t.firstPart >= t.endPart then [] else SamplesFrom(t, t.firstPart, endTime)
  }

  function AllSamples(tracks: seq<Track>, endTime: nat): seq<Sample>
    requires forall t :: t in tracks ==> Servable(t)
  {
    if tracks == [] then []
    else AllSamples(tracks[..|tracks| - 1], endTime) + TrackSamples(tracks[|tracks| - 1], endTime)
  }

  // ---------------------------------------------------------------- order

  /** Emission order: time, then track, then part. */
  predicate Before(a: Sample, b: Sample) {
    || a.time < b.time
    || (a.time == b.time && (a.track < b.track || (a.track == b.track && a.part < b.part)))
  }

  function InsertSample(s: seq<Sample>, x: Sample): (r: seq<Sample>)
    ensures |r| == |s| + 1
  {
    if s == [] || !Before(x, s[|s| - 1]) then s + [x]
    else InsertSample(s[..|s| - 1], x) + [s[|s| - 1]]
  }

  /** The samples in emission order. */
  function SortSamples(s: seq<Sample>): (r: seq<Sample>)
    ensures |r| == |s|
  {
    if s == [] then [] else InsertSample(SortSamples(s[..|s| - 1]), s[|s| - 1])
  }

  // ---------------------------------------------------------------- offsets

  function SizeBefore(s: seq<Sample>, i: nat): nat
    requires i <= |s|
  {
    if i == 0 then 0 else SizeBefore(s, i - 1) + s[i - 1].size
  }

  function WithOffsets(s: seq<Sample>): (r: seq<Sample>)
    ensures |r| == |s|
  {
    seq(|s|, i requires 0 <= i < |s| => s[i].(mediaOffset := SizeBefore(s, i)))
  }

  // ---------------------------------------------------------------- runs

  /** Half-open indices into the sample list. */
  datatype Run = Run(begin: nat, end: nat)

  function RunEnd(s: seq<Sample>, begin: nat, i: nat): (e: nat)
    requires begin < i <= |s|
    ensures i <= e <= |s|
    decreases |s| - i
  {
    if i < |s| && s[i].track == s[begin].track then RunEnd(s, begin, i + 1) else i
  }

  /** The maximal same-track segments from `begin` on. */
  function RunsFrom(s: seq<Sample>, begin: nat): (r: seq<Run>)
    requires begin <= |s|
    ensures ValidRuns(s, r)
    decreases |s| - begin
  {
    if begin == |s| then []
    else var end := RunEnd(s, begin, begin + 1); [Run(begin, end)] + RunsFrom(s, end)
  }

  predicate ValidRun(s: seq<Sample>, r: Run) { r.begin < r.end <= |s| }

  predicate ValidRuns(s: seq<Sample>, runs: seq<Run>) {
    forall i :: 0 <= i < |runs| ==> ValidRun(s, runs[i])
  }

  /** The runs that belong to one track, in order. */
  function RunsOf(s: seq<Sample>, runs: seq<Run>, track: nat): (r: seq<Run>)
    requires ValidRuns(s, runs)
    ensures ValidRuns(s, r)
  {
    if runs == [] then []
    else (if s[runs[0].begin].track == track then [runs[0]] else []) + RunsOf(s, runs[1..], track)
  }

  // ---------------------------------------------------------------- boxes

  datatype TrunSample = TrunSample(size: nat, duration: nat, flags: nat, offset: nat)
  datatype Trun = Trun(dataOffset: nat, samples: seq<TrunSample>)
  datatype Traf = Traf(trackId: nat, defaultFlags: nat, baseTime: nat, truns: seq<Trun>)
  datatype Moof = Moof(sequenceNumber: nat, trafs: seq<Traf>)

  function TrunOf(s: seq<Sample>, r: Run, mediaDataStart: nat): (t: Trun)
    requires ValidRun(s, r)
    ensures |t.samples| == r.end - r.begin
  {
    Trun((mediaDataStart + s[r.begin].mediaOffset) % TWO_TO_THE_32,
         seq(r.end - r.begin, k requires 0 <= k < r.end - r.begin =>
           var x := s[r.begin + k]; TrunSample(x.size, x.duration, x.flags, x.offset)))
  }

  function TrunsOf(s: seq<Sample>, runs: seq<Run>, mediaDataStart: nat): (ts: seq<Trun>)
    requires ValidRuns(s, runs)
    ensures |ts| == |runs|
  {
    seq(|runs|, j requires 0 <= j < |runs| => TrunOf(s, runs[j], mediaDataStart))
  }

  function BaseTime(t: Track, vod: bool, first: nat): int {
    if vod then first - t.firstMs else first
  }

  /** The track fragment box; a track whose first sample precedes its first time cannot be rebased. */
  function TrafOf(s: seq<Sample>, runs: seq<Run>, t: Track, vod: bool, mediaDataStart: nat): Traf
    requires ValidRuns(s, runs) && runs != []
    requires BaseTime(t, vod, s[runs[0].begin].time) >= 0
  {
    Traf(t.id + 1, if t.video then DELTA_FLAGS else KEY_FLAGS, BaseTime(t, vod, s[runs[0].begin].time),
         TrunsOf(s, runs, mediaDataStart))
  }

  predicate Rebasable(s: seq<Sample>, t: Track, vod: bool) {
    var runs := RunsOf(s, RunsFrom(s, 0), t.id);
    runs != [] ==> BaseTime(t, vod, s[runs[0].begin].time) >= 0
  }

  /** One traf for each track that has runs, by ascending track. */
  function TrafsOf(s: seq<Sample>, tracks: seq<Track>, vod: bool, mediaDataStart: nat): seq<Traf>
    requires forall t :: t in tracks ==> Rebasable(s, t, vod)
  {
    if tracks == [] then []
    else
      var t := tracks[|tracks| - 1];
      assert Rebasable(s, t, vod);
      var runs := RunsOf(s, RunsFrom(s, 0), t.id);
      TrafsOf(s, tracks[..|tracks| - 1], vod, mediaDataStart)
      + if runs == [] then [] else [TrafOf(s, runs, t, vod, mediaDataStart)]
  }

  function MoofOf(s: seq<Sample>, tracks: seq<Track>, vod: bool, sequenceNumber: nat, mediaDataStart: nat): Moof
    requires forall t :: t in tracks ==> Rebasable(s, t, vod)
  {
    Moof(sequenceNumber % TWO_TO_THE_32, TrafsOf(s, tracks, vod, mediaDataStart))
  }

  // Box sizes: an 8-byte header each; tfhd, tfdt (version 1) and mfhd have fixed contents; a trun has
  // 12 bytes of fields and 16 for each sample.
  function TrunSize(t: Trun): nat { 8 + 12 + 16 * |t.samples| }

  function TrunsSize(ts: seq<Trun>): nat {
    if ts == [] then 0 else TrunsSize(ts[..|ts| - 1]) + TrunSize(ts[|ts| - 1])
  }

  function TrafSize(t: Traf): nat { 8 + (8 + 16) + (8 + 12) + TrunsSize(t.truns) }

  function TrafsSize(ts: seq<Traf>): nat {
    if ts == [] then 0 else TrafsSize(ts[..|ts| - 1]) + TrafSize(ts[|ts| - 1])
  }

  function MoofSize(m: Moof): nat { 8 + (8 + 8) + TrafsSize(m.trafs) }

  // ---------------------------------------------------------------- the plan

  /** The fragment: moof box, then an mdat header whose size field is mdatSize, then the payload in sample order. */
  datatype Fragment = Fragment(moof: Moof, mdatSize: nat, samples: seq<Sample>, payloadSize: nat)

  /** Bytes before the payload. */
  function HeaderLength(f: Fragment): nat { MoofSize(f.moof) + 8 }

  function Listed(tracks: seq<Track>, endTime: nat): seq<Sample>
    requires forall t :: t in tracks ==> Servable(t)
  {
    WithOffsets(SortSamples(AllSamples(tracks, endTime)))
  }

  ghost predicate AllRebasable(s: seq<Sample>, tracks: seq<Track>, vod: bool) {
    forall t :: t in tracks ==> Rebasable(s, t, vod)
  }

  ghost predicate AllServable(tracks: seq<Track>) {
    forall t :: t in tracks ==> Servable(t)
  }

  /** The header length the sizing pass finds. */
  ghost function HeaderSize(s: seq<Sample>, tracks: seq<Track>, vod: bool, sequenceNumber: nat): nat
    requires AllRebasable(s, tracks, vod)
  {
    MoofSize(MoofOf(s, tracks, vod, sequenceNumber, 0)) + 8
  }

  /** The boxes for a list of samples: sized with zero offsets first, then written with the real ones. */
  ghost function Boxed(s: seq<Sample>, tracks: seq<Track>, vod: bool, sequenceNumber: nat): Option<Fragment>
    requires AllRebasable(s, tracks, vod)
  {
    var start := HeaderSize(s, tracks, vod, sequenceNumber);
    var total := SizeBefore(s, |s|);
    if start + total > INT32_MAX then None
    else Some(Fragment(MoofOf(s, tracks, vod, sequenceNumber, start), total + 8, s, total))
  }

  ghost function Plan(tracks: seq<Track>, vod: bool, startTime: nat, endTime: nat, sequenceNumber: nat): Option<Fragment> {
    if endTime <= startTime || tracks == [] || !AllServable(tracks) then None
    else
      var s := Listed(tracks, endTime);
      if s == [] || SizeBefore(s, |s|) > MAX_MDAT_PAYLOAD || !AllRebasable(s, tracks, vod) then None
      else Boxed(s, tracks, vod, sequenceNumber)
  }
}
