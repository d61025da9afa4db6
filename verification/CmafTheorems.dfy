/** What a planned fragment guarantees to whoever writes the payload and to whoever reads the boxes. */
module CmafTheorems {
  import opened CmafSpec

  // ---------------------------------------------------------------- what is collected

  /** A part of the requested interval. */
  predicate Selected(t: Track, part: nat, endTime: nat) {
    t.InRange() && t.firstPart <= part < t.endPart && PartTime(t, part) < endTime
  }

  lemma {:induction false} PartTimeMonotone(t: Track, p: nat, q: nat)
    requires t.InRange() && t.firstPart <= p <= q <= t.endPart
    ensures PartTime(t, p) <= PartTime(t, q)
    decreases q
  {
    if p < q {
      PartTimeMonotone(t, p, q - 1);
    }
  }

  /** The collected samples are the consecutive parts from the first on. */
  lemma {:induction false} SamplesFromAt(t: Track, part: nat, endTime: nat, k: nat)
    requires t.InRange() && t.firstPart <= part <= t.endPart && k < |SamplesFrom(t, part, endTime)|
    ensures Selected(t, part + k, endTime) && SamplesFrom(t, part, endTime)[k] == SampleOf(t, part + k)
    decreases t.endPart - part
  {
    if k > 0 {
      SamplesFromAt(t, part + 1, endTime, k - 1);
    }
  }

  /** Collection stops only where the interval ends. */
  lemma {:induction false} SamplesFromEnd(t: Track, part: nat, endTime: nat)
    requires t.InRange() && t.firstPart <= part <= t.endPart
    ensures var e := part + |SamplesFrom(t, part, endTime)|;
            e <= t.endPart && (e < t.endPart ==> PartTime(t, e) >= endTime)
    decreases t.endPart - part
  {
    if part < t.endPart && PartTime(t, part) < endTime {
      SamplesFromEnd(t, part + 1, endTime);
    }
  }

  /** The k-th collected sample of a track. */
  lemma {:induction false} TrackSampleAt(t: Track, endTime: nat, k: nat)
    requires Servable(t) && k < |TrackSamples(t, endTime)|
    ensures Selected(t, t.firstPart + k, endTime) && TrackSamples(t, endTime)[k] == SampleOf(t, t.firstPart + k)
  {
    SamplesFromAt(t, t.firstPart, endTime, k);
  }

  /** A sample is collected exactly when it is a selected part. */
  lemma {:induction false} CollectedIff(t: Track, endTime: nat, x: Sample)
    requires Servable(t)
    ensures x in TrackSamples(t, endTime) <==>
              x.track == t.id && Selected(t, x.part, endTime) && x == SampleOf(t, x.part)
  {
    var s := TrackSamples(t, endTime);
    if x in s {
      var k :| 0 <= k < |s| && s[k] == x;
      TrackSampleAt(t, endTime, k);
    }
    if Selected(t, x.part, endTime) && x == SampleOf(t, x.part) {
      SamplesFromEnd(t, t.firstPart, endTime);
      var k := x.part - t.firstPart;
      if k >= |s| {
        PartTimeMonotone(t, t.firstPart + |s|, x.part);
      }
      TrackSampleAt(t, endTime, k);
      assert s[k] == x;
    }
  }

  // ---------------------------------------------------------------- emission order

  ghost predicate Strict(s: seq<Sample>) {
    forall i, j :: 0 <= i < j < |s| ==> Before(s[i], s[j])
  }

  predicate SamePart(a: Sample, b: Sample) { a.track == b.track && a.part == b.part }

  lemma {:induction false} InsertStrict(s: seq<Sample>, x: Sample)
    requires Strict(s) && forall y :: y in s ==> !SamePart(x, y)
    ensures Strict(InsertSample(s, x))
    ensures forall y :: y in InsertSample(s, x) <==> y == x || y in s
  {
    if s == [] {
    } else {
      var init, last := s[..|s| - 1], s[|s| - 1];
      assert s == init + [last];
      assert last in s;
      if Before(x, last) {
        InsertStrict(init, x);
        var r := InsertSample(init, x);
        forall i | 0 <= i < |r| ensures Before(r[i], last) {
          assert r[i] in r;
        }
      } else {
        forall i | 0 <= i < |s| ensures Before(s[i], x) {
          assert s[i] in s;
        }
      }
    }
  }

  ghost predicate Distinct(s: seq<Sample>) {
    forall i, j :: 0 <= i < j < |s| ==> !SamePart(s[i], s[j])
  }

  /** Sorting distinct parts orders them strictly and keeps exactly the same samples. */
  lemma {:induction false} SortStrict(s: seq<Sample>)
    requires Distinct(s)
    ensures Strict(SortSamples(s))
    ensures forall y :: y in SortSamples(s) <==> y in s
  {
    if s == [] {
    } else {
      var init, last := s[..|s| - 1], s[|s| - 1];
      assert s == init + [last];
      SortStrict(init);
      forall y | y in SortSamples(init) ensures !SamePart(last, y) {
        var i :| 0 <= i < |init| && init[i] == y;
        assert !SamePart(s[i], s[|s| - 1]);
      }
      InsertStrict(SortSamples(init), last);
    }
  }

  /** The selection is a map from track number to track. */
  ghost predicate Ascending(tracks: seq<Track>) {
    forall i, j :: 0 <= i < j < |tracks| ==> tracks[i].id < tracks[j].id
  }

  lemma {:induction false} SampleHasTrack(tracks: seq<Track>, endTime: nat, x: Sample) returns (n: nat)
    requires AllServable(tracks) && x in AllSamples(tracks, endTime)
    ensures n < |tracks| && x in TrackSamples(tracks[n], endTime)
  {
    n := |tracks| - 1;
    if x in AllSamples(tracks[..n], endTime) {
      n := SampleHasTrack(tracks[..n], endTime, x);
    }
  }

  lemma {:induction false} TrackIsIncluded(tracks: seq<Track>, endTime: nat, n: nat, x: Sample)
    requires AllServable(tracks) && n < |tracks| && x in TrackSamples(tracks[n], endTime)
    ensures x in AllSamples(tracks, endTime)
  {
    if n < |tracks| - 1 {
      TrackIsIncluded(tracks[..|tracks| - 1], endTime, n, x);
    }
  }

  lemma {:induction false} AllSamplesDistinct(tracks: seq<Track>, endTime: nat)
    requires AllServable(tracks) && Ascending(tracks)
    ensures Distinct(AllSamples(tracks, endTime))
  {
    if tracks != [] {
      var n := |tracks| - 1;
      var init, t := tracks[..n], tracks[n];
      AllSamplesDistinct(init, endTime);
      var a, b := AllSamples(init, endTime), TrackSamples(t, endTime);
      forall i, j | 0 <= i < j < |b| ensures !SamePart(b[i], b[j]) {
        TrackSampleAt(t, endTime, i);
        TrackSampleAt(t, endTime, j);
      }
      forall x, y | x in a && y in b ensures !SamePart(x, y) {
        var i := SampleHasTrack(init, endTime, x);
        CollectedIff(init[i], endTime, x);
        CollectedIff(t, endTime, y);
        assert init[i] == tracks[i];
      }
    }
  }

  /** Two strictly ordered lists of the same samples are the same list. */
  lemma {:induction false} StrictUnique(a: seq<Sample>, b: seq<Sample>)
    requires Strict(a) && Strict(b) && forall x :: x in a <==> x in b
    ensures a == b
  {
    assert |b| > 0 ==> b[0] in b;
    if a == [] {
    } else {
      assert a[0] in a && b != [];
      var i :| 0 <= i < |b| && b[i] == a[0];
      var j :| 0 <= j < |a| && a[j] == b[0];
      assert a[0] == b[0];
      forall x ensures x in a[1..] <==> x in b[1..] {
        InTail(a, x);
        InTail(b, x);
      }
      StrictUnique(a[1..], b[1..]);
    }
  }

  lemma {:induction false} InTail(s: seq<Sample>, x: Sample)
    requires Strict(s) && s != []
    ensures x in s[1..] <==> x in s && x != s[0]
  {
    assert s == [s[0]] + s[1..];
    if x in s[1..] {
      var i :| 0 <= i < |s[1..]| && s[1..][i] == x;
      assert Before(s[0], s[i + 1]);
    }
  }

  /** The samples of one track within a list. */
  function OfTrack(s: seq<Sample>, track: nat): seq<Sample> {
    if s == [] then [] else (if s[0].track == track then [s[0]] else []) + OfTrack(s[1..], track)
  }

  lemma {:induction false} OfTrackStrict(s: seq<Sample>, track: nat)
    requires Strict(s)
    ensures Strict(OfTrack(s, track))
    ensures forall x :: x in OfTrack(s, track) <==> x in s && x.track == track
  {
    if s == [] {
    } else {
      OfTrackStrict(s[1..], track);
      assert s == [s[0]] + s[1..];
      var rest := OfTrack(s[1..], track);
      forall i | 0 <= i < |rest| ensures Before(s[0], rest[i]) {
        assert rest[i] in rest;
        var j :| 0 <= j < |s[1..]| && s[1..][j] == rest[i];
        assert s[j + 1] == rest[i];
      }
    }
  }

  lemma {:induction false} TrackSamplesStrict(t: Track, endTime: nat)
    requires Servable(t)
    ensures Strict(TrackSamples(t, endTime))
  {
    var s := TrackSamples(t, endTime);
    forall i, j | 0 <= i < j < |s| ensures Before(s[i], s[j]) {
      TrackSampleAt(t, endTime, i);
      TrackSampleAt(t, endTime, j);
      PartTimeMonotone(t, t.firstPart + i, t.firstPart + j);
    }
  }

  /** Sorting all tracks together leaves each track's samples in their own order, with none lost or added. */
  lemma {:induction false} EachTrackInOrder(tracks: seq<Track>, endTime: nat, n: nat)
    requires AllServable(tracks) && Ascending(tracks) && n < |tracks|
    ensures OfTrack(SortSamples(AllSamples(tracks, endTime)), tracks[n].id) == TrackSamples(tracks[n], endTime)
  {
    var t, all := tracks[n], AllSamples(tracks, endTime);
    AllSamplesDistinct(tracks, endTime);
    SortStrict(all);
    var mine := OfTrack(SortSamples(all), t.id);
    OfTrackStrict(SortSamples(all), t.id);
    TrackSamplesStrict(t, endTime);
    forall x ensures x in mine <==> x in TrackSamples(t, endTime) {
      CollectedIff(t, endTime, x);
      if x in mine {
        var i := SampleHasTrack(tracks, endTime, x);
        CollectedIff(tracks[i], endTime, x);
        assert i == n;
      } else if x in TrackSamples(t, endTime) {
        TrackIsIncluded(tracks, endTime, n, x);
      }
    }
    StrictUnique(mine, TrackSamples(t, endTime));
  }

  /** The track and part behind a listed sample. */
  lemma {:induction false} ListedHasPart(tracks: seq<Track>, endTime: nat, i: nat) returns (n: nat)
    requires AllServable(tracks) && Ascending(tracks) && i < |Listed(tracks, endTime)|
    ensures n < |tracks|
    ensures var x := Listed(tracks, endTime)[i];
            && x.track == tracks[n].id && Selected(tracks[n], x.part, endTime)
            && x.(mediaOffset := 0) == SampleOf(tracks[n], x.part)
  {
    var all := AllSamples(tracks, endTime);
    var x := SortSamples(all)[i];
    AllSamplesDistinct(tracks, endTime);
    SortStrict(all);
    assert x in SortSamples(all);
    n := SampleHasTrack(tracks, endTime, x);
    CollectedIff(tracks[n], endTime, x);
  }

  /** A selected part of a track is in the list. */
  lemma {:induction false} PartIsListed(tracks: seq<Track>, endTime: nat, n: nat, p: nat) returns (i: nat)
    requires AllServable(tracks) && Ascending(tracks) && n < |tracks| && Selected(tracks[n], p, endTime)
    ensures i < |Listed(tracks, endTime)| && Listed(tracks, endTime)[i].(mediaOffset := 0) == SampleOf(tracks[n], p)
  {
    var all := AllSamples(tracks, endTime);
    var x := SampleOf(tracks[n], p);
    AllSamplesDistinct(tracks, endTime);
    SortStrict(all);
    CollectedIff(tracks[n], endTime, x);
    TrackIsIncluded(tracks, endTime, n, x);
    i :| 0 <= i < |SortSamples(all)| && SortSamples(all)[i] == x;
    assert Listed(tracks, endTime)[i].(mediaOffset := 0) == x;
  }

  /** Listed by time, of one time by track, of one track by part. */
  ghost predicate InOrder(s: seq<Sample>) {
    forall i, j :: 0 <= i < j < |s| ==>
      && s[i].time <= s[j].time && (s[i].time == s[j].time ==> s[i].track <= s[j].track)
      && (s[i].time == s[j].time && s[i].track == s[j].track ==> s[i].part < s[j].part)
  }

  /** The sample stands for this part of this track. */
  predicate StandsFor(x: Sample, t: Track, p: nat, endTime: nat) {
    Selected(t, p, endTime) && x.track == t.id && x.part == p && x.(mediaOffset := 0) == SampleOf(t, p)
  }

  lemma {:induction false} ListedInOrder(tracks: seq<Track>, endTime: nat)
    requires AllServable(tracks) && Ascending(tracks)
    ensures Strict(Listed(tracks, endTime)) && InOrder(Listed(tracks, endTime))
  {
    hide AllSamples, SortSamples;
    AllSamplesDistinct(tracks, endTime);
    SortStrict(AllSamples(tracks, endTime));
    var s, sorted := Listed(tracks, endTime), SortSamples(AllSamples(tracks, endTime));
    forall i, j | 0 <= i < j < |s|
      ensures Before(s[i], s[j])
    {
      assert Before(sorted[i], sorted[j]);
    }
  }

  /** The listed samples: every selected part of every track, each once, in strict emission order: by time, samples
      of one time by track, and those of one track by part. */
  lemma {:induction false} ListedOnce(tracks: seq<Track>, endTime: nat)
    requires AllServable(tracks) && Ascending(tracks)
    ensures Strict(Listed(tracks, endTime)) && InOrder(Listed(tracks, endTime))
    ensures forall n, p :: 0 <= n < |tracks| && Selected(tracks[n], p, endTime) ==>
              exists i :: 0 <= i < |Listed(tracks, endTime)| && StandsFor(Listed(tracks, endTime)[i], tracks[n], p, endTime)
    ensures forall x :: x in Listed(tracks, endTime) ==> exists n :: 0 <= n < |tracks| && StandsFor(x, tracks[n], x.part, endTime)
  {
    hide Listed, Strict, InOrder, StandsFor, Selected, Ascending;
    ListedInOrder(tracks, endTime);
    var s := Listed(tracks, endTime);
    forall n, p | 0 <= n < |tracks| && Selected(tracks[n], p, endTime)
      ensures exists i :: 0 <= i < |s| && StandsFor(s[i], tracks[n], p, endTime)
    {
      var i := PartIsListed(tracks, endTime, n, p);
      Standing(s[i], tracks[n], p, endTime);
    }
    forall x | x in s
      ensures exists n :: 0 <= n < |tracks| && StandsFor(x, tracks[n], x.part, endTime)
    {
      var i :| 0 <= i < |s| && s[i] == x;
      var n := ListedHasPart(tracks, endTime, i);
      Standing(x, tracks[n], x.part, endTime);
    }
  }

  lemma {:induction false} Standing(x: Sample, t: Track, p: nat, endTime: nat)
    requires Selected(t, p, endTime) && x.(mediaOffset := 0) == SampleOf(t, p)
    ensures StandsFor(x, t, p, endTime)
  {
    assert x.track == x.(mediaOffset := 0).track && x.part == x.(mediaOffset := 0).part;
  }
}
