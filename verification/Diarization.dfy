/** Normalising a diarization response: backend speaker labels become SPEAKER_NN in first-seen order,
    with per-speaker totals. */
module Diarization {
  import opened Decimals
  import opened Sequences
  import opened Wrappers

  datatype Segment = Segment(start: real, end: real, speaker: string, text: string)

  // A nil segment pointer is None.
  datatype Response = Response(duration: real, language: string, segments: seq<Option<Segment>>, numSpeakers: int)

  datatype OutSegment = OutSegment(id: nat, speaker: string, rawLabel: string, start: real, end: real, text: string)

  datatype Speaker = Speaker(id: string, rawLabel: string, totalSpeechDuration: real, segmentCount: nat)

  datatype DiarizationResult = DiarizationResult(
    task: string, duration: real, language: string, segments: seq<OutSegment>, numSpeakers: int, speakers: seq<Speaker>)

  // ---------- SPEAKER_%02d ----------

  function SpeakerId(n: nat): string {
    "SPEAKER_" + (if n < 10 then "0" else "") + Decimal(n)
  }

  lemma IdDigits(n: nat)
    ensures |SpeakerId(n)| >= 9 && Value(SpeakerId(n)[8..]) == n
  {
    ValueOfDecimal(n);
    var digits := (if n < 10 then "0" else "") + Decimal(n);
    assert SpeakerId(n)[8..] == digits;
    if n < 10 {
      assert digits == ['0', Digit(n)];
      assert digits[..1] == ['0'] && ['0'][..0] == "";
    }
  }

  /** Different speakers get different ids. */
  lemma IdsAreDistinct(m: nat, n: nat)
    ensures SpeakerId(m) == SpeakerId(n) <==> m == n
  {
    IdDigits(m);
    IdDigits(n);
  }

  // ---------- String order ----------

  predicate Less(a: string, b: string) {
    b != "" && (a == "" || a[0] < b[0] || (a[0] == b[0] && Less(a[1..], b[1..])))
  }

  lemma {:induction false} LessIsAsymmetric(a: string, b: string)
    requires Less(a, b)
    ensures !Less(b, a) && a != b
  {
    if a != "" && a[0] == b[0] {
      LessIsAsymmetric(a[1..], b[1..]);
    }
  }

  lemma {:induction false} NotLessIsTransitive(a: string, b: string, c: string)
    requires !Less(b, a) && !Less(c, b)
    ensures !Less(c, a)
  {
    if a != "" && b != "" && c != "" && a[0] == b[0] == c[0] {
      NotLessIsTransitive(a[1..], b[1..], c[1..]);
    }
  }

  lemma {:induction false} SamePrefix(p: string, a: string, b: string)
    ensures Less(p + a, p + b) <==> Less(a, b)
  {
    if p == "" {
      assert p + a == a && p + b == b;
    } else {
      assert (p + a)[1..] == p[1..] + a && (p + b)[1..] == p[1..] + b;
      SamePrefix(p[1..], a, b);
    }
  }

  lemma TwoDigits(n: nat)
    requires n < 100
    ensures SpeakerId(n) == "SPEAKER_" + [Digit(n / 10), Digit(n % 10)]
  {
    if n >= 10 {
      assert Decimal(n / 10) == [Digit(n / 10)];
    }
  }

  // Up to 99 the ids sort like the numbers.
  lemma SmallIdsAreOrdered(m: nat, n: nat)
    requires m < n < 100
    ensures Less(SpeakerId(m), SpeakerId(n))
  {
    TwoDigits(m);
    TwoDigits(n);
    var a, b := [Digit(m / 10), Digit(m % 10)], [Digit(n / 10), Digit(n % 10)];
    assert Less(a[1..], b[1..]) <==> m % 10 < n % 10;
    SamePrefix("SPEAKER_", a, b);
  }

  lemma HundredSortsBeforeEleven()
    ensures Less(SpeakerId(100), SpeakerId(11))
  {
    assert Decimal(100) == "100" by {
      assert Decimal(10) == "10";
    }
    assert Decimal(11) == "11";
    assert "100"[1..] == "00" && "11"[1..] == "1";
    assert SpeakerId(100) == "SPEAKER_" + "100" && SpeakerId(11) == "SPEAKER_" + "11";
    SamePrefix("SPEAKER_", "100", "11");
  }

  // ---------- sort.SliceStable by id ----------

  function Insert(xs: seq<Speaker>, x: Speaker): (ys: seq<Speaker>) {
    if xs == [] then [x]
    else
      var last := xs[|xs| - 1];
      if Less(x.id, last.id) then Insert(xs[..|xs| - 1], x) + [last] else xs + [x]
  }

  function StableSort(xs: seq<Speaker>): seq<Speaker> {
    if xs == [] then [] else Insert(StableSort(xs[..|xs| - 1]), xs[|xs| - 1])
  }

  ghost predicate IsSorted(xs: seq<Speaker>) {
    forall i, j | 0 <= i < j < |xs| :: !Less(xs[j].id, xs[i].id)
  }

  lemma {:induction false} InsertIsPermutation(xs: seq<Speaker>, x: Speaker)
    ensures multiset(Insert(xs, x)) == multiset(xs) + multiset{x}
    ensures forall i | 0 <= i < |Insert(xs, x)| :: Insert(xs, x)[i] == x || Insert(xs, x)[i] in xs
  {
    if xs != [] {
      var front, last := xs[..|xs| - 1], xs[|xs| - 1];
      assert xs == front + [last];
      InsertIsPermutation(front, x);
    }
  }

  lemma {:induction false} InsertKeepsSorted(xs: seq<Speaker>, x: Speaker)
    requires IsSorted(xs)
    ensures IsSorted(Insert(xs, x))
  {
    if xs != [] {
      var front, last := xs[..|xs| - 1], xs[|xs| - 1];
      if Less(x.id, last.id) {
        InsertKeepsSorted(front, x);
        InsertIsPermutation(front, x);
        LessIsAsymmetric(x.id, last.id);
        var ys := Insert(front, x);
        forall i | 0 <= i < |ys|
          ensures !Less(last.id, ys[i].id)
        {
          if ys[i] != x {
            var k :| 0 <= k < |front| && front[k] == ys[i];
            assert xs[k] == ys[i];
          }
        }
      } else {
        forall i | 0 <= i < |front|
          ensures !Less(x.id, xs[i].id)
        {
          NotLessIsTransitive(xs[i].id, last.id, x.id);
        }
      }
    }
  }

  lemma {:induction false} SortIsSortedPermutation(xs: seq<Speaker>)
    ensures IsSorted(StableSort(xs)) && multiset(StableSort(xs)) == multiset(xs)
  {
    if xs != [] {
      var front := xs[..|xs| - 1];
      SortIsSortedPermutation(front);
      InsertKeepsSorted(StableSort(front), xs[|xs| - 1]);
      InsertIsPermutation(StableSort(front), xs[|xs| - 1]);
      assert xs == front + [xs[|xs| - 1]];
    }
  }

  lemma {:induction false} SortLeavesSorted(xs: seq<Speaker>)
    requires IsSorted(xs)
    ensures StableSort(xs) == xs
  {
    if xs != [] {
      var front := xs[..|xs| - 1];
      SortLeavesSorted(front);
      assert front != [] ==> !Less(xs[|xs| - 1].id, front[|front| - 1].id);
      assert xs == front + [xs[|xs| - 1]];
    }
  }

  lemma SortOfSorted(xs: seq<Speaker>)
    ensures StableSort(xs) == xs <==> IsSorted(xs)
  {
    if StableSort(xs) == xs {
      SortIsSortedPermutation(xs);
    }
    if IsSorted(xs) {
      SortLeavesSorted(xs);
    }
  }

  // ---------- Labels, counts and durations ----------

  function RawLabel(s: Segment): string {
    if s.speaker == "" then "0" else s.speaker
  }

  function FirstSeen(segs: seq<Option<Segment>>): seq<string> {
    if segs == [] then []
    else
      var order, s := FirstSeen(segs[..|segs| - 1]), segs[|segs| - 1];
      if s.Some? && RawLabel(s.value) !in order then order + [RawLabel(s.value)] else order
  }

  predicate IsLabelled(s: Option<Segment>, name: string) {
    s.Some? && RawLabel(s.value) == name
  }

  function Count(segs: seq<Option<Segment>>, name: string): nat {
    if segs == [] then 0
    else Count(segs[..|segs| - 1], name) + (if IsLabelled(segs[|segs| - 1], name) then 1 else 0)
  }

  function Speech(s: Segment): real {
    if s.end - s.start > 0.0 then s.end - s.start else 0.0
  }

  function Duration(segs: seq<Option<Segment>>, name: string): real {
    if segs == [] then 0.0
    else
      Duration(segs[..|segs| - 1], name) +
      (if IsLabelled(segs[|segs| - 1], name) then Speech(segs[|segs| - 1].value) else 0.0)
  }

  function IndexOf(order: seq<string>, name: string): nat
    requires name in order
  {
    if order[0] == name then 0 else 1 + IndexOf(order[1..], name)
  }

  predicate AllLabelled(segs: seq<Option<Segment>>, order: seq<string>) {
    forall i | 0 <= i < |segs| :: segs[i].Some? ==> RawLabel(segs[i].value) in order
  }

  function Relabelled(segs: seq<Option<Segment>>, order: seq<string>): seq<OutSegment>
    requires AllLabelled(segs, order)
  {
    if segs == [] then []
    else
      var n := |segs| - 1;
      Relabelled(segs[..n], order) +
      match segs[n]
      case None => []
      case Some(s) => [OutSegment(n, SpeakerId(IndexOf(order, RawLabel(s))), RawLabel(s), s.start, s.end, s.text)]
  }

  function Speakers(segs: seq<Option<Segment>>, order: seq<string>): seq<Speaker> {
    if order == [] then []
    else
      var k := |order| - 1;
      Speakers(segs, order[..k]) + [Speaker(SpeakerId(k), order[k], Duration(segs, order[k]), Count(segs, order[k]))]
  }

  lemma {:induction false} FirstSeenIsDistinct(segs: seq<Option<Segment>>)
    ensures IsDistinct(FirstSeen(segs))
    ensures forall i | 0 <= i < |segs| && segs[i].Some? :: RawLabel(segs[i].value) in FirstSeen(segs)
    ensures forall name :: name in FirstSeen(segs) ==> Count(segs, name) > 0
  {
    if segs != [] {
      var n := |segs| - 1;
      FirstSeenIsDistinct(segs[..n]);
      forall i | 0 <= i < |segs| && segs[i].Some?
        ensures RawLabel(segs[i].value) in FirstSeen(segs)
      {
        if i < n {
          assert segs[..n][i] == segs[i];
        }
      }
    }
  }

  lemma {:induction false} IndexOfPosition(order: seq<string>, name: string)
    requires name in order
    ensures IndexOf(order, name) < |order| && order[IndexOf(order, name)] == name
  {
    if order[0] != name {
      assert order == [order[0]] + order[1..];
      IndexOfPosition(order[1..], name);
    }
  }

  lemma {:induction false} IndexOfGrows(order: seq<string>, name: string, x: string)
    requires name in order
    ensures IndexOf(order + [x], name) == IndexOf(order, name)
  {
    if order[0] != name {
      assert order == [order[0]] + order[1..] && (order + [x])[1..] == order[1..] + [x];
      IndexOfGrows(order[1..], name, x);
    }
  }

  lemma {:induction false} IndexOfNew(order: seq<string>, x: string)
    requires x !in order
    ensures IndexOf(order + [x], x) == |order|
  {
    if order != [] {
      assert (order + [x])[1..] == order[1..] + [x];
      IndexOfNew(order[1..], x);
    }
  }

  lemma {:induction false} RelabelledGrows(segs: seq<Option<Segment>>, order: seq<string>, x: string)
    requires AllLabelled(segs, order)
    ensures Relabelled(segs, order + [x]) == Relabelled(segs, order)
  {
    if segs != [] {
      var n := |segs| - 1;
      RelabelledGrows(segs[..n], order, x);
      if segs[n].Some? {
        IndexOfGrows(order, RawLabel(segs[n].value), x);
      }
    }
  }

  // ---------- The conversion ----------

  datatype SpeakerStats = SpeakerStats(idx: nat, duration: real, segments: nat)

  function StatsOf(segs: seq<Option<Segment>>, order: seq<string>, name: string): SpeakerStats
    requires name in order
  {
    SpeakerStats(IndexOf(order, name), Duration(segs, name), Count(segs, name))
  }

  // What the statistics say after the segments segs.
  ghost predicate StatsMatch(stats: map<string, SpeakerStats>, order: seq<string>, segs: seq<Option<Segment>>) {
    && (forall name | name in stats :: name in order)
    && forall name | name in order :: name in stats && stats[name] == StatsOf(segs, order, name)
  }

  lemma {:induction false} UnseenHasNothing(segs: seq<Option<Segment>>, name: string)
    requires name !in FirstSeen(segs)
    ensures Count(segs, name) == 0 && Duration(segs, name) == 0.0
  {
    if segs != [] {
      UnseenHasNothing(segs[..|segs| - 1], name);
    }
  }

  lemma FirstSeenAfter(segs: seq<Option<Segment>>, s: Segment, name: string)
    requires name in FirstSeen(segs + [Some(s)])
    ensures name in FirstSeen(segs) ==> IndexOf(FirstSeen(segs + [Some(s)]), name) == IndexOf(FirstSeen(segs), name)
    ensures name !in FirstSeen(segs) ==>
              name == RawLabel(s) && IndexOf(FirstSeen(segs + [Some(s)]), name) == |FirstSeen(segs)|
  {
    var order := FirstSeen(segs);
    assert (segs + [Some(s)])[..|segs|] == segs;
    if RawLabel(s) !in order {
      if name in order {
        IndexOfGrows(order, name, RawLabel(s));
      } else {
        IndexOfNew(order, RawLabel(s));
      }
    }
  }

  lemma TotalsAfter(segs: seq<Option<Segment>>, s: Segment, name: string)
    ensures Count(segs + [Some(s)], name) == Count(segs, name) + (if RawLabel(s) == name then 1 else 0)
    ensures Duration(segs + [Some(s)], name) == Duration(segs, name) + (if RawLabel(s) == name then Speech(s) else 0.0)
  {
    assert (segs + [Some(s)])[..|segs|] == segs;
  }

  // The statistics of one label after one more segment.
  lemma StatsOfAfter(segs: seq<Option<Segment>>, s: Segment, name: string)
    requires name in FirstSeen(segs + [Some(s)])
    ensures var order, raw := FirstSeen(segs), RawLabel(s);
            var before := if name in order then StatsOf(segs, order, name) else SpeakerStats(|order|, 0.0, 0);
            && (name != raw ==> name in order)
            && StatsOf(segs + [Some(s)], FirstSeen(segs + [Some(s)]), name)
               == (if name == raw then SpeakerStats(before.idx, before.duration + Speech(s), before.segments + 1) else before)
  {
    FirstSeenAfter(segs, s, name);
    TotalsAfter(segs, s, name);
    if name !in FirstSeen(segs) {
      UnseenHasNothing(segs, name);
    }
  }

  lemma FirstSeenGrows(segs: seq<Option<Segment>>, s: Segment)
    ensures var order, raw := FirstSeen(segs), RawLabel(s);
            FirstSeen(segs + [Some(s)]) == if raw in order then order else order + [raw]
  {
    assert (segs + [Some(s)])[..|segs|] == segs;
  }

  // One more segment, under its normalised label.
  lemma StatsAfterSegment(stats: map<string, SpeakerStats>, segs: seq<Option<Segment>>, s: Segment)
    requires StatsMatch(stats, FirstSeen(segs), segs)
    ensures var raw, order := RawLabel(s), FirstSeen(segs);
            var st := if raw in stats then stats[raw] else SpeakerStats(|order|, 0.0, 0);
            StatsMatch(stats[raw := SpeakerStats(st.idx, st.duration + Speech(s), st.segments + 1)],
                       FirstSeen(segs + [Some(s)]), segs + [Some(s)])
  {
    var raw, order := RawLabel(s), FirstSeen(segs);
    var more := segs + [Some(s)];
    FirstSeenGrows(segs, s);
    forall name | name in FirstSeen(more)
      ensures name != raw ==> name in order && StatsOf(more, FirstSeen(more), name) == StatsOf(segs, order, name)
    {
      StatsOfAfter(segs, s, name);
    }
    StatsOfAfter(segs, s, raw);
  }

  lemma RelabelledOneMore(segs: seq<Option<Segment>>, s: Segment, order: seq<string>)
    requires AllLabelled(segs, order) && RawLabel(s) in order
    ensures AllLabelled(segs + [Some(s)], order)
    ensures Relabelled(segs + [Some(s)], order) == Relabelled(segs, order) +
              [OutSegment(|segs|, SpeakerId(IndexOf(order, RawLabel(s))), RawLabel(s), s.start, s.end, s.text)]
  {
    assert (segs + [Some(s)])[..|segs|] == segs;
  }

  lemma RelabelledAfterSegment(segs: seq<Option<Segment>>, s: Segment)
    requires AllLabelled(segs, FirstSeen(segs))
    ensures var more := segs + [Some(s)];
            var order, raw := FirstSeen(more), RawLabel(s);
            && AllLabelled(more, order) && raw in order
            && Relabelled(more, order) == Relabelled(segs, FirstSeen(segs)) +
                 [OutSegment(|segs|, SpeakerId(IndexOf(order, raw)), raw, s.start, s.end, s.text)]
  {
    FirstSeenGrows(segs, s);
    if RawLabel(s) !in FirstSeen(segs) {
      RelabelledGrows(segs, FirstSeen(segs), RawLabel(s));
    }
    RelabelledOneMore(segs, s, FirstSeen(segs + [Some(s)]));
  }

  // The loop's variables after the segments segs.
  ghost predicate Tallied(segs: seq<Option<Segment>>, segments: seq<OutSegment>, order: seq<string>,
                          stats: map<string, SpeakerStats>) {
    && order == FirstSeen(segs) && AllLabelled(segs, order)
    && segments == Relabelled(segs, order)
    && StatsMatch(stats, order, segs)
  }

  lemma NilChangesNothing(segs: seq<Option<Segment>>, segments: seq<OutSegment>, order: seq<string>,
                          stats: map<string, SpeakerStats>)
    requires Tallied(segs, segments, order, stats)
    ensures Tallied(segs + [None], segments, order, stats)
  {
    assert (segs + [None])[..|segs|] == segs;
  }

  // The loop body for a segment that is not nil.
  method AddSegment(s: Segment, i: nat, segments: seq<OutSegment>, order: seq<string>, stats: map<string, SpeakerStats>,
                    ghost segs: seq<Option<Segment>>)
    returns (segments': seq<OutSegment>, order': seq<string>, stats': map<string, SpeakerStats>)
    requires i == |segs| && Tallied(segs, segments, order, stats)
    ensures Tallied(segs + [Some(s)], segments', order', stats')
  {
    var raw := s.speaker;
    if raw == "" {
      raw := "0";
    }
    StatsAfterSegment(stats, segs, s);
    RelabelledAfterSegment(segs, s);
    FirstSeenGrows(segs, s);
    var st: SpeakerStats;
    if raw in stats {
      st, order' := stats[raw], order;
    } else {
      st, order' := SpeakerStats(|order|, 0.0, 0), order + [raw];
    }
    var dur := s.end - s.start;
    if dur > 0.0 {
      st := st.(duration := st.duration + dur);
    }
    stats' := stats[raw := st.(segments := st.segments + 1)];
    segments' := segments + [OutSegment(i, SpeakerId(st.idx), raw, s.start, s.end, s.text)];
  }

  method RelabelSegments(segs: seq<Option<Segment>>)
    returns (segments: seq<OutSegment>, order: seq<string>, stats: map<string, SpeakerStats>)
    ensures Tallied(segs, segments, order, stats)
  {
    segments, order, stats := [], [], map[];
    for i := 0 to |segs|
      invariant Tallied(segs[..i], segments, order, stats)
    {
      assert segs[..i + 1] == segs[..i] + [segs[i]];
      if segs[i].None? {
        NilChangesNothing(segs[..i], segments, order, stats);
        continue;
      }
      segments, order, stats := AddSegment(segs[i].value, i, segments, order, stats, segs[..i]);
    }
    assert segs[..|segs|] == segs;
  }

  method DiarizationResultFromProto(r: Option<Response>) returns (out: DiarizationResult)
    ensures r.None? ==> out == DiarizationResult("", 0.0, "", [], 0, [])
    ensures r.Some? ==>
              var segs, order := r.value.segments, FirstSeen(r.value.segments);
              && AllLabelled(segs, order)
              && out == DiarizationResult("diarize", r.value.duration, r.value.language, Relabelled(segs, order),
                   if order == [] && r.value.numSpeakers > 0 then r.value.numSpeakers else |order|,
                   StableSort(Speakers(segs, order)))
  {
    if r.None? {
      return DiarizationResult("", 0.0, "", [], 0, []);
    }
    var segs := r.value.segments;
    var segments, order, stats := RelabelSegments(segs);
    var numSpeakers: int := |order|;
    if numSpeakers == 0 && r.value.numSpeakers > 0 {
      numSpeakers := r.value.numSpeakers;
    }
    var speakers := [];
    FirstSeenIsDistinct(segs);
    for k := 0 to |order|
      invariant speakers == Speakers(segs, order[..k])
    {
      assert order[..k + 1][..k] == order[..k];
      IndexOfPosition(order, order[k]);
      var st := stats[order[k]];
      speakers := speakers + [Speaker(SpeakerId(st.idx), order[k], st.duration, st.segments)];
    }
    assert order[..|order|] == order;
    out := DiarizationResult("diarize", r.value.duration, r.value.language, segments, numSpeakers, StableSort(speakers));
  }

  // ---------- What the result means ----------

  // Position of the first segment with a label; the length if there is none.
  function FirstAt(segs: seq<Option<Segment>>, name: string): (i: nat)
    ensures i <= |segs|
    ensures i < |segs| ==> IsLabelled(segs[i], name)
    ensures forall j | 0 <= j < i :: !IsLabelled(segs[j], name)
  {
    if segs == [] then 0
    else
      var n := |segs| - 1;
      var i := FirstAt(segs[..n], name);
      if i == n && !IsLabelled(segs[n], name) then n + 1 else i
  }

  lemma {:induction false} FirstSeenOccurs(segs: seq<Option<Segment>>, name: string)
    ensures name in FirstSeen(segs) <==> FirstAt(segs, name) < |segs|
  {
    if segs != [] {
      FirstSeenOccurs(segs[..|segs| - 1], name);
    }
  }

  /** The labels are listed in the order in which they first occur in the segments, every label that
      occurs and no other. */
  lemma {:induction false} FirstSeenIsByOccurrence(segs: seq<Option<Segment>>)
    ensures forall name :: name in FirstSeen(segs) <==> exists i :: 0 <= i < |segs| && IsLabelled(segs[i], name)
    ensures forall i, k | 0 <= i < k < |FirstSeen(segs)| ::
              FirstAt(segs, FirstSeen(segs)[i]) < FirstAt(segs, FirstSeen(segs)[k]) < |segs|
  {
    forall name
      ensures name in FirstSeen(segs) <==> exists i :: 0 <= i < |segs| && IsLabelled(segs[i], name)
    {
      FirstSeenOccurs(segs, name);
    }
    if segs != [] {
      var front, order := segs[..|segs| - 1], FirstSeen(segs[..|segs| - 1]);
      FirstSeenIsByOccurrence(front);
      forall i | 0 <= i < |order|
        ensures FirstAt(segs, order[i]) == FirstAt(front, order[i]) < |front|
      {
        FirstSeenOccurs(front, order[i]);
      }
      if FirstSeen(segs) != order {
        FirstSeenOccurs(front, FirstSeen(segs)[|order|]);
      }
    }
  }

  // x is what the segment at its position is relabelled to.
  predicate Relabels(x: OutSegment, segs: seq<Option<Segment>>) {
    x.id < |segs| && segs[x.id].Some? &&
    var s := segs[x.id].value;
    && x.rawLabel == (if s.speaker == "" then "0" else s.speaker)
    && x.start == s.start && x.end == s.end && x.text == s.text
  }

  /** The output has one segment for every non-nil input segment, in the same order, with that
      segment's label, times and text. */
  lemma {:induction false} OutputFollowsInput(segs: seq<Option<Segment>>, order: seq<string>)
    requires AllLabelled(segs, order)
    ensures |Relabelled(segs, order)| == Kept(segs)
    ensures forall x | x in Relabelled(segs, order) :: Relabels(x, segs)
    ensures forall i, k | 0 <= i < k < |Relabelled(segs, order)| ::
              Relabelled(segs, order)[i].id < Relabelled(segs, order)[k].id
  {
    if segs != [] {
      var front := segs[..|segs| - 1];
      OutputFollowsInput(front, order);
      var out := Relabelled(front, order);
      forall i | 0 <= i < |out|
        ensures out[i].id < |front| && Relabels(out[i], segs)
      {
        assert out[i] in out;
      }
      var last, all := segs[|segs| - 1], Relabelled(segs, order);
      if last.Some? {
        assert segs == front + [last];
        RelabelledOneMore(front, last.value, order);
        assert all[..|out|] == out && Relabels(all[|out|], segs);
      } else {
        assert all == out;
      }
    }
  }

  lemma {:induction false} RelabelledUsesOrder(segs: seq<Option<Segment>>, order: seq<string>, i: nat)
    requires AllLabelled(segs, order)
    requires i < |Relabelled(segs, order)|
    ensures var x := Relabelled(segs, order)[i];
            x.rawLabel in order && x.speaker == SpeakerId(IndexOf(order, x.rawLabel))
  {
    if segs != [] && i < |Relabelled(segs[..|segs| - 1], order)| {
      RelabelledUsesOrder(segs[..|segs| - 1], order, i);
    }
  }

  /** Relabelling is a bijection: two segments get the same id exactly when the backend gave them the
      same label, the empty label being read as "0"; and the id is the position of that label in
      first-seen order. */
  lemma RelabellingIsBijective(segs: seq<Option<Segment>>, i: nat, k: nat)
    requires AllLabelled(segs, FirstSeen(segs))
    requires i < |Relabelled(segs, FirstSeen(segs))| && k < |Relabelled(segs, FirstSeen(segs))|
    ensures var out, order := Relabelled(segs, FirstSeen(segs)), FirstSeen(segs);
            && Relabels(out[i], segs) && Relabels(out[k], segs)
            && (out[i].speaker == out[k].speaker <==> RawLabel(segs[out[i].id].value) == RawLabel(segs[out[k].id].value))
            && exists idx :: 0 <= idx < |order| && order[idx] == out[i].rawLabel && out[i].speaker == SpeakerId(idx)
  {
    var out, order := Relabelled(segs, FirstSeen(segs)), FirstSeen(segs);
    OutputFollowsInput(segs, order);
    assert out[i] in out && out[k] in out;
    RelabelledUsesOrder(segs, order, i);
    RelabelledUsesOrder(segs, order, k);
    IndexOfPosition(order, out[i].rawLabel);
    IndexOfPosition(order, out[k].rawLabel);
    IdsAreDistinct(IndexOf(order, out[i].rawLabel), IndexOf(order, out[k].rawLabel));
  }

  function Kept(segs: seq<Option<Segment>>): nat {
    if segs == [] then 0 else Kept(segs[..|segs| - 1]) + (if segs[|segs| - 1].Some? then 1 else 0)
  }

  function TotalSpeech(segs: seq<Option<Segment>>): real {
    if segs == [] then 0.0
    else
      TotalSpeech(segs[..|segs| - 1]) +
      match segs[|segs| - 1]
      case Some(s) => if s.end > s.start then s.end - s.start else 0.0
      case None => 0.0
  }

  function SumCounts(xs: seq<Speaker>): nat {
    if xs == [] then 0 else SumCounts(xs[..|xs| - 1]) + xs[|xs| - 1].segmentCount
  }

  function SumDurations(xs: seq<Speaker>): real {
    if xs == [] then 0.0 else SumDurations(xs[..|xs| - 1]) + xs[|xs| - 1].totalSpeechDuration
  }

  lemma SumsOfOneMore(xs: seq<Speaker>, x: Speaker)
    ensures SumCounts(xs + [x]) == SumCounts(xs) + x.segmentCount
    ensures SumDurations(xs + [x]) == SumDurations(xs) + x.totalSpeechDuration
  {
    assert (xs + [x])[..|xs|] == xs;
  }

  // A further segment adds to the one speaker that carries its label.
  lemma {:induction false} SumsAfterSegment(segs: seq<Option<Segment>>, s: Option<Segment>, order: seq<string>)
    requires IsDistinct(order)
    ensures var hit := s.Some? && RawLabel(s.value) in order;
            var before, after := Speakers(segs, order), Speakers(segs + [s], order);
            && SumCounts(after) == SumCounts(before) + (if hit then 1 else 0)
            && SumDurations(after) == SumDurations(before) + (if hit then Speech(s.value) else 0.0)
  {
    if order != [] {
      var k := |order| - 1;
      var name := order[k];
      SumsAfterSegment(segs, s, order[..k]);
      SumsOfOneMore(Speakers(segs, order[..k]), Speaker(SpeakerId(k), name, Duration(segs, name), Count(segs, name)));
      var more := segs + [s];
      assert more[..|segs|] == segs;
      SumsOfOneMore(Speakers(more, order[..k]), Speaker(SpeakerId(k), name, Duration(more, name), Count(more, name)));
      assert order == order[..k] + [name];
    }
  }

  lemma {:induction false} SumsOfNothing(order: seq<string>)
    ensures SumCounts(Speakers([], order)) == 0 && SumDurations(Speakers([], order)) == 0.0
  {
    if order != [] {
      SumsOfNothing(order[..|order| - 1]);
    }
  }

  lemma {:induction false} SumsAreTotals(segs: seq<Option<Segment>>, order: seq<string>)
    requires IsDistinct(order) && AllLabelled(segs, order)
    ensures SumCounts(Speakers(segs, order)) == Kept(segs)
    ensures SumDurations(Speakers(segs, order)) == TotalSpeech(segs)
  {
    if segs == [] {
      SumsOfNothing(order);
    } else {
      var front, s := segs[..|segs| - 1], segs[|segs| - 1];
      assert segs == front + [s];
      SumsAreTotals(front, order);
      SumsAfterSegment(front, s, order);
    }
  }

  lemma {:induction false} InsertKeepsSums(xs: seq<Speaker>, x: Speaker)
    ensures SumCounts(Insert(xs, x)) == SumCounts(xs) + x.segmentCount
    ensures SumDurations(Insert(xs, x)) == SumDurations(xs) + x.totalSpeechDuration
  {
    if xs != [] {
      var front, last := xs[..|xs| - 1], xs[|xs| - 1];
      InsertKeepsSums(front, x);
      assert (Insert(front, x) + [last])[..|Insert(front, x)|] == Insert(front, x);
      assert (xs + [x])[..|xs|] == xs;
    }
  }

  lemma {:induction false} SortKeepsSums(xs: seq<Speaker>)
    ensures SumCounts(StableSort(xs)) == SumCounts(xs) && SumDurations(StableSort(xs)) == SumDurations(xs)
  {
    if xs != [] {
      SortKeepsSums(xs[..|xs| - 1]);
      InsertKeepsSums(StableSort(xs[..|xs| - 1]), xs[|xs| - 1]);
    }
  }

  /** Nothing is lost in the totals: the per-speaker segment counts and durations of the reported
      list sum to those of all segments that are not nil. */
  lemma TotalsAreConserved(segs: seq<Option<Segment>>)
    ensures var speakers := StableSort(Speakers(segs, FirstSeen(segs)));
            SumCounts(speakers) == Kept(segs) && SumDurations(speakers) == TotalSpeech(segs)
  {
    FirstSeenIsDistinct(segs);
    SumsAreTotals(segs, FirstSeen(segs));
    SortKeepsSums(Speakers(segs, FirstSeen(segs)));
  }

  // The output segments of one speaker: their number, and the sum of their lengths, a negative length
  // counting as none.
  function SegmentsOf(out: seq<OutSegment>, speaker: string): nat {
    if out == [] then 0
    else SegmentsOf(out[..|out| - 1], speaker) + (if out[|out| - 1].speaker == speaker then 1 else 0)
  }

  function LengthsOf(out: seq<OutSegment>, speaker: string): real {
    if out == [] then 0.0
    else
      var x := out[|out| - 1];
      LengthsOf(out[..|out| - 1], speaker) + (if x.speaker == speaker && x.end > x.start then x.end - x.start else 0.0)
  }

  lemma OutputOfOneMore(out: seq<OutSegment>, x: OutSegment, speaker: string)
    ensures SegmentsOf(out + [x], speaker) == SegmentsOf(out, speaker) + (if x.speaker == speaker then 1 else 0)
    ensures LengthsOf(out + [x], speaker)
            == LengthsOf(out, speaker) + (if x.speaker == speaker && x.end > x.start then x.end - x.start else 0.0)
  {
    assert (out + [x])[..|out|] == out;
  }

  lemma LabelOfId(order: seq<string>, name: string, k: nat)
    requires IsDistinct(order) && name in order && k < |order|
    ensures SpeakerId(IndexOf(order, name)) == SpeakerId(k) <==> name == order[k]
  {
    IndexOfPosition(order, name);
    IdsAreDistinct(IndexOf(order, name), k);
  }

  lemma {:induction false} TotalsOfLabel(segs: seq<Option<Segment>>, order: seq<string>, k: nat)
    requires AllLabelled(segs, order) && IsDistinct(order) && k < |order|
    ensures SegmentsOf(Relabelled(segs, order), SpeakerId(k)) == Count(segs, order[k])
    ensures LengthsOf(Relabelled(segs, order), SpeakerId(k)) == Duration(segs, order[k])
  {
    if segs != [] {
      var n := |segs| - 1;
      TotalsOfLabel(segs[..n], order, k);
      var out := Relabelled(segs[..n], order);
      match segs[n]
      case None => assert out + [] == out;
      case Some(s) =>
        LabelOfId(order, RawLabel(s), k);
        OutputOfOneMore(out, OutSegment(n, SpeakerId(IndexOf(order, RawLabel(s))), RawLabel(s), s.start, s.end, s.text), SpeakerId(k));
    }
  }

  lemma {:induction false} SpeakersFollowOrder(segs: seq<Option<Segment>>, order: seq<string>)
    ensures |Speakers(segs, order)| == |order|
    ensures forall k | 0 <= k < |order| :: Speakers(segs, order)[k]
              == Speaker(SpeakerId(k), order[k], Duration(segs, order[k]), Count(segs, order[k]))
  {
    if order != [] {
      SpeakersFollowOrder(segs, order[..|order| - 1]);
    }
  }

  /** Every speaker of the reported list, in whatever place, has the number of the output segments under
      its id and the sum of their positive lengths. */
  lemma TotalsMatchSegments(segs: seq<Option<Segment>>, x: Speaker)
    requires AllLabelled(segs, FirstSeen(segs)) && x in StableSort(Speakers(segs, FirstSeen(segs)))
    ensures x.segmentCount == SegmentsOf(Relabelled(segs, FirstSeen(segs)), x.id)
    ensures x.totalSpeechDuration == LengthsOf(Relabelled(segs, FirstSeen(segs)), x.id)
    ensures x.segmentCount > 0 && x.rawLabel in FirstSeen(segs)
  {
    var order := FirstSeen(segs);
    var speakers := Speakers(segs, order);
    FirstSeenIsDistinct(segs);
    SortIsSortedPermutation(speakers);
    assert x in multiset(StableSort(speakers));
    SpeakersFollowOrder(segs, order);
    var k :| 0 <= k < |speakers| && speakers[k] == x;
    TotalsOfLabel(segs, order, k);
  }

  /** The speaker list is a permutation sorted by id as a string, and it is in first-seen order
      exactly when there are at most 100 speakers: SPEAKER_100 sorts before SPEAKER_11. */
  lemma SpeakersInFirstSeenOrderIff(segs: seq<Option<Segment>>)
    ensures var speakers := Speakers(segs, FirstSeen(segs));
            && IsSorted(StableSort(speakers)) && multiset(StableSort(speakers)) == multiset(speakers)
            && (StableSort(speakers) == speakers <==> |FirstSeen(segs)| <= 100)
  {
    var speakers := Speakers(segs, FirstSeen(segs));
    SortIsSortedPermutation(speakers);
    SortOfSorted(speakers);
    SpeakersFollowOrder(segs, FirstSeen(segs));
    if |speakers| <= 100 {
      forall i, j | 0 <= i < j < |speakers|
        ensures !Less(speakers[j].id, speakers[i].id)
      {
        SmallIdsAreOrdered(i, j);
        LessIsAsymmetric(SpeakerId(i), SpeakerId(j));
      }
    } else {
      HundredSortsBeforeEleven();
      assert Less(speakers[100].id, speakers[11].id);
    }
  }
}
