/** How many operations can be admitted at a time when the ceiling is configured again under them. */
module AdmissionCeiling {
  import opened Admission
  import opened Sequences
  import opened Wrappers

  ghost predicate WithoutConfigure(es: seq<Event>) {
    forall i | 0 <= i < |es| :: !es[i].Configure?
  }

  // Unreleased handles of channels that have been replaced.
  function Stale(sh: Shared): nat {
    OccupantsBelow(sh.handles, if sh.slots.Some? then sh.slots.value else 0)
  }

  /** GlobalBackendInFlight is within the limit, and falls short of the admitted operations by
      exactly the handles of replaced channels. */
  lemma UnreleasedIsInFlightPlusStale(sh: Shared)
    requires Valid(sh)
    ensures Unreleased(sh.handles) == InFlight(sh) + Stale(sh)
    ensures InFlight(sh) <= sh.limit || sh.slots.None?
  {
    EveryHandleIsCounted(sh.handles, |sh.channels|);
    if sh.slots.Some? {
      assert ChannelCounts(sh, sh.slots.value);
    }
  }

  // Nothing is left over from an older generation: no unreleased handle and no call that is about
  // to send on a channel it read before the swap.
  ghost predicate OnlyCurrent(st: State) {
    && st.shared.slots.Some?
    && (forall i | 0 <= i < |st.shared.handles| ::
          st.shared.handles[i].once != Done ==> st.shared.handles[i].gen == st.shared.slots.value)
    && (forall c | c in st.calls && st.calls[c].Ready? :: st.calls[c].gen == st.shared.slots.value)
  }

  lemma {:induction false} OnlyCurrentPersists(st: State, es: seq<Event>)
    requires OnlyCurrent(st) && IsRun(st, es) && WithoutConfigure(es)
    ensures OnlyCurrent(Exec(st, es))
    decreases |es|
  {
    if es != [] {
      assert !es[0].Configure?;
      assert forall i | 0 <= i < |es[1..]| :: es[1..][i] == es[i + 1];
      OnlyCurrentPersists(Apply(st, es[0]), es[1..]);
    }
  }

  lemma {:induction false} UnreleasedAllIn(hs: seq<Handle>, gen: nat)
    requires forall i | 0 <= i < |hs| :: hs[i].once != Done ==> hs[i].gen == gen
    ensures Unreleased(hs) == Occupants(hs, gen)
  {
    if hs != [] {
      UnreleasedAllIn(hs[..|hs| - 1], gen);
    }
  }

  lemma {:induction false} UnreleasedWitness(hs: seq<Handle>, h: nat)
    requires h < |hs| && hs[h].once != Done
    ensures Unreleased(hs) > 0
  {
    if h < |hs| - 1 {
      UnreleasedWitness(hs[..|hs| - 1], h);
    }
  }

  lemma {:induction false} FreshCall(ids: set<nat>) returns (c: nat)
    ensures forall i | i in ids :: i < c
  {
    if ids == {} {
      c := 0;
    } else {
      var i :| i in ids;
      var d := FreshCall(ids - {i});
      assert forall j | j in ids :: j == i || j in ids - {i};
      c := if i < d then d else i + 1;
    }
  }

  // One more caller gets a slot of the current channel.
  lemma AdmitOneMore(st: State) returns (c: nat, st': State)
    requires StateValid(st) && st.shared.slots.Some? && InFlight(st.shared) < st.shared.limit
    ensures Enabled(st, Read(c)) && Enabled(Apply(st, Read(c)), Select(c))
    ensures st' == Apply(Apply(st, Read(c)), Select(c)) && StateValid(st')
    ensures st'.shared.limit == st.shared.limit && st'.shared.slots == st.shared.slots
    ensures InFlight(st'.shared) == InFlight(st.shared) + 1
    ensures Unreleased(st'.shared.handles) == Unreleased(st.shared.handles) + 1
  {
    c := FreshCall(st.calls.Keys);
    var st1 := Apply(st, Read(c));
    EventKeepsValid(st, Read(c));
    st' := Apply(st1, Select(c));
    EventKeepsValid(st1, Select(c));
    CountAppended(st.shared.handles, Handle(st.shared.slots.value, Unused), st.shared.slots.value);
  }

  lemma OneThenMore(st: State, e: Event, more: seq<Event>)
    requires Enabled(st, e) && IsRun(Apply(st, e), more)
    ensures IsRun(st, [e] + more) && Exec(st, [e] + more) == Exec(Apply(st, e), more)
  {
    assert ([e] + more)[1..] == more;
  }

  // k more callers can take the free slots of the current channel one after the other.
  lemma {:induction false} FillCurrentChannel(st: State, k: nat) returns (es: seq<Event>)
    requires StateValid(st) && st.shared.slots.Some? && InFlight(st.shared) + k <= st.shared.limit
    ensures IsRun(st, es) && WithoutConfigure(es)
    ensures Exec(st, es).shared.limit == st.shared.limit
    ensures Unreleased(Exec(st, es).shared.handles) == Unreleased(st.shared.handles) + k
    decreases k
  {
    es := [];
    if k > 0 {
      var c, st' := AdmitOneMore(st);
      var more := FillCurrentChannel(st', k - 1);
      es := [Read(c)] + ([Select(c)] + more);
      OneThenMore(Apply(st, Read(c)), Select(c), more);
      OneThenMore(st, Read(c), [Select(c)] + more);
    }
  }

  ghost predicate CeilingCanBreak(st: State) {
    exists es ::
      IsRun(st, es) && WithoutConfigure(es) &&
      Unreleased(Exec(st, es).shared.handles) > Exec(st, es).shared.limit
  }

  ghost predicate CallAboutToSend(st: State) {
    exists c :: c in st.calls && st.calls[c].Ready?
  }

  lemma LeftOverHandleBreaksCeiling(st: State, limit: int)
    requires StateValid(st) && Unreleased(st.shared.handles) > 0
    ensures CeilingCanBreak(Apply(st, Configure(limit)))
  {
    var new0 := Apply(st, Configure(limit));
    EventKeepsValid(st, Configure(limit));
    NoOccupantsOfNewGeneration(st.shared.handles, |st.shared.channels|);
    assert ChannelCounts(new0.shared, |st.shared.channels|);
    var es := FillCurrentChannel(new0, new0.shared.limit);
    assert Unreleased(Exec(new0, es).shared.handles) > Exec(new0, es).shared.limit;
  }

  // With nothing admitted, the channel a late call is about to send on is empty.
  lemma LateChannelIsEmpty(st: State, c: nat)
    requires StateValid(st) && Unreleased(st.shared.handles) == 0
    requires c in st.calls && st.calls[c].Ready?
    ensures st.calls[c].gen < |st.shared.channels| && HasRoom(st.shared, st.calls[c].gen)
  {
    assert CallValid(st.shared, st.calls[c]);
    assert ChannelCounts(st.shared, st.calls[c].gen);
    EveryHandleIsCounted(st.shared.handles, |st.shared.channels|);
    OccupantsWithinTotal(st.shared.handles, st.calls[c].gen, |st.shared.channels|);
  }

  // Its own step, made after the swap: it still gets a slot of the old channel.
  lemma LateSelectIsAdmitted(st: State, limit: int, c: nat) returns (new1: State)
    requires StateValid(st) && Unreleased(st.shared.handles) == 0
    requires c in st.calls && st.calls[c].Ready?
    ensures var new0 := Apply(st, Configure(limit));
            Enabled(new0, Select(c)) && new1 == Apply(new0, Select(c)) && StateValid(new1)
    ensures new1.shared.slots == Some(|st.shared.channels|)
    ensures InFlight(new1.shared) == 0 && Unreleased(new1.shared.handles) == 1
  {
    var new0 := Apply(st, Configure(limit));
    EventKeepsValid(st, Configure(limit));
    LateChannelIsEmpty(st, c);
    new1 := Apply(new0, Select(c));
    EventKeepsValid(new0, Select(c));
    assert new1.shared.handles == st.shared.handles + [Handle(st.calls[c].gen, Unused)];
    CountAppended(st.shared.handles, Handle(st.calls[c].gen, Unused), st.calls[c].gen);
  }

  lemma LateCallBreaksCeiling(st: State, limit: int)
    requires StateValid(st) && Unreleased(st.shared.handles) == 0 && CallAboutToSend(st)
    ensures CeilingCanBreak(Apply(st, Configure(limit)))
  {
    var new0 := Apply(st, Configure(limit));
    var c :| c in st.calls && st.calls[c].Ready?;
    var new1 := LateSelectIsAdmitted(st, limit, c);
    var more := FillCurrentChannel(new1, new1.shared.limit);
    var es := [Select(c)] + more;
    assert es[1..] == more && IsRun(new0, es);
    assert Unreleased(Exec(new0, es).shared.handles) > Exec(new0, es).shared.limit;
  }

  lemma {:induction false} OccupantsWithinTotal(hs: seq<Handle>, g: nat, n: nat)
    requires g < n
    ensures Occupants(hs, g) <= OccupantsBelow(hs, n)
  {
    if g < n - 1 {
      OccupantsWithinTotal(hs, g, n - 1);
    }
  }

  lemma NothingLeftOverKeepsCeiling(st: State, limit: int)
    requires StateValid(st) && Unreleased(st.shared.handles) == 0 && !CallAboutToSend(st)
    ensures !CeilingCanBreak(Apply(st, Configure(limit)))
  {
    var new0 := Apply(st, Configure(limit));
    EventKeepsValid(st, Configure(limit));
    forall i | 0 <= i < |st.shared.handles|
      ensures st.shared.handles[i].once == Done
    {
      if st.shared.handles[i].once != Done {
        UnreleasedWitness(st.shared.handles, i);
      }
    }
    assert OnlyCurrent(new0);
    forall es | IsRun(new0, es) && WithoutConfigure(es)
      ensures Unreleased(Exec(new0, es).shared.handles) <= Exec(new0, es).shared.limit
    {
      OnlyCurrentPersists(new0, es);
      RunKeepsValid(new0, es);
      var sh := Exec(new0, es).shared;
      UnreleasedAllIn(sh.handles, sh.slots.value);
      assert ChannelCounts(sh, sh.slots.value);
    }
  }

  /** Reconfiguring is safe exactly when the system is idle: afterwards the number of admitted
      operations can exceed the new limit if and only if, at the time of the call, an operation was
      still admitted or an acquire had already read the old channel. */
  lemma ReconfigureKeepsCeilingIff(st: State, limit: int)
    requires StateValid(st)
    ensures CeilingCanBreak(Apply(st, Configure(limit)))
            <==> Unreleased(st.shared.handles) > 0 || CallAboutToSend(st)
  {
    if Unreleased(st.shared.handles) > 0 {
      LeftOverHandleBreaksCeiling(st, limit);
    } else if CallAboutToSend(st) {
      LateCallBreaksCeiling(st, limit);
    } else {
      NothingLeftOverKeepsCeiling(st, limit);
    }
  }

  // ---------- The ceiling is exact ----------

  // One acquire after the other, by the calls cs.
  function Acquires(cs: seq<nat>): seq<Event> {
    if cs == [] then [] else [Read(cs[0])] + ([Select(cs[0])] + Acquires(cs[1..]))
  }

  // The outcome of the acquires cs on channel g, of capacity n, with `taken` elements at the start.
  ghost predicate FirstAreAdmitted(st: State, cs: seq<nat>, g: nat, n: nat, taken: nat, handles: nat) {
    forall i | 0 <= i < |cs| ::
      cs[i] in st.calls && st.calls[cs[i]] == if taken + i < n then Holding(handles + i) else Refused(n, g)
  }

  lemma AcquireOne(st: State, c: nat, g: nat, n: nat)
    requires c !in st.calls && g < |st.shared.channels| && st.shared.channels[g].cap == n == st.shared.limit
    requires st.shared.slots == Some(g)
    ensures Enabled(st, Read(c)) && Enabled(Apply(st, Read(c)), Select(c))
    ensures var st' := Apply(Apply(st, Read(c)), Select(c));
            var admitted, len := st.shared.channels[g].len < n, st.shared.channels[g].len;
            && st'.calls == st.calls[c := if admitted then Holding(|st.shared.handles|) else Refused(n, g)]
            && st'.shared.slots == Some(g) && st'.shared.limit == n && |st'.shared.channels| == |st.shared.channels|
            && st'.shared.channels[g] == Channel(n, if admitted then len + 1 else len)
            && |st'.shared.handles| == |st.shared.handles| + (if admitted then 1 else 0)
  {}

  lemma {:induction false} AcquiresFill(st: State, cs: seq<nat>, g: nat, n: nat)
    requires g < |st.shared.channels| && st.shared.channels[g].cap == n == st.shared.limit && st.shared.slots == Some(g)
    requires st.shared.channels[g].len <= n
    requires IsDistinct(cs) && forall i | 0 <= i < |cs| :: cs[i] !in st.calls
    ensures IsRun(st, Acquires(cs))
    ensures FirstAreAdmitted(Exec(st, Acquires(cs)), cs, g, n, st.shared.channels[g].len, |st.shared.handles|)
    ensures forall c | c in st.calls :: c in Exec(st, Acquires(cs)).calls && Exec(st, Acquires(cs)).calls[c] == st.calls[c]
    decreases |cs|
  {
    if cs != [] {
      AcquireOne(st, cs[0], g, n);
      var st1 := Apply(st, Read(cs[0]));
      var st2 := Apply(st1, Select(cs[0]));
      AcquiresFill(st2, cs[1..], g, n);
      OneThenMore(st1, Select(cs[0]), Acquires(cs[1..]));
      OneThenMore(st, Read(cs[0]), [Select(cs[0])] + Acquires(cs[1..]));
      var end := Exec(st, Acquires(cs));
      forall i | 0 <= i < |cs|
        ensures cs[i] in end.calls
        ensures end.calls[cs[i]] == if st.shared.channels[g].len + i < n then Holding(|st.shared.handles| + i) else Refused(n, g)
      {
        if i > 0 {
          assert cs[1..][i - 1] == cs[i];
        }
      }
    }
  }

  /** After a configuration the first n acquires are admitted, n being the new limit or the default, and
      every later one is refused with n, whatever was admitted before. */
  lemma ConfiguredCeilingIsExact(st: State, limit: int, cs: seq<nat>)
    requires IsDistinct(cs) && forall i | 0 <= i < |cs| :: cs[i] !in st.calls
    ensures var n := if limit > 0 then limit else 1024;
            && IsRun(st, [Configure(limit)] + Acquires(cs))
            && FirstAreAdmitted(Exec(st, [Configure(limit)] + Acquires(cs)), cs, |st.shared.channels|, n, 0, |st.shared.handles|)
  {
    var st1 := Apply(st, Configure(limit));
    AcquiresFill(st1, cs, |st.shared.channels|, st1.shared.limit);
    OneThenMore(st, Configure(limit), Acquires(cs));
  }

  /** A limit of one, configured twice with an operation admitted in between: two operations run. */
  lemma CeilingBreaksAfterConfigure(c: nat, d: nat)
    requires c != d
    ensures var again := [Configure(1)] + ([Read(d)] + ([Select(d)] + []));
            var es := [Configure(1)] + ([Read(c)] + ([Select(c)] + again));
            IsRun(START, es) && Exec(START, es).shared.limit == 1 && Unreleased(Exec(START, es).shared.handles) == 2
  {
    var s1 := Apply(START, Configure(1));
    var s2 := Apply(s1, Read(c));
    assert s2.calls[c] == Ready(1, 0) && HasRoom(s2.shared, 0);
    var s3 := Apply(s2, Select(c));
    assert s3.shared.handles == [Handle(0, Unused)] && s3.calls.Keys == {c};
    var s4 := Apply(s3, Configure(1));
    assert s4.shared.channels[1] == Channel(1, 0);
    var s5 := Apply(s4, Read(d));
    assert s5.calls[d] == Ready(1, 1) && HasRoom(s5.shared, 1);
    var s6 := Apply(s5, Select(d));
    var hs := [Handle(0, Unused), Handle(1, Unused)];
    assert s6.shared.handles == hs && s6.shared.limit == 1;
    assert hs[..1] == [Handle(0, Unused)] && hs[..1][..0] == [];
    assert Unreleased([]) == 0 && Unreleased(hs[..1]) == 1 && Unreleased(hs) == 2;
    var again := [Configure(1)] + ([Read(d)] + ([Select(d)] + []));
    OneThenMore(s5, Select(d), []);
    OneThenMore(s4, Read(d), [Select(d)] + []);
    OneThenMore(s3, Configure(1), [Read(d)] + ([Select(d)] + []));
    OneThenMore(s2, Select(c), again);
    OneThenMore(s1, Read(c), [Select(c)] + again);
    OneThenMore(START, Configure(1), [Read(c)] + ([Select(c)] + again));
  }
}
