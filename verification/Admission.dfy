/** Process-wide backend admission: a non-queueing counting semaphore held in a buffered channel. */
module Admission {
  // Every call of ConfigureGlobalBackendAdmission, and the lazy initialisation, makes a fresh
  // channel; a channel is identified by its generation.  A release closure is a handle bound to
  // the generation it was taken from and guarded by a sync.Once.  The interleaving model splits an
  // acquire at its lock boundaries and a release at the two sides of its channel receive.

  import opened Wrappers

  const DEFAULT_MAX_CONCURRENT_BACKEND_REQUESTS := 1024

  datatype Channel = Channel(cap: nat, len: nat)

  datatype Once = Unused | Running | Done

  datatype Handle = Handle(gen: nat, once: Once)

  // What the goroutines share: the two fields of backendAdmission, every channel made so far, and
  // every release closure handed out so far.
  datatype Shared = Shared(limit: int, slots: Option<nat>, channels: seq<Channel>, handles: seq<Handle>)

  const INITIAL := Shared(0, None, [], [])

  // ---------- Atomic effects ----------

  function NewChannel(sh: Shared, limit: int): Shared {
    Shared(limit, Some(|sh.channels|), sh.channels + [Channel(if limit > 0 then limit else 0, 0)], sh.handles)
  }

  function Configured(sh: Shared, limit: int): Shared {
    NewChannel(sh, if limit <= 0 then DEFAULT_MAX_CONCURRENT_BACKEND_REQUESTS else limit)
  }

  // The locked half of the double-checked initialisation.
  function Initialised(sh: Shared): Shared {
    if sh.slots.None? then NewChannel(sh, DEFAULT_MAX_CONCURRENT_BACKEND_REQUESTS) else sh
  }

  /** A configured limit is the new limit, and the default takes the place of one that is not positive or
      not configured; the channel in force is a new, empty one of that capacity, and nothing else changes. */
  lemma LimitInForce(sh: Shared, limit: int)
    ensures var sh', n := Configured(sh, limit), if limit > 0 then limit else 1024;
            sh' == Shared(n, Some(|sh.channels|), sh.channels + [Channel(n, 0)], sh.handles)
    ensures Initialised(sh) == if sh.slots.Some? then sh
                               else Shared(1024, Some(|sh.channels|), sh.channels + [Channel(1024, 0)], sh.handles)
  {}

  predicate HasRoom(sh: Shared, gen: nat)
    requires gen < |sh.channels|
  {
    sh.channels[gen].len < sh.channels[gen].cap
  }

  // The send of the select statement together with the new release closure.
  function Admitted(sh: Shared, gen: nat): Shared
    requires gen < |sh.channels|
  {
    var ch := sh.channels[gen];
    sh.(channels := sh.channels[gen := ch.(len := ch.len + 1)], handles := sh.handles + [Handle(gen, Unused)])
  }

  // Entering once.Do: only the first caller gets to run the receive.
  function ReleaseBegun(sh: Shared, h: nat): Shared
    requires h < |sh.handles|
  {
    if sh.handles[h].once == Unused then
      sh.(handles := sh.handles[h := sh.handles[h].(once := Running)])
    else sh
  }

  // The receive has an element to take.
  predicate CanReceive(sh: Shared, h: nat)
    requires h < |sh.handles|
  {
    sh.handles[h].gen < |sh.channels| && sh.channels[sh.handles[h].gen].len > 0
  }

  function ReleaseFinished(sh: Shared, h: nat): Shared
    requires h < |sh.handles| && CanReceive(sh, h)
  {
    var g := sh.handles[h].gen;
    var ch := sh.channels[g];
    sh.(channels := sh.channels[g := ch.(len := ch.len - 1)],
        handles := sh.handles[h := sh.handles[h].(once := Done)])
  }

  function InFlight(sh: Shared): nat {
    if sh.slots.Some? && sh.slots.value < |sh.channels| then sh.channels[sh.slots.value].len else 0
  }

  // ---------- Counting handles ----------

  predicate Occupies(x: Handle, gen: nat) {
    x.gen == gen && x.once != Done
  }

  function Occupants(hs: seq<Handle>, gen: nat): nat {
    if hs == [] then 0
    else Occupants(hs[..|hs| - 1], gen) + (if Occupies(hs[|hs| - 1], gen) then 1 else 0)
  }

  function Unreleased(hs: seq<Handle>): nat {
    if hs == [] then 0
    else Unreleased(hs[..|hs| - 1]) + (if hs[|hs| - 1].once != Done then 1 else 0)
  }

  lemma CountAppended(hs: seq<Handle>, x: Handle, gen: nat)
    ensures Occupants(hs + [x], gen) == Occupants(hs, gen) + (if Occupies(x, gen) then 1 else 0)
    ensures Unreleased(hs + [x]) == Unreleased(hs) + (if x.once != Done then 1 else 0)
  {
    assert (hs + [x])[..|hs|] == hs;
  }

  lemma {:induction false} CountUpdated(hs: seq<Handle>, h: nat, x: Handle, gen: nat)
    requires h < |hs|
    ensures Occupants(hs[h := x], gen) + (if Occupies(hs[h], gen) then 1 else 0)
            == Occupants(hs, gen) + (if Occupies(x, gen) then 1 else 0)
    ensures Unreleased(hs[h := x]) + (if hs[h].once != Done then 1 else 0)
            == Unreleased(hs) + (if x.once != Done then 1 else 0)
  {
    var front := hs[..|hs| - 1];
    if h == |hs| - 1 {
      assert hs[h := x][..|hs| - 1] == front;
    } else {
      assert hs[h := x][..|hs| - 1] == front[h := x];
      CountUpdated(front, h, x, gen);
    }
  }

  lemma {:induction false} OccupiedByHandle(hs: seq<Handle>, h: nat)
    requires h < |hs| && hs[h].once != Done
    ensures Occupants(hs, hs[h].gen) > 0
  {
    if h < |hs| - 1 {
      OccupiedByHandle(hs[..|hs| - 1], h);
    }
  }

  // Handles of generations below n, summed generation by generation.
  function OccupantsBelow(hs: seq<Handle>, n: nat): nat {
    if n == 0 then 0 else OccupantsBelow(hs, n - 1) + Occupants(hs, n - 1)
  }

  lemma {:induction false} OccupantsBelowAppended(hs: seq<Handle>, x: Handle, n: nat)
    ensures OccupantsBelow(hs + [x], n) == OccupantsBelow(hs, n) + (if x.gen < n && x.once != Done then 1 else 0)
  {
    if n > 0 {
      OccupantsBelowAppended(hs, x, n - 1);
      CountAppended(hs, x, n - 1);
    }
  }

  lemma {:induction false} EveryHandleIsCounted(hs: seq<Handle>, n: nat)
    requires forall i | 0 <= i < |hs| :: hs[i].gen < n
    ensures OccupantsBelow(hs, n) == Unreleased(hs)
  {
    if hs == [] {
      NobodyBelow(n);
    } else {
      var front, x := hs[..|hs| - 1], hs[|hs| - 1];
      EveryHandleIsCounted(front, n);
      OccupantsBelowAppended(front, x, n);
      assert front + [x] == hs;
    }
  }

  lemma {:induction false} NobodyBelow(n: nat)
    ensures OccupantsBelow([], n) == 0
  {
    if n > 0 {
      NobodyBelow(n - 1);
    }
  }

  // ---------- The invariant ----------

  ghost predicate ChannelCounts(sh: Shared, g: nat)
    requires g < |sh.channels|
  {
    && 0 < sh.channels[g].cap
    && sh.channels[g].len == Occupants(sh.handles, g)
    && sh.channels[g].len <= sh.channels[g].cap
  }

  ghost predicate Valid(sh: Shared) {
    && (sh.slots.None? ==> sh.channels == [])
    && (sh.slots.Some? ==> 0 < |sh.channels| && sh.slots.value == |sh.channels| - 1
                           && sh.channels[sh.slots.value].cap == sh.limit)
    && (forall i | 0 <= i < |sh.handles| :: sh.handles[i].gen < |sh.channels|)
    && (forall g | 0 <= g < |sh.channels| :: ChannelCounts(sh, g))
  }

  lemma {:induction false} NoOccupantsOfNewGeneration(hs: seq<Handle>, gen: nat)
    requires forall i | 0 <= i < |hs| :: hs[i].gen < gen
    ensures Occupants(hs, gen) == 0
  {
    if hs != [] {
      NoOccupantsOfNewGeneration(hs[..|hs| - 1], gen);
    }
  }

  lemma NewChannelKeepsValid(sh: Shared, limit: int)
    requires Valid(sh) && limit > 0
    ensures Valid(NewChannel(sh, limit))
  {
    var sh' := NewChannel(sh, limit);
    NoOccupantsOfNewGeneration(sh.handles, |sh.channels|);
    forall g | 0 <= g < |sh'.channels|
      ensures ChannelCounts(sh', g)
    {
      if g < |sh.channels| {
        assert ChannelCounts(sh, g);
      }
    }
  }

  lemma AdmittedKeepsValid(sh: Shared, gen: nat)
    requires Valid(sh) && gen < |sh.channels| && HasRoom(sh, gen)
    ensures Valid(Admitted(sh, gen))
  {
    var sh' := Admitted(sh, gen);
    forall g | 0 <= g < |sh'.channels|
      ensures ChannelCounts(sh', g)
    {
      assert ChannelCounts(sh, g);
      CountAppended(sh.handles, Handle(gen, Unused), g);
    }
  }

  lemma ReleaseBegunKeepsValid(sh: Shared, h: nat)
    requires Valid(sh) && h < |sh.handles|
    ensures Valid(ReleaseBegun(sh, h))
  {
    var sh' := ReleaseBegun(sh, h);
    forall g | 0 <= g < |sh'.channels|
      ensures ChannelCounts(sh', g)
    {
      assert ChannelCounts(sh, g);
      CountUpdated(sh.handles, h, sh.handles[h].(once := Running), g);
    }
  }

  /** The receive of a release never blocks. */
  lemma ReleaseNeverBlocks(sh: Shared, h: nat)
    requires Valid(sh) && h < |sh.handles| && sh.handles[h].once != Done
    ensures CanReceive(sh, h)
  {
    assert ChannelCounts(sh, sh.handles[h].gen);
    OccupiedByHandle(sh.handles, h);
  }

  lemma ReleaseFinishedKeepsValid(sh: Shared, h: nat)
    requires Valid(sh) && h < |sh.handles| && sh.handles[h].once == Running && CanReceive(sh, h)
    ensures Valid(ReleaseFinished(sh, h))
  {
    var sh' := ReleaseFinished(sh, h);
    forall g | 0 <= g < |sh'.channels|
      ensures ChannelCounts(sh', g)
    {
      assert ChannelCounts(sh, g);
      CountUpdated(sh.handles, h, sh.handles[h].(once := Done), g);
    }
  }

  // ---------- The package-level variable and its functions ----------

  class BackendAdmission {
    var limit: int
    var slots: Option<nat>
    var channels: seq<Channel>
    var handles: seq<Handle>

    ghost function View(): Shared
      reads this
    {
      Shared(limit, slots, channels, handles)
    }

    constructor ()
      ensures View() == INITIAL && Valid(View())
    {
      limit, slots, channels, handles := 0, None, [], [];
    }

    method Make(n: int)
      requires Valid(View()) && n > 0
      modifies this
      ensures View() == NewChannel(old(View()), n) && Valid(View())
    {
      NewChannelKeepsValid(View(), n);
      limit := n;
      channels := channels + [Channel(n, 0)];
      slots := Some(|channels| - 1);
    }

    method ConfigureGlobalBackendAdmission(newLimit: int)
      requires Valid(View())
      modifies this
      ensures View() == Configured(old(View()), newLimit) && Valid(View())
      ensures limit == if newLimit > 0 then newLimit else 1024
      ensures slots == Some(|old(channels)|) && channels == old(channels) + [Channel(limit, 0)] && handles == old(handles)
    {
      var n := newLimit;
      if n <= 0 {
        n := DEFAULT_MAX_CONCURRENT_BACKEND_REQUESTS;
      }
      Make(n);
    }

    // Success carries the release handle, Failure the Limit field of BackendAdmissionError.
    method AcquireGlobalBackendSlot() returns (r: Result<nat, int>)
      requires Valid(View())
      modifies this
      ensures Valid(View())
      ensures var sh := Initialised(old(View()));
              var gen := sh.slots.value;
              if HasRoom(sh, gen) then
                View() == Admitted(sh, gen) && r == Success(|sh.handles|) && View().handles[|sh.handles|] == Handle(gen, Unused)
              else
                View() == sh && r == Failure(sh.limit) && sh.channels[gen].len == sh.limit
      ensures old(slots).None? ==>
                r == Success(|old(handles)|) && limit == 1024 && slots == Some(0) && channels == [Channel(1024, 1)]
      ensures old(slots).Some? ==> limit == old(limit) && slots == old(slots) && |channels| == |old(channels)|
    {
      var lim, gen := limit, slots;
      if gen.None? {
        if slots.None? {
          Make(DEFAULT_MAX_CONCURRENT_BACKEND_REQUESTS);
        }
        lim, gen := limit, slots;
      }
      var g := gen.value;
      assert ChannelCounts(View(), g);
      if channels[g].len < channels[g].cap {
        AdmittedKeepsValid(View(), g);
        channels := channels[g := channels[g].(len := channels[g].len + 1)];
        handles := handles + [Handle(g, Unused)];
        r := Success(|handles| - 1);
      } else {
        r := Failure(lim);
      }
    }

    method Release(h: nat)
      requires Valid(View()) && h < |handles| && handles[h].once != Running
      modifies this
      ensures Valid(View())
      ensures old(handles[h].once) == Done ==> View() == old(View())
      ensures old(handles[h].once) == Unused ==>
                CanReceive(ReleaseBegun(old(View()), h), h) && View() == ReleaseFinished(ReleaseBegun(old(View()), h), h)
    {
      if handles[h].once == Unused {
        ReleaseBegunKeepsValid(View(), h);
        handles := handles[h := handles[h].(once := Running)];
        ReleaseNeverBlocks(View(), h);
        ReleaseFinishedKeepsValid(View(), h);
        var g := handles[h].gen;
        channels := channels[g := channels[g].(len := channels[g].len - 1)];
        handles := handles[h := handles[h].(once := Done)];
      }
    }

    method GlobalBackendInFlight() returns (n: nat)
      requires Valid(View())
      ensures n == InFlight(View())
      ensures slots.Some? ==> n == Occupants(handles, slots.value)
      ensures slots.None? ==> n == 0
    {
      n := 0;
      if slots.Some? {
        assert ChannelCounts(View(), slots.value);
        n := channels[slots.value].len;
      }
    }
  }

  // ---------- All interleavings ----------

  // Where one call of AcquireGlobalBackendSlot stands.
  datatype Call = NeedsInit | Ready(limit: int, gen: nat) | Holding(handle: nat) | Refused(limit: int, gen: nat)

  datatype State = State(shared: Shared, calls: map<nat, Call>)

  datatype Event =
    | Configure(limit: int)
    | Read(call: nat)      // the first, read-locked look at limit and slots
    | Init(call: nat)      // the write-locked initialisation
    | Select(call: nat)    // the non-blocking send
    | BeginRelease(h: nat)
    | FinishRelease(h: nat)

  predicate Enabled(st: State, e: Event) {
    match e
    case Configure(_) => true
    case Read(c) => c !in st.calls
    case Init(c) => c in st.calls && st.calls[c].NeedsInit?
    case Select(c) => c in st.calls && st.calls[c].Ready? && st.calls[c].gen < |st.shared.channels|
    case BeginRelease(h) => h < |st.shared.handles|
    case FinishRelease(h) => h < |st.shared.handles| && st.shared.handles[h].once == Running && CanReceive(st.shared, h)
  }

  function Apply(st: State, e: Event): State
    requires Enabled(st, e)
  {
    match e
    case Configure(limit) => st.(shared := Configured(st.shared, limit))
    case Read(c) =>
      st.(calls := st.calls[c := if st.shared.slots.Some? then Ready(st.shared.limit, st.shared.slots.value) else NeedsInit])
    case Init(c) =>
      var sh := Initialised(st.shared);
      State(sh, st.calls[c := Ready(sh.limit, sh.slots.value)])
    case Select(c) =>
      var Ready(limit, gen) := st.calls[c];
      if HasRoom(st.shared, gen) then
        State(Admitted(st.shared, gen), st.calls[c := Holding(|st.shared.handles|)])
      else
        st.(calls := st.calls[c := Refused(limit, gen)])
    case BeginRelease(h) => st.(shared := ReleaseBegun(st.shared, h))
    case FinishRelease(h) => st.(shared := ReleaseFinished(st.shared, h))
  }

  ghost predicate CallValid(sh: Shared, call: Call) {
    match call
    case NeedsInit => true
    case Ready(limit, gen) => gen < |sh.channels| && sh.channels[gen].cap == limit
    case Holding(h) => h < |sh.handles|
    case Refused(limit, gen) => gen < |sh.channels| && sh.channels[gen].cap == limit
  }

  ghost predicate StateValid(st: State) {
    Valid(st.shared) && forall c | c in st.calls :: CallValid(st.shared, st.calls[c])
  }

  /** The accounting invariant is kept by every event of every goroutine. */
  lemma EventKeepsValid(st: State, e: Event)
    requires StateValid(st) && Enabled(st, e)
    ensures StateValid(Apply(st, e))
  {
    var sh := st.shared;
    match e
    case Configure(limit) =>
      NewChannelKeepsValid(sh, if limit <= 0 then DEFAULT_MAX_CONCURRENT_BACKEND_REQUESTS else limit);
    case Read(_) =>
    case Init(_) =>
      if sh.slots.None? {
        NewChannelKeepsValid(sh, DEFAULT_MAX_CONCURRENT_BACKEND_REQUESTS);
      }
    case Select(c) =>
      if HasRoom(sh, st.calls[c].gen) {
        AdmittedKeepsValid(sh, st.calls[c].gen);
      }
    case BeginRelease(h) => ReleaseBegunKeepsValid(sh, h);
    case FinishRelease(h) => ReleaseFinishedKeepsValid(sh, h);
  }

  ghost predicate IsRun(st: State, es: seq<Event>)
    decreases |es|
  {
    es == [] || (Enabled(st, es[0]) && IsRun(Apply(st, es[0]), es[1..]))
  }

  function Exec(st: State, es: seq<Event>): State
    requires IsRun(st, es)
    decreases |es|
  {
    if es == [] then st else Exec(Apply(st, es[0]), es[1..])
  }

  const START := State(INITIAL, map[])

  /** In every interleaving from the program start: the occupancy of each generation is the number
      of its unreleased handles and within capacity, all unreleased handles are accounted for, no
      release can block, a refused caller is told the capacity of the channel that refused it, and
      calling a release again changes nothing. */
  lemma EveryRunIsAccounted(es: seq<Event>)
    requires IsRun(START, es)
    ensures var st := Exec(START, es);
            var sh := st.shared;
            && (forall g | 0 <= g < |sh.channels| :: sh.channels[g].len == Occupants(sh.handles, g) <= sh.channels[g].cap)
            && OccupantsBelow(sh.handles, |sh.channels|) == Unreleased(sh.handles)
            && (forall h | 0 <= h < |sh.handles| && sh.handles[h].once == Running :: Enabled(st, FinishRelease(h)))
            && (forall c | c in st.calls && st.calls[c].Refused? ::
                  st.calls[c].gen < |sh.channels| && sh.channels[st.calls[c].gen].cap == st.calls[c].limit)
            && (forall h | 0 <= h < |sh.handles| && sh.handles[h].once == Done ::
                  Apply(st, BeginRelease(h)) == st && !Enabled(st, FinishRelease(h)))
  {
    RunKeepsValid(START, es);
    var st := Exec(START, es);
    var sh := st.shared;
    forall g | 0 <= g < |sh.channels|
      ensures sh.channels[g].len == Occupants(sh.handles, g) <= sh.channels[g].cap
    {
      assert ChannelCounts(sh, g);
    }
    EveryHandleIsCounted(sh.handles, |sh.channels|);
    forall h | 0 <= h < |sh.handles| && sh.handles[h].once == Running
      ensures Enabled(st, FinishRelease(h))
    {
      ReleaseNeverBlocks(sh, h);
    }
  }

  /** A handle only ever frees a slot of its own generation; every other channel keeps its length. */
  lemma ReleaseStaysInItsGeneration(st: State, h: nat, g: nat)
    requires Enabled(st, FinishRelease(h)) && g < |st.shared.channels|
    ensures var st' := Apply(st, FinishRelease(h));
            && |st'.shared.channels| == |st.shared.channels|
            && st'.shared.channels[g].len == st.shared.channels[g].len - (if g == st.shared.handles[h].gen then 1 else 0)
            && st'.shared.slots == st.shared.slots && st'.shared.limit == st.shared.limit
  {}

  function ReceivesBy(es: seq<Event>, h: nat): nat {
    if es == [] then 0
    else (if es[0] == FinishRelease(h) then 1 else 0) + ReceivesBy(es[1..], h)
  }

  predicate IsReleased(sh: Shared, h: nat) {
    h < |sh.handles| && sh.handles[h].once == Done
  }

  /** Over a whole run the receive of a handle happens at most once: exactly when the run takes the
      handle from unreleased (or not handed out yet) to released.  A handle never changes its
      generation and a released one stays released. */
  lemma {:induction false} ReleasedAtMostOnce(st: State, es: seq<Event>, h: nat)
    requires IsRun(st, es)
    ensures var sh, sh' := st.shared, Exec(st, es).shared;
            && ReceivesBy(es, h) == (if !IsReleased(sh, h) && IsReleased(sh', h) then 1 else 0)
            && (IsReleased(sh, h) ==> IsReleased(sh', h))
            && (h < |sh.handles| ==> h < |sh'.handles| && sh'.handles[h].gen == sh.handles[h].gen)
    decreases |es|
  {
    if es != [] {
      ReleasedAtMostOnce(Apply(st, es[0]), es[1..], h);
    }
  }

  // The accounting invariant over whole runs.
  lemma {:induction false} RunKeepsValid(st: State, es: seq<Event>)
    requires StateValid(st) && IsRun(st, es)
    ensures StateValid(Exec(st, es))
    decreases |es|
  {
    if es != [] {
      EventKeepsValid(st, es[0]);
      RunKeepsValid(Apply(st, es[0]), es[1..]);
    }
  }
}
