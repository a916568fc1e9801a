/** The backend upgrade checker in standalone mode. */
module UpgradeChecker {
  // A cache refreshed by one goroutine, which is woken by a ticker and by a trigger channel that holds
  // a single token.

  import opened Wrappers

  type Error = string

  datatype UpgradeInfo = UpgradeInfo(installedVersion: string, availableVersion: string)

  type Upgrades = map<string, UpgradeInfo>

  // What a query for upgrades returns: a map that may be nil, and an error that may be nil.
  datatype Query = Query(upgrades: Option<Upgrades>, err: Option<Error>)

  // Who can be asked at one moment: the active backend manager, if there is one, and the gallery.
  datatype Sources = Sources(manager: Option<Query>, gallery: Query)

  datatype Cache = Cache(upgrades: Option<Upgrades>, checkTime: nat)

  const EMPTY := Cache(Some(map[]), 0)

  predicate SaysNothing(q: Query) {
    q.upgrades.None? && q.err.None?
  }

  // The first query asks the manager and falls back to the gallery when that says nothing.
  function FirstOutcome(s: Sources): Query {
    if s.manager.Some? && !SaysNothing(s.manager.value) then s.manager.value else s.gallery
  }

  // The query after an upgrade has no such fallback.
  function RecheckOutcome(s: Sources): Query {
    if s.manager.Some? then s.manager.value else s.gallery
  }

  function Stored(cache: Cache, q: Query): Cache {
    if q.err.None? then cache.(upgrades := q.upgrades) else cache
  }

  // len of a map that may be nil, and the copy made of it for readers
  function Shown(upgrades: Option<Upgrades>): Upgrades {
    if upgrades.Some? then upgrades.value else map[]
  }

  predicate NeedsUpgrade(q: Query, autoUpgrade: bool) {
    q.err.None? && Shown(q.upgrades) != map[] && autoUpgrade
  }

  ghost predicate ListsOnce(names: seq<string>, s: set<string>) {
    && (forall name :: name in names <==> name in s)
    && (forall i, j :: 0 <= i < j < |names| ==> names[i] != names[j])
  }

  class Checker {
    var token: bool  // triggerCh, a channel of capacity 1
    var lastUpgrades: Option<Upgrades>
    var lastCheckTime: nat

    ghost function View(): Cache
      reads this
    {
      Cache(lastUpgrades, lastCheckTime)
    }

    constructor ()
      ensures !token && View() == EMPTY
    {
      token, lastUpgrades, lastCheckTime := false, Some(map[]), 0;
    }

    method TriggerCheck()
      modifies `token
      ensures token
    {
      if !token {
        token := true;
      }
    }

    method GetAvailableUpgrades() returns (result: Upgrades)
      ensures result == if lastUpgrades.Some? then lastUpgrades.value else map[]
    {
      result := map[];
      if lastUpgrades.Some? {
        var todo := lastUpgrades.value.Keys;
        while todo != {}
          invariant todo <= lastUpgrades.value.Keys
          invariant result == map k | k in lastUpgrades.value.Keys - todo :: lastUpgrades.value[k]
          decreases todo
        {
          var k :| k in todo;
          result := result[k := lastUpgrades.value[k]];
          todo := todo - {k};
        }
      }
    }

    /** `before` and `after` are the sources at the first query and after the upgrades; `requests`
        are the backends asked to upgrade, in the order of Go's map iteration. A failing upgrade does
        not stop the others. */
    method RunCheck(before: Sources, now: nat, autoUpgrade: bool, after: Sources) returns (requests: seq<string>)
      modifies `lastUpgrades, `lastCheckTime
      ensures var q := FirstOutcome(before);
              var cache := Stored(old(View()).(checkTime := now), q);
              if NeedsUpgrade(q, autoUpgrade)
              then ListsOnce(requests, q.upgrades.value.Keys) && View() == Stored(cache, RecheckOutcome(after))
              else requests == [] && View() == cache
    {
      var q := Query(None, None);
      if before.manager.Some? {
        q := before.manager.value;
      }
      if q.upgrades.None? && q.err.None? {
        q := before.gallery;
      }
      lastCheckTime := now;
      requests := [];
      if q.err.Some? {
        return;
      }
      lastUpgrades := q.upgrades;
      if q.upgrades.None? || |q.upgrades.value| == 0 {
        assert Shown(q.upgrades) == map[];
        return;
      }
      if autoUpgrade {
        requests := RequestAll(q.upgrades.value.Keys);
        var recheck := if after.manager.Some? then after.manager.value else after.gallery;
        if recheck.err.None? {
          lastUpgrades := recheck.upgrades;
        }
      }
    }

    static method RequestAll(names: set<string>) returns (requests: seq<string>)
      ensures ListsOnce(requests, names)
    {
      requests := [];
      var todo := names;
      while todo != {}
        invariant todo <= names
        invariant ListsOnce(requests, names - todo)
        decreases todo
      {
        var name :| name in todo;
        requests := requests + [name];
        todo := todo - {name};
      }
    }
  }

  // ---------- The loop and its callers, interleaved ----------

  // Delay, Idle: waiting in a select. Checking: in the first query. Upgrading: up to the re-check.
  datatype Loop = Delay | Idle | Checking | Upgrading | Exited

  datatype State = State(
    loop: Loop, token: bool, tick: bool, ticking: bool, stopping: bool, cache: Cache)

  const START := State(Delay, false, false, false, false, EMPTY)

  datatype Event =
    | Trigger
    | Tick
    | Stop
    | DelayOver
    | TakeTick
    | TakeTrigger
    | Queried(before: Sources, now: nat, autoUpgrade: bool)
    | Rechecked(after: Sources)
    | Exit

  predicate Enabled(st: State, e: Event) {
    match e
    case Trigger => true
    case Tick => st.ticking
    case Stop => !st.stopping
    case DelayOver => st.loop == Delay
    case TakeTick => st.loop == Idle && st.tick
    case TakeTrigger => st.loop == Idle && st.token
    case Queried(_, _, _) => st.loop == Checking
    case Rechecked(_) => st.loop == Upgrading
    case Exit => st.loop in {Delay, Idle} && st.stopping
  }

  function Apply(st: State, e: Event): State {
    match e
    case Trigger => st.(token := true)
    case Tick => st.(tick := true)
    case Stop => st.(stopping := true)
    case DelayOver => st.(loop := Checking)
    case TakeTick => st.(loop := Checking, tick := false)
    case TakeTrigger => st.(loop := Checking, token := false)
    case Queried(before, now, autoUpgrade) =>
      var q := FirstOutcome(before);
      var st1 := st.(cache := Stored(st.cache.(checkTime := now), q));
      if NeedsUpgrade(q, autoUpgrade) then st1.(loop := Upgrading) else st1.(loop := Idle, ticking := true)
    case Rechecked(after) =>
      st.(cache := Stored(st.cache, RecheckOutcome(after)), loop := Idle, ticking := true)
    case Exit => st.(loop := Exited)
  }

  function Exec(st: State, events: seq<Event>): State {
    if events == [] then st else Apply(Exec(st, events[..|events| - 1]), events[|events| - 1])
  }

  ghost predicate IsRun(st: State, events: seq<Event>) {
    events == [] ||
    (IsRun(st, events[..|events| - 1]) && Enabled(Exec(st, events[..|events| - 1]), events[|events| - 1]))
  }

  // ---------- Triggers ----------

  lemma {:induction false} TokenWaitsForCheck(st: State, events: seq<Event>)
    requires st.token && TakeTrigger !in events
    ensures Exec(st, events).token
  {
    if events != [] {
      TokenWaitsForCheck(st, events[..|events| - 1]);
    }
  }

  lemma {:induction false} ExecOfConcat(st: State, a: seq<Event>, b: seq<Event>)
    ensures Exec(st, a + b) == Exec(Exec(st, a), b)
    ensures IsRun(st, a + b) <==> IsRun(st, a) && IsRun(Exec(st, a), b)
  {
    if b == [] {
      assert a + b == a;
    } else {
      assert (a + b)[..|a + b| - 1] == a + b[..|b| - 1];
      ExecOfConcat(st, a, b[..|b| - 1]);
    }
  }

  /** No trigger is lost, not even one dropped because the channel is full or made while a check runs:
      after it a token waits until a check starts that was not running when it was made. */
  lemma TriggerIsNotLost(events: seq<Event>, later: seq<Event>)
    requires IsRun(START, events + [Trigger] + later)
    ensures Exec(START, events + [Trigger]).token
    ensures Exec(START, events + [Trigger] + later).token || TakeTrigger in later
  {
    assert (events + [Trigger])[..|events|] == events;
    ExecOfConcat(START, events + [Trigger], later);
    if TakeTrigger !in later {
      TokenWaitsForCheck(Exec(START, events + [Trigger]), later);
    }
  }

  // The moves of the loop itself, as opposed to what its surroundings do.
  predicate IsLoopMove(e: Event) {
    e.DelayOver? || e.TakeTick? || e.TakeTrigger? || e.Queried? || e.Rechecked?
  }

  function Rank(st: State): nat {
    (match st.loop
     case Delay => 3
     case Checking => 2
     case Upgrading => 1
     case _ => 0) + (if st.tick then 3 else 0)
  }

  function Count(events: seq<Event>, e: Event): nat {
    if events == [] then 0
    else Count(events[..|events| - 1], e) + (if events[|events| - 1] == e then 1 else 0)
  }

  function LoopMoves(events: seq<Event>): nat {
    if events == [] then 0
    else LoopMoves(events[..|events| - 1]) + (if IsLoopMove(events[|events| - 1]) then 1 else 0)
  }

  /** A waiting token forces a check. In any run that is not stopped and in which the token has not been
      taken, with ticks and further triggers arriving at any time, the token stays, the loop does not
      exit, and it has made at most six moves and three more for every tick. */
  lemma {:induction false} TokenIsServed(st: State, events: seq<Event>)
    requires IsRun(st, events) && st.token && st.loop != Exited && !st.stopping
    requires TakeTrigger !in events && Stop !in events
    ensures var end := Exec(st, events); end.token && end.loop != Exited && !end.stopping
    ensures Rank(Exec(st, events)) + LoopMoves(events) <= Rank(st) + 3 * Count(events, Tick)
    ensures Rank(st) <= 6
  {
    if events != [] {
      assert events[|events| - 1] in events;
      TokenIsServed(st, events[..|events| - 1]);
    }
  }

  /** Until it exits the loop can always move when a token waits, given any answer to its query. */
  lemma LoopCanMove(st: State, answer: Sources, now: nat, autoUpgrade: bool)
    requires st.loop != Exited && st.token
    ensures exists e :: IsLoopMove(e) && Enabled(st, e) && (e.Queried? ==> e == Queried(answer, now, autoUpgrade))
  {
    var e := match st.loop
      case Delay => DelayOver
      case Idle => TakeTrigger
      case Checking => Queried(answer, now, autoUpgrade)
      case Upgrading => Rechecked(answer);
    assert IsLoopMove(e) && Enabled(st, e);
  }

  /** Triggers coalesce but are not made up: checks started by a trigger, with the waiting one, are never
      more than the triggers made, and at least one if any was made. */
  lemma {:induction false} TriggersCoalesce(events: seq<Event>)
    requires IsRun(START, events)
    ensures Count(events, TakeTrigger) + (if Exec(START, events).token then 1 else 0) <= Count(events, Trigger)
    ensures Count(events, Trigger) > 0 ==> Count(events, TakeTrigger) + (if Exec(START, events).token then 1 else 0) > 0
  {
    if events != [] {
      TriggersCoalesce(events[..|events| - 1]);
    }
  }

  /** Without a request to stop, the loop never exits. */
  lemma {:induction false} OnlyStopExits(events: seq<Event>)
    requires IsRun(START, events) && Stop !in events
    ensures !Exec(START, events).stopping && Exec(START, events).loop != Exited
  {
    if events != [] {
      OnlyStopExits(events[..|events| - 1]);
    }
  }

  // ---------- The cache ----------

  /** What a check leaves in the cache, by the source that answers: an active manager's map or error, and
      the gallery only if there is no manager or it gave neither. Backends are asked to upgrade only
      if that answer is a map with entries and upgrading is switched on. */
  lemma CheckFollowsSource(st: State, before: Sources, now: nat, autoUpgrade: bool)
    ensures var cache := Apply(st, Queried(before, now, autoUpgrade)).cache;
            && cache.checkTime == now
            && cache.upgrades ==
                 match before.manager
                 case Some(Query(_, Some(_))) => st.cache.upgrades
                 case Some(Query(Some(found), None)) => Some(found)
                 case _ => if before.gallery.err.Some? then st.cache.upgrades else before.gallery.upgrades
    ensures Apply(st, Queried(before, now, autoUpgrade)).loop == Upgrading <==>
              autoUpgrade &&
              match before.manager
              case Some(Query(_, Some(_))) => false
              case Some(Query(Some(found), None)) => found != map[]
              case _ => before.gallery.err.None? && before.gallery.upgrades.Some? && before.gallery.upgrades.value != map[]
  {}

  /** After the upgrades the cache is refreshed from the manager if there is one, without a fallback. */
  lemma RecheckFollowsSource(st: State, after: Sources)
    ensures var cache := Apply(st, Rechecked(after)).cache;
            && cache.checkTime == st.cache.checkTime
            && cache.upgrades ==
                 match after.manager
                 case Some(Query(found, err)) => if err.Some? then st.cache.upgrades else found
                 case None => if after.gallery.err.Some? then st.cache.upgrades else after.gallery.upgrades
  {}

  // The outcome of each query a check acts on, oldest first.
  function Outcomes(events: seq<Event>): seq<Query> {
    if events == [] then []
    else
      Outcomes(events[..|events| - 1]) +
      (match events[|events| - 1]
       case Queried(before, _, _) => [FirstOutcome(before)]
       case Rechecked(after) => [RecheckOutcome(after)]
       case _ => [])
  }

  // Every answer received, including a manager's empty one that sends the check to the gallery.
  function Answers(events: seq<Event>): seq<Query> {
    if events == [] then []
    else
      Answers(events[..|events| - 1]) +
      (match events[|events| - 1]
       case Queried(before, _, _) =>
         (if before.manager.Some? && SaysNothing(before.manager.value) then [before.manager.value] else [])
         + [FirstOutcome(before)]
       case Rechecked(after) => [RecheckOutcome(after)]
       case _ => [])
  }

  function LatestSuccess(qs: seq<Query>): Option<Upgrades> {
    if qs == [] then EMPTY.upgrades
    else if qs[|qs| - 1].err.None? then qs[|qs| - 1].upgrades
    else LatestSuccess(qs[..|qs| - 1])
  }

  lemma LatestOfOneMore(qs: seq<Query>, q: Query)
    ensures LatestSuccess(qs + [q]) == if q.err.None? then q.upgrades else LatestSuccess(qs)
  {
    assert (qs + [q])[..|qs|] == qs;
  }

  // The time of the latest check, failed ones included; a re-check does not count.
  function LatestCheck(events: seq<Event>): nat {
    if events == [] then EMPTY.checkTime
    else if events[|events| - 1].Queried? then events[|events| - 1].now
    else LatestCheck(events[..|events| - 1])
  }

  /** In every run and at every moment, the cache holds the result of the latest acted-on query that
      succeeded: a failing check or re-check leaves it alone. */
  lemma {:induction false} CacheIsLatestSuccess(events: seq<Event>)
    ensures Exec(START, events).cache.upgrades == LatestSuccess(Outcomes(events))
    ensures Exec(START, events).cache.checkTime == LatestCheck(events)
  {
    if events != [] {
      var front, last := events[..|events| - 1], events[|events| - 1];
      CacheIsLatestSuccess(front);
      match last {
        case Queried(before, _, _) => LatestOfOneMore(Outcomes(front), FirstOutcome(before));
        case Rechecked(after) => LatestOfOneMore(Outcomes(front), RecheckOutcome(after));
        case _ => assert Outcomes(events) == Outcomes(front);
      }
    }
  }

  // A manager that gives no error gives a map, even if an empty one.
  predicate AnswersWithMap(s: Sources) {
    s.manager.Some? ==> !SaysNothing(s.manager.value)
  }

  ghost predicate ManagersAnswerWithMaps(events: seq<Event>) {
    forall i | 0 <= i < |events| && events[i].Queried? :: AnswersWithMap(events[i].before)
  }

  lemma {:induction false} AnswersAreOutcomes(events: seq<Event>)
    requires ManagersAnswerWithMaps(events)
    ensures Answers(events) == Outcomes(events)
  {
    if events != [] {
      var front, last := events[..|events| - 1], events[|events| - 1];
      assert forall i | 0 <= i < |front| :: front[i] == events[i];
      AnswersAreOutcomes(front);
      assert last.Queried? ==> AnswersWithMap(last.before);
    }
  }

  /** With managers that answer with an error or a map, as the local and the distributed one do, the
      cache holds the latest successful answer among all answers received, at every moment of every run. */
  lemma CacheIsLatestAnswer(events: seq<Event>)
    requires ManagersAnswerWithMaps(events)
    ensures Exec(START, events).cache.upgrades == LatestSuccess(Answers(events))
  {
    AnswersAreOutcomes(events);
    CacheIsLatestSuccess(events);
  }

  // A manager answered with a nil map and no error, the gallery then failed, and nothing has
  // succeeded since.
  ghost predicate NilAnswerDropped(events: seq<Event>) {
    events != [] &&
    var dropped := NilAnswerDropped(events[..|events| - 1]);
    match events[|events| - 1]
    case Queried(before, _, _) =>
      if FirstOutcome(before).err.None? then false else dropped || !AnswersWithMap(before)
    case Rechecked(after) => dropped && RecheckOutcome(after).err.Some?
    case _ => dropped
  }

  lemma LatestAfterQuery(a: seq<Query>, o: seq<Query>, before: Sources, dropped: bool)
    requires LatestSuccess(a) == if dropped then None else LatestSuccess(o)
    ensures var q := FirstOutcome(before);
            var nothing := if AnswersWithMap(before) then [] else [before.manager.value];
            LatestSuccess(a + (nothing + [q])) ==
            if q.err.Some? && (dropped || !AnswersWithMap(before)) then None else LatestSuccess(o + [q])
  {
    var q := FirstOutcome(before);
    LatestOfOneMore(o, q);
    if AnswersWithMap(before) {
      LatestOfOneMore(a, q);
      assert [] + [q] == [q];
    } else {
      LatestOfOneMore(a, before.manager.value);
      LatestOfOneMore(a + [before.manager.value], q);
      assert a + ([before.manager.value] + [q]) == a + [before.manager.value] + [q];
    }
  }

  lemma {:induction false} LatestAnswer(events: seq<Event>)
    ensures LatestSuccess(Answers(events)) ==
            if NilAnswerDropped(events) then None else LatestSuccess(Outcomes(events))
  {
    if events != [] {
      var front, last := events[..|events| - 1], events[|events| - 1];
      LatestAnswer(front);
      var (a, o) := (Answers(front), Outcomes(front));
      match last {
        case Queried(before, _, _) =>
          LatestAfterQuery(a, o, before, NilAnswerDropped(front));
        case Rechecked(after) =>
          LatestOfOneMore(o, RecheckOutcome(after));
          LatestOfOneMore(a, RecheckOutcome(after));
        case _ =>
          assert Answers(events) == a && Outcomes(events) == o;
      }
    }
  }

  /** For a manager that could answer with a nil map: the cache misses the latest successful answer
      exactly when a failing fallback has dropped such an answer since the latest successful outcome
      (the empty map at the start counting as one) and that outcome is not a nil map itself. */
  lemma CacheIsLatestAnswerIff(events: seq<Event>)
    ensures Exec(START, events).cache.upgrades == LatestSuccess(Answers(events))
            <==> !NilAnswerDropped(events) || LatestSuccess(Outcomes(events)).None?
  {
    CacheIsLatestSuccess(events);
    LatestAnswer(events);
  }

  /** One such run: after an upgrade was found, a manager answers with a nil map and the gallery fails. */
  lemma NilAnswerLeavesOldUpgrades(found: Upgrades, failure: Error, now: nat, later: nat)
    ensures var first := Queried(Sources(Some(Query(Some(found), None)), Query(None, None)), now, false);
            var second := Queried(Sources(Some(Query(None, None)), Query(None, Some(failure))), later, false);
            var events := [DelayOver] + [first] + [Tick] + [TakeTick] + [second];
            && IsRun(START, events) && !ManagersAnswerWithMaps(events)
            && Exec(START, events).cache.upgrades == Some(found) && LatestSuccess(Answers(events)) == None
  {
    var first := Queried(Sources(Some(Query(Some(found), None)), Query(None, None)), now, false);
    var second := Queried(Sources(Some(Query(None, None)), Query(None, Some(failure))), later, false);
    var e1 := [DelayOver];
    var e2 := e1 + [first];
    var e3 := e2 + [Tick];
    var e4 := e3 + [TakeTick];
    var e5 := e4 + [second];
    RunOneMore([], DelayOver);
    assert [] + [DelayOver] == e1;
    RunOneMore(e1, first);
    RunOneMore(e2, Tick);
    RunOneMore(e3, TakeTick);
    RunOneMore(e4, second);
    assert e5[4] == second;
    assert NilAnswerDropped(e5) by {
      assert e5[..4] == e4;
    }
    LatestAnswer(e5);
  }

  lemma RunOneMore(events: seq<Event>, e: Event)
    requires IsRun(START, events) && Enabled(Exec(START, events), e)
    ensures IsRun(START, events + [e]) && Exec(START, events + [e]) == Apply(Exec(START, events), e)
  {
    assert (events + [e])[..|events|] == events;
  }
}
