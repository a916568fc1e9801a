/** Peer-to-peer synchronisation of model lists. */
module ModelSync {
  // Every node compares its own model names with one list shared through the ledger, announces what is
  // missing there and installs what is missing here.

  import opened Sequences

  // What data.Unmarshal finds under the key: nothing, something that is not a list of names, or a
  // list of names.
  datatype LedgerValue = Absent | Garbage | Names(names: seq<string>)

  // The names of xs that do not occur in ys, in order, repetitions kept.
  function NotIn(xs: seq<string>, ys: seq<string>): (r: seq<string>) {
    if xs == [] then []
    else NotIn(xs[..|xs| - 1], ys) + (if xs[|xs| - 1] in ys then [] else [xs[|xs| - 1]])
  }

  lemma {:induction false} NotInPicks(xs: seq<string>, ys: seq<string>)
    ensures Picks(NotIn(xs, ys), xs, x => x !in ys)
  {
    if xs == [] {
      PicksNone((x: string) => x !in ys);
    } else {
      var front, last := xs[..|xs| - 1], xs[|xs| - 1];
      NotInPicks(front, ys);
      PicksOneMore(NotIn(front, ys), front, x => x !in ys, last);
      assert front + [last] == xs;
    }
  }

  // The value left in the ledger by a sync that read `seen`.
  function Announced(have: seq<string>, seen: LedgerValue, current: LedgerValue): LedgerValue {
    match seen
    case Absent => Names(have)
    case Garbage => current
    case Names(names) => if NotIn(have, names) != [] then Names(names + NotIn(have, names)) else current
  }

  // The names a sync asks the gallery service to install.
  function Wanted(have: seq<string>, seen: LedgerValue): seq<string> {
    if seen.Names? then NotIn(seen.names, have) else []
  }

  /** What a sync does, position by position: one request for each position of the list read whose model
      is not held, in that order; and, if some own name is missing from the list, the list followed by
      the missing names, in the order of the own ones. */
  ghost predicate SyncedInOrder(have: seq<string>, before: LedgerValue, after: LedgerValue, asked: seq<string>) {
    match before
    case Absent => after == Names(have) && asked == []
    case Garbage => after == before && asked == []
    case Names(names) =>
      && Picks(asked, names, name => name !in have)
      && (IsDistinct(names) ==> IsDistinct(asked))
      && after.Names? && names <= after.names
      && Picks(after.names[|names|..], have, name => name !in names)
  }

  lemma SyncIsInOrder(have: seq<string>, seen: LedgerValue)
    ensures SyncedInOrder(have, seen, Announced(have, seen, seen), Wanted(have, seen))
  {
    if seen.Names? {
      var names := seen.names;
      NotInPicks(names, have);
      NotInPicks(have, names);
      if IsDistinct(names) {
        NotInIsDistinct(names, have);
      }
      assert Announced(have, seen, seen).names[|names|..] == NotIn(have, names);
    }
  }

  class Ledger {
    var models: LedgerValue

    method AnnounceUpdate(names: seq<string>)
      modifies this
      ensures models == Names(names)
    {
      models := Names(names);
    }
  }

  class GalleryChannel {
    var ops: seq<string>

    method Send(name: string)
      modifies this
      ensures ops == old(ops) + [name]
    {
      ops := ops + [name];
    }
  }

  method SyncState(whatWeHave: seq<string>, ledger: Ledger, gallery: GalleryChannel)
    modifies ledger, gallery
    ensures ledger.models == Announced(whatWeHave, old(ledger.models), old(ledger.models))
    ensures gallery.ops == old(gallery.ops) + Wanted(whatWeHave, old(ledger.models))
    ensures SyncedInOrder(whatWeHave, old(ledger.models), ledger.models, gallery.ops[|old(gallery.ops)|..])
  {
    var data := ledger.models;
    if data.Absent? {
      ledger.AnnounceUpdate(whatWeHave);
    }
    if !data.Names? {
      return;
    }
    var models := data.names;

    var whatIsNotThere := [];
    for i := 0 to |whatWeHave|
      invariant whatIsNotThere == NotIn(whatWeHave[..i], models)
    {
      assert whatWeHave[..i + 1][..i] == whatWeHave[..i];
      if whatWeHave[i] !in models {
        whatIsNotThere := whatIsNotThere + [whatWeHave[i]];
      }
    }
    assert whatWeHave[..|whatWeHave|] == whatWeHave;
    if |whatIsNotThere| > 0 {
      ledger.AnnounceUpdate(models + whatIsNotThere);
    }

    for i := 0 to |models|
      invariant ledger.models == Announced(whatWeHave, data, data)
      invariant gallery.ops == old(gallery.ops) + NotIn(models[..i], whatWeHave)
    {
      assert models[..i + 1][..i] == models[..i];
      if models[i] in whatWeHave {
        continue;
      }
      gallery.Send(models[i]);
    }
    assert models[..|models|] == models;
    SyncIsInOrder(whatWeHave, data);
    assert gallery.ops[|old(gallery.ops)|..] == Wanted(whatWeHave, data);
  }

  // ---------- Names as sets ----------

  function Set(xs: seq<string>): set<string> {
    set x | x in xs
  }

  function LedgerSet(v: LedgerValue): set<string> {
    if v.Names? then Set(v.names) else {}
  }

  lemma SetOfConcat(xs: seq<string>, ys: seq<string>)
    ensures Set(xs + ys) == Set(xs) + Set(ys)
  {}

  lemma {:induction false} NotInIsDifference(xs: seq<string>, ys: seq<string>)
    ensures Set(NotIn(xs, ys)) == Set(xs) - Set(ys)
    ensures NotIn(xs, ys) == [] <==> Set(xs) <= Set(ys)
  {
    if xs != [] {
      var front, last := xs[..|xs| - 1], xs[|xs| - 1];
      NotInIsDifference(front, ys);
      assert xs == front + [last];
      SetOfConcat(front, [last]);
      SetOfConcat(NotIn(front, ys), if last in ys then [] else [last]);
      assert Set([last]) == {last};
    }
    assert NotIn(xs, ys) != [] ==> NotIn(xs, ys)[0] in Set(NotIn(xs, ys));
  }

  lemma {:induction false} NotInIsDistinct(xs: seq<string>, ys: seq<string>)
    requires IsDistinct(xs)
    ensures IsDistinct(NotIn(xs, ys))
  {
    if xs != [] {
      var front, last := xs[..|xs| - 1], xs[|xs| - 1];
      NotInIsDistinct(front, ys);
      NotInIsDifference(front, ys);
      forall i | 0 <= i < |NotIn(front, ys)|
        ensures NotIn(front, ys)[i] != last
      {
        assert NotIn(front, ys)[i] in Set(NotIn(front, ys));
      }
    }
  }

  lemma AnnouncedSet(have: seq<string>, seen: LedgerValue)
    requires !seen.Garbage?
    ensures LedgerSet(Announced(have, seen, seen)) == LedgerSet(seen) + Set(have)
    ensures Set(Wanted(have, seen)) == LedgerSet(seen) - Set(have)
  {
    if seen.Names? {
      NotInIsDifference(have, seen.names);
      NotInIsDifference(seen.names, have);
      SetOfConcat(seen.names, NotIn(have, seen.names));
    }
  }

  // ---------- The system of nodes ----------

  // A sync in progress: own names listed, then the ledger read, announcement still to come.
  datatype Progress = Idle | Listed(have: seq<string>) | HasRead(have: seq<string>, seen: LedgerValue)

  datatype Node = Node(have: seq<string>, queue: seq<string>, sync: Progress)

  datatype Sys = Sys(nodes: seq<Node>, ledger: LedgerValue)

  datatype Step =
    | Sync(i: nat)                       // a whole syncState without interference
    | List(i: nat) | Read(i: nat) | Write(i: nat)
    | Install(i: nat, ok: bool)          // the gallery service works off one request
    | Add(i: nat, name: string) | Remove(i: nat, name: string)

  predicate Enabled(sys: Sys, step: Step) {
    step.i < |sys.nodes| &&
    var node := sys.nodes[step.i];
    match step
    case Sync(_) => true
    case List(_) => node.sync.Idle?
    case Read(_) => node.sync.Listed?
    case Write(_) => node.sync.HasRead?
    case Install(_, _) => node.queue != []
    case Add(_, _) => true
    case Remove(_, _) => true
  }

  // A name is listed once, however often it is installed.
  function With(have: seq<string>, name: string): seq<string> {
    if name in have then have else have + [name]
  }

  function NodeAfter(node: Node, ledger: LedgerValue, step: Step): Node {
    match step
    case Sync(_) => node.(queue := node.queue + Wanted(node.have, ledger))
    case List(_) => node.(sync := Listed(node.have))
    case Read(_) => if node.sync.Listed? then node.(sync := HasRead(node.sync.have, ledger)) else node
    case Write(_) =>
      if node.sync.HasRead? then node.(sync := Idle, queue := node.queue + Wanted(node.sync.have, node.sync.seen)) else node
    case Install(_, ok) =>
      if node.queue == [] then node
      else node.(queue := node.queue[1..], have := if ok then With(node.have, node.queue[0]) else node.have)
    case Add(_, name) => node.(have := With(node.have, name))
    case Remove(_, name) => node.(have := NotIn(node.have, [name]))
  }

  function LedgerAfter(node: Node, ledger: LedgerValue, step: Step): LedgerValue {
    match step
    case Sync(_) => Announced(node.have, ledger, ledger)
    case Write(_) => if node.sync.HasRead? then Announced(node.sync.have, node.sync.seen, ledger) else ledger
    case _ => ledger
  }

  function Apply(sys: Sys, step: Step): Sys
    requires Enabled(sys, step)
  {
    var node := sys.nodes[step.i];
    Sys(sys.nodes[step.i := NodeAfter(node, sys.ledger, step)], LedgerAfter(node, sys.ledger, step))
  }

  ghost predicate IsRun(sys: Sys, steps: seq<Step>)
    decreases |steps|
  {
    steps == [] || (Enabled(sys, steps[0]) && IsRun(Apply(sys, steps[0]), steps[1..]))
  }

  function Exec(sys: Sys, steps: seq<Step>): Sys
    requires IsRun(sys, steps)
    decreases |steps|
  {
    if steps == [] then sys else Exec(Apply(sys, steps[0]), steps[1..])
  }

  // What a step does to the names a node holds and to its requests.
  lemma StepOnNode(sys: Sys, step: Step)
    requires Enabled(sys, step)
    ensures var node, node' := sys.nodes[step.i], Apply(sys, step).nodes[step.i];
            && (step.Add? ==> Set(node'.have) == Set(node.have) + {step.name} && node'.queue == node.queue)
            && (step.Remove? ==> Set(node'.have) == Set(node.have) - {step.name} && node'.queue == node.queue)
            && (step.Install? ==>
                  && Set(node'.have) == Set(node.have) + (if step.ok then {node.queue[0]} else {})
                  && node.queue == [node.queue[0]] + node'.queue)
            && (!step.Add? && !step.Remove? && !step.Install? ==> node'.have == node.have && node.queue <= node'.queue)
  {
    if step.Remove? {
      NotInIsDifference(sys.nodes[step.i].have, [step.name]);
    }
  }

  // A sync without interference is its three parts in a row.
  lemma SyncIsListReadWrite(sys: Sys, i: nat)
    requires i < |sys.nodes| && sys.nodes[i].sync.Idle?
    ensures IsRun(sys, [List(i), Read(i), Write(i)])
    ensures Exec(sys, [List(i), Read(i), Write(i)]) == Apply(sys, Sync(i))
  {
    var s1 := Apply(sys, List(i));
    var s2 := Apply(s1, Read(i));
    var s3 := Apply(s2, Write(i));
    assert s3.nodes == Apply(sys, Sync(i)).nodes;
    assert [Write(i)][1..] == [] && Exec(s2, [Write(i)]) == s3;
    assert [Read(i), Write(i)][1..] == [Write(i)] && Exec(s1, [Read(i), Write(i)]) == s3;
    assert [List(i), Read(i), Write(i)][1..] == [Read(i), Write(i)];
  }

  // ---------- Safety, with interference and last-writer-wins ----------

  predicate NodeWithin(node: Node, names: set<string>) {
    && Set(node.have) <= names && Set(node.queue) <= names
    && (!node.sync.Idle? ==> Set(node.sync.have) <= names)
    && (node.sync.HasRead? ==> LedgerSet(node.sync.seen) <= names)
  }

  ghost predicate Within(sys: Sys, names: set<string>) {
    LedgerSet(sys.ledger) <= names && forall i | 0 <= i < |sys.nodes| :: NodeWithin(sys.nodes[i], names)
  }

  predicate NodeDistinct(node: Node) {
    && IsDistinct(node.have)
    && (!node.sync.Idle? ==> IsDistinct(node.sync.have))
    && (node.sync.HasRead? && node.sync.seen.Names? ==> IsDistinct(node.sync.seen.names))
  }

  ghost predicate Distinct(sys: Sys) {
    (sys.ledger.Names? ==> IsDistinct(sys.ledger.names)) && forall i | 0 <= i < |sys.nodes| :: NodeDistinct(sys.nodes[i])
  }

  function NamesAdded(steps: seq<Step>): set<string> {
    if steps == [] then {} else (if steps[0].Add? then {steps[0].name} else {}) + NamesAdded(steps[1..])
  }

  lemma AnnouncedWithin(have: seq<string>, seen: LedgerValue, current: LedgerValue, names: set<string>)
    requires Set(have) <= names && LedgerSet(seen) <= names && LedgerSet(current) <= names
    ensures LedgerSet(Announced(have, seen, current)) <= names && Set(Wanted(have, seen)) <= names
  {
    if seen.Names? {
      NotInIsDifference(have, seen.names);
      NotInIsDifference(seen.names, have);
      SetOfConcat(seen.names, NotIn(have, seen.names));
    }
  }

  lemma AnnouncedDistinct(have: seq<string>, seen: LedgerValue, current: LedgerValue)
    requires IsDistinct(have) && (seen.Names? ==> IsDistinct(seen.names)) && (current.Names? ==> IsDistinct(current.names))
    ensures var v := Announced(have, seen, current); v.Names? ==> IsDistinct(v.names)
  {
    if seen.Names? {
      NotInIsDistinct(have, seen.names);
      NotInIsDifference(have, seen.names);
      forall i, j | 0 <= i < |seen.names| && 0 <= j < |NotIn(have, seen.names)|
        ensures seen.names[i] != NotIn(have, seen.names)[j]
      {
        assert NotIn(have, seen.names)[j] in Set(NotIn(have, seen.names));
        assert seen.names[i] in Set(seen.names);
      }
    }
  }

  lemma StepStaysWithin(sys: Sys, step: Step, names: set<string>)
    requires Enabled(sys, step) && Within(sys, names) && (step.Add? ==> step.name in names)
    ensures Within(Apply(sys, step), names)
  {
    var node := sys.nodes[step.i];
    assert NodeWithin(node, names);
    match step
    case Sync(_) =>
      AnnouncedWithin(node.have, sys.ledger, sys.ledger, names);
      SetOfConcat(node.queue, Wanted(node.have, sys.ledger));
    case Write(_) =>
      AnnouncedWithin(node.sync.have, node.sync.seen, sys.ledger, names);
      SetOfConcat(node.queue, Wanted(node.sync.have, node.sync.seen));
    case Remove(_, name) => NotInIsDifference(node.have, [name]);
    case Install(_, _) => assert node.queue[0] in Set(node.queue);
    case _ =>
  }

  lemma StepStaysDistinct(sys: Sys, step: Step)
    requires Enabled(sys, step) && Distinct(sys)
    ensures Distinct(Apply(sys, step))
  {
    var node := sys.nodes[step.i];
    assert NodeDistinct(node);
    match step
    case Sync(_) => AnnouncedDistinct(node.have, sys.ledger, sys.ledger);
    case Write(_) => AnnouncedDistinct(node.sync.have, node.sync.seen, sys.ledger);
    case Remove(_, name) => NotInIsDistinct(node.have, [name]);
    case _ =>
  }

  /** Whatever the interleaving of listing, reading and writing, with models added and deleted
      meanwhile, the ledger only holds names some node has held. */
  lemma {:induction false} LedgerHoldsOnlyHeldNames(sys: Sys, steps: seq<Step>, names: set<string>)
    requires IsRun(sys, steps) && Within(sys, names)
    ensures Within(Exec(sys, steps), names + NamesAdded(steps))
    decreases |steps|
  {
    if steps != [] {
      var more := names + (if steps[0].Add? then {steps[0].name} else {});
      assert Within(sys, more) by {
        assert forall i | 0 <= i < |sys.nodes| :: NodeWithin(sys.nodes[i], names);
      }
      StepStaysWithin(sys, steps[0], more);
      LedgerHoldsOnlyHeldNames(Apply(sys, steps[0]), steps[1..], more);
      assert names + NamesAdded(steps) == more + NamesAdded(steps[1..]);
    }
  }

  /** Duplicate-free local lists keep the ledger duplicate-free, lost updates or not. */
  lemma {:induction false} LedgerStaysDistinct(sys: Sys, steps: seq<Step>)
    requires IsRun(sys, steps) && Distinct(sys)
    ensures Distinct(Exec(sys, steps))
    decreases |steps|
  {
    if steps != [] {
      StepStaysDistinct(sys, steps[0]);
      LedgerStaysDistinct(Apply(sys, steps[0]), steps[1..]);
    }
  }

  // A sync of node i would neither write the ledger nor ask for an install.
  predicate SyncIsIdle(sys: Sys, i: nat)
    requires i < |sys.nodes|
  {
    Apply(sys, Sync(i)) == sys
  }

  /** No sync has anything to do exactly when every node holds the ledger's names, no more and no
      fewer, or the entry cannot be decoded, or there is no node. */
  lemma QuiescentIffEqual(sys: Sys)
    ensures (forall i | 0 <= i < |sys.nodes| :: SyncIsIdle(sys, i))
            <==> sys.nodes == [] || sys.ledger.Garbage? ||
                 (sys.ledger.Names? && forall i | 0 <= i < |sys.nodes| :: Set(sys.nodes[i].have) == LedgerSet(sys.ledger))
  {
    forall i | 0 <= i < |sys.nodes|
      ensures SyncIsIdle(sys, i)
              <==> sys.ledger.Garbage? || (sys.ledger.Names? && Set(sys.nodes[i].have) == LedgerSet(sys.ledger))
    {
      SyncIdleIff(sys, i);
    }
    if sys.nodes != [] && forall i | 0 <= i < |sys.nodes| :: SyncIsIdle(sys, i) {
      assert SyncIsIdle(sys, 0);
    }
  }

  lemma SyncIdleIff(sys: Sys, i: nat)
    requires i < |sys.nodes|
    ensures SyncIsIdle(sys, i)
            <==> sys.ledger.Garbage? || (sys.ledger.Names? && Set(sys.nodes[i].have) == LedgerSet(sys.ledger))
  {
    var node, after := sys.nodes[i], Apply(sys, Sync(i));
    var wanted := Wanted(node.have, sys.ledger);
    assert after.nodes[i] == node.(queue := node.queue + wanted);
    assert wanted == [] <==> node.queue + wanted == node.queue by {
      assert |node.queue + wanted| == |node.queue| + |wanted|;
    }
    if sys.ledger.Names? {
      var names, missing := sys.ledger.names, NotIn(node.have, sys.ledger.names);
      NotInIsDifference(node.have, names);
      NotInIsDifference(names, node.have);
      assert missing == [] <==> names + missing == names by {
        assert |names + missing| == |names| + |missing|;
      }
    }
    assert after.nodes == sys.nodes <==> after.nodes[i] == node;
  }

  // ---------- Convergence, with uninterrupted syncs and no deletions ----------

  predicate IsAtomic(step: Step) {
    step.Sync? || step.Install?
  }

  ghost predicate AllAtomic(steps: seq<Step>) {
    forall i | 0 <= i < |steps| :: IsAtomic(steps[i])
  }

  function MissingLocally(nodes: seq<Node>, names: set<string>): nat {
    if nodes == [] then 0
    else MissingLocally(nodes[..|nodes| - 1], names) + |names - Set(nodes[|nodes| - 1].have)|
  }

  // Names missing from the ledger plus, over all nodes, names missing locally.
  function Measure(sys: Sys, names: set<string>): nat {
    |names - LedgerSet(sys.ledger)| + MissingLocally(sys.nodes, names)
  }

  // The sync of a node that holds a name the ledger lacks, or the install of a name not held yet.
  predicate IsProgress(sys: Sys, step: Step)
    requires Enabled(sys, step)
  {
    var node := sys.nodes[step.i];
    match step
    case Sync(_) => !(Set(node.have) <= LedgerSet(sys.ledger))
    case Install(_, ok) => ok && node.queue[0] !in node.have
    case _ => false
  }

  lemma {:induction false} MissingAfterUpdate(nodes: seq<Node>, i: nat, node: Node, names: set<string>)
    requires i < |nodes|
    ensures MissingLocally(nodes[i := node], names) + |names - Set(nodes[i].have)|
            == MissingLocally(nodes, names) + |names - Set(node.have)|
  {
    var front := nodes[..|nodes| - 1];
    if i == |nodes| - 1 {
      assert nodes[i := node][..|nodes| - 1] == front;
    } else {
      assert nodes[i := node][..|nodes| - 1] == front[i := node];
      MissingAfterUpdate(front, i, node, names);
    }
  }

  lemma GrowingMisses(names: set<string>, before: set<string>, after: set<string>)
    requires before <= after <= names
    ensures |names - after| <= |names - before|
    ensures before != after ==> |names - after| < |names - before|
  {
    assert names - before == (names - after) + (after - before);
    assert |names - before| == |names - after| + |after - before|;
  }

  lemma SyncLowersMeasure(sys: Sys, step: Step, names: set<string>)
    requires Enabled(sys, step) && step.Sync? && !sys.ledger.Garbage?
    requires LedgerSet(Apply(sys, step).ledger) <= names
    ensures Measure(Apply(sys, step), names) <= Measure(sys, names)
    ensures IsProgress(sys, step) ==> Measure(Apply(sys, step), names) < Measure(sys, names)
  {
    var sys' := Apply(sys, step);
    MissingAfterUpdate(sys.nodes, step.i, sys'.nodes[step.i], names);
    AnnouncedSet(sys.nodes[step.i].have, sys.ledger);
    GrowingMisses(names, LedgerSet(sys.ledger), LedgerSet(sys'.ledger));
  }

  lemma InstallLowersMeasure(sys: Sys, step: Step, names: set<string>)
    requires Enabled(sys, step) && step.Install?
    requires Set(Apply(sys, step).nodes[step.i].have) <= names
    ensures Measure(Apply(sys, step), names) <= Measure(sys, names)
    ensures IsProgress(sys, step) ==> Measure(Apply(sys, step), names) < Measure(sys, names)
  {
    var node, sys' := sys.nodes[step.i], Apply(sys, step);
    StepOnNode(sys, step);
    MissingAfterUpdate(sys.nodes, step.i, sys'.nodes[step.i], names);
    GrowingMisses(names, Set(node.have), Set(sys'.nodes[step.i].have));
  }

  /** No atomic step raises the measure, and every progress step lowers it. */
  lemma StepLowersMeasure(sys: Sys, step: Step, names: set<string>)
    requires Enabled(sys, step) && IsAtomic(step) && Within(sys, names) && !sys.ledger.Garbage?
    ensures var sys' := Apply(sys, step);
            && Within(sys', names) && !sys'.ledger.Garbage?
            && Measure(sys', names) <= Measure(sys, names)
            && (IsProgress(sys, step) ==> Measure(sys', names) < Measure(sys, names))
  {
    StepStaysWithin(sys, step, names);
    if step.Sync? {
      SyncLowersMeasure(sys, step, names);
    } else {
      assert NodeWithin(Apply(sys, step).nodes[step.i], names);
      InstallLowersMeasure(sys, step, names);
    }
  }

  function ProgressSteps(sys: Sys, steps: seq<Step>): nat
    requires IsRun(sys, steps)
    decreases |steps|
  {
    if steps == [] then 0
    else (if IsProgress(sys, steps[0]) then 1 else 0) + ProgressSteps(Apply(sys, steps[0]), steps[1..])
  }

  /** A run of any length has at most as many progress steps as the measure had at its start. */
  lemma {:induction false} ProgressIsBounded(sys: Sys, steps: seq<Step>, names: set<string>)
    requires IsRun(sys, steps) && AllAtomic(steps) && Within(sys, names) && !sys.ledger.Garbage?
    ensures Within(Exec(sys, steps), names)
    ensures ProgressSteps(sys, steps) + Measure(Exec(sys, steps), names) <= Measure(sys, names)
    decreases |steps|
  {
    if steps != [] {
      assert IsAtomic(steps[0]);
      StepLowersMeasure(sys, steps[0], names);
      assert forall i | 0 <= i < |steps[1..]| :: steps[1..][i] == steps[i + 1];
      ProgressIsBounded(Apply(sys, steps[0]), steps[1..], names);
    }
  }

  function HeldBy(nodes: seq<Node>): set<string> {
    if nodes == [] then {} else HeldBy(nodes[..|nodes| - 1]) + Set(nodes[|nodes| - 1].have)
  }

  // All names around at the start; requests still queued may only name models known somewhere.
  function Universe(sys: Sys): set<string> {
    LedgerSet(sys.ledger) + HeldBy(sys.nodes)
  }

  ghost predicate Converged(sys: Sys, names: set<string>) {
    && sys.ledger.Names? && LedgerSet(sys.ledger) == names
    && forall i | 0 <= i < |sys.nodes| :: Set(sys.nodes[i].have) == names
  }

  lemma StepThenMore(sys: Sys, step: Step, more: seq<Step>)
    requires Enabled(sys, step) && IsRun(Apply(sys, step), more)
    ensures IsRun(sys, [step] + more) && Exec(sys, [step] + more) == Exec(Apply(sys, step), more)
  {
    assert ([step] + more)[1..] == more;
  }

  lemma {:induction false} RunsCompose(sys: Sys, a: seq<Step>, b: seq<Step>)
    requires IsRun(sys, a) && IsRun(Exec(sys, a), b)
    ensures IsRun(sys, a + b) && Exec(sys, a + b) == Exec(Exec(sys, a), b)
    decreases |a|
  {
    if a == [] {
      assert a + b == b;
    } else {
      RunsCompose(Apply(sys, a[0]), a[1..], b);
      StepThenMore(sys, a[0], a[1..] + b);
      assert a + b == [a[0]] + (a[1..] + b);
    }
  }

  lemma OneStepRun(sys: Sys, step: Step)
    requires Enabled(sys, step)
    ensures IsRun(sys, [step]) && Exec(sys, [step]) == Apply(sys, step)
  {
    assert [step][1..] == [];
  }

  lemma WithinAfterRun(sys: Sys, steps: seq<Step>, names: set<string>)
    requires IsRun(sys, steps) && AllAtomic(steps) && Within(sys, names) && !sys.ledger.Garbage?
    ensures Within(Exec(sys, steps), names)
  {
    ProgressIsBounded(sys, steps, names);
  }

  // ---------- Every run ----------

  ghost predicate AllSucceed(steps: seq<Step>) {
    forall i | 0 <= i < |steps| :: steps[i].Install? ==> steps[i].ok
  }

  // Names a node has or has asked for.
  function Claims(node: Node): set<string> {
    Set(node.have) + Set(node.queue)
  }

  lemma StepGrows(sys: Sys, step: Step, i: nat)
    requires Enabled(sys, step) && IsAtomic(step) && !sys.ledger.Garbage? && i < |sys.nodes|
    ensures var sys' := Apply(sys, step);
            && !sys'.ledger.Garbage? && |sys'.nodes| == |sys.nodes|
            && (sys.ledger.Names? || step.Sync? ==> sys'.ledger.Names?)
            && LedgerSet(sys.ledger) <= LedgerSet(sys'.ledger)
            && Set(sys.nodes[i].have) <= Set(sys'.nodes[i].have)
            && (step.Sync? || step.ok ==> Claims(sys.nodes[i]) <= Claims(sys'.nodes[i]))
  {
    var node := sys.nodes[step.i];
    if step.Sync? {
      AnnouncedSet(node.have, sys.ledger);
      SetOfConcat(node.queue, Wanted(node.have, sys.ledger));
    } else {
      assert node.queue == [node.queue[0]] + node.queue[1..];
      SetOfConcat([node.queue[0]], node.queue[1..]);
    }
  }

  // Nothing that the ledger lists or a node holds is ever lost; with successful installs neither is
  // a request.
  lemma {:induction false} RunGrows(sys: Sys, steps: seq<Step>, i: nat)
    requires IsRun(sys, steps) && AllAtomic(steps) && !sys.ledger.Garbage? && i < |sys.nodes|
    ensures var sys' := Exec(sys, steps);
            && !sys'.ledger.Garbage? && |sys'.nodes| == |sys.nodes|
            && (sys.ledger.Names? ==> sys'.ledger.Names?)
            && LedgerSet(sys.ledger) <= LedgerSet(sys'.ledger)
            && Set(sys.nodes[i].have) <= Set(sys'.nodes[i].have)
            && (AllSucceed(steps) ==> Claims(sys.nodes[i]) <= Claims(sys'.nodes[i]))
    decreases |steps|
  {
    if steps != [] {
      assert IsAtomic(steps[0]);
      StepGrows(sys, steps[0], i);
      assert forall k | 0 <= k < |steps[1..]| :: steps[1..][k] == steps[k + 1];
      RunGrows(Apply(sys, steps[0]), steps[1..], i);
    }
  }

  // A sync anywhere in a run puts the node's own names into the ledger.
  lemma {:induction false} SyncedNamesAreListed(sys: Sys, steps: seq<Step>, i: nat)
    requires IsRun(sys, steps) && AllAtomic(steps) && !sys.ledger.Garbage? && i < |sys.nodes|
    requires Sync(i) in steps
    ensures Exec(sys, steps).ledger.Names?
    ensures Set(sys.nodes[i].have) <= LedgerSet(Exec(sys, steps).ledger)
    decreases |steps|
  {
    assert IsAtomic(steps[0]);
    var sys1 := Apply(sys, steps[0]);
    StepGrows(sys, steps[0], i);
    assert forall k | 0 <= k < |steps[1..]| :: steps[1..][k] == steps[k + 1];
    if steps[0] == Sync(i) {
      AnnouncedSet(sys.nodes[i].have, sys.ledger);
      RunGrows(sys1, steps[1..], i);
    } else {
      SyncedNamesAreListed(sys1, steps[1..], i);
    }
  }

  // A sync anywhere in a run with successful installs makes the node claim what the ledger listed.
  lemma {:induction false} SyncedNodeClaims(sys: Sys, steps: seq<Step>, i: nat)
    requires IsRun(sys, steps) && AllAtomic(steps) && AllSucceed(steps) && !sys.ledger.Garbage? && i < |sys.nodes|
    requires Sync(i) in steps
    ensures |Exec(sys, steps).nodes| == |sys.nodes|
    ensures LedgerSet(sys.ledger) <= Claims(Exec(sys, steps).nodes[i])
    decreases |steps|
  {
    assert IsAtomic(steps[0]);
    var sys1 := Apply(sys, steps[0]);
    StepGrows(sys, steps[0], i);
    assert forall k | 0 <= k < |steps[1..]| :: steps[1..][k] == steps[k + 1];
    if steps[0] == Sync(i) {
      var node := sys.nodes[i];
      AnnouncedSet(node.have, sys.ledger);
      SetOfConcat(node.queue, Wanted(node.have, sys.ledger));
      RunGrows(sys1, steps[1..], i);
    } else {
      SyncedNodeClaims(sys1, steps[1..], i);
    }
  }

  lemma {:induction false} HeldByWithin(nodes: seq<Node>, names: set<string>)
    requires forall i | 0 <= i < |nodes| :: Set(nodes[i].have) <= names
    ensures HeldBy(nodes) <= names
  {
    if nodes != [] {
      HeldByWithin(nodes[..|nodes| - 1], names);
    }
  }

  // After a run in which every node synced, the ledger lists everything.
  lemma RoundListsEverything(sys: Sys, steps: seq<Step>)
    requires sys.nodes != [] && !sys.ledger.Garbage? && Within(sys, Universe(sys))
    requires IsRun(sys, steps) && AllAtomic(steps) && forall i | 0 <= i < |sys.nodes| :: Sync(i) in steps
    ensures var sys' := Exec(sys, steps);
            && |sys'.nodes| == |sys.nodes| && sys'.ledger.Names? && LedgerSet(sys'.ledger) == Universe(sys)
            && Within(sys', Universe(sys))
  {
    var sys' := Exec(sys, steps);
    WithinAfterRun(sys, steps, Universe(sys));
    forall i | 0 <= i < |sys.nodes|
      ensures Set(sys.nodes[i].have) <= LedgerSet(sys'.ledger)
    {
      SyncedNamesAreListed(sys, steps, i);
    }
    HeldByWithin(sys.nodes, LedgerSet(sys'.ledger));
    SyncedNamesAreListed(sys, steps, 0);
    RunGrows(sys, steps, 0);
  }

  /** Two rounds always suffice. Whatever the schedule, with syncs of every node in a first run and
      again in a second one, any other syncs and installs between them, installs of the second run
      succeeding and no request left at the end: the ledger and every node hold the union of all names. */
  lemma EveryTwoRoundsConverge(sys: Sys, round1: seq<Step>, round2: seq<Step>)
    requires sys.nodes != [] && !sys.ledger.Garbage? && Within(sys, Universe(sys))
    requires IsRun(sys, round1) && IsRun(Exec(sys, round1), round2)
    requires AllAtomic(round1) && AllAtomic(round2) && AllSucceed(round2)
    requires forall i | 0 <= i < |sys.nodes| :: Sync(i) in round1 && Sync(i) in round2
    requires var sys' := Exec(Exec(sys, round1), round2);
             forall i | 0 <= i < |sys'.nodes| :: sys'.nodes[i].queue == []
    ensures Converged(Exec(Exec(sys, round1), round2), Universe(sys))
  {
    var names, sys1 := Universe(sys), Exec(sys, round1);
    RoundListsEverything(sys, round1);
    var sys2 := Exec(sys1, round2);
    WithinAfterRun(sys1, round2, names);
    RunGrows(sys1, round2, 0);
    forall i | 0 <= i < |sys2.nodes|
      ensures Set(sys2.nodes[i].have) == names
    {
      SyncedNodeClaims(sys1, round2, i);
      assert NodeWithin(sys2.nodes[i], names);
    }
  }

  /** However a run goes, it has converged to the union exactly when it has reached a state where no
      sync would announce or install anything. */
  lemma RunIsQuiescentIffConverged(sys: Sys, steps: seq<Step>)
    requires sys.nodes != [] && !sys.ledger.Garbage? && Within(sys, Universe(sys))
    requires IsRun(sys, steps) && AllAtomic(steps)
    ensures var sys' := Exec(sys, steps);
            (forall i | 0 <= i < |sys'.nodes| :: SyncIsIdle(sys', i)) <==> Converged(sys', Universe(sys))
  {
    var names, sys' := Universe(sys), Exec(sys, steps);
    QuiescentIffEqual(sys');
    WithinAfterRun(sys, steps, names);
    RunGrows(sys, steps, 0);
    if sys'.ledger.Names? && forall i | 0 <= i < |sys'.nodes| :: Set(sys'.nodes[i].have) == LedgerSet(sys'.ledger) {
      forall i | 0 <= i < |sys.nodes|
        ensures Set(sys.nodes[i].have) <= LedgerSet(sys'.ledger)
      {
        RunGrows(sys, steps, i);
      }
      HeldByWithin(sys.nodes, LedgerSet(sys'.ledger));
    }
  }

  // ---------- Some run ----------

  lemma {:induction false} SyncRound(sys: Sys, k: nat) returns (steps: seq<Step>)
    requires k <= |sys.nodes|
    ensures IsRun(sys, steps) && |Exec(sys, steps).nodes| == |sys.nodes|
    ensures AllAtomic(steps) && AllSucceed(steps) && forall i | 0 <= i < k :: Sync(i) in steps
  {
    steps := [];
    if k > 0 {
      var before := SyncRound(sys, k - 1);
      OneStepRun(Exec(sys, before), Sync(k - 1));
      RunsCompose(sys, before, [Sync(k - 1)]);
      steps := before + [Sync(k - 1)];
    }
  }

  // Node i works off its queue; the other queues stay as they are.
  lemma {:induction false} Drain(sys: Sys, i: nat) returns (steps: seq<Step>)
    requires i < |sys.nodes|
    ensures IsRun(sys, steps) && AllAtomic(steps) && AllSucceed(steps)
    ensures var sys' := Exec(sys, steps);
            && |sys'.nodes| == |sys.nodes| && sys'.nodes[i].queue == []
            && forall j | 0 <= j < |sys.nodes| && j != i :: sys'.nodes[j] == sys.nodes[j]
    decreases |sys.nodes[i].queue|
  {
    steps := [];
    if sys.nodes[i].queue != [] {
      var step := Install(i, true);
      OneStepRun(sys, step);
      var rest := Drain(Apply(sys, step), i);
      RunsCompose(sys, [step], rest);
      steps := [step] + rest;
    }
  }

  lemma {:induction false} DrainAll(sys: Sys, k: nat) returns (steps: seq<Step>)
    requires k <= |sys.nodes|
    ensures IsRun(sys, steps) && AllAtomic(steps) && AllSucceed(steps)
    ensures var sys' := Exec(sys, steps);
            && |sys'.nodes| == |sys.nodes|
            && (forall i | 0 <= i < k :: sys'.nodes[i].queue == [])
            && forall i | k <= i < |sys.nodes| :: sys'.nodes[i] == sys.nodes[i]
  {
    steps := [];
    if k > 0 {
      var before := DrainAll(sys, k - 1);
      var more := Drain(Exec(sys, before), k - 1);
      RunsCompose(sys, before, more);
      steps := before + more;
    }
  }

  // A run that converges: two rounds, then every requested install.
  lemma ConvergingRun(sys: Sys) returns (steps: seq<Step>)
    requires sys.nodes != [] && !sys.ledger.Garbage? && Within(sys, Universe(sys))
    ensures IsRun(sys, steps) && AllAtomic(steps) && Converged(Exec(sys, steps), Universe(sys))
  {
    var n := |sys.nodes|;
    var round1 := SyncRound(sys, n);
    var sys1 := Exec(sys, round1);
    var round2 := SyncRound(sys1, n);
    var installs := DrainAll(Exec(sys1, round2), n);
    RunsCompose(sys1, round2, installs);
    EveryTwoRoundsConverge(sys, round1, round2 + installs);
    RunsCompose(sys, round1, round2 + installs);
    steps := round1 + (round2 + installs);
  }

  lemma {:induction false} GarbageStays(sys: Sys, steps: seq<Step>)
    requires IsRun(sys, steps) && AllAtomic(steps) && sys.ledger.Garbage?
    ensures Exec(sys, steps).ledger.Garbage?
    decreases |steps|
  {
    if steps != [] {
      assert IsAtomic(steps[0]);
      assert forall i | 0 <= i < |steps[1..]| :: steps[1..][i] == steps[i + 1];
      GarbageStays(Apply(sys, steps[0]), steps[1..]);
    }
  }

  /** With uninterrupted syncs, convergence can be reached exactly when the ledger entry, if there is
      one, decodes: syncState returns before announcing when it does not. */
  lemma ConvergenceReachableIff(sys: Sys)
    requires sys.nodes != [] && Within(sys, Universe(sys))
    ensures (exists steps :: IsRun(sys, steps) && AllAtomic(steps) && Converged(Exec(sys, steps), Universe(sys)))
            <==> !sys.ledger.Garbage?
  {
    if sys.ledger.Garbage? {
      forall steps | IsRun(sys, steps) && AllAtomic(steps)
        ensures !Converged(Exec(sys, steps), Universe(sys))
      {
        GarbageStays(sys, steps);
      }
    } else {
      var steps := ConvergingRun(sys);
    }
  }

  // Completing the sync in progress would write to the ledger.
  predicate PendingWrite(node: Node) {
    node.sync.HasRead? &&
    (node.sync.seen.Absent? || (node.sync.seen.Names? && NotIn(node.sync.have, node.sync.seen.names) != []))
  }

  lemma {:induction false} GarbageStaysWithoutPendingWrite(sys: Sys, steps: seq<Step>)
    requires IsRun(sys, steps) && sys.ledger.Garbage?
    requires forall i | 0 <= i < |sys.nodes| :: !PendingWrite(sys.nodes[i])
    ensures Exec(sys, steps).ledger.Garbage?
    decreases |steps|
  {
    if steps != [] {
      assert !PendingWrite(sys.nodes[steps[0].i]);
      GarbageStaysWithoutPendingWrite(Apply(sys, steps[0]), steps[1..]);
    }
  }

  /** With reads and announcements split, an entry that does not decode can still be replaced exactly
      when some sync read the ledger before the entry broke and has an announcement pending. */
  lemma GarbageCanBeReplacedIff(sys: Sys)
    requires sys.ledger.Garbage?
    ensures (exists steps :: IsRun(sys, steps) && !Exec(sys, steps).ledger.Garbage?)
            <==> exists i :: 0 <= i < |sys.nodes| && PendingWrite(sys.nodes[i])
  {
    if i: nat :| i < |sys.nodes| && PendingWrite(sys.nodes[i]) {
      OneStepRun(sys, Write(i));
      assert !Exec(sys, [Write(i)]).ledger.Garbage?;
    } else {
      forall steps | IsRun(sys, steps)
        ensures Exec(sys, steps).ledger.Garbage?
      {
        GarbageStaysWithoutPendingWrite(sys, steps);
      }
    }
  }

  /** One node that has a model, at rest, and an entry that does not decode: no run of any steps ever
      repairs the entry. */
  lemma GarbageIsNeverRepaired(steps: seq<Step>)
    requires IsRun(Sys([Node(["a"], [], Idle)], Garbage), steps)
    ensures Exec(Sys([Node(["a"], [], Idle)], Garbage), steps).ledger.Garbage?
  {
    GarbageStaysWithoutPendingWrite(Sys([Node(["a"], [], Idle)], Garbage), steps);
  }

  /** With reads and announcements split, completing a sync keeps every name that the ledger holds by
      then exactly when it announces nothing, or each of those names was in the list it read or is
      held by the announcing node. */
  lemma AnnouncementKeepsNamesIff(sys: Sys, i: nat)
    requires Enabled(sys, Write(i))
    ensures var HasRead(have, seen) := sys.nodes[i].sync;
            LedgerSet(sys.ledger) <= LedgerSet(Apply(sys, Write(i)).ledger)
            <==> || seen.Garbage?
                 || (seen.Names? && Set(have) <= LedgerSet(seen))
                 || LedgerSet(sys.ledger) <= LedgerSet(seen) + Set(have)
  {
    var HasRead(have, seen) := sys.nodes[i].sync;
    if !seen.Garbage? {
      AnnouncedSet(have, seen);
    }
    if seen.Names? {
      NotInIsDifference(have, seen.names);
    }
  }

  /** The worst case: a node without models that read the missing key announces the empty list over
      everything written meanwhile. */
  lemma EmptyNodeWipesLedger()
    ensures var sys := Sys([Node([], [], Idle), Node(["b"], [], Idle)], Absent);
            var steps := [List(0)] + ([Read(0)] + [Sync(1)]);
            && IsRun(sys, steps) && Exec(sys, steps).ledger == Names(["b"])
            && Enabled(Exec(sys, steps), Write(0))
            && Apply(Exec(sys, steps), Write(0)).ledger == Names([])
  {
    var sys := Sys([Node([], [], Idle), Node(["b"], [], Idle)], Absent);
    var sys1 := Apply(sys, List(0));
    var sys2 := Apply(sys1, Read(0));
    OneStepRun(sys2, Sync(1));
    StepThenMore(sys1, Read(0), [Sync(1)]);
    StepThenMore(sys, List(0), [Read(0)] + [Sync(1)]);
  }

  // Two nodes; the first one read the empty ledger before the second one announced.
  function StaleReader(): Sys {
    Sys([Node(["a"], [], HasRead(["a"], Names([]))), Node(["b", "c"], [], Idle)], Names(["b", "c"]))
  }

  lemma StaleReaderIsReachable()
    ensures var sys := Sys([Node(["a"], [], Idle), Node(["b", "c"], [], Idle)], Names([]));
            var steps := [List(0)] + ([Read(0)] + [Sync(1)]);
            IsRun(sys, steps) && Exec(sys, steps) == StaleReader()
  {
    var other := Node(["b", "c"], [], Idle);
    var sys := Sys([Node(["a"], [], Idle), other], Names([]));
    var sys1 := Apply(sys, List(0));
    var sys2 := Apply(sys1, Read(0));
    assert ["b", "c"][..1] == ["b"] && ["b"][..0] == [];
    assert NotIn(["b"], []) == ["b"] && NotIn(["b", "c"], []) == ["b", "c"];
    assert [] + ["b", "c"] == ["b", "c"];
    assert NodeAfter(other, Names([]), Sync(1)) == other;
    assert Apply(sys2, Sync(1)) == StaleReader();
    OneStepRun(sys2, Sync(1));
    StepThenMore(sys1, Read(0), [Sync(1)]);
    StepThenMore(sys, List(0), [Read(0)] + [Sync(1)]);
  }

  /** The measure is not monotone then: in this reachable state the stale announcement adds a name
      and still leaves more names missing than before. */
  lemma StaleAnnouncementRaisesMeasure()
    ensures var sys, names := StaleReader(), {"a", "b", "c"};
            && Enabled(sys, Write(0)) && IsProgress(sys, Sync(0))
            && Measure(Apply(sys, Write(0)), names) > Measure(sys, names)
  {
    var sys, names := StaleReader(), {"a", "b", "c"};
    var sys' := Apply(sys, Write(0));
    assert NotIn(["a"], []) == ["a"] && sys'.ledger == Names(["a"]);
    assert names - LedgerSet(sys.ledger) == {"a"};
    assert names - LedgerSet(sys'.ledger) == {"b", "c"};
    MissingAfterUpdate(sys.nodes, 0, sys'.nodes[0], names);
    assert "a" in Set(sys.nodes[0].have) && "a" !in LedgerSet(sys.ledger);
  }
}
