/** ModelTranscriptionLive and its sessions, as one step system on top of the admission system. */
module LiveSessions {
  // An open call takes a slot through Admission.Read, Init and Select.  From there it walks the
  // handshake (open the stream, send the config, wait for the ready ack), failing on any of them,
  // or ends in a running session with a receive goroutine and any number of concurrent Close
  // calls.  The backend, the caller's context and the drain timer are environment choices.

  import opened Wrappers
  import opened Admission

  type Error = string

  // A streamed response after liveEventFromProto.  `blank` marks a keep-alive: no delta, no flags,
  // no words and no final result.
  datatype Transcript = Transcript(blank: bool, payload: string)

  // ModelTranscriptionLive after it holds a slot.
  datatype Phase =
    | Opening            // about to open the stream
    | SendingConfig
    | AwaitingAck
    | Failing(err: Error)     // CloseSend and cancel done, release not yet called
    | FailReleasing(err: Error)
    | Failed(err: Error)      // release done and error returned
    | Live               // the session has been returned

  // Breaking: Recv has failed and the error has been judged; storing it, if it is kept, and closing
  // recvDone are still to come.
  datatype Receiver = NotStarted | Receiving | Received(ev: Transcript) | Breaking(err: Error, keep: bool) | Ended

  // Progress of the goroutine that runs the body of closeOnce.
  datatype Body =
    | Begun
    | Draining(sendErr: Option<Error>)      // waiting for recvDone or the timer
    | ForcedDraining(sendErr: Option<Error>) // timed out and cancelled, waiting for recvDone
    | Drained(sendErr: Option<Error>)
    | ErrorSet
    | Releasing

  datatype CloseOnce = CloseUnused | CloseRunning(body: Body) | CloseDone

  // One call of Close: the one inside the once body, one blocked on it, or one that returned.
  datatype Closer = Closing | Blocked | Returned(err: Option<Error>)

  datatype Session = Session(
    handle: nat, phase: Phase, cancelled: bool, receiver: Receiver, recvErr: Option<Error>,
    close: CloseOnce, closeErr: Option<Error>, closers: map<nat, Closer>, delivered: seq<Transcript>)

  datatype Sys = Sys(adm: State, sessions: map<nat, Session>)

  // What a session does next.  Everything a backend, a caller or a timer decides is an argument.
  datatype Action =
    | StreamOpened | StreamFailed(err: Error)
    | ConfigSent | ConfigFailed(err: Error)
    | AckReady | AckFailed(err: Error)       // receive error, or a first response carrying data
    | FailRelease | FailReleased
    | ContextCancelled                       // the caller's context
    | ReceiveEvent(ev: Transcript) | HandleEvent
    | ReceiveError(err: Error, eof: bool) | EndReceive
    | CallClose(c: nat)
    | CloseSend(sendErr: Option<Error>)
    | DrainDone | DrainTimeout              // the timer has fired and Close cancels the stream
    | SetError
    | CloseRelease | CloseReleased
    | CloseReturns(c: nat)

  datatype Step =
    | Outside(e: Event)            // admission activity of anybody, opens included
    | Open(s: nat)                 // the open call s holds a slot
    | Act(s: nat, a: Action)

  // ---------- Steps ----------

  predicate InBody(x: Session) {
    x.phase.Live? && x.close.CloseRunning?
  }

  predicate ActionEnabled(x: Session, a: Action) {
    match a
    case StreamOpened => x.phase.Opening?
    case StreamFailed(_) => x.phase.Opening?
    case ConfigSent => x.phase.SendingConfig?
    case ConfigFailed(_) => x.phase.SendingConfig?
    case AckReady => x.phase.AwaitingAck?
    case AckFailed(_) => x.phase.AwaitingAck?
    case FailRelease => x.phase.Failing?
    case FailReleased => x.phase.FailReleasing?
    case ContextCancelled => true
    case ReceiveEvent(_) => x.receiver.Receiving?
    case HandleEvent => x.receiver.Received?
    case ReceiveError(_, _) => x.receiver.Receiving?
    case EndReceive => x.receiver.Breaking?
    case CallClose(c) => x.phase.Live? && c !in x.closers
    case CloseSend(_) => InBody(x) && x.close.body.Begun?
    case DrainDone => InBody(x) && (x.close.body.Draining? || x.close.body.ForcedDraining?) && x.receiver.Ended?
    case DrainTimeout => InBody(x) && x.close.body.Draining?
    case SetError => InBody(x) && x.close.body.Drained?
    case CloseRelease => InBody(x) && x.close.body.ErrorSet?
    case CloseReleased => InBody(x) && x.close.body.Releasing?
    case CloseReturns(c) => c in x.closers && !x.closers[c].Returned? && x.close.CloseDone?
  }

  function After(x: Session, a: Action): Session
    requires ActionEnabled(x, a)
  {
    match a
    case StreamOpened => x.(phase := SendingConfig)
    case StreamFailed(err) => x.(phase := Failing(err), cancelled := true)
    case ConfigSent => x.(phase := AwaitingAck)
    case ConfigFailed(err) => x.(phase := Failing(err), cancelled := true)
    case AckReady => x.(phase := Live, receiver := Receiving)
    case AckFailed(err) => x.(phase := Failing(err), cancelled := true)
    case FailRelease => x.(phase := FailReleasing(x.phase.err))
    case FailReleased => x.(phase := Failed(x.phase.err))
    case ContextCancelled => x.(cancelled := true)
    case ReceiveEvent(ev) => x.(receiver := Received(ev))
    case HandleEvent =>
      x.(receiver := Receiving,
         delivered := if x.receiver.ev.blank then x.delivered else x.delivered + [x.receiver.ev])
    case ReceiveError(err, eof) => x.(receiver := Breaking(err, !eof && !x.cancelled))
    case EndReceive =>
      x.(receiver := Ended, recvErr := if x.receiver.keep then Some(x.receiver.err) else x.recvErr)
    case CallClose(c) =>
      if x.close.CloseUnused? then x.(close := CloseRunning(Begun), closers := x.closers[c := Closing])
      else x.(closers := x.closers[c := Blocked])
    case CloseSend(err) => x.(close := CloseRunning(Draining(err)))
    case DrainDone => x.(close := CloseRunning(Drained(x.close.body.sendErr)))
    case DrainTimeout => x.(close := CloseRunning(ForcedDraining(x.close.body.sendErr)), cancelled := true)
    case SetError =>
      x.(close := CloseRunning(ErrorSet), cancelled := true,
         closeErr := if x.close.body.sendErr.None? then x.recvErr else x.close.body.sendErr)
    case CloseRelease => x.(close := CloseRunning(Releasing))
    case CloseReleased => x.(close := CloseDone)
    case CloseReturns(c) => x.(closers := x.closers[c := Returned(x.closeErr)])
  }

  // The admission event that an action consists of, if any.
  function AdmissionEvent(x: Session, a: Action): Option<Event> {
    if a.FailRelease? || a.CloseRelease? then Some(BeginRelease(x.handle))
    else if a.FailReleased? || a.CloseReleased? then Some(FinishRelease(x.handle))
    else None
  }

  function NewSession(handle: nat): Session {
    Session(handle, Opening, false, NotStarted, None, CloseUnused, None, map[], [])
  }

  ghost predicate Owned(sys: Sys, h: nat) {
    exists s :: s in sys.sessions && sys.sessions[s].handle == h
  }

  predicate IsRelease(e: Event, h: nat) {
    (e.BeginRelease? || e.FinishRelease?) && e.h == h
  }

  ghost predicate Enabled(sys: Sys, step: Step) {
    match step
    case Outside(e) =>
      // Only the session itself holds its release closure.
      Admission.Enabled(sys.adm, e) && forall h | IsRelease(e, h) :: !Owned(sys, h)
    case Open(s) =>
      s !in sys.sessions && s in sys.adm.calls && sys.adm.calls[s].Holding? &&
      var h := sys.adm.calls[s].handle;
      h < |sys.adm.shared.handles| && sys.adm.shared.handles[h].once == Unused && !Owned(sys, h)
    case Act(s, a) =>
      s in sys.sessions && ActionEnabled(sys.sessions[s], a) &&
      var e := AdmissionEvent(sys.sessions[s], a);
      e.Some? ==> Admission.Enabled(sys.adm, e.value)
  }

  // The admission events a step consists of.
  function AdmissionEvents(sys: Sys, step: Step): seq<Event> {
    match step
    case Outside(e) => [e]
    case Open(_) => []
    case Act(s, a) =>
      if s in sys.sessions && AdmissionEvent(sys.sessions[s], a).Some? then [AdmissionEvent(sys.sessions[s], a).value]
      else []
  }

  ghost function Apply(sys: Sys, step: Step): Sys
    requires Enabled(sys, step)
  {
    match step
    case Outside(e) => sys.(adm := Admission.Apply(sys.adm, e))
    case Open(s) => sys.(sessions := sys.sessions[s := NewSession(sys.adm.calls[s].handle)])
    case Act(s, a) =>
      var x := sys.sessions[s];
      var e := AdmissionEvent(x, a);
      Sys(if e.Some? then Admission.Apply(sys.adm, e.value) else sys.adm, sys.sessions[s := After(x, a)])
  }

  // ---------- The invariant ----------

  predicate SlotHeld(x: Session) {
    || x.phase.Opening? || x.phase.SendingConfig? || x.phase.AwaitingAck? || x.phase.Failing?
    || (x.phase.Live? && !x.close.CloseDone? && x.close != CloseRunning(Releasing))
  }

  predicate SlotReturned(x: Session) {
    x.phase.Failed? || (x.phase.Live? && x.close.CloseDone?)
  }

  // The state of the release closure follows the state of the session.
  predicate ReleaseMatches(x: Session, once: Once) {
    && (once == Unused <==> SlotHeld(x))
    && (once == Done <==> SlotReturned(x))
  }

  predicate ErrorFixed(x: Session) {
    x.close.CloseDone? || (x.close.CloseRunning? && (x.close.body.ErrorSet? || x.close.body.Releasing?))
  }

  predicate ReceiverFinished(x: Session) {
    ErrorFixed(x) || (x.close.CloseRunning? && x.close.body.Drained?)
  }

  predicate SessionValid(x: Session) {
    && (x.receiver.NotStarted? <==> !x.phase.Live?)
    && (!x.phase.Live? ==> x.close.CloseUnused? && x.delivered == [])
    && (x.close.CloseUnused? ==> x.closers == map[])
    && (!x.receiver.Ended? ==> x.recvErr == None)
    && (ReceiverFinished(x) ==> x.receiver.Ended?)
    && (ErrorFixed(x) || x.phase.Failing? || x.phase.FailReleasing? || x.phase.Failed? ==> x.cancelled)
    && (forall c | c in x.closers && x.closers[c].Returned? ::
          x.close.CloseDone? && x.closers[c].err == x.closeErr)
  }

  ghost predicate SessionOk(sys: Sys, s: nat)
    requires s in sys.sessions
  {
    var x, handles := sys.sessions[s], sys.adm.shared.handles;
    SessionValid(x) && x.handle < |handles| && ReleaseMatches(x, handles[x.handle].once)
  }

  ghost predicate HandlesAreDistinct(sys: Sys) {
    forall s, t | s in sys.sessions && t in sys.sessions && s != t ::
      sys.sessions[s].handle != sys.sessions[t].handle
  }

  ghost predicate Valid(sys: Sys) {
    && StateValid(sys.adm)
    && HandlesAreDistinct(sys)
    && forall s | s in sys.sessions :: SessionOk(sys, s)
  }

  // An admission event changes at most the handle it names.
  lemma AdmissionEventFrame(st: State, e: Event, h: nat)
    requires Admission.Enabled(st, e) && h < |st.shared.handles|
    ensures var st' := Admission.Apply(st, e);
            && |st.shared.handles| <= |st'.shared.handles|
            && (!IsRelease(e, h) ==> st'.shared.handles[h] == st.shared.handles[h])
            && (e == FinishRelease(h) ==> st'.shared.handles[h].once == Done)
            && (e == BeginRelease(h) && st.shared.handles[h].once == Unused ==> st'.shared.handles[h].once == Running)
  {}

  lemma ActionKeepsSessionValid(x: Session, a: Action)
    requires SessionValid(x) && ActionEnabled(x, a)
    ensures SessionValid(After(x, a))
  {}

  // The release closure advances exactly with the four release actions.
  lemma ActionKeepsReleaseMatching(x: Session, a: Action, once: Once)
    requires SessionValid(x) && ActionEnabled(x, a) && ReleaseMatches(x, once)
    ensures var e := AdmissionEvent(x, a);
            && (e == None ==> ReleaseMatches(After(x, a), once))
            && (e == Some(BeginRelease(x.handle)) ==> once == Unused && ReleaseMatches(After(x, a), Once.Running))
            && (e == Some(FinishRelease(x.handle)) ==> once == Once.Running && ReleaseMatches(After(x, a), Done))
            && After(x, a).handle == x.handle
  {}

  lemma ActionKeepsSessionOk(sys: Sys, s: nat, a: Action)
    requires Valid(sys) && Enabled(sys, Act(s, a))
    ensures SessionOk(Apply(sys, Act(s, a)), s)
  {
    var x := sys.sessions[s];
    assert SessionOk(sys, s);
    ActionKeepsSessionValid(x, a);
    ActionKeepsReleaseMatching(x, a, sys.adm.shared.handles[x.handle].once);
    var e := AdmissionEvent(x, a);
    if e.Some? {
      AdmissionEventFrame(sys.adm, e.value, x.handle);
    }
  }

  lemma OtherSessionsStayOk(sys: Sys, step: Step, t: nat)
    requires Valid(sys) && Enabled(sys, step) && t in sys.sessions && (step.Act? ==> step.s != t)
    ensures var sys' := Apply(sys, step);
            t in sys'.sessions && sys'.sessions[t] == sys.sessions[t] && SessionOk(sys', t)
  {
    assert SessionOk(sys, t);
    var es := AdmissionEvents(sys, step);
    if es != [] {
      AdmissionEventFrame(sys.adm, es[0], sys.sessions[t].handle);
    }
  }

  lemma StepKeepsAdmissionValid(sys: Sys, step: Step)
    requires StateValid(sys.adm) && Enabled(sys, step)
    ensures StateValid(Apply(sys, step).adm)
  {
    var es := AdmissionEvents(sys, step);
    if es != [] {
      EventKeepsValid(sys.adm, es[0]);
    }
  }

  lemma StepKeepsHandlesDistinct(sys: Sys, step: Step)
    requires HandlesAreDistinct(sys) && Enabled(sys, step)
    ensures HandlesAreDistinct(Apply(sys, step))
  {
    if step.Act? {
      assert After(sys.sessions[step.s], step.a).handle == sys.sessions[step.s].handle;
    }
  }

  lemma StepKeepsSessionOk(sys: Sys, step: Step, t: nat)
    requires Valid(sys) && Enabled(sys, step) && t in Apply(sys, step).sessions
    ensures SessionOk(Apply(sys, step), t)
  {
    if step.Act? && step.s == t {
      ActionKeepsSessionOk(sys, t, step.a);
    } else if t in sys.sessions {
      OtherSessionsStayOk(sys, step, t);
    }
  }

  /** Every step of every goroutine keeps the invariant. */
  lemma StepKeepsValid(sys: Sys, step: Step)
    requires Valid(sys) && Enabled(sys, step)
    ensures Valid(Apply(sys, step))
  {
    StepKeepsAdmissionValid(sys, step);
    StepKeepsHandlesDistinct(sys, step);
    forall t | t in Apply(sys, step).sessions
      ensures SessionOk(Apply(sys, step), t)
    {
      StepKeepsSessionOk(sys, step, t);
    }
  }

  // ---------- Whole runs ----------

  ghost predicate IsRun(sys: Sys, steps: seq<Step>)
    decreases |steps|
  {
    steps == [] || (Enabled(sys, steps[0]) && IsRun(Apply(sys, steps[0]), steps[1..]))
  }

  ghost function Exec(sys: Sys, steps: seq<Step>): Sys
    requires IsRun(sys, steps)
    decreases |steps|
  {
    if steps == [] then sys else Exec(Apply(sys, steps[0]), steps[1..])
  }

  ghost function AdmissionTrace(sys: Sys, steps: seq<Step>): seq<Event>
    requires IsRun(sys, steps)
    decreases |steps|
  {
    if steps == [] then []
    else AdmissionEvents(sys, steps[0]) + AdmissionTrace(Apply(sys, steps[0]), steps[1..])
  }

  const BEGIN := Sys(START, map[])

  lemma {:induction false} RunKeepsValid(sys: Sys, steps: seq<Step>)
    requires Valid(sys) && IsRun(sys, steps)
    ensures Valid(Exec(sys, steps))
    decreases |steps|
  {
    if steps != [] {
      StepKeepsValid(sys, steps[0]);
      RunKeepsValid(Apply(sys, steps[0]), steps[1..]);
    }
  }

  /** The session system refines the admission system: its admission events form a run of it. */
  lemma {:induction false} RefinesAdmission(sys: Sys, steps: seq<Step>)
    requires IsRun(sys, steps)
    ensures Admission.IsRun(sys.adm, AdmissionTrace(sys, steps))
    ensures Admission.Exec(sys.adm, AdmissionTrace(sys, steps)) == Exec(sys, steps).adm
    decreases |steps|
  {
    if steps != [] {
      var sys' := Apply(sys, steps[0]);
      RefinesAdmission(sys', steps[1..]);
      var es, rest := AdmissionEvents(sys, steps[0]), AdmissionTrace(sys', steps[1..]);
      if es == [] {
        assert es + rest == rest;
      } else {
        assert (es + rest)[0] == es[0] && (es + rest)[1..] == rest;
      }
    }
  }

  /** Each admitted open gives its slot back exactly once, and has done so exactly when it failed or
      was closed. */
  lemma SlotIsReturnedExactlyOnce(steps: seq<Step>, s: nat)
    requires IsRun(BEGIN, steps) && s in Exec(BEGIN, steps).sessions
    ensures var x := Exec(BEGIN, steps).sessions[s];
            ReceivesBy(AdmissionTrace(BEGIN, steps), x.handle) == (if SlotReturned(x) then 1 else 0)
  {
    var sys := Exec(BEGIN, steps);
    RunKeepsValid(BEGIN, steps);
    RefinesAdmission(BEGIN, steps);
    assert SessionOk(sys, s);
    ReleasedAtMostOnce(START, AdmissionTrace(BEGIN, steps), sys.sessions[s].handle);
  }

  /** The slot of a session is given back only after the stream has been cancelled and its receive
      goroutine, if it was started, has ended; before that it occupies its channel. */
  lemma SlotOutlivesReceiver(steps: seq<Step>, s: nat)
    requires IsRun(BEGIN, steps) && s in Exec(BEGIN, steps).sessions
    ensures var sys := Exec(BEGIN, steps);
            var x := sys.sessions[s];
            && x.handle < |sys.adm.shared.handles|
            && var h := sys.adm.shared.handles[x.handle];
            && (h.once != Unused ==> x.cancelled && (x.receiver.NotStarted? || x.receiver.Ended?))
            && (!x.receiver.NotStarted? && !x.receiver.Ended? ==>
                  h.gen < |sys.adm.shared.channels| && sys.adm.shared.channels[h.gen].len > 0)
  {
    RunKeepsValid(BEGIN, steps);
    var sys := Exec(BEGIN, steps);
    assert SessionOk(sys, s);
    if !sys.sessions[s].receiver.NotStarted? && !sys.sessions[s].receiver.Ended? {
      ReleaseNeverBlocks(sys.adm.shared, sys.sessions[s].handle);
    }
  }

  predicate SomeCloseReturned(x: Session) {
    exists c :: c in x.closers && x.closers[c].Returned?
  }

  /** All Close calls that have returned returned the same error. */
  lemma AllClosesAgree(steps: seq<Step>, s: nat, c: nat, d: nat)
    requires IsRun(BEGIN, steps) && s in Exec(BEGIN, steps).sessions
    requires var x := Exec(BEGIN, steps).sessions[s];
             c in x.closers && d in x.closers && x.closers[c].Returned? && x.closers[d].Returned?
    ensures var x := Exec(BEGIN, steps).sessions[s];
            x.closers[c] == x.closers[d] && SlotReturned(x)
  {
    RunKeepsValid(BEGIN, steps);
    assert SessionOk(Exec(BEGIN, steps), s);
  }

  // What a step does to a session that exists already.
  lemma StepOnSession(sys: Sys, step: Step, s: nat)
    requires Enabled(sys, step) && s in sys.sessions
    ensures s in Apply(sys, step).sessions
    ensures Apply(sys, step).sessions[s]
            == (if step.Act? && step.s == s then After(sys.sessions[s], step.a) else sys.sessions[s])
  {}

  // What two states of a closed session have in common.
  ghost predicate StaysClosed(x: Session, x': Session) {
    && x'.delivered == x.delivered && x'.closeErr == x.closeErr && SlotReturned(x')
    && forall c | c in x.closers && x.closers[c].Returned? :: c in x'.closers && x'.closers[c] == x.closers[c]
  }

  lemma ActionAfterClose(x: Session, a: Action)
    requires SessionValid(x) && SomeCloseReturned(x) && ActionEnabled(x, a)
    ensures StaysClosed(x, After(x, a)) && SomeCloseReturned(After(x, a))
  {
    var c :| c in x.closers && x.closers[c].Returned?;
    assert c in After(x, a).closers && After(x, a).closers[c].Returned?;
  }

  lemma StepAfterClose(sys: Sys, step: Step, s: nat)
    requires Valid(sys) && Enabled(sys, step) && s in sys.sessions && SomeCloseReturned(sys.sessions[s])
    ensures s in Apply(sys, step).sessions
    ensures StaysClosed(sys.sessions[s], Apply(sys, step).sessions[s])
    ensures SomeCloseReturned(Apply(sys, step).sessions[s])
  {
    assert SessionOk(sys, s);
    StepOnSession(sys, step, s);
    if step.Act? && step.s == s {
      ActionAfterClose(sys.sessions[s], step.a);
    }
  }

  /** Once a Close has returned, nothing more is delivered, the slot stays returned, and what was
      returned stays. */
  lemma {:induction false} NothingHappensAfterClose(sys: Sys, steps: seq<Step>, s: nat)
    requires Valid(sys) && IsRun(sys, steps) && s in sys.sessions && SomeCloseReturned(sys.sessions[s])
    ensures s in Exec(sys, steps).sessions && StaysClosed(sys.sessions[s], Exec(sys, steps).sessions[s])
    decreases |steps|
  {
    if steps == [] {
      assert SessionOk(sys, s);
    } else {
      StepKeepsValid(sys, steps[0]);
      StepAfterClose(sys, steps[0], s);
      NothingHappensAfterClose(Apply(sys, steps[0]), steps[1..], s);
    }
  }

  function EventOf(step: Step, s: nat): seq<Transcript> {
    if step.Act? && step.s == s && step.a.ReceiveEvent? && !step.a.ev.blank then [step.a.ev] else []
  }

  function EventsFor(steps: seq<Step>, s: nat): seq<Transcript> {
    if steps == [] then [] else EventOf(steps[0], s) + EventsFor(steps[1..], s)
  }

  function Seen(x: Session): seq<Transcript> {
    x.delivered + (if x.receiver.Received? && !x.receiver.ev.blank then [x.receiver.ev] else [])
  }

  // Between x and x' exactly the events evs have been received.
  ghost predicate SawMore(x: Session, x': Session, evs: seq<Transcript>) {
    Seen(x') == Seen(x) + evs
  }

  lemma SawMoreComposes(x: Session, y: Session, z: Session, first: seq<Transcript>, later: seq<Transcript>)
    requires SawMore(x, y, first) && SawMore(y, z, later)
    ensures SawMore(x, z, first + later)
  {}

  lemma ActionSees(x: Session, a: Action, s: nat)
    requires SessionValid(x) && ActionEnabled(x, a)
    ensures SawMore(x, After(x, a), EventOf(Act(s, a), s))
  {
    assert Seen(x) + [] == Seen(x);
    if a.ReceiveEvent? {
      assert Seen(x) == x.delivered;
    }
  }

  lemma StepSees(sys: Sys, step: Step, s: nat)
    requires Valid(sys) && Enabled(sys, step) && s in sys.sessions
    ensures s in Apply(sys, step).sessions
    ensures SawMore(sys.sessions[s], Apply(sys, step).sessions[s], EventOf(step, s))
  {
    assert SessionOk(sys, s);
    StepOnSession(sys, step, s);
    if step.Act? && step.s == s {
      ActionSees(sys.sessions[s], step.a, s);
    }
  }

  lemma {:induction false} SeesEventsReceived(sys: Sys, steps: seq<Step>, s: nat)
    requires Valid(sys) && IsRun(sys, steps) && s in sys.sessions
    ensures s in Exec(sys, steps).sessions
    ensures SawMore(sys.sessions[s], Exec(sys, steps).sessions[s], EventsFor(steps, s))
    decreases |steps|
  {
    if steps != [] {
      StepKeepsValid(sys, steps[0]);
      StepSees(sys, steps[0], s);
      var sys1 := Apply(sys, steps[0]);
      SeesEventsReceived(sys1, steps[1..], s);
      SawMoreComposes(sys.sessions[s], sys1.sessions[s], Exec(sys1, steps[1..]).sessions[s],
                      EventOf(steps[0], s), EventsFor(steps[1..], s));
    }
  }

  /** The callback sees every event that is not a keep-alive, in the order received, one at a time:
      what has been delivered since the session was opened, plus an event now being handled, is what
      has been received. */
  lemma DeliversInOrder(sys: Sys, steps: seq<Step>, s: nat)
    requires Valid(sys) && IsRun(sys, steps) && s in sys.sessions && sys.sessions[s].phase.Opening?
    ensures s in Exec(sys, steps).sessions
    ensures Seen(Exec(sys, steps).sessions[s]) == EventsFor(steps, s)
  {
    assert SessionOk(sys, s);
    SeesEventsReceived(sys, steps, s);
    assert Seen(sys.sessions[s]) == [];
  }

  // ---------- Errors ----------

  // The receive error that is stored or about to be stored.
  function Kept(x: Session): Option<Error> {
    if x.receiver.Breaking? && x.receiver.keep then Some(x.receiver.err) else x.recvErr
  }

  predicate OpenFailedWith(x: Session, err: Error) {
    x.phase == Failing(err) || x.phase == FailReleasing(err) || x.phase == Failed(err)
  }

  // CloseSend has given this result, and Close reports it, or else the receive error.
  predicate SentWith(x: Session, sendErr: Option<Error>) {
    x.phase.Live? &&
    if ErrorFixed(x) then x.receiver.Ended? && x.closeErr == (if sendErr.Some? then sendErr else x.recvErr)
    else x.close.CloseRunning? && !x.close.body.Begun? && x.close.body.sendErr == sendErr
  }

  // What is settled in x is the same in the later state x'.
  ghost predicate StaysSettled(x: Session, x': Session) {
    && (forall err :: OpenFailedWith(x, err) ==> OpenFailedWith(x', err))
    && (forall sendErr :: SentWith(x, sendErr) ==> SentWith(x', sendErr))
    && (x.cancelled ==> x'.cancelled && Kept(x') == Kept(x))
  }

  lemma ActionKeepsSettled(x: Session, a: Action)
    requires SessionValid(x) && ActionEnabled(x, a)
    ensures StaysSettled(x, After(x, a))
  {}

  lemma {:induction false} RunKeepsSettled(sys: Sys, steps: seq<Step>, s: nat)
    requires Valid(sys) && IsRun(sys, steps) && s in sys.sessions
    ensures s in Exec(sys, steps).sessions && StaysSettled(sys.sessions[s], Exec(sys, steps).sessions[s])
    decreases |steps|
  {
    if steps != [] {
      assert SessionOk(sys, s);
      StepKeepsValid(sys, steps[0]);
      StepOnSession(sys, steps[0], s);
      if steps[0].Act? && steps[0].s == s {
        ActionKeepsSettled(sys.sessions[s], steps[0].a);
      }
      RunKeepsSettled(Apply(sys, steps[0]), steps[1..], s);
    }
  }

  // The run goes on with an action of session s.
  ghost predicate GoesOn(before: seq<Step>, s: nat, a: Action, after: seq<Step>) {
    && IsRun(BEGIN, before) && Enabled(Exec(BEGIN, before), Act(s, a))
    && IsRun(Apply(Exec(BEGIN, before), Act(s, a)), after)
  }

  ghost function End(before: seq<Step>, s: nat, a: Action, after: seq<Step>): Sys
    requires GoesOn(before, s, a, after)
  {
    Exec(Apply(Exec(BEGIN, before), Act(s, a)), after)
  }

  lemma SettledAfter(before: seq<Step>, s: nat, a: Action, after: seq<Step>)
    requires GoesOn(before, s, a, after)
    ensures var end := End(before, s, a, after);
            s in end.sessions && SessionOk(end, s) && SessionOk(Exec(BEGIN, before), s) &&
            StaysSettled(After(Exec(BEGIN, before).sessions[s], a), end.sessions[s])
  {
    var sys := Exec(BEGIN, before);
    RunKeepsValid(BEGIN, before);
    StepKeepsValid(sys, Act(s, a));
    RunKeepsValid(Apply(sys, Act(s, a)), after);
    RunKeepsSettled(Apply(sys, Act(s, a)), after, s);
  }

  /** An open that fails reports the error of the handshake step that failed. */
  lemma OpenReportsFailure(before: seq<Step>, s: nat, a: Action, after: seq<Step>)
    requires GoesOn(before, s, a, after) && (a.StreamFailed? || a.ConfigFailed? || a.AckFailed?)
    ensures s in End(before, s, a, after).sessions && !End(before, s, a, after).sessions[s].phase.Live?
    ensures OpenFailedWith(End(before, s, a, after).sessions[s], a.err)
  {
    SettledAfter(before, s, a, after);
    assert OpenFailedWith(After(Exec(BEGIN, before).sessions[s], a), a.err);
  }

  /** Every Close reports the error of CloseSend if that failed, and otherwise the receive error. */
  lemma CloseReportsSendErrorFirst(before: seq<Step>, s: nat, a: Action, after: seq<Step>)
    requires GoesOn(before, s, a, after) && a.CloseSend?
    ensures s in End(before, s, a, after).sessions
    ensures var x := End(before, s, a, after).sessions[s];
            forall c | c in x.closers && x.closers[c].Returned? ::
              x.closers[c].err == if a.sendErr.Some? then a.sendErr else x.recvErr
  {
    SettledAfter(before, s, a, after);
    assert SentWith(After(Exec(BEGIN, before).sessions[s], a), a.sendErr);
  }

  /** From the cancellation on, by the caller or by a Close, no receive error is kept but the one that
      has been judged before. */
  lemma CancellationSettlesReceiveError(before: seq<Step>, s: nat, a: Action, after: seq<Step>)
    requires GoesOn(before, s, a, after) && (a.ContextCancelled? || a.DrainTimeout?)
    ensures s in End(before, s, a, after).sessions
    ensures Kept(End(before, s, a, after).sessions[s]) == Kept(Exec(BEGIN, before).sessions[s])
  {
    SettledAfter(before, s, a, after);
  }

  // ---------- Closing by force ----------

  // Every Close of session s that has returned reported err, and so will the others.
  ghost predicate EveryCloseReports(sys: Sys, s: nat, err: Option<Error>) {
    && s in sys.sessions
    && (ErrorFixed(sys.sessions[s]) ==> sys.sessions[s].closeErr == err)
    && forall c | c in sys.sessions[s].closers && sys.sessions[s].closers[c].Returned? ::
         sys.sessions[s].closers[c].err == err
  }

  /** When the drain timer of a Close fires and cancels the stream, what every Close reports is settled
      at that moment: the error of CloseSend, and without one the receive error that the goroutine has
      stored or has already decided to store. Whatever Recv returns later is not reported. */
  lemma ForcedCloseReports(before: seq<Step>, after: seq<Step>, s: nat)
    requires GoesOn(before, s, DrainTimeout, after)
    ensures var x := Exec(BEGIN, before).sessions[s];
            var sendErr := x.close.body.sendErr;
            EveryCloseReports(End(before, s, DrainTimeout, after), s, if sendErr.Some? then sendErr else Kept(x))
  {
    SettledAfter(before, s, DrainTimeout, after);
    var x := Exec(BEGIN, before).sessions[s];
    assert SentWith(After(x, DrainTimeout), x.close.body.sendErr);
  }

  /** So if the goroutine is still receiving or handling an event when the stream is cancelled, every
      Close reports the error of CloseSend and nothing else. */
  lemma ForcedCloseReportsOnlySendError(before: seq<Step>, after: seq<Step>, s: nat)
    requires GoesOn(before, s, DrainTimeout, after)
    requires var x := Exec(BEGIN, before).sessions[s]; x.receiver.Receiving? || x.receiver.Received?
    ensures EveryCloseReports(End(before, s, DrainTimeout, after), s, Exec(BEGIN, before).sessions[s].close.body.sendErr)
  {
    SettledAfter(before, s, DrainTimeout, after);
    ForcedCloseReports(before, after, s);
  }

  // ---------- Actions of one session ----------

  ghost predicate CanDo(x: Session, actions: seq<Action>)
    decreases |actions|
  {
    actions == [] || (ActionEnabled(x, actions[0]) && CanDo(After(x, actions[0]), actions[1..]))
  }

  function Do(x: Session, actions: seq<Action>): Session
    requires CanDo(x, actions)
    decreases |actions|
  {
    if actions == [] then x else Do(After(x, actions[0]), actions[1..])
  }

  lemma DoFirst(x: Session, a: Action, rest: seq<Action>)
    requires ActionEnabled(x, a) && CanDo(After(x, a), rest)
    ensures CanDo(x, [a] + rest) && Do(x, [a] + rest) == Do(After(x, a), rest)
  {
    assert ([a] + rest)[1..] == rest;
  }

  // The rest of the system never stands in the way of a session.
  lemma ActionIsEnabled(sys: Sys, s: nat, a: Action)
    requires Valid(sys) && s in sys.sessions && ActionEnabled(sys.sessions[s], a)
    ensures Enabled(sys, Act(s, a))
  {
    assert SessionOk(sys, s);
    if a.FailReleased? || a.CloseReleased? {
      ReleaseNeverBlocks(sys.adm.shared, sys.sessions[s].handle);
    }
  }

  function Steps(s: nat, actions: seq<Action>): seq<Step> {
    if actions == [] then [] else [Act(s, actions[0])] + Steps(s, actions[1..])
  }

  /** What a session can do by itself is a run of the system, from every valid state. */
  lemma {:induction false} ActionsAreRun(sys: Sys, s: nat, actions: seq<Action>)
    requires Valid(sys) && s in sys.sessions && CanDo(sys.sessions[s], actions)
    ensures IsRun(sys, Steps(s, actions)) && s in Exec(sys, Steps(s, actions)).sessions
    ensures Exec(sys, Steps(s, actions)).sessions[s] == Do(sys.sessions[s], actions)
    decreases |actions|
  {
    if actions != [] {
      ActionIsEnabled(sys, s, actions[0]);
      StepKeepsValid(sys, Act(s, actions[0]));
      ActionsAreRun(Apply(sys, Act(s, actions[0])), s, actions[1..]);
      StepFirst(sys, Act(s, actions[0]), Steps(s, actions[1..]));
    }
  }

  lemma {:induction false} RunsCompose(sys: Sys, a: seq<Step>, b: seq<Step>)
    requires IsRun(sys, a) && IsRun(Exec(sys, a), b)
    ensures IsRun(sys, a + b) && Exec(sys, a + b) == Exec(Exec(sys, a), b)
    decreases |a|
  {
    if a == [] {
      assert a + b == b;
    } else {
      assert (a + b)[1..] == a[1..] + b;
      RunsCompose(Apply(sys, a[0]), a[1..], b);
    }
  }

  lemma StepFirst(sys: Sys, step: Step, rest: seq<Step>)
    requires Enabled(sys, step) && IsRun(Apply(sys, step), rest)
    ensures IsRun(sys, [step] + rest) && Exec(sys, [step] + rest) == Exec(Apply(sys, step), rest)
  {
    assert ([step] + rest)[1..] == rest;
  }

  // ---------- The end of a Close ----------

  function Ending(c: nat): seq<Action> {
    [DrainDone] + ([SetError] + ([CloseRelease] + ([CloseReleased] + ([CloseReturns(c)] + []))))
  }

  lemma ReleasingEnds(x: Session, c: nat)
    requires x.phase.Live? && x.close == CloseRunning(ErrorSet) && c in x.closers && x.closers[c] == Closing
    ensures var last := [CloseRelease] + ([CloseReleased] + ([CloseReturns(c)] + []));
            && CanDo(x, last)
            && Do(x, last) == x.(close := CloseDone, closers := x.closers[c := Returned(x.closeErr)])
  {
    var x1 := After(x, CloseRelease);
    var x2 := After(x1, CloseReleased);
    DoFirst(x2, CloseReturns(c), []);
    DoFirst(x1, CloseReleased, [CloseReturns(c)] + []);
    DoFirst(x, CloseRelease, [CloseReleased] + ([CloseReturns(c)] + []));
  }

  lemma ClosingEnds(x: Session, c: nat, sendErr: Option<Error>)
    requires x.phase.Live? && x.receiver.Ended? && c in x.closers && x.closers[c] == Closing
    requires x.close == CloseRunning(Draining(sendErr)) || x.close == CloseRunning(ForcedDraining(sendErr))
    ensures var err := if sendErr.None? then x.recvErr else sendErr;
            && CanDo(x, Ending(c))
            && Do(x, Ending(c)) ==
                 x.(cancelled := true, close := CloseDone, closeErr := err, closers := x.closers[c := Returned(err)])
  {
    var x1 := After(x, DrainDone);
    var x2 := After(x1, SetError);
    ReleasingEnds(x2, c);
    var last := [CloseRelease] + ([CloseReleased] + ([CloseReturns(c)] + []));
    DoFirst(x1, SetError, last);
    DoFirst(x, DrainDone, [SetError] + last);
  }

  // ---------- An error judged before the cancellation ----------

  lemma FirstSessionOpens() returns (steps: seq<Step>)
    ensures IsRun(BEGIN, steps) && 0 in Exec(BEGIN, steps).sessions
    ensures Exec(BEGIN, steps).sessions[0] == NewSession(0)
  {
    var read := Apply(BEGIN, Outside(Read(0)));
    var init := Apply(read, Outside(Init(0)));
    var admitted := Apply(init, Outside(Select(0)));
    assert admitted.adm.calls[0] == Holding(0) && admitted.sessions == map[];
    StepFirst(admitted, Open(0), []);
    StepFirst(init, Outside(Select(0)), [Open(0)] + []);
    StepFirst(read, Outside(Init(0)), [Outside(Select(0))] + ([Open(0)] + []));
    StepFirst(BEGIN, Outside(Read(0)), [Outside(Init(0))] + ([Outside(Select(0))] + ([Open(0)] + [])));
    steps := [Outside(Read(0))] + ([Outside(Init(0))] + ([Outside(Select(0))] + ([Open(0)] + [])));
  }

  lemma HandshakeIsRun(x: Session) returns (actions: seq<Action>)
    requires x.phase.Opening?
    ensures CanDo(x, actions) && Do(x, actions) == x.(phase := Live, receiver := Receiving)
  {
    var x1 := After(x, StreamOpened);
    var x2 := After(x1, ConfigSent);
    DoFirst(x2, AckReady, []);
    DoFirst(x1, ConfigSent, [AckReady] + []);
    DoFirst(x, StreamOpened, [ConfigSent] + ([AckReady] + []));
    actions := [StreamOpened] + ([ConfigSent] + ([AckReady] + []));
  }

  // Close waits and the stream breaks; the goroutine has judged the error, but not stored it.
  lemma BreakingIsRun(x: Session, c: nat, err: Error) returns (actions: seq<Action>)
    requires x.phase.Live? && x.receiver.Receiving? && x.close.CloseUnused? && c !in x.closers && !x.cancelled
    ensures CanDo(x, actions)
    ensures Do(x, actions) ==
            x.(receiver := Breaking(err, true), close := CloseRunning(Draining(None)), closers := x.closers[c := Closing])
  {
    var x1 := After(x, CallClose(c));
    var x2 := After(x1, CloseSend(None));
    DoFirst(x2, ReceiveError(err, false), []);
    DoFirst(x1, CloseSend(None), [ReceiveError(err, false)] + []);
    DoFirst(x, CallClose(c), [CloseSend(None)] + ([ReceiveError(err, false)] + []));
    actions := [CallClose(c)] + ([CloseSend(None)] + ([ReceiveError(err, false)] + []));
  }

  // The goroutine stores the error and ends, and Close goes on to its return.
  lemma StoringIsRun(x: Session, c: nat, err: Error)
    requires x.phase.Live? && x.receiver == Breaking(err, true) && x.close == CloseRunning(ForcedDraining(None))
    requires c in x.closers && x.closers[c] == Closing
    ensures CanDo(x, [EndReceive] + Ending(c))
    ensures var y := Do(x, [EndReceive] + Ending(c)); c in y.closers && y.closers[c] == Returned(Some(err))
  {
    ClosingEnds(After(x, EndReceive), c, None);
    DoFirst(x, EndReceive, Ending(c));
  }

  // A run up to the cancellation, with Close waiting and the goroutine not ended.
  lemma BreakingIsReachable(err: Error) returns (before: seq<Step>)
    ensures IsRun(BEGIN, before) && 0 in Exec(BEGIN, before).sessions
    ensures Exec(BEGIN, before).sessions[0] ==
            NewSession(0).(phase := Live, receiver := Breaking(err, true),
                           close := CloseRunning(Draining(None)), closers := map[0 := Closing])
  {
    var opening := FirstSessionOpens();
    RunKeepsValid(BEGIN, opening);
    var sys := Exec(BEGIN, opening);
    var handshake := HandshakeIsRun(sys.sessions[0]);
    ActionsAreRun(sys, 0, handshake);
    RunKeepsValid(sys, Steps(0, handshake));
    var live := Exec(sys, Steps(0, handshake));
    var breaking := BreakingIsRun(live.sessions[0], 0, err);
    ActionsAreRun(live, 0, breaking);
    RunsCompose(sys, Steps(0, handshake), Steps(0, breaking));
    RunsCompose(BEGIN, opening, Steps(0, handshake) + Steps(0, breaking));
    before := opening + (Steps(0, handshake) + Steps(0, breaking));
  }

  /** A goroutine that has found the stream not cancelled stores its error even if Close cancels the
      stream before it does: a forced Close whose CloseSend succeeded returns a receive error. */
  lemma LateErrorIsReported(err: Error) returns (before: seq<Step>, after: seq<Step>)
    ensures IsRun(BEGIN, before) && Enabled(Exec(BEGIN, before), Act(0, DrainTimeout))
    ensures var x := Exec(BEGIN, before).sessions[0];
            x.close.body.sendErr == None && x.recvErr == None && !x.receiver.Ended?
    ensures var sys := Apply(Exec(BEGIN, before), Act(0, DrainTimeout));
            && IsRun(sys, after) && 0 in Exec(sys, after).sessions
            && var closers := Exec(sys, after).sessions[0].closers;
               0 in closers && closers[0] == Returned(Some(err))
  {
    before := BreakingIsReachable(err);
    RunKeepsValid(BEGIN, before);
    var sys := Exec(BEGIN, before);
    ActionIsEnabled(sys, 0, DrainTimeout);
    StepKeepsValid(sys, Act(0, DrainTimeout));
    var forced := Apply(sys, Act(0, DrainTimeout));
    StoringIsRun(forced.sessions[0], 0, err);
    ActionsAreRun(forced, 0, [EndReceive] + Ending(0));
    after := Steps(0, [EndReceive] + Ending(0));
  }

  // ---------- Nothing gets stuck ----------

  // The open is failing, or some Close is in the once body.
  predicate Finishing(x: Session) {
    x.phase.Failing? || x.phase.FailReleasing? || InBody(x)
  }

  function ReceiverSteps(x: Session): nat {
    match x.receiver
    case Received(_) => 3
    case Receiving => 2
    case Breaking(_, _) => 1
    case _ => 0
  }

  function StepsLeft(x: Session): nat
    requires Finishing(x) || SlotReturned(x)
  {
    if SlotReturned(x) then 0
    else if x.phase.Failing? then 2
    else if x.phase.FailReleasing? then 1
    else match x.close.body
      case Begun => 6 + ReceiverSteps(x)
      case Draining(_) => 5 + ReceiverSteps(x)
      case ForcedDraining(_) => 4 + ReceiverSteps(x)
      case Drained(_) => 3
      case ErrorSet => 2
      case Releasing => 1
  }

  // The next action of the session itself; after the cancellation a pending Recv returns an error.
  function NextAction(x: Session, err: Error): Action
    requires Finishing(x)
  {
    if x.phase.Failing? then FailRelease
    else if x.phase.FailReleasing? then FailReleased
    else match x.close.body
      case Begun => CloseSend(None)
      case Draining(_) => DrainTimeout
      case ForcedDraining(_) =>
        if x.receiver.Received? then HandleEvent
        else if x.receiver.Receiving? then ReceiveError(err, false)
        else if x.receiver.Breaking? then EndReceive
        else DrainDone
      case Drained(_) => SetError
      case ErrorSet => CloseRelease
      case Releasing => CloseReleased
  }

  lemma NextActionIsEnabled(sys: Sys, s: nat, err: Error)
    requires Valid(sys) && s in sys.sessions && Finishing(sys.sessions[s])
    ensures Enabled(sys, Act(s, NextAction(sys.sessions[s], err)))
    ensures var x' := Apply(sys, Act(s, NextAction(sys.sessions[s], err))).sessions[s];
            (Finishing(x') || SlotReturned(x')) && StepsLeft(x') < StepsLeft(sys.sessions[s])
  {
    assert SessionOk(sys, s);
    ActionIsEnabled(sys, s, NextAction(sys.sessions[s], err));
  }

  /** From any reachable state a failing open, and any Close that has begun, can give the slot back
      within nine steps of that session alone, needing nothing from the backend but that a receive
      on a cancelled stream returns. */
  lemma {:induction false} CanAlwaysFinish(sys: Sys, s: nat, err: Error) returns (steps: seq<Step>)
    requires Valid(sys) && s in sys.sessions && (Finishing(sys.sessions[s]) || SlotReturned(sys.sessions[s]))
    ensures IsRun(sys, steps) && |steps| <= StepsLeft(sys.sessions[s]) <= 9
    ensures forall i | 0 <= i < |steps| :: steps[i].Act? && steps[i].s == s
    ensures s in Exec(sys, steps).sessions && SlotReturned(Exec(sys, steps).sessions[s])
    decreases StepsLeft(sys.sessions[s])
  {
    steps := [];
    if !SlotReturned(sys.sessions[s]) {
      var step := Act(s, NextAction(sys.sessions[s], err));
      NextActionIsEnabled(sys, s, err);
      StepKeepsValid(sys, step);
      var rest := CanAlwaysFinish(Apply(sys, step), s, err);
      steps := [step] + rest;
      assert steps[1..] == rest;
    }
  }
}
