/** ModelTranscriptionLive, the receive goroutine and Close as sequential code. */
module LiveTranscription {
  // What each leaves behind is stated by the actions of the step system in LiveSessions, which covers
  // the interleavings: here a wait for the goroutine runs it to its end.

  import opened Wrappers
  import Admission
  import opened LiveSessions

  // What one Recv returns.
  datatype Response = Message(ev: Transcript) | Broken(err: Error, eof: bool)

  // The backend's part in the opening: the errors of opening the stream and of sending the config,
  // and the first Recv, which is an error or tells whether the response is a ready ack.
  datatype Handshake = Handshake(openErr: Option<Error>, configErr: Option<Error>, ack: Result<bool, Error>)

  datatype OpenError = AtCapacity(limit: int) | Backend(err: Error) | AckContractBroken

  // ---------- Sequences of actions ----------

  lemma {:induction false} DoComposes(x: Session, a: seq<Action>, b: seq<Action>)
    requires CanDo(x, a) && CanDo(Do(x, a), b)
    ensures CanDo(x, a + b) && Do(x, a + b) == Do(Do(x, a), b)
    decreases |a|
  {
    if a == [] {
      assert a + b == b;
    } else {
      assert (a + b)[1..] == a[1..] + b;
      DoComposes(After(x, a[0]), a[1..], b);
    }
  }

  lemma DoThree(x: Session, a: seq<Action>, b: seq<Action>, c: seq<Action>)
    requires CanDo(x, a) && CanDo(Do(x, a), b) && CanDo(Do(Do(x, a), b), c)
    ensures CanDo(x, a + (b + c)) && Do(x, a + (b + c)) == Do(Do(Do(x, a), b), c)
  {
    DoComposes(Do(x, a), b, c);
    DoComposes(x, a, b + c);
  }

  // ---------- The receive goroutine ----------

  predicate Ends(stream: seq<Response>) {
    exists i :: 0 <= i < |stream| && stream[i].Broken?
  }

  // The goroutine on the responses that come next; it stops at the first error.
  function AfterReceive(x: Session, stream: seq<Response>): Session
    requires x.receiver.Receiving?
    decreases |stream|
  {
    if stream == [] then x
    else match stream[0]
      case Message(ev) => AfterReceive(x.(delivered := if ev.blank then x.delivered else x.delivered + [ev]), stream[1..])
      case Broken(err, eof) => After(After(x, ReceiveError(err, eof)), EndReceive)
  }

  // Its actions in the step system.
  function ReceiveActions(stream: seq<Response>): seq<Action> {
    if stream == [] then []
    else match stream[0]
      case Message(ev) => [ReceiveEvent(ev)] + ([HandleEvent] + ReceiveActions(stream[1..]))
      case Broken(err, eof) => [ReceiveError(err, eof)] + ([EndReceive] + [])
  }

  // Events before the first error that are not keep-alives.
  function Deliverable(stream: seq<Response>): seq<Transcript> {
    if stream == [] || stream[0].Broken? then []
    else (if stream[0].ev.blank then [] else [stream[0].ev]) + Deliverable(stream[1..])
  }

  lemma EndsStep(stream: seq<Response>)
    requires stream != []
    ensures Ends(stream) <==> stream[0].Broken? || Ends(stream[1..])
  {
    if i :| 0 < i < |stream| && stream[i].Broken? {
      assert stream[1..][i - 1].Broken?;
    }
    if i :| 0 <= i < |stream[1..]| && stream[1..][i].Broken? {
      assert stream[i + 1].Broken?;
    }
  }

  // What the loop changes; it has ended exactly when there was an error.
  lemma {:induction false} ReceiverEndsIff(x: Session, stream: seq<Response>)
    requires x.receiver.Receiving?
    ensures var y := AfterReceive(x, stream);
            && y == x.(receiver := y.receiver, recvErr := y.recvErr, delivered := y.delivered)
            && (if Ends(stream) then y.receiver.Ended? else y.receiver.Receiving? && y.recvErr == x.recvErr)
    decreases |stream|
  {
    if stream != [] {
      EndsStep(stream);
      if stream[0].Message? {
        var ev := stream[0].ev;
        ReceiverEndsIff(x.(delivered := if ev.blank then x.delivered else x.delivered + [ev]), stream[1..]);
      }
    }
  }

  /** The loop delivers exactly the events before the first error that are not keep-alives. */
  lemma {:induction false} LoopDelivers(x: Session, stream: seq<Response>)
    requires x.receiver.Receiving?
    ensures AfterReceive(x, stream).delivered == x.delivered + Deliverable(stream)
    decreases |stream|
  {
    if stream != [] && stream[0].Message? {
      var ev := stream[0].ev;
      LoopDelivers(x.(delivered := if ev.blank then x.delivered else x.delivered + [ev]), stream[1..]);
    }
  }

  lemma MessageIsRun(x: Session, ev: Transcript, rest: seq<Action>)
    requires x.receiver.Receiving?
    requires CanDo(x.(delivered := if ev.blank then x.delivered else x.delivered + [ev]), rest)
    ensures var y := x.(delivered := if ev.blank then x.delivered else x.delivered + [ev]);
            && CanDo(x, [ReceiveEvent(ev)] + ([HandleEvent] + rest))
            && Do(x, [ReceiveEvent(ev)] + ([HandleEvent] + rest)) == Do(y, rest)
  {
    DoFirst(After(x, ReceiveEvent(ev)), HandleEvent, rest);
    DoFirst(x, ReceiveEvent(ev), [HandleEvent] + rest);
  }

  lemma BreakIsRun(x: Session, err: Error, eof: bool)
    requires x.receiver.Receiving?
    ensures var actions := [ReceiveError(err, eof)] + ([EndReceive] + []);
            CanDo(x, actions) && Do(x, actions) == After(After(x, ReceiveError(err, eof)), EndReceive)
  {
    DoFirst(After(x, ReceiveError(err, eof)), EndReceive, []);
    DoFirst(x, ReceiveError(err, eof), [EndReceive] + []);
  }

  /** The receive loop is a run of the step system. */
  lemma {:induction false} ReceivingIsRun(x: Session, stream: seq<Response>)
    requires x.receiver.Receiving?
    ensures CanDo(x, ReceiveActions(stream)) && Do(x, ReceiveActions(stream)) == AfterReceive(x, stream)
    decreases |stream|
  {
    if stream != [] {
      match stream[0]
      case Message(ev) =>
        ReceivingIsRun(x.(delivered := if ev.blank then x.delivered else x.delivered + [ev]), stream[1..]);
        MessageIsRun(x, ev, ReceiveActions(stream[1..]));
      case Broken(err, eof) =>
        BreakIsRun(x, err, eof);
    }
  }

  function FirstBreak(stream: seq<Response>): (r: Response)
    requires Ends(stream)
    ensures r.Broken?
    decreases |stream|
  {
    EndsStep(stream);
    if stream[0].Broken? then stream[0] else FirstBreak(stream[1..])
  }

  /** The loop keeps an error exactly when it is neither the end of the stream nor met after the
      cancellation. */
  lemma {:induction false} LoopKeepsErrorIff(x: Session, stream: seq<Response>)
    requires x.receiver.Receiving? && Ends(stream)
    ensures AfterReceive(x, stream).recvErr ==
            if !FirstBreak(stream).eof && !x.cancelled then Some(FirstBreak(stream).err) else x.recvErr
    decreases |stream|
  {
    EndsStep(stream);
    if stream[0].Message? {
      var ev := stream[0].ev;
      LoopKeepsErrorIff(x.(delivered := if ev.blank then x.delivered else x.delivered + [ev]), stream[1..]);
    }
  }

  // ---------- Close ----------

  // The first Close: it waits for the goroutine, which meanwhile receives `stream`.
  function Closed(x: Session, c: nat, sendErr: Option<Error>, timeout: bool, stream: seq<Response>): Session
    requires x.receiver.Receiving? || x.receiver.Ended?
  {
    var x1 := if timeout then x.(cancelled := true) else x;
    var x2 := if x1.receiver.Ended? then x1 else AfterReceive(x1, stream);
    var err := if sendErr.None? then x2.recvErr else sendErr;
    x2.(cancelled := true, close := CloseDone, closeErr := err, closers := x.closers[c := Returned(err)])
  }

  function Beginning(c: nat, sendErr: Option<Error>, timeout: bool): seq<Action> {
    [CallClose(c)] + ([CloseSend(sendErr)] + if timeout then [DrainTimeout] else [])
  }

  function CloseActions(x: Session, c: nat, sendErr: Option<Error>, timeout: bool, stream: seq<Response>): seq<Action> {
    Beginning(c, sendErr, timeout) + ((if x.receiver.Ended? then [] else ReceiveActions(stream)) + Ending(c))
  }

  lemma ClosingStarts(x: Session, c: nat, sendErr: Option<Error>, timeout: bool)
    requires x.phase.Live? && x.close.CloseUnused? && c !in x.closers
    ensures var body := if timeout then ForcedDraining(sendErr) else Draining(sendErr);
            && CanDo(x, Beginning(c, sendErr, timeout))
            && Do(x, Beginning(c, sendErr, timeout)) ==
                 x.(cancelled := x.cancelled || timeout, close := CloseRunning(body), closers := x.closers[c := Closing])
  {
    var x1 := After(x, CallClose(c));
    var x2 := After(x1, CloseSend(sendErr));
    var wait := if timeout then [DrainTimeout] else [];
    if timeout {
      assert [DrainTimeout] + [] == [DrainTimeout];
      DoFirst(x2, DrainTimeout, []);
    }
    DoFirst(x1, CloseSend(sendErr), wait);
    DoFirst(x, CallClose(c), [CloseSend(sendErr)] + wait);
  }

  // The goroutine's part while the body of closeOnce waits, seen from the session before the Close.
  lemma DrainingIsRun(x: Session, x1: Session, stream: seq<Response>)
    requires x1 == x.(close := x1.close, closers := x1.closers)
    requires x.receiver.Ended? || (x.receiver.Receiving? && Ends(stream))
    ensures var middle := if x.receiver.Ended? then [] else ReceiveActions(stream);
            var x2 := if x.receiver.Ended? then x else AfterReceive(x, stream);
            && CanDo(x1, middle)
            && Do(x1, middle) == x2.(close := x1.close, closers := x1.closers)
            && Do(x1, middle).receiver.Ended? && Do(x1, middle).phase == x.phase
  {
    if x.receiver.Receiving? {
      ReceivingIsRun(x1, stream);
      ReceiverEndsIff(x1, stream);
      ReceiveFrame(x, x1, stream);
    }
  }

  lemma ClosingDrains(x: Session, c: nat, sendErr: Option<Error>, timeout: bool, stream: seq<Response>)
    requires x.phase.Live? && x.close.CloseUnused? && c !in x.closers
    requires x.receiver.Ended? || (x.receiver.Receiving? && Ends(stream))
    ensures var first, middle := Beginning(c, sendErr, timeout), if x.receiver.Ended? then [] else ReceiveActions(stream);
            var waiting := if timeout then x.(cancelled := true) else x;
            var drained := if x.receiver.Ended? then waiting else AfterReceive(waiting, stream);
            var body := if timeout then ForcedDraining(sendErr) else Draining(sendErr);
            && CanDo(x, first) && CanDo(Do(x, first), middle)
            && Do(Do(x, first), middle) == drained.(close := CloseRunning(body), closers := x.closers[c := Closing])
            && drained.receiver.Ended? && drained.phase.Live?
  {
    ClosingStarts(x, c, sendErr, timeout);
    var x1 := Do(x, Beginning(c, sendErr, timeout));
    var waiting := if timeout then x.(cancelled := true) else x;
    assert x1 == waiting.(close := x1.close, closers := x1.closers);
    DrainingIsRun(waiting, x1, stream);
  }

  /** The first Close is a run of the step system, from its call to its return. */
  lemma ClosingIsRun(x: Session, c: nat, sendErr: Option<Error>, timeout: bool, stream: seq<Response>)
    requires x.phase.Live? && x.close.CloseUnused? && c !in x.closers
    requires x.receiver.Ended? || (x.receiver.Receiving? && Ends(stream))
    ensures CanDo(x, CloseActions(x, c, sendErr, timeout, stream))
    ensures Do(x, CloseActions(x, c, sendErr, timeout, stream)) == Closed(x, c, sendErr, timeout, stream)
  {
    var first := Beginning(c, sendErr, timeout);
    var middle := if x.receiver.Ended? then [] else ReceiveActions(stream);
    ClosingDrains(x, c, sendErr, timeout, stream);
    ClosingEnds(Do(Do(x, first), middle), c, sendErr);
    DoThree(x, first, middle, Ending(c));
  }

  // The loop looks at the cancellation only.
  lemma {:induction false} ReceiveFrame(x: Session, y: Session, stream: seq<Response>)
    requires x.receiver.Receiving? && y == x.(close := y.close, closers := y.closers)
    ensures AfterReceive(y, stream) == AfterReceive(x, stream).(close := y.close, closers := y.closers)
    decreases |stream|
  {
    if stream != [] && stream[0].Message? {
      var ev := stream[0].ev;
      var more := if ev.blank then x.delivered else x.delivered + [ev];
      ReceiveFrame(x.(delivered := more), y.(delivered := more), stream[1..]);
    }
  }

  /** Close reports the error of CloseSend; without one the error that the goroutine had kept; and without
      that one the error by which the stream breaks, other than by ending, while Close still waits
      without having cancelled it. */
  lemma CloseReportsFirstError(x: Session, c: nat, sendErr: Option<Error>, timeout: bool, stream: seq<Response>)
    requires x.receiver.Ended? || (x.receiver.Receiving? && x.recvErr == None && Ends(stream))
    ensures Closed(x, c, sendErr, timeout, stream).closeErr ==
            if sendErr.Some? then sendErr
            else if x.recvErr.Some? then x.recvErr
            else if x.receiver.Receiving? && !x.cancelled && !timeout && !FirstBreak(stream).eof then Some(FirstBreak(stream).err)
            else None
  {
    if x.receiver.Receiving? {
      LoopKeepsErrorIff(if timeout then x.(cancelled := true) else x, stream);
    }
  }

  lemma ClosedIsValid(x: Session, c: nat, sendErr: Option<Error>, timeout: bool, stream: seq<Response>)
    requires SessionValid(x) && x.phase.Live? && x.close.CloseUnused?
    requires x.receiver.Ended? || (x.receiver.Receiving? && Ends(stream))
    ensures var y := Closed(x, c, sendErr, timeout, stream);
            SessionValid(y) && y.receiver.Ended? && y.phase.Live? && y.handle == x.handle
  {
    if x.receiver.Receiving? {
      ReceiverEndsIff(if timeout then x.(cancelled := true) else x, stream);
    }
  }

  class LiveTranscriptionSession {
    const admission: Admission.BackendAdmission
    const release: nat  // the handle of the admission slot
    var cancelled: bool
    var recvDone: bool
    var recvErr: Option<Error>
    var closeOnce: bool
    var closeErr: Option<Error>
    var delivered: seq<Transcript>  // what onEvent has been given
    ghost var closers: map<nat, Closer>

    ghost function View(): Session
      reads this
    {
      Session(release, Live, cancelled, if recvDone then Ended else Receiving, recvErr,
              if closeOnce then CloseDone else CloseUnused, closeErr, closers, delivered)
    }

    // The slot is held until the session is closed and not longer.
    ghost predicate Valid()
      reads this, admission
    {
      && Admission.Valid(admission.View()) && release < |admission.handles|
      && SessionValid(View())
      && ReleaseMatches(View(), admission.handles[release].once)
    }

    constructor (admission: Admission.BackendAdmission, release: nat)
      requires Admission.Valid(admission.View()) && release < |admission.handles|
      requires admission.handles[release].once == Admission.Unused
      ensures this.admission == admission && this.release == release && Valid()
      ensures View() == NewSession(release).(phase := Live, receiver := Receiving)
    {
      this.admission, this.release := admission, release;
      cancelled, recvDone, recvErr, closeOnce, closeErr, delivered, closers := false, false, None, false, None, [], map[];
    }

    method ReceiveAll(stream: seq<Response>)
      requires !recvDone
      modifies `recvDone, `recvErr, `delivered
      ensures View() == AfterReceive(old(View()), stream)
    {
      ghost var x := View();
      for i := 0 to |stream|
        invariant !recvDone && AfterReceive(View(), stream[i..]) == AfterReceive(x, stream)
      {
        assert stream[i..][1..] == stream[i + 1..];
        match stream[i] {
          case Broken(err, eof) =>
            if !eof && !cancelled {
              recvErr := Some(err);
            }
            recvDone := true;
            return;
          case Message(ev) =>
            if ev.blank {
              continue;
            }
            delivered := delivered + [ev];
        }
      }
    }

    // `c` names the call; waiting for recvDone lets the goroutine receive `stream`.
    method Close(ghost c: nat, sendErr: Option<Error>, timeout: bool, stream: seq<Response>) returns (err: Option<Error>)
      requires Valid() && c !in closers
      requires recvDone || Ends(stream)
      modifies this, admission
      ensures Valid() && err == closeErr
      ensures if old(closeOnce) then
                View() == old(View()).(closers := closers) && admission.View() == old(admission.View())
              else
                && View() == Closed(old(View()), c, sendErr, timeout, stream)
                && Admission.CanReceive(Admission.ReleaseBegun(old(admission.View()), release), release)
                && admission.View() ==
                     Admission.ReleaseFinished(Admission.ReleaseBegun(old(admission.View()), release), release)
    {
      if !closeOnce {
        err := CloseOnceBody(c, sendErr, timeout, stream);
      } else {
        err := closeErr;
        closers := closers[c := Returned(err)];
      }
    }

    method CloseOnceBody(ghost c: nat, sendErr: Option<Error>, timeout: bool, stream: seq<Response>)
      returns (err: Option<Error>)
      requires Valid() && !closeOnce
      requires recvDone || Ends(stream)
      modifies this, admission
      ensures Valid() && err == closeErr
      ensures View() == Closed(old(View()), c, sendErr, timeout, stream)
      ensures Admission.CanReceive(Admission.ReleaseBegun(old(admission.View()), release), release)
      ensures admission.View() ==
                Admission.ReleaseFinished(Admission.ReleaseBegun(old(admission.View()), release), release)
    {
      ClosedIsValid(View(), c, sendErr, timeout, stream);
      Drain(timeout, stream);
      cancelled := true;
      closeErr := if sendErr.None? then recvErr else sendErr;
      closeOnce := true;
      err := closeErr;
      closers := closers[c := Returned(err)];
      assert View() == Closed(old(View()), c, sendErr, timeout, stream);
      admission.Release(release);
    }

    // The select on recvDone and the drain timer.
    method Drain(timeout: bool, stream: seq<Response>)
      requires recvDone || Ends(stream)
      modifies `cancelled, `recvDone, `recvErr, `delivered
      ensures recvDone
      ensures var x := if timeout then old(View()).(cancelled := true) else old(View());
              View() == if old(recvDone) then x else AfterReceive(x, stream)
    {
      if timeout {
        cancelled := true;
      }
      if !recvDone {
        ReceiverEndsIff(View(), stream);
        ReceiveAll(stream);
      }
    }
  }

  // ---------- Opening ----------

  method ModelTranscriptionLive(admission: Admission.BackendAdmission, hs: Handshake)
    returns (r: Result<LiveTranscriptionSession, OpenError>)
    requires Admission.Valid(admission.View())
    modifies admission
    ensures Admission.Valid(admission.View())
    ensures var sh := Admission.Initialised(old(admission.View()));
            if !Admission.HasRoom(sh, sh.slots.value) then
              r == Failure(AtCapacity(sh.limit)) && admission.View() == sh
            else if r.Success? then
              && fresh(r.value) && r.value.Valid() && r.value.admission == admission
              && admission.View() == Admission.Admitted(sh, sh.slots.value)
              && r.value.View() == NewSession(|sh.handles|).(phase := Live, receiver := Receiving)
            else
              SlotGivenBack(sh, admission.View())
    // once a slot is taken: the session, the error met first, or the broken contract
    ensures var sh := Admission.Initialised(old(admission.View()));
            Admission.HasRoom(sh, sh.slots.value) ==>
              && (r.Success? <==> hs.openErr.None? && hs.configErr.None? && hs.ack == Success(true))
              && (forall e :: r == Failure(Backend(e)) <==>
                    || hs.openErr == Some(e)
                    || (hs.openErr.None? && hs.configErr == Some(e))
                    || (hs.openErr.None? && hs.configErr.None? && hs.ack == Failure(e)))
              && (r == Failure(AckContractBroken) <==> hs.openErr.None? && hs.configErr.None? && hs.ack == Success(false))
  {
    var slot := admission.AcquireGlobalBackendSlot();
    if slot.Failure? {
      return Failure(AtCapacity(slot.error));
    }
    var release := slot.value;
    if hs.openErr.Some? {
      admission.Release(release);
      return Failure(Backend(hs.openErr.value));
    }
    if hs.configErr.Some? {
      admission.Release(release);
      return Failure(Backend(hs.configErr.value));
    }
    if hs.ack.Failure? {
      admission.Release(release);
      return Failure(Backend(hs.ack.error));
    }
    if !hs.ack.value {
      admission.Release(release);
      return Failure(AckContractBroken);
    }
    var s := new LiveTranscriptionSession(admission, release);
    return Success(s);
  }

  // A slot was taken and returned: the channels are as before, and the one new handle is used up.
  predicate SlotGivenBack(sh: Admission.Shared, sh': Admission.Shared) {
    && sh'.limit == sh.limit && sh'.slots == sh.slots && sh'.channels == sh.channels && sh.slots.Some?
    && sh'.handles == sh.handles + [Admission.Handle(sh.slots.value, Admission.Done)]
  }
}
