/** The helper's closures and callbacks as they update its shared state in place.
    Each is shown to be a run of the machine's atomic steps, so the properties of
    all interleavings of those steps are properties of this code. */
module ApproverHelper {
  import opened Wrappers
  import opened Approver
  import opened ApproverSafety

  ghost predicate Ran(before: State, run: seq<Action>, after: State) {
    Run(before, run) == Some(after)
  }

  lemma RunCons(s: State, a: Action, t: State, rest: seq<Action>)
    requires Apply(s, a) == Some(t)
    ensures Run(s, [a] + rest) == Run(t, rest)
  {
    assert ([a] + rest)[1..] == rest;
  }

  lemma Ran1(s: State, a: Action, t: State)
    requires Apply(s, a) == Some(t)
    ensures Ran(s, [a], t)
  {
    hide Apply;
    RunCons(s, a, t, []);
    assert [a] + [] == [a];
  }

  lemma {:induction false} RanAppend(s: State, r1: seq<Action>, t: State, r2: seq<Action>, u: State)
    requires Ran(s, r1, t) && Ran(t, r2, u)
    ensures Ran(s, r1 + r2, u)
    decreases |r1|
  {
    hide Apply;
    if r1 == [] {
      assert r1 + r2 == r2;
    } else {
      RanAppend(Apply(s, r1[0]).value, r1[1..], t, r2, u);
      assert (r1 + r2)[0] == r1[0] && (r1 + r2)[1..] == r1[1..] + r2;
    }
  }

  datatype Line = ApproveLine(v: nat, id: string, timeout: nat) | FdaLine(v: nat, id: string) | BadLine | End

  /** What answering a taken slot amounts to; nothing if the slot was empty. */
  function AnswerRun(k: nat, full: bool): seq<Action> {
    if full then [Write(k), Signal(k)] else []
  }

  /** A finalizer that also releases the countdown's handles. */
  function ClosingRun(k: nat, site: Site, full: bool): seq<Action> {
    [TakePending(k, site)] + AnswerRun(k, full) + [Disarm(k)]
  }

  class Helper {
    var reader: Reader
    var requests: seq<Request>
    var dialogs: seq<Dialog>
    var explainers: seq<Fda>
    var windowOpen: bool
    var wire: seq<Response>
    var exited: bool

    constructor ()
      ensures View() == INIT
    {
      reader := Reading;
      requests, dialogs, explainers := [], [], [];
      windowOpen, exited := false, false;
      wire := [];
    }

    function View(): State
      reads this
    {
      State(reader, requests, dialogs, explainers, windowOpen, wire, exited)
    }

    ghost predicate Running()
      reads this
    {
      Inv(View()) && !exited
    }

    /** Empty the take-once slot under its lock. */
    method TakeSlot(k: nat, site: Site) returns (taken: Option<Pending>)
      requires Running() && k < |dialogs| && dialogs[k].shown && site != Timer
      modifies this
      ensures Running() && requests == old(requests) && wire == old(wire)
      ensures taken == old(dialogs[k].slot)
      ensures taken.None? ==> View() == old(View())
      ensures k < |dialogs| && dialogs[k].shown && dialogs[k].slot.None?
      ensures taken.Some? ==> dialogs[k].hand == Some(Holding(taken.value, site, false))
      ensures Ran(old(View()), [TakePending(k, site)], View())
    {
      ghost var before := View();
      taken := dialogs[k].slot;
      if taken.Some? {
        dialogs := dialogs[k := dialogs[k].(slot := None, hand := Some(Holding(taken.value, site, false)),
                                            winner := Some(site))];
      }
      assert taken.None? ==> dialogs == dialogs[k := dialogs[k]];
      StepInv(before, TakePending(k, site), View());
      Ran1(before, TakePending(k, site), View());
    }

    method WriteResponse(k: nat, pending: Pending, site: Site)
      requires Running() && k < |dialogs| && dialogs[k].hand == Some(Holding(pending, site, false))
      modifies this
      ensures Running() && requests == old(requests) && k < |requests|
      ensures k < |dialogs| && dialogs[k] == old(dialogs[k]).(hand := Some(Holding(pending, site, true)))
      ensures Ran(old(View()), [Write(k)], View())
      ensures wire == old(wire) + [Reply(requests[k].id, site)]
    {
      ghost var before := View();
      assert DialogOk(dialogs[k], requests[k], k);
      wire := wire + [Reply(pending.id, site)];
      dialogs := dialogs[k := dialogs[k].(hand := Some(Holding(pending, site, true)))];
      StepInv(before, Write(k), View());
      Ran1(before, Write(k), View());
    }

    method SignalReader(k: nat, pending: Pending, site: Site)
      requires Running() && k < |dialogs| && dialogs[k].hand == Some(Holding(pending, site, true))
      modifies this
      ensures Running() && requests == old(requests) && wire == old(wire)
      ensures k < |dialogs| && dialogs[k] == old(dialogs[k]).(hand := None, sent := 1)
      ensures Ran(old(View()), [Signal(k)], View())
    {
      ghost var before := View();
      assert DialogOk(dialogs[k], requests[k], k);
      dialogs := dialogs[k := dialogs[k].(hand := None)];
      dialogs := dialogs[pending.channel := dialogs[pending.channel].(sent := dialogs[pending.channel].sent + 1)];
      StepInv(before, Signal(k), View());
      Ran1(before, Signal(k), View());
    }

    /** Write the response, then unblock the reader. */
    method Answer(k: nat, pending: Pending, site: Site)
      requires Running() && k < |dialogs| && dialogs[k].hand == Some(Holding(pending, site, false))
      modifies this
      ensures Running() && requests == old(requests) && k < |requests|
      ensures k < |dialogs| && dialogs[k] == old(dialogs[k]).(hand := None, sent := 1)
      ensures Ran(old(View()), [Write(k), Signal(k)], View())
      ensures wire == old(wire) + [Reply(requests[k].id, site)]
    {
      hide Run, Inv;
      ghost var s0 := View();
      WriteResponse(k, pending, site);
      ghost var s1 := View();
      SignalReader(k, pending, site);
      RanAppend(s0, [Write(k)], s1, [Signal(k)], View());
      assert [Write(k)] + [Signal(k)] == [Write(k), Signal(k)];
    }

    method DisarmTimeout(k: nat)
      requires Running() && k < |dialogs| && dialogs[k].shown && dialogs[k].slot.None?
      modifies this
      ensures Running() && requests == old(requests) && wire == old(wire)
      ensures k < |dialogs| && dialogs[k] == old(dialogs[k]).(handles := false)
      ensures Ran(old(View()), [Disarm(k)], View())
    {
      ghost var before := View();
      dialogs := dialogs[k := dialogs[k].(handles := false)];
      StepInv(before, Disarm(k), View());
      Ran1(before, Disarm(k), View());
    }

    /** Answer with `site`'s outcome if this caller is the first to take the slot. */
    method Finalize(k: nat, site: Site)
      requires Running() && k < |dialogs| && dialogs[k].shown && site != Timer
      modifies this
      ensures Running() && requests == old(requests) && k < |requests|
      ensures k < |dialogs| && dialogs[k].shown && dialogs[k].slot.None?
      ensures old(dialogs[k].slot.None?) ==> View() == old(View())
      ensures Ran(old(View()), [TakePending(k, site)] + AnswerRun(k, old(dialogs[k].slot.Some?)), View())
      ensures wire == old(wire) + if old(dialogs[k].slot.Some?) then [Reply(requests[k].id, site)] else []
    {
      ghost var s0 := View();
      assert DialogOk(dialogs[k], requests[k], k);
      hide Run, Inv;
      var taken := TakeSlot(k, site);
      ghost var s1 := View();
      if taken.Some? {
        Answer(k, taken.value, site);
        RanAppend(s0, [TakePending(k, site)], s1, [Write(k), Signal(k)], View());
      } else {
        assert [TakePending(k, site)] + [] == [TakePending(k, site)];
      }
    }

    /** The window is about to close: cancel, then release the countdown. */
    method WindowWillClose(k: nat)
      requires Running() && k < |dialogs| && dialogs[k].shown
      modifies this
      ensures Running() && requests == old(requests) && k < |requests|
      ensures Ran(old(View()), ClosingRun(k, WindowClose, old(dialogs[k].slot.Some?)), View())
      ensures wire == old(wire) + if old(dialogs[k].slot.Some?) then [Reply(requests[k].id, WindowClose)] else []
    {
      hide Run, Inv;
      ghost var s0 := View();
      Finalize(k, WindowClose);
      ghost var s1 := View();
      DisarmTimeout(k);
      RanAppend(s0, [TakePending(k, WindowClose)] + AnswerRun(k, s0.dialogs[k].slot.Some?), s1, [Disarm(k)], View());
    }

    /** The Cancel button; closing the window then calls its delegate, which
        finds the slot empty. Exactly one response, and only if none was sent. */
    method CancelClicked(k: nat)
      requires Running() && k < |dialogs| && dialogs[k].shown
      modifies this
      ensures Running() && requests == old(requests) && k < |requests|
      ensures Ran(old(View()), ClosingRun(k, CancelButton, old(dialogs[k].slot.Some?))
                               + ClosingRun(k, WindowClose, false), View())
      ensures wire == old(wire) + if old(dialogs[k].slot.Some?) then [Reply(requests[k].id, CancelButton)] else []
    {
      hide Run, Inv;
      ghost var s0 := View();
      Finalize(k, CancelButton);
      ghost var s1 := View();
      DisarmTimeout(k);
      ghost var s2 := View();
      RanAppend(s0, [TakePending(k, CancelButton)] + AnswerRun(k, s0.dialogs[k].slot.Some?), s1, [Disarm(k)], s2);
      WindowWillClose(k);
      RanAppend(s0, ClosingRun(k, CancelButton, s0.dialogs[k].slot.Some?), s2, ClosingRun(k, WindowClose, false), View());
    }

    /** The biometric completion, on whatever thread it is called; the closing
        of the window it dispatches is a later turn of the main queue. */
    method CompletionBlock(k: nat, ok: bool)
      requires Running() && k < |dialogs| && dialogs[k].shown
      modifies this
      ensures Running() && requests == old(requests) && k < |requests|
      ensures Ran(old(View()), [TakePending(k, Completion(ok))] + AnswerRun(k, old(dialogs[k].slot.Some?)), View())
      ensures old(dialogs[k].slot.None?) ==> View() == old(View())
      ensures wire == old(wire) + if old(dialogs[k].slot.Some?) then [Reply(requests[k].id, Completion(ok))] else []
    {
      Finalize(k, Completion(ok));
    }

    /** The countdown fires: empty the handle slot under its lock. */
    method TakeHandles(k: nat) returns (held: bool)
      requires Running() && k < |dialogs| && dialogs[k].timer == Armed
      modifies this
      ensures Running() && requests == old(requests) && wire == old(wire)
      ensures held == old(dialogs[k].handles)
      ensures k < |dialogs| && dialogs[k] == old(dialogs[k]).(timer := if held then HandlesTaken else Spent, handles := false)
      ensures !held ==> dialogs[k].slot.None?
      ensures Ran(old(View()), [TimerFires(k)], View())
    {
      ghost var before := View();
      assert DialogOk(dialogs[k], requests[k], k);
      held := dialogs[k].handles;
      dialogs := dialogs[k := dialogs[k].(timer := if held then HandlesTaken else Spent, handles := false)];
      StepInv(before, TimerFires(k), View());
      Ran1(before, TimerFires(k), View());
    }

    /** The countdown takes the slot, under the other lock. */
    method TimerTakesSlot(k: nat) returns (taken: Option<Pending>)
      requires Running() && k < |dialogs| && dialogs[k].timer == HandlesTaken
      modifies this
      ensures Running() && requests == old(requests) && wire == old(wire)
      ensures taken == old(dialogs[k].slot) && k < |dialogs|
      ensures taken.Some? ==> dialogs[k].hand == Some(Holding(taken.value, Timer, false))
      ensures Ran(old(View()), [TimerTakes(k)], View())
    {
      ghost var before := View();
      taken := dialogs[k].slot;
      if taken.None? {
        dialogs := dialogs[k := dialogs[k].(timer := Spent)];
      } else {
        dialogs := dialogs[k := dialogs[k].(timer := Spent, slot := None,
                                            hand := Some(Holding(taken.value, Timer, false)), winner := Some(Timer))];
      }
      StepInv(before, TimerTakes(k), View());
      Ran1(before, TimerTakes(k), View());
    }

    /** The countdown's closure: handles first, then the slot. */
    method TimerClosure(k: nat)
      requires Running() && k < |dialogs| && dialogs[k].timer == Armed
      modifies this
      ensures Running() && requests == old(requests) && k < |requests|
      ensures old(dialogs[k].handles) ==>
        Ran(old(View()), [TimerFires(k)] + [TimerTakes(k)] + AnswerRun(k, old(dialogs[k].slot.Some?)), View())
      ensures !old(dialogs[k].handles) ==> Ran(old(View()), [TimerFires(k)], View())
      ensures wire == old(wire) + if old(dialogs[k].slot.Some?) then [Reply(requests[k].id, Timer)] else []
    {
      ghost var s0 := View();
      assert |requests| == |dialogs|;
      var held := TakeHandles(k);
      if !held {
        return;
      }
      hide Run, Inv;
      ghost var s1 := View();
      var taken := TimerTakesSlot(k);
      ghost var s2 := View();
      RanAppend(s0, [TimerFires(k)], s1, [TimerTakes(k)], s2);
      if taken.Some? {
        Answer(k, taken.value, Timer);
        RanAppend(s0, [TimerFires(k)] + [TimerTakes(k)], s2, [Write(k), Signal(k)], View());
      } else {
        assert [TimerFires(k)] + [TimerTakes(k)] + [] == [TimerFires(k)] + [TimerTakes(k)];
      }
    }

    /** One turn of the reader loop up to its wait. */
    method ReadLine(line: Line)
      requires Running() && reader == Reading
      modifies this
      ensures Running()
      ensures Ran(old(View()), [ReadStep(line)], View())
    {
      ghost var before := View();
      match line {
        case End => reader := Stopped;
        case BadLine => reader := Stopped;
        case FdaLine(v, id) =>
          if v != WIRE_VERSION {
            reader := Stopped;
          } else {
            explainers := explainers + [Fda(id, FdaQueued, false)];
          }
        case ApproveLine(v, id, timeout) =>
          if v != WIRE_VERSION {
            reader := Stopped;
          } else {
            reader := Waiting(|dialogs|);
            requests := requests + [Request(id, timeout)];
            dialogs := dialogs + [QUEUED];
          }
      }
      StepInv(before, ReadStep(line), View());
      Ran1(before, ReadStep(line), View());
    }

    /** Re-probe; answer on a fresh grant. */
    method RefreshWindow(j: nat, probe: bool)
      requires Running() && j < |explainers|
      modifies this
      ensures Running()
      ensures Ran(old(View()), [Refresh(j, probe)], View())
    {
      ghost var before := View();
      if explainers[j].phase.FdaLive? && !explainers[j].phase.granted && probe {
        var answered := explainers[j].phase.answered;
        explainers := explainers[j := explainers[j].(phase := FdaLive(true, true))];
        if !answered {
          wire := wire + [FdaResponse(explainers[j].id, j, true)];
        }
      }
      StepInv(before, Refresh(j, probe), View());
      Ran1(before, Refresh(j, probe), View());
    }

    /** End the explainer: answer `Dismissed` unless it was already answered. */
    method FinalizeWindow(j: nat)
      requires Running() && j < |explainers|
      modifies this
      ensures Running()
      ensures if old(explainers[j].phase.FdaLive?) then Ran(old(View()), [CloseFda(j)], View())
              else View() == old(View())
    {
      ghost var before := View();
      match explainers[j].phase {
        case FdaLive(granted, answered) =>
          explainers := explainers[j := explainers[j].(phase := FdaGone(granted))];
          if !answered {
            wire := wire + [FdaResponse(explainers[j].id, j, false)];
          }
          windowOpen := false;
          StepInv(before, CloseFda(j), View());
          Ran1(before, CloseFda(j), View());
        case _ =>
      }
    }

    /** Put the explainer on screen unless one already is. */
    method ShowWindow(j: nat, probe: bool)
      requires Running() && j < |explainers| && explainers[j].phase == FdaQueued
      modifies this
      ensures Running()
      ensures Ran(old(View()), [ShowFda(j, probe)], View())
    {
      ghost var before := View();
      var already := windowOpen;
      windowOpen := true;
      if already {
        explainers := explainers[j := explainers[j].(phase := FdaIgnored)];
      } else {
        if probe {
          wire := wire + [FdaResponse(explainers[j].id, j, true)];
        }
        explainers := explainers[j := Fda(explainers[j].id, FdaLive(probe, probe), !probe)];
      }
      StepInv(before, ShowFda(j, probe), View());
      Ran1(before, ShowFda(j, probe), View());
    }
  }

  function ReadStep(line: Line): Action {
    match line
    case ApproveLine(v, id, timeout) => ReadApprove(v, id, timeout)
    case FdaLine(v, id) => ReadFda(v, id)
    case BadLine => ReadUndecodable
    case End => ReadEnd
  }
}
