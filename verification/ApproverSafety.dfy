/** What holds of the approval helper in every interleaving of its threads. */
module ApproverSafety {
  import opened Wrappers
  import opened Approver

  lemma InitInv()
    ensures Inv(INIT)
  {
  }

  // ---- exactly one response per request, in request order ----

  /** How many of its four exclusive situations request `k` is in: closure still
      queued, slot full, taken but not yet written, answered. */
  function Situations(d: Dialog): nat {
    (if !d.shown then 1 else 0)
    + (if d.slot.Some? then 1 else 0)
    + (if d.hand.Some? && !d.hand.value.wrote then 1 else 0)
    + (if Answered(d) then 1 else 0)
  }

  lemma {:induction false} OwedOfAnswered(requests: seq<Request>, ds: seq<Dialog>)
    requires |requests| == |ds|
    requires forall k :: 0 <= k < |ds| ==> Answered(ds[k]) && ds[k].winner.Some?
    ensures |Owed(requests, ds)| == |ds|
    ensures forall k :: 0 <= k < |ds| ==> Owed(requests, ds)[k] == Reply(requests[k].id, ds[k].winner.value)
  {
    if ds != [] {
      OwedOfAnswered(requests[..|ds| - 1], ds[..|ds| - 1]);
    }
  }

  lemma OwedNewest(requests: seq<Request>, ds: seq<Dialog>)
    requires |requests| == |ds|
    requires forall k :: 0 <= k < |ds| ==> Answered(ds[k]) ==> ds[k].winner.Some?
    requires forall k :: 0 <= k < |ds| - 1 ==> Answered(ds[k])
    ensures |Owed(requests, ds)| <= |ds| <= |Owed(requests, ds)| + 1
    ensures forall k :: 0 <= k < |ds| ==> (Answered(ds[k]) <==> k < |Owed(requests, ds)|)
    ensures forall k :: 0 <= k < |Owed(requests, ds)| ==>
      ds[k].winner.Some? && Owed(requests, ds)[k] == Reply(requests[k].id, ds[k].winner.value)
  {
    if ds != [] {
      OwedOfAnswered(requests[..|ds| - 1], ds[..|ds| - 1]);
    }
  }

  lemma DialogFacts(d: Dialog, request: Request, k: nat)
    requires DialogOk(d, request, k)
    ensures Situations(d) == 1 && d.sent <= 1 && (Answered(d) ==> d.winner.Some?)
    ensures d.received == 1 ==> Answered(d)
  {
  }

  /** Reachable-state form of the protocol's promise, from the invariant. */
  lemma AnswersInOrder(s: State)
    requires Inv(s)
    ensures |Approvals(s.wire)| <= |s.requests| == |s.dialogs| <= |Approvals(s.wire)| + 1
    ensures forall k :: 0 <= k < |s.dialogs| ==>
      && Situations(s.dialogs[k]) == 1
      && s.dialogs[k].sent <= 1
      && (Answered(s.dialogs[k]) <==> k < |Approvals(s.wire)|)
    ensures forall k :: 0 <= k < |Approvals(s.wire)| ==>
      && s.dialogs[k].winner.Some?
      && Approvals(s.wire)[k] == Reply(s.requests[k].id, s.dialogs[k].winner.value)
    ensures !s.reader.Waiting? ==> |Approvals(s.wire)| == |s.requests|
  {
    hide FdaOk, Owed, Approvals, Answered, DialogOk, Situations, Reply;
    forall k | 0 <= k < |s.dialogs|
      ensures Situations(s.dialogs[k]) == 1 && s.dialogs[k].sent <= 1
      ensures Answered(s.dialogs[k]) ==> s.dialogs[k].winner.Some?
      ensures s.dialogs[k].received == 1 ==> Answered(s.dialogs[k])
    {
      DialogFacts(s.dialogs[k], s.requests[k], k);
    }
    OwedNewest(s.requests, s.dialogs);
  }

  /** In every interleaving each accepted request is answered exactly once or
      not yet, in the order the requests came, with the outcome of whoever took
      its slot; the helper stops reading only when all are answered. */
  lemma ExactlyOnceInOrder(run: seq<Action>, s: State)
    requires Run(INIT, run) == Some(s)
    ensures |Approvals(s.wire)| <= |s.requests| == |s.dialogs| <= |Approvals(s.wire)| + 1
    ensures forall k :: 0 <= k < |s.dialogs| ==>
      && Situations(s.dialogs[k]) == 1
      && s.dialogs[k].sent <= 1
      && (Answered(s.dialogs[k]) <==> k < |Approvals(s.wire)|)
    ensures forall k :: 0 <= k < |Approvals(s.wire)| ==>
      && s.dialogs[k].winner.Some?
      && Approvals(s.wire)[k] == Reply(s.requests[k].id, s.dialogs[k].winner.value)
    ensures !s.reader.Waiting? ==> |Approvals(s.wire)| == |s.requests|
  {
    InitInv();
    RunInv(INIT, run, s);
    AnswersInOrder(s);
  }

  /** The reader's wait never fails: as long as it waits, the sending end of its
      channel is held by a queued closure, a full slot or a running finalizer,
      or the message is already there. */
  lemma WaitNeverFails(run: seq<Action>, s: State)
    requires Run(INIT, run) == Some(s)
    ensures Apply(s, ReceiveFails) == None
  {
    InitInv();
    RunInv(INIT, run, s);
    if s.reader.Waiting? {
      SenderHeld(s);
      assert DialogOk(s.dialogs[s.reader.dialog], s.requests[s.reader.dialog], s.reader.dialog);
    }
  }

  // ---- who answered ----

  lemma {:induction false} RunSnoc(s: State, run: seq<Action>, a: Action)
    ensures Run(s, run + [a]) == match Run(s, run) case None => None case Some(t) => Apply(t, a)
    decreases |run|
  {
    hide Apply;
    if run == [] {
      assert (run + [a])[1..] == [];
    } else {
      assert (run + [a])[0] == run[0] && (run + [a])[1..] == run[1..] + [a];
      if Apply(s, run[0]).Some? {
        RunSnoc(Apply(s, run[0]).value, run[1..], a);
      }
    }
  }

  /** The step by which `site` takes the slot of dialog `k`. */
  function TakingStep(k: nat, site: Site): Action {
    if site == Timer then TimerTakes(k) else TakePending(k, site)
  }

  lemma DialogWinnerStep(d: Dialog, request: Request, k: nat, a: Action, d': Dialog)
    requires DialogStep(d, request, k, a) == Some(d') && d'.winner.Some?
    requires a.Show? || a.Arm? || a.TakePending? || a.TimerFires? || a.TimerTakes? || a.Disarm?
    requires a.k == k
    ensures d'.winner == d.winner || a == TakingStep(k, d'.winner.value)
  {
  }

  /** A dialog's winner changes only by the winner's own taking step. */
  lemma WinnerStep(s: State, a: Action, s': State, k: nat)
    requires Apply(s, a) == Some(s') && k < |s'.dialogs| && s'.dialogs[k].winner.Some?
    ensures (k < |s.dialogs| && s.dialogs[k].winner == s'.dialogs[k].winner)
         || a == TakingStep(k, s'.dialogs[k].winner.value)
  {
    hide DialogStep, FdaStep;
    if a.Show? || a.Arm? || a.TakePending? || a.TimerFires? || a.TimerTakes? || a.Disarm? {
      if a.k == k {
        DialogWinnerStep(s.dialogs[k], s.requests[k], k, a, s'.dialogs[k]);
      }
    } else if IsFdaStep(a) {
      ApprovalsIgnoreExplainer(s, a, s');
    }
  }

  lemma {:induction false} WinnerTook(run: seq<Action>, s: State, k: nat)
    requires Run(INIT, run) == Some(s) && k < |s.dialogs| && s.dialogs[k].winner.Some?
    ensures TakingStep(k, s.dialogs[k].winner.value) in run
    decreases |run|
  {
    hide Inv, Apply;
    if run != [] {
      var init, a := run[..|run| - 1], run[|run| - 1];
      assert run == init + [a];
      RunSnoc(INIT, init, a);
      var t := Run(INIT, init).value;
      InitInv();
      RunInv(INIT, init, t);
      WinnerStep(t, a, s, k);
      if k < |t.dialogs| && t.dialogs[k].winner == s.dialogs[k].winner {
        WinnerTook(init, t, k);
      }
    }
  }

  /** An approval on the wire was won by a biometric completion that succeeded
      for that very request, and a timeout by its own, non-zero, timer. */
  lemma ApprovedOnlyByBiometry(run: seq<Action>, s: State, k: nat)
    requires Run(INIT, run) == Some(s) && k < |Approvals(s.wire)|
    ensures Approvals(s.wire)[k].ApproveResponse? && k < |s.requests|
    ensures Approvals(s.wire)[k].outcome == Approved ==> TakePending(k, Completion(true)) in run
    ensures Approvals(s.wire)[k].outcome == BiometricFailed ==> TakePending(k, Completion(false)) in run
    ensures Approvals(s.wire)[k].outcome == Timeout ==> TimerTakes(k) in run && s.requests[k].timeout > 0
  {
    ExactlyOnceInOrder(run, s);
    WinnerTook(run, s, k);
    InitInv();
    RunInv(INIT, run, s);
    assert DialogOk(s.dialogs[k], s.requests[k], k);
  }

  /** Once a dialog is answered its timer and its other finalizers do nothing but
      drop their own handles: no response, no signal, no other dialog touched. */
  lemma LateFinalizersAreHarmless(s: State, k: nat, a: Action, s': State)
    requires Inv(s) && k < |s.dialogs| && Answered(s.dialogs[k])
    requires a == TimerFires(k) || a == TimerTakes(k) || (a.TakePending? && a.k == k)
    requires Apply(s, a) == Some(s')
    ensures exists t, h :: s' == s.(dialogs := s.dialogs[k := s.dialogs[k].(timer := t, handles := h)])
  {
    assert DialogOk(s.dialogs[k], s.requests[k], k);
    var d := s'.dialogs[k];
    assert s' == s.(dialogs := s.dialogs[k := s.dialogs[k].(timer := d.timer, handles := d.handles)]);
  }

  // ---- an abandoned dialog cannot block the queue ----

  /** Steps that need no human and no sensor. */
  predicate Unattended(a: Action) {
    a.Show? || a.Arm? || a.TimerFires? || a.TimerTakes? || a.Write? || a.Signal? || a.Receive?
  }

  /** How far the dialog the reader waits for is from being received. */
  function Distance(d: Dialog): nat {
    if !d.shown then 7
    else if d.slot.Some? then
      (match d.timer case NotArmed => 6 case Armed => 5 case HandlesTaken => 4 case Spent => 6)
    else if d.hand.Some? then (if d.hand.value.wrote then 2 else 3)
    else 1
  }

  /** The unattended step that brings dialog `k` closer. */
  function NextOf(d: Dialog, k: nat): Action {
    if !d.shown then Show(k)
    else if d.slot.Some? then
      (match d.timer case NotArmed => Arm(k) case Armed => TimerFires(k) case _ => TimerTakes(k))
    else if d.hand.Some? then (if d.hand.value.wrote then Signal(k) else Write(k))
    else Receive
  }

  /** The unattended step that brings the reader closer. */
  function NextStep(s: State): Action
    requires s.reader.Waiting? && s.reader.dialog < |s.dialogs|
  {
    NextOf(s.dialogs[s.reader.dialog], s.reader.dialog)
  }

  lemma NextStepCloser(s: State)
    requires Inv(s) && !s.exited && s.reader.Waiting?
    requires s.reader.dialog < |s.requests| && s.requests[s.reader.dialog].timeout > 0
    ensures var k := s.reader.dialog;
            && Unattended(NextStep(s))
            && Apply(s, NextStep(s)).Some?
            && var t := Apply(s, NextStep(s)).value;
               && t.requests == s.requests && !t.exited
               && (t.reader == Reading || (t.reader == s.reader && Distance(t.dialogs[k]) < Distance(s.dialogs[k])))
  {
    var k := s.reader.dialog;
    assert DialogOk(s.dialogs[k], s.requests[k], k);
  }

  /** From every reachable state in which the reader waits for a dialog with a
      countdown, at most seven steps without any human lead back to reading. */
  lemma {:induction false} TimerUnblocksReader(s: State) returns (run: seq<Action>)
    requires Inv(s) && !s.exited && s.reader.Waiting?
    requires s.reader.dialog < |s.requests| && s.requests[s.reader.dialog].timeout > 0
    ensures s.reader.dialog < |s.dialogs| && |run| <= Distance(s.dialogs[s.reader.dialog]) <= 7
    ensures forall i :: 0 <= i < |run| ==> Unattended(run[i])
    ensures Run(s, run).Some? && Run(s, run).value.reader == Reading
    decreases if s.reader.dialog < |s.dialogs| then Distance(s.dialogs[s.reader.dialog]) else 0
  {
    hide Apply, NextStep, DialogsOk, ApprovalsOk, FdaOk;
    NextStepCloser(s);
    var a := NextStep(s);
    var t := Apply(s, a).value;
    StepInv(s, a, t);
    if t.reader == Reading {
      run := [a];
    } else {
      var rest := TimerUnblocksReader(t);
      run := [a] + rest;
      assert run[1..] == rest;
    }
  }

  /** Nearer to being received, or just as near with the same step to take next. */
  predicate NoFarther(d: Dialog, d': Dialog, k: nat) {
    Distance(d') < Distance(d) || (Distance(d') == Distance(d) && NextOf(d', k) == NextOf(d, k))
  }

  lemma DialogNoFarther(d: Dialog, request: Request, k: nat, a: Action, d': Dialog)
    requires DialogOk(d, request, k) && DialogStep(d, request, k, a) == Some(d')
    ensures NoFarther(d, d', k)
  {
  }

  /** A step on dialog `i` leaves the others as they are. */
  lemma ApprovalNoFarther(s: State, i: nat, a: Action, t: State, k: nat)
    requires DialogsOk(s.requests, s.dialogs) && ApprovalStep(s, i, a) == Some(t) && k < |s.dialogs|
    ensures |t.dialogs| == |s.dialogs| && t.reader == s.reader && t.requests == s.requests && t.exited == s.exited
    ensures NoFarther(s.dialogs[k], t.dialogs[k], k)
  {
    hide DialogStep, NoFarther;
    var d := s.dialogs[i];
    assert DialogOk(d, s.requests[i], i);
    SameNoFarther(s.dialogs[k], k);
    if a.Write? || a.Signal? {
      HandNoFarther(s, i, a, t);
    } else {
      DialogNoFarther(d, s.requests[i], i, a, DialogStep(d, s.requests[i], i, a).value);
    }
  }

  lemma SameNoFarther(d: Dialog, k: nat)
    ensures NoFarther(d, d, k)
  {
  }

  lemma HandNoFarther(s: State, i: nat, a: Action, t: State)
    requires DialogsOk(s.requests, s.dialogs) && ApprovalStep(s, i, a) == Some(t) && (a.Write? || a.Signal?)
    ensures t == s.(wire := t.wire, dialogs := s.dialogs[i := t.dialogs[i]])
    ensures NoFarther(s.dialogs[i], t.dialogs[i], i)
  {
    assert DialogOk(s.dialogs[i], s.requests[i], i);
  }

  lemma ReaderNoFarther(s: State, a: Action, t: State)
    requires Inv(s) && s.reader.Waiting? && ReaderStep(s, a) == Some(t)
    ensures t.reader == Reading
  {
    SenderHeld(s);
    assert DialogOk(s.dialogs[s.reader.dialog], s.requests[s.reader.dialog], s.reader.dialog);
  }

  /** No step of any thread undoes progress: while the reader keeps waiting, the
      distance never grows, and either it falls or the next unattended step is
      still the same one. */
  lemma NoStepDelays(s: State, a: Action, t: State)
    requires Inv(s) && s.reader.Waiting? && Apply(s, a) == Some(t)
    ensures t.reader == s.reader || t.reader == Reading
    ensures t.reader == s.reader ==>
      && s.reader.dialog < |s.dialogs| && s.reader.dialog < |t.dialogs| && t.requests == s.requests && !t.exited
      && NoFarther(s.dialogs[s.reader.dialog], t.dialogs[s.reader.dialog], s.reader.dialog)
  {
    hide ApprovalStep, ReaderStep, NoFarther, DialogsOk, ApprovalsOk, FdaOk;
    var k := s.reader.dialog;
    SameNoFarther(s.dialogs[k], k);
    match a {
      case Show(i) => ApprovalNoFarther(s, i, a, t, k);
      case Arm(i) => ApprovalNoFarther(s, i, a, t, k);
      case TakePending(i, _) => ApprovalNoFarther(s, i, a, t, k);
      case TimerFires(i) => ApprovalNoFarther(s, i, a, t, k);
      case TimerTakes(i) => ApprovalNoFarther(s, i, a, t, k);
      case Write(i) => ApprovalNoFarther(s, i, a, t, k);
      case Signal(i) => ApprovalNoFarther(s, i, a, t, k);
      case Disarm(i) => ApprovalNoFarther(s, i, a, t, k);
      case ShowFda(_, _) =>
      case Refresh(_, _) =>
      case Poll(_, _) =>
      case CloseFda(_) =>
      case Exit =>
      case _ => ReaderNoFarther(s, a, t);
    }
  }

  /** Whether the reader stops waiting somewhere along `run`. */
  predicate Unblocked(s: State, run: seq<Action>)
    decreases |run|
  {
    !s.reader.Waiting? || (run != [] && Apply(s, run[0]).Some? && Unblocked(Apply(s, run[0]).value, run[1..]))
  }

  /** How often `run` takes the next unattended step while the reader waits. */
  function Progress(s: State, run: seq<Action>): nat
    decreases |run|
  {
    if run == [] || !s.reader.Waiting? || s.reader.dialog >= |s.dialogs| || Apply(s, run[0]).None? then 0
    else (if run[0] == NextStep(s) then 1 else 0) + Progress(Apply(s, run[0]).value, run[1..])
  }

  /** However the threads interleave, a schedule in which the next unattended step
      is taken as often as the distance says, at most seven times, has led back
      to reading. */
  lemma {:induction false} FairSchedulesUnblock(s: State, run: seq<Action>)
    requires Inv(s) && s.reader.Waiting? && Run(s, run).Some?
    requires s.reader.dialog < |s.requests| && s.requests[s.reader.dialog].timeout > 0
    ensures s.reader.dialog < |s.dialogs| && 1 <= Distance(s.dialogs[s.reader.dialog]) <= 7
    ensures Progress(s, run) >= Distance(s.dialogs[s.reader.dialog]) ==> Unblocked(s, run)
    decreases |run|
  {
    hide Apply, NextOf, DialogsOk, ApprovalsOk, FdaOk;
    if run != [] {
      var a := run[0];
      var t := Apply(s, a).value;
      NotExited(s, a);
      NextStepCloser(s);
      NoStepDelays(s, a, t);
      StepInv(s, a, t);
      if t.reader == s.reader {
        FairSchedulesUnblock(t, run[1..]);
      }
    }
  }

  lemma NotExited(s: State, a: Action)
    requires Apply(s, a).Some?
    ensures !s.exited
  {
  }

  // ---- the explainer ----

  /** A shown explainer is answered at most once, and has been answered exactly
      when a grant was seen or its window is gone; the answer says which. One
      that was asked for while another was open is never answered. */
  lemma ExplainerAnsweredOnce(run: seq<Action>, s: State, j: nat)
    requires Run(INIT, run) == Some(s) && j < |s.explainers|
    ensures FdaCount(s.wire, j) == match s.explainers[j].phase
                                   case FdaQueued => 0
                                   case FdaIgnored => 0
                                   case FdaLive(granted, _) => if granted then 1 else 0
                                   case FdaGone(_) => 1
    ensures forall r :: r in s.wire && r.FdaResponse? && r.origin == j ==>
      && r.id == s.explainers[j].id
      && (r.granted <==> SawGrant(s.explainers[j]))
  {
    InitInv();
    RunInv(INIT, run, s);
  }

  /** The open flag is exactly the existence of a live window, of which there is
      at most one. */
  lemma OneExplainerWindow(run: seq<Action>, s: State)
    requires Run(INIT, run) == Some(s)
    ensures s.windowOpen <==> exists j :: 0 <= j < |s.explainers| && s.explainers[j].phase.FdaLive?
    ensures forall i, j :: 0 <= i < j < |s.explainers| ==>
      !(s.explainers[i].phase.FdaLive? && s.explainers[j].phase.FdaLive?)
  {
    InitInv();
    RunInv(INIT, run, s);
  }

  predicate SawGrant(f: Fda) {
    match f.phase
    case FdaLive(granted, _) => granted
    case FdaGone(sawGrant) => sawGrant
    case _ => false
  }

  /** The step by which explainer `j` learns of a grant. */
  predicate GrantingStep(a: Action, j: nat) {
    a == ShowFda(j, true) || a == Refresh(j, true) || a == Poll(j, true)
  }

  lemma GrantStep(s: State, a: Action, s': State, j: nat)
    requires Apply(s, a) == Some(s') && j < |s'.explainers| && SawGrant(s'.explainers[j])
    ensures (j < |s.explainers| && SawGrant(s.explainers[j])) || GrantingStep(a, j)
  {
  }

  lemma {:induction false} GrantWasProbed(run: seq<Action>, s: State, j: nat)
    requires Run(INIT, run) == Some(s) && j < |s.explainers| && SawGrant(s.explainers[j])
    ensures exists a :: a in run && GrantingStep(a, j)
    decreases |run|
  {
    hide Apply;
    if run != [] {
      var init, a := run[..|run| - 1], run[|run| - 1];
      assert run == init + [a];
      RunSnoc(INIT, init, a);
      var t := Run(INIT, init).value;
      GrantStep(t, a, s, j);
      if GrantingStep(a, j) {
        assert a in run;
      } else {
        GrantWasProbed(init, t, j);
        var b :| b in init && GrantingStep(b, j);
        assert b in run;
      }
    }
  }

  /** `Granted` is reported only if a probe for that window returned true. */
  lemma GrantedOnlyIfProbed(run: seq<Action>, s: State, r: Response)
    requires Run(INIT, run) == Some(s) && r in s.wire && r.FdaResponse? && r.granted
    ensures exists a :: a in run && GrantingStep(a, r.origin)
  {
    InitInv();
    RunInv(INIT, run, s);
    GrantWasProbed(run, s, r.origin);
  }

  // ---- the two dialogs do not interfere ----

  predicate IsFdaStep(a: Action) {
    a.ShowFda? || a.Refresh? || a.Poll? || a.CloseFda?
  }

  /** Two outcomes alike in everything but the explainers, with the same responses
      appended. */
  ghost predicate SameOutcome(s: State, t: State, r: Option<State>, u: Option<State>) {
    match (r, u)
    case (Some(s'), Some(t')) =>
      && s'.reader == t'.reader && s'.requests == t'.requests && s'.dialogs == t'.dialogs
      && exists w :: s'.wire == s.wire + w && t'.wire == t.wire + w
    case (None, None) => true
    case _ => false
  }

  predicate SameApprovals(s: State, t: State) {
    s.reader == t.reader && s.requests == t.requests && s.dialogs == t.dialogs && s.exited == t.exited
  }

  lemma ReaderSame(s: State, t: State, a: Action)
    requires SameApprovals(s, t)
    ensures SameOutcome(s, t, ReaderStep(s, a), ReaderStep(t, a))
  {
    assert s.wire + [] == s.wire && t.wire + [] == t.wire;
    assert s.reader.Waiting? && s.reader.dialog < |s.dialogs| ==> SenderAlive(s, s.reader.dialog) == SenderAlive(t, t.reader.dialog);
  }

  lemma ApprovalSame(s: State, t: State, k: nat, a: Action)
    requires SameApprovals(s, t)
    ensures SameOutcome(s, t, ApprovalStep(s, k, a), ApprovalStep(t, k, a))
  {
    hide DialogStep;
    assert s.wire + [] == s.wire && t.wire + [] == t.wire;
  }

  /** Whatever the explainer is doing, an approval or reader step has the same
      effect on the reader and the dialogs, and appends the same responses. */
  lemma ExplainerNeverStallsApprovals(s: State, xs: seq<Fda>, open: bool, wire: seq<Response>, a: Action)
    requires !IsFdaStep(a)
    ensures var t := s.(explainers := xs, windowOpen := open, wire := wire);
            SameOutcome(s, t, Apply(s, a), Apply(t, a))
  {
    hide ReaderStep, ApprovalStep;
    var t := s.(explainers := xs, windowOpen := open, wire := wire);
    assert s.wire + [] == s.wire && t.wire + [] == t.wire;
    ReaderSame(s, t, a);
    match a {
      case Show(k) => ApprovalSame(s, t, k, a);
      case Arm(k) => ApprovalSame(s, t, k, a);
      case TakePending(k, _) => ApprovalSame(s, t, k, a);
      case TimerFires(k) => ApprovalSame(s, t, k, a);
      case TimerTakes(k) => ApprovalSame(s, t, k, a);
      case Write(k) => ApprovalSame(s, t, k, a);
      case Signal(k) => ApprovalSame(s, t, k, a);
      case Disarm(k) => ApprovalSame(s, t, k, a);
      case _ =>
    }
  }

  /** And no explainer step touches the reader, the dialogs or their responses. */
  lemma ApprovalsIgnoreExplainer(s: State, a: Action, s': State)
    requires IsFdaStep(a) && Apply(s, a) == Some(s')
    ensures s'.reader == s.reader && s'.requests == s.requests && s'.dialogs == s.dialogs
    ensures Approvals(s'.wire) == Approvals(s.wire)
  {
    hide Approvals, FdaCount, ReaderStep, ApprovalStep;
    if s'.wire != s.wire {
      WireAppend(s.wire, s'.wire[|s.wire|], 0);
      assert s'.wire == s.wire + [s'.wire[|s.wire|]];
    }
  }
}
