/** The resident approval helper: `crates/cache-warden-approver/src/main.rs`.

    The helper is a state machine over the atomic steps of its threads: the
    serial reader, the finalizers that race for a dialog's take-once slot (the
    biometric completion, the Cancel button, the closing window, the timer), and
    the separate explainer window that shares the writer. Taking a slot, writing
    a response and signalling the reader are three steps, and any step of any
    thread may come between them. */
module Approver {
  import opened Wrappers

  const WIRE_VERSION: nat := 2

  datatype Request = Request(id: string, timeout: nat)

  /** Who finalizes a dialog. */
  datatype Site = Completion(ok: bool) | CancelButton | WindowClose | Timer

  datatype Outcome = Approved | BiometricFailed | Cancelled | Timeout

  datatype Response =
    | ApproveResponse(id: string, outcome: Outcome, biometric: bool)
    | FdaResponse(id: string, origin: nat, granted: bool)

  function OutcomeOf(site: Site): Outcome {
    match site
    case Completion(ok) => if ok then Approved else BiometricFailed
    case CancelButton => Cancelled
    case WindowClose => Cancelled
    case Timer => Timeout
  }

  function Reply(id: string, site: Site): Response {
    ApproveResponse(id, OutcomeOf(site), site.Completion?)
  }

  /** What the slot holds: whom to answer, and the channel to signal. */
  datatype Pending = Pending(id: string, channel: nat)

  /** A finalizer that won the slot and has not signalled yet. */
  datatype Holding = Holding(pending: Pending, site: Site, wrote: bool)

  datatype TimerState = NotArmed | Armed | HandlesTaken | Spent

  /** One accepted request's dialog, from queued closure to answered. `sent` and
      `received` count the messages of its one-place channel; `winner` records
      who took the slot. */
  datatype Dialog = Dialog(
    shown: bool,
    slot: Option<Pending>,
    hand: Option<Holding>,
    winner: Option<Site>,
    handles: bool,
    timer: TimerState,
    sent: nat,
    received: nat)

  const QUEUED: Dialog := Dialog(false, None, None, None, false, NotArmed, 0, 0)

  datatype Reader = Reading | Waiting(dialog: nat) | Stopped

  datatype FdaPhase =
    | FdaQueued
    | FdaIgnored
    | FdaLive(granted: bool, answered: bool)
    | FdaGone(sawGrant: bool)

  datatype Fda = Fda(id: string, phase: FdaPhase, polling: bool)

  datatype State = State(
    reader: Reader,
    requests: seq<Request>,
    dialogs: seq<Dialog>,
    explainers: seq<Fda>,
    windowOpen: bool,
    wire: seq<Response>,
    exited: bool)

  const INIT: State := State(Reading, [], [], [], false, [], false)

  datatype Action =
    // the reader thread
    | ReadApprove(v: nat, id: string, timeout: nat)
    | ReadFda(v: nat, id: string)
    | ReadUndecodable
    | ReadEnd
    | Receive
    | ReceiveFails
    // the approval dialog
    | Show(k: nat)
    | Arm(k: nat)
    | TakePending(k: nat, site: Site)
    | TimerFires(k: nat)
    | TimerTakes(k: nat)
    | Write(k: nat)
    | Signal(k: nat)
    | Disarm(k: nat)
    // the explainer
    | ShowFda(j: nat, probe: bool)
    | Refresh(j: nat, probe: bool)
    | Poll(j: nat, probe: bool)
    | CloseFda(j: nat)
    // the process
    | Exit

  // ---- the reader ----

  /** Whether some party still holds the sending end of channel `k`. */
  predicate SenderAlive(s: State, k: nat)
    requires k < |s.dialogs|
  {
    var d := s.dialogs[k];
    || !d.shown
    || (d.slot.Some? && d.slot.value.channel == k)
    || (d.hand.Some? && d.hand.value.pending.channel == k)
  }

  function ReaderStep(s: State, a: Action): Option<State> {
    match a
    case ReadApprove(v, id, timeout) =>
      if s.reader != Reading then None
      else if v != WIRE_VERSION then Some(s.(reader := Stopped))
      else Some(s.(reader := Waiting(|s.dialogs|),
                   requests := s.requests + [Request(id, timeout)],
                   dialogs := s.dialogs + [QUEUED]))
    case ReadFda(v, id) =>
      if s.reader != Reading then None
      else if v != WIRE_VERSION then Some(s.(reader := Stopped))
      else Some(s.(explainers := s.explainers + [Fda(id, FdaQueued, false)]))
    case ReadUndecodable => if s.reader != Reading then None else Some(s.(reader := Stopped))
    case ReadEnd => if s.reader != Reading then None else Some(s.(reader := Stopped))
    case Receive =>
      if s.reader.Waiting? && s.reader.dialog < |s.dialogs| then
        var k := s.reader.dialog;
        var d := s.dialogs[k];
        if d.received < d.sent then
          Some(s.(reader := Reading, dialogs := s.dialogs[k := d.(received := d.received + 1)]))
        else None
      else None
    case ReceiveFails =>
      if s.reader.Waiting? && s.reader.dialog < |s.dialogs| then
        var d := s.dialogs[s.reader.dialog];
        if d.received == d.sent && !SenderAlive(s, s.reader.dialog) then Some(s.(reader := Stopped)) else None
      else None
    case _ => None
  }

  // ---- the approval dialog ----

  /** One step on dialog `d` of `request`; `k` is the channel made for it. */
  function DialogStep(d: Dialog, request: Request, k: nat, a: Action): Option<Dialog> {
    match a
    case Show(_) =>
      if d.shown then None else Some(d.(shown := true, slot := Some(Pending(request.id, k)), handles := true))
    case Arm(_) =>
      if d.shown && d.timer == NotArmed && request.timeout != 0 then Some(d.(timer := Armed)) else None
    case TakePending(_, site) =>
      if !d.shown || site == Timer then None
      else if d.slot.None? then Some(d)
      else Some(d.(slot := None, hand := Some(Holding(d.slot.value, site, false)), winner := Some(site)))
    case TimerFires(_) =>
      if d.timer != Armed then None
      else if d.handles then Some(d.(timer := HandlesTaken, handles := false))
      else Some(d.(timer := Spent))
    case TimerTakes(_) =>
      if d.timer != HandlesTaken then None
      else if d.slot.None? then Some(d.(timer := Spent))
      else Some(d.(timer := Spent, slot := None,
                   hand := Some(Holding(d.slot.value, Timer, false)), winner := Some(Timer)))
    case Disarm(_) =>
      if d.shown && d.slot.None? then Some(d.(handles := false)) else None
    case _ => None
  }

  function ApprovalStep(s: State, k: nat, a: Action): Option<State> {
    if k >= |s.dialogs| || k >= |s.requests| then None
    else
      var d := s.dialogs[k];
      match a
      case Write(_) =>
        if d.hand.Some? && !d.hand.value.wrote then
          var h := d.hand.value;
          Some(s.(wire := s.wire + [Reply(h.pending.id, h.site)],
                  dialogs := s.dialogs[k := d.(hand := Some(h.(wrote := true)))]))
        else None
      case Signal(_) =>
        if d.hand.Some? && d.hand.value.wrote && d.hand.value.pending.channel < |s.dialogs| then
          var c := d.hand.value.pending.channel;
          var released := s.dialogs[k := d.(hand := None)];
          Some(s.(dialogs := released[c := released[c].(sent := released[c].sent + 1)]))
        else None
      case _ =>
        match DialogStep(d, s.requests[k], k, a)
        case None => None
        case Some(d') => Some(s.(dialogs := s.dialogs[k := d']))
  }

  // ---- the explainer window ----

  /** Re-probe; a fresh grant is recorded and, if nothing was sent, answered. */
  function RefreshFda(s: State, j: nat, probe: bool): State
    requires j < |s.explainers|
  {
    var f := s.explainers[j];
    if !f.phase.FdaLive? || f.phase.granted || !probe then s
    else
      var live := f.(phase := FdaLive(true, true));
      var s' := s.(explainers := s.explainers[j := live]);
      if f.phase.answered then s' else s'.(wire := s.wire + [FdaResponse(f.id, j, true)])
  }

  function FdaStep(s: State, j: nat, a: Action): Option<State> {
    if j >= |s.explainers| then None
    else
      var f := s.explainers[j];
      match a
      case ShowFda(_, probe) =>
        if f.phase != FdaQueued then None
        else if s.windowOpen then Some(s.(explainers := s.explainers[j := f.(phase := FdaIgnored)]))
        else
          var s' := s.(windowOpen := true,
                       explainers := s.explainers[j := Fda(f.id, FdaLive(probe, probe), !probe)]);
          Some(if probe then s'.(wire := s.wire + [FdaResponse(f.id, j, true)]) else s')
      case Refresh(_, probe) => Some(RefreshFda(s, j, probe))
      case Poll(_, probe) =>
        if !f.polling then None
        else if !f.phase.FdaLive? || f.phase.granted then
          Some(s.(explainers := s.explainers[j := f.(polling := false)]))
        else Some(RefreshFda(s, j, probe))
      case CloseFda(_) =>
        if !f.phase.FdaLive? then None
        else
          var s' := s.(windowOpen := false,
                       explainers := s.explainers[j := f.(phase := FdaGone(f.phase.granted))]);
          Some(if f.phase.answered then s' else s'.(wire := s.wire + [FdaResponse(f.id, j, false)]))
      case _ => None
  }

  function Apply(s: State, a: Action): Option<State> {
    if s.exited then None
    else
      match a
      case Exit => if s.reader == Stopped then Some(s.(exited := true)) else None
      case ShowFda(j, _) => FdaStep(s, j, a)
      case Refresh(j, _) => FdaStep(s, j, a)
      case Poll(j, _) => FdaStep(s, j, a)
      case CloseFda(j) => FdaStep(s, j, a)
      case Show(k) => ApprovalStep(s, k, a)
      case Arm(k) => ApprovalStep(s, k, a)
      case TakePending(k, _) => ApprovalStep(s, k, a)
      case TimerFires(k) => ApprovalStep(s, k, a)
      case TimerTakes(k) => ApprovalStep(s, k, a)
      case Write(k) => ApprovalStep(s, k, a)
      case Signal(k) => ApprovalStep(s, k, a)
      case Disarm(k) => ApprovalStep(s, k, a)
      case _ => ReaderStep(s, a)
  }

  /** The state after a whole interleaving, if every step of it was enabled. */
  function Run(s: State, run: seq<Action>): Option<State>
    decreases |run|
  {
    if run == [] then Some(s)
    else
      match Apply(s, run[0])
      case None => None
      case Some(s') => Run(s', run[1..])
  }

  // ---- the invariant ----

  predicate Answered(d: Dialog) {
    (d.hand.Some? && d.hand.value.wrote) || d.sent > 0
  }

  predicate DialogOk(d: Dialog, request: Request, k: nat) {
    && (!d.shown ==> d == QUEUED)
    && (d.slot.Some? ==> d.slot.value == Pending(request.id, k) && d.hand.None? && d.winner.None? && d.sent == 0)
    && (d.hand.Some? ==>
          d.hand.value.pending == Pending(request.id, k) && d.winner == Some(d.hand.value.site) && d.sent == 0)
    && (d.shown && d.slot.None? && d.hand.None? ==> d.sent == 1 && d.winner.Some?)
    && d.received <= d.sent <= 1
    && (d.timer != NotArmed || d.winner == Some(Timer) ==> request.timeout > 0)
    && (d.slot.Some? ==> d.timer == HandlesTaken || (d.handles && (d.timer == NotArmed || d.timer == Armed)))
  }

  ghost predicate DialogsOk(requests: seq<Request>, dialogs: seq<Dialog>) {
    && |requests| == |dialogs|
    && forall k :: 0 <= k < |dialogs| ==> DialogOk(dialogs[k], requests[k], k)
  }

  /** Only the newest dialog can be unfinished, and the reader waits for it. */
  ghost predicate SerialOk(reader: Reader, dialogs: seq<Dialog>) {
    && (forall k :: 0 <= k < |dialogs| - 1 ==> dialogs[k].received == 1)
    && match reader
       case Waiting(k) => k + 1 == |dialogs| && dialogs[k].received == 0
       case _ => dialogs != [] ==> dialogs[|dialogs| - 1].received == 1
  }

  /** The approval responses on the wire, in order. */
  function Approvals(wire: seq<Response>): seq<Response> {
    if wire == [] then []
    else
      var last := wire[|wire| - 1];
      Approvals(wire[..|wire| - 1]) + if last.ApproveResponse? then [last] else []
  }

  /** What should be on the wire: the winner's outcome for every answered dialog. */
  function Owed(requests: seq<Request>, dialogs: seq<Dialog>): seq<Response>
    requires |requests| == |dialogs|
  {
    if dialogs == [] then []
    else
      var last := |dialogs| - 1;
      var d := dialogs[last];
      Owed(requests[..last], dialogs[..last])
      + if Answered(d) && d.winner.Some? then [Reply(requests[last].id, d.winner.value)] else []
  }

  ghost predicate ApprovalsOk(requests: seq<Request>, dialogs: seq<Dialog>, wire: seq<Response>) {
    |requests| == |dialogs| && Approvals(wire) == Owed(requests, dialogs)
  }

  /** How many responses on the wire answer explainer request `j`. */
  function FdaCount(wire: seq<Response>, j: nat): nat {
    if wire == [] then 0
    else
      var last := wire[|wire| - 1];
      FdaCount(wire[..|wire| - 1], j) + if last.FdaResponse? && last.origin == j then 1 else 0
  }

  predicate FdaAnswered(f: Fda) {
    match f.phase
    case FdaLive(_, answered) => answered
    case FdaGone(_) => true
    case _ => false
  }

  /** Explainer `j` has as many responses on the wire as it was answered. */
  ghost predicate FdaCounted(explainers: seq<Fda>, wire: seq<Response>) {
    forall j: nat :: FdaCount(wire, j) == if j < |explainers| && FdaAnswered(explainers[j]) then 1 else 0
  }

  ghost predicate FdaWindows(explainers: seq<Fda>, windowOpen: bool) {
    && (forall j :: 0 <= j < |explainers| && explainers[j].phase.FdaLive? ==>
          windowOpen && explainers[j].phase.granted == explainers[j].phase.answered)
    && (forall i, j :: 0 <= i < j < |explainers| ==>
          !(explainers[i].phase.FdaLive? && explainers[j].phase.FdaLive?))
    && (windowOpen ==> exists j :: 0 <= j < |explainers| && explainers[j].phase.FdaLive?)
  }

  /** What a response says is what its explainer saw. */
  predicate FdaReported(explainers: seq<Fda>, r: Response) {
    r.FdaResponse? ==>
      && r.origin < |explainers| && r.id == explainers[r.origin].id
      && match explainers[r.origin].phase
         case FdaLive(granted, _) => r.granted == granted
         case FdaGone(sawGrant) => r.granted == sawGrant
         case _ => false
  }

  ghost predicate FdaOk(explainers: seq<Fda>, windowOpen: bool, wire: seq<Response>) {
    && FdaCounted(explainers, wire)
    && FdaWindows(explainers, windowOpen)
    && forall r :: r in wire ==> FdaReported(explainers, r)
  }

  ghost predicate Inv(s: State) {
    && DialogsOk(s.requests, s.dialogs)
    && SerialOk(s.reader, s.dialogs)
    && ApprovalsOk(s.requests, s.dialogs, s.wire)
    && FdaOk(s.explainers, s.windowOpen, s.wire)
  }

  lemma WireAppend(w: seq<Response>, r: Response, j: nat)
    ensures Approvals(w + [r]) == Approvals(w) + if r.ApproveResponse? then [r] else []
    ensures FdaCount(w + [r], j) == FdaCount(w, j) + if r.FdaResponse? && r.origin == j then 1 else 0
  {
    assert (w + [r])[..|w|] == w;
  }

  lemma {:induction false} OwedFrame(requests: seq<Request>, a: seq<Dialog>, b: seq<Dialog>)
    requires |requests| == |a| == |b|
    requires forall k :: 0 <= k < |a| ==>
      Answered(a[k]) == Answered(b[k]) && (Answered(a[k]) ==> a[k].winner == b[k].winner)
    ensures Owed(requests, a) == Owed(requests, b)
  {
    if a != [] {
      OwedFrame(requests[..|a| - 1], a[..|a| - 1], b[..|a| - 1]);
    }
  }

  lemma OwedAppend(requests: seq<Request>, ds: seq<Dialog>, r: Request, d: Dialog)
    requires |requests| == |ds|
    ensures Owed(requests + [r], ds + [d])
         == Owed(requests, ds) + if Answered(d) && d.winner.Some? then [Reply(r.id, d.winner.value)] else []
  {
    assert (requests + [r])[..|requests|] == requests && (ds + [d])[..|ds|] == ds;
  }

  /** A step inside one dialog keeps it well-formed and answers nothing. */
  lemma DialogStepOk(d: Dialog, request: Request, k: nat, a: Action, d': Dialog)
    requires DialogOk(d, request, k) && DialogStep(d, request, k, a) == Some(d')
    ensures DialogOk(d', request, k)
    ensures d'.received == d.received && d'.sent == d.sent && Answered(d') == Answered(d)
    ensures Answered(d) ==> d'.winner == d.winner
  {
  }

  lemma DialogsUpdate(s: State, k: nat, d: Dialog)
    requires Inv(s) && k < |s.dialogs| && DialogOk(d, s.requests[k], k)
    requires d.received == s.dialogs[k].received && Answered(d) == Answered(s.dialogs[k])
    requires Answered(d) ==> d.winner == s.dialogs[k].winner
    ensures Inv(s.(dialogs := s.dialogs[k := d]))
  {
    hide FdaOk, DialogOk, Answered, Approvals, Owed;
    OwedFrame(s.requests, s.dialogs, s.dialogs[k := d]);
  }

  lemma DialogInv(s: State, k: nat, a: Action, s': State)
    requires Inv(s) && k < |s.dialogs|
    requires DialogStep(s.dialogs[k], s.requests[k], k, a).Some?
    requires s' == s.(dialogs := s.dialogs[k := DialogStep(s.dialogs[k], s.requests[k], k, a).value])
    ensures Inv(s')
  {
    hide FdaOk, Answered, DialogStep;
    var d := DialogStep(s.dialogs[k], s.requests[k], k, a).value;
    DialogStepOk(s.dialogs[k], s.requests[k], k, a, d);
    DialogsUpdate(s, k, d);
  }

  /** The dialog a finalizer still holds is the newest one. */
  lemma HeldIsNewest(s: State, k: nat)
    requires Inv(s) && k < |s.dialogs| && s.dialogs[k].sent == 0
    ensures k + 1 == |s.dialogs|
  {
    assert DialogOk(s.dialogs[k], s.requests[k], k);
  }

  lemma OwedAnswer(requests: seq<Request>, ds: seq<Dialog>, d: Dialog)
    requires |requests| == |ds| && ds != [] && !Answered(ds[|ds| - 1]) && Answered(d) && d.winner.Some?
    ensures Owed(requests, ds[|ds| - 1 := d])
         == Owed(requests, ds) + [Reply(requests[|ds| - 1].id, d.winner.value)]
  {
    assert ds[|ds| - 1 := d][..|ds| - 1] == ds[..|ds| - 1];
  }

  /** The dialog after its holder has written. */
  function Written(d: Dialog): Dialog
    requires d.hand.Some?
  {
    d.(hand := Some(d.hand.value.(wrote := true)))
  }

  lemma WriteStep(s: State, k: nat, s': State)
    requires DialogsOk(s.requests, s.dialogs) && ApprovalStep(s, k, Write(k)) == Some(s')
    ensures k < |s.dialogs| && s.dialogs[k].hand.Some? && s.dialogs[k].winner.Some? && s.dialogs[k].sent == 0
    ensures var d := s.dialogs[k];
            && !Answered(d) && Answered(Written(d)) && Written(d).winner == d.winner
            && Written(d).received == d.received && DialogOk(Written(d), s.requests[k], k)
            && s' == s.(wire := s.wire + [Reply(s.requests[k].id, d.winner.value)],
                        dialogs := s.dialogs[k := Written(d)])
  {
    assert DialogOk(s.dialogs[k], s.requests[k], k);
  }

  lemma WriteAnswers(s: State, d: Dialog)
    requires ApprovalsOk(s.requests, s.dialogs, s.wire) && s.dialogs != []
    requires !Answered(s.dialogs[|s.dialogs| - 1]) && Answered(d) && d.winner.Some?
    ensures ApprovalsOk(s.requests, s.dialogs[|s.dialogs| - 1 := d],
                        s.wire + [Reply(s.requests[|s.dialogs| - 1].id, d.winner.value)])
  {
    hide Approvals, Owed, Answered;
    WireAppend(s.wire, Reply(s.requests[|s.dialogs| - 1].id, d.winner.value), 0);
    OwedAnswer(s.requests, s.dialogs, d);
  }

  lemma WriteInv(s: State, k: nat, s': State)
    requires Inv(s) && ApprovalStep(s, k, Write(k)) == Some(s')
    ensures Inv(s')
  {
    hide FdaOk, Owed, Approvals, FdaCount, ApprovalStep, DialogOk, Answered, ApprovalsOk, Written;
    WriteStep(s, k, s');
    HeldIsNewest(s, k);
    WriteAnswers(s, Written(s.dialogs[k]));
    FdaUntouched(s.explainers, s.windowOpen, s.wire, Reply(s.requests[k].id, s.dialogs[k].winner.value));
  }

  lemma FdaUntouched(xs: seq<Fda>, open: bool, wire: seq<Response>, r: Response)
    requires FdaOk(xs, open, wire) && r.ApproveResponse?
    ensures FdaOk(xs, open, wire + [r])
  {
    forall j: nat ensures FdaCount(wire + [r], j) == FdaCount(wire, j) {
      WireAppend(wire, r, j);
    }
  }

  lemma SignalInv(s: State, k: nat, s': State)
    requires Inv(s) && ApprovalStep(s, k, Signal(k)) == Some(s')
    ensures Inv(s')
  {
    assert DialogOk(s.dialogs[k], s.requests[k], k);
    var d := s.dialogs[k].(hand := None, sent := 1);
    assert s'.dialogs == s.dialogs[k := d];
    DialogsUpdate(s, k, d);
  }

  lemma ReaderInv(s: State, a: Action, s': State)
    requires Inv(s) && ReaderStep(s, a) == Some(s')
    ensures Inv(s')
  {
    match a
    case ReadApprove(v, id, timeout) =>
      if v == WIRE_VERSION {
        RequestArrives(s, Request(id, timeout));
      }
    case ReadFda(v, id) =>
      if v == WIRE_VERSION {
        ExplainerArrives(s, id);
      }
    case Receive => ReceiveInv(s);
    case ReceiveFails => SenderHeld(s);
    case _ =>
  }

  lemma RequestArrives(s: State, r: Request)
    requires Inv(s) && s.reader == Reading
    ensures Inv(s.(reader := Waiting(|s.dialogs|), requests := s.requests + [r], dialogs := s.dialogs + [QUEUED]))
  {
    hide FdaOk, Owed, Approvals;
    OwedAppend(s.requests, s.dialogs, r, QUEUED);
  }

  lemma ExplainerArrives(s: State, id: string)
    requires FdaOk(s.explainers, s.windowOpen, s.wire)
    ensures FdaOk(s.explainers + [Fda(id, FdaQueued, false)], s.windowOpen, s.wire)
  {
    if s.windowOpen {
      var j :| 0 <= j < |s.explainers| && s.explainers[j].phase.FdaLive?;
      assert (s.explainers + [Fda(id, FdaQueued, false)])[j].phase.FdaLive?;
    }
  }

  lemma ReceiveInv(s: State)
    requires Inv(s) && ReaderStep(s, Receive).Some?
    ensures Inv(ReaderStep(s, Receive).value)
  {
    hide FdaOk, Owed, Approvals;
    var k := s.reader.dialog;
    assert DialogOk(s.dialogs[k], s.requests[k], k);
    OwedFrame(s.requests, s.dialogs, ReaderStep(s, Receive).value.dialogs);
  }

  /** While the reader waits, somebody can still signal it, or already has. */
  lemma SenderHeld(s: State)
    requires Inv(s) && s.reader.Waiting?
    ensures var k := s.reader.dialog; k < |s.dialogs| && (s.dialogs[k].sent == 1 || SenderAlive(s, k))
  {
    var k := s.reader.dialog;
    assert DialogOk(s.dialogs[k], s.requests[k], k);
  }

  lemma FdaWriteCounted(xs: seq<Fda>, wire: seq<Response>, j: nat, f: Fda, r: Response)
    requires FdaCounted(xs, wire) && j < |xs| && !FdaAnswered(xs[j]) && FdaAnswered(f)
    requires r.FdaResponse? && r.origin == j
    ensures FdaCounted(xs[j := f], wire + [r])
  {
    hide FdaCount, FdaAnswered;
    forall i: nat
      ensures FdaCount(wire + [r], i) == if i < |xs| && FdaAnswered(xs[j := f][i]) then 1 else 0
    {
      WireAppend(wire, r, i);
    }
  }

  lemma FdaWriteReported(xs: seq<Fda>, wire: seq<Response>, j: nat, f: Fda, q: Response)
    requires FdaCounted(xs, wire) && j < |xs| && !FdaAnswered(xs[j])
    requires q in wire && FdaReported(xs, q)
    ensures FdaReported(xs[j := f], q)
  {
    hide FdaAnswered, FdaCount;
    if q.FdaResponse? {
      CountedIfPresent(wire, q);
    }
  }

  /** Explainer `j`, which is live or the first to open, becomes `f`. */
  lemma FdaWindowChange(xs: seq<Fda>, was: bool, j: nat, f: Fda, open: bool)
    requires FdaWindows(xs, was) && j < |xs|
    requires match f.phase
             case FdaLive(granted, answered) =>
               open && granted == answered && (xs[j].phase.FdaLive? || !was)
             case FdaGone(sawGrant) =>
               if xs[j].phase.FdaLive? then !open else open == was
             case _ => !xs[j].phase.FdaLive? && open == was
    ensures FdaWindows(xs[j := f], open)
  {
    assert xs[j := f][j] == f;
    if was && open {
      var i :| 0 <= i < |xs| && xs[i].phase.FdaLive?;
      assert xs[j := f][i].phase.FdaLive?;
    }
  }

  /** Answering explainer `j` for the first time. */
  lemma FdaWrite(xs: seq<Fda>, was: bool, wire: seq<Response>, j: nat, f: Fda, open: bool, r: Response)
    requires FdaOk(xs, was, wire) && j < |xs|
    requires !FdaAnswered(xs[j]) && FdaAnswered(f)
    requires r.FdaResponse? && r.id == xs[j].id == f.id && r.origin == j
    requires match f.phase
             case FdaLive(granted, answered) =>
               r.granted && granted && answered && open && (xs[j].phase.FdaLive? || !was)
             case FdaGone(sawGrant) => r.granted == sawGrant && xs[j].phase.FdaLive? && !open
             case _ => false
    ensures FdaOk(xs[j := f], open, wire + [r])
  {
    assert FdaReported(xs[j := f], r);
    FdaWindowChange(xs, was, j, f, open);
    hide FdaCounted, FdaWindows, FdaReported, FdaAnswered;
    FdaWriteCounted(xs, wire, j, f, r);
    forall q | q in wire + [r] ensures FdaReported(xs[j := f], q) {
      if q in wire {
        FdaWriteReported(xs, wire, j, f, q);
      }
    }
  }

  lemma {:induction false} CountedIfPresent(w: seq<Response>, r: Response)
    requires r in w && r.FdaResponse?
    ensures FdaCount(w, r.origin) > 0
  {
    var last := |w| - 1;
    if w[last] != r {
      assert w == w[..last] + [w[last]];
      CountedIfPresent(w[..last], r);
    }
  }

  /** Changing explainer `j` without a response. */
  lemma FdaQuiet(xs: seq<Fda>, was: bool, wire: seq<Response>, j: nat, f: Fda, open: bool)
    requires FdaOk(xs, was, wire) && j < |xs|
    requires FdaAnswered(f) == FdaAnswered(xs[j]) && f.id == xs[j].id
    requires match f.phase
             case FdaLive(granted, answered) =>
               open && granted == answered && (xs[j].phase == f.phase || (xs[j].phase.FdaQueued? && !was))
             case FdaGone(sawGrant) =>
               || (xs[j].phase == f.phase && open == was)
               || (xs[j].phase.FdaLive? && xs[j].phase.granted == sawGrant && !open)
             case _ => !xs[j].phase.FdaLive? && open == was
    ensures FdaOk(xs[j := f], open, wire)
  {
    FdaWindowChange(xs, was, j, f, open);
    hide FdaWindows, FdaCount;
    forall r | r in wire ensures FdaReported(xs[j := f], r) {
      assert FdaReported(xs, r);
      if r.FdaResponse? && r.origin == j {
        CountedIfPresent(wire, r);
      }
    }
  }

  lemma ApprovalsQuiet(s: State, r: Response)
    requires ApprovalsOk(s.requests, s.dialogs, s.wire) && r.FdaResponse?
    ensures ApprovalsOk(s.requests, s.dialogs, s.wire + [r])
  {
    WireAppend(s.wire, r, 0);
  }

  lemma RefreshInv(s: State, j: nat, probe: bool)
    requires Inv(s) && j < |s.explainers|
    ensures Inv(RefreshFda(s, j, probe))
  {
    var f := s.explainers[j];
    if f.phase.FdaLive? && !f.phase.granted && probe {
      var r := FdaResponse(f.id, j, true);
      FdaWrite(s.explainers, s.windowOpen, s.wire, j, f.(phase := FdaLive(true, true)), true, r);
      ApprovalsQuiet(s, r);
    }
  }

  lemma FdaInv(s: State, j: nat, a: Action, s': State)
    requires Inv(s) && FdaStep(s, j, a) == Some(s')
    ensures Inv(s')
  {
    var f := s.explainers[j];
    var xs := s.explainers;
    match a
    case ShowFda(_, probe) =>
      if s.windowOpen {
        FdaQuiet(xs, true, s.wire, j, f.(phase := FdaIgnored), true);
      } else if probe {
        FdaWrite(xs, false, s.wire, j, Fda(f.id, FdaLive(true, true), false), true, FdaResponse(f.id, j, true));
        ApprovalsQuiet(s, FdaResponse(f.id, j, true));
      } else {
        FdaQuiet(xs, false, s.wire, j, Fda(f.id, FdaLive(false, false), true), true);
      }
    case Refresh(_, probe) => RefreshInv(s, j, probe);
    case Poll(_, probe) =>
      if !f.phase.FdaLive? || f.phase.granted {
        FdaQuiet(xs, s.windowOpen, s.wire, j, f.(polling := false), s.windowOpen);
      } else {
        RefreshInv(s, j, probe);
      }
    case CloseFda(_) =>
      var gone := f.(phase := FdaGone(f.phase.granted));
      if f.phase.answered {
        FdaQuiet(xs, s.windowOpen, s.wire, j, gone, false);
      } else {
        FdaWrite(xs, s.windowOpen, s.wire, j, gone, false, FdaResponse(f.id, j, false));
        ApprovalsQuiet(s, FdaResponse(f.id, j, false));
      }
    case _ =>
  }

  lemma StepInv(s: State, a: Action, s': State)
    requires Inv(s) && Apply(s, a) == Some(s')
    ensures Inv(s')
  {
    hide Inv, ReaderStep, FdaStep, DialogStep;
    match a
    case Exit => ExitInv(s);
    case ShowFda(j, _) => FdaInv(s, j, a, s');
    case Refresh(j, _) => FdaInv(s, j, a, s');
    case Poll(j, _) => FdaInv(s, j, a, s');
    case CloseFda(j) => FdaInv(s, j, a, s');
    case Show(k) => DialogInv(s, k, a, s');
    case Arm(k) => DialogInv(s, k, a, s');
    case TakePending(k, _) => DialogInv(s, k, a, s');
    case TimerFires(k) => DialogInv(s, k, a, s');
    case TimerTakes(k) => DialogInv(s, k, a, s');
    case Disarm(k) => DialogInv(s, k, a, s');
    case Write(k) => WriteInv(s, k, s');
    case Signal(k) => SignalInv(s, k, s');
    case _ => ReaderInv(s, a, s');
  }

  lemma ExitInv(s: State)
    requires Inv(s)
    ensures Inv(s.(exited := true))
  {
  }

  lemma {:induction false} RunInv(s: State, run: seq<Action>, s': State)
    requires Inv(s) && Run(s, run) == Some(s')
    ensures Inv(s')
    decreases |run|
  {
    hide Inv, Apply;
    if run != [] {
      StepInv(s, run[0], Apply(s, run[0]).value);
      RunInv(Apply(s, run[0]).value, run[1..], s');
    }
  }
}
