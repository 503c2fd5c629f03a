/** What the daemon decides about an event: in which case its row says "approved", "rejected" or "failed". */
module TurnOutcome {
  import opened Evm
  import opened Store
  import opened Checker
  import opened Pipeline
  import opened Service
  import opened Resume

  /** The act is the check objecting to the event in hand. */
  predicate Objects(e: Env, s: Sys, act: Act) {
    match (act, s.worker)
    case (CheckGlobal(f), Checking(ev)) =>
      ev.amount == 0 || ev.user == ZERO || GlobalVerdict(e.cfg, s.tables.log, ev.token, ev.amount, s.clock, f).Some?
    case (CheckUser(f), CheckingUser(ev, _)) =>
      UserVerdict(e.cfg, s.tables.log, ev.user, ev.token, ev.amount, s.clock, f).Some?
    case _ => false
  }

  /** The act is the end of a wait: with a receipt of the rejection, or with a successful one of the finalization. */
  predicate GetsReceipt(s: Sys, act: Act, finalize: bool) {
    match (act, s.worker)
    case (AwaitFinalize(true), AwaitingFinalize(_, _, _, tx)) =>
      finalize && tx < |s.sent| && s.sent[tx].receipt.Some? && s.sent[tx].receipt.value.succeeded
    case (AwaitReject(true), AwaitingReject(_, tx)) =>
      !finalize && tx < |s.sent| && s.sent[tx].receipt.Some?
    case _ => false
  }

  /** Somewhere along the path the check objects. */
  predicate Objected(e: Env, s: Sys, acts: seq<Act>)
    decreases |acts|
  {
    acts != [] && Step(e, s, acts[0]).Some?
    && (Objects(e, s, acts[0]) || Objected(e, Step(e, s, acts[0]).value, acts[1..]))
  }

  /** Somewhere along the path such a receipt is got. */
  predicate GotReceipt(e: Env, s: Sys, acts: seq<Act>, finalize: bool)
    decreases |acts|
  {
    acts != [] && Step(e, s, acts[0]).Some?
    && (GetsReceipt(s, acts[0], finalize) || GotReceipt(e, Step(e, s, acts[0]).value, acts[1..], finalize))
  }

  /** What is settled already where the worker stands: that the check has objected, or that a receipt has been got. */
  predicate HasObjected(w: Worker) {
    w.Blocked? || w.AwaitingReject? || (w.Deciding? && w.decision == Rejected)
  }

  predicate HasReceipt(w: Worker, finalize: bool) {
    if finalize then w.Mined? || w.Stamped? || (w.Deciding? && w.decision == Approved)
    else w.Deciding? && w.decision == Rejected
  }

  /** The tables after the decision. */
  ghost predicate Decides(t: Tables, s': Sys, ev: Event, o: Oracle, d: Decision) {
    SameBook(s'.tables, EventRecorded(t, ToDecisionRow(ev, d), o.recordFails))
  }

  ghost predicate Settles(e: Env, t: Tables, s: Sys, acts: seq<Act>, s': Sys, ev: Event, o: Oracle, d: Decision) {
    && Decides(t, s', ev, o, d)
    && (d == Approved <==> HasReceipt(s.worker, true) || GotReceipt(e, s, acts, true))
    && (d == Rejected <==> HasReceipt(s.worker, false) || GotReceipt(e, s, acts, false))
    && (d == Rejected ==> HasObjected(s.worker) || Objected(e, s, acts))
    && (d == Approved ==> !HasObjected(s.worker) && !Objected(e, s, acts))
  }

  /** After the end of a turn nothing is decided any more. */
  lemma {:induction false} IdleStays(e: Env, s: Sys, acts: seq<Act>, o: Oracle)
    requires s.worker.Idle? && RunFrom(e, s, acts).Some? && forall i :: 0 <= i < |acts| ==> InTurn(o, acts[i])
    ensures RunFrom(e, s, acts).value.tables == s.tables
    ensures !Objected(e, s, acts) && !GotReceipt(e, s, acts, true) && !GotReceipt(e, s, acts, false)
    decreases |acts|
  {
    if acts != [] {
      assert InTurn(o, acts[0]);
      IdleStays(e, Step(e, s, acts[0]).value, acts[1..], o);
    }
  }

  /** What one step within a turn does to what is settled. */
  lemma StepSettles(e: Env, s: Sys, act: Act, ev: Event, o: Oracle)
    requires !s.worker.Idle? && s.worker.ev == ev && InTurn(o, act) && Step(e, s, act).Some? && !act.RecordDecision?
    ensures var s' := Step(e, s, act).value;
      && !s'.worker.Idle? && s'.worker.ev == ev && SameBook(s'.tables, s.tables)
      && (HasReceipt(s'.worker, true) <==> HasReceipt(s.worker, true) || GetsReceipt(s, act, true))
      && (HasReceipt(s'.worker, false) <==> HasReceipt(s.worker, false) || GetsReceipt(s, act, false))
      && (HasObjected(s'.worker) ==> HasObjected(s.worker) || Objects(e, s, act))
      && (Objects(e, s, act) ==> HasObjected(s'.worker))
      && (HasObjected(s.worker) ==>
            HasObjected(s'.worker) || (s'.worker.Deciding? && s'.worker.decision == Failed))
      && (s.worker.Deciding? ==> s'.worker == s.worker)
  {
  }

  lemma {:induction false} PathDecides(e: Env, s: Sys, acts: seq<Act>, ev: Event, o: Oracle) returns (d: Decision)
    requires !s.worker.Idle? && s.worker.ev == ev && RunFrom(e, s, acts).Some? && RunFrom(e, s, acts).value.worker.Idle?
    requires forall i :: 0 <= i < |acts| ==> InTurn(o, acts[i])
    ensures Settles(e, s.tables, s, acts, RunFrom(e, s, acts).value, ev, o, d)
    ensures s.worker.Deciding? ==> d == s.worker.decision
    decreases |acts|
  {
    assert acts != [] && InTurn(o, acts[0]);
    var next := Step(e, s, acts[0]).value;
    if acts[0].RecordDecision? {
      d := s.worker.decision;
      IdleStays(e, next, acts[1..], o);
    } else {
      StepSettles(e, s, acts[0], ev, o);
      d := PathDecides(e, next, acts[1..], ev, o);
      assert Decides(s.tables, RunFrom(e, s, acts).value, ev, o, d);
    }
  }

  /** The decision. A turn that comes to its end, about an event it does not pass over, records exactly one decision (if
      the database allows): "approved" exactly if it got a successful receipt of its finalization, "rejected" exactly
      if it got a receipt of its rejection, else "failed"; it rejects only what the check objected to, and approves
      only what it did not object to. */
  lemma TurnDecides(e: Env, s: Sys, turn: Turn) returns (d: Decision)
    requires s.worker.Idle? && HandlesOne(turn.acts, turn.ev, turn.o) && !Skips(s.tables, turn.ev, turn.o)
    requires RunFrom(e, s, turn.acts).Some? && RunFrom(e, s, turn.acts).value.worker.Idle?
    ensures var s' := RunFrom(e, s, turn.acts).value;
      && SameBook(s'.tables, EventRecorded(s.tables, ToDecisionRow(turn.ev, d), turn.o.recordFails))
      && (d == Approved <==> GotReceipt(e, s, turn.acts, true))
      && (d == Rejected <==> GotReceipt(e, s, turn.acts, false))
      && (d == Rejected ==> Objected(e, s, turn.acts))
      && (d == Approved ==> !Objected(e, s, turn.acts))
  {
    var next := Step(e, s, turn.acts[0]).value;
    assert next == s.(worker := Checking(turn.ev));
    d := PathDecides(e, next, turn.acts[1..], turn.ev, turn.o);
  }
}
