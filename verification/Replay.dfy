/** Restarting from the stored cursor, when events come from ordered reconciliation: crashes at arbitrary points
    lose no event and duplicate no decision, exactly as long as no recording succeeds after one that failed. */
module Replay {
  import opened Evm
  import opened Store
  import opened Pipeline
  import opened Listener
  import opened PipelineOnce

  /** The event lies after the position in chain order. */
  predicate After(ev: Event, c: Cursor) {
    ev.blockNumber > c.blockNumber || (ev.blockNumber == c.blockNumber && ev.logIndex > c.logIndex)
  }

  predicate NotBefore(c: Cursor, d: Cursor) {
    c.blockNumber > d.blockNumber || (c.blockNumber == d.blockNumber && c.logIndex >= d.logIndex)
  }

  function PositionOf(ev: Event): Cursor {
    Cursor(ev.blockNumber, ev.logIndex)
  }

  /** The contract's logs: in chain order, each withdrawal started once, log indices of 32 bits. */
  ghost predicate ChainLogs(logs: seq<Event>) {
    && Ordered(logs)
    && (forall i, k :: 0 <= i < k < |logs| ==> logs[i].id != logs[k].id)
    && (forall i :: 0 <= i < |logs| ==> logs[i].logIndex < 0x1_0000_0000)
  }

  /** One event handled to its end: skipped if known, else decided; None when the decision was not recorded. */
  function HandleAs(t: Tables, ev: Event, d: Option<Decision>): Tables {
    if d.None? || HasEvent(t.events, ev.id) then t else EventRecorded(t, ToDecisionRow(ev, d.value), false)
  }

  type Bookkeeping = Event -> Option<Decision>

  function Handle(t: Tables, ev: Event, decide: Bookkeeping): Tables {
    HandleAs(t, ev, decide(ev))
  }

  function HandleAll(t: Tables, evs: seq<Event>, decide: Bookkeeping): Tables {
    if evs == [] then t else Handle(HandleAll(t, evs[..|evs| - 1], decide), evs[|evs| - 1], decide)
  }

  /** No recording succeeds after one that failed. */
  ghost predicate NoGap(evs: seq<Event>, decide: Bookkeeping) {
    forall i, k :: 0 <= i < k < |evs| && decide(evs[k]).Some? ==> decide(evs[i]).Some?
  }

  ghost predicate AllRecorded(evs: seq<Event>, decide: Bookkeeping) {
    forall i :: 0 <= i < |evs| ==> decide(evs[i]).Some?
  }

  /** The life of the daemon between two crashes: whether it can read its cursor, what the provider does, how far
      reconciliation gets, how many of the delivered events are handled to their end, and what is recorded. */
  datatype Session = Session(
    readFails: bool, current: Uint64, answer: (nat, nat, nat) -> Answer, patience: nat, handled: nat,
    decide: Bookkeeping)

  function JobOf(logs: seq<Event>, c: Cursor, x: Session): Job {
    Job(logs, x.current, c.blockNumber, c.logIndex, x.answer)
  }

  function Reconciled(logs: seq<Event>, c: Cursor, x: Session): Paging {
    Iterate(JobOf(logs, c, x), First(JobOf(logs, c, x)), x.patience)
  }

  /** The events sent to the worker from a start position; a zero block means that history is skipped. */
  function SentEvents(logs: seq<Event>, c: Cursor, x: Session): seq<Event> {
    if c.blockNumber == 0 then [] else Reconciled(logs, c, x).sent
  }

  /** The events this session handles to their end. */
  function HandledEvents(logs: seq<Event>, c: Cursor, x: Session): seq<Event> {
    var sent := SentEvents(logs, c, x);
    if x.handled < |sent| then sent[..x.handled] else sent
  }

  function AfterSession(logs: seq<Event>, t: Tables, x: Session): Tables {
    HandleAll(t, HandledEvents(logs, StartPosition(t, x.readFails), x), x.decide)
  }

  ghost predicate Reasonable(logs: seq<Event>, c: Cursor, x: Session) {
    NoWrap(JobOf(logs, c, x)) && WellBehaved(JobOf(logs, c, x))
  }

  /** The position the stored cursor stands for. */
  function Position(t: Tables): Cursor {
    ReadCursor(t.cursors, STREAM)
  }

  /** The ids that have a decision row. */
  function DecidedIds(t: Tables): set<Word> {
    set i | 0 <= i < |t.events| :: t.events[i].withdrawalId
  }

  ghost predicate NoneAhead(logs: seq<Event>, c: Cursor, known: set<Word>) {
    forall e :: e in logs && After(e, c) ==> e.id !in known
  }

  ghost predicate NoneMissing(logs: seq<Event>, base: Cursor, c: Cursor, known: set<Word>) {
    forall e :: e in logs && After(e, base) && !After(e, c) ==> e.id in known
  }

  /** Decisions are unique, and no event after the cursor has one. */
  ghost predicate Resumable(logs: seq<Event>, base: Cursor, t: Tables) {
    NotBefore(Position(t), base) && UniqueDecisions(t.events) && NoneAhead(logs, Position(t), DecidedIds(t))
  }

  /** Every event from `base` up to the cursor has a decision row. */
  ghost predicate Complete(logs: seq<Event>, base: Cursor, t: Tables) {
    NoneMissing(logs, base, Position(t), DecidedIds(t))
  }

  /** The cursor is a safe resume point: every event from `base` up to the cursor has its one decision row,
      and no event after the cursor has one. */
  ghost predicate SafePoint(logs: seq<Event>, base: Cursor, t: Tables) {
    Resumable(logs, base, t) && Complete(logs, base, t)
  }

  // ---- what reconciliation delivers ----

  lemma {:induction false} FetchMembers(logs: seq<Event>, lo: nat, hi: nat)
    ensures forall e :: e in Fetch(logs, lo, hi) <==> e in logs && lo <= e.blockNumber <= hi
    ensures Ordered(logs) ==> Ordered(Fetch(logs, lo, hi))
  {
    if logs != [] {
      var init, last := logs[..|logs| - 1], logs[|logs| - 1];
      FetchMembers(init, lo, hi);
      assert logs == init + [last];
      if Ordered(logs) {
        LastIsLatest(logs);
        OrderedSnoc(Fetch(init, lo, hi), last);
      }
    }
  }

  lemma {:induction false} UnseenMembers(j: Job, evs: seq<Event>)
    ensures forall e :: e in Unseen(j, evs) <==>
      e in evs && !(e.blockNumber == j.lastBlock && e.logIndex <= j.lastIndex)
    ensures Ordered(evs) ==> Ordered(Unseen(j, evs))
  {
    if evs != [] {
      var init, last := evs[..|evs| - 1], evs[|evs| - 1];
      UnseenMembers(j, init);
      assert evs == init + [last];
      if Ordered(evs) {
        LastIsLatest(evs);
        OrderedSnoc(Unseen(j, init), last);
      }
    }
  }

  lemma LastIsLatest(evs: seq<Event>)
    requires Ordered(evs) && evs != []
    ensures forall e :: e in evs[..|evs| - 1] ==> After(evs[|evs| - 1], PositionOf(e))
  {
  }

  lemma OrderedSnoc(evs: seq<Event>, last: Event)
    requires Ordered(evs) && forall e :: e in evs ==> After(last, PositionOf(e))
    ensures Ordered(evs + [last])
  {
    forall i | 0 <= i < |evs| ensures After(last, PositionOf(evs[i])) {
      assert evs[i] in evs;
    }
  }

  lemma ExpectedMembers(j: Job, upto: nat)
    requires Ordered(j.logs) && upto > j.lastBlock
    ensures Ordered(Expected(j, upto))
    ensures forall e :: e in Expected(j, upto) <==>
      e in j.logs && j.lastBlock <= e.blockNumber < upto && !(e.blockNumber == j.lastBlock && e.logIndex <= j.lastIndex)
  {
    var page := Fetch(j.logs, j.lastBlock, upto - 1);
    FetchMembers(j.logs, j.lastBlock, upto - 1);
    MembersOfUnseen(j, page, Expected(j, upto), upto);
  }

  lemma MembersOfUnseen(j: Job, page: seq<Event>, unseen: seq<Event>, upto: nat)
    requires unseen == Unseen(j, page) && Ordered(page)
    requires forall e :: e in page <==> e in j.logs && j.lastBlock <= e.blockNumber <= upto - 1
    ensures Ordered(unseen)
    ensures forall e :: e in unseen <==>
      e in j.logs && j.lastBlock <= e.blockNumber < upto && !(e.blockNumber == j.lastBlock && e.logIndex <= j.lastIndex)
  {
    UnseenMembers(j, page);
  }

  /** A session is sent, in order, exactly the events after its cursor in the blocks it covered. */
  lemma Delivered(logs: seq<Event>, c: Cursor, x: Session)
    requires Ordered(logs) && Reasonable(logs, c, x)
    ensures Ordered(Reconciled(logs, c, x).sent)
    ensures forall e :: e in Reconciled(logs, c, x).sent <==>
      e in logs && After(e, c) && e.blockNumber < Reconciled(logs, c, x).start
  {
    SentIsExpected(JobOf(logs, c, x), x.patience);
  }

  lemma SentIsExpected(j: Job, n: nat)
    requires NoWrap(j) && WellBehaved(j) && Ordered(j.logs)
    ensures var p := Iterate(j, First(j), n);
      && Ordered(p.sent)
      && forall e :: e in p.sent <==>
           e in j.logs && j.lastBlock <= e.blockNumber < p.start &&
             !(e.blockNumber == j.lastBlock && e.logIndex <= j.lastIndex)
  {
    var p := Iterate(j, First(j), n);
    Coverage(j, n);
    if p.start > j.lastBlock { ExpectedMembers(j, p.start); }
  }

  // ---- what handling does ----

  /** The ids of the recorded events. */
  function RecordedIds(evs: seq<Event>, decide: Bookkeeping): set<Word> {
    set e | e in evs && decide(e).Some? :: e.id
  }

  lemma RecordedSnoc(init: seq<Event>, last: Event, decide: Bookkeeping)
    ensures RecordedIds(init + [last], decide)
         == RecordedIds(init, decide) + if decide(last).Some? then {last.id} else {}
  {
    assert forall e :: e in init + [last] <==> e in init || e == last;
  }

  lemma HandleRecords(t: Tables, ev: Event, d: Option<Decision>)
    requires UniqueDecisions(t.events)
    ensures var t' := HandleAs(t, ev, d);
      UniqueDecisions(t'.events) && t'.log == t.log && DecidedIds(t') == DecidedIds(t) + if d.Some? then {ev.id} else {}
  {
    var t' := HandleAs(t, ev, d);
    if d.Some? && !HasEvent(t.events, ev.id) {
      assert t'.events == t.events + [ToDecisionRow(ev, d.value)];
      DecidedSnoc(t, t', ToDecisionRow(ev, d.value));
    } else if d.Some? {
      assert ev.id in DecidedIds(t);
    }
  }

  lemma DecidedSnoc(t: Tables, t': Tables, row: WithdrawEventModel)
    requires t'.events == t.events + [row]
    ensures DecidedIds(t') == DecidedIds(t) + {row.withdrawalId}
  {
    assert t'.events[|t.events|] == row;
    forall id | id in DecidedIds(t) ensures id in DecidedIds(t') {
      var i :| 0 <= i < |t.events| && t.events[i].withdrawalId == id;
      assert t'.events[i].withdrawalId == id;
    }
  }

  lemma {:induction false} HandleAllRecords(t: Tables, evs: seq<Event>, decide: Bookkeeping)
    requires UniqueDecisions(t.events)
    ensures var t' := HandleAll(t, evs, decide);
      UniqueDecisions(t'.events) && t'.log == t.log && DecidedIds(t') == DecidedIds(t) + RecordedIds(evs, decide)
  {
    if evs != [] {
      var init, last := evs[..|evs| - 1], evs[|evs| - 1];
      HandleAllRecords(t, init, decide);
      HandleRecords(HandleAll(t, init, decide), last, decide(last));
      RecordedSnoc(init, last, decide);
      assert evs == init + [last];
    }
  }

  /** Events without a decision row, each with an id of its own. */
  ghost predicate AllNew(known: set<Word>, evs: seq<Event>) {
    && (forall i :: 0 <= i < |evs| ==> evs[i].id !in known)
    && (forall i, k :: 0 <= i < k < |evs| ==> evs[i].id != evs[k].id)
  }

  /** One past the position of the last recorded event, or 0. */
  function LastRecorded(evs: seq<Event>, decide: Bookkeeping): (n: nat)
    ensures n <= |evs|
    ensures n > 0 ==> decide(evs[n - 1]).Some?
    ensures forall i :: n <= i < |evs| ==> decide(evs[i]).None?
  {
    if evs == [] then 0
    else if decide(evs[|evs| - 1]).Some? then |evs|
    else LastRecorded(evs[..|evs| - 1], decide)
  }

  /** The cursor after handling: at the last recorded event. */
  function Moved(c: Cursor, evs: seq<Event>, decide: Bookkeeping): Cursor {
    var n := LastRecorded(evs, decide);
    if n == 0 then c else PositionOf(evs[n - 1])
  }

  lemma MovedSnoc(c: Cursor, evs: seq<Event>, decide: Bookkeeping)
    requires evs != []
    ensures var last := evs[|evs| - 1];
      Moved(c, evs, decide) == if decide(last).Some? then PositionOf(last) else Moved(c, evs[..|evs| - 1], decide)
  {
  }

  /** The last of the new events is still new after the others have been handled. */
  lemma StillNew(t: Tables, evs: seq<Event>, decide: Bookkeeping)
    requires UniqueDecisions(t.events) && AllNew(DecidedIds(t), evs) && evs != []
    ensures AllNew(DecidedIds(t), evs[..|evs| - 1])
    ensures evs[|evs| - 1].id !in DecidedIds(HandleAll(t, evs[..|evs| - 1], decide))
  {
    HandleAllRecords(t, evs[..|evs| - 1], decide);
  }

  /** Handling new events moves the cursor to the last one recorded. */
  lemma {:induction false} HandleAllMovesCursor(t: Tables, evs: seq<Event>, decide: Bookkeeping)
    requires UniqueDecisions(t.events) && AllNew(DecidedIds(t), evs)
    requires forall i :: 0 <= i < |evs| ==> evs[i].logIndex < 0x1_0000_0000
    ensures Position(HandleAll(t, evs, decide)) == Moved(Position(t), evs, decide)
  {
    if evs != [] {
      var init, last := evs[..|evs| - 1], evs[|evs| - 1];
      StillNew(t, evs, decide);
      HandleAllMovesCursor(t, init, decide);
      NewMoves(HandleAll(t, init, decide), last, decide(last));
      MovedSnoc(Position(t), evs, decide);
    }
  }

  lemma NewMoves(t: Tables, ev: Event, d: Option<Decision>)
    requires ev.id !in DecidedIds(t) && ev.logIndex < 0x1_0000_0000
    ensures Position(HandleAs(t, ev, d)) == if d.Some? then PositionOf(ev) else Position(t)
  {
    assert HasEvent(t.events, ev.id) ==> ev.id in DecidedIds(t);
  }

  // ---- a block of events after the cursor ----

  lemma DistinctIds(logs: seq<Event>, evs: seq<Event>)
    requires ChainLogs(logs) && Ordered(evs) && forall e :: e in evs ==> e in logs
    ensures forall i, k :: 0 <= i < k < |evs| ==> evs[i].id != evs[k].id
  {
    forall i, k | 0 <= i < k < |evs| ensures evs[i].id != evs[k].id {
      assert evs[i] in logs && evs[k] in logs;
      var m :| 0 <= m < |logs| && logs[m] == evs[i];
      var n :| 0 <= n < |logs| && logs[n] == evs[k];
      assert m != n;
    }
  }

  lemma SameIdSameEvent(logs: seq<Event>, e: Event, f: Event)
    requires ChainLogs(logs) && e in logs && f in logs && e.id == f.id
    ensures e == f
  {
    var m :| 0 <= m < |logs| && logs[m] == e;
    var n :| 0 <= n < |logs| && logs[n] == f;
  }

  /** What a session handles: in order, events after a position, without leaving one out before the last. */
  ghost predicate Block(logs: seq<Event>, c: Cursor, evs: seq<Event>) {
    && Ordered(evs)
    && (forall i :: 0 <= i < |evs| ==> evs[i] in logs && After(evs[i], c))
    && (forall e, i :: 0 <= i < |evs| && e in logs && After(e, c) && !After(e, PositionOf(evs[i])) ==> e in evs)
  }

  lemma HandledIsBlock(logs: seq<Event>, c: Cursor, x: Session)
    requires Ordered(logs) && Reasonable(logs, c, x)
    ensures Block(logs, c, HandledEvents(logs, c, x))
  {
    Delivered(logs, c, x);
    var evs, sent := HandledEvents(logs, c, x), SentEvents(logs, c, x);
    PrefixOfSent(logs, c, sent, |evs|, Reconciled(logs, c, x).start);
    assert evs == sent[..|evs|];
  }

  lemma PrefixOfSent(logs: seq<Event>, c: Cursor, sent: seq<Event>, n: nat, end: nat)
    requires n <= |sent| && Ordered(sent)
    requires sent != [] ==> forall e :: e in sent <==> e in logs && After(e, c) && e.blockNumber < end
    ensures Block(logs, c, sent[..n])
  {
    var evs := sent[..n];
    forall i | 0 <= i < |evs| ensures evs[i] in logs && After(evs[i], c) {
      assert sent[i] in sent;
    }
    forall e, i | 0 <= i < |evs| && e in logs && After(e, c) && !After(e, PositionOf(evs[i])) ensures e in evs {
      assert sent[i] in sent && e in sent;
      var k :| 0 <= k < |sent| && sent[k] == e;
      assert k <= i;
      assert evs[k] == e;
    }
  }

  lemma BlockIsNew(logs: seq<Event>, c: Cursor, known: set<Word>, evs: seq<Event>)
    requires ChainLogs(logs) && NoneAhead(logs, c, known) && Block(logs, c, evs)
    ensures AllNew(known, evs)
  {
    assert forall e :: e in evs ==> e in logs;
    DistinctIds(logs, evs);
  }

  /** Recorded ids belong to recorded events of the block. */
  lemma RecordedOf(logs: seq<Event>, c: Cursor, evs: seq<Event>, decide: Bookkeeping, e: Event) returns (i: nat)
    requires ChainLogs(logs) && Block(logs, c, evs) && e in logs && e.id in RecordedIds(evs, decide)
    ensures i < LastRecorded(evs, decide) && evs[i] == e && decide(e).Some?
  {
    var f :| f in evs && decide(f).Some? && f.id == e.id;
    i :| 0 <= i < |evs| && evs[i] == f;
    SameIdSameEvent(logs, e, f);
  }

  /** The cursor only moves ahead. */
  lemma MovesAhead(logs: seq<Event>, c: Cursor, evs: seq<Event>, decide: Bookkeeping, e: Event)
    requires Block(logs, c, evs) && After(e, Moved(c, evs, decide))
    ensures After(e, c)
  {
    var n := LastRecorded(evs, decide);
    if n > 0 { assert After(evs[n - 1], c); }
  }

  lemma NotRecordedAhead(logs: seq<Event>, c: Cursor, evs: seq<Event>, decide: Bookkeeping, e: Event)
    requires ChainLogs(logs) && Block(logs, c, evs) && e in logs && After(e, Moved(c, evs, decide))
    ensures e.id !in RecordedIds(evs, decide)
  {
    if e.id in RecordedIds(evs, decide) {
      var i := RecordedOf(logs, c, evs, decide, e);
      assert false;
    }
  }

  /** Nothing recorded lies ahead of the new cursor. */
  lemma BlockNoneAhead(logs: seq<Event>, c: Cursor, known: set<Word>, evs: seq<Event>, decide: Bookkeeping)
    requires ChainLogs(logs) && NoneAhead(logs, c, known) && Block(logs, c, evs)
    ensures NoneAhead(logs, Moved(c, evs, decide), known + RecordedIds(evs, decide))
  {
    forall e | e in logs && After(e, Moved(c, evs, decide)) ensures e.id !in known + RecordedIds(evs, decide) {
      MovesAhead(logs, c, evs, decide, e);
      NotRecordedAhead(logs, c, evs, decide, e);
    }
  }

  /** Without a gap everything up to the last recorded event is recorded. */
  lemma BlockNoneMissing(logs: seq<Event>, base: Cursor, c: Cursor, known: set<Word>, evs: seq<Event>,
                         decide: Bookkeeping)
    requires Block(logs, c, evs) && NoneMissing(logs, base, c, known) && NoGap(evs, decide)
    ensures NoneMissing(logs, base, Moved(c, evs, decide), known + RecordedIds(evs, decide))
  {
    var n := LastRecorded(evs, decide);
    forall e | e in logs && After(e, base) && !After(e, Moved(c, evs, decide))
      ensures e.id in known + RecordedIds(evs, decide)
    {
      if After(e, c) {
        assert 0 <= n - 1 < |evs| && e in evs;
        var i :| 0 <= i < |evs| && evs[i] == e;
        assert i < n;
        assert e in evs && decide(e).Some?;
      }
    }
  }

  /** What was missing stays missing: nobody goes back behind the cursor. */
  lemma MissingStays(logs: seq<Event>, base: Cursor, c: Cursor, known: set<Word>, evs: seq<Event>, decide: Bookkeeping)
    requires ChainLogs(logs) && Block(logs, c, evs) && !NoneMissing(logs, base, c, known)
    ensures !NoneMissing(logs, base, Moved(c, evs, decide), known + RecordedIds(evs, decide))
  {
    var e :| e in logs && After(e, base) && !After(e, c) && e.id !in known;
    var n := LastRecorded(evs, decide);
    if n > 0 { assert After(evs[n - 1], c); }
    assert !After(e, Moved(c, evs, decide));
    if e.id in RecordedIds(evs, decide) {
      var i := RecordedOf(logs, c, evs, decide, e);
      assert false;
    }
  }

  /** A gap leaves an event behind the cursor without a row. */
  lemma GapMisses(logs: seq<Event>, base: Cursor, c: Cursor, known: set<Word>, evs: seq<Event>, decide: Bookkeeping)
    requires ChainLogs(logs) && NotBefore(c, base) && NoneAhead(logs, c, known) && Block(logs, c, evs)
    requires !NoGap(evs, decide)
    ensures !NoneMissing(logs, base, Moved(c, evs, decide), known + RecordedIds(evs, decide))
  {
    var i, k :| 0 <= i < k < |evs| && decide(evs[k]).Some? && decide(evs[i]).None?;
    var n, e := LastRecorded(evs, decide), evs[i];
    assert i < n - 1 && !After(e, PositionOf(evs[n - 1]));
    assert e in logs && After(e, c) && After(e, base);
    if e.id in RecordedIds(evs, decide) {
      var m := RecordedOf(logs, c, evs, decide, e);
      assert false;
    }
  }

  /** What the tables say after handling a block. */
  lemma AfterBlock(logs: seq<Event>, base: Cursor, t: Tables, evs: seq<Event>, decide: Bookkeeping)
    requires ChainLogs(logs) && Resumable(logs, base, t) && Block(logs, Position(t), evs)
    ensures var t' := HandleAll(t, evs, decide);
      && UniqueDecisions(t'.events)
      && DecidedIds(t') == DecidedIds(t) + RecordedIds(evs, decide)
      && Position(t') == Moved(Position(t), evs, decide)
  {
    BlockIsNew(logs, Position(t), DecidedIds(t), evs);
    HandleAllRecords(t, evs, decide);
    forall i | 0 <= i < |evs| ensures evs[i].logIndex < 0x1_0000_0000 {
      assert evs[i] in logs;
    }
    HandleAllMovesCursor(t, evs, decide);
  }

  /** Handling a block leaves nothing missing behind the new cursor exactly if nothing was missing behind the old one
      and no recording succeeded after one that failed. */
  lemma BlockCompleteIff(logs: seq<Event>, base: Cursor, t: Tables, evs: seq<Event>, decide: Bookkeeping)
    requires ChainLogs(logs) && Resumable(logs, base, t) && Block(logs, Position(t), evs)
    ensures Resumable(logs, base, HandleAll(t, evs, decide))
    ensures Complete(logs, base, HandleAll(t, evs, decide)) <==> Complete(logs, base, t) && NoGap(evs, decide)
  {
    var c, known, n := Position(t), DecidedIds(t), LastRecorded(evs, decide);
    AfterBlock(logs, base, t, evs, decide);
    BlockNoneAhead(logs, c, known, evs, decide);
    if n > 0 { assert After(evs[n - 1], c); }
    if !Complete(logs, base, t) {
      MissingStays(logs, base, c, known, evs, decide);
    } else if NoGap(evs, decide) {
      BlockNoneMissing(logs, base, c, known, evs, decide);
    } else {
      GapMisses(logs, base, c, known, evs, decide);
    }
  }

  // ---- one session ----

  /** The start position is the stored one, or nothing is delivered. */
  lemma StartsAtPosition(logs: seq<Event>, t: Tables, x: Session)
    requires Ordered(logs) && Reasonable(logs, StartPosition(t, x.readFails), x)
    ensures Block(logs, Position(t), HandledEvents(logs, StartPosition(t, x.readFails), x))
  {
    if !x.readFails {
      HandledIsBlock(logs, Position(t), x);
    }
  }

  /** What the session leaves behind the cursor is complete exactly if it was and no recording of the session succeeded
      after one that failed, wherever the crash falls. */
  lemma SessionKeepsSafe(logs: seq<Event>, base: Cursor, t: Tables, x: Session)
    requires ChainLogs(logs) && Resumable(logs, base, t) && Reasonable(logs, StartPosition(t, x.readFails), x)
    ensures Resumable(logs, base, AfterSession(logs, t, x))
    ensures Complete(logs, base, AfterSession(logs, t, x)) <==>
      Complete(logs, base, t) && NoGap(HandledEvents(logs, StartPosition(t, x.readFails), x), x.decide)
  {
    StartsAtPosition(logs, t, x);
    BlockCompleteIff(logs, base, t, HandledEvents(logs, StartPosition(t, x.readFails), x), x.decide);
  }

  // ---- many sessions ----

  /** The tables after a list of sessions, each ended by a crash or by completion. */
  ghost predicate Lives(logs: seq<Event>, t: Tables, xs: seq<Session>, t': Tables)
    decreases |xs|
  {
    if xs == [] then t' == t
    else
      && Reasonable(logs, StartPosition(t, xs[0].readFails), xs[0])
      && Lives(logs, AfterSession(logs, t, xs[0]), xs[1..], t')
  }

  /** In no session did a recording succeed after one that failed. */
  ghost predicate NoGaps(logs: seq<Event>, t: Tables, xs: seq<Session>)
    decreases |xs|
  {
    if xs == [] then true
    else
      && NoGap(HandledEvents(logs, StartPosition(t, xs[0].readFails), xs[0]), xs[0].decide)
      && NoGaps(logs, AfterSession(logs, t, xs[0]), xs[1..])
  }

  lemma {:induction false} LivesCompleteIff(logs: seq<Event>, base: Cursor, t: Tables, xs: seq<Session>, t': Tables)
    requires ChainLogs(logs) && Resumable(logs, base, t) && Lives(logs, t, xs, t')
    ensures Resumable(logs, base, t')
    ensures Complete(logs, base, t') <==> Complete(logs, base, t) && NoGaps(logs, t, xs)
    decreases |xs|
  {
    if xs != [] {
      SessionKeepsSafe(logs, base, t, xs[0]);
      LivesCompleteIff(logs, base, AfterSession(logs, t, xs[0]), xs[1..], t');
    }
  }

  /** Through any number of crashes and restarts the cursor is a safe resume point exactly as long as in no session a
      recording succeeded after one that failed. */
  lemma CursorSafe(logs: seq<Event>, base: Cursor, t: Tables, xs: seq<Session>, t': Tables)
    requires ChainLogs(logs) && SafePoint(logs, base, t) && Lives(logs, t, xs, t')
    ensures SafePoint(logs, base, t') <==> NoGaps(logs, t, xs)
  {
    LivesCompleteIff(logs, base, t, xs, t');
  }

  /** From a safe resume point with a nonzero cursor, as any such history leaves one, a session that handles and records
      all it is sent leaves every event after `base` in the blocks below its end with exactly one decision row: it has
      one, and rows are unique. */
  lemma RestartCompletes(logs: seq<Event>, base: Cursor, t: Tables, x: Session, e: Event)
    requires ChainLogs(logs) && SafePoint(logs, base, t)
    requires var c := Position(t);
      && c.blockNumber != 0 && !x.readFails && Reasonable(logs, c, x)
      && x.handled >= |SentEvents(logs, c, x)| && AllRecorded(SentEvents(logs, c, x), x.decide)
      && e in logs && After(e, base) && e.blockNumber < Reconciled(logs, c, x).start
    ensures HasEvent(AfterSession(logs, t, x).events, e.id) && UniqueDecisions(AfterSession(logs, t, x).events)
  {
    var c := Position(t);
    var sent := SentEvents(logs, c, x);
    Delivered(logs, c, x);
    HandleAllRecords(t, sent, x.decide);
    if After(e, c) {
      assert e in sent;
      var i :| 0 <= i < |sent| && sent[i] == e;
      assert e.id in RecordedIds(sent, x.decide);
    }
    DecidedHasEvent(AfterSession(logs, t, x), e.id);
  }

  lemma DecidedHasEvent(t: Tables, id: Word)
    ensures HasEvent(t.events, id) <==> id in DecidedIds(t)
  {
  }
}
