/** The database adapter: three tables with their unique keys, sums over stored amounts, and the
    transaction that records a decision together with the resume cursor. */
module Store {
  import opened Evm
  import opened Decimal

  /** Nanoseconds since the zero time. */
  type Time = nat

  datatype Withdrawal = Withdrawal(
    id: Word, user: Address, token: Address, amount: int, blockNumber: nat, txHash: Word, timestamp: Time)

  /** A row of the limit log; amounts are text. */
  datatype WithdrawalModel = WithdrawalModel(
    withdrawalId: Word, user: Address, token: Address, amount: string, blockNumber: nat, txHash: Word, timestamp: Time)

  datatype Decision = Approved | Rejected | Failed

  datatype WithdrawEventModel = WithdrawEventModel(
    withdrawalId: Word, user: Address, token: Address, amount: string, decision: Decision,
    blockNumber: Uint64, txHash: Word, logIndex: Uint64)

  datatype Cursor = Cursor(blockNumber: Uint64, logIndex: Uint64)

  datatype StoreError = DatabaseError | DuplicateKey | CorruptedAmount(id: Word)

  datatype StoreResult<+T> = Done(value: T) | Err(error: StoreError)

  const STREAM := "withdraw_started"

  function ToModel(w: Withdrawal): WithdrawalModel {
    WithdrawalModel(w.id, w.user, w.token, ToText(w.amount), w.blockNumber, w.txHash, w.timestamp)
  }

  function Models(log: seq<Withdrawal>): (rows: seq<WithdrawalModel>)
    ensures |rows| == |log|
    ensures forall i :: 0 <= i < |log| ==> rows[i] == ToModel(log[i])
  {
    seq(|log|, i requires 0 <= i < |log| => ToModel(log[i]))
  }

  // ---- queries ----

  /** What a limit is about: all withdrawals of a token, or those of one user. */
  datatype Scope = OfToken(token: Address) | OfUser(user: Address, token: Address)

  function InScope(scope: Scope, user: Address, token: Address): bool {
    match scope
    case OfToken(t) => token == t
    case OfUser(u, t) => user == u && token == t
  }

  function Matching(rows: seq<WithdrawalModel>, scope: Scope, since: Time): seq<WithdrawalModel> {
    if rows == [] then []
    else
      var last := rows[|rows| - 1];
      Matching(rows[..|rows| - 1], scope, since)
        + if InScope(scope, last.user, last.token) && last.timestamp >= since then [last] else []
  }

  /** The sum of the stored amounts, or the first row whose text is no number. */
  function SumAmounts(rows: seq<WithdrawalModel>): StoreResult<int> {
    if rows == [] then Done(0)
    else
      var last := rows[|rows| - 1];
      match SumAmounts(rows[..|rows| - 1])
      case Err(e) => Err(e)
      case Done(total) =>
        match Parse(last.amount)
        case None => Err(CorruptedAmount(last.withdrawalId))
        case Some(amount) => Done(total + amount)
  }

  lemma {:induction false} FirstCorrupted(rows: seq<WithdrawalModel>, i: nat)
    requires i <= |rows| && SumAmounts(rows[..i]).Err?
    ensures SumAmounts(rows) == SumAmounts(rows[..i])
  {
    if i < |rows| {
      assert rows[..|rows| - 1][..i] == rows[..i];
      FirstCorrupted(rows[..|rows| - 1], i);
    } else {
      assert rows[..i] == rows;
    }
  }

  /** The sum of the saved amounts in scope from `since` on. */
  function SumSince(log: seq<Withdrawal>, scope: Scope, since: Time): int {
    if log == [] then 0
    else
      var last := log[|log| - 1];
      SumSince(log[..|log| - 1], scope, since)
        + if InScope(scope, last.user, last.token) && last.timestamp >= since then last.amount else 0
  }

  /** The row stands for the withdrawal: same scope and time, and its text reads as the amount. */
  ghost predicate Stores(row: WithdrawalModel, w: Withdrawal) {
    row.user == w.user && row.token == w.token && row.timestamp == w.timestamp && Parse(row.amount) == Some(w.amount)
  }

  ghost predicate AllStored(rows: seq<WithdrawalModel>, log: seq<Withdrawal>) {
    |rows| == |log| && forall i :: 0 <= i < |log| ==> Stores(rows[i], log[i])
  }

  /** The withdrawals a query asks for, and what they add up to. */
  function Selected(log: seq<Withdrawal>, scope: Scope, since: Time): seq<Withdrawal> {
    if log == [] then []
    else
      var last := log[|log| - 1];
      Selected(log[..|log| - 1], scope, since)
        + if InScope(scope, last.user, last.token) && last.timestamp >= since then [last] else []
  }

  function Total(log: seq<Withdrawal>): int {
    if log == [] then 0 else Total(log[..|log| - 1]) + log[|log| - 1].amount
  }

  /** The query selects the rows of the withdrawals asked for, whatever relates rows to withdrawals. */
  lemma {:induction false} MatchingSelects(rows: seq<WithdrawalModel>, log: seq<Withdrawal>, scope: Scope, since: Time,
                                           related: (WithdrawalModel, Withdrawal) -> bool)
    requires |rows| == |log| && forall i :: 0 <= i < |log| ==> related(rows[i], log[i])
    requires forall r, w :: related(r, w) ==> r.user == w.user && r.token == w.token && r.timestamp == w.timestamp
    ensures var matching, selected := Matching(rows, scope, since), Selected(log, scope, since);
      |matching| == |selected| && forall i :: 0 <= i < |selected| ==> related(matching[i], selected[i])
  {
    if log != [] {
      var n := |log| - 1;
      assert related(rows[n], log[n]);
      MatchingSelects(rows[..n], log[..n], scope, since, related);
    }
  }

  lemma {:induction false} SumIsTotal(rows: seq<WithdrawalModel>, log: seq<Withdrawal>)
    requires AllStored(rows, log)
    ensures SumAmounts(rows) == Done(Total(log))
  {
    if log != [] {
      var n := |log| - 1;
      assert Stores(rows[n], log[n]);
      SumIsTotal(rows[..n], log[..n]);
    }
  }

  lemma {:induction false} TotalOfSelected(log: seq<Withdrawal>, scope: Scope, since: Time)
    ensures Total(Selected(log, scope, since)) == SumSince(log, scope, since)
  {
    if log != [] {
      var init, last := log[..|log| - 1], log[|log| - 1];
      TotalOfSelected(init, scope, since);
      var selected := Selected(init, scope, since);
      assert (selected + [last])[..|selected|] == selected && selected + [] == selected;
    }
  }

  /** Filtering the stored rows and adding up their decimal text gives the sum of the saved amounts. */
  lemma QueryIsSum(log: seq<Withdrawal>, scope: Scope, since: Time)
    ensures SumAmounts(Matching(Models(log), scope, since)) == Done(SumSince(log, scope, since))
  {
    forall i | 0 <= i < |log| ensures Stores(Models(log)[i], log[i]) {
      RoundTrip(log[i].amount);
    }
    MatchingSelects(Models(log), log, scope, since, Stores);
    SumIsTotal(Matching(Models(log), scope, since), Selected(log, scope, since));
    TotalOfSelected(log, scope, since);
  }

  /** The rows up to i read as numbers. */
  ghost predicate Readable(rows: seq<WithdrawalModel>, n: nat)
    requires n <= |rows|
  {
    forall i :: 0 <= i < n ==> Parse(rows[i].amount).Some?
  }

  /** Adding up fails exactly if some text is no number, and then names the first such row. */
  lemma {:induction false} SumFailsIff(rows: seq<WithdrawalModel>)
    ensures SumAmounts(rows).Done? <==> Readable(rows, |rows|)
    ensures SumAmounts(rows).Err? ==> exists i ::
      0 <= i < |rows| && Readable(rows, i) && Parse(rows[i].amount).None?
      && SumAmounts(rows).error == CorruptedAmount(rows[i].withdrawalId)
  {
    if rows != [] {
      var init, n := rows[..|rows| - 1], |rows| - 1;
      SumFailsIff(init);
      if SumAmounts(init).Err? {
        var i :| 0 <= i < n && Readable(init, i) && Parse(init[i].amount).None?
          && SumAmounts(init).error == CorruptedAmount(init[i].withdrawalId);
        assert Readable(rows, i) && rows[i] == init[i];
      } else {
        assert Readable(rows, n);
      }
    }
  }

  // ---- the same sums, row by row ----

  /** The sum of the amounts of the withdrawals that count. */
  function TotalWhere(log: seq<Withdrawal>, counts: Withdrawal -> bool): int {
    if log == [] then 0
    else TotalWhere(log[..|log| - 1], counts) + if counts(log[|log| - 1]) then log[|log| - 1].amount else 0
  }

  lemma {:induction false} TotalWhereAgree(log: seq<Withdrawal>, f: Withdrawal -> bool, g: Withdrawal -> bool)
    requires forall i :: 0 <= i < |log| ==> f(log[i]) == g(log[i])
    ensures TotalWhere(log, f) == TotalWhere(log, g)
  {
    if log != [] {
      TotalWhereAgree(log[..|log| - 1], f, g);
    }
  }

  lemma TotalWhereSnoc(log: seq<Withdrawal>, w: Withdrawal, counts: Withdrawal -> bool)
    ensures TotalWhere(log + [w], counts) == TotalWhere(log, counts) + if counts(w) then w.amount else 0
  {
    assert (log + [w])[..|log|] == log;
  }

  /** A query by token adds up the withdrawals of that token from that time on, and no others. */
  lemma {:induction false} TokenTotal(log: seq<Withdrawal>, token: Address, since: Time)
    ensures SumSince(log, OfToken(token), since)
      == TotalWhere(log, (w: Withdrawal) => w.token == token && w.timestamp >= since)
  {
    if log != [] {
      TokenTotal(log[..|log| - 1], token, since);
    }
  }

  /** A query by user and token adds up those of both. */
  lemma {:induction false} UserTotal(log: seq<Withdrawal>, user: Address, token: Address, since: Time)
    ensures SumSince(log, OfUser(user, token), since)
         == TotalWhere(log, (w: Withdrawal) => w.user == user && w.token == token && w.timestamp >= since)
  {
    if log != [] {
      UserTotal(log[..|log| - 1], user, token, since);
    }
  }

  method SumStoredAmounts(rows: seq<WithdrawalModel>) returns (result: StoreResult<int>)
    ensures result == SumAmounts(rows)
  {
    var total := 0;
    for i := 0 to |rows|
      invariant SumAmounts(rows[..i]) == Done(total)
    {
      assert rows[..i + 1][..i] == rows[..i];
      var amount := Parse(rows[i].amount);
      if amount.None? {
        FirstCorrupted(rows, i + 1);
        return Err(CorruptedAmount(rows[i].withdrawalId));
      }
      total := total + amount.value;
    }
    assert rows[..|rows|] == rows;
    return Done(total);
  }

  /** What saving does to the totals: those of the token and of the user with the token rise by the amount, for every
      starting time up to the row's, and all others stay. */
  lemma SaveRaisesTotals(log: seq<Withdrawal>, w: Withdrawal, user: Address, token: Address, since: Time)
    ensures TotalWhere(log + [w], (x: Withdrawal) => x.token == token && x.timestamp >= since)
         == TotalWhere(log, (x: Withdrawal) => x.token == token && x.timestamp >= since)
            + if w.token == token && w.timestamp >= since then w.amount else 0
    ensures TotalWhere(log + [w], (x: Withdrawal) => x.user == user && x.token == token && x.timestamp >= since)
         == TotalWhere(log, (x: Withdrawal) => x.user == user && x.token == token && x.timestamp >= since)
            + if w.user == user && w.token == token && w.timestamp >= since then w.amount else 0
  {
    TotalWhereSnoc(log, w, (x: Withdrawal) => x.token == token && x.timestamp >= since);
    TotalWhereSnoc(log, w, (x: Withdrawal) => x.user == user && x.token == token && x.timestamp >= since);
  }

  // ---- the tables ----

  /** The tables as values: the limit log, the decision rows, the cursor per stream. */
  datatype Tables = Tables(log: seq<Withdrawal>, events: seq<WithdrawEventModel>, cursors: map<string, Cursor>)

  predicate HasRow(log: seq<Withdrawal>, id: Word) {
    exists i :: 0 <= i < |log| && log[i].id == id
  }

  predicate HasEvent(events: seq<WithdrawEventModel>, id: Word) {
    exists i :: 0 <= i < |events| && events[i].withdrawalId == id
  }

  /** `dbFails` stands for whatever makes the database refuse; a refused write changes nothing. */
  function Saved(t: Tables, w: Withdrawal, dbFails: bool): Tables {
    if dbFails || HasRow(t.log, w.id) then t else t.(log := t.log + [w])
  }

  function EventRecorded(t: Tables, ev: WithdrawEventModel, dbFails: bool): Tables {
    if dbFails then t
    else t.(events := if HasEvent(t.events, ev.withdrawalId) then t.events else t.events + [ev],
            cursors := t.cursors[STREAM := Cursor(ev.blockNumber, ev.logIndex)])
  }

  /** A position as the daemon reads it: the log index is cut to 32 bits. */
  function WithShortIndex(c: Cursor): Cursor {
    Cursor(c.blockNumber, c.logIndex % 0x1_0000_0000)
  }

  /** Where a stream resumes; a missing cursor reads as (0, 0). */
  function ReadCursor(cursors: map<string, Cursor>, stream: string): Cursor {
    if stream in cursors then WithShortIndex(cursors[stream]) else Cursor(0, 0)
  }

  /** Where the daemon starts from; a cursor that cannot be read counts as missing. */
  function StartPosition(t: Tables, readFails: bool): Cursor {
    if readFails then Cursor(0, 0) else ReadCursor(t.cursors, STREAM)
  }

  class Adapter {
    var withdrawals: seq<WithdrawalModel>
    var events: seq<WithdrawEventModel>
    var cursors: map<string, Cursor>
    ghost var log: seq<Withdrawal>

    ghost predicate Valid()
      reads this
    {
      withdrawals == Models(log)
    }

    ghost function Contents(): Tables
      reads this
    {
      Tables(log, events, cursors)
    }

    constructor ()
      ensures Valid() && Contents() == Tables([], [], map[])
    {
      withdrawals, events, cursors, log := [], [], map[], [];
    }

    /** The stored rows, field by field. */
    ghost predicate RowsOf(log: seq<Withdrawal>)
      reads this
    {
      && |withdrawals| == |log|
      && forall i :: 0 <= i < |log| ==>
           && withdrawals[i].withdrawalId == log[i].id && withdrawals[i].user == log[i].user
           && withdrawals[i].token == log[i].token && withdrawals[i].amount == ToText(log[i].amount)
           && withdrawals[i].blockNumber == log[i].blockNumber && withdrawals[i].txHash == log[i].txHash
           && withdrawals[i].timestamp == log[i].timestamp
    }

    /** Inserts the row, or fails and changes nothing: when the database refuses, or the id has a row. */
    method Save(w: Withdrawal, dbFails: bool) returns (failure: Option<StoreError>)
      requires Valid()
      modifies this
      ensures Valid() && Contents() == Saved(old(Contents()), w, dbFails)
      ensures failure.None? <==> !dbFails && forall i :: 0 <= i < |old(log)| ==> old(log)[i].id != w.id
      ensures events == old(events) && cursors == old(cursors)
      ensures log == if failure.None? then old(log) + [w] else old(log)
      ensures RowsOf(log)
    {
      if dbFails { return Some(DatabaseError); }
      assert (exists i :: 0 <= i < |withdrawals| && withdrawals[i].withdrawalId == w.id) <==> HasRow(log, w.id) by {
        assert forall i :: 0 <= i < |log| ==> withdrawals[i].withdrawalId == log[i].id;
      }
      if exists i :: 0 <= i < |withdrawals| && withdrawals[i].withdrawalId == w.id { return Some(DuplicateKey); }
      withdrawals := withdrawals + [ToModel(w)];
      log := log + [w];
      return None;
    }

    /** The sum of the amounts of exactly the rows of that token from that time on. */
    method GetTotalWithdrawn(token: Address, since: Time, dbFails: bool) returns (total: StoreResult<int>)
      requires Valid()
      ensures total == if dbFails then Err(DatabaseError) else Done(SumSince(log, OfToken(token), since))
      ensures !dbFails ==> total == Done(TotalWhere(log, (w: Withdrawal) => w.token == token && w.timestamp >= since))
    {
      if dbFails { return Err(DatabaseError); }
      QueryIsSum(log, OfToken(token), since);
      TokenTotal(log, token, since);
      total := SumStoredAmounts(Matching(withdrawals, OfToken(token), since));
    }

    /** The sum of the amounts of exactly the rows of that user and token from that time on. */
    method GetTotalWithdrawnByUser(user: Address, token: Address, since: Time, dbFails: bool)
      returns (total: StoreResult<int>)
      requires Valid()
      ensures total == if dbFails then Err(DatabaseError) else Done(SumSince(log, OfUser(user, token), since))
      ensures !dbFails ==>
        total == Done(TotalWhere(log, (w: Withdrawal) => w.user == user && w.token == token && w.timestamp >= since))
    {
      if dbFails { return Err(DatabaseError); }
      QueryIsSum(log, OfUser(user, token), since);
      UserTotal(log, user, token, since);
      total := SumStoredAmounts(Matching(withdrawals, OfUser(user, token), since));
    }

    /** A cursor that cannot be read comes back as (0, 0) with the error. */
    method GetCursor(stream: string, dbFails: bool) returns (position: Cursor, failure: Option<StoreError>)
      ensures dbFails ==> position == Cursor(0, 0) && failure == Some(DatabaseError)
      ensures !dbFails ==> position == ReadCursor(cursors, stream) && failure.None?
      ensures !dbFails && stream !in cursors ==> position == Cursor(0, 0)
      ensures !dbFails && stream in cursors && cursors[stream].logIndex < 0x1_0000_0000 ==> position == cursors[stream]
    {
      if dbFails { return Cursor(0, 0), Some(DatabaseError); }
      if stream !in cursors { return Cursor(0, 0), None; }
      return Cursor(cursors[stream].blockNumber, cursors[stream].logIndex % 0x1_0000_0000), None;
    }

    /** One transaction: insert unless the id is known, then move the cursor, without comparing. */
    method RecordWithdrawEvent(ev: WithdrawEventModel, dbFails: bool) returns (failure: Option<StoreError>)
      requires Valid()
      modifies this
      ensures Valid() && Contents() == EventRecorded(old(Contents()), ev, dbFails)
      ensures failure.None? <==> !dbFails
      ensures log == old(log)
      ensures failure.Some? ==> events == old(events) && cursors == old(cursors)
      ensures failure.None? ==>
        && cursors == old(cursors)["withdraw_started" := Cursor(ev.blockNumber, ev.logIndex)]
        && events == if (exists i :: 0 <= i < |old(events)| && old(events)[i].withdrawalId == ev.withdrawalId)
                     then old(events) else old(events) + [ev]
    {
      if dbFails { return Some(DatabaseError); }
      if !(exists i :: 0 <= i < |events| && events[i].withdrawalId == ev.withdrawalId) {
        events := events + [ev];
      }
      cursors := cursors[STREAM := Cursor(ev.blockNumber, ev.logIndex)];
      return None;
    }

    /** A failing count is ignored by the source and reads as zero. */
    method HasWithdrawEvent(id: Word, dbFails: bool) returns (known: bool)
      ensures known <==> !dbFails && exists i :: 0 <= i < |events| && events[i].withdrawalId == id
    {
      known := !dbFails && exists i :: 0 <= i < |events| && events[i].withdrawalId == id;
    }
  }
}
