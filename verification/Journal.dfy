/**
 * The journal of the online-backup qualification (class `Journal` in
 * scripts/platform/qualify_online_backups.py): it records every attempted transaction
 * with the commits observed before it, and rebuilds the tables that a restore up to
 * given heads has to show.
 */
module Journal {
  import opened Prelude

  datatype Outcome = Planned | CommitSent | Acknowledged | ResolvedCommitted | Aborted | ResolvedAborted

  datatype Attempt = Attempt(delta: int, token: string, rolledBack: bool, acknowledged: bool,
                             dependencies: map<int, int>, outcome: Outcome)

  /** Attempts by writer and sequence number. */
  type Attempts = map<(int, int), Attempt>

  const ID_STRIDE := 10_000_000
  const SLOTS := 16

  predicate IsCommitted(outcome: Outcome) {
    outcome.Acknowledged? || outcome.ResolvedCommitted?
  }

  predicate IsAborted(outcome: Outcome) {
    outcome.Aborted? || outcome.ResolvedAborted?
  }

  predicate IsPending(outcome: Outcome) {
    outcome.Planned? || outcome.CommitSent?
  }

  function DeltaOf(writer: int, sequence: int): int {
    (writer + 3) * (sequence + 7) % 199 - 99
  }

  function IdOf(writer: int, sequence: int): int {
    writer * ID_STRIDE + sequence
  }

  /** Deltas lie between -99 and 99, and a writer's repeat after 199 transactions. */
  lemma DeltasRepeat(writer: int, sequence: int)
    ensures -99 <= DeltaOf(writer, sequence) <= 99
    ensures DeltaOf(writer, sequence + 199) == DeltaOf(writer, sequence)
  {
    MultiplesVanish((writer + 3) * (sequence + 7), writer + 3);
    assert (writer + 3) * (sequence + 199 + 7) == (writer + 3) * (sequence + 7) + (writer + 3) * 199;
  }

  lemma {:induction false} MultiplesVanish(a: int, k: int)
    ensures (a + k * 199) % 199 == a % 199
    decreases if k < 0 then -k else k
  {
    if k > 0 {
      MultiplesVanish(a, k - 1);
      assert a + k * 199 == a + (k - 1) * 199 + 199;
    } else if k < 0 {
      MultiplesVanish(a, k + 1);
      assert a + (k + 1) * 199 == a + k * 199 + 199;
    }
  }

  /** The greatest committed sequence number of every writer that has one. */
  ghost predicate AreHeads(attempts: Attempts, heads: map<int, int>) {
    && (forall w :: w in heads ==> (w, heads[w]) in attempts && IsCommitted(attempts[(w, heads[w])].outcome))
    && (forall key :: key in attempts && IsCommitted(attempts[key].outcome) ==>
          key.0 in heads && key.1 <= heads[key.0])
  }

  /**
   * What recording never undoes: attempts stay, with what they were planned with, and a
   * commit stays a commit.
   */
  ghost predicate Extends(earlier: Attempts, later: Attempts) {
    forall key :: key in earlier ==>
      && key in later
      && later[key].(outcome := earlier[key].outcome, acknowledged := earlier[key].acknowledged) == earlier[key]
      && (IsCommitted(earlier[key].outcome) ==> IsCommitted(later[key].outcome))
  }

  lemma ExtendsTransitively(a: Attempts, b: Attempts, c: Attempts)
    requires Extends(a, b) && Extends(b, c)
    ensures Extends(a, c)
  {
    forall key | key in a
      ensures key in c && (IsCommitted(a[key].outcome) ==> IsCommitted(c[key].outcome))
      ensures c[key].(outcome := a[key].outcome, acknowledged := a[key].acknowledged) == a[key]
    {
      assert key in b;
    }
  }

  // ---------------------------------------------------------------- recording

  /** The token found in the restored ledger contradicts the attempt. */
  predicate Contradicts(attempt: Attempt, id: int, ledger: map<int, string>) {
    id in ledger && (ledger[id] != attempt.token || !attempt.outcome.CommitSent?)
  }

  function Resolved(attempt: Attempt, id: int, ledger: map<int, string>): Attempt {
    attempt.(outcome := if id in ledger then ResolvedCommitted else ResolvedAborted)
  }

  /** A new outcome undoes something exactly when it takes a commit back. */
  lemma OutcomeExtendsIff(attempts: Attempts, key: (int, int), outcome: Outcome)
    requires key in attempts
    ensures Extends(attempts, attempts[key := attempts[key].(outcome := outcome)])
            <==> (IsCommitted(attempts[key].outcome) ==> IsCommitted(outcome))
  {
    var later := attempts[key := attempts[key].(outcome := outcome)];
    assert key in attempts && later[key].outcome == outcome;
  }

  /** Pending attempts are resolved, all of them on success; nothing else changes. */
  ghost predicate IsReconciled(before: Attempts, after: Attempts, ledger: map<int, string>, all: bool) {
    && after.Keys == before.Keys
    && forall key :: key in before ==>
      || after[key] == (if IsPending(before[key].outcome)
                        then Resolved(before[key], IdOf(key.0, key.1), ledger) else before[key])
      || (!all && after[key] == before[key])
  }

  lemma ReconcilingExtends(before: Attempts, after: Attempts, ledger: map<int, string>, all: bool)
    requires IsReconciled(before, after, ledger, all)
    ensures Extends(before, after)
  {
    forall key | key in before
      ensures key in after && (IsCommitted(before[key].outcome) ==> IsCommitted(after[key].outcome))
      ensures after[key].(outcome := before[key].outcome, acknowledged := before[key].acknowledged) == before[key]
    {
      assert key in after.Keys;
    }
  }

  /**
   * What reconciliation is for: afterwards no attempt is pending. A pending attempt is committed
   * exactly when the ledger has it, and then its commit had been sent and the tokens agree; an
   * attempt whose outcome was known keeps it.
   */
  ghost predicate Settles(before: Attempts, after: Attempts, ledger: map<int, string>) {
    && after.Keys == before.Keys
    && forall key :: key in before ==>
      var id, was, now := key.0 * 10_000_000 + key.1, before[key].outcome, after[key].outcome;
      if was == Planned || was == CommitSent then
        && (now == ResolvedCommitted || now == ResolvedAborted)
        && (now == ResolvedCommitted <==> id in ledger)
        && (now == ResolvedCommitted ==> was == CommitSent && ledger[id] == before[key].token)
      else now == was
  }

  lemma ReconcilingSettles(before: Attempts, after: Attempts, ledger: map<int, string>)
    requires IsReconciled(before, after, ledger, true)
    requires forall key :: key in before && IsPending(before[key].outcome) ==>
      !Contradicts(before[key], IdOf(key.0, key.1), ledger)
    ensures Settles(before, after, ledger)
  {
  }

  class Journal {
    var attempts: Attempts

    constructor ()
      ensures attempts == map[]
    {
      attempts := map[];
    }

    method Heads() returns (heads: map<int, int>)
      ensures AreHeads(attempts, heads)
    {
      heads := map[];
      var todo := attempts.Keys;
      while todo != {}
        invariant todo <= attempts.Keys
        invariant forall w :: w in heads ==>
          (w, heads[w]) in attempts && IsCommitted(attempts[(w, heads[w])].outcome)
        invariant forall key :: key in attempts && key !in todo && IsCommitted(attempts[key].outcome) ==>
          key.0 in heads && key.1 <= heads[key.0]
        decreases todo
      {
        var key :| key in todo;
        todo := todo - {key};
        if IsCommitted(attempts[key].outcome) && (key.0 !in heads || heads[key.0] < key.1) {
          assert (key.0, key.1) == key;
          heads := heads[key.0 := key.1];
        }
      }
    }

    /** Refused when the attempt exists; otherwise it depends on everything committed so far. */
    method Plan(writer: int, sequence: int, rollback: bool, token: string) returns (ok: bool)
      modifies this
      ensures ok <==> (writer, sequence) !in old(attempts)
      ensures !ok ==> attempts == old(attempts)
      ensures ok ==>
        && (writer, sequence) in attempts
        && attempts == old(attempts)[(writer, sequence) := attempts[(writer, sequence)]]
        && attempts[(writer, sequence)].(dependencies := map[])
           == Attempt(DeltaOf(writer, sequence), token, rollback, false, map[], Planned)
        && AreHeads(old(attempts), attempts[(writer, sequence)].dependencies)
      ensures Extends(old(attempts), attempts)
    {
      if (writer, sequence) in attempts {
        return false;
      }
      var heads := Heads();
      attempts := attempts[(writer, sequence) :=
        Attempt(DeltaOf(writer, sequence), token, rollback, false, heads, Planned)];
      return true;
    }

    method Acknowledge(writer: int, sequence: int)
      modifies this
      ensures attempts == if (writer, sequence) in old(attempts)
        then old(attempts)[(writer, sequence) :=
               old(attempts)[(writer, sequence)].(acknowledged := true, outcome := Acknowledged)]
        else old(attempts)
      ensures Extends(old(attempts), attempts)
    {
      if (writer, sequence) in attempts {
        attempts := attempts[(writer, sequence) :=
          attempts[(writer, sequence)].(acknowledged := true, outcome := Acknowledged)];
      }
    }

    method SetOutcome(writer: int, sequence: int, outcome: Outcome)
      modifies this
      ensures attempts == if (writer, sequence) in old(attempts)
        then old(attempts)[(writer, sequence) := old(attempts)[(writer, sequence)].(outcome := outcome)]
        else old(attempts)
    {
      if (writer, sequence) in attempts {
        attempts := attempts[(writer, sequence) := attempts[(writer, sequence)].(outcome := outcome)];
      }
    }

    /** Settles every pending attempt by what the ledger shows; known outcomes are never reclassified. */
    method Reconcile(ledger: map<int, string>) returns (ok: bool)
      modifies this
      ensures ok <==> forall key :: key in old(attempts) && IsPending(old(attempts)[key].outcome) ==>
        !Contradicts(old(attempts)[key], IdOf(key.0, key.1), ledger)
      ensures IsReconciled(old(attempts), attempts, ledger, ok)
      ensures Extends(old(attempts), attempts)
      ensures ok ==> Settles(old(attempts), attempts, ledger)
    {
      ok := Settle(ledger);
      ReconcilingExtends(old(attempts), attempts, ledger, ok);
      if ok {
        ReconcilingSettles(old(attempts), attempts, ledger);
      }
    }

    /** The loop over pending attempts; it stops at the first one that the ledger contradicts. */
    method Settle(ledger: map<int, string>) returns (ok: bool)
      modifies this
      ensures ok <==> forall key :: key in old(attempts) && IsPending(old(attempts)[key].outcome) ==>
        !Contradicts(old(attempts)[key], IdOf(key.0, key.1), ledger)
      ensures IsReconciled(old(attempts), attempts, ledger, ok)
    {
      var pending := set key | key in attempts && IsPending(attempts[key].outcome);
      var todo := pending;
      while todo != {}
        invariant todo <= pending && attempts.Keys == old(attempts).Keys
        invariant forall key :: key in attempts && (key in todo || key !in pending) ==>
          attempts[key] == old(attempts)[key]
        invariant forall key :: key in pending && key !in todo ==>
          && attempts[key] == Resolved(old(attempts)[key], IdOf(key.0, key.1), ledger)
          && !Contradicts(old(attempts)[key], IdOf(key.0, key.1), ledger)
        decreases todo
      {
        var key :| key in todo;
        var attempt, id := attempts[key], IdOf(key.0, key.1);
        if id in ledger {
          if ledger[id] != attempt.token || !attempt.outcome.CommitSent? {
            return false;
          }
          SetOutcome(key.0, key.1, ResolvedCommitted);
        } else {
          SetOutcome(key.0, key.1, ResolvedAborted);
        }
        todo := todo - {key};
      }
      return true;
    }
  }

  // ---------------------------------------------------------------- the expected tables

  /** An attempt as it is listed, ordered by writer and sequence number. */
  datatype Row = Row(writer: int, sequence: int, attempt: Attempt)

  type Heads = map<int, int>

  datatype Account = Account(head: int, total: int)

  datatype Slot = Slot(value: int, body: string)

  datatype Tables = Tables(ledger: map<int, Row>, accounts: map<int, Account>, slots: map<int, Slot>,
                           count: nat, total: int)

  datatype Violation = Unreconciled | OrderViolated | DuplicateId

  predicate Before(a: Row, b: Row) {
    a.writer < b.writer || (a.writer == b.writer && a.sequence < b.sequence)
  }

  ghost predicate Listed(rows: seq<Row>) {
    forall i, j :: 0 <= i < j < |rows| ==> Before(rows[i], rows[j])
  }

  function HeadOf(heads: Heads, writer: int): int {
    if writer in heads then heads[writer] else 0
  }

  /** The row belongs to the cut. */
  predicate InCut(row: Row, heads: Heads) {
    row.sequence <= HeadOf(heads, row.writer) && !row.attempt.rolledBack && !IsAborted(row.attempt.outcome)
  }

  predicate DependenciesMet(row: Row, heads: Heads) {
    forall w :: w in row.attempt.dependencies ==> HeadOf(heads, w) >= row.attempt.dependencies[w]
  }

  function SlotOf(writer: int, sequence: int): int {
    writer * SLOTS + sequence % SLOTS
  }

  function InitialAccounts(writers: nat): (accounts: map<int, Account>)
    ensures forall w :: w in accounts <==> 0 <= w < writers
    ensures forall w :: w in accounts ==> accounts[w] == Account(0, 0)
  {
    if writers == 0 then map[] else InitialAccounts(writers - 1)[writers - 1 := Account(0, 0)]
  }

  function InitialSlots(count: nat): (slots: map<int, Slot>)
    ensures forall s :: s in slots <==> 0 <= s < count
    ensures forall s :: s in slots ==> slots[s] == Slot(0, "initial")
  {
    if count == 0 then map[] else InitialSlots(count - 1)[count - 1 := Slot(0, "initial")]
  }

  function InitialTables(writers: nat): Tables {
    Tables(map[], InitialAccounts(writers), InitialSlots(writers * SLOTS), 0, 0)
  }

  /** An update of a row that does not exist changes nothing. */
  function Posted(tables: Tables, row: Row): Tables {
    var Row(w, s, a) := row;
    Tables(
      tables.ledger[IdOf(w, s) := row],
      if w in tables.accounts
      then tables.accounts[w := Account(s, tables.accounts[w].total + a.delta)] else tables.accounts,
      if SlotOf(w, s) in tables.slots
      then tables.slots[SlotOf(w, s) := Slot(a.delta, a.token)] else tables.slots,
      tables.count + 1, tables.total + a.delta)
  }

  function Replayed(tables: Tables, row: Row, heads: Heads): Result<Tables, Violation> {
    if !InCut(row, heads) then Ok(tables)
    else if !IsCommitted(row.attempt.outcome) then Err(Unreconciled)
    else if !DependenciesMet(row, heads) then Err(OrderViolated)
    else if IdOf(row.writer, row.sequence) in tables.ledger then Err(DuplicateId)
    else Ok(Posted(tables, row))
  }

  function Replay(rows: seq<Row>, heads: Heads, writers: nat): Result<Tables, Violation> {
    if rows == [] then Ok(InitialTables(writers))
    else
      var before := Replay(rows[..|rows| - 1], heads, writers);
      if before.Err? then before else Replayed(before.value, rows[|rows| - 1], heads)
  }

  method Expected(rows: seq<Row>, heads: Heads, writers: nat) returns (result: Result<Tables, Violation>)
    ensures result == Replay(rows, heads, writers)
  {
    var tables := InitialTables(writers);
    for i := 0 to |rows|
      invariant Replay(rows[..i], heads, writers) == Ok(tables)
    {
      var row := rows[i];
      assert rows[..i + 1][..i] == rows[..i];
      if InCut(row, heads) {
        if !IsCommitted(row.attempt.outcome) {
          ViolationIsFinal(rows, heads, writers, i + 1);
          return Err(Unreconciled);
        }
        if !DependenciesMet(row, heads) {
          ViolationIsFinal(rows, heads, writers, i + 1);
          return Err(OrderViolated);
        }
        if IdOf(row.writer, row.sequence) in tables.ledger {
          ViolationIsFinal(rows, heads, writers, i + 1);
          return Err(DuplicateId);
        }
        tables := Posted(tables, row);
      }
    }
    assert rows[..|rows|] == rows;
    return Ok(tables);
  }

  lemma {:induction false} ViolationIsFinal(rows: seq<Row>, heads: Heads, writers: nat, count: nat)
    requires count <= |rows| && Replay(rows[..count], heads, writers).Err?
    ensures Replay(rows, heads, writers) == Replay(rows[..count], heads, writers)
    decreases |rows| - count
  {
    if count < |rows| {
      assert rows[..count + 1][..count] == rows[..count];
      ViolationIsFinal(rows, heads, writers, count + 1);
    } else {
      assert rows[..count] == rows;
    }
  }

  // ---------------------------------------------------------------- what an accepted cut contains

  /** Everything in an accepted cut is committed and has its dependencies in the cut. */
  lemma {:induction false} AcceptedRows(rows: seq<Row>, heads: Heads, writers: nat, i: nat)
    requires Replay(rows, heads, writers).Ok? && i < |rows| && InCut(rows[i], heads)
    ensures IsCommitted(rows[i].attempt.outcome) && DependenciesMet(rows[i], heads)
  {
    if i < |rows| - 1 {
      assert rows[..|rows| - 1][i] == rows[i];
      AcceptedRows(rows[..|rows| - 1], heads, writers, i);
    }
  }

  /** `a` was planned after a commit of `b`'s writer at or beyond `b` had been observed. */
  predicate Observed(a: Row, b: Row) {
    b.writer in a.attempt.dependencies && b.sequence <= a.attempt.dependencies[b.writer]
  }

  predicate Effective(row: Row) {
    IsCommitted(row.attempt.outcome) && !row.attempt.rolledBack
  }

  ghost predicate IsChain(rows: seq<Row>, chain: seq<nat>) {
    && chain != [] && (forall k :: 0 <= k < |chain| ==> chain[k] < |rows| && Effective(rows[chain[k]]))
    && (forall k :: 0 <= k < |chain| - 1 ==> Observed(rows[chain[k]], rows[chain[k + 1]]))
  }

  /**
   * An accepted cut is closed under observed commit order: whatever effective
   * transaction can be reached from one of its rows through dependencies is in it.
   */
  lemma {:induction false} AcceptedCutIsClosed(rows: seq<Row>, heads: Heads, writers: nat, chain: seq<nat>, k: nat)
    requires Replay(rows, heads, writers).Ok? && IsChain(rows, chain) && k < |chain|
    requires InCut(rows[chain[0]], heads)
    ensures InCut(rows[chain[k]], heads)
  {
    if k > 0 {
      AcceptedCutIsClosed(rows, heads, writers, chain, k - 1);
      AcceptedRows(rows, heads, writers, chain[k - 1]);
      assert Observed(rows[chain[k - 1]], rows[chain[k - 1 + 1]]);
    }
  }

  /** The rows are the journal's attempts. */
  ghost predicate AreRowsOf(rows: seq<Row>, attempts: Attempts) {
    forall i :: 0 <= i < |rows| ==>
      (rows[i].writer, rows[i].sequence) in attempts
      && attempts[(rows[i].writer, rows[i].sequence)] == rows[i].attempt
  }

  /**
   * Whatever was committed when a transaction was planned is in every accepted cut that
   * has the transaction, however much has been recorded since.
   */
  lemma CutHasWhatWasObserved(before: Attempts, planned: Attempts, later: Attempts,
                              rows: seq<Row>, heads: Heads, writers: nat, t: nat, u: nat)
    requires t < |rows| && u < |rows| && AreRowsOf(rows, later)
    requires (rows[t].writer, rows[t].sequence) in planned && Extends(planned, later)
    requires AreHeads(before, planned[(rows[t].writer, rows[t].sequence)].dependencies)
    requires Extends(before, planned) && (rows[u].writer, rows[u].sequence) in before
    requires IsCommitted(before[(rows[u].writer, rows[u].sequence)].outcome) && !rows[u].attempt.rolledBack
    requires Replay(rows, heads, writers).Ok? && InCut(rows[t], heads)
    ensures InCut(rows[u], heads)
  {
    ExtendsTransitively(before, planned, later);
    assert Observed(rows[t], rows[u]);
    AcceptedRows(rows, heads, writers, t);
    AcceptedCutIsClosed(rows, heads, writers, [t, u], 1);
  }

  // ---------------------------------------------------------------- the sums

  function CutCount(rows: seq<Row>, heads: Heads): nat {
    if rows == [] then 0
    else CutCount(rows[..|rows| - 1], heads) + if InCut(rows[|rows| - 1], heads) then 1 else 0
  }

  /** The deltas of the cut's rows that `of` selects. */
  function CutSum(rows: seq<Row>, heads: Heads, of: Row -> bool): int {
    if rows == [] then 0
    else
      var last := rows[|rows| - 1];
      CutSum(rows[..|rows| - 1], heads, of) + if InCut(last, heads) && of(last) then last.attempt.delta else 0
  }

  function OfWriter(writer: int): Row -> bool {
    (row: Row) => row.writer == writer
  }

  function Outside(writers: nat): Row -> bool {
    (row: Row) => !(0 <= row.writer < writers)
  }

  const ANY: Row -> bool := row => true

  function AccountTotals(accounts: map<int, Account>, writers: nat): int
    requires forall w :: 0 <= w < writers ==> w in accounts
  {
    if writers == 0 then 0 else AccountTotals(accounts, writers - 1) + accounts[writers - 1].total
  }

  ghost predicate SumsAgree(tables: Tables, rows: seq<Row>, heads: Heads, writers: nat) {
    && tables.count == |tables.ledger| == CutCount(rows, heads)
    && tables.total == CutSum(rows, heads, ANY)
    && (forall w :: w in tables.accounts <==> 0 <= w < writers)
    && (forall w :: 0 <= w < writers ==> tables.accounts[w].total == CutSum(rows, heads, OfWriter(w)))
    && AccountTotals(tables.accounts, writers) + CutSum(rows, heads, Outside(writers)) == tables.total
  }

  lemma {:induction false} InitialTotals(accounts: map<int, Account>, writers: nat)
    requires forall w :: 0 <= w < writers ==> w in accounts && accounts[w].total == 0
    ensures AccountTotals(accounts, writers) == 0
  {
    if writers > 0 {
      InitialTotals(accounts, writers - 1);
    }
  }

  lemma {:induction false} UpdatedTotals(accounts: map<int, Account>, writers: nat, w: int, account: Account)
    requires forall v :: 0 <= v < writers ==> v in accounts
    requires w in accounts
    ensures AccountTotals(accounts[w := account], writers)
            == AccountTotals(accounts, writers)
               + if 0 <= w < writers then account.total - accounts[w].total else 0
  {
    if writers > 0 {
      UpdatedTotals(accounts, writers - 1, w, account);
    }
  }

  /**
   * For every accepted cut: the counter's n is the size of the ledger and of the cut,
   * its total is the sum of the ledger's deltas, each account holds its writer's sum, and
   * the account totals add up to the counter's total less what was posted for writers
   * that have no account.
   */
  lemma {:induction false} AcceptedSums(rows: seq<Row>, heads: Heads, writers: nat)
    requires Replay(rows, heads, writers).Ok?
    ensures SumsAgree(Replay(rows, heads, writers).value, rows, heads, writers)
  {
    if rows == [] {
      InitialTotals(InitialTables(writers).accounts, writers);
    } else {
      var before, last := rows[..|rows| - 1], rows[|rows| - 1];
      AcceptedSums(before, heads, writers);
      var earlier := Replay(before, heads, writers).value;
      assert before + [last] == rows;
      if InCut(last, heads) {
        PostingKeepsSums(earlier, before, last, heads, writers);
      } else {
        SkippingKeepsSums(earlier, before, last, heads, writers);
      }
    }
  }

  lemma SumSkipped(rows: seq<Row>, row: Row, heads: Heads, of: Row -> bool)
    requires !InCut(row, heads)
    ensures CutSum(rows + [row], heads, of) == CutSum(rows, heads, of)
    ensures CutCount(rows + [row], heads) == CutCount(rows, heads)
  {
    assert (rows + [row])[..|rows|] == rows;
  }

  lemma SkippingKeepsSums(tables: Tables, rows: seq<Row>, row: Row, heads: Heads, writers: nat)
    requires SumsAgree(tables, rows, heads, writers) && !InCut(row, heads)
    ensures SumsAgree(tables, rows + [row], heads, writers)
  {
    SumSkipped(rows, row, heads, ANY);
    SumSkipped(rows, row, heads, Outside(writers));
    forall w | 0 <= w < writers
      ensures tables.accounts[w].total == CutSum(rows + [row], heads, OfWriter(w))
    {
      SumSkipped(rows, row, heads, OfWriter(w));
    }
  }

  lemma SumAppended(rows: seq<Row>, row: Row, heads: Heads, of: Row -> bool)
    requires InCut(row, heads)
    ensures CutSum(rows + [row], heads, of) == CutSum(rows, heads, of) + if of(row) then row.attempt.delta else 0
    ensures CutCount(rows + [row], heads) == CutCount(rows, heads) + 1
  {
    assert (rows + [row])[..|rows|] == rows;
  }

  lemma PostingKeepsSums(tables: Tables, rows: seq<Row>, row: Row, heads: Heads, writers: nat)
    requires SumsAgree(tables, rows, heads, writers) && InCut(row, heads)
    requires IdOf(row.writer, row.sequence) !in tables.ledger
    ensures SumsAgree(Posted(tables, row), rows + [row], heads, writers)
  {
    var posted := Posted(tables, row);
    SumAppended(rows, row, heads, ANY);
    SumAppended(rows, row, heads, Outside(writers));
    if row.writer in tables.accounts {
      UpdatedTotals(tables.accounts, writers, row.writer, posted.accounts[row.writer]);
    }
    forall w | 0 <= w < writers
      ensures posted.accounts[w].total == CutSum(rows + [row], heads, OfWriter(w))
    {
      SumAppended(rows, row, heads, OfWriter(w));
    }
  }

  /** The account totals add up to the counter exactly when what has no account adds up to nothing. */
  lemma TotalsAgreeIff(rows: seq<Row>, heads: Heads, writers: nat)
    requires Replay(rows, heads, writers).Ok?
    ensures var tables := Replay(rows, heads, writers).value;
            && (forall w :: 0 <= w < writers ==> w in tables.accounts)
            && (AccountTotals(tables.accounts, writers) == tables.total <==> CutSum(rows, heads, Outside(writers)) == 0)
  {
    AcceptedSums(rows, heads, writers);
  }

  /** Any committed transaction of a writer without an account, with a delta, sets them apart. */
  lemma OutsideWriterIsMissed(row: Row, heads: Heads, writers: nat)
    requires InCut(row, heads) && IsCommitted(row.attempt.outcome) && DependenciesMet(row, heads)
    requires !(0 <= row.writer < writers) && row.attempt.delta != 0
    ensures var result := Replay([row], heads, writers);
            && result.Ok? && (forall w :: 0 <= w < writers ==> w in result.value.accounts)
            && AccountTotals(result.value.accounts, writers) != result.value.total
  {
    assert [row][..0] == [] && [] + [row] == [row];
    assert Replay([], heads, writers) == Ok(InitialTables(writers));
    SumAppended([], row, heads, Outside(writers));
    TotalsAgreeIff([row], heads, writers);
  }

  // ---------------------------------------------------------------- heads and slots

  function InSlot(writer: int, slot: int): Row -> bool {
    (row: Row) => row.writer == writer && row.sequence % 16 == slot
  }

  /** The last row of the cut that `of` selects, in the order of the listing. */
  function Latest(rows: seq<Row>, heads: Heads, of: Row -> bool): Option<Row> {
    if rows == [] then None
    else
      var last := rows[|rows| - 1];
      if InCut(last, heads) && of(last) then Some(last) else Latest(rows[..|rows| - 1], heads, of)
  }

  /** In a listing, the latest row is the greatest one; there is none only if nothing is selected. */
  lemma {:induction false} LatestIsGreatest(rows: seq<Row>, heads: Heads, of: Row -> bool, i: nat)
    requires Listed(rows) && i < |rows| && InCut(rows[i], heads) && of(rows[i])
    ensures var latest := Latest(rows, heads, of);
      && latest.Some? && latest.value in rows && InCut(latest.value, heads) && of(latest.value)
      && (rows[i] == latest.value || Before(rows[i], latest.value))
  {
    var before, last := rows[..|rows| - 1], rows[|rows| - 1];
    if !(InCut(last, heads) && of(last)) {
      assert before[i] == rows[i];
      LatestIsGreatest(before, heads, of, i);
    }
  }

  /** Each account's head is the greatest sequence number its writer has in the cut. */
  lemma {:induction false} AcceptedHeads(rows: seq<Row>, heads: Heads, writers: nat, w: int)
    requires Replay(rows, heads, writers).Ok? && 0 <= w < writers
    ensures var accounts := Replay(rows, heads, writers).value.accounts;
      var latest := Latest(rows, heads, OfWriter(w));
      w in accounts && accounts[w].head == if latest.Some? then latest.value.sequence else 0
  {
    if rows != [] {
      AcceptedHeads(rows[..|rows| - 1], heads, writers, w);
    }
  }

  lemma SlotsDiffer(w: int, r: int, row: Row)
    requires 0 <= r < 16
    ensures SlotOf(row.writer, row.sequence) == w * 16 + r <==> InSlot(w, r)(row)
  {
  }

  /** Each slot holds the cut's latest write for its writer and residue. */
  lemma {:induction false} AcceptedSlots(rows: seq<Row>, heads: Heads, writers: nat, w: int, r: int)
    requires Replay(rows, heads, writers).Ok? && 0 <= w < writers && 0 <= r < 16
    ensures var slots := Replay(rows, heads, writers).value.slots;
      var latest := Latest(rows, heads, InSlot(w, r));
      && w * 16 + r in slots
      && slots[w * 16 + r]
         == if latest.Some? then Slot(latest.value.attempt.delta, latest.value.attempt.token) else Slot(0, "initial")
  {
    if rows != [] {
      AcceptedSlots(rows[..|rows| - 1], heads, writers, w, r);
      SlotsDiffer(w, r, rows[|rows| - 1]);
    }
  }

  // ---------------------------------------------------------------- which cuts are accepted

  /** A row that the cut may contain. */
  predicate Admissible(row: Row, heads: Heads) {
    InCut(row, heads) ==> IsCommitted(row.attempt.outcome) && DependenciesMet(row, heads)
  }

  function RowId(row: Row): int {
    IdOf(row.writer, row.sequence)
  }

  ghost predicate IdsDiffer(rows: seq<Row>, heads: Heads) {
    forall i, j :: 0 <= i < j < |rows| && InCut(rows[i], heads) && InCut(rows[j], heads) ==>
      RowId(rows[i]) != RowId(rows[j])
  }

  /** The ledger holds exactly the rows of the cut, each under its own id. */
  lemma {:induction false} LedgerIsCut(rows: seq<Row>, heads: Heads, writers: nat)
    requires Replay(rows, heads, writers).Ok?
    ensures var ledger := Replay(rows, heads, writers).value.ledger;
      && (forall i :: 0 <= i < |rows| && InCut(rows[i], heads) ==>
            RowId(rows[i]) in ledger && ledger[RowId(rows[i])] == rows[i])
      && (forall id :: id in ledger ==> ledger[id] in rows && InCut(ledger[id], heads) && RowId(ledger[id]) == id)
  {
    if rows != [] {
      LedgerIsCut(rows[..|rows| - 1], heads, writers);
    }
  }

  /** What the rows of an acceptable cut have to meet. */
  ghost predicate Acceptable(rows: seq<Row>, heads: Heads) {
    (forall i :: 0 <= i < |rows| ==> Admissible(rows[i], heads)) && IdsDiffer(rows, heads)
  }

  /** A cut is accepted exactly when its rows are committed, ordered as observed and have different ids. */
  lemma {:induction false} AcceptedExactly(rows: seq<Row>, heads: Heads, writers: nat)
    ensures Replay(rows, heads, writers).Ok? <==> Acceptable(rows, heads)
  {
    if rows != [] {
      var before, last := rows[..|rows| - 1], rows[|rows| - 1];
      AcceptedExactly(before, heads, writers);
      assert rows == before + [last];
      PrefixIsAcceptable(before, last, heads);
      if Replay(before, heads, writers).Ok? {
        LedgerIsCut(before, heads, writers);
        AppendedIsAcceptable(before, last, heads, Replay(before, heads, writers).value.ledger);
      }
    }
  }

  lemma PrefixIsAcceptable(rows: seq<Row>, last: Row, heads: Heads)
    ensures Acceptable(rows + [last], heads) ==> Acceptable(rows, heads)
  {
    var all := rows + [last];
    assert forall i :: 0 <= i < |rows| ==> all[i] == rows[i];
  }

  /** An acceptable cut stays so exactly when the next row is admissible and its id is new. */
  lemma AppendedIsAcceptable(rows: seq<Row>, last: Row, heads: Heads, ledger: map<int, Row>)
    requires Acceptable(rows, heads)
    requires forall i :: 0 <= i < |rows| && InCut(rows[i], heads) ==>
      RowId(rows[i]) in ledger && ledger[RowId(rows[i])] == rows[i]
    requires forall id :: id in ledger ==>
      ledger[id] in rows && InCut(ledger[id], heads) && RowId(ledger[id]) == id
    ensures Acceptable(rows + [last], heads)
            <==> Admissible(last, heads) && (InCut(last, heads) ==> RowId(last) !in ledger)
  {
    var all := rows + [last];
    assert all[|rows|] == last;
    if InCut(last, heads) && RowId(last) in ledger {
      var i :| 0 <= i < |rows| && rows[i] == ledger[RowId(last)];
      assert all[i] == rows[i];
    }
  }

  /** Ids cannot clash while sequence numbers stay below the stride. */
  lemma SmallSequencesDiffer(rows: seq<Row>, heads: Heads)
    requires Listed(rows)
    requires forall i :: 0 <= i < |rows| ==> 0 <= rows[i].sequence < ID_STRIDE
    ensures IdsDiffer(rows, heads)
  {
    forall i, j | 0 <= i < j < |rows| && InCut(rows[i], heads) && InCut(rows[j], heads)
      ensures RowId(rows[i]) != RowId(rows[j])
    {
      assert Before(rows[i], rows[j]);
    }
  }

  // ---------------------------------------------------------------- the cut, row by row

  /** The row is at or below its writer's head; a writer without a head has none above zero. */
  predicate Reached(row: Row, heads: Heads) {
    if row.writer in heads then row.sequence <= heads[row.writer] else row.sequence <= 0
  }

  /** The row never had an effect: it was rolled back or its commit failed. */
  predicate Voided(row: Row) {
    row.attempt.rolledBack || row.attempt.outcome == Aborted || row.attempt.outcome == ResolvedAborted
  }

  /** The row's commit is known: it was acknowledged, or found in a restored ledger. */
  predicate Confirmed(row: Row) {
    row.attempt.outcome == Acknowledged || row.attempt.outcome == ResolvedCommitted
  }

  /** Whatever the row's writer had seen committed is at or below the heads. */
  predicate Ordered(row: Row, heads: Heads) {
    forall w :: w in row.attempt.dependencies ==>
      if w in heads then row.attempt.dependencies[w] <= heads[w] else row.attempt.dependencies[w] <= 0
  }

  /** The ledger of an accepted cut holds a row exactly when it is reached, confirmed and not rolled back. */
  lemma LedgerHoldsExactly(rows: seq<Row>, heads: Heads, writers: nat, row: Row)
    requires Replay(rows, heads, writers).Ok? && row in rows
    ensures var ledger := Replay(rows, heads, writers).value.ledger;
      var id := row.writer * 10_000_000 + row.sequence;
      id in ledger && ledger[id] == row <==> Reached(row, heads) && Confirmed(row) && !row.attempt.rolledBack
  {
    LedgerIsCut(rows, heads, writers);
    var i :| 0 <= i < |rows| && rows[i] == row;
    if InCut(row, heads) {
      AcceptedRows(rows, heads, writers, i);
    }
  }

  /**
   * A cut is accepted exactly when every row that is reached and not voided is confirmed, has
   * its dependencies and has an id of its own.
   */
  lemma AcceptedIff(rows: seq<Row>, heads: Heads, writers: nat)
    ensures Replay(rows, heads, writers).Ok? <==>
      && (forall i :: 0 <= i < |rows| && Reached(rows[i], heads) && !Voided(rows[i]) ==>
            Confirmed(rows[i]) && Ordered(rows[i], heads))
      && (forall i, j :: 0 <= i < j < |rows| && Reached(rows[i], heads) && !Voided(rows[i])
                         && Reached(rows[j], heads) && !Voided(rows[j]) ==>
            rows[i].writer * 10_000_000 + rows[i].sequence != rows[j].writer * 10_000_000 + rows[j].sequence)
  {
    AcceptedExactly(rows, heads, writers);
    forall i | 0 <= i < |rows|
      ensures InCut(rows[i], heads) <==> Reached(rows[i], heads) && !Voided(rows[i])
      ensures Admissible(rows[i], heads) <==>
        (Reached(rows[i], heads) && !Voided(rows[i]) ==> Confirmed(rows[i]) && Ordered(rows[i], heads))
    {
      OrderedIff(rows[i], heads);
    }
    IdsDifferIff(rows, heads);
  }

  lemma OrderedIff(row: Row, heads: Heads)
    ensures DependenciesMet(row, heads) <==> Ordered(row, heads)
  {
  }

  lemma IdsDifferIff(rows: seq<Row>, heads: Heads)
    ensures IdsDiffer(rows, heads) <==>
      forall i, j :: 0 <= i < j < |rows| && Reached(rows[i], heads) && !Voided(rows[i])
                     && Reached(rows[j], heads) && !Voided(rows[j]) ==>
        rows[i].writer * 10_000_000 + rows[i].sequence != rows[j].writer * 10_000_000 + rows[j].sequence
  {
  }

  function Kept(rows: seq<Row>, keep: Row -> bool): seq<Row> {
    if rows == [] then []
    else Kept(rows[..|rows| - 1], keep) + if keep(rows[|rows| - 1]) then [rows[|rows| - 1]] else []
  }

  /** Rows that are voided or not reached change nothing: with any of them left out, the replay is the same. */
  lemma {:induction false} OthersChangeNothing(rows: seq<Row>, keep: Row -> bool, heads: Heads, writers: nat)
    requires forall i :: 0 <= i < |rows| && !keep(rows[i]) ==> Voided(rows[i]) || !Reached(rows[i], heads)
    ensures Replay(Kept(rows, keep), heads, writers) == Replay(rows, heads, writers)
  {
    if rows != [] {
      var before, last := rows[..|rows| - 1], rows[|rows| - 1];
      OthersChangeNothing(before, keep, heads, writers);
      if keep(last) {
        ReplayNext(Kept(before, keep), last, heads, writers);
      } else {
        assert Kept(rows, keep) == Kept(before, keep);
        assert !InCut(last, heads);
      }
    }
  }

  lemma ReplayNext(rows: seq<Row>, row: Row, heads: Heads, writers: nat)
    ensures var before := Replay(rows, heads, writers);
      Replay(rows + [row], heads, writers) == if before.Err? then before else Replayed(before.value, row, heads)
  {
    assert (rows + [row])[..|rows|] == rows;
  }
}
