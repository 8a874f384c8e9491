/**
 * Schema migrations of one application (`Database::migrate_local` in
 * crates/bicdb-app-host/src/database.rs). The history table only ever grows; a
 * release may run only on a history that equals its own migration list.
 */
module Migrations {
  import opened Prelude

  /** A migration file of a release: its name and the digest of its source. */
  datatype Migration = Migration(name: string, digest: string)

  /** A row of the history table. */
  datatype Row = Row(position: nat, name: string, digest: string)

  /** The history that a release with these migrations expects. */
  function Rows(migrations: seq<Migration>): (rows: seq<Row>)
    ensures |rows| == |migrations|
    ensures forall i :: 0 <= i < |rows| ==> rows[i] == Row(i, migrations[i].name, migrations[i].digest)
  {
    seq(|migrations|, i requires 0 <= i < |migrations| => Row(i, migrations[i].name, migrations[i].digest))
  }

  ghost predicate Contiguous(history: seq<Row>) {
    forall i :: 0 <= i < |history| ==> history[i].position == i
  }

  lemma RowsAreInjective(a: seq<Migration>, b: seq<Migration>)
    requires Rows(a) <= Rows(b)
    ensures a <= b
  {
    forall i | 0 <= i < |a| ensures a[i] == b[i] {
      assert Rows(a)[i] == Rows(b)[i];
    }
  }

  /** The first position from `from` on that fails, or the length of the list. */
  function FirstFailure(migrations: seq<Migration>, from: nat, failing: set<nat>): (stop: nat)
    requires from <= |migrations|
    ensures from <= stop <= |migrations|
    ensures forall i :: from <= i < stop ==> i !in failing
    ensures stop < |migrations| ==> stop in failing
    decreases |migrations| - from
  {
    if from == |migrations| || from in failing then from else FirstFailure(migrations, from + 1, failing)
  }

  /**
   * One attempt on `history`. `failing` holds the positions whose source cannot be
   * decoded, parsed, authorised, executed or committed.
   */
  function Attempt(history: seq<Row>, migrations: seq<Migration>, failing: set<nat>): (seq<Row>, bool) {
    if history <= Rows(migrations) && FirstFailure(migrations, 0, failing) >= |history| then
      var stop := FirstFailure(migrations, 0, failing);
      (Rows(migrations[..stop]), stop == |migrations|)
    else (history, false)
  }

  class Database {
    var applied: seq<Row>

    constructor ()
      ensures applied == []
    {
      applied := [];
    }

    method Migrate(migrations: seq<Migration>, failing: set<nat>) returns (ok: bool)
      requires Contiguous(applied)
      modifies this
      ensures Contiguous(applied)
      ensures (applied, ok) == Attempt(old(applied), migrations, failing)
    {
      var rows := applied;
      if |migrations| < |rows| {
        return false;
      }
      for position := 0 to |migrations|
        invariant applied == if position <= |rows| then rows else Rows(migrations[..position])
        invariant rows[..if position <= |rows| then position else |rows|] <= Rows(migrations)
        invariant forall i :: 0 <= i < position ==> i !in failing
      {
        if position in failing {
          assert FirstFailure(migrations, 0, failing) == position;
          assert position >= |rows| ==> rows <= Rows(migrations);
          assert position == |rows| ==> rows == Rows(migrations[..position]);
          return false;
        }
        var migration := migrations[position];
        if position < |rows| {
          if rows[position].name != migration.name || rows[position].digest != migration.digest {
            assert rows[position] != Rows(migrations)[position];
            return false;
          }
        } else {
          assert position == |rows| ==> applied == Rows(migrations[..position]);
          applied := applied + [Row(position, migration.name, migration.digest)];
        }
      }
      assert migrations[..|migrations|] == migrations;
      assert FirstFailure(migrations, 0, failing) == |migrations|;
      assert |rows| == |migrations| ==> rows == Rows(migrations);
      return true;
    }
  }

  // ---------------------------------------------------------------- every run of attempts

  datatype Try = Try(migrations: seq<Migration>, failing: set<nat>)

  /** The history after every attempt of `tries`, starting from `history`. */
  function After(history: seq<Row>, tries: seq<Try>): seq<Row> {
    if tries == [] then history
    else
      var before := After(history, tries[..|tries| - 1]);
      Attempt(before, tries[|tries| - 1].migrations, tries[|tries| - 1].failing).0
  }

  /** Whether attempt `i` of `tries` succeeded. */
  predicate Succeeded(history: seq<Row>, tries: seq<Try>, i: nat)
    requires i < |tries|
  {
    Attempt(After(history, tries[..i]), tries[i].migrations, tries[i].failing).1
  }

  /** What a single attempt does to the history, whether or not it succeeds. */
  lemma AttemptExtends(history: seq<Row>, migrations: seq<Migration>, failing: set<nat>)
    ensures var (after, ok) := Attempt(history, migrations, failing);
            && history <= after
            && (Contiguous(history) ==> Contiguous(after))
            && (after != history ==> history <= Rows(migrations) && after <= Rows(migrations))
            && (ok <==> history <= Rows(migrations) && forall i :: 0 <= i < |migrations| ==> i !in failing)
            && (ok ==> after == Rows(migrations))
  {
    var stop := FirstFailure(migrations, 0, failing);
    assert migrations[..|migrations|] == migrations;
    assert Rows(migrations[..stop]) <= Rows(migrations);
  }

  /**
   * An attempt that fails keeps what it applied up to the first position that fails, and
   * applies nothing when that position is already applied or the history is not a prefix.
   */
  lemma FailedAttemptStops(history: seq<Row>, migrations: seq<Migration>, failing: set<nat>, position: nat)
    requires position < |migrations| && position in failing
    requires forall i :: 0 <= i < position ==> i !in failing
    ensures !Attempt(history, migrations, failing).1
    ensures var after := Attempt(history, migrations, failing).0;
      after == if history <= Rows(migrations) && |history| <= position then Rows(migrations)[..position] else history
  {
    assert FirstFailure(migrations, 0, failing) == position;
    assert Rows(migrations[..position]) == Rows(migrations)[..position];
  }

  lemma {:induction false} HistoryGrows(history: seq<Row>, tries: seq<Try>, i: nat)
    requires i <= |tries|
    ensures After(history, tries[..i]) <= After(history, tries)
    ensures Contiguous(history) ==> Contiguous(After(history, tries))
  {
    var last := |tries| - 1;
    if tries != [] {
      AttemptExtends(After(history, tries[..last]), tries[last].migrations, tries[last].failing);
      if i <= last {
        assert tries[..last][..i] == tries[..i];
        HistoryGrows(history, tries[..last], i);
      } else {
        assert tries[..i] == tries;
        HistoryGrows(history, tries[..last], last);
      }
    } else {
      assert tries[..i] == [];
    }
  }

  /**
   * Releases that ever migrated successfully form a chain of prefixes in the order
   * of their success: a release that drops or changes an applied migration is refused
   * for ever after.
   */
  lemma SuccessesFormAChain(history: seq<Row>, tries: seq<Try>, i: nat, j: nat)
    requires i < j < |tries|
    requires Succeeded(history, tries, i) && Succeeded(history, tries, j)
    ensures tries[i].migrations <= tries[j].migrations
  {
    var upto := tries[..j];
    assert upto[..i + 1] == tries[..i + 1];
    assert tries[..i + 1][..i] == tries[..i];
    HistoryGrows(history, upto, i + 1);
    AttemptExtends(After(history, tries[..i]), tries[i].migrations, tries[i].failing);
    AttemptExtends(After(history, upto), tries[j].migrations, tries[j].failing);
    assert Rows(tries[i].migrations) <= Rows(tries[j].migrations);
    RowsAreInjective(tries[i].migrations, tries[j].migrations);
  }
}
