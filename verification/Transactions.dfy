/**
 * Transactional query batches with idempotency receipts and a job outbox
 * (`query_with_deadline_local` and `acknowledge` in
 * crates/bicdb-app-host/src/database.rs, `drain_outbox_local` in database/jobs.rs).
 *
 * The engine is any function from the statements executed so far to the outcome of
 * the next one, and may differ from attempt to attempt. Digests are taken to be
 * injective, so a receipt carries the content it was issued for.
 */
module Transactions {
  import opened Prelude

  // ---------------------------------------------------------------- data

  datatype Statement = Statement(sql: string, params: seq<string>)

  /** A JSON text: a job payload or the rows a statement returned. */
  type Json = string

  datatype Batch = Batch(statements: seq<Statement>, key: Option<string>, jobs: seq<Json>)

  /** What the receipt digest covers. */
  datatype Content = SqlOnly(statements: seq<Statement>) | WithJobs(statements: seq<Statement>, jobs: seq<Json>)

  datatype Receipt = Receipt(content: Content, result: seq<Json>)

  datatype OutboxRow = OutboxRow(id: nat, position: int, payload: Json)

  datatype JobRow = JobRow(id: nat, payload: Json)

  /** `data` is the sequence of committed statements; `nextId` stands for fresh identifiers. */
  datatype Store = Store(data: seq<Statement>, receipts: map<string, Receipt>,
                         outbox: seq<OutboxRow>, jobs: seq<JobRow>, nextId: nat)

  const EMPTY := Store([], map[], [], [], 0)

  type Engine = (seq<Statement>, Statement) -> Option<Json>

  /** Which calls to the database fail during one attempt. */
  datatype Faults = Faults(lookup: bool, begin: bool, queue: bool, receipt: bool, commit: bool, acknowledge: bool)

  datatype Environment = Environment(permits: Statement -> bool, engine: Engine, faults: Faults)

  datatype Refusal = Invalid | KeyReused | Failed | Unconfirmed

  type Reply = Result<seq<Json>, Refusal>

  const MAX_STATEMENTS := 128
  const MAX_JOBS := 128
  const MAX_JOB_BYTES := 8 * 1024 * 1024
  const MAX_SQL_BYTES := 128 * 1024
  const MAX_PARAMS := 1024
  const MAX_KEY_BYTES := 256
  const MAX_RECEIPT_BYTES := 1024 * 1024
  const MAX_POSITION := 0x7FFF_FFFF_FFFF_FFFF
  const MAX_DRAIN := 128
  const MAX_DRAIN_BYTES := 16 * 1024 * 1024

  function ContentOf(batch: Batch): Content {
    if batch.jobs == [] then SqlOnly(batch.statements) else WithJobs(batch.statements, batch.jobs)
  }

  predicate Admissible(batch: Batch, permits: Statement -> bool) {
    && (batch.statements != [] || batch.jobs != [])
    && |batch.statements| <= MAX_STATEMENTS && |batch.jobs| <= MAX_JOBS
    && (forall i :: 0 <= i < |batch.jobs| ==> |batch.jobs[i]| <= MAX_JOB_BYTES)
    && (forall i :: 0 <= i < |batch.statements| ==>
          && |batch.statements[i].sql| <= MAX_SQL_BYTES && |batch.statements[i].params| <= MAX_PARAMS
          && permits(batch.statements[i]))
    && (batch.key.Some? ==> 0 < |batch.key.value| <= MAX_KEY_BYTES)
  }

  // ---------------------------------------------------------------- one attempt

  /** The results of the statements of a transaction opened on `data`. */
  function Results(data: seq<Statement>, statements: seq<Statement>, engine: Engine): Option<seq<Json>> {
    if statements == [] then Some([])
    else
      var last := |statements| - 1;
      var before := Results(data, statements[..last], engine);
      if before.None? then None
      else
        var result := engine(data + statements[..last], statements[last]);
        if result.None? then None else Some(before.value + [result.value])
  }

  /** Each statement is answered by the engine after the ones before it. */
  ghost predicate AllAnswered(data: seq<Statement>, statements: seq<Statement>, engine: Engine) {
    forall i :: 0 <= i < |statements| ==> engine(data + statements[..i], statements[i]).Some?
  }

  /** The answers, one for each statement and in their order. */
  ghost predicate AreAnswers(results: seq<Json>, data: seq<Statement>, statements: seq<Statement>, engine: Engine) {
    && |results| == |statements|
    && forall i :: 0 <= i < |statements| ==> engine(data + statements[..i], statements[i]) == Some(results[i])
  }

  lemma {:induction false} ResultsAreAnswers(data: seq<Statement>, statements: seq<Statement>, engine: Engine)
    ensures Results(data, statements, engine).Some? <==> AllAnswered(data, statements, engine)
    ensures Results(data, statements, engine).Some? ==>
      AreAnswers(Results(data, statements, engine).value, data, statements, engine)
  {
    if statements != [] {
      var last := |statements| - 1;
      var before := statements[..last];
      ResultsAreAnswers(data, before, engine);
      assert forall i :: 0 <= i < last ==> before[i] == statements[i] && before[..i] == statements[..i];
    }
  }

  function MaxPosition(outbox: seq<OutboxRow>): int {
    if outbox == [] then 0
    else
      var before, last := MaxPosition(outbox[..|outbox| - 1]), outbox[|outbox| - 1].position;
      if last > before then last else before
  }

  /** The outbox rows of `jobs`, numbered upward from `position`. */
  function Queued(jobs: seq<Json>, position: int, id: nat): seq<OutboxRow> {
    seq(|jobs|, i requires 0 <= i < |jobs| => OutboxRow(id + i, position + i + 1, jobs[i]))
  }

  function EncodedBytes(results: seq<Json>): nat {
    if results == [] then 2
    else EncodedBytes(results[..|results| - 1]) + |results[|results| - 1]| + if |results| == 1 then 0 else 1
  }

  /** What a batch would commit, or nothing when it has to be rolled back. */
  function Outcome(store: Store, batch: Batch, env: Environment): Option<(Store, seq<Json>)> {
    var results := Results(store.data, batch.statements, env.engine);
    var position := MaxPosition(store.outbox);
    if env.faults.begin || results.None? then None
    else if batch.jobs != [] && (env.faults.queue || position + |batch.jobs| > MAX_POSITION) then None
    else if batch.key.Some? && (env.faults.receipt || EncodedBytes(results.value) > MAX_RECEIPT_BYTES) then None
    else if env.faults.commit then None
    else
      Some((Store(store.data + batch.statements,
                  if batch.key.Some?
                  then store.receipts[batch.key.value := Receipt(ContentOf(batch), results.value)]
                  else store.receipts,
                  store.outbox + Queued(batch.jobs, position, store.nextId),
                  store.jobs, store.nextId + |batch.jobs|),
            results.value))
  }

  /** The stored receipt that answers the batch, if its key has one. */
  function Replay(store: Store, batch: Batch): Option<Reply> {
    if batch.key.None? || batch.key.value !in store.receipts then None
    else
      var receipt := store.receipts[batch.key.value];
      Some(if receipt.content == ContentOf(batch) then Ok(receipt.result) else Err(KeyReused))
  }

  function Acknowledged(reply: Reply, faults: Faults): Reply {
    if reply.Ok? && faults.acknowledge then Err(Unconfirmed) else reply
  }

  function Execute(store: Store, batch: Batch, env: Environment): (Store, Reply) {
    if !Admissible(batch, env.permits) then (store, Err(Invalid))
    else if batch.key.Some? && env.faults.lookup then (store, Err(Failed))
    else
      var replay := Replay(store, batch);
      if replay.Some? then (store, Acknowledged(replay.value, env.faults))
      else
        var outcome := Outcome(store, batch, env);
        if outcome.None? then (store, Err(Failed))
        else (outcome.value.0, Acknowledged(Ok(outcome.value.1), env.faults))
  }

  /** The receipt's content is the batch, apart from its key. */
  lemma ContentIsTheBatch(a: Batch, b: Batch)
    ensures ContentOf(a) == ContentOf(b) <==> a.statements == b.statements && a.jobs == b.jobs
  {
  }

  /** The encoded results: a JSON array of them. */
  function Encoded(results: seq<Json>): Json {
    "[" + Commas(results) + "]"
  }

  function Commas(results: seq<Json>): Json {
    if results == [] then ""
    else Commas(results[..|results| - 1]) + (if |results| == 1 then "" else ",") + results[|results| - 1]
  }

  lemma {:induction false} EncodedLength(results: seq<Json>)
    ensures EncodedBytes(results) == |Encoded(results)|
  {
    if results != [] {
      EncodedLength(results[..|results| - 1]);
    }
  }

  /** Whether the attempt commits. */
  predicate Commits(store: Store, batch: Batch, env: Environment) {
    && Admissible(batch, env.permits)
    && !(batch.key.Some? && env.faults.lookup)
    && Replay(store, batch).None?
    && Outcome(store, batch, env).Some?
  }

  /** What the host accepts as a batch. */
  ghost predicate WithinLimits(batch: Batch, permits: Statement -> bool) {
    && |batch.statements| + |batch.jobs| > 0 && |batch.statements| <= 128 && |batch.jobs| <= 128
    && (forall job :: job in batch.jobs ==> |job| <= 8388608)
    && (forall s :: s in batch.statements ==> |s.sql| <= 131072 && |s.params| <= 1024 && permits(s))
    && (batch.key.Some? ==> 1 <= |batch.key.value| <= 256)
  }

  /**
   * An attempt commits exactly when the batch is within the limits, its key is new, every
   * statement is answered, positions and the receipt fit, and nothing fails.
   */
  lemma CommitsExactly(store: Store, batch: Batch, env: Environment)
    ensures Commits(store, batch, env) <==>
      && WithinLimits(batch, env.permits) && AllAnswered(store.data, batch.statements, env.engine)
      && !env.faults.begin && !env.faults.commit
      && (batch.jobs != [] ==> !env.faults.queue && MaxPosition(store.outbox) + |batch.jobs| < 0x8000_0000_0000_0000)
      && (batch.key.Some? ==>
            && !env.faults.lookup && batch.key.value !in store.receipts && !env.faults.receipt
            && forall results :: AreAnswers(results, store.data, batch.statements, env.engine) ==>
                 |Encoded(results)| <= 1048576)
  {
    ResultsAreAnswers(store.data, batch.statements, env.engine);
    AdmissibleMeans(batch, env.permits);
    if AllAnswered(store.data, batch.statements, env.engine) {
      var results := Results(store.data, batch.statements, env.engine).value;
      EncodedLength(results);
      forall other | AreAnswers(other, store.data, batch.statements, env.engine)
        ensures other == results
      {
        AnswersAreUnique(other, results, store.data, batch.statements, env.engine);
      }
    }
  }

  lemma AdmissibleMeans(batch: Batch, permits: Statement -> bool)
    ensures Admissible(batch, permits) <==> WithinLimits(batch, permits)
  {
    if Admissible(batch, permits) {
      assert forall job :: job in batch.jobs ==> exists i :: 0 <= i < |batch.jobs| && batch.jobs[i] == job;
      assert forall s :: s in batch.statements ==> exists i :: 0 <= i < |batch.statements| && batch.statements[i] == s;
    }
  }

  lemma AnswersAreUnique(a: seq<Json>, b: seq<Json>, data: seq<Statement>, statements: seq<Statement>, engine: Engine)
    requires AreAnswers(a, data, statements, engine) && AreAnswers(b, data, statements, engine)
    ensures a == b
  {
    forall i | 0 <= i < |statements| ensures a[i] == b[i] {
      assert engine(data + statements[..i], statements[i]) == Some(a[i]);
    }
  }

  /** The reply to a batch that commits is the answers to its statements, in order. */
  lemma CommitReplies(store: Store, batch: Batch, env: Environment)
    requires Commits(store, batch, env)
    ensures var reply := Execute(store, batch, env).1;
      if env.faults.acknowledge then reply == Err(Unconfirmed)
      else reply.Ok? && AreAnswers(reply.value, store.data, batch.statements, env.engine)
  {
    ResultsAreAnswers(store.data, batch.statements, env.engine);
  }

  // ---------------------------------------------------------------- draining

  /** How many of the first `limit` rows fit into one drain, `bytes` being spent already; None: a row is too large. */
  function Fitting(rows: seq<OutboxRow>, bytes: nat): Option<nat> {
    if rows == [] then Some(0)
    else if |rows[0].payload| > MAX_JOB_BYTES then None
    else if bytes + |rows[0].payload| > MAX_DRAIN_BYTES then Some(0)
    else
      var rest := Fitting(rows[1..], bytes + |rows[0].payload|);
      if rest.None? then None else Some(rest.value + 1)
  }

  function Plus(taken: nat, more: Option<nat>): Option<nat> {
    if more.None? then None else Some(taken + more.value)
  }

  lemma FittingBound(rows: seq<OutboxRow>, bytes: nat)
    ensures Fitting(rows, bytes).Some? ==> Fitting(rows, bytes).value <= |rows|
  {
  }

  function PayloadBytes(rows: seq<OutboxRow>): nat {
    if rows == [] then 0 else |rows[0].payload| + PayloadBytes(rows[1..])
  }

  /** A drain takes as many rows from the front as fit, and stops at the first that does not. */
  lemma {:induction false} FittingIsMaximal(rows: seq<OutboxRow>, bytes: nat, count: nat)
    requires bytes <= MAX_DRAIN_BYTES && count <= |rows|
    requires forall i :: 0 <= i < count ==> |rows[i].payload| <= MAX_JOB_BYTES
    requires bytes + PayloadBytes(rows[..count]) <= MAX_DRAIN_BYTES
    requires count < |rows| ==>
      |rows[count].payload| > MAX_JOB_BYTES || bytes + PayloadBytes(rows[..count + 1]) > MAX_DRAIN_BYTES
    ensures Fitting(rows, bytes)
            == if count < |rows| && |rows[count].payload| > MAX_JOB_BYTES then None else Some(count)
  {
    if count > 0 {
      assert rows[..count][1..] == rows[1..][..count - 1];
      if count < |rows| {
        assert rows[..count + 1][1..] == rows[1..][..count];
      }
      FittingIsMaximal(rows[1..], bytes + |rows[0].payload|, count - 1);
    } else if rows != [] {
      assert rows[..1] == [rows[0]] && PayloadBytes([rows[0]][1..]) == 0;
    }
  }

  function JobsOf(rows: seq<OutboxRow>): seq<JobRow> {
    seq(|rows|, i requires 0 <= i < |rows| => JobRow(rows[i].id, rows[i].payload))
  }

  function Head(outbox: seq<OutboxRow>, limit: nat): seq<OutboxRow> {
    if limit < |outbox| then outbox[..limit] else outbox
  }

  /** One drain; `fails` when some call of its transaction fails. */
  function Drained(store: Store, limit: nat, fails: bool): Store {
    if !(1 <= limit <= MAX_DRAIN) || fails then store
    else
      FittingBound(Head(store.outbox, limit), 0);
      match Fitting(Head(store.outbox, limit), 0)
      case None => store
      case Some(count) =>
        store.(outbox := store.outbox[count..], jobs := store.jobs + JobsOf(store.outbox[..count]))
  }

  // ---------------------------------------------------------------- the database

  /** Positions strictly increase in the order of commit. */
  predicate InOrder(outbox: seq<OutboxRow>) {
    && (forall i :: 0 <= i < |outbox| ==> 0 < outbox[i].position <= MAX_POSITION)
    && (forall i, j :: 0 <= i < j < |outbox| ==> outbox[i].position < outbox[j].position)
  }

  class Database {
    var data: seq<Statement>
    var receipts: map<string, Receipt>
    var outbox: seq<OutboxRow>
    var jobs: seq<JobRow>
    var nextId: nat

    function Contents(): Store
      reads this
    {
      Store(data, receipts, outbox, jobs, nextId)
    }

    constructor ()
      ensures Contents() == EMPTY
    {
      data, receipts, outbox, jobs, nextId := [], map[], [], [], 0;
    }

    /** The statements of a transaction; `results` grows statement by statement. */
    method RunStatements(batch: Batch, engine: Engine) returns (results: Option<seq<Json>>)
      ensures results == Results(data, batch.statements, engine)
      ensures results.Some? <==> AllAnswered(data, batch.statements, engine)
      ensures results.Some? ==> AreAnswers(results.value, data, batch.statements, engine)
    {
      ResultsAreAnswers(data, batch.statements, engine);
      var collected := [];
      var working := data;
      for i := 0 to |batch.statements|
        invariant working == data + batch.statements[..i]
        invariant Results(data, batch.statements[..i], engine) == Some(collected)
      {
        assert batch.statements[..i + 1][..i] == batch.statements[..i];
        var result := engine(working, batch.statements[i]);
        if result.None? {
          FailureIsFinal(data, batch.statements, i + 1, engine);
          return None;
        }
        collected := collected + [result.value];
        working := working + [batch.statements[i]];
      }
      assert batch.statements[..|batch.statements|] == batch.statements;
      return Some(collected);
    }

    /** The outbox rows of a transaction. */
    method QueueJobs(batch: Batch) returns (rows: Option<seq<OutboxRow>>)
      requires batch.jobs != []
      ensures rows.Some? <==> MaxPosition(outbox) + |batch.jobs| <= MAX_POSITION
      ensures rows.Some? ==> rows.value == Queued(batch.jobs, MaxPosition(outbox), nextId)
    {
      var position := MaxPosition(outbox);
      var queued: seq<OutboxRow> := [];
      for index := 0 to |batch.jobs|
        invariant queued == Queued(batch.jobs[..index], position, nextId)
        invariant index == 0 || position + index <= MAX_POSITION
      {
        if position + index + 1 > MAX_POSITION {
          return None;
        }
        queued := queued + [OutboxRow(nextId + index, position + index + 1, batch.jobs[index])];
      }
      assert batch.jobs[..|batch.jobs|] == batch.jobs;
      return Some(queued);
    }

    /** The locally executed batch: receipt lookup, transaction and commit under one lock. */
    method QueryLocal(batch: Batch, env: Environment) returns (reply: Reply)
      modifies this
      ensures Contents() == Execute(old(Contents()), batch, env).0
      ensures Acknowledged(reply, env.faults) == Execute(old(Contents()), batch, env).1
    {
      if !Admissible(batch, env.permits) {
        return Err(Invalid);
      }
      if batch.key.Some? {
        if env.faults.lookup {
          return Err(Failed);
        }
        if batch.key.value in receipts {
          var receipt := receipts[batch.key.value];
          if receipt.content != ContentOf(batch) {
            return Err(KeyReused);
          }
          return Ok(receipt.result);
        }
      }
      if env.faults.begin {
        return Err(Failed);
      }
      var results := RunStatements(batch, env.engine);
      if results.None? {
        return Err(Failed);
      }
      var queued: seq<OutboxRow> := [];
      if batch.jobs != [] {
        if env.faults.queue {
          return Err(Failed);
        }
        var rows := QueueJobs(batch);
        if rows.None? {
          return Err(Failed);
        }
        queued := rows.value;
      }
      assert queued == Queued(batch.jobs, MaxPosition(outbox), nextId);
      if batch.key.Some? && (EncodedBytes(results.value) > MAX_RECEIPT_BYTES || env.faults.receipt) {
        return Err(Failed);
      }
      if env.faults.commit {
        return Err(Failed);
      }
      data := data + batch.statements;
      if batch.key.Some? {
        receipts := receipts[batch.key.value := Receipt(ContentOf(batch), results.value)];
      }
      outbox := outbox + queued;
      nextId := nextId + |batch.jobs|;
      return Ok(results.value);
    }

    /** A batch with its acknowledgement, which may be lost after the commit. */
    method Query(batch: Batch, env: Environment) returns (reply: Reply)
      modifies this
      ensures (Contents(), reply) == Execute(old(Contents()), batch, env)
    {
      reply := QueryLocal(batch, env);
      if reply.Ok? && env.faults.acknowledge {
        reply := Err(Unconfirmed);
      }
    }

    /** How many of the rows one drain takes, or nothing when it meets a row that is too large. */
    method CountFitting(rows: seq<OutboxRow>) returns (count: Option<nat>)
      ensures count == Fitting(rows, 0)
    {
      var taken, bytes: nat := 0, 0;
      while taken < |rows|
        invariant taken <= |rows|
        invariant Fitting(rows, 0) == Plus(taken, Fitting(rows[taken..], bytes))
      {
        var size := |rows[taken].payload|;
        assert rows[taken..][0] == rows[taken] && rows[taken..][1..] == rows[taken + 1..];
        if size > MAX_JOB_BYTES {
          return None;
        }
        if bytes + size > MAX_DRAIN_BYTES {
          return Some(taken);
        }
        taken, bytes := taken + 1, bytes + size;
      }
      return Some(taken);
    }

    /** Moves outbox rows, in position order, into the job ledger in one transaction, and counts them. */
    method DrainOutbox(limit: nat, fails: bool) returns (count: nat)
      requires InOrder(outbox)
      modifies this
      ensures Contents() == Drained(old(Contents()), limit, fails)
      ensures InOrder(outbox)
      ensures count == |jobs| - |old(jobs)| && count + |outbox| == |old(outbox)|
    {
      if !(1 <= limit <= MAX_DRAIN) || fails {
        return 0;
      }
      // InOrder: selecting by position is selecting from the front.
      var rows := Head(outbox, limit);
      FittingBound(rows, 0);
      var fitting := CountFitting(rows);
      if fitting.None? {
        return 0;
      }
      count := fitting.value;
      jobs := jobs + JobsOf(outbox[..count]);
      outbox := outbox[count..];
    }
  }

  lemma {:induction false} FailureIsFinal(data: seq<Statement>, statements: seq<Statement>, count: nat, engine: Engine)
    requires count <= |statements|
    requires Results(data, statements[..count], engine).None?
    ensures Results(data, statements, engine).None?
    decreases |statements| - count
  {
    if count == |statements| {
      assert statements[..count] == statements;
    } else {
      assert statements[..count + 1][..count] == statements[..count];
      FailureIsFinal(data, statements, count + 1, engine);
    }
  }

  // ---------------------------------------------------------------- every run

  /** Besides queries and drains, any resident outbox rows may be deleted. */
  datatype Event = Query(batch: Batch, env: Environment) | Drain(limit: nat, fails: bool) | Delete(ids: set<nat>)

  function Remaining(outbox: seq<OutboxRow>, ids: set<nat>): seq<OutboxRow> {
    if outbox == [] then []
    else
      var before, last := Remaining(outbox[..|outbox| - 1], ids), outbox[|outbox| - 1];
      if last.id in ids then before else before + [last]
  }

  function Next(store: Store, event: Event): Store {
    match event
    case Query(batch, env) => Execute(store, batch, env).0
    case Drain(limit, fails) => Drained(store, limit, fails)
    case Delete(ids) => store.(outbox := Remaining(store.outbox, ids))
  }

  function After(events: seq<Event>): Store {
    if events == [] then EMPTY else Next(After(events[..|events| - 1]), events[|events| - 1])
  }

  /** Whether event `i` of a run committed a batch. */
  predicate CommitsAt(events: seq<Event>, i: nat)
    requires i < |events|
  {
    events[i].Query? && Commits(After(events[..i]), events[i].batch, events[i].env)
  }

  /** The reply to event `i`. */
  function ReplyAt(events: seq<Event>, i: nat): Reply
    requires i < |events| && events[i].Query?
  {
    Execute(After(events[..i]), events[i].batch, events[i].env).1
  }

  /** The batches a run committed, in commit order. */
  function Committed(events: seq<Event>): seq<Batch> {
    if events == [] then []
    else
      var last := |events| - 1;
      Committed(events[..last]) + if CommitsAt(events, last) then [events[last].batch] else []
  }

  function AllStatements(batches: seq<Batch>): seq<Statement> {
    if batches == [] then [] else AllStatements(batches[..|batches| - 1]) + batches[|batches| - 1].statements
  }

  function AllJobs(batches: seq<Batch>): seq<Json> {
    if batches == [] then [] else AllJobs(batches[..|batches| - 1]) + batches[|batches| - 1].jobs
  }

  /** The jobs there are, delivered or resident, in the order in which they will have been delivered. */
  function Ledger(store: Store): seq<JobRow> {
    store.jobs + JobsOf(store.outbox)
  }

  function IdsOf(rows: seq<JobRow>): set<nat> {
    set i | 0 <= i < |rows| :: rows[i].id
  }

  /** The jobs that were deleted while they were resident. */
  function Deleted(events: seq<Event>): set<nat> {
    if events == [] then {}
    else
      var last := |events| - 1;
      Deleted(events[..last])
      + if events[last].Delete? then events[last].ids * IdsOf(JobsOf(After(events[..last]).outbox)) else {}
  }

  ghost predicate IdsIncrease(rows: seq<JobRow>) {
    forall i, j :: 0 <= i < j < |rows| ==> rows[i].id < rows[j].id
  }

  /** Job `n` of all that were queued has id `n`; it is there once, in order, unless it was deleted. */
  ghost predicate Accounts(store: Store, all: seq<Json>, deleted: set<nat>) {
    && store.nextId == |all| && IdsIncrease(Ledger(store))
    && (forall row :: row in Ledger(store) ==> row.id < |all| && row.payload == all[row.id])
    && (forall id :: id in IdsOf(Ledger(store)) <==> 0 <= id < |all| && id !in deleted)
  }

  lemma {:induction false} MaxPositionIsLast(outbox: seq<OutboxRow>)
    requires InOrder(outbox)
    ensures MaxPosition(outbox) == if outbox == [] then 0 else outbox[|outbox| - 1].position
  {
    if outbox != [] {
      MaxPositionIsLast(outbox[..|outbox| - 1]);
    }
  }

  lemma DrainConserves(store: Store, limit: nat, fails: bool)
    requires InOrder(store.outbox)
    ensures InOrder(Drained(store, limit, fails).outbox)
    ensures Ledger(Drained(store, limit, fails)) == Ledger(store)
    ensures fails || limit == 0 || limit > 128 ==> Drained(store, limit, fails) == store
    ensures |Drained(store, limit, fails).jobs| <= |store.jobs| + limit
  {
    FittingBound(Head(store.outbox, limit), 0);
    var fitting := Fitting(Head(store.outbox, limit), 0);
    if fitting.Some? {
      JobsSplit(store.jobs, store.outbox, fitting.value);
    }
  }

  /** The rows that one drain with `limit` moves: from the front, up to 16 MiB, none of them over 8 MiB. */
  ghost predicate IsDrainable(outbox: seq<OutboxRow>, limit: nat, count: nat) {
    && count <= |outbox| && count <= limit
    && (forall i :: 0 <= i < count ==> |outbox[i].payload| <= 8388608)
    && PayloadBytes(outbox[..count]) <= 16777216
    && (count < |outbox| && count < limit ==>
          |outbox[count].payload| <= 8388608 && PayloadBytes(outbox[..count + 1]) > 16777216)
  }

  /** A drain that does not fail moves exactly those rows, in order, for every limit from 1 to 128. */
  lemma DrainMoves(store: Store, limit: nat, count: nat)
    requires 1 <= limit <= 128 && IsDrainable(store.outbox, limit, count)
    ensures Drained(store, limit, false) ==
      store.(outbox := store.outbox[count..], jobs := store.jobs + JobsOf(store.outbox[..count]))
  {
    var head := Head(store.outbox, limit);
    assert head[..count] == store.outbox[..count];
    assert count < |head| ==> head[..count + 1] == store.outbox[..count + 1];
    FittingIsMaximal(head, 0, count);
  }

  lemma JobsSplit(jobs: seq<JobRow>, outbox: seq<OutboxRow>, count: nat)
    requires count <= |outbox|
    ensures jobs + JobsOf(outbox[..count]) + JobsOf(outbox[count..]) == jobs + JobsOf(outbox)
  {
    assert JobsOf(outbox) == JobsOf(outbox[..count]) + JobsOf(outbox[count..]);
  }

  lemma CommitQueues(store: Store, batch: Batch, env: Environment)
    requires InOrder(store.outbox) && Outcome(store, batch, env).Some?
    ensures InOrder(Outcome(store, batch, env).value.0.outbox)
    ensures Ledger(Outcome(store, batch, env).value.0) == Ledger(store) + JobsOf(Queued(batch.jobs, 0, store.nextId))
  {
    MaxPositionIsLast(store.outbox);
  }

  lemma IdsAppended(a: seq<JobRow>, b: seq<JobRow>)
    ensures IdsOf(a + b) == IdsOf(a) + IdsOf(b)
  {
    var both := a + b;
    forall id | id in IdsOf(a)
      ensures id in IdsOf(both)
    {
      var i :| 0 <= i < |a| && a[i].id == id;
      assert both[i].id == id;
    }
    forall id | id in IdsOf(b)
      ensures id in IdsOf(both)
    {
      var i :| 0 <= i < |b| && b[i].id == id;
      assert both[|a| + i].id == id;
    }
  }

  lemma QueuedIds(jobs: seq<Json>, next: nat)
    ensures forall id :: id in IdsOf(JobsOf(Queued(jobs, 0, next))) <==> next <= id < next + |jobs|
  {
    var rows := JobsOf(Queued(jobs, 0, next));
    forall id | next <= id < next + |jobs|
      ensures id in IdsOf(rows)
    {
      assert rows[id - next].id == id;
    }
  }

  lemma CommitAccounts(store: Store, batch: Batch, env: Environment, all: seq<Json>, deleted: set<nat>)
    requires InOrder(store.outbox) && Outcome(store, batch, env).Some? && Accounts(store, all, deleted)
    requires forall id :: id in deleted ==> id < |all|
    ensures Accounts(Outcome(store, batch, env).value.0, all + batch.jobs, deleted)
  {
    var rows := JobsOf(Queued(batch.jobs, 0, store.nextId));
    CommitQueues(store, batch, env);
    IdsAppended(Ledger(store), rows);
    QueuedIds(batch.jobs, store.nextId);
    AppendedIncrease(Ledger(store), rows, |all|);
  }

  lemma AppendedIncrease(a: seq<JobRow>, b: seq<JobRow>, bound: nat)
    requires IdsIncrease(a) && IdsIncrease(b)
    requires (forall row :: row in a ==> row.id < bound) && (forall row :: row in b ==> bound <= row.id)
    ensures IdsIncrease(a + b)
  {
  }

  /** What a deletion leaves are the other rows. */
  lemma {:induction false} RemainingRows(outbox: seq<OutboxRow>, ids: set<nat>, row: OutboxRow)
    ensures row in Remaining(outbox, ids) <==> row in outbox && row.id !in ids
  {
    if outbox != [] {
      RemainingRows(outbox[..|outbox| - 1], ids, row);
      assert outbox == outbox[..|outbox| - 1] + [outbox[|outbox| - 1]];
    }
  }

  /** Rows that keep their order: positions and ids increase together. */
  ghost predicate Rise(outbox: seq<OutboxRow>) {
    forall i, j :: 0 <= i < j < |outbox| ==>
      outbox[i].position < outbox[j].position && outbox[i].id < outbox[j].id
  }

  lemma {:induction false} RemainingRise(outbox: seq<OutboxRow>, ids: set<nat>)
    requires Rise(outbox)
    ensures Rise(Remaining(outbox, ids))
  {
    if outbox != [] {
      var before, last := outbox[..|outbox| - 1], outbox[|outbox| - 1];
      RemainingRise(before, ids);
      var kept := Remaining(before, ids);
      forall i | 0 <= i < |kept|
        ensures kept[i].position < last.position && kept[i].id < last.id
      {
        RemainingRows(before, ids, kept[i]);
      }
    }
  }

  /** Positions stay distinct and in commit order whatever is deleted. */
  lemma DeletionKeepsOrder(store: Store, ids: set<nat>)
    requires InOrder(store.outbox) && IdsIncrease(Ledger(store))
    ensures InOrder(Remaining(store.outbox, ids)) && Rise(Remaining(store.outbox, ids))
  {
    var kept := Remaining(store.outbox, ids);
    forall i, j | 0 <= i < j < |store.outbox|
      ensures store.outbox[i].id < store.outbox[j].id
    {
      var ledger, n := Ledger(store), |store.jobs|;
      assert ledger[n + i].id == store.outbox[i].id && ledger[n + j].id == store.outbox[j].id;
    }
    RemainingRise(store.outbox, ids);
    forall i | 0 <= i < |kept|
      ensures 0 < kept[i].position <= MAX_POSITION
    {
      RemainingRows(store.outbox, ids, kept[i]);
    }
  }

  lemma DeliveredPrecede(store: Store, row: OutboxRow, i: nat)
    requires IdsIncrease(Ledger(store)) && row in store.outbox && i < |store.jobs|
    ensures store.jobs[i].id < row.id && JobRow(row.id, row.payload) in Ledger(store)
  {
    var k :| 0 <= k < |store.outbox| && store.outbox[k] == row;
    assert Ledger(store)[i] == store.jobs[i] && Ledger(store)[|store.jobs| + k] == JobRow(row.id, row.payload);
  }

  lemma DeletionIncreases(store: Store, ids: set<nat>)
    requires InOrder(store.outbox) && IdsIncrease(Ledger(store))
    ensures IdsIncrease(store.jobs + JobsOf(Remaining(store.outbox, ids)))
  {
    var kept, jobs := Remaining(store.outbox, ids), store.jobs;
    DeletionKeepsOrder(store, ids);
    forall i, j | 0 <= i < |jobs| && 0 <= j < |kept|
      ensures jobs[i].id < kept[j].id
    {
      RemainingRows(store.outbox, ids, kept[j]);
      DeliveredPrecede(store, kept[j], i);
    }
    forall i, j | 0 <= i < j < |jobs|
      ensures jobs[i].id < jobs[j].id
    {
      assert Ledger(store)[i] == jobs[i] && Ledger(store)[j] == jobs[j];
    }
  }

  lemma ResidentId(outbox: seq<OutboxRow>, id: nat)
    ensures id in IdsOf(JobsOf(outbox)) <==> exists k :: 0 <= k < |outbox| && outbox[k].id == id
  {
    if k :| 0 <= k < |outbox| && outbox[k].id == id {
      assert JobsOf(outbox)[k].id == id;
    }
  }

  lemma RemainingIds(outbox: seq<OutboxRow>, ids: set<nat>)
    ensures IdsOf(JobsOf(Remaining(outbox, ids))) == IdsOf(JobsOf(outbox)) - ids
  {
    var kept := Remaining(outbox, ids);
    forall id: nat
      ensures id in IdsOf(JobsOf(kept)) <==> id in IdsOf(JobsOf(outbox)) - ids
    {
      ResidentId(outbox, id);
      ResidentId(kept, id);
      if k :| 0 <= k < |outbox| && outbox[k].id == id {
        RemainingRows(outbox, ids, outbox[k]);
      }
      if k :| 0 <= k < |kept| && kept[k].id == id {
        RemainingRows(outbox, ids, kept[k]);
      }
    }
  }

  /** Delivered and resident jobs are different ones. */
  lemma DeliveredAreNotResident(store: Store)
    requires IdsIncrease(Ledger(store))
    ensures IdsOf(store.jobs) !! IdsOf(JobsOf(store.outbox))
  {
    forall id | id in IdsOf(store.jobs)
      ensures id !in IdsOf(JobsOf(store.outbox))
    {
      var i :| 0 <= i < |store.jobs| && store.jobs[i].id == id;
      forall k | 0 <= k < |store.outbox|
        ensures store.outbox[k].id != id
      {
        DeliveredPrecede(store, store.outbox[k], i);
      }
    }
  }

  lemma DeletionIds(store: Store, ids: set<nat>)
    requires IdsIncrease(Ledger(store))
    ensures IdsOf(store.jobs + JobsOf(Remaining(store.outbox, ids)))
            == IdsOf(Ledger(store)) - ids * IdsOf(JobsOf(store.outbox))
  {
    IdsAppended(store.jobs, JobsOf(store.outbox));
    IdsAppended(store.jobs, JobsOf(Remaining(store.outbox, ids)));
    RemainingIds(store.outbox, ids);
    DeliveredAreNotResident(store);
  }

  lemma DeletionAccounts(store: Store, ids: set<nat>, all: seq<Json>, deleted: set<nat>)
    requires InOrder(store.outbox) && Accounts(store, all, deleted)
    ensures Accounts(store.(outbox := Remaining(store.outbox, ids)), all,
                     deleted + ids * IdsOf(JobsOf(store.outbox)))
  {
    DeletionIncreases(store, ids);
    DeletionIds(store, ids);
    var kept := Remaining(store.outbox, ids);
    forall row | row in JobsOf(kept)
      ensures row in Ledger(store)
    {
      var i :| 0 <= i < |kept| && row == JobRow(kept[i].id, kept[i].payload);
      RemainingRows(store.outbox, ids, kept[i]);
      var k :| 0 <= k < |store.outbox| && store.outbox[k] == kept[i];
      assert Ledger(store)[|store.jobs| + k] == row;
    }
  }

  /**
   * Effects and jobs are exactly those of the committed batches, in commit order, each
   * once, less the jobs that were deleted.
   */
  ghost predicate Conserves(events: seq<Event>) {
    var store, batches := After(events), Committed(events);
    && InOrder(store.outbox)
    && store.data == AllStatements(batches)
    && Accounts(store, AllJobs(batches), Deleted(events))
    && (forall id :: id in Deleted(events) ==> id < |AllJobs(batches)|)
  }

  lemma {:induction false} EveryRunConserves(events: seq<Event>)
    ensures Conserves(events)
  {
    if events != [] {
      var last := |events| - 1;
      var before := events[..last];
      EveryRunConserves(before);
      if CommitsAt(events, last) {
        CommitConserves(before, events[last]);
      } else {
        match events[last]
        case Query(_, _) => RefusalConserves(before, events[last]);
        case Drain(_, _) => DrainingConserves(before, events[last]);
        case Delete(_) => DeletionConserves(before, events[last]);
      }
      assert before + [events[last]] == events;
    }
  }

  lemma AfterNext(events: seq<Event>, event: Event)
    ensures After(events + [event]) == Next(After(events), event)
    ensures CommitsAt(events + [event], |events|) <==>
            event.Query? && Commits(After(events), event.batch, event.env)
    ensures Committed(events + [event])
            == Committed(events) + if CommitsAt(events + [event], |events|) then [event.batch] else []
  {
    assert (events + [event])[..|events|] == events;
  }

  lemma DeletedNext(events: seq<Event>, event: Event)
    ensures Deleted(events + [event])
            == Deleted(events) + if event.Delete? then event.ids * IdsOf(JobsOf(After(events).outbox)) else {}
  {
    assert (events + [event])[..|events|] == events;
  }

  lemma CommitConserves(events: seq<Event>, event: Event)
    requires Conserves(events) && event.Query? && Commits(After(events), event.batch, event.env)
    ensures Conserves(events + [event])
  {
    AfterNext(events, event);
    DeletedNext(events, event);
    CommitQueues(After(events), event.batch, event.env);
    CommitAccounts(After(events), event.batch, event.env, AllJobs(Committed(events)), Deleted(events));
    AllOfAppended(Committed(events), event.batch);
  }

  lemma RefusalConserves(events: seq<Event>, event: Event)
    requires Conserves(events) && event.Query? && !Commits(After(events), event.batch, event.env)
    ensures Conserves(events + [event])
  {
    AfterNext(events, event);
    DeletedNext(events, event);
    assert Next(After(events), event) == After(events);
    assert Committed(events + [event]) == Committed(events) && Deleted(events + [event]) == Deleted(events);
  }

  lemma DrainingConserves(events: seq<Event>, event: Event)
    requires Conserves(events) && event.Drain?
    ensures Conserves(events + [event])
  {
    AfterNext(events, event);
    DeletedNext(events, event);
    DrainConserves(After(events), event.limit, event.fails);
    assert Committed(events + [event]) == Committed(events) && Deleted(events + [event]) == Deleted(events);
  }

  lemma DeletionConserves(events: seq<Event>, event: Event)
    requires Conserves(events) && event.Delete?
    ensures Conserves(events + [event])
  {
    AfterNext(events, event);
    DeletedNext(events, event);
    DeletionKeepsOrder(After(events), event.ids);
    DeletionAccounts(After(events), event.ids, AllJobs(Committed(events)), Deleted(events));
    IdsAppended(After(events).jobs, JobsOf(After(events).outbox));
    assert Committed(events + [event]) == Committed(events);
  }

  /** Increasing ids that leave no gap count the rows. */
  lemma {:induction false} IdsWithoutGap(rows: seq<JobRow>, all: seq<Json>)
    requires IdsIncrease(rows) && (forall id :: id in IdsOf(rows) <==> 0 <= id < |all|)
    ensures |rows| == |all| && forall i :: 0 <= i < |rows| ==> rows[i].id == i
  {
    if rows == [] {
      assert 0 !in IdsOf(rows);
    } else {
      var init, last := rows[..|rows| - 1], rows[|rows| - 1];
      assert last.id in IdsOf(rows) && |all| > 0;
      LastIsGreatest(rows, |all| - 1);
      InitIds(rows);
      IdsWithoutGap(init, all[..|all| - 1]);
    }
  }

  /** Without deletions, the payloads are those of the committed batches, one after the other. */
  lemma NothingDeletedNothingLost(events: seq<Event>)
    requires Deleted(events) == {}
    ensures var ledger, all := Ledger(After(events)), AllJobs(Committed(events));
            |ledger| == |all| && forall i :: 0 <= i < |ledger| ==> ledger[i] == JobRow(i, all[i])
  {
    EveryRunConserves(events);
    IdsWithoutGap(Ledger(After(events)), AllJobs(Committed(events)));
  }

  lemma LastIsGreatest(rows: seq<JobRow>, id: nat)
    requires rows != [] && IdsIncrease(rows) && id in IdsOf(rows)
    requires forall other :: other in IdsOf(rows) ==> other <= id
    ensures rows[|rows| - 1].id == id
  {
    var i :| 0 <= i < |rows| && rows[i].id == id;
    assert rows[|rows| - 1].id in IdsOf(rows);
  }

  lemma InitIds(rows: seq<JobRow>)
    requires rows != [] && IdsIncrease(rows)
    ensures IdsOf(rows[..|rows| - 1]) == IdsOf(rows) - {rows[|rows| - 1].id}
  {
    var init, last := rows[..|rows| - 1], rows[|rows| - 1];
    assert rows == init + [last];
    IdsAppended(init, [last]);
    assert IdsOf([last]) == {last.id} by {
      assert [last][0].id == last.id;
    }
  }

  lemma AllOfAppended(batches: seq<Batch>, batch: Batch)
    ensures AllStatements(batches + [batch]) == AllStatements(batches) + batch.statements
    ensures AllJobs(batches + [batch]) == AllJobs(batches) + batch.jobs
  {
    assert (batches + [batch])[..|batches|] == batches;
  }

  lemma NextKeepsReceipt(store: Store, event: Event, key: string)
    requires key in store.receipts
    ensures key in Next(store, event).receipts && Next(store, event).receipts[key] == store.receipts[key]
  {
  }

  /** A receipt, once written, is never changed. */
  lemma {:induction false} ReceiptsStay(events: seq<Event>, i: nat, key: string)
    requires i <= |events| && key in After(events[..i]).receipts
    ensures key in After(events).receipts
    ensures After(events).receipts[key] == After(events[..i]).receipts[key]
  {
    if i == |events| {
      assert events[..i] == events;
    } else {
      var last := |events| - 1;
      assert events[..last][..i] == events[..i];
      ReceiptsStay(events[..last], i, key);
      NextKeepsReceipt(After(events[..last]), events[last], key);
    }
  }

  lemma CommitLeavesReceipt(events: seq<Event>, i: nat)
    requires i < |events| && CommitsAt(events, i) && events[i].batch.key.Some?
    ensures var after := After(events[..i + 1]).receipts; var batch := events[i].batch;
            && batch.key.value in after && after[batch.key.value].content == ContentOf(batch)
            && (ReplyAt(events, i).Ok? ==> ReplyAt(events, i).value == after[batch.key.value].result)
  {
    assert events[..i + 1][..i] == events[..i];
  }

  /** At most one attempt under a key ever commits, whatever fails and however often it is retried. */
  lemma KeyCommitsOnce(events: seq<Event>, i: nat, j: nat)
    requires i < j < |events| && CommitsAt(events, i) && events[i].batch.key.Some?
    requires events[j].Query? && events[j].batch.key == events[i].batch.key
    ensures !CommitsAt(events, j)
  {
    CommitLeavesReceipt(events, i);
    assert events[..j][..i + 1] == events[..i + 1];
    ReceiptsStay(events[..j], i + 1, events[i].batch.key.value);
  }

  lemma OkReplyIsReceipt(events: seq<Event>, i: nat)
    requires i < |events| && events[i].Query? && events[i].batch.key.Some? && ReplyAt(events, i).Ok?
    ensures var after := After(events[..i + 1]).receipts; var batch := events[i].batch;
            && batch.key.value in after
            && after[batch.key.value] == Receipt(ContentOf(batch), ReplyAt(events, i).value)
  {
    assert events[..i + 1][..i] == events[..i];
  }

  /**
   * All successful replies under one key are equal and answer equal content: content
   * that differs from what the key stands for is never answered.
   */
  lemma RepliesAgree(events: seq<Event>, i: nat, j: nat)
    requires i < j < |events|
    requires events[i].Query? && events[i].batch.key.Some? && ReplyAt(events, i).Ok?
    requires events[j].Query? && events[j].batch.key == events[i].batch.key && ReplyAt(events, j).Ok?
    ensures ReplyAt(events, i) == ReplyAt(events, j)
    ensures ContentOf(events[i].batch) == ContentOf(events[j].batch)
  {
    OkReplyIsReceipt(events, i);
    OkReplyIsReceipt(events, j);
    assert events[..j + 1][..i + 1] == events[..i + 1];
    ReceiptsStay(events[..j + 1], i + 1, events[i].batch.key.value);
  }

  /**
   * After a commit whose acknowledgement was lost, a retry that reaches the receipt
   * changes nothing and returns the committed results; other content is refused.
   */
  lemma RetryAfterCommit(events: seq<Event>, i: nat, j: nat)
    requires i < j < |events| && CommitsAt(events, i) && events[i].batch.key.Some?
    requires events[j].Query? && events[j].batch.key == events[i].batch.key
    requires Admissible(events[j].batch, events[j].env.permits)
    requires !events[j].env.faults.lookup && !events[j].env.faults.acknowledge
    ensures After(events[..j + 1]) == After(events[..j])
    ensures ContentOf(events[j].batch) == ContentOf(events[i].batch) ==>
      ReplyAt(events, j) == Ok(Outcome(After(events[..i]), events[i].batch, events[i].env).value.1)
    ensures ContentOf(events[j].batch) != ContentOf(events[i].batch) ==> ReplyAt(events, j) == Err(KeyReused)
  {
    CommitLeavesReceipt(events, i);
    assert events[..i + 1][..i] == events[..i];
    assert events[..j + 1][..j] == events[..j];
    assert events[..j][..i + 1] == events[..i + 1];
    ReceiptsStay(events[..j], i + 1, events[i].batch.key.value);
  }

  /** In every run, the reply to a batch that committed is the answers of that moment, in statement order. */
  lemma RepliesAreAnswers(events: seq<Event>, i: nat)
    requires i < |events| && CommitsAt(events, i) && ReplyAt(events, i).Ok?
    ensures AreAnswers(ReplyAt(events, i).value, After(events[..i]).data, events[i].batch.statements,
                       events[i].env.engine)
  {
    CommitReplies(After(events[..i]), events[i].batch, events[i].env);
  }
}
