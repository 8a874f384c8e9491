/**
 * The realtime cursor (`carrier_realtime_batch` in crates/bicdb-app-runtime/src/http.rs
 * over the queue's `peek` in crates/bicdb-core/src/broker.rs).
 *
 * `judge` stands for the event filter, the payload contract and the tenant, workspace
 * and group checks, which decide about one message at a time.
 */
module Realtime {
  import opened Prelude

  const MAX_SEQUENCE: nat := 0xFFFF_FFFF_FFFF_FFFF
  const PEEK_LIMIT: nat := 4096

  datatype Message = Message(sequence: nat, availableAt: int, body: string)

  datatype Verdict = Deliver | Skip | Fail

  type Judge = Message -> Verdict

  /** What a client receives; `sequence` is also the cursor that acknowledges it. */
  datatype Item = Item(sequence: nat, message: Message)

  datatype Batch = Batch(items: seq<Item>, cursor: nat)

  /** `saturating_add(1)`. */
  function Successor(sequence: nat): nat {
    if sequence >= MAX_SEQUENCE then MAX_SEQUENCE else sequence + 1
  }

  function ItemOf(message: Message): Item {
    Item(Successor(message.sequence), message)
  }

  ghost predicate Ascending(queue: seq<Message>) {
    && (forall i :: 0 <= i < |queue| ==> queue[i].sequence <= MAX_SEQUENCE)
    && (forall i, j :: 0 <= i < j < |queue| ==> queue[i].sequence < queue[j].sequence)
  }

  /** Every sequence number has a successor. */
  ghost predicate BelowMax(queue: seq<Message>) {
    forall i :: 0 <= i < |queue| ==> queue[i].sequence < MAX_SEQUENCE
  }

  // ---------------------------------------------------------------- one batch

  /** The number of messages below `from`, which come first. */
  function Start(queue: seq<Message>, from: nat): (start: nat)
    ensures start <= |queue|
    ensures forall i :: 0 <= i < start ==> queue[i].sequence < from
    ensures start < |queue| ==> from <= queue[start].sequence
  {
    if queue == [] || from <= queue[0].sequence then 0 else 1 + Start(queue[1..], from)
  }

  function Peek(queue: seq<Message>, from: nat, max: nat): seq<Message> {
    var rest := queue[Start(queue, from)..];
    if max < |rest| then rest[..max] else rest
  }

  function Scan(messages: seq<Message>, so: Batch, limit: nat, now: int, judge: Judge): Option<Batch> {
    if messages == [] then Some(so)
    else if messages[0].availableAt > now then Scan(messages[1..], so, limit, now, judge)
    else
      var sequence := Successor(messages[0].sequence);
      var cursor := if sequence > so.cursor then sequence else so.cursor;
      match judge(messages[0])
      case Fail => None
      case Skip => Scan(messages[1..], so.(cursor := cursor), limit, now, judge)
      case Deliver =>
        var next := Batch(so.items + [ItemOf(messages[0])], cursor);
        if |next.items| >= limit then Some(next) else Scan(messages[1..], next, limit, now, judge)
  }

  function NextBatch(queue: seq<Message>, cursor: nat, limit: nat, now: int, judge: Judge): Option<Batch> {
    Scan(Peek(queue, cursor, PEEK_LIMIT), Batch([], cursor), limit, now, judge)
  }

  method RealtimeBatch(queue: seq<Message>, cursor: nat, limit: nat, now: int, judge: Judge)
    returns (batch: Option<Batch>)
    ensures batch == NextBatch(queue, cursor, limit, now, judge)
  {
    var messages := Peek(queue, cursor, PEEK_LIMIT);
    var items: seq<Item> := [];
    var nextCursor := cursor;
    for i := 0 to |messages|
      invariant NextBatch(queue, cursor, limit, now, judge)
                == Scan(messages[i..], Batch(items, nextCursor), limit, now, judge)
    {
      var message := messages[i];
      assert messages[i..][1..] == messages[i + 1..];
      if message.availableAt > now {
        continue;
      }
      var sequence := Successor(message.sequence);
      nextCursor := if sequence > nextCursor then sequence else nextCursor;
      match judge(message) {
        case Fail => return None;
        case Skip => continue;
        case Deliver =>
          items := items + [Item(sequence, message)];
          if |items| >= limit {
            return Some(Batch(items, nextCursor));
          }
      }
    }
    return Some(Batch(items, nextCursor));
  }

  // ---------------------------------------------------------------- what a batch holds

  /** The items of the queue in [from, to) that `keep` accepts, in queue order. */
  function Select(queue: seq<Message>, from: nat, to: nat, keep: Message -> bool): seq<Item> {
    if queue == [] then [] else Chosen(queue[0], from, to, keep) + Select(queue[1..], from, to, keep)
  }

  function Chosen(message: Message, from: nat, to: nat, keep: Message -> bool): seq<Item> {
    if from <= message.sequence < to && keep(message) then [ItemOf(message)] else []
  }

  /** Delivered without regard to time, and delivered at `now`. */
  function Wanted(judge: Judge): Message -> bool {
    m => judge(m).Deliver?
  }

  function WantedAt(judge: Judge, now: int): Message -> bool {
    m => judge(m).Deliver? && m.availableAt <= now
  }

  /** Bounds that admit the same messages select the same items. */
  lemma {:induction false} SelectAgrees(queue: seq<Message>, from: nat, to: nat, from': nat, to': nat,
                                        keep: Message -> bool)
    requires forall i :: 0 <= i < |queue| ==> (from <= queue[i].sequence < to <==> from' <= queue[i].sequence < to')
    ensures Select(queue, from, to, keep) == Select(queue, from', to', keep)
  {
    if queue != [] {
      SelectAgrees(queue[1..], from, to, from', to', keep);
    }
  }

  lemma {:induction false} SelectOutside(queue: seq<Message>, from: nat, to: nat, keep: Message -> bool)
    requires forall i :: 0 <= i < |queue| ==> !(from <= queue[i].sequence < to)
    ensures Select(queue, from, to, keep) == []
  {
    if queue != [] {
      SelectOutside(queue[1..], from, to, keep);
    }
  }

  /** The cursor after scanning `messages`: unchanged, or one past a scanned message. */
  ghost predicate CursorFrom(messages: seq<Message>, before: nat, after: nat) {
    before <= after && (after == before || exists i :: 0 <= i < |messages| && after == messages[i].sequence + 1)
  }

  lemma {:induction false} ScanMoves(messages: seq<Message>, so: Batch, limit: nat, now: int, judge: Judge)
    requires Ascending(messages) && BelowMax(messages)
    requires messages != [] ==> so.cursor <= messages[0].sequence
    requires Scan(messages, so, limit, now, judge).Some?
    ensures CursorFrom(messages, so.cursor, Scan(messages, so, limit, now, judge).value.cursor)
  {
    if messages != [] {
      var message, rest := messages[0], messages[1..];
      var after := Scan(messages, so, limit, now, judge).value.cursor;
      var next := Seen(so, message, now, judge);
      ScanStep(messages, so, limit, now, judge);
      assert next.cursor != so.cursor ==> messages[0].sequence + 1 == next.cursor;
      if !(Taken(message, now, judge) && |next.items| >= limit) {
        ScanMoves(rest, next, limit, now, judge);
        if after != next.cursor {
          var i :| 0 <= i < |rest| && after == rest[i].sequence + 1;
          assert messages[i + 1] == rest[i];
        }
      }
    }
  }

  predicate Taken(message: Message, now: int, judge: Judge) {
    message.availableAt <= now && judge(message).Deliver?
  }

  /** The batch after looking at one more message that does not fail. */
  function Seen(so: Batch, message: Message, now: int, judge: Judge): Batch {
    if message.availableAt > now then so
    else Batch(so.items + if judge(message).Deliver? then [ItemOf(message)] else [],
               if Successor(message.sequence) > so.cursor then Successor(message.sequence) else so.cursor)
  }

  lemma ScanStep(messages: seq<Message>, so: Batch, limit: nat, now: int, judge: Judge)
    requires messages != [] && Scan(messages, so, limit, now, judge).Some?
    ensures var next := Seen(so, messages[0], now, judge);
            Scan(messages, so, limit, now, judge)
            == if Taken(messages[0], now, judge) && |next.items| >= limit then Some(next)
               else Scan(messages[1..], next, limit, now, judge)
  {
    assert so.items + [] == so.items;
  }

  /** The message that fills the batch is the last one selected. */
  lemma FilledSelects(messages: seq<Message>, from: nat, keep: Message -> bool)
    requires Ascending(messages) && messages != [] && from <= messages[0].sequence && keep(messages[0])
    ensures Select(messages, from, messages[0].sequence + 1, keep) == [ItemOf(messages[0])]
  {
    SelectOutside(messages[1..], from, messages[0].sequence + 1, keep);
  }

  /** Moving the cursor past the first message leaves what the others select. */
  lemma RestSelects(messages: seq<Message>, from: nat, next: nat, to: nat, keep: Message -> bool)
    requires Ascending(messages) && messages != []
    requires next == from || (from <= messages[0].sequence && next == messages[0].sequence + 1)
    ensures Select(messages[1..], from, to, keep) == Select(messages[1..], next, to, keep)
  {
    SelectAgrees(messages[1..], from, to, next, to, keep);
  }

  lemma SeenItems(so: Batch, message: Message, to: nat, now: int, judge: Judge)
    requires message.sequence < MAX_SEQUENCE && so.cursor <= message.sequence
    requires Seen(so, message, now, judge).cursor <= to
    ensures Seen(so, message, now, judge).items
            == so.items + Chosen(message, so.cursor, to, WantedAt(judge, now))
  {
  }

  /** Looking at one message moves its item, if it is selected, into the batch. */
  lemma SeenSelects(messages: seq<Message>, so: Batch, to: nat, now: int, judge: Judge)
    requires Ascending(messages) && BelowMax(messages) && messages != [] && so.cursor <= messages[0].sequence
    requires Seen(so, messages[0], now, judge).cursor <= to
    ensures var next, keep := Seen(so, messages[0], now, judge), WantedAt(judge, now);
            so.items + Select(messages, so.cursor, to, keep)
            == next.items + Select(messages[1..], next.cursor, to, keep)
  {
    var next, keep := Seen(so, messages[0], now, judge), WantedAt(judge, now);
    RestSelects(messages, so.cursor, next.cursor, to, keep);
    SeenItems(so, messages[0], to, now, judge);
    Regrouped(so.items, Chosen(messages[0], so.cursor, to, keep), Select(messages[1..], so.cursor, to, keep));
  }

  lemma {:induction false} ScanSelects(messages: seq<Message>, so: Batch, limit: nat, now: int, judge: Judge)
    requires Ascending(messages) && BelowMax(messages)
    requires messages != [] ==> so.cursor <= messages[0].sequence
    requires Scan(messages, so, limit, now, judge).Some?
    ensures var batch := Scan(messages, so, limit, now, judge).value;
            batch.items == so.items + Select(messages, so.cursor, batch.cursor, WantedAt(judge, now))
  {
    if messages != [] {
      var batch, next := Scan(messages, so, limit, now, judge).value, Seen(so, messages[0], now, judge);
      ScanStep(messages, so, limit, now, judge);
      if Taken(messages[0], now, judge) && |next.items| >= limit {
        FilledSelects(messages, so.cursor, WantedAt(judge, now));
      } else {
        ScanMoves(messages[1..], next, limit, now, judge);
        ScanSelects(messages[1..], next, limit, now, judge);
        SeenSelects(messages, so, batch.cursor, now, judge);
      }
    }
  }

  lemma {:induction false} SelectJoined(a: seq<Message>, b: seq<Message>, from: nat, to: nat, keep: Message -> bool)
    ensures Select(a + b, from, to, keep) == Select(a, from, to, keep) + Select(b, from, to, keep)
  {
    if a == [] {
      assert a + b == b;
    } else {
      assert (a + b)[1..] == a[1..] + b;
      SelectJoined(a[1..], b, from, to, keep);
    }
  }

  lemma BeyondPeeked(queue: seq<Message>, from: nat, max: nat, to: nat, k: nat)
    requires Ascending(queue) && CursorFrom(Peek(queue, from, max), from, to)
    requires Start(queue, from) + |Peek(queue, from, max)| <= k < |queue|
    ensures from < to ==> to <= queue[k].sequence
  {
    var start, peeked := Start(queue, from), Peek(queue, from, max);
    if from < to {
      var i :| 0 <= i < |peeked| && to == peeked[i].sequence + 1;
      assert peeked[i] == queue[start + i];
    }
  }

  lemma MiddleSelects(low: seq<Message>, middle: seq<Message>, high: seq<Message>, from: nat, to: nat,
                      keep: Message -> bool)
    requires Select(low, from, to, keep) == [] && Select(high, from, to, keep) == []
    ensures Select(low + middle + high, from, to, keep) == Select(middle, from, to, keep)
  {
    SelectJoined(low + middle, high, from, to, keep);
    SelectJoined(low, middle, from, to, keep);
  }

  lemma BeyondPeekedIsOutside(queue: seq<Message>, from: nat, max: nat, to: nat, keep: Message -> bool)
    requires Ascending(queue) && CursorFrom(Peek(queue, from, max), from, to)
    ensures var end := Start(queue, from) + |Peek(queue, from, max)|;
            end <= |queue| && Select(queue[end..], from, to, keep) == []
  {
    var end := Start(queue, from) + |Peek(queue, from, max)|;
    forall k | end <= k < |queue|
      ensures !(from <= queue[k].sequence < to)
    {
      BeyondPeeked(queue, from, max, to, k);
    }
    TailOutside(queue, end, from, to, keep);
  }

  lemma TailOutside(queue: seq<Message>, end: nat, from: nat, to: nat, keep: Message -> bool)
    requires end <= |queue| && forall k :: end <= k < |queue| ==> !(from <= queue[k].sequence < to)
    ensures Select(queue[end..], from, to, keep) == []
  {
    SelectOutside(queue[end..], from, to, keep);
  }

  lemma PeekIsSlice(queue: seq<Message>, from: nat, max: nat)
    ensures var start := Start(queue, from); var end := start + |Peek(queue, from, max)|;
            end <= |queue| && queue == queue[..start] + Peek(queue, from, max) + queue[end..]
  {
    var start, peeked := Start(queue, from), Peek(queue, from, max);
    assert peeked == queue[start..start + |peeked|];
    ThreeSlices(queue, start, start + |peeked|);
  }

  lemma ThreeSlices(queue: seq<Message>, a: nat, b: nat)
    requires a <= b <= |queue|
    ensures queue == queue[..a] + queue[a..b] + queue[b..]
  {
  }

  lemma BelowStartIsOutside(queue: seq<Message>, from: nat, to: nat, keep: Message -> bool)
    ensures Select(queue[..Start(queue, from)], from, to, keep) == []
  {
    SelectOutside(queue[..Start(queue, from)], from, to, keep);
  }

  /** Up to the cursor of the batch, peeking has seen everything. */
  lemma PeekSelects(queue: seq<Message>, from: nat, max: nat, to: nat, keep: Message -> bool)
    requires Ascending(queue) && CursorFrom(Peek(queue, from, max), from, to)
    ensures Select(queue, from, to, keep) == Select(Peek(queue, from, max), from, to, keep)
  {
    var start, peeked := Start(queue, from), Peek(queue, from, max);
    BelowStartIsOutside(queue, from, to, keep);
    BeyondPeekedIsOutside(queue, from, max, to, keep);
    PeekIsSlice(queue, from, max);
    MiddleSelects(queue[..start], peeked, queue[start + |peeked|..], from, to, keep);
  }

  /**
   * A batch holds exactly the wanted messages between its cursors that are available at
   * the time, whatever its limit.
   */
  lemma BatchIsSelection(queue: seq<Message>, cursor: nat, limit: nat, now: int, judge: Judge)
    requires Ascending(queue) && BelowMax(queue)
    requires NextBatch(queue, cursor, limit, now, judge).Some?
    ensures var batch := NextBatch(queue, cursor, limit, now, judge).value;
            && CursorFrom(Peek(queue, cursor, PEEK_LIMIT), cursor, batch.cursor)
            && batch.items == Select(queue, cursor, batch.cursor, WantedAt(judge, now))
  {
    var peeked := Peek(queue, cursor, PEEK_LIMIT);
    ScanMoves(peeked, Batch([], cursor), limit, now, judge);
    ScanSelects(peeked, Batch([], cursor), limit, now, judge);
    PeekSelects(queue, cursor, PEEK_LIMIT, NextBatch(queue, cursor, limit, now, judge).value.cursor,
                WantedAt(judge, now));
  }

  // ---------------------------------------------------------------- how far a batch looks

  /** `start` messages lie below the cursor, and the next 4096 are looked at. */
  ghost predicate IsWindow(queue: seq<Message>, cursor: nat, start: nat) {
    && start <= |queue|
    && (forall i :: 0 <= i < start ==> queue[i].sequence < cursor)
    && (forall i :: start <= i < |queue| ==> cursor <= queue[i].sequence)
  }

  lemma PeekIsWindow(queue: seq<Message>, cursor: nat, start: nat)
    requires IsWindow(queue, cursor, start)
    ensures Peek(queue, cursor, PEEK_LIMIT) ==
      queue[start..if start + 4096 <= |queue| then start + 4096 else |queue|]
  {
    StartIsUnique(queue, cursor, start);
    var rest := queue[start..];
    if 4096 < |rest| {
      assert rest[..4096] == queue[start..start + 4096];
    }
  }

  lemma StartIsUnique(queue: seq<Message>, cursor: nat, start: nat)
    requires IsWindow(queue, cursor, start)
    ensures Start(queue, cursor) == start
  {
    var found := Start(queue, cursor);
    assert found < |queue| ==> cursor <= queue[found].sequence;
    assert start < |queue| ==> cursor <= queue[start].sequence;
  }

  lemma {:induction false} ScanExhausts(messages: seq<Message>, so: Batch, limit: nat, now: int, judge: Judge)
    requires Scan(messages, so, limit, now, judge).Some?
    ensures var batch := Scan(messages, so, limit, now, judge).value;
      && so.items <= batch.items
      && (|so.items| < limit || so.items == [] ==> |batch.items| <= limit || |batch.items| <= 1)
      && (|batch.items| < limit ==>
            forall i :: 0 <= i < |messages| && Taken(messages[i], now, judge) ==> ItemOf(messages[i]) in batch.items)
  {
    if messages != [] {
      ScanStep(messages, so, limit, now, judge);
      var next, batch := Seen(so, messages[0], now, judge), Scan(messages, so, limit, now, judge).value;
      if !(Taken(messages[0], now, judge) && |next.items| >= limit) {
        ScanExhausts(messages[1..], next, limit, now, judge);
        assert so.items <= next.items <= batch.items;
        if Taken(messages[0], now, judge) {
          assert ItemOf(messages[0]) == next.items[|so.items|] == batch.items[|so.items|];
        }
        assert forall i :: 1 <= i < |messages| ==> messages[i] == messages[1..][i - 1];
      }
    }
  }

  /**
   * A batch below its limit leaves no wanted message behind that is available and among the
   * next 4096; no batch is larger than its limit, except that a limit of zero counts as one.
   */
  lemma BatchIsExhaustive(queue: seq<Message>, cursor: nat, limit: nat, now: int, judge: Judge, start: nat, i: nat)
    requires IsWindow(queue, cursor, start) && NextBatch(queue, cursor, limit, now, judge).Some?
    ensures var batch := NextBatch(queue, cursor, limit, now, judge).value;
      && (|batch.items| <= limit || |batch.items| <= 1)
      && (|batch.items| < limit && start <= i < start + 4096 && i < |queue|
          && queue[i].availableAt <= now && judge(queue[i]).Deliver? ==>
            ItemOf(queue[i]) in batch.items)
  {
    PeekIsWindow(queue, cursor, start);
    var peeked := Peek(queue, cursor, PEEK_LIMIT);
    ScanExhausts(peeked, Batch([], cursor), limit, now, judge);
    if start <= i < start + 4096 && i < |queue| {
      assert peeked[i - start] == queue[i];
    }
  }

  /** How many of the messages are wanted and available. */
  function Due(messages: seq<Message>, now: int, judge: Judge): nat {
    if messages == [] then 0
    else
      var here := if messages[0].availableAt <= now && judge(messages[0]).Deliver? then 1 else 0;
      here + Due(messages[1..], now, judge)
  }

  /** Message `i` is available and fails, and those before it do not fill a batch that has `count` items. */
  predicate FailsAt(messages: seq<Message>, count: nat, limit: nat, now: int, judge: Judge, i: nat)
    requires i < |messages|
  {
    && messages[i].availableAt <= now && judge(messages[i]).Fail?
    && (Due(messages[..i], now, judge) == 0 || count + Due(messages[..i], now, judge) < limit)
  }

  lemma FailsLater(messages: seq<Message>, count: nat, limit: nat, now: int, judge: Judge, i: nat)
    requires 0 < i < |messages|
    ensures var message, rest := messages[0], messages[1..];
      && (!Taken(message, now, judge) ==>
            (FailsAt(messages, count, limit, now, judge, i) <==> FailsAt(rest, count, limit, now, judge, i - 1)))
      && (Taken(message, now, judge) && count + 1 < limit ==>
            (FailsAt(messages, count, limit, now, judge, i) <==> FailsAt(rest, count + 1, limit, now, judge, i - 1)))
      && (Taken(message, now, judge) && count + 1 >= limit ==> !FailsAt(messages, count, limit, now, judge, i))
  {
    assert messages[..i][1..] == messages[1..][..i - 1];
  }

  lemma {:induction false} ScanFailsIff(messages: seq<Message>, so: Batch, limit: nat, now: int, judge: Judge)
    ensures Scan(messages, so, limit, now, judge).None? <==>
      exists i :: 0 <= i < |messages| && FailsAt(messages, |so.items|, limit, now, judge, i)
  {
    if messages != [] {
      var message, rest := messages[0], messages[1..];
      var next := Seen(so, message, now, judge);
      forall i | 0 < i < |messages|
        ensures Taken(message, now, judge) && |so.items| + 1 >= limit ==>
          !FailsAt(messages, |so.items|, limit, now, judge, i)
      {
        FailsLater(messages, |so.items|, limit, now, judge, i);
      }
      if message.availableAt <= now && judge(message).Fail? {
        assert messages[..0] == [] && FailsAt(messages, |so.items|, limit, now, judge, 0);
      } else if !(Taken(message, now, judge) && |next.items| >= limit) {
        ScanFailsIff(rest, next, limit, now, judge);
        assert so.items + [] == so.items;
        assert Scan(messages, so, limit, now, judge) == Scan(rest, next, limit, now, judge);
        FailsShift(messages, |so.items|, |next.items|, limit, now, judge);
      }
    }
  }

  lemma FailsShift(messages: seq<Message>, count: nat, after: nat, limit: nat, now: int, judge: Judge)
    requires messages != [] && !(messages[0].availableAt <= now && judge(messages[0]).Fail?)
    requires after == count + (if Taken(messages[0], now, judge) then 1 else 0)
    requires Taken(messages[0], now, judge) ==> after < limit
    ensures (exists i :: 0 <= i < |messages| && FailsAt(messages, count, limit, now, judge, i))
            <==> exists i :: 0 <= i < |messages[1..]| && FailsAt(messages[1..], after, limit, now, judge, i)
  {
    var rest := messages[1..];
    if i :| 0 <= i < |messages| && FailsAt(messages, count, limit, now, judge, i) {
      FailsLater(messages, count, limit, now, judge, i);
      assert FailsAt(rest, after, limit, now, judge, i - 1);
    }
    if i :| 0 <= i < |rest| && FailsAt(rest, after, limit, now, judge, i) {
      FailsLater(messages, count, limit, now, judge, i + 1);
      assert FailsAt(messages, count, limit, now, judge, i + 1);
    }
  }

  /**
   * A batch fails exactly when an available message among the next 4096 fails before the
   * wanted ones have filled the batch.
   */
  lemma BatchFailsIff(queue: seq<Message>, cursor: nat, limit: nat, now: int, judge: Judge, start: nat)
    requires IsWindow(queue, cursor, start)
    ensures var window := queue[start..if start + 4096 <= |queue| then start + 4096 else |queue|];
      NextBatch(queue, cursor, limit, now, judge).None? <==>
      exists i :: 0 <= i < |window| && FailsAt(window, 0, limit, now, judge, i)
  {
    PeekIsWindow(queue, cursor, start);
    ScanFailsIff(Peek(queue, cursor, PEEK_LIMIT), Batch([], cursor), limit, now, judge);
  }

  // ---------------------------------------------------------------- a whole session

  /** One poll of a session: the queue as it is then, the batch limit and the time. */
  datatype Poll = Poll(queue: seq<Message>, limit: nat, now: int)

  /** Everything a session has received, and its cursor; nothing once a batch has failed. */
  function Session(polls: seq<Poll>, cursor: nat, judge: Judge): Option<Batch> {
    if polls == [] then Some(Batch([], cursor))
    else
      var before, poll := Session(polls[..|polls| - 1], cursor, judge), polls[|polls| - 1];
      if before.None? then None
      else
        var batch := NextBatch(poll.queue, before.value.cursor, poll.limit, poll.now, judge);
        if batch.None? then None else Some(Batch(before.value.items + batch.value.items, batch.value.cursor))
  }

  ghost predicate Sound(polls: seq<Poll>) {
    forall i :: 0 <= i < |polls| ==> Ascending(polls[i].queue) && BelowMax(polls[i].queue)
  }

  /** Sequence numbers in (after, upTo], strictly increasing. */
  ghost predicate Increasing(items: seq<Item>, after: nat, upTo: nat) {
    && (forall i :: 0 <= i < |items| ==> after < items[i].sequence <= upTo)
    && (forall i, j :: 0 <= i < j < |items| ==> items[i].sequence < items[j].sequence)
  }

  lemma {:induction false} SelectionIncreases(queue: seq<Message>, from: nat, to: nat, keep: Message -> bool)
    requires Ascending(queue) && BelowMax(queue)
    ensures Increasing(Select(queue, from, to, keep), from, to)
    ensures forall i :: 0 <= i < |Select(queue, from, to, keep)| && queue != [] ==>
      Select(queue, from, to, keep)[i].sequence > queue[0].sequence
  {
    if queue != [] {
      SelectionIncreases(queue[1..], from, to, keep);
    }
  }

  /** Whatever the batch sizes and the times, a session never receives a message twice. */
  lemma {:induction false} SessionNeverRepeats(polls: seq<Poll>, cursor: nat, judge: Judge)
    requires Sound(polls) && Session(polls, cursor, judge).Some?
    ensures var session := Session(polls, cursor, judge).value;
            cursor <= session.cursor && Increasing(session.items, cursor, session.cursor)
  {
    if polls != [] {
      var last := |polls| - 1;
      SessionNeverRepeats(polls[..last], cursor, judge);
      var before, poll := Session(polls[..last], cursor, judge).value, polls[last];
      BatchIsSelection(poll.queue, before.cursor, poll.limit, poll.now, judge);
      SelectionIncreases(poll.queue, before.cursor, Session(polls, cursor, judge).value.cursor,
                         WantedAt(judge, poll.now));
    }
  }

  // ---------------------------------------------------------------- nothing is lost, unless it is passed over

  /** The queue only grows at its end between polls. */
  ghost predicate AppendOnly(polls: seq<Poll>) {
    forall i, j :: 0 <= i <= j < |polls| ==> polls[i].queue <= polls[j].queue
  }

  /** A wanted message between the cursors of a poll was not available yet. */
  predicate PassesOver(queue: seq<Message>, from: nat, to: nat, now: int, judge: Judge) {
    && queue != []
    && (|| (from <= queue[0].sequence < to && judge(queue[0]).Deliver? && queue[0].availableAt > now)
        || PassesOver(queue[1..], from, to, now, judge))
  }

  /** Time takes messages away exactly when one is passed over. */
  lemma {:induction false} TimeMattersIffPassedOver(queue: seq<Message>, from: nat, to: nat, now: int, judge: Judge)
    ensures var due, all := Select(queue, from, to, WantedAt(judge, now)), Select(queue, from, to, Wanted(judge));
            && |due| <= |all|
            && (PassesOver(queue, from, to, now, judge) ==> |due| < |all|)
            && (!PassesOver(queue, from, to, now, judge) ==> due == all)
  {
    if queue != [] {
      TimeMattersIffPassedOver(queue[1..], from, to, now, judge);
    }
  }

  /** From a message at or beyond `mid` on, the lower part selects nothing. */
  lemma SelectAbove(queue: seq<Message>, from: nat, mid: nat, to: nat, keep: Message -> bool)
    requires Ascending(queue) && from <= mid && queue != [] && mid <= queue[0].sequence
    ensures Select(queue, from, mid, keep) == []
    ensures Select(queue, from, to, keep) == Select(queue, mid, to, keep)
  {
    SelectOutside(queue, from, mid, keep);
    SelectAgrees(queue, from, to, mid, to, keep);
  }

  lemma {:induction false} SelectSplits(queue: seq<Message>, from: nat, mid: nat, to: nat, keep: Message -> bool)
    requires Ascending(queue) && from <= mid <= to
    ensures Select(queue, from, to, keep) == Select(queue, from, mid, keep) + Select(queue, mid, to, keep)
  {
    if queue != [] {
      if queue[0].sequence >= mid {
        SelectAbove(queue, from, mid, to, keep);
      } else {
        var head, rest := Chosen(queue[0], from, to, keep), queue[1..];
        SelectSplits(rest, from, mid, to, keep);
        assert Chosen(queue[0], from, mid, keep) == head && Chosen(queue[0], mid, to, keep) == [];
        Regrouped(head, Select(rest, from, mid, keep), Select(rest, mid, to, keep));
        assert [] + Select(rest, mid, to, keep) == Select(rest, mid, to, keep);
      }
    }
  }

  lemma Regrouped(a: seq<Item>, b: seq<Item>, c: seq<Item>)
    ensures a + (b + c) == (a + b) + c
  {
  }

  lemma CursorBeforeAppend(queue: seq<Message>, later: seq<Message>, from: nat, to: nat, k: nat)
    requires queue <= later && Ascending(later) && CursorFrom(Peek(queue, from, PEEK_LIMIT), from, to)
    requires |queue| <= k < |later|
    ensures from < to ==> to <= later[k].sequence
  {
    if from < to {
      var peeked := Peek(queue, from, PEEK_LIMIT);
      var i :| 0 <= i < |peeked| && to == peeked[i].sequence + 1;
      assert peeked[i] == queue[Start(queue, from) + i] == later[Start(queue, from) + i];
    }
  }

  /** Messages appended later lie beyond the cursor. */
  lemma SelectBeforeAppend(queue: seq<Message>, later: seq<Message>, from: nat, to: nat, keep: Message -> bool)
    requires queue <= later && Ascending(later) && CursorFrom(Peek(queue, from, PEEK_LIMIT), from, to)
    ensures Select(later, from, to, keep) == Select(queue, from, to, keep)
  {
    var more := later[|queue|..];
    assert later == queue + more;
    SelectJoined(queue, more, from, to, keep);
    forall i | 0 <= i < |more|
      ensures !(from <= more[i].sequence < to)
    {
      CursorBeforeAppend(queue, later, from, to, |queue| + i);
    }
    SelectOutside(more, from, to, keep);
  }

  /** Whether some poll of the session passes over a wanted message. */
  ghost predicate SessionPassesOver(polls: seq<Poll>, cursor: nat, judge: Judge)
    requires Session(polls, cursor, judge).Some?
  {
    polls != [] &&
    var last := |polls| - 1;
    || SessionPassesOver(polls[..last], cursor, judge)
    || PassesOver(polls[last].queue, Session(polls[..last], cursor, judge).value.cursor,
                  Session(polls, cursor, judge).value.cursor, polls[last].now, judge)
  }

  /**
   * On an append-only queue a session receives exactly the wanted messages below its
   * cursor, for every choice of batch limits, if and only if no poll passes over a
   * wanted message that is not yet available.
   */
  lemma {:induction false} SessionIsCompleteIff(polls: seq<Poll>, cursor: nat, judge: Judge, queue: seq<Message>)
    requires Sound(polls) && AppendOnly(polls) && Ascending(queue)
    requires polls != [] ==> polls[|polls| - 1].queue <= queue
    requires Session(polls, cursor, judge).Some?
    ensures var session := Session(polls, cursor, judge).value;
            var all := Select(queue, cursor, session.cursor, Wanted(judge));
            && cursor <= session.cursor && |session.items| <= |all|
            && (SessionPassesOver(polls, cursor, judge) ==> |session.items| < |all|)
            && (!SessionPassesOver(polls, cursor, judge) ==> session.items == all)
  {
    if polls == [] {
      SelectOutside(queue, cursor, cursor, Wanted(judge));
    } else {
      var last := |polls| - 1;
      var poll, init := polls[last], polls[..last];
      assert forall i :: 0 <= i < last ==> init[i] == polls[i];
      if init != [] {
        assert polls[last - 1].queue <= polls[last].queue;
      }
      SessionIsCompleteIff(init, cursor, judge, queue);
      var from, to := Session(init, cursor, judge).value.cursor, Session(polls, cursor, judge).value.cursor;
      BatchIsSelection(poll.queue, from, poll.limit, poll.now, judge);
      TimeMattersIffPassedOver(poll.queue, from, to, poll.now, judge);
      SelectBeforeAppend(poll.queue, queue, from, to, Wanted(judge));
      SelectSplits(queue, cursor, from, to, Wanted(judge));
    }
  }

  // ---------------------------------------------------------------- the last sequence number

  /** At the largest sequence number the cursor sticks. */
  lemma LastSequenceBatch(queue: seq<Message>, k: nat, limit: nat, judge: Judge)
    requires Ascending(queue) && k < |queue| && queue[k].sequence == MAX_SEQUENCE && judge(queue[k]).Deliver?
    ensures NextBatch(queue, MAX_SEQUENCE, limit, queue[k].availableAt, judge)
            == Some(Batch([ItemOf(queue[k])], MAX_SEQUENCE))
  {
    var message, so, now := queue[k], Batch([], MAX_SEQUENCE), queue[k].availableAt;
    var start, last := Start(queue, MAX_SEQUENCE), |queue| - 1;
    assert queue[k].sequence >= queue[last].sequence && queue[k].sequence >= queue[start].sequence;
    assert start == k == last;
    assert Peek(queue, MAX_SEQUENCE, PEEK_LIMIT) == [message];
    assert Seen(so, message, now, judge) == Batch([ItemOf(message)], MAX_SEQUENCE);
    assert [message][1..] == [];
    assert Scan([], Seen(so, message, now, judge), limit, now, judge) == Some(Seen(so, message, now, judge));
  }

  /** So a message that has it is delivered again by every further poll. */
  lemma LastSequenceRepeats(queue: seq<Message>, k: nat, limit: nat, judge: Judge)
    requires Ascending(queue) && k < |queue| && queue[k].sequence == MAX_SEQUENCE && judge(queue[k]).Deliver?
    ensures var poll, item := Poll(queue, limit, queue[k].availableAt), ItemOf(queue[k]);
            Session([poll, poll], MAX_SEQUENCE, judge) == Some(Batch([item, item], MAX_SEQUENCE))
  {
    var poll, item := Poll(queue, limit, queue[k].availableAt), ItemOf(queue[k]);
    LastSequenceBatch(queue, k, limit, judge);
    var polls := [poll, poll];
    assert polls[..|polls| - 1] == [poll] && [poll][..0] == [];
    assert [] + [item] == [item] && [item] + [item] == [item, item];
    assert Session([], MAX_SEQUENCE, judge) == Some(Batch([], MAX_SEQUENCE));
    assert Session([poll], MAX_SEQUENCE, judge) == Some(Batch([item], MAX_SEQUENCE));
  }

  ghost predicate Distinct(items: seq<Item>) {
    forall i, j :: 0 <= i < j < |items| ==> items[i].sequence != items[j].sequence
  }

  /** The polls of one and the same queue. */
  ghost predicate PollsOf(polls: seq<Poll>, queue: seq<Message>) {
    forall i :: 0 <= i < |polls| ==> polls[i].queue == queue
  }

  /** Whatever is judged and polled, no session on the queue receives a message twice. */
  ghost predicate NeverRepeats(queue: seq<Message>) {
    forall polls: seq<Poll>, cursor: nat, judge: Judge ::
      PollsOf(polls, queue) && Session(polls, cursor, judge).Some? ==>
        Distinct(Session(polls, cursor, judge).value.items)
  }

  lemma RepeatedSession(queue: seq<Message>, polls: seq<Poll>, cursor: nat, judge: Judge)
    requires PollsOf(polls, queue) && Session(polls, cursor, judge).Some?
    requires !Distinct(Session(polls, cursor, judge).value.items)
    ensures !NeverRepeats(queue)
  {
  }

  lemma SomeSessionRepeats(queue: seq<Message>, k: nat)
    requires Ascending(queue) && k < |queue| && queue[k].sequence == MAX_SEQUENCE
    ensures !NeverRepeats(queue)
  {
    var judge: Judge := m => Deliver;
    var poll, item := Poll(queue, 1, queue[k].availableAt), ItemOf(queue[k]);
    LastSequenceRepeats(queue, k, 1, judge);
    assert [item, item][0].sequence == [item, item][1].sequence;
    RepeatedSession(queue, [poll, poll], MAX_SEQUENCE, judge);
  }

  /** Sessions never repeat a message exactly when every sequence number has a successor. */
  lemma NeverRepeatsIffBelowMax(queue: seq<Message>)
    requires Ascending(queue)
    ensures NeverRepeats(queue) <==> BelowMax(queue)
  {
    if BelowMax(queue) {
      forall polls: seq<Poll>, cursor: nat, judge: Judge |
        PollsOf(polls, queue) && Session(polls, cursor, judge).Some?
        ensures Distinct(Session(polls, cursor, judge).value.items)
      {
        SessionNeverRepeats(polls, cursor, judge);
      }
    } else {
      var k :| 0 <= k < |queue| && queue[k].sequence >= MAX_SEQUENCE;
      SomeSessionRepeats(queue, k);
    }
  }
}
