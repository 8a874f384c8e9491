/**
 * The fixed-window rate limiter (`admit_rate` in crates/bicdb-app-runtime/src/http.rs):
 * windows are reset lazily and old ones are reaped in bulk. An identity stands for its
 * digest.
 */
module RateLimit {
  import opened Prelude

  const REAP_ABOVE: nat := 100_000

  datatype Window = Window(minute: nat, requests: nat)

  type Windows = map<string, Window>

  function PreviousMinute(minute: nat): nat {
    if minute == 0 then 0 else minute - 1
  }

  function Reaped(windows: Windows, minute: nat): Windows {
    if |windows| > REAP_ABOVE
    then map key | key in windows && windows[key].minute >= PreviousMinute(minute) :: windows[key]
    else windows
  }

  /** The window that counts for `minute`. */
  function Current(windows: Windows, key: string, minute: nat): Window {
    if key in windows && windows[key].minute == minute then windows[key] else Window(minute, 0)
  }

  function Admission(windows: Windows, key: string, minute: nat, limit: nat): (Windows, bool) {
    var kept := Reaped(windows, minute);
    var window := Current(kept, key, minute);
    if window.requests >= limit then (kept[key := window], false)
    else (kept[key := window.(requests := window.requests + 1)], true)
  }

  class RateLimiter {
    const limit: nat
    var windows: Windows

    constructor (limit: nat)
      ensures this.limit == limit && windows == map[]
    {
      this.limit := limit;
      windows := map[];
    }

    method Admit(key: string, minute: nat) returns (ok: bool)
      modifies this
      ensures (windows, ok) == Admission(old(windows), key, minute, limit)
    {
      if |windows| > REAP_ABOVE {
        windows := map k | k in windows && windows[k].minute >= PreviousMinute(minute) :: windows[k];
      }
      var window := if key in windows then windows[key] else Window(minute, 0);
      if window.minute != minute {
        window := Window(minute, 0);
      }
      windows := windows[key := window];
      if window.requests >= limit {
        return false;
      }
      var counted := window.(requests := window.requests + 1);
      assert windows[key := counted] == Reaped(old(windows), minute)[key := counted];
      windows := windows[key := counted];
      return true;
    }
  }

  // ---------------------------------------------------------------- every sequence of requests

  datatype Request = Request(key: string, minute: nat)

  function TableAfter(requests: seq<Request>, limit: nat): Windows {
    if requests == [] then map[]
    else
      var last := requests[|requests| - 1];
      Admission(TableAfter(requests[..|requests| - 1], limit), last.key, last.minute, limit).0
  }

  /** The answer to request `i`. */
  predicate Admitted(requests: seq<Request>, i: nat, limit: nat)
    requires i < |requests|
  {
    Admission(TableAfter(requests[..i], limit), requests[i].key, requests[i].minute, limit).1
  }

  /** How many requests of `key` were admitted in `minute`. */
  function AdmittedCount(requests: seq<Request>, key: string, minute: nat, limit: nat): nat {
    if requests == [] then 0
    else
      var last := |requests| - 1;
      AdmittedCount(requests[..last], key, minute, limit)
      + if requests[last] == Request(key, minute) && Admitted(requests, last, limit) then 1 else 0
  }

  // ---------------------------------------------------------------- when a window is lost

  /** The minute of each window in the table, which no limit influences. */
  function Minutes(requests: seq<Request>): map<string, nat> {
    if requests == [] then map[]
    else
      var before, last := Minutes(requests[..|requests| - 1]), requests[|requests| - 1];
      KeptMinutes(before, last.minute)[last.key := last.minute]
  }

  function KeptMinutes(minutes: map<string, nat>, minute: nat): map<string, nat> {
    if |minutes| > REAP_ABOVE
    then map key | key in minutes && minutes[key] >= PreviousMinute(minute) :: minutes[key]
    else minutes
  }

  function MinutesOf(windows: Windows): map<string, nat> {
    map key | key in windows :: windows[key].minute
  }

  lemma SameSize(windows: Windows)
    ensures |MinutesOf(windows)| == |windows|
  {
    assert MinutesOf(windows).Keys == windows.Keys;
  }

  lemma AdmissionMinutes(windows: Windows, here: Request, limit: nat)
    ensures MinutesOf(Admission(windows, here.key, here.minute, limit).0)
            == KeptMinutes(MinutesOf(windows), here.minute)[here.key := here.minute]
  {
    SameSize(windows);
    assert MinutesOf(Reaped(windows, here.minute)) == KeptMinutes(MinutesOf(windows), here.minute);
  }

  lemma {:induction false} TableMinutes(requests: seq<Request>, limit: nat)
    ensures MinutesOf(TableAfter(requests, limit)) == Minutes(requests)
  {
    if requests != [] {
      var last := |requests| - 1;
      TableMinutes(requests[..last], limit);
      AdmissionMinutes(TableAfter(requests[..last], limit), requests[last], limit);
    }
  }

  /**
   * Request `j` takes the window that `key` has for `minute` away: it is of the same
   * identity in another minute, or it finds the table over its size and is more than a
   * minute later.
   */
  predicate Drops(requests: seq<Request>, j: nat, key: string, minute: nat)
    requires j < |requests|
  {
    || (requests[j].key == key && requests[j].minute != minute)
    || (|Minutes(requests[..j])| > REAP_ABOVE && minute < PreviousMinute(requests[j].minute))
  }

  /** A window of the minute before is never reaped. */
  lemma DropsIff(requests: seq<Request>, j: nat, key: string, minute: nat)
    requires j < |requests|
    ensures Drops(requests, j, key, minute) <==>
      || (requests[j].key == key && requests[j].minute != minute)
      || (|Minutes(requests[..j])| > 100_000 && minute + 1 < requests[j].minute)
  {
  }

  /** Request `i` was counted in `minute` for `key`, and its window has been dropped since. */
  predicate Forgotten(requests: seq<Request>, i: nat, key: string, minute: nat)
    requires i < |requests|
  {
    requests[i] == Request(key, minute)
    && exists j :: i < j < |requests| && Drops(requests, j, key, minute)
  }

  ghost predicate Remembered(requests: seq<Request>, key: string, minute: nat) {
    forall i :: 0 <= i < |requests| ==> !Forgotten(requests, i, key, minute)
  }

  /** No request comes back to a minute of its identity whose window has been dropped. */
  ghost predicate NoReturn(requests: seq<Request>) {
    forall k :: 0 <= k < |requests| ==> Remembered(requests[..k], requests[k].key, requests[k].minute)
  }

  lemma RememberedBefore(requests: seq<Request>, key: string, minute: nat)
    requires requests != [] && Remembered(requests, key, minute)
    ensures Remembered(requests[..|requests| - 1], key, minute)
  {
    var before := requests[..|requests| - 1];
    forall i | 0 <= i < |before|
      ensures !Forgotten(before, i, key, minute)
    {
      assert !Forgotten(requests, i, key, minute);
      forall j | i < j < |before|
        ensures requests[i] == Request(key, minute) ==> !Drops(before, j, key, minute)
      {
        assert before[..j] == requests[..j];
        assert requests[i] == Request(key, minute) ==> !Drops(requests, j, key, minute);
      }
    }
  }

  /** What one request does to the count of `key` in `minute`. */
  lemma AdmissionCounts(table: Windows, here: Request, limit: nat, key: string, minute: nat)
    ensures var (after, ok) := Admission(table, here.key, here.minute, limit);
            var count := Current(table, key, minute).requests;
            Current(after, key, minute).requests
            == if here == Request(key, minute) then count + if ok then 1 else 0
               else if here.key == key || (|table| > REAP_ABOVE && minute < PreviousMinute(here.minute)) then 0
               else count
    ensures Admission(table, here.key, here.minute, limit).1 <==> Current(table, here.key, here.minute).requests < limit
  {
    var kept := Reaped(table, here.minute);
    assert Current(kept, here.key, here.minute) == Current(table, here.key, here.minute);
    if here.key != key {
      assert Current(kept, key, minute).requests
             == if |table| > REAP_ABOVE && minute < PreviousMinute(here.minute) then 0
                else Current(table, key, minute).requests;
    }
  }

  /** The same for the last request of a sequence. */
  lemma LastCounts(requests: seq<Request>, limit: nat, key: string, minute: nat)
    requires requests != []
    ensures var last := |requests| - 1;
            var count := Current(TableAfter(requests[..last], limit), key, minute).requests;
            Current(TableAfter(requests, limit), key, minute).requests
            == if requests[last] == Request(key, minute)
               then count + if Admitted(requests, last, limit) then 1 else 0
               else if Drops(requests, last, key, minute) then 0 else count
  {
    var last := |requests| - 1;
    var table := TableAfter(requests[..last], limit);
    TableMinutes(requests[..last], limit);
    SameSize(table);
    AdmissionCounts(table, requests[last], limit, key, minute);
  }

  lemma AdmittedMeans(requests: seq<Request>, i: nat, limit: nat)
    requires i < |requests|
    ensures Admitted(requests, i, limit) <==>
            Current(TableAfter(requests[..i], limit), requests[i].key, requests[i].minute).requests < limit
  {
    AdmissionCounts(TableAfter(requests[..i], limit), requests[i], limit, requests[i].key, requests[i].minute);
  }

  /** All requests of `key` in `minute`, admitted or not. */
  function Total(requests: seq<Request>, key: string, minute: nat): nat {
    if requests == [] then 0
    else Total(requests[..|requests| - 1], key, minute)
         + if requests[|requests| - 1] == Request(key, minute) then 1 else 0
  }

  lemma {:induction false} AdmittedWithinTotal(requests: seq<Request>, key: string, minute: nat, limit: nat)
    ensures AdmittedCount(requests, key, minute, limit) <= Total(requests, key, minute)
  {
    if requests != [] {
      AdmittedWithinTotal(requests[..|requests| - 1], key, minute, limit);
    }
  }

  lemma {:induction false} TotalFinds(requests: seq<Request>, key: string, minute: nat) returns (i: nat)
    requires Total(requests, key, minute) > 0
    ensures i < |requests| && requests[i] == Request(key, minute)
  {
    var last := |requests| - 1;
    if requests[last] == Request(key, minute) {
      i := last;
    } else {
      i := TotalFinds(requests[..last], key, minute);
    }
  }

  /** While nothing is forgotten, the table counts what was admitted. */
  lemma {:induction false} TableCounts(requests: seq<Request>, limit: nat, key: string, minute: nat)
    requires Remembered(requests, key, minute)
    ensures Current(TableAfter(requests, limit), key, minute).requests == AdmittedCount(requests, key, minute, limit)
  {
    if requests != [] {
      var last := |requests| - 1;
      var before := requests[..last];
      RememberedBefore(requests, key, minute);
      TableCounts(before, limit, key, minute);
      LastCounts(requests, limit, key, minute);
      if Drops(requests, last, key, minute) && Total(before, key, minute) > 0 {
        var i := TotalFinds(before, key, minute);
        assert Forgotten(requests, i, key, minute);
      }
      AdmittedWithinTotal(before, key, minute, limit);
    }
  }

  /** Some counted request of `key` in `minute` is forgotten: the last request drops it, or it was before. */
  lemma ForgottenBefore(requests: seq<Request>, key: string, minute: nat)
    requires requests != [] && !Remembered(requests, key, minute)
    ensures !Remembered(requests[..|requests| - 1], key, minute)
            || (Drops(requests, |requests| - 1, key, minute) && Total(requests[..|requests| - 1], key, minute) > 0)
  {
    var last := |requests| - 1;
    var before := requests[..last];
    var i :| 0 <= i < |requests| && Forgotten(requests, i, key, minute);
    var j :| i < j < |requests| && Drops(requests, j, key, minute);
    if j == last {
      TotalCounts(before, i, key, minute);
    } else {
      assert before[..j] == requests[..j];
      assert Drops(before, j, key, minute);
      assert Forgotten(before, i, key, minute);
    }
  }

  lemma {:induction false} TotalCounts(requests: seq<Request>, i: nat, key: string, minute: nat)
    requires i < |requests| && requests[i] == Request(key, minute)
    ensures Total(requests, key, minute) > 0
  {
    if i < |requests| - 1 {
      TotalCounts(requests[..|requests| - 1], i, key, minute);
    }
  }

  /** The table never counts more than there were, and less once something is forgotten. */
  lemma {:induction false} TableUndercounts(requests: seq<Request>, limit: nat, key: string, minute: nat)
    ensures Current(TableAfter(requests, limit), key, minute).requests <= Total(requests, key, minute)
    ensures !Remembered(requests, key, minute) ==>
      Current(TableAfter(requests, limit), key, minute).requests < Total(requests, key, minute)
  {
    if requests != [] {
      TableUndercounts(requests[..|requests| - 1], limit, key, minute);
      LastCounts(requests, limit, key, minute);
      if !Remembered(requests, key, minute) {
        ForgottenBefore(requests, key, minute);
      }
    }
  }

  /** A limit that the number of requests does not exceed admits them all. */
  lemma {:induction false} AllAdmitted(requests: seq<Request>, key: string, minute: nat, limit: nat)
    requires Total(requests, key, minute) <= limit
    ensures AdmittedCount(requests, key, minute, limit) == Total(requests, key, minute)
  {
    if requests != [] {
      var last := |requests| - 1;
      AllAdmitted(requests[..last], key, minute, limit);
      TableUndercounts(requests[..last], limit, key, minute);
      AdmittedMeans(requests, last, limit);
    }
  }

  // ---------------------------------------------------------------- exact answers

  /** The answer to request `k`, against what was admitted before it for its identity in its minute. */
  ghost predicate IsExact(requests: seq<Request>, k: nat, limit: nat)
    requires k < |requests|
  {
    Admitted(requests, k, limit) <==>
      AdmittedCount(requests[..k], requests[k].key, requests[k].minute, limit) < limit
  }

  ghost predicate EveryAnswerIsExact(requests: seq<Request>) {
    forall limit: nat, k: nat :: k < |requests| ==> IsExact(requests, k, limit)
  }

  ghost predicate LimitHolds(requests: seq<Request>) {
    forall limit: nat, key: string, minute: nat :: AdmittedCount(requests, key, minute, limit) <= limit
  }

  lemma AdmittedIffUnderLimit(requests: seq<Request>, k: nat, limit: nat)
    requires k < |requests| && Remembered(requests[..k], requests[k].key, requests[k].minute)
    ensures IsExact(requests, k, limit)
  {
    TableCounts(requests[..k], limit, requests[k].key, requests[k].minute);
    AdmittedMeans(requests, k, limit);
  }

  /** A return to a forgotten minute is admitted beyond a limit that was used up. */
  lemma ReturnIsAdmitted(requests: seq<Request>, k: nat)
    requires k < |requests| && !Remembered(requests[..k], requests[k].key, requests[k].minute)
    ensures var key, minute := requests[k].key, requests[k].minute;
            var limit := Total(requests[..k], key, minute);
            && !IsExact(requests, k, limit)
            && AdmittedCount(requests[..k + 1], key, minute, limit) == limit + 1
  {
    var key, minute := requests[k].key, requests[k].minute;
    var limit := Total(requests[..k], key, minute);
    TableUndercounts(requests[..k], limit, key, minute);
    AllAdmitted(requests[..k], key, minute, limit);
    AdmittedMeans(requests, k, limit);
    assert requests[..k + 1][..k] == requests[..k];
  }

  lemma {:induction false} CountGrows(requests: seq<Request>, k: nat, key: string, minute: nat, limit: nat)
    requires k <= |requests|
    ensures AdmittedCount(requests[..k], key, minute, limit) <= AdmittedCount(requests, key, minute, limit)
  {
    if k == |requests| {
      assert requests[..k] == requests;
    } else {
      assert requests[..|requests| - 1][..k] == requests[..k];
      CountGrows(requests[..|requests| - 1], k, key, minute, limit);
    }
  }

  /**
   * Under every limit each request is admitted exactly when fewer than the limit were
   * admitted for its identity in its minute, if and only if no request comes back to a
   * minute whose window has been dropped.
   */
  lemma ExactIffNoReturn(requests: seq<Request>)
    ensures EveryAnswerIsExact(requests) <==> NoReturn(requests)
  {
    if NoReturn(requests) {
      forall limit: nat, k: nat | k < |requests|
        ensures IsExact(requests, k, limit)
      {
        AdmittedIffUnderLimit(requests, k, limit);
      }
    } else {
      var k :| 0 <= k < |requests| && !Remembered(requests[..k], requests[k].key, requests[k].minute);
      ReturnIsAdmitted(requests, k);
    }
  }

  lemma {:induction false} NeverOverLimit(requests: seq<Request>, key: string, minute: nat, limit: nat)
    requires NoReturn(requests)
    ensures AdmittedCount(requests, key, minute, limit) <= limit
  {
    if requests != [] {
      var last := |requests| - 1;
      var before := requests[..last];
      assert forall k :: 0 <= k < |before| ==> before[k] == requests[k] && before[..k] == requests[..k];
      NeverOverLimit(before, key, minute, limit);
      AdmittedIffUnderLimit(requests, last, limit);
    }
  }

  lemma ReturnBreaksLimit(requests: seq<Request>, k: nat)
    requires k < |requests| && !Remembered(requests[..k], requests[k].key, requests[k].minute)
    ensures !LimitHolds(requests)
  {
    var limit := Total(requests[..k], requests[k].key, requests[k].minute);
    ReturnIsAdmitted(requests, k);
    CountGrows(requests, k + 1, requests[k].key, requests[k].minute, limit);
    assert AdmittedCount(requests, requests[k].key, requests[k].minute, limit) > limit;
  }

  /** No minute ever admits more than the limit, if and only if no request comes back. */
  lemma LimitHoldsIffNoReturn(requests: seq<Request>)
    ensures LimitHolds(requests) <==> NoReturn(requests)
  {
    if NoReturn(requests) {
      forall limit: nat, key: string, minute: nat
        ensures AdmittedCount(requests, key, minute, limit) <= limit
      {
        NeverOverLimit(requests, key, minute, limit);
      }
    } else {
      var k :| 0 <= k < |requests| && !Remembered(requests[..k], requests[k].key, requests[k].minute);
      ReturnBreaksLimit(requests, k);
    }
  }

  // ---------------------------------------------------------------- clocks

  ghost predicate Chronological(requests: seq<Request>) {
    forall i, j :: 0 <= i < j < |requests| ==> requests[i].minute <= requests[j].minute
  }

  /** With a clock that does not step back nothing returns, whatever the table holds. */
  lemma ChronologicalNeverReturns(requests: seq<Request>)
    requires Chronological(requests)
    ensures NoReturn(requests)
  {
    forall k | 0 <= k < |requests|
      ensures Remembered(requests[..k], requests[k].key, requests[k].minute)
    {
      var before := requests[..k];
      forall i, j | 0 <= i < j < k && before[i] == Request(requests[k].key, requests[k].minute)
        ensures !Drops(before, j, requests[k].key, requests[k].minute)
      {
        assert requests[i].minute <= requests[j].minute <= requests[k].minute;
      }
    }
  }

  /** An identity leaves a minute and comes back to it. */
  ghost predicate StepsBack(requests: seq<Request>, i: nat, j: nat, k: nat)
    requires i < j < k < |requests|
  {
    requests[i] == requests[k] && requests[j].key == requests[k].key && requests[j].minute != requests[k].minute
  }

  /** While the table stays within its size, only an identity's own clock matters. */
  lemma SmallTableReturnsIffStepsBack(requests: seq<Request>)
    requires forall j :: 0 <= j < |requests| ==> |Minutes(requests[..j])| <= REAP_ABOVE
    ensures NoReturn(requests) <==> forall i, j, k :: 0 <= i < j < k < |requests| ==> !StepsBack(requests, i, j, k)
  {
    forall k | 0 <= k < |requests|
      ensures Remembered(requests[..k], requests[k].key, requests[k].minute)
              <==> forall i, j :: 0 <= i < j < k ==> !StepsBack(requests, i, j, k)
    {
      SmallTableRemembers(requests, k);
    }
  }

  lemma SmallTableRemembers(requests: seq<Request>, k: nat)
    requires k < |requests| && forall j :: 0 <= j < |requests| ==> |Minutes(requests[..j])| <= REAP_ABOVE
    ensures Remembered(requests[..k], requests[k].key, requests[k].minute)
            <==> forall i, j :: 0 <= i < j < k ==> !StepsBack(requests, i, j, k)
  {
    var before, key, minute := requests[..k], requests[k].key, requests[k].minute;
    forall i, j | 0 <= i < j < k
      ensures before[i] == Request(key, minute) && Drops(before, j, key, minute) <==> StepsBack(requests, i, j, k)
    {
      assert before[..j] == requests[..j];
    }
    if Remembered(before, key, minute) {
      forall i, j | 0 <= i < j < k
        ensures !StepsBack(requests, i, j, k)
      {
        assert !Forgotten(before, i, key, minute);
      }
    }
  }

  lemma {:induction false} TableWithinIdentities(requests: seq<Request>, identities: set<string>)
    requires forall i :: 0 <= i < |requests| ==> requests[i].key in identities
    ensures Minutes(requests).Keys <= identities && |Minutes(requests)| <= |identities|
  {
    if requests != [] {
      TableWithinIdentities(requests[..|requests| - 1], identities);
    }
    SubsetIsSmaller(Minutes(requests).Keys, identities);
  }

  /**
   * For at most as many identities as the table holds before it reaps: every answer is
   * exact if and only if no identity leaves a minute and comes back to it.
   */
  lemma FewIdentitiesExactIff(requests: seq<Request>, identities: set<string>)
    requires |identities| <= 100_000 && forall i :: 0 <= i < |requests| ==> requests[i].key in identities
    ensures EveryAnswerIsExact(requests) <==>
            forall i, j, k :: 0 <= i < j < k < |requests| ==> !StepsBack(requests, i, j, k)
  {
    forall j | 0 <= j < |requests|
      ensures |Minutes(requests[..j])| <= REAP_ABOVE
    {
      TableWithinIdentities(requests[..j], identities);
    }
    SmallTableReturnsIffStepsBack(requests);
    ExactIffNoReturn(requests);
  }

  /** Above that size, a request of anyone more than a minute later suffices. */
  lemma ReapingForgets(requests: seq<Request>, i: nat, j: nat, k: nat)
    requires i < j < k < |requests| && requests[i] == requests[k]
    requires |Minutes(requests[..j])| > 100_000 && requests[i].minute + 1 < requests[j].minute
    ensures !EveryAnswerIsExact(requests) && !LimitHolds(requests)
  {
    var before := requests[..k];
    assert before[..j] == requests[..j];
    assert Drops(before, j, requests[k].key, requests[k].minute);
    assert Forgotten(before, i, requests[k].key, requests[k].minute);
    assert !Remembered(before, requests[k].key, requests[k].minute);
    ExactIffNoReturn(requests);
    LimitHoldsIffNoReturn(requests);
  }
}
