/** The fixed-window rate limiter: one shared map, eager eviction, and what it admits per key. */
module RateLimit {
  import opened Wrappers

  datatype Bucket = Bucket(count: nat, resetAt: int)

  class RateLimiter {
    const window: nat
    var buckets: map<string, Bucket>

    constructor (window: nat)
      ensures this.window == window && buckets == map[]
    {
      this.window := window;
      buckets := map[];
    }

    /** `RateLimiter::check`, the clock reading passed in. */
    method Check(now: int, key: string, maxRequests: nat) returns (accepted: bool)
      modifies this
      ensures (accepted, buckets) == Checked(old(buckets), window, now, key, maxRequests)
    {
      if maxRequests == 0 {
        return false;
      }
      buckets := map k | k in buckets && buckets[k].resetAt > now :: buckets[k];
      if key !in buckets {
        buckets := buckets[key := Bucket(0, now + window)];
      }
      if buckets[key].resetAt <= now {
        buckets := buckets[key := Bucket(0, now + window)];
      }
      if buckets[key].count >= maxRequests {
        assert buckets == (map k | k in old(buckets) && old(buckets)[k].resetAt > now :: old(buckets)[k])
                          [key := buckets[key]];
        return false;
      }
      ghost var charged := buckets[key];
      buckets := buckets[key := buckets[key].(count := buckets[key].count + 1)];
      assert buckets == (map k | k in old(buckets) && old(buckets)[k].resetAt > now :: old(buckets)[k])
                        [key := charged.(count := charged.count + 1)];
      return true;
    }
  }

  function Checked(buckets: map<string, Bucket>, window: nat, now: int, key: string, maxRequests: nat)
    : (bool, map<string, Bucket>)
  {
    if maxRequests == 0 then (false, buckets)
    else
      var live := map k | k in buckets && buckets[k].resetAt > now :: buckets[k];
      var b := if key in live then live[key] else Bucket(0, now + window);
      if b.count >= maxRequests then (false, live[key := b])
      else (true, live[key := b.(count := b.count + 1)])
  }

  // ----- One key on its own -----

  /** A limiter that serves one key and forgets nothing: the specification of a fixed window. */
  function CheckedAlone(b: Option<Bucket>, window: nat, now: int, maxRequests: nat): (bool, Option<Bucket>) {
    if maxRequests == 0 then (false, b)
    else if b.Some? && b.value.resetAt > now then
      if b.value.count >= maxRequests then (false, b)
      else (true, Some(Bucket(b.value.count + 1, b.value.resetAt)))
    else (true, Some(Bucket(1, now + window)))
  }

  datatype Call = Call(now: int, key: string, maxRequests: nat)

  predicate InOrder(calls: seq<Call>) {
    forall i, j | 0 <= i < j < |calls| :: calls[i].now <= calls[j].now
  }

  /** The verdicts of the shared limiter on the calls with this key. */
  function SharedVerdicts(buckets: map<string, Bucket>, window: nat, calls: seq<Call>, key: string): seq<(int, bool)>
    decreases |calls|
  {
    if calls == [] then []
    else
      var c := calls[0];
      var (ok, buckets') := Checked(buckets, window, c.now, c.key, c.maxRequests);
      var rest := SharedVerdicts(buckets', window, calls[1..], key);
      if c.key == key then [(c.now, ok)] + rest else rest
  }

  /** The verdicts of a limiter that sees only the calls with this key. */
  function VerdictsAlone(b: Option<Bucket>, window: nat, calls: seq<Call>, key: string): seq<(int, bool)>
    decreases |calls|
  {
    if calls == [] then []
    else
      var c := calls[0];
      if c.key != key then VerdictsAlone(b, window, calls[1..], key)
      else
        var (ok, b') := CheckedAlone(b, window, c.now, c.maxRequests);
        [(c.now, ok)] + VerdictsAlone(b', window, calls[1..], key)
  }

  /** The shared map and a separate limiter agree on a key: same bucket, or none that is still live. */
  predicate Agree(buckets: map<string, Bucket>, b: Option<Bucket>, key: string, now: int) {
    if key in buckets && buckets[key].resetAt > now then b == Some(buckets[key])
    else b.None? || b.value.resetAt <= now
  }

  lemma CheckKeepsAgreement(buckets: map<string, Bucket>, b: Option<Bucket>, window: nat, key: string, c: Call)
    requires Agree(buckets, b, key, c.now)
    ensures var (ok, buckets') := Checked(buckets, window, c.now, c.key, c.maxRequests);
            if c.key == key then
              var (ok', b') := CheckedAlone(b, window, c.now, c.maxRequests);
              ok == ok' && Agree(buckets', b', key, c.now)
            else Agree(buckets', b, key, c.now)
  {
  }

  lemma AgreementLasts(buckets: map<string, Bucket>, b: Option<Bucket>, key: string, now: int, later: int)
    requires Agree(buckets, b, key, now) && now <= later
    ensures Agree(buckets, b, key, later)
  {
  }

  /** Refinement: eager eviction by calls of other keys is invisible; every key has its own fixed window. */
  lemma {:induction false} SharedMapIsManyLimiters(buckets: map<string, Bucket>, b: Option<Bucket>, window: nat,
                                                   calls: seq<Call>, key: string)
    requires InOrder(calls)
    requires calls != [] ==> Agree(buckets, b, key, calls[0].now)
    ensures SharedVerdicts(buckets, window, calls, key) == VerdictsAlone(b, window, calls, key)
    decreases |calls|
  {
    if calls != [] {
      var c := calls[0];
      CheckKeepsAgreement(buckets, b, window, key, c);
      var (ok, buckets') := Checked(buckets, window, c.now, c.key, c.maxRequests);
      var b' := if c.key == key then CheckedAlone(b, window, c.now, c.maxRequests).1 else b;
      if |calls| > 1 {
        AgreementLasts(buckets', b', key, c.now, calls[1].now);
      }
      SharedMapIsManyLimiters(buckets', b', window, calls[1..], key);
    }
  }

  // ----- How much a key gets through -----

  /** Accepted calls in the half-open interval of one window length that starts at `from`. */
  function AcceptedIn(verdicts: seq<(int, bool)>, from: int, window: nat): nat {
    if verdicts == [] then 0
    else (if verdicts[0].1 && from <= verdicts[0].0 < from + window then 1 else 0)
         + AcceptedIn(verdicts[1..], from, window)
  }

  predicate FixedLimit(calls: seq<Call>, key: string, m: nat) {
    forall i | 0 <= i < |calls| && calls[i].key == key :: calls[i].maxRequests == m
  }

  /**
   How many calls of the interval may have been accepted so far: in a window that began before the
   interval (its first call lies outside), in one that began inside it, in one that began after it.
   */
  predicate Budget(b: Option<Bucket>, accepted: nat, from: int, window: nat, m: nat, now: int) {
    && (accepted > 0 ==> from <= now)
    && match b
       case None => accepted == 0
       case Some(Bucket(count, resetAt)) =>
         && 1 <= count <= m && resetAt <= now + window
         && (if resetAt < from + window then accepted < count
             else if resetAt < from + 2 * window then accepted < m + count
             else accepted < 2 * m)
  }

  lemma BudgetStep(b: Option<Bucket>, window: nat, from: int, m: nat, accepted: nat, now: int, later: int)
    requires Budget(b, accepted, from, window, m, now) && now <= later && m > 0
    ensures var (ok, b') := CheckedAlone(b, window, later, m);
            Budget(b', accepted + (if ok && from <= later < from + window then 1 else 0), from, window, m, later)
  {
  }

  lemma {:induction false} AloneAdmits(b: Option<Bucket>, window: nat, calls: seq<Call>, key: string,
                                       from: int, m: nat, accepted: nat, now: int)
    requires InOrder(calls) && FixedLimit(calls, key, m) && m > 0
    requires calls != [] ==> now <= calls[0].now
    requires Budget(b, accepted, from, window, m, now)
    ensures accepted + AcceptedIn(VerdictsAlone(b, window, calls, key), from, window) < 2 * m
    decreases |calls|
  {
    hide Budget;
    if calls != [] {
      var c := calls[0];
      if c.key == key {
        var (ok, b') := CheckedAlone(b, window, c.now, c.maxRequests);
        var accepted' := accepted + (if ok && from <= c.now < from + window then 1 else 0);
        BudgetStep(b, window, from, m, accepted, now, c.now);
        AloneAdmits(b', window, calls[1..], key, from, m, accepted', c.now);
        var v := VerdictsAlone(b, window, calls, key);
        assert v[1..] == VerdictsAlone(b', window, calls[1..], key);
      } else {
        AloneAdmits(b, window, calls[1..], key, from, m, accepted, now);
      }
    } else {
      BudgetBound(b, accepted, from, window, m, now);
    }
  }

  lemma BudgetBound(b: Option<Bucket>, accepted: nat, from: int, window: nat, m: nat, now: int)
    requires Budget(b, accepted, from, window, m, now) && m > 0
    ensures accepted < 2 * m
  {
  }

  /**
   For a key whose limit is always m > 0, any half-open interval of one window length holds fewer than
   2m accepted calls, in any run of the shared limiter, whatever other keys do; for m = 0 it holds none.
   */
  lemma FewerThanTwiceTheLimit(window: nat, calls: seq<Call>, key: string, m: nat, from: int)
    requires InOrder(calls) && FixedLimit(calls, key, m)
    ensures AcceptedIn(SharedVerdicts(map[], window, calls, key), from, window) <= (if m == 0 then 0 else 2 * m - 1)
  {
    SharedMapIsManyLimiters(map[], None, window, calls, key);
    if m == 0 {
      NothingAdmitted(None, window, calls, key, from);
    } else {
      AloneAdmits(None, window, calls, key, from, m, 0, if calls == [] then 0 else calls[0].now);
    }
  }

  lemma {:induction false} NothingAdmitted(b: Option<Bucket>, window: nat, calls: seq<Call>, key: string, from: int)
    requires FixedLimit(calls, key, 0)
    ensures AcceptedIn(VerdictsAlone(b, window, calls, key), from, window) == 0
    decreases |calls|
  {
    if calls != [] {
      NothingAdmitted(b, window, calls[1..], key, from);
      if calls[0].key == key {
        assert VerdictsAlone(b, window, calls, key)[1..] == VerdictsAlone(b, window, calls[1..], key);
      }
    }
  }

  function Repeat(n: nat, c: Call): seq<Call> { seq(n, _ => c) }

  /** One call that opens a window, m - 1 just before it ends, and m in the next window. */
  function Crowd(window: nat, key: string, m: nat): seq<Call>
    requires m > 0
  {
    [Call(0, key, m)] + (Repeat(m - 1, Call(window - 1, key, m)) + Repeat(m, Call(window, key, m)))
  }

  lemma CrowdIsFair(window: nat, key: string, m: nat)
    requires window >= 1 && m > 0
    ensures InOrder(Crowd(window, key, m)) && FixedLimit(Crowd(window, key, m), key, m)
  {
  }

  lemma AcceptedInSum(x: seq<(int, bool)>, y: seq<(int, bool)>, from: int, window: nat)
    ensures AcceptedIn(x + y, from, window) == AcceptedIn(x, from, window) + AcceptedIn(y, from, window)
  {
    if x == [] {
      assert x + y == y;
    } else {
      AcceptedInSum(x[1..], y, from, window);
      assert (x + y)[1..] == x[1..] + y;
    }
  }

  /** The bound is reached: 2m - 1 calls go through within one window length. */
  lemma BoundIsReached(window: nat, key: string, m: nat)
    requires window >= 2 && m > 0
    ensures InOrder(Crowd(window, key, m)) && FixedLimit(Crowd(window, key, m), key, m)
    ensures AcceptedIn(SharedVerdicts(map[], window, Crowd(window, key, m), key), window - 1, window) == 2 * m - 1
  {
    var c0, c1, c2 := Call(0, key, m), Call(window - 1, key, m), Call(window, key, m);
    var calls, first, second := Crowd(window, key, m), Repeat(m - 1, c1), Repeat(m, c2);
    CrowdIsFair(window, key, m);
    SharedMapIsManyLimiters(map[], None, window, calls, key);
    assert calls[1..] == first + second;
    Burst(Bucket(1, window), window, m - 1, c1, calls[1..], key);
    assert calls[1..][m - 1..] == second;
    Burst(Bucket(1, window + window), window, m - 1, c2, second[1..], key);
    assert second[1..][m - 1..] == [];
    var opening, late, next := [(0, true)], Verdicts(m - 1, window - 1), [(window, true)];
    assert VerdictsAlone(None, window, calls, key) == opening + (late + (next + (Verdicts(m - 1, window) + [])));
    AcceptedInSum(opening, late + (next + (Verdicts(m - 1, window) + [])), window - 1, window);
    AcceptedInSum(late, next + (Verdicts(m - 1, window) + []), window - 1, window);
    AcceptedInSum(next, Verdicts(m - 1, window) + [], window - 1, window);
    assert Verdicts(m - 1, window) + [] == Verdicts(m - 1, window);
    VerdictsCounted(m - 1, window - 1, window - 1, window);
    VerdictsCounted(m - 1, window, window - 1, window);
  }

  function Verdicts(n: nat, now: int): seq<(int, bool)> { seq(n, _ => (now, true)) }

  lemma FirstAccepted(b: Bucket, window: nat, calls: seq<Call>, key: string)
    requires calls != [] && calls[0].key == key && b.resetAt > calls[0].now && b.count < calls[0].maxRequests
    ensures VerdictsAlone(Some(b), window, calls, key)
            == [(calls[0].now, true)] + VerdictsAlone(Some(Bucket(b.count + 1, b.resetAt)), window, calls[1..], key)
  {
  }

  /** A burst of calls within a live window is accepted as long as the count allows. */
  lemma {:induction false} Burst(b: Bucket, window: nat, n: nat, c: Call, calls: seq<Call>, key: string)
    requires n <= |calls| && forall i | 0 <= i < n :: calls[i] == c
    requires c.key == key && b.resetAt > c.now && b.count + n <= c.maxRequests
    ensures VerdictsAlone(Some(b), window, calls, key)
            == Verdicts(n, c.now) + VerdictsAlone(Some(Bucket(b.count + n, b.resetAt)), window, calls[n..], key)
    decreases n
  {
    hide VerdictsAlone;
    if n == 0 {
      assert calls[0..] == calls;
    } else {
      FirstAccepted(b, window, calls, key);
      Burst(Bucket(b.count + 1, b.resetAt), window, n - 1, c, calls[1..], key);
      assert calls[1..][n - 1..] == calls[n..];
      assert Verdicts(n, c.now) == [(c.now, true)] + Verdicts(n - 1, c.now);
    }
  }

  lemma {:induction false} VerdictsCounted(n: nat, now: int, from: int, window: nat)
    ensures AcceptedIn(Verdicts(n, now), from, window) == if from <= now < from + window then n else 0
  {
    if n > 0 {
      VerdictsCounted(n - 1, now, from, window);
      assert Verdicts(n, now)[1..] == Verdicts(n - 1, now);
    }
  }

  // ----- When a limiter keeps to its limit in every window length -----

  /** With windows of one tick or none, all accepted calls of an interval are in one bucket. */
  predicate OneTickBudget(b: Option<Bucket>, accepted: nat, from: int, window: nat, m: nat, now: int) {
    && accepted <= m && (accepted > 0 ==> from <= now && window == 1)
    && (b.Some? ==> 1 <= b.value.count <= m && b.value.resetAt <= now + window)
    && (accepted > 0 && now == from ==> b.Some? && b.value.resetAt == from + 1 && accepted <= b.value.count)
  }

  lemma OneTickStep(b: Option<Bucket>, window: nat, from: int, m: nat, accepted: nat, now: int, later: int)
    requires OneTickBudget(b, accepted, from, window, m, now) && now <= later && m > 0 && window <= 1
    ensures var (ok, b') := CheckedAlone(b, window, later, m);
            OneTickBudget(b', accepted + (if ok && from <= later < from + window then 1 else 0), from, window, m, later)
  {
  }

  lemma {:induction false} OneTickAdmits(b: Option<Bucket>, window: nat, calls: seq<Call>, key: string,
                                         from: int, m: nat, accepted: nat, now: int)
    requires InOrder(calls) && FixedLimit(calls, key, m) && m > 0 && window <= 1
    requires calls != [] ==> now <= calls[0].now
    requires OneTickBudget(b, accepted, from, window, m, now)
    ensures accepted + AcceptedIn(VerdictsAlone(b, window, calls, key), from, window) <= m
    decreases |calls|
  {
    if calls != [] {
      var c := calls[0];
      hide OneTickBudget;
      if c.key == key {
        var (ok, b') := CheckedAlone(b, window, c.now, c.maxRequests);
        var accepted' := accepted + (if ok && from <= c.now < from + window then 1 else 0);
        OneTickStep(b, window, from, m, accepted, now, c.now);
        OneTickAdmits(b', window, calls[1..], key, from, m, accepted', c.now);
        assert VerdictsAlone(b, window, calls, key)[1..] == VerdictsAlone(b', window, calls[1..], key);
      } else {
        OneTickAdmits(b, window, calls[1..], key, from, m, accepted, now);
      }
    }
  }

  /** Over every run, no window length anywhere holds more than m accepted calls of the key. */
  ghost predicate KeepsToLimit(window: nat, key: string, m: nat) {
    forall calls: seq<Call>, from: int | InOrder(calls) && FixedLimit(calls, key, m) ::
      AcceptedIn(SharedVerdicts(map[], window, calls, key), from, window) <= m
  }

  /** The limit is kept in every window length exactly when it is at most one or the window at most one tick. */
  lemma KeepsToLimitIff(window: nat, key: string, m: nat)
    ensures KeepsToLimit(window, key, m) <==> m <= 1 || window <= 1
  {
    hide AcceptedIn, SharedVerdicts, InOrder, FixedLimit;
    if m > 1 && window > 1 {
      BoundIsReached(window, key, m);
    } else {
      forall calls: seq<Call>, from: int | InOrder(calls) && FixedLimit(calls, key, m)
        ensures AcceptedIn(SharedVerdicts(map[], window, calls, key), from, window) <= m
      {
        if m <= 1 {
          FewerThanTwiceTheLimit(window, calls, key, m, from);
        } else {
          SharedMapIsManyLimiters(map[], None, window, calls, key);
          OneTickAdmits(None, window, calls, key, from, m, 0, if calls == [] then 0 else calls[0].now);
        }
      }
    }
  }
}
