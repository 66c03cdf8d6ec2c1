/**
 Replay protection of signed agent requests: a timestamp window and a table of nonces that forgets.
 Clocks are read in `ticks` per second: the window compares whole seconds, the table keeps full readings.
 */
module Nonces {
  import opened Tasks

  const AGENT_SIGNATURE_WINDOW_SECONDS := 300
  const NONCE_RETENTION_SECONDS := 600

  /** `authentic` is the verdict on credential, signature and shape of the headers. */
  datatype Signed = Signed(node: NodeId, nonce: string, timestamp: int, authentic: bool)

  type Seen = map<(NodeId, string), int>

  datatype Policy = Policy(window: nat, retention: nat, ticks: nat) {
    predicate Valid() { ticks > 0 }
  }

  function Distance(x: int, y: int): nat { if x <= y then y - x else x - y }

  /** `timestamp_within_agent_signature_window`, on the reading floored to seconds. */
  predicate WithinWindow(p: Policy, now: int, timestamp: int)
    requires p.Valid()
  {
    Distance(now / p.ticks, timestamp) <= p.window
  }

  /** The timestamp lies within the window around the whole second that `now` falls in. */
  predicate TimelyAt(p: Policy, now: int, timestamp: int)
    requires p.Valid()
  {
    var second := now / p.ticks;
    second - p.window <= timestamp <= second + p.window
  }

  function Purged(p: Policy, seen: Seen, now: int): Seen {
    map k | k in seen && seen[k] >= now - p.retention * p.ticks :: seen[k]
  }

  class NonceStore {
    const policy: Policy
    var seen: Seen

    constructor (policy: Policy)
      requires policy.Valid()
      ensures this.policy == policy && seen == map[]
    {
      this.policy := policy;
      seen := map[];
    }

    /** `remember_nonce`: forget the old, insert unless present, and report whether a row was inserted. */
    method RememberNonce(now: int, node: NodeId, nonce: string) returns (inserted: bool)
      modifies this
      ensures inserted == ((node, nonce) !in Purged(policy, old(seen), now))
      ensures seen == if inserted then Purged(policy, old(seen), now)[(node, nonce) := now]
                      else Purged(policy, old(seen), now)
    {
      seen := map k | k in seen && seen[k] >= now - policy.retention * policy.ticks :: seen[k];
      if (node, nonce) in seen {
        return false;
      }
      seen := seen[(node, nonce) := now];
      return true;
    }

    /** `verify_agent_request` */
    method VerifyAgentRequest(now: int, r: Signed) returns (accepted: bool)
      requires policy.Valid()
      modifies this
      ensures (accepted, seen) == Verified(policy, old(seen), now, r)
      ensures accepted ==> r.authentic && TimelyAt(policy, now, r.timestamp)
      ensures !r.authentic || !TimelyAt(policy, now, r.timestamp) ==> !accepted && seen == old(seen)
      ensures r.authentic && TimelyAt(policy, now, r.timestamp) ==>
                (accepted <==> ((r.node, r.nonce) in old(seen)
                                ==> old(seen)[(r.node, r.nonce)] + policy.retention * policy.ticks < now))
    {
      if !WithinWindow(policy, now, r.timestamp) || !r.authentic {
        return false;
      }
      accepted := RememberNonce(now, r.node, r.nonce);
    }
  }

  function Verified(p: Policy, seen: Seen, now: int, r: Signed): (bool, Seen)
    requires p.Valid()
  {
    if !WithinWindow(p, now, r.timestamp) || !r.authentic then (false, seen)
    else
      var kept := Purged(p, seen, now);
      if (r.node, r.nonce) in kept then (false, kept) else (true, kept[(r.node, r.nonce) := now])
  }

  datatype Arrival = Arrival(now: int, request: Signed)

  predicate InOrder(run: seq<Arrival>) {
    forall i, j | 0 <= i < j < |run| :: run[i].now <= run[j].now
  }

  function SeenAfter(p: Policy, seen: Seen, run: seq<Arrival>): Seen
    requires p.Valid()
  {
    if run == [] then seen
    else
      var last := run[|run| - 1];
      Verified(p, SeenAfter(p, seen, run[..|run| - 1]), last.now, last.request).1
  }

  /** Whether the i-th arrival of a run, from an empty table, is accepted. */
  predicate AcceptedAt(p: Policy, run: seq<Arrival>, i: nat)
    requires p.Valid() && i < |run|
  {
    Verified(p, SeenAfter(p, map[], run[..i]), run[i].now, run[i].request).0
  }

  predicate SameSignature(x: Signed, y: Signed) {
    x.node == y.node && x.nonce == y.nonce && x.timestamp == y.timestamp
  }

  /** Retention outlasts the longest time between two arrivals whose timestamp is in the window both times. */
  predicate RetentionSuffices(p: Policy) {
    p.retention * p.ticks >= 2 * p.window * p.ticks + p.ticks - 1
  }

  lemma SecondsBound(ticks: nat, now: int, second: int)
    requires ticks > 0
    ensures now / ticks >= second ==> now >= second * ticks
    ensures now / ticks <= second ==> now <= second * ticks + ticks - 1
  {
    var q := now / ticks;
    assert q * ticks <= now < q * ticks + ticks;
    if q >= second {
      assert (q - second) * ticks >= 0;
    }
    if q <= second {
      assert (second - q) * ticks >= 0;
    }
  }

  lemma WindowSpan(p: Policy, first: int, second: int, timestamp: int)
    requires p.Valid() && WithinWindow(p, first, timestamp) && WithinWindow(p, second, timestamp)
    ensures second - first <= 2 * p.window * p.ticks + p.ticks - 1
  {
    SecondsBound(p.ticks, first, timestamp - p.window);
    SecondsBound(p.ticks, second, timestamp + p.window);
    var t := p.ticks;
    assert (timestamp + p.window) * t - (timestamp - p.window) * t == 2 * p.window * t;
  }

  /** A remembered nonce stays remembered, with its time, until the retention has passed. */
  lemma {:induction false} StaysRemembered(p: Policy, run: seq<Arrival>, i: nat, j: nat)
    requires p.Valid() && InOrder(run) && i < j <= |run| && AcceptedAt(p, run, i)
    requires run[j - 1].now - run[i].now <= p.retention * p.ticks
    ensures var k := (run[i].request.node, run[i].request.nonce);
            k in SeenAfter(p, map[], run[..j]) && SeenAfter(p, map[], run[..j])[k] == run[i].now
    decreases j
  {
    assert run[..j][..j - 1] == run[..j - 1];
    if j > i + 1 {
      StaysRemembered(p, run, i, j - 1);
    } else {
      assert run[..j][..i] == run[..i];
    }
  }

  /** What the table remembers of a node and nonce is the time of some accepted arrival with them. */
  lemma {:induction false} RememberedWasAccepted(p: Policy, run: seq<Arrival>, j: nat, k: (NodeId, string))
    returns (i: nat)
    requires p.Valid() && j <= |run| && k in SeenAfter(p, map[], run[..j])
    ensures i < j && AcceptedAt(p, run, i) && (run[i].request.node, run[i].request.nonce) == k
    ensures run[i].now == SeenAfter(p, map[], run[..j])[k]
    decreases j
  {
    assert j > 0;
    assert run[..j][..j - 1] == run[..j - 1];
    var last := run[j - 1];
    if AcceptedAt(p, run, j - 1) && (last.request.node, last.request.nonce) == k {
      i := j - 1;
    } else {
      i := RememberedWasAccepted(p, run, j - 1, k);
    }
  }

  /** An earlier arrival with this node and nonce was accepted and is not older than the retention. */
  predicate AcceptedBefore(p: Policy, run: seq<Arrival>, i: nat)
    requires p.Valid() && i < |run|
  {
    exists j: nat | j < i :: SpendsNonceOf(p, run, j, i)
  }

  predicate SpendsNonceOf(p: Policy, run: seq<Arrival>, j: nat, i: nat)
    requires p.Valid() && j < i < |run|
  {
    && AcceptedAt(p, run, j)
    && run[j].request.node == run[i].request.node && run[j].request.nonce == run[i].request.nonce
    && run[i].now - run[j].now <= p.retention * p.ticks
  }

  /**
   Which arrivals of a run are accepted, without the table: those that are authentic, in the window, and whose nonce
   no accepted arrival of the same node has spent within the retention.
   */
  lemma AcceptedIff(p: Policy, run: seq<Arrival>, i: nat)
    requires p.Valid() && InOrder(run) && i < |run|
    ensures AcceptedAt(p, run, i) <==>
            run[i].request.authentic && TimelyAt(p, run[i].now, run[i].request.timestamp) && !AcceptedBefore(p, run, i)
  {
    var seen, k := SeenAfter(p, map[], run[..i]), (run[i].request.node, run[i].request.nonce);
    if k in seen && seen[k] >= run[i].now - p.retention * p.ticks {
      var j := RememberedWasAccepted(p, run, i, k);
      assert SpendsNonceOf(p, run, j, i);
    }
    if AcceptedBefore(p, run, i) {
      var j: nat :| j < i && SpendsNonceOf(p, run, j, i);
      assert run[i - 1].now <= run[i].now;
      StaysRemembered(p, run, j, i);
    }
  }

  /** With enough retention no signed request is accepted twice, in any run on one non-decreasing clock. */
  lemma AcceptedAtMostOnce(p: Policy, run: seq<Arrival>, i: nat, j: nat)
    requires p.Valid() && RetentionSuffices(p) && InOrder(run) && i < j < |run|
    requires SameSignature(run[i].request, run[j].request)
    ensures !(AcceptedAt(p, run, i) && AcceptedAt(p, run, j))
  {
    if AcceptedAt(p, run, i) && AcceptedAt(p, run, j) {
      WindowSpan(p, run[i].now, run[j].now, run[j].request.timestamp);
      assert run[j - 1].now <= run[j].now;
      StaysRemembered(p, run, i, j);
    }
  }

  /** The two arrivals that are as far apart as the window allows. */
  function FarApart(p: Policy, r: Signed): seq<Arrival> {
    [Arrival((r.timestamp - p.window) * p.ticks, r),
     Arrival((r.timestamp + p.window) * p.ticks + p.ticks - 1, r)]
  }

  lemma DivideExactly(q: int, ticks: nat)
    requires ticks > 0
    ensures q * ticks / ticks == q
    ensures (q * ticks + ticks - 1) / ticks == q
  {
    FloorIs(q * ticks, q, ticks);
    FloorIs(q * ticks + ticks - 1, q, ticks);
  }

  lemma FloorIs(x: int, q: int, ticks: nat)
    requires ticks > 0 && q * ticks <= x < q * ticks + ticks
    ensures x / ticks == q
  {
    var d := x / ticks;
    assert d * ticks <= x < d * ticks + ticks;
    if d < q {
      ScaleKeepsOrder(d + 1, q, ticks);
    } else if d > q {
      ScaleKeepsOrder(q + 1, d, ticks);
    }
  }

  lemma ScaleKeepsOrder(x: int, y: int, ticks: nat)
    requires x <= y
    ensures x * ticks <= y * ticks
  {
  }

  /** With any less retention there is a run that accepts one signed request twice. */
  lemma LessRetentionForgets(p: Policy, r: Signed)
    requires p.Valid() && !RetentionSuffices(p) && r.authentic
    ensures var run := FarApart(p, r);
            InOrder(run) && AcceptedAt(p, run, 0) && AcceptedAt(p, run, 1)
  {
    var run := FarApart(p, r);
    var t := p.ticks;
    DivideExactly(r.timestamp - p.window, t);
    DivideExactly(r.timestamp + p.window, t);
    assert run[1].now - run[0].now == 2 * p.window * t + t - 1 by {
      assert (r.timestamp + p.window) * t - (r.timestamp - p.window) * t == 2 * p.window * t;
    }
    assert 2 * p.window * t >= 0;
    assert run[..0] == [] && run[..1][..0] == [] && run[..1] == [run[0]];
  }

  ghost predicate NeverTwice(p: Policy)
    requires p.Valid()
  {
    forall run: seq<Arrival>, i: nat, j: nat
      | InOrder(run) && i < j < |run| && SameSignature(run[i].request, run[j].request) ::
      !(AcceptedAt(p, run, i) && AcceptedAt(p, run, j))
  }

  /** Replay is impossible over all runs exactly when the retention suffices. */
  lemma RetentionIsExact(p: Policy)
    requires p.Valid()
    ensures NeverTwice(p) <==> RetentionSuffices(p)
  {
    if RetentionSuffices(p) {
      forall run: seq<Arrival>, i: nat, j: nat
        | InOrder(run) && i < j < |run| && SameSignature(run[i].request, run[j].request)
        ensures !(AcceptedAt(p, run, i) && AcceptedAt(p, run, j))
      {
        AcceptedAtMostOnce(p, run, i, j);
      }
    } else {
      var r := Signed(0, "0123456789abcdef", p.window, true);
      LessRetentionForgets(p, r);
      assert SameSignature(FarApart(p, r)[0].request, FarApart(p, r)[1].request);
    }
  }

  /**
   For a window of five minutes, over all runs: ten minutes is exactly enough when the table's clock ticks
   in seconds, as the window's does, and one second short on any finer clock.
   */
  lemma TenMinutesIsTight(retention: nat, ticks: nat)
    requires ticks > 0
    ensures NeverTwice(Policy(AGENT_SIGNATURE_WINDOW_SECONDS, retention, ticks))
            <==> retention >= NONCE_RETENTION_SECONDS + if ticks == 1 then 0 else 1
  {
    RetentionIsExact(Policy(AGENT_SIGNATURE_WINDOW_SECONDS, retention, ticks));
    hide NeverTwice;
    var needed := NONCE_RETENTION_SECONDS + if ticks == 1 then 0 else 1;
    if retention >= needed {
      ScaleKeepsOrder(needed, retention, ticks);
    } else {
      ScaleKeepsOrder(retention, needed - 1, ticks);
    }
  }

  /** The code's numbers: no replay over all runs exactly if the table keeps whole seconds, which it does not. */
  lemma TenMinutesOnAFinerClock(ticks: nat)
    requires ticks > 0
    ensures NeverTwice(Policy(AGENT_SIGNATURE_WINDOW_SECONDS, NONCE_RETENTION_SECONDS, ticks)) <==> ticks == 1
  {
    TenMinutesIsTight(NONCE_RETENTION_SECONDS, ticks);
  }
}
