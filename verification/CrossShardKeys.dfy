/**
 What the idempotency cache guarantees about the calls with one key, over every run and whatever the
 calls with other keys do.
 */
module CrossShardKeys {
  import opened CrossShard
  import opened CrossShardSafety
  import opened CrossShardTheorems

  // ---- Overlap ----

  /** The call has missed the cache and has not returned. */
  predicate Between(c: Call) {
    !c.pc.Start? && !c.pc.Done?
  }

  /** The call has missed the cache, now or earlier. */
  predicate Passed(c: Call) {
    c.pc.Routed? || c.contacted
  }

  /** Two different calls with one key. */
  predicate SameKey(s: State, p: nat, q: nat) {
    p != q && p < |s.calls| && q < |s.calls| && s.calls[p].req.key == s.calls[q].req.key
  }

  predicate BothBetween(s: State, p: nat, q: nat) {
    SameKey(s, p, q) && Between(s.calls[p]) && Between(s.calls[q])
  }

  predicate BothPassed(s: State, p: nat, q: nat) {
    SameKey(s, p, q) && Passed(s.calls[p]) && Passed(s.calls[q])
  }

  /** Some state of the run has both calls between their cache miss and their return. */
  ghost predicate Overlap(s: State, steps: seq<Step>, t: State, p: nat, q: nat)
    requires Run(s, steps, t)
    decreases |steps|
  {
    || BothBetween(s, p, q)
    || (steps != [] && Overlap(Apply(s, steps[0]), steps[1..], t, p, q))
  }

  // ---- Two calls pass the cache check exactly when they overlap ----

  /** A call that reached a node and has returned left its outcome in the cache. */
  ghost predicate ReturnedCached(s: State) {
    forall p :: 0 <= p < |s.calls| && s.calls[p].contacted && s.calls[p].pc.Done? ==> s.calls[p].req.key in s.cache
  }

  lemma StepKeepsCached(s: State, step: Step)
    requires CallsOk(s) && ReturnedCached(s) && Enabled(s, step)
    ensures ReturnedCached(Apply(s, step))
  {
    if step.Check? {
      assert CallOk(s.calls[step.p], ViewOf(s, step.p), step.p);
    }
  }

  /** A passed call stays passed, and keeps its request. */
  lemma CallStaysPassed(s: State, step: Step, p: nat)
    requires Enabled(s, step) && p < |s.calls|
    ensures var t := Apply(s, step);
            p < |t.calls| && t.calls[p].req == s.calls[p].req && (Passed(s.calls[p]) ==> Passed(t.calls[p]))
  {}

  lemma StepKeepsPassed(s: State, step: Step, p: nat, q: nat)
    requires Enabled(s, step) && BothPassed(s, p, q)
    ensures BothPassed(Apply(s, step), p, q)
  {
    CallStaysPassed(s, step, p);
    CallStaysPassed(s, step, q);
  }

  /** A call passes the cache only by checking it and missing, and nobody else moves in that step. */
  lemma PassesByMissing(s: State, step: Step, p: nat)
    requires CallsOk(s) && Enabled(s, step) && p < |Apply(s, step).calls| && Passed(Apply(s, step).calls[p])
    requires p < |s.calls| ==> !Passed(s.calls[p])
    ensures var t := Apply(s, step);
            && p < |s.calls| && t.calls == s.calls[p := s.calls[p].(pc := Routed)]
            && s.calls[p].req.key !in s.cache
  {
    assert p < |s.calls| ==> CallOk(s.calls[p], ViewOf(s, p), p);
  }

  lemma BetweenHasPassed(s: State, p: nat, q: nat)
    requires CallsOk(s) && BothBetween(s, p, q)
    ensures BothPassed(s, p, q)
  {
    assert CallOk(s.calls[p], ViewOf(s, p), p) && CallOk(s.calls[q], ViewOf(s, q), q);
  }

  /** A call misses the cache while another with its key has passed it only if that one is still under
      way. */
  lemma PassingTogether(s: State, step: Step, p: nat, q: nat)
    requires CallsOk(s) && ReturnedCached(s) && Enabled(s, step)
    requires !BothPassed(s, p, q) && BothPassed(Apply(s, step), p, q)
    ensures BothBetween(Apply(s, step), p, q)
  {
    var t := Apply(s, step);
    var a, b := if p < |s.calls| && Passed(s.calls[p]) then q else p, if p < |s.calls| && Passed(s.calls[p]) then p else q;
    PassesByMissing(s, step, a);
    assert CallOk(s.calls[b], ViewOf(s, b), b);
  }

  lemma {:induction false} PassedStays(s: State, steps: seq<Step>, t: State, p: nat, q: nat)
    requires Run(s, steps, t) && BothPassed(s, p, q)
    ensures BothPassed(t, p, q)
    decreases |steps|
  {
    if steps != [] {
      StepKeepsPassed(s, steps[0], p, q);
      PassedStays(Apply(s, steps[0]), steps[1..], t, p, q);
    }
  }

  lemma {:induction false} PassedIffOverlapFrom(s: State, steps: seq<Step>, t: State, p: nat, q: nat)
    requires Inv(s) && ReturnedCached(s) && Run(s, steps, t) && !BothPassed(s, p, q)
    ensures BothPassed(t, p, q) <==> Overlap(s, steps, t, p, q)
    decreases |steps|
  {
    if BothBetween(s, p, q) {
      BetweenHasPassed(s, p, q);
    }
    if steps != [] {
      var s' := Apply(s, steps[0]);
      StepKeepsInv(s, steps[0]);
      StepKeepsCached(s, steps[0]);
      if BothPassed(s', p, q) {
        PassingTogether(s, steps[0], p, q);
        PassedStays(s', steps[1..], t, p, q);
      } else {
        PassedIffOverlapFrom(s', steps[1..], t, p, q);
      }
    }
  }

  /** Over every run, two calls with one key have both missed the cache if and only if at some moment
      both were between their miss and their return. */
  lemma PassedIffOverlap(balances: map<nat, int>, steps: seq<Step>, t: State, p: nat, q: nat)
    requires NonNegative(balances) && Run(Init(balances), steps, t)
    ensures BothPassed(t, p, q) <==> Overlap(Init(balances), steps, t, p, q)
  {
    InitInv(balances);
    PassedIffOverlapFrom(Init(balances), steps, t, p, q);
  }

  /** Only calls that overlapped can both have reserved funds under one key; calls with other keys may
      overlap as they like. */
  lemma KeyMovesMoneyOnce(balances: map<nat, int>, steps: seq<Step>, t: State, p: nat, q: nat)
    requires NonNegative(balances) && Run(Init(balances), steps, t) && p != q
    requires p in t.ledger.transfers && q in t.ledger.transfers
    requires t.ledger.transfers[p].req.key == t.ledger.transfers[q].req.key
    ensures Overlap(Init(balances), steps, t, p, q)
  {
    InitInv(balances);
    RunKeepsInv(Init(balances), steps, t);
    assert CallOk(t.calls[p], ViewOf(t, p), p) && CallOk(t.calls[q], ViewOf(t, q), q);
    PassedIffOverlap(balances, steps, t, p, q);
  }

  // ---- Repeats ----

  /** The key has a cached outcome and no call with it is between its cache miss and its return. */
  ghost predicate Settled(s: State, key: string, o: Outcome) {
    && key in s.cache && s.cache[key] == o
    && forall p :: 0 <= p < |s.calls| && s.calls[p].req.key == key ==> !Between(s.calls[p])
  }

  /** A call that starts on a settled key, or has not been made yet. */
  ghost predicate RepeatOk(s: State, o: Outcome, key: string, q: nat) {
    q < |s.calls| && s.calls[q].req.key == key ==>
      !s.calls[q].contacted && s.calls[q].pc in {Start, Done(o), Done(SameShard)}
  }

  lemma StepKeepsSettled(s: State, step: Step, key: string, o: Outcome)
    requires Enabled(s, step) && Settled(s, key, o)
    ensures Settled(Apply(s, step), key, o)
  {}

  lemma StepKeepsRepeat(s: State, step: Step, key: string, o: Outcome, q: nat)
    requires Enabled(s, step) && Settled(s, key, o) && RepeatOk(s, o, key, q)
    ensures RepeatOk(Apply(s, step), o, key, q)
  {}

  lemma {:induction false} RunKeepsRepeat(s: State, steps: seq<Step>, t: State, key: string, o: Outcome, q: nat)
    requires Run(s, steps, t) && Settled(s, key, o) && RepeatOk(s, o, key, q)
    ensures Settled(t, key, o) && RepeatOk(t, o, key, q)
    decreases |steps|
  {
    if steps != [] {
      StepKeepsSettled(s, steps[0], key, o);
      StepKeepsRepeat(s, steps[0], key, o, q);
      RunKeepsRepeat(Apply(s, steps[0]), steps[1..], t, key, o, q);
    }
  }

  lemma UncontactedIsUntouched(s: State, q: nat)
    requires CallsOk(s) && q < |s.calls| && !s.calls[q].contacted && (s.calls[q].pc.Start? || s.calls[q].pc.Done?)
    ensures q !in s.ledger.transfers && Reserve(q) !in s.net && Reserve(q) !in s.replies
  {
    assert CallOk(s.calls[q], ViewOf(s, q), q);
  }

  /** From any reachable state in which a key is settled, in every run, whatever else overlaps: a call
      with the key that has not started or is made later never reaches a node and returns the cached
      outcome, or fails the same-shard check that comes before the cache. */
  lemma RepeatReturnsCached(balances: map<nat, int>, s: State, steps: seq<Step>, t: State, key: string, o: Outcome, q: nat)
    requires NonNegative(balances) && Reachable(balances, s) && Settled(s, key, o)
    requires q >= |s.calls| || s.calls[q].pc == Start
    requires Run(s, steps, t) && q < |t.calls| && t.calls[q].req.key == key
    ensures t.calls[q].pc in {Start, Done(o), Done(SameShard)}
    ensures !t.calls[q].contacted && q !in t.ledger.transfers
    ensures Reserve(q) !in t.net && Reserve(q) !in t.replies
  {
    ReachableInv(balances, s);
    assert q < |s.calls| ==> CallOk(s.calls[q], ViewOf(s, q), q);
    RunKeepsRepeat(s, steps, t, key, o, q);
    RunKeepsInv(s, steps, t);
    UncontactedIsUntouched(t, q);
  }

  // ---- A call that returned alone settles its key ----

  /** Call `p` overlapped with no other call of its key. */
  ghost predicate AloneIn(s: State, steps: seq<Step>, t: State, p: nat)
    requires Run(s, steps, t)
  {
    forall q :: !Overlap(s, steps, t, p, q)
  }

  /** No other call has passed the cache with `p`, and the outcome `p` returned is the cached one. */
  ghost predicate Sole(s: State, p: nat) {
    && (forall q :: !BothPassed(s, p, q))
    && (p < |s.calls| && s.calls[p].contacted && s.calls[p].pc.Done? ==>
          s.calls[p].req.key in s.cache && s.cache[s.calls[p].req.key] == s.calls[p].pc.outcome)
  }

  lemma StepKeepsSole(s: State, step: Step, p: nat)
    requires CallsOk(s) && ReturnedCached(s) && Enabled(s, step) && Sole(s, p)
    requires forall q :: !BothBetween(Apply(s, step), p, q)
    ensures Sole(Apply(s, step), p)
  {
    var t := Apply(s, step);
    forall q ensures !BothPassed(t, p, q) {
      if BothPassed(t, p, q) {
        PassingTogether(s, step, p, q);
      }
    }
    if step.Store? && step.p != p && p < |s.calls| {
      assert CallOk(s.calls[step.p], ViewOf(s, step.p), step.p);
      assert !BothPassed(s, p, step.p);
    } else if step.Check? {
      assert CallOk(s.calls[step.p], ViewOf(s, step.p), step.p);
    }
  }

  lemma {:induction false} RunKeepsSole(s: State, steps: seq<Step>, t: State, p: nat)
    requires Inv(s) && ReturnedCached(s) && Sole(s, p) && Run(s, steps, t) && AloneIn(s, steps, t, p)
    ensures Sole(t, p) && Inv(t)
    decreases |steps|
  {
    if steps != [] {
      var s' := Apply(s, steps[0]);
      StepKeepsInv(s, steps[0]);
      StepKeepsCached(s, steps[0]);
      forall q ensures !Overlap(s', steps[1..], t, p, q) && !BothBetween(s', p, q) {
        assert !Overlap(s, steps, t, p, q);
      }
      StepKeepsSole(s, steps[0], p);
      RunKeepsSole(s', steps[1..], t, p);
    }
  }

  /** Once a call that reached a node has returned, and no call with its key overlapped with it, its key
      is settled with its outcome: the repeats above apply. */
  lemma ReturnSettlesKey(balances: map<nat, int>, steps: seq<Step>, t: State, p: nat, o: Outcome)
    requires NonNegative(balances) && Run(Init(balances), steps, t) && AloneIn(Init(balances), steps, t, p)
    requires p < |t.calls| && t.calls[p].contacted && t.calls[p].pc == Done(o)
    ensures Settled(t, t.calls[p].req.key, o)
  {
    InitInv(balances);
    RunKeepsSole(Init(balances), steps, t, p);
    forall q | 0 <= q < |t.calls| && t.calls[q].req.key == t.calls[p].req.key ensures !Between(t.calls[q]) {
      assert CallOk(t.calls[q], ViewOf(t, q), q);
      assert !BothPassed(t, p, q);
    }
  }
}
