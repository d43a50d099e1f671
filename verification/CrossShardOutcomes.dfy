/**
 What becomes of a transfer after its call has returned, and what the coordinator does not promise.
 */
module CrossShardOutcomes {
  import opened CrossShard
  import opened CrossShardSafety
  import opened CrossShardTheorems

  // ---- What becomes of a call that has returned ----

  ghost predicate StatusIs(s: State, p: nat, status: Status) {
    p in s.ledger.transfers && s.ledger.transfers[p].status == status
  }

  /** A call that has returned sends nothing more. */
  lemma ReturnedCallIsQuiet(s: State, step: Step, p: nat)
    requires Enabled(s, step) && p < |s.calls| && s.calls[p].pc.Done?
    ensures var t := Apply(s, step);
            && p < |t.calls| && t.calls[p] == s.calls[p]
            && t.net * {Reserve(p), Commit(p), Void(p)} <= s.net
  {}

  /** Delivering the waiting message, with nothing else happening. */
  lemma DeliverNow(s: State, m: Msg) returns (t: State)
    requires m in s.net && m.id < |s.calls|
    ensures t == Apply(s, Deliver(m, false)) && Run(s, [Deliver(m, false)], t)
  {
    t := Apply(s, Deliver(m, false));
    assert [Deliver(m, false)][1..] == [] && Run(t, [], t);
  }

  /** The commit can still take effect. */
  ghost predicate CommitPending(s: State, p: nat) {
    Commit(p) in s.net && StatusIs(s, p, Reserved)
  }

  ghost predicate CanBecome(s: State, p: nat, status: Status) {
    exists steps: seq<Step>, t: State :: Run(s, steps, t) && StatusIs(t, p, status)
  }

  /** The call returned a failure, its transfer is not posted, and no commit can reach a reservation. */
  ghost predicate NeverPosts(s: State, p: nat) {
    && p < |s.calls| && s.calls[p].pc in {Done(PendingFailed), Done(CommitFailed)} && s.calls[p].contacted
    && !StatusIs(s, p, Posted) && !CommitPending(s, p)
  }

  lemma StepKeepsNeverPosts(s: State, step: Step, p: nat)
    requires Inv(s) && Enabled(s, step) && NeverPosts(s, p)
    ensures NeverPosts(Apply(s, step), p)
  {
    assert CallOk(s.calls[p], ViewOf(s, p), p);
    ReturnedCallIsQuiet(s, step, p);
  }

  lemma {:induction false} RunKeepsNeverPosts(s: State, steps: seq<Step>, t: State, p: nat)
    requires Inv(s) && Run(s, steps, t) && NeverPosts(s, p)
    ensures !StatusIs(t, p, Posted)
    decreases |steps|
  {
    if steps != [] {
      StepKeepsInv(s, steps[0]);
      StepKeepsNeverPosts(s, steps[0], p);
      RunKeepsNeverPosts(Apply(s, steps[0]), steps[1..], t, p);
    }
  }

  /** A reported failure turns out false, now or in some continuation, if and only if the transfer is
      posted already or its commit is still waiting to be delivered to the reservation. */
  lemma FailureIsFalseIff(balances: map<nat, int>, s: State, p: nat)
    requires NonNegative(balances) && Reachable(balances, s) && p < |s.calls| && s.calls[p].contacted
    requires s.calls[p].pc == Done(PendingFailed) || s.calls[p].pc == Done(CommitFailed)
    ensures CanBecome(s, p, Posted) <==> StatusIs(s, p, Posted) || CommitPending(s, p)
  {
    ReachableInv(balances, s);
    if StatusIs(s, p, Posted) {
      assert Run(s, [], s);
    } else if CommitPending(s, p) {
      var t := DeliverNow(s, Commit(p));
      assert StatusIs(t, p, Posted);
    } else if CanBecome(s, p, Posted) {
      var steps: seq<Step>, t: State :| Run(s, steps, t) && StatusIs(t, p, Posted);
      RunKeepsNeverPosts(s, steps, t, p);
    }
  }

  /** The call has returned, its funds are reserved, and nothing under way resolves the reservation. */
  ghost predicate Abandoned(s: State, p: nat) {
    && p < |s.calls| && s.calls[p].pc.Done? && StatusIs(s, p, Reserved)
    && Commit(p) !in s.net && Void(p) !in s.net
  }

  lemma StepKeepsAbandoned(s: State, step: Step, p: nat)
    requires Enabled(s, step) && Abandoned(s, p)
    ensures Abandoned(Apply(s, step), p)
  {
    ReturnedCallIsQuiet(s, step, p);
  }

  lemma {:induction false} RunKeepsAbandoned(s: State, steps: seq<Step>, t: State, p: nat)
    requires Abandoned(s, p) && Run(s, steps, t)
    ensures Abandoned(t, p)
    decreases |steps|
  {
    if steps != [] {
      StepKeepsAbandoned(s, steps[0], p);
      RunKeepsAbandoned(Apply(s, steps[0]), steps[1..], t, p);
    }
  }

  ghost predicate AlwaysReserved(s: State, p: nat) {
    forall steps: seq<Step>, t: State :: Run(s, steps, t) ==> StatusIs(t, p, Reserved)
  }

  lemma DeliveryResolves(s: State, p: nat)
    requires LedgerOk(s) && StatusIs(s, p, Reserved) && (Commit(p) in s.net || Void(p) in s.net)
    ensures var m := if Commit(p) in s.net then Commit(p) else Void(p);
            m.id < |s.calls| && !StatusIs(Apply(s, Deliver(m, false)), p, Reserved)
  {}

  /** A call that has returned leaves its funds reserved for good if and only if they are reserved and
      neither a commit nor a void of it is still under way. */
  lemma ReservedForGoodIff(balances: map<nat, int>, s: State, p: nat)
    requires NonNegative(balances) && Reachable(balances, s) && p < |s.calls| && s.calls[p].pc.Done?
    ensures AlwaysReserved(s, p) <==> Abandoned(s, p)
  {
    ReachableInv(balances, s);
    if Abandoned(s, p) {
      forall steps: seq<Step>, t: State | Run(s, steps, t) ensures StatusIs(t, p, Reserved) {
        RunKeepsAbandoned(s, steps, t, p);
      }
    } else if !StatusIs(s, p, Reserved) {
      assert Run(s, [], s);
    } else {
      var t := DeliverNow(s, if Commit(p) in s.net then Commit(p) else Void(p));
      DeliveryResolves(s, p);
      assert !StatusIs(t, p, Reserved);
    }
  }

  /** It happens: a caller gives up while its reservation is on the way, which then arrives. */
  lemma GiveUpStrandsFunds(balances: map<nat, int>, req: Request) returns (s: State)
    requires req.amount > 0 && req.from in balances && req.to in balances && balances[req.from] >= req.amount
    ensures Reachable(balances, s) && |s.calls| == 1 && s.calls[0].pc == Done(PendingFailed) && Abandoned(s, 0)
  {
    var ws, c := OneRouted(balances, req);
    var xs, t := StrandReservation(c, 0);
    s := t;
    RunConcat(Init(balances), ws, c, xs, s);
  }

  /** A first call has missed the cache. */
  lemma OneRouted(balances: map<nat, int>, req: Request) returns (steps: seq<Step>, t: State)
    ensures Run(Init(balances), steps, t)
    ensures t == Init(balances).(calls := [Call(req, Routed, false, false)])
  {
    var a := Init(balances);
    var b := Apply(a, Invoke(req));
    t := Apply(b, Check(0, true, true));
    assert Run(t, [], t);
    RunCons(b, Check(0, true, true), [], t);
    RunCons(a, Invoke(req), [Check(0, true, true)] + [], t);
    steps := [Invoke(req)] + ([Check(0, true, true)] + []);
  }

  lemma StrandReservation(s: State, p: nat) returns (steps: seq<Step>, t: State)
    requires At(s, p, Routed) && CanReserve(s.ledger, p, s.calls[p].req) && Commit(p) !in s.net && Void(p) !in s.net
    ensures Run(s, steps, t) && |t.calls| == |s.calls| && t.calls[p].pc == Done(PendingFailed) && Abandoned(t, p)
  {
    var s1 := Apply(s, SendReserve(p));
    var s2 := Apply(s1, Timeout(p));
    var s3 := Apply(s2, Store(p));
    t := DeliverNow(s3, Reserve(p));
    var d := [Deliver(Reserve(p), false)];
    RunCons(s2, Store(p), d, t);
    RunCons(s1, Timeout(p), [Store(p)] + d, t);
    RunCons(s, SendReserve(p), [Timeout(p)] + ([Store(p)] + d), t);
    steps := [SendReserve(p)] + ([Timeout(p)] + ([Store(p)] + d));
  }

  // ---- What is not promised ----

  /** The call reserves and gets its transfer id back, with nothing else happening. */
  lemma ReserveAlone(s: State, p: nat) returns (steps: seq<Step>, t: State)
    requires At(s, p, Routed) && CanReserve(s.ledger, p, s.calls[p].req)
    ensures Run(s, steps, t) && At(t, p, HasId) && |t.calls| == |s.calls| && t.cache == s.cache
    ensures t.net == s.net - {Reserve(p)} && t.calls[p].timedOut == s.calls[p].timedOut
    ensures t.ledger == Execute(s.ledger, Reserve(p), s.calls[p].req)
    ensures t.calls[p].req == s.calls[p].req && forall q :: 0 <= q < |s.calls| && q != p ==> t.calls[q] == s.calls[q]
  {
    var s1 := Apply(s, SendReserve(p));
    var s2 := Apply(s1, Deliver(Reserve(p), false));
    t := Apply(s2, RecvReserve(p));
    assert Run(t, [], t);
    RunCons(s2, RecvReserve(p), [], t);
    RunCons(s1, Deliver(Reserve(p), false), [RecvReserve(p)] + [], t);
    steps := [SendReserve(p)] + ([Deliver(Reserve(p), false)] + ([RecvReserve(p)] + []));
    RunCons(s, SendReserve(p), [Deliver(Reserve(p), false)] + ([RecvReserve(p)] + []), t);
  }

  /** The call's commit is delivered and posts the transfer. */
  lemma CommitDelivered(s: State, p: nat) returns (steps: seq<Step>, t: State)
    requires At(s, p, HasId) && Effective(s.ledger, Commit(p), s.calls[p].req, false)
    ensures Run(s, steps, t) && At(t, p, AwaitCommit) && |t.calls| == |s.calls| && Commit(p) in t.replies
    ensures t.replies[Commit(p)] == Accepted && t.cache == s.cache && t.calls[p] == s.calls[p].(pc := AwaitCommit)
    ensures t.ledger == Execute(s.ledger, Commit(p), s.calls[p].req)
    ensures forall q :: 0 <= q < |s.calls| && q != p ==> t.calls[q] == s.calls[q]
  {
    var s1 := Apply(s, SendCommit(p));
    t := Apply(s1, Deliver(Commit(p), false));
    assert Run(t, [], t);
    RunCons(s1, Deliver(Commit(p), false), [], t);
    steps := [SendCommit(p)] + ([Deliver(Commit(p), false)] + []);
    RunCons(s, SendCommit(p), [Deliver(Commit(p), false)] + [], t);
  }

  /** The caller gives up on its commit, then on its void, and stores the failure. */
  lemma GiveUp(s: State, p: nat) returns (steps: seq<Step>, t: State)
    requires At(s, p, AwaitCommit)
    ensures Run(s, steps, t) && t.ledger == s.ledger && |t.calls| == |s.calls|
    ensures t.calls[p].pc == Done(CommitFailed) && t.calls[p].timedOut
    ensures s.calls[p].req.key in t.cache && t.cache[s.calls[p].req.key] == CommitFailed
  {
    var f := Apply(s, Timeout(p));
    var g := Apply(f, SendVoid(p));
    var h := Apply(g, Timeout(p));
    t := Apply(h, Store(p));
    assert Run(t, [], t);
    RunCons(h, Store(p), [], t);
    RunCons(g, Timeout(p), [Store(p)] + [], t);
    RunCons(f, SendVoid(p), [Timeout(p)] + ([Store(p)] + []), t);
    steps := [Timeout(p)] + ([SendVoid(p)] + ([Timeout(p)] + ([Store(p)] + [])));
    RunCons(s, Timeout(p), [SendVoid(p)] + ([Timeout(p)] + ([Store(p)] + [])), t);
  }

  /** A first call has its funds reserved. */
  lemma OneReserved(balances: map<nat, int>, req: Request) returns (steps: seq<Step>, t: State)
    requires req.amount > 0 && req.from in balances && req.to in balances && balances[req.from] >= req.amount
    ensures Run(Init(balances), steps, t) && |t.calls| == 1 && At(t, 0, HasId) && t.calls[0].req == req && !t.calls[0].timedOut
    ensures t.net == {} && req.to in t.ledger.balances
    ensures 0 in t.ledger.transfers && t.ledger.transfers[0] == Transfer(req, Reserved)
  {
    var ws, c := OneRouted(balances, req);
    var xs, d := ReserveAlone(c, 0);
    RunConcat(Init(balances), ws, c, xs, d);
    steps, t := ws + xs, d;
  }

  /** A call that gives up waiting for its commit reports, and caches, a failure for a transfer that
      is posted. */
  lemma LostAckReportsFailure(balances: map<nat, int>, req: Request) returns (s: State)
    requires req.amount > 0 && req.from in balances && req.to in balances && balances[req.from] >= req.amount
    ensures Reachable(balances, s) && |s.calls| == 1 && s.calls[0].pc == Done(CommitFailed) && s.calls[0].timedOut
    ensures 0 in s.ledger.transfers && s.ledger.transfers[0] == Transfer(req, Posted)
    ensures req.key in s.cache && s.cache[req.key] == CommitFailed
  {
    var xs, d := OneReserved(balances, req);
    var ys, e := CommitDelivered(d, 0);
    var zs, t := GiveUp(e, 0);
    s := t;
    RunConcat(d, ys, e, zs, s);
    RunConcat(Init(balances), xs, d, ys + zs, s);
  }

  /** The commit is refused and the void is lost on its way. */
  lemma VoidLost(s: State, p: nat) returns (steps: seq<Step>, t: State)
    requires At(s, p, HasId) && StatusIs(s, p, Reserved) && Void(p) !in s.net
    ensures Run(s, steps, t) && |t.calls| == |s.calls| && At(t, p, AwaitVoid)
    ensures StatusIs(t, p, Reserved) && Commit(p) !in t.net && Void(p) !in t.net
    ensures t.calls[p].timedOut == s.calls[p].timedOut
  {
    var s1 := Apply(s, SendCommit(p));
    var s2 := Apply(s1, Deliver(Commit(p), true));
    var s3 := Apply(s2, RecvCommit(p));
    var s4 := Apply(s3, SendVoid(p));
    t := Apply(s4, Drop(Void(p)));
    assert Run(t, [], t);
    RunCons(s4, Drop(Void(p)), [], t);
    var ys := [Drop(Void(p))] + [];
    RunCons(s3, SendVoid(p), ys, t);
    RunCons(s2, RecvCommit(p), [SendVoid(p)] + ys, t);
    var zs := [RecvCommit(p)] + ([SendVoid(p)] + ys);
    RunCons(s1, Deliver(Commit(p), true), zs, t);
    RunCons(s, SendCommit(p), [Deliver(Commit(p), true)] + zs, t);
    steps := [SendCommit(p)] + ([Deliver(Commit(p), true)] + zs);
  }

  lemma GiveUpOnVoid(s: State, p: nat) returns (steps: seq<Step>, t: State)
    requires At(s, p, AwaitVoid) && StatusIs(s, p, Reserved) && Commit(p) !in s.net && Void(p) !in s.net
    ensures Run(s, steps, t) && |t.calls| == |s.calls| && At(t, p, Done(CommitFailed)) && Abandoned(t, p)
    ensures t.calls[p].timedOut == s.calls[p].timedOut
  {
    var s1 := Apply(s, Timeout(p));
    t := Apply(s1, Store(p));
    assert Run(t, [], t);
    RunCons(s1, Store(p), [], t);
    RunCons(s, Timeout(p), [Store(p)] + [], t);
    steps := [Timeout(p)] + ([Store(p)] + []);
  }

  /** The void is sent once and not repeated: when it is lost, the funds of a refused commit stay reserved
      for good. */
  lemma LostVoidStrandsFunds(balances: map<nat, int>, req: Request) returns (s: State)
    requires req.amount > 0 && req.from in balances && req.to in balances && balances[req.from] >= req.amount
    ensures Reachable(balances, s) && |s.calls| == 1 && s.calls[0].pc == Done(CommitFailed) && !s.calls[0].timedOut
    ensures Abandoned(s, 0)
  {
    var xs, d := OneReserved(balances, req);
    var ys, e := VoidLost(d, 0);
    var zs, t := GiveUpOnVoid(e, 0);
    s := t;
    RunConcat(d, ys, e, zs, s);
    RunConcat(Init(balances), xs, d, ys + zs, s);
  }

  /** Two calls with one key check the cache before either has stored anything. */
  lemma BothMiss(balances: map<nat, int>, req: Request) returns (steps: seq<Step>, t: State)
    ensures Run(Init(balances), steps, t)
    ensures |t.calls| == 2 && (forall p :: 0 <= p < 2 ==> t.calls[p] == Call(req, Routed, false, false))
    ensures t.ledger == Ledger(balances, map[])
  {
    var a := Init(balances);
    var b := Apply(a, Invoke(req));
    var c := Apply(b, Invoke(req));
    var d := Apply(c, Check(0, true, true));
    t := Apply(d, Check(1, true, true));
    assert Run(t, [], t);
    RunCons(d, Check(1, true, true), [], t);
    RunCons(c, Check(0, true, true), [Check(1, true, true)] + [], t);
    var r := [Check(0, true, true)] + ([Check(1, true, true)] + []);
    RunCons(b, Invoke(req), r, t);
    RunCons(a, Invoke(req), [Invoke(req)] + r, t);
    steps := [Invoke(req)] + ([Invoke(req)] + r);
  }

  /** Two reservations that were both made are both posted. */
  lemma BothCommit(s: State) returns (steps: seq<Step>, t: State)
    requires At(s, 0, HasId) && At(s, 1, HasId)
    requires 0 in s.ledger.transfers && 1 in s.ledger.transfers && s.ledger.transfers[0] == s.ledger.transfers[1]
    requires s.ledger.transfers[0].status == Reserved && s.ledger.transfers[0].req.to in s.ledger.balances
    ensures Run(s, steps, t)
    ensures 0 in t.ledger.transfers && t.ledger.transfers[0] == s.ledger.transfers[0].(status := Posted)
    ensures 1 in t.ledger.transfers && t.ledger.transfers[1] == s.ledger.transfers[1].(status := Posted)
  {
    var xs, u := CommitDelivered(s, 0);
    var ys, v := CommitDelivered(u, 1);
    RunConcat(s, xs, u, ys, v);
    steps, t := xs + ys, v;
  }

  /** Two overlapping calls with one key both move the money. */
  lemma OverlapPostsTwice(balances: map<nat, int>, req: Request) returns (s: State)
    requires req.amount > 0 && req.from in balances && req.to in balances && req.from != req.to
    requires balances[req.from] >= 2 * req.amount
    ensures Reachable(balances, s)
    ensures 0 in s.ledger.transfers && s.ledger.transfers[0] == Transfer(req, Posted)
    ensures 1 in s.ledger.transfers && s.ledger.transfers[1] == Transfer(req, Posted)
  {
    var vs, e := BothMiss(balances, req);
    var ws, f := ReserveAlone(e, 0);
    var xs, g := ReserveAlone(f, 1);
    var ys, t := BothCommit(g);
    s := t;
    RunConcat(f, xs, g, ys, s);
    RunConcat(e, ws, f, xs + ys, s);
    RunConcat(Init(balances), vs, e, ws + (xs + ys), s);
  }
}
