/**
 One `Execute` call as the program runs it, and the state machine's run it amounts to.
 */
module CrossShardCall {
  import opened CrossShard
  import opened CrossShardSafety
  import opened CrossShardTheorems

  /** What a call answers, given the cache it meets, the router's verdicts and the nodes' replies. */
  function AnswerOf(cache: map<string, Outcome>, key: string, cross: bool, routable: bool, pendingOk: bool, commitOk: bool): Outcome {
    if !cross then SameShard
    else if key in cache then cache[key]
    else if !routable then NoRoute
    else if !pendingOk then PendingFailed
    else if !commitOk then CommitFailed
    else Success
  }

  function CacheAfter(cache: map<string, Outcome>, key: string, cross: bool, routable: bool, pendingOk: bool, commitOk: bool): map<string, Outcome> {
    if !cross || key in cache || !routable then cache
    else cache[key := AnswerOf(cache, key, cross, routable, pendingOk, commitOk)]
  }

  /** The coordinator object: `sent` is what it asked the nodes to do. */
  class Coordinator {
    var cache: map<string, Outcome>

    constructor ()
      ensures cache == map[]
    {
      cache := map[];
    }

    /** `Execute`, given the router's verdicts and the nodes' replies. A cached key is answered
        without a node call; otherwise the outcome of every contact with a node is cached, and a void
        is sent exactly when the commit failed. */
    method Execute(req: Request, id: nat, cross: bool, routable: bool, pendingOk: bool, commitOk: bool)
      returns (o: Outcome, sent: seq<Msg>)
      modifies this
      ensures o == AnswerOf(old(cache), req.key, cross, routable, pendingOk, commitOk)
      ensures cache == CacheAfter(old(cache), req.key, cross, routable, pendingOk, commitOk)
      ensures o == Success <==> cross && if req.key in old(cache) then old(cache)[req.key] == Success
                                         else routable && pendingOk && commitOk
      ensures !cross ==> o == SameShard
      ensures cross && req.key in old(cache) ==> o == old(cache)[req.key]
      ensures cross && req.key !in old(cache) && !routable ==> o == NoRoute
      ensures sent != [] && !pendingOk ==> o == PendingFailed
      ensures sent != [] && pendingOk && !commitOk ==> o == CommitFailed
      ensures sent == [] ==> cache == old(cache)
      ensures sent != [] ==> cache == old(cache)[req.key := o]
      ensures sent == [] <==> !cross || req.key in old(cache) || !routable
      ensures Commit(id) in sent <==> sent != [] && pendingOk
      ensures Void(id) in sent <==> Commit(id) in sent && !commitOk
      ensures sent <= [Reserve(id), Commit(id), Void(id)]
    {
      sent := [];
      if !cross {
        return SameShard, [];
      }
      if req.key in cache {
        return cache[req.key], [];
      }
      if !routable {
        return NoRoute, [];
      }
      sent := [Reserve(id)];
      if !pendingOk {
        o := PendingFailed;
        cache := cache[req.key := o];
        return;
      }
      sent := sent + [Commit(id)];
      if !commitOk {
        sent := sent + [Void(id)];
        o := CommitFailed;
        cache := cache[req.key := o];
        return;
      }
      o := Success;
      cache := cache[req.key := o];
    }
  }

  // ---- The same call as a run ----

  /** Only call `p` moved, and the cache was left alone. */
  ghost predicate OnlyCall(s: State, t: State, p: nat) {
    && p < |s.calls| == |t.calls| && t.cache == s.cache && t.calls[p].req == s.calls[p].req
    && forall q :: 0 <= q < |s.calls| && q != p ==> t.calls[q] == s.calls[q]
  }

  lemma ThreeSteps(s: State, a: Step, b: Step, c: Step) returns (steps: seq<Step>, t: State)
    requires Enabled(s, a) && Enabled(Apply(s, a), b) && Enabled(Apply(Apply(s, a), b), c)
    ensures t == Apply(Apply(Apply(s, a), b), c) && Run(s, steps, t)
  {
    var s1 := Apply(s, a);
    var s2 := Apply(s1, b);
    t := Apply(s2, c);
    assert Run(t, [], t);
    RunCons(s2, c, [], t);
    RunCons(s1, b, [c] + [], t);
    RunCons(s, a, [b] + ([c] + []), t);
    steps := [a] + ([b] + ([c] + []));
  }

  // What the phases do to the money of one account: reserving takes it from the source, posting gives
  // it to the destination, voiding gives it back.

  function Paid(b: map<nat, int>, from: nat, amount: int): map<nat, int>
    requires from in b
  {
    b[from := b[from] - amount]
  }

  /** Submit the pending transfer and take the node's answer. */
  lemma PendingPhase(s: State, p: nat, refuse: bool) returns (steps: seq<Step>, t: State)
    requires At(s, p, Routed)
    ensures Run(s, steps, t) && OnlyCall(s, t, p)
    ensures var req := s.calls[p].req;
            if CanReserve(s.ledger, p, req) && !refuse
            then && t.calls[p].pc == HasId
                 && t.ledger == Ledger(Paid(s.ledger.balances, req.from, req.amount), s.ledger.transfers[p := Transfer(req, Reserved)])
            else t.calls[p].pc == Finished(PendingFailed) && t.ledger == s.ledger
  {
    steps, t := ThreeSteps(s, SendReserve(p), Deliver(Reserve(p), refuse), RecvReserve(p));
  }

  /** The call's transfer is reserved between accounts that exist. */
  predicate HoldsReservation(s: State, p: nat) {
    && p < |s.calls| && p in s.ledger.transfers && s.ledger.transfers[p] == Transfer(s.calls[p].req, Reserved)
    && s.calls[p].req.from in s.ledger.balances && s.calls[p].req.to in s.ledger.balances
  }

  lemma CommitPhase(s: State, p: nat, refuse: bool) returns (steps: seq<Step>, t: State)
    requires At(s, p, HasId) && HoldsReservation(s, p)
    ensures Run(s, steps, t) && OnlyCall(s, t, p)
    ensures var req := s.calls[p].req;
            if refuse then t.calls[p].pc == CommitError && t.ledger == s.ledger
            else && t.calls[p].pc == Finished(Success)
                 && t.ledger == Ledger(Paid(s.ledger.balances, req.to, -req.amount), s.ledger.transfers[p := Transfer(req, Posted)])
  {
    steps, t := ThreeSteps(s, SendCommit(p), Deliver(Commit(p), refuse), RecvCommit(p));
  }

  lemma VoidPhase(s: State, p: nat) returns (steps: seq<Step>, t: State)
    requires At(s, p, CommitError) && HoldsReservation(s, p)
    ensures Run(s, steps, t) && OnlyCall(s, t, p) && t.calls[p].pc == Finished(CommitFailed)
    ensures var req := s.calls[p].req;
            t.ledger == Ledger(Paid(s.ledger.balances, req.from, -req.amount), s.ledger.transfers[p := Transfer(req, Voided)])
  {
    steps, t := ThreeSteps(s, SendVoid(p), Deliver(Void(p), false), RecvVoid(p));
  }

  /** From the commit to its outcome, with the void in between when it failed. */
  lemma ResolvePhase(s: State, p: nat, refuse: bool) returns (steps: seq<Step>, t: State)
    requires At(s, p, HasId) && HoldsReservation(s, p)
    ensures Run(s, steps, t) && OnlyCall(s, t, p)
    ensures var req := s.calls[p].req;
            if refuse
            then && t.calls[p].pc == Finished(CommitFailed)
                 && t.ledger == Ledger(Paid(s.ledger.balances, req.from, -req.amount), s.ledger.transfers[p := Transfer(req, Voided)])
            else && t.calls[p].pc == Finished(Success)
                 && t.ledger == Ledger(Paid(s.ledger.balances, req.to, -req.amount), s.ledger.transfers[p := Transfer(req, Posted)])
  {
    steps, t := CommitPhase(s, p, refuse);
    if refuse {
      var ys, u := VoidPhase(t, p);
      RunConcat(s, steps, t, ys, u);
      steps, t := steps + ys, u;
    }
  }

  /** Where a call that reached the nodes leaves the ledger. */
  ghost predicate Settles(l: Ledger, l': Ledger, p: nat, req: Request, o: Outcome) {
    match o
    case Success =>
      && l'.transfers == l.transfers[p := Transfer(req, Posted)] && l'.balances.Keys == l.balances.Keys
      && forall a :: a in l.balances ==>
           l'.balances[a] == l.balances[a] - (if a == req.from then req.amount else 0) + (if a == req.to then req.amount else 0)
    case CommitFailed => l' == Ledger(l.balances, l.transfers[p := Transfer(req, Voided)])
    case _ => l' == l
  }

  lemma ReserveThenResolve(l: Ledger, m: Ledger, l': Ledger, p: nat, req: Request, refuse: bool)
    requires req.from in l.balances && req.to in l.balances
    requires m == Ledger(Paid(l.balances, req.from, req.amount), l.transfers[p := Transfer(req, Reserved)])
    requires if refuse then l' == Ledger(Paid(m.balances, req.from, -req.amount), m.transfers[p := Transfer(req, Voided)])
             else l' == Ledger(Paid(m.balances, req.to, -req.amount), m.transfers[p := Transfer(req, Posted)])
    ensures Settles(l, l', p, req, if refuse then CommitFailed else Success)
  {
    if refuse {
      assert l'.balances == l.balances;
      assert l'.transfers == l.transfers[p := Transfer(req, Voided)];
    } else {
      assert l'.transfers == l.transfers[p := Transfer(req, Posted)];
    }
  }

  /** From the cache miss to the outcome. */
  lemma NodePhase(s: State, p: nat, refusePending: bool, refuseCommit: bool) returns (steps: seq<Step>, t: State)
    requires At(s, p, Routed)
    ensures Run(s, steps, t) && OnlyCall(s, t, p)
    ensures var o := if refusePending || !CanReserve(s.ledger, p, s.calls[p].req) then PendingFailed
                     else if refuseCommit then CommitFailed else Success;
            t.calls[p].pc == Finished(o) && Settles(s.ledger, t.ledger, p, s.calls[p].req, o)
  {
    var req := s.calls[p].req;
    steps, t := PendingPhase(s, p, refusePending);
    if t.calls[p].pc == HasId {
      var ys, u := ResolvePhase(t, p, refuseCommit);
      RunConcat(s, steps, t, ys, u);
      ReserveThenResolve(s.ledger, t.ledger, u.ledger, p, req, refuseCommit);
      steps, t := steps + ys, u;
    }
  }

  /** The call is made and looks at the router and the cache. */
  lemma CheckPhase(s: State, req: Request, cross: bool, routable: bool) returns (t: State)
    requires Inv(s)
    ensures var p := |s.calls|;
            && Run(s, [Invoke(req)] + ([Check(p, cross, routable)] + []), t) && Inv(t)
            && t.ledger == s.ledger && t.cache == s.cache && |t.calls| == p + 1 && t.calls[p].req == req
            && t.calls[p].pc == if cross && req.key !in s.cache && routable then Routed
                                else Done(AnswerOf(s.cache, req.key, cross, routable, false, false))
  {
    var p := |s.calls|;
    var s1 := Apply(s, Invoke(req));
    t := Apply(s1, Check(p, cross, routable));
    assert Run(t, [], t);
    RunCons(s1, Check(p, cross, routable), [], t);
    RunCons(s, Invoke(req), [Check(p, cross, routable)] + [], t);
    RunKeepsInv(s, [Invoke(req)] + ([Check(p, cross, routable)] + []), t);
  }

  /** A call made in any reachable state and not disturbed is a run of the state machine that ends with
      the answer and the cache of `Execute`: the pending transfer goes through when the ledger can
      reserve the funds and the node does not refuse, the commit when it is not refused. A success has
      moved the amount from source to destination, a failed commit is voided and has given it back,
      and every other answer has left the ledger alone. */
  lemma ExecuteIsRun(balances: map<nat, int>, s: State, req: Request, cross: bool, routable: bool,
                     refusePending: bool, refuseCommit: bool) returns (steps: seq<Step>, t: State)
    requires NonNegative(balances) && Reachable(balances, s)
    ensures var p := |s.calls|; var pendingOk := CanReserve(s.ledger, p, req) && !refusePending;
            && Run(s, steps, t) && |t.calls| == p + 1
            && t.calls[p].pc == Done(AnswerOf(s.cache, req.key, cross, routable, pendingOk, !refuseCommit))
            && t.cache == CacheAfter(s.cache, req.key, cross, routable, pendingOk, !refuseCommit)
            && (!cross || req.key in s.cache || !routable ==> t.ledger == s.ledger)
            && (cross && req.key !in s.cache && routable ==> Settles(s.ledger, t.ledger, p, req, t.calls[p].pc.outcome))
  {
    ReachableInv(balances, s);
    var p := |s.calls|;
    var u := CheckPhase(s, req, cross, routable);
    var xs := [Invoke(req)] + ([Check(p, cross, routable)] + []);
    if u.calls[p].pc.Done? {
      steps, t := xs, u;
    } else {
      var ys, v := NodePhase(u, p, refusePending, refuseCommit);
      t := Apply(v, Store(p));
      assert Run(t, [], t);
      RunCons(v, Store(p), [], t);
      RunConcat(u, ys, v, [Store(p)] + [], t);
      RunConcat(s, xs, u, ys + ([Store(p)] + []), t);
      steps := xs + (ys + ([Store(p)] + []));
    }
  }
}
