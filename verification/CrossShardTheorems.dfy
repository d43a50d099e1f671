/**
 The coordinator's guarantees over whole runs.
 */
module CrossShardTheorems {
  import opened Sums
  import opened CrossShard
  import opened CrossShardSafety

  lemma {:induction false} RunKeepsInv(s: State, steps: seq<Step>, t: State)
    requires Inv(s) && Run(s, steps, t)
    ensures Inv(t) && Funds(t.ledger) == Funds(s.ledger)
    decreases |steps|
  {
    if steps != [] {
      StepKeepsInv(s, steps[0]);
      RunKeepsInv(Apply(s, steps[0]), steps[1..], t);
    }
  }

  ghost predicate NonNegative(balances: map<nat, int>) {
    forall a :: a in balances ==> balances[a] >= 0
  }

  ghost predicate Reachable(balances: map<nat, int>, s: State) {
    exists steps: seq<Step> :: Run(Init(balances), steps, s)
  }

  lemma ReachableInv(balances: map<nat, int>, s: State)
    requires NonNegative(balances) && Reachable(balances, s)
    ensures Inv(s) && Funds(s.ledger) == Funds(Init(balances).ledger)
  {
    var steps: seq<Step> :| Run(Init(balances), steps, s);
    InitInv(balances);
    RunKeepsInv(Init(balances), steps, s);
  }

  /** Available plus reserved funds never change, and no account is overdrawn. */
  lemma FundsConserved(balances: map<nat, int>, s: State)
    requires NonNegative(balances) && Reachable(balances, s)
    ensures Funds(s.ledger) == Sum(balances)
    ensures NonNegative(s.ledger.balances)
  {
    ReachableInv(balances, s);
    var none: map<nat, Transfer> := map[];
    assert ReservedAmounts(none) == map[];
  }

  // ---- Every account on its own ----

  /** What transfers have taken from, and posted to, an account. */
  ghost function TakenFrom(ts: map<nat, Transfer>, a: nat): map<nat, int> {
    map id | id in ts :: if ts[id].req.from == a && ts[id].status != Voided then ts[id].req.amount else 0
  }

  ghost function PostedTo(ts: map<nat, Transfer>, a: nat): map<nat, int> {
    map id | id in ts :: if ts[id].req.to == a && ts[id].status == Posted then ts[id].req.amount else 0
  }

  ghost predicate AccountLaw(balances: map<nat, int>, l: Ledger, a: nat) {
    && (a in l.balances <==> a in balances)
    && (a in balances ==> l.balances[a] == balances[a] - Sum(TakenFrom(l.transfers, a)) + Sum(PostedTo(l.transfers, a)))
  }

  lemma TakenUpdate(ts: map<nat, Transfer>, id: nat, t: Transfer, a: nat)
    ensures Sum(TakenFrom(ts[id := t], a)) == Sum(TakenFrom(ts, a))
              - (if id in ts && ts[id].req.from == a && ts[id].status != Voided then ts[id].req.amount else 0)
              + (if t.req.from == a && t.status != Voided then t.req.amount else 0)
  {
    var v := if t.req.from == a && t.status != Voided then t.req.amount else 0;
    assert TakenFrom(ts[id := t], a) == TakenFrom(ts, a)[id := v];
    SumUpdate(TakenFrom(ts, a), id, v);
  }

  lemma PostedUpdate(ts: map<nat, Transfer>, id: nat, t: Transfer, a: nat)
    ensures Sum(PostedTo(ts[id := t], a)) == Sum(PostedTo(ts, a))
              - (if id in ts && ts[id].req.to == a && ts[id].status == Posted then ts[id].req.amount else 0)
              + (if t.req.to == a && t.status == Posted then t.req.amount else 0)
  {
    var v := if t.req.to == a && t.status == Posted then t.req.amount else 0;
    assert PostedTo(ts[id := t], a) == PostedTo(ts, a)[id := v];
    SumUpdate(PostedTo(ts, a), id, v);
  }

  lemma ExecuteKeepsAccount(balances: map<nat, int>, l: Ledger, m: Msg, req: Request, a: nat)
    requires Effective(l, m, req, false) && AccountLaw(balances, l, a)
    ensures AccountLaw(balances, Execute(l, m, req), a)
  {
    var t := match m
      case Reserve(_) => Transfer(req, Reserved)
      case Commit(id) => l.transfers[id].(status := Posted)
      case Void(id) => l.transfers[id].(status := Voided);
    TakenUpdate(l.transfers, m.id, t, a);
    PostedUpdate(l.transfers, m.id, t, a);
  }

  lemma {:induction false} RunKeepsAccount(balances: map<nat, int>, s: State, steps: seq<Step>, t: State, a: nat)
    requires AccountLaw(balances, s.ledger, a) && Run(s, steps, t)
    ensures AccountLaw(balances, t.ledger, a)
    decreases |steps|
  {
    if steps != [] {
      StepKeepsAccount(balances, s, steps[0], a);
      RunKeepsAccount(balances, Apply(s, steps[0]), steps[1..], t, a);
    }
  }

  lemma StepKeepsAccount(balances: map<nat, int>, s: State, step: Step, a: nat)
    requires AccountLaw(balances, s.ledger, a) && Enabled(s, step)
    ensures AccountLaw(balances, Apply(s, step).ledger, a)
  {
    if step.Deliver? && Effective(s.ledger, step.m, s.calls[step.m.id].req, step.refuse) {
      ExecuteKeepsAccount(balances, s.ledger, step.m, s.calls[step.m.id].req, a);
    }
  }

  /** In every reachable state each account holds what it started with, less what reserved or posted
      transfers took from it, plus what posted transfers brought it. */
  lemma AccountsAddUp(balances: map<nat, int>, s: State, a: nat)
    requires Reachable(balances, s)
    ensures AccountLaw(balances, s.ledger, a)
  {
    var steps: seq<Step> :| Run(Init(balances), steps, s);
    var none: map<nat, Transfer> := map[];
    assert TakenFrom(none, a) == map[] && PostedTo(none, a) == map[];
    RunKeepsAccount(balances, Init(balances), steps, s, a);
  }

  /** A call reports success only if its own transfer is posted, or, when it was answered from the
      cache, the transfer of a call with its key is. */
  lemma SuccessMeansPosted(balances: map<nat, int>, s: State, p: nat)
    requires NonNegative(balances) && Reachable(balances, s) && p < |s.calls|
    requires s.calls[p].pc == Finished(Success) || s.calls[p].pc == Done(Success)
    ensures s.calls[p].contacted ==> p in s.ledger.transfers && s.ledger.transfers[p] == Transfer(s.calls[p].req, Posted)
    ensures !s.calls[p].contacted ==> p !in s.ledger.transfers && Backed(s, s.calls[p].req.key)
  {
    ReachableInv(balances, s);
    assert CallOk(s.calls[p], ViewOf(s, p), p);
  }

  /** A void exists only for a call whose commit reported failure: it was refused, or the caller gave up
      waiting for it. Such a call never reports success. */
  lemma VoidOnlyAfterFailedCommit(balances: map<nat, int>, s: State, p: nat)
    requires NonNegative(balances) && Reachable(balances, s) && p < |s.calls|
    requires Void(p) in s.net || Void(p) in s.replies || (p in s.ledger.transfers && s.ledger.transfers[p].status == Voided)
    ensures s.calls[p].timedOut || (Commit(p) in s.replies && s.replies[Commit(p)] == Refused)
    ensures s.calls[p].pc in {AwaitVoid, Finished(CommitFailed), Done(CommitFailed)}
  {
    ReachableInv(balances, s);
    assert CallOk(s.calls[p], ViewOf(s, p), p);
  }

  /** Unless the caller gave up waiting for the commit, a reported failure is final: the transfer is
      not posted and no commit for it is still under way. */
  lemma FailureIsReliable(balances: map<nat, int>, s: State, p: nat)
    requires NonNegative(balances) && Reachable(balances, s) && p < |s.calls|
    requires s.calls[p].pc == Done(PendingFailed) || s.calls[p].pc == Done(CommitFailed)
    requires !s.calls[p].timedOut && s.calls[p].contacted
    ensures p in s.ledger.transfers ==> s.ledger.transfers[p].status != Posted
    ensures Commit(p) !in s.net
  {
    ReachableInv(balances, s);
    assert CallOk(s.calls[p], ViewOf(s, p), p);
  }
}
