/**
 What every run of the coordinator keeps, and what it does not promise.
 */
module CrossShardSafety {
  import opened Sums
  import opened Wrappers
  import opened CrossShard

  // ---- Invariant ----

  /** Everything in the system that belongs to one call. */
  datatype View = View(net: set<Msg>, reserve: Option<Reply>, commit: Option<Reply>, void_: Option<Reply>, transfer: Option<Transfer>)

  function ReplyTo(s: State, m: Msg): Option<Reply> {
    if m in s.replies then Some(s.replies[m]) else None
  }

  function ViewOf(s: State, p: nat): View {
    View(s.net * {Reserve(p), Commit(p), Void(p)},
         ReplyTo(s, Reserve(p)), ReplyTo(s, Commit(p)), ReplyTo(s, Void(p)),
         if p in s.ledger.transfers then Some(s.ledger.transfers[p]) else None)
  }

  ghost predicate Has(v: View, status: Status) {
    v.transfer.Some? && v.transfer.value.status == status
  }

  /** No commit or void was ever sent. */
  ghost predicate Unresolved(v: View, p: nat) {
    && Commit(p) !in v.net && Void(p) !in v.net && v.commit.None? && v.void_.None?
    && (v.transfer.None? || Has(v, Reserved))
  }

  ghost predicate Untouched(v: View, p: nat) {
    Unresolved(v, p) && v.transfer.None? && Reserve(p) !in v.net && v.reserve.None?
  }

  /** The reservation exists and no void was sent. */
  ghost predicate NotVoided(v: View, p: nat) {
    Void(p) !in v.net && v.void_.None? && (Has(v, Reserved) || Has(v, Posted)) && Reserve(p) !in v.net
  }

  /** Without a timeout, the commit was refused, did nothing and never will. */
  ghost predicate CommitDead(c: Call, v: View, p: nat) {
    !c.timedOut ==> v.commit == Some(Refused) && !Has(v, Posted) && Commit(p) !in v.net
  }

  ghost predicate OutcomeOk(c: Call, v: View, p: nat, o: Outcome) {
    if !c.contacted then Untouched(v, p) && c.pc.Done?
    else match o
         case Success => Has(v, Posted) && NotVoided(v, p)
         case PendingFailed => Unresolved(v, p)
         case CommitFailed => v.transfer.Some? && Reserve(p) !in v.net && CommitDead(c, v, p)
         case SameShard => false
         case NoRoute => false
  }

  ghost predicate CallOk(c: Call, v: View, p: nat) {
    && (v.transfer.Some? ==> v.transfer.value.req == c.req && c.contacted)
    && match c.pc
       case Start => !c.contacted && Untouched(v, p)
       case Routed => !c.contacted && Untouched(v, p)
       case AwaitPending => c.contacted && Unresolved(v, p) && (v.reserve == Some(Accepted) ==> Has(v, Reserved) && Reserve(p) !in v.net)
       case HasId => c.contacted && Unresolved(v, p) && Has(v, Reserved) && Reserve(p) !in v.net && !c.timedOut
       case AwaitCommit => c.contacted && NotVoided(v, p) && !c.timedOut
                           && (v.commit == Some(Accepted) ==> Has(v, Posted))
                           && (v.commit == Some(Refused) ==> Has(v, Reserved) && Commit(p) !in v.net)
                           && (Commit(p) in v.net ==> v.commit.None? && Has(v, Reserved))
       case CommitError => c.contacted && NotVoided(v, p) && CommitDead(c, v, p)
       case AwaitVoid => c.contacted && v.transfer.Some? && Reserve(p) !in v.net && CommitDead(c, v, p)
       case Finished(o) => OutcomeOk(c, v, p, o)
       case Done(o) => OutcomeOk(c, v, p, o)
  }

  ghost predicate CallsOk(s: State) {
    forall p :: 0 <= p < |s.calls| ==> CallOk(s.calls[p], ViewOf(s, p), p)
  }

  ghost predicate TimersOk(s: State) {
    forall p :: 0 <= p < |s.calls| && (s.calls[p].pc.Start? || s.calls[p].pc.Routed? || s.calls[p].pc.AwaitPending?) ==> !s.calls[p].timedOut
  }

  /** Some call with this key has its transfer posted. */
  ghost predicate Backed(s: State, key: string) {
    exists q :: 0 <= q < |s.calls| && s.calls[q].req.key == key && q in s.ledger.transfers && s.ledger.transfers[q].status == Posted
  }

  ghost predicate SuccessBacked(s: State) {
    && (forall k :: k in s.cache && s.cache[k] == Success ==> Backed(s, k))
    && (forall p :: 0 <= p < |s.calls| && s.calls[p].pc == Done(Success) ==> Backed(s, s.calls[p].req.key))
  }

  ghost predicate LedgerOk(s: State) {
    && (forall id :: id in s.ledger.transfers ==>
          && id < |s.calls| && s.ledger.transfers[id].req.amount > 0
          && s.ledger.transfers[id].req.from in s.ledger.balances && s.ledger.transfers[id].req.to in s.ledger.balances)
    && (forall a :: a in s.ledger.balances ==> s.ledger.balances[a] >= 0)
    && (forall m :: m in s.net || m in s.replies ==> m.id < |s.calls|)
  }

  ghost predicate Inv(s: State) {
    CallsOk(s) && TimersOk(s) && SuccessBacked(s) && LedgerOk(s)
  }

  // ---- Conservation ----

  lemma ReservedUpdate(ts: map<nat, Transfer>, id: nat, t: Transfer)
    ensures Sum(ReservedAmounts(ts[id := t])) == Sum(ReservedAmounts(ts))
              - (if id in ts && ts[id].status == Reserved then ts[id].req.amount else 0)
              + (if t.status == Reserved then t.req.amount else 0)
  {
    var r := ReservedAmounts(ts);
    assert ReservedAmounts(ts[id := t]) == r[id := if t.status == Reserved then t.req.amount else 0];
    SumUpdate(r, id, if t.status == Reserved then t.req.amount else 0);
  }

  /** Reserving, posting and voiding only move funds. */
  lemma ExecuteConserves(l: Ledger, m: Msg, req: Request)
    requires Effective(l, m, req, false)
    ensures Funds(Execute(l, m, req)) == Funds(l)
  {
    var l' := Execute(l, m, req);
    match m
    case Reserve(id) =>
      SumUpdate(l.balances, req.from, l.balances[req.from] - req.amount);
      ReservedUpdate(l.transfers, id, Transfer(req, Reserved));
    case Commit(id) =>
      var t := l.transfers[id];
      SumUpdate(l.balances, t.req.to, l.balances[t.req.to] + t.req.amount);
      ReservedUpdate(l.transfers, id, t.(status := Posted));
    case Void(id) =>
      var t := l.transfers[id];
      SumUpdate(l.balances, t.req.from, l.balances[t.req.from] + t.req.amount);
      ReservedUpdate(l.transfers, id, t.(status := Voided));
  }

  // ---- Each step keeps the invariant ----

  lemma InitInv(balances: map<nat, int>)
    requires forall a :: a in balances ==> balances[a] >= 0
    ensures Inv(Init(balances))
  {}

  /** A step that touches only call `p` and its messages. */
  lemma FrameCalls(s: State, t: State, p: nat)
    requires CallsOk(s) && p < |s.calls| && |t.calls| == |s.calls|
    requires forall q :: 0 <= q < |s.calls| && q != p ==> t.calls[q] == s.calls[q] && ViewOf(t, q) == ViewOf(s, q)
    requires CallOk(t.calls[p], ViewOf(t, p), p)
    ensures CallsOk(t)
  {
    forall q | 0 <= q < |t.calls| ensures CallOk(t.calls[q], ViewOf(t, q), q) {
      if q != p {
        assert CallOk(s.calls[q], ViewOf(s, q), q);
      }
    }
  }

  /** A step that leaves the ledger alone and does not report a success. */
  lemma FrameBacked(s: State, t: State)
    requires SuccessBacked(s) && t.ledger == s.ledger && |t.calls| == |s.calls|
    requires forall q :: 0 <= q < |s.calls| ==> t.calls[q].req == s.calls[q].req
    requires forall k :: k in t.cache && t.cache[k] == Success ==> Backed(s, k)
    requires forall q :: 0 <= q < |s.calls| && t.calls[q].pc == Done(Success) ==> Backed(s, s.calls[q].req.key)
    ensures SuccessBacked(t)
  {
    forall k | Backed(s, k) ensures Backed(t, k) {
      var q :| 0 <= q < |s.calls| && s.calls[q].req.key == k && q in s.ledger.transfers && s.ledger.transfers[q].status == Posted;
      assert t.calls[q].req.key == k;
    }
  }

  lemma InvokeCalls(s: State, req: Request)
    requires CallsOk(s) && LedgerOk(s)
    ensures CallsOk(Apply(s, Invoke(req)))
  {
    var t := Apply(s, Invoke(req));
    forall q | 0 <= q < |t.calls| ensures CallOk(t.calls[q], ViewOf(t, q), q) {
      assert ViewOf(t, q) == ViewOf(s, q);
      if q < |s.calls| {
        assert CallOk(s.calls[q], ViewOf(s, q), q);
      }
    }
  }

  lemma InvokeBacked(s: State, req: Request)
    requires SuccessBacked(s)
    ensures SuccessBacked(Apply(s, Invoke(req)))
  {
    var t := Apply(s, Invoke(req));
    forall k | Backed(s, k) ensures Backed(t, k) {
      var q :| 0 <= q < |s.calls| && s.calls[q].req.key == k && q in s.ledger.transfers && s.ledger.transfers[q].status == Posted;
      assert t.calls[q].req.key == k;
    }
  }

  lemma InvokeInv(s: State, req: Request)
    requires Inv(s)
    ensures Inv(Apply(s, Invoke(req)))
  {
    InvokeCalls(s, req);
    InvokeBacked(s, req);
  }

  predicate Local(step: Step) {
    !step.Invoke? && !step.Deliver? && !step.Drop?
  }

  /** A local step only sends the call's own messages. */
  lemma LocalFrame(s: State, step: Step)
    requires Enabled(s, step) && Local(step)
    ensures var t := Apply(s, step);
            && t.ledger == s.ledger && t.replies == s.replies
            && s.net <= t.net <= s.net + {Reserve(step.p), Commit(step.p), Void(step.p)}
            && t.calls == s.calls[step.p := t.calls[step.p]] && t.calls[step.p].req == s.calls[step.p].req
  {}

  lemma LocalOthers(s: State, t: State, p: nat)
    requires p < |s.calls| && t.ledger == s.ledger && t.replies == s.replies && |t.calls| == |s.calls|
    requires s.net <= t.net <= s.net + {Reserve(p), Commit(p), Void(p)} && t.calls == s.calls[p := t.calls[p]]
    ensures forall q :: 0 <= q < |s.calls| && q != p ==> t.calls[q] == s.calls[q] && ViewOf(t, q) == ViewOf(s, q)
  {
    forall q | 0 <= q < |s.calls| && q != p ensures ViewOf(t, q).net == ViewOf(s, q).net {}
  }

  lemma LocalLedger(s: State, step: Step)
    requires Inv(s) && Enabled(s, step) && Local(step)
    ensures LedgerOk(Apply(s, step)) && TimersOk(Apply(s, step))
  {
    LocalFrame(s, step);
  }

  /** Sending a message, or moving on after a reply or a timeout. */
  lemma LocalInv(s: State, step: Step)
    requires Inv(s) && Enabled(s, step) && Local(step)
    ensures Inv(Apply(s, step))
  {
    LocalFrame(s, step);
    LocalOthers(s, Apply(s, step), step.p);
    LocalCallOk(s, step);
    FrameCalls(s, Apply(s, step), step.p);
    LocalBacked(s, step);
    LocalLedger(s, step);
  }

  /** A call sends one of its messages. */
  lemma SendCallOk(s: State, step: Step)
    requires CallsOk(s) && TimersOk(s) && Enabled(s, step) && (step.SendReserve? || step.SendCommit? || step.SendVoid?)
    ensures CallOk(Apply(s, step).calls[step.p], ViewOf(Apply(s, step), step.p), step.p)
  {
    var t, p := Apply(s, step), step.p;
    assert CallOk(s.calls[p], ViewOf(s, p), p);
    var v, v' := ViewOf(s, p), ViewOf(t, p);
    assert v' == v.(net := v'.net);
  }

  lemma LocalCallOk(s: State, step: Step)
    requires CallsOk(s) && TimersOk(s) && Enabled(s, step) && Local(step)
    ensures CallOk(Apply(s, step).calls[step.p], ViewOf(Apply(s, step), step.p), step.p)
  {
    if step.SendReserve? || step.SendCommit? || step.SendVoid? {
      SendCallOk(s, step);
    } else {
      assert CallOk(s.calls[step.p], ViewOf(s, step.p), step.p);
      assert ViewOf(Apply(s, step), step.p) == ViewOf(s, step.p);
    }
  }

  lemma LocalBacked(s: State, step: Step)
    requires CallsOk(s) && SuccessBacked(s) && Enabled(s, step) && Local(step)
    ensures SuccessBacked(Apply(s, step))
  {
    var t, p := Apply(s, step), step.p;
    assert CallOk(s.calls[p], ViewOf(s, p), p);
    if step.Store? && s.calls[p].pc == Finished(Success) {
      assert s.calls[p].req.key == s.calls[p].req.key && p in s.ledger.transfers && s.ledger.transfers[p].status == Posted;
      assert Backed(s, s.calls[p].req.key);
    }
    LocalFrame(s, step);
    FrameBacked(s, t);
  }

  lemma DeliverCallOk(s: State, m: Msg, refuse: bool)
    requires CallsOk(s) && Enabled(s, Deliver(m, refuse))
    ensures var t := Apply(s, Deliver(m, refuse)); CallOk(t.calls[m.id], ViewOf(t, m.id), m.id)
  {
    var p := m.id;
    var v, v' := ViewOf(s, p), ViewOf(Apply(s, Deliver(m, refuse)), p);
    assert CallOk(s.calls[p], v, p);
    assert m in v.net && v'.net == v.net - {m};
  }

  /** What is posted stays posted. */
  lemma PostedStays(l: Ledger, m: Msg, req: Request, q: nat)
    requires Effective(l, m, req, false) && q in l.transfers && l.transfers[q].status == Posted
    ensures var l' := Execute(l, m, req); q in l'.transfers && l'.transfers[q].status == Posted
  {}

  lemma DeliverKeepsBacked(s: State, m: Msg, refuse: bool, k: string)
    requires Enabled(s, Deliver(m, refuse)) && Backed(s, k)
    ensures Backed(Apply(s, Deliver(m, refuse)), k)
  {
    var t, req := Apply(s, Deliver(m, refuse)), s.calls[m.id].req;
    var q :| 0 <= q < |s.calls| && s.calls[q].req.key == k && q in s.ledger.transfers && s.ledger.transfers[q].status == Posted;
    if Effective(s.ledger, m, req, refuse) {
      PostedStays(s.ledger, m, req, q);
    }
    assert t.calls[q].req.key == k && q in t.ledger.transfers && t.ledger.transfers[q].status == Posted;
  }

  lemma DeliverBacked(s: State, m: Msg, refuse: bool)
    requires SuccessBacked(s) && Enabled(s, Deliver(m, refuse))
    ensures SuccessBacked(Apply(s, Deliver(m, refuse)))
  {
    forall k | Backed(s, k) ensures Backed(Apply(s, Deliver(m, refuse)), k) {
      DeliverKeepsBacked(s, m, refuse, k);
    }
  }

  lemma DeliverLedgerOk(s: State, m: Msg, refuse: bool)
    requires LedgerOk(s) && TimersOk(s) && Enabled(s, Deliver(m, refuse))
    ensures LedgerOk(Apply(s, Deliver(m, refuse))) && TimersOk(Apply(s, Deliver(m, refuse)))
  {}

  lemma DeliverInv(s: State, m: Msg, refuse: bool)
    requires Inv(s) && Enabled(s, Deliver(m, refuse))
    ensures Inv(Apply(s, Deliver(m, refuse)))
  {
    DeliverCalls(s, m, refuse);
    DeliverBacked(s, m, refuse);
    DeliverLedgerOk(s, m, refuse);
  }

  lemma DeliverCalls(s: State, m: Msg, refuse: bool)
    requires CallsOk(s) && Enabled(s, Deliver(m, refuse))
    ensures CallsOk(Apply(s, Deliver(m, refuse)))
  {
    var t := Apply(s, Deliver(m, refuse));
    forall q | 0 <= q < |s.calls| && q != m.id ensures ViewOf(t, q) == ViewOf(s, q) {}
    DeliverCallOk(s, m, refuse);
    FrameCalls(s, t, m.id);
  }

  lemma DropInv(s: State, m: Msg)
    requires Inv(s) && Enabled(s, Drop(m))
    ensures Inv(Apply(s, Drop(m)))
  {
    var t := Apply(s, Drop(m));
    forall q | 0 <= q < |t.calls| ensures CallOk(t.calls[q], ViewOf(t, q), q) {
      assert CallOk(s.calls[q], ViewOf(s, q), q);
      assert ViewOf(t, q) == ViewOf(s, q).(net := ViewOf(s, q).net - {m});
    }
    FrameBacked(s, t);
  }

  lemma StepKeepsInv(s: State, step: Step)
    requires Inv(s) && Enabled(s, step)
    ensures Inv(Apply(s, step)) && Funds(Apply(s, step).ledger) == Funds(s.ledger)
  {
    match step
    case Invoke(req) => InvokeInv(s, req);
    case Deliver(m, refuse) =>
      DeliverInv(s, m, refuse);
      if Effective(s.ledger, m, s.calls[m.id].req, refuse) {
        ExecuteConserves(s.ledger, m, s.calls[m.id].req);
      }
    case Drop(m) => DropInv(s, m);
    case _ => LocalInv(s, step);
  }
}
