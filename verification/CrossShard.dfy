/**
 The cross-shard coordinator: any number of concurrent `Execute` calls reserve funds, then commit
 or void, against one shared ledger. Requests travel as messages that may be delivered late or
 never, replies may be lost, and a caller may give up waiting at any time.
 */
module CrossShard {
  import opened Sums

  datatype Request = Request(from: nat, to: nat, amount: int, key: string)

  datatype Outcome = Success | SameShard | NoRoute | PendingFailed | CommitFailed

  // ---- The shared ledger ----

  datatype Status = Reserved | Posted | Voided

  datatype Transfer = Transfer(req: Request, status: Status)

  /** `balances` are the available funds. A transfer is named after the call that submitted it. */
  datatype Ledger = Ledger(balances: map<nat, int>, transfers: map<nat, Transfer>)

  datatype Msg = Reserve(id: nat) | Commit(id: nat) | Void(id: nat)

  datatype Reply = Accepted | Refused

  predicate CanReserve(l: Ledger, id: nat, req: Request) {
    && id !in l.transfers && req.amount > 0
    && req.from in l.balances && req.to in l.balances && l.balances[req.from] >= req.amount
  }

  /** A pending transfer can be resolved once. `refuse` is a node or ledger that declines. */
  predicate Effective(l: Ledger, m: Msg, req: Request, refuse: bool) {
    && !refuse
    && match m
       case Reserve(id) => CanReserve(l, id, req)
       case Commit(id) => id in l.transfers && l.transfers[id].status == Reserved && l.transfers[id].req.to in l.balances
       case Void(id) => id in l.transfers && l.transfers[id].status == Reserved && l.transfers[id].req.from in l.balances
  }

  function Deposit(b: map<nat, int>, a: nat, amount: int): map<nat, int>
    requires a in b
  {
    b[a := b[a] + amount]
  }

  function Execute(l: Ledger, m: Msg, req: Request): Ledger
    requires Effective(l, m, req, false)
  {
    match m
    case Reserve(id) => Ledger(Deposit(l.balances, req.from, -req.amount), l.transfers[id := Transfer(req, Reserved)])
    case Commit(id) =>
      var t := l.transfers[id];
      Ledger(Deposit(l.balances, t.req.to, t.req.amount), l.transfers[id := t.(status := Posted)])
    case Void(id) =>
      var t := l.transfers[id];
      Ledger(Deposit(l.balances, t.req.from, t.req.amount), l.transfers[id := t.(status := Voided)])
  }

  ghost function ReservedAmounts(ts: map<nat, Transfer>): map<nat, int> {
    map id | id in ts :: if ts[id].status == Reserved then ts[id].req.amount else 0
  }

  /** Available plus reserved; posted funds are available at the destination. */
  ghost function Funds(l: Ledger): int {
    Sum(l.balances) + Sum(ReservedAmounts(l.transfers))
  }

  // ---- The coordinator ----

  datatype Pc =
    | Start | Routed | AwaitPending | HasId | AwaitCommit | CommitError | AwaitVoid
    | Finished(outcome: Outcome) | Done(outcome: Outcome)

  /** `contacted`: the call has submitted its pending transfer. `timedOut`: it gave up waiting for
      the reply to its commit. */
  datatype Call = Call(req: Request, pc: Pc, contacted: bool, timedOut: bool)

  datatype State = State(ledger: Ledger, net: set<Msg>, replies: map<Msg, Reply>, calls: seq<Call>, cache: map<string, Outcome>)

  datatype Step =
    | Invoke(req: Request)
    | Check(p: nat, cross: bool, routable: bool)
    | SendReserve(p: nat) | RecvReserve(p: nat)
    | SendCommit(p: nat) | RecvCommit(p: nat)
    | SendVoid(p: nat) | RecvVoid(p: nat)
    | Timeout(p: nat)
    | Store(p: nat)
    | Deliver(m: Msg, refuse: bool)
    | Drop(m: Msg)

  function Init(balances: map<nat, int>): State {
    State(Ledger(balances, map[]), {}, map[], [], map[])
  }

  predicate At(s: State, p: nat, pc: Pc) {
    p < |s.calls| && s.calls[p].pc == pc
  }

  predicate Enabled(s: State, step: Step) {
    match step
    case Invoke(_) => true
    case Check(p, _, _) => At(s, p, Start)
    case SendReserve(p) => At(s, p, Routed)
    case RecvReserve(p) => At(s, p, AwaitPending) && Reserve(p) in s.replies
    case SendCommit(p) => At(s, p, HasId)
    case RecvCommit(p) => At(s, p, AwaitCommit) && Commit(p) in s.replies
    case SendVoid(p) => At(s, p, CommitError)
    case RecvVoid(p) => At(s, p, AwaitVoid) && Void(p) in s.replies
    case Timeout(p) => At(s, p, AwaitPending) || At(s, p, AwaitCommit) || At(s, p, AwaitVoid)
    case Store(p) => p < |s.calls| && s.calls[p].pc.Finished?
    case Deliver(m, _) => m in s.net && m.id < |s.calls|
    case Drop(m) => m in s.net
  }

  function Goto(s: State, p: nat, pc: Pc): State
    requires p < |s.calls|
  {
    s.(calls := s.calls[p := s.calls[p].(pc := pc)])
  }

  function Apply(s: State, step: Step): State
    requires Enabled(s, step)
  {
    match step
    case Invoke(req) => s.(calls := s.calls + [Call(req, Start, false, false)])
    case Check(p, cross, routable) =>
      var key := s.calls[p].req.key;
      if !cross then Goto(s, p, Done(SameShard))
      else if key in s.cache then Goto(s, p, Done(s.cache[key]))
      else if !routable then Goto(s, p, Done(NoRoute))
      else Goto(s, p, Routed)
    case SendReserve(p) =>
      s.(net := s.net + {Reserve(p)}, calls := s.calls[p := s.calls[p].(pc := AwaitPending, contacted := true)])
    case RecvReserve(p) => Goto(s, p, if s.replies[Reserve(p)] == Accepted then HasId else Finished(PendingFailed))
    case SendCommit(p) => Goto(s.(net := s.net + {Commit(p)}), p, AwaitCommit)
    case RecvCommit(p) => Goto(s, p, if s.replies[Commit(p)] == Accepted then Finished(Success) else CommitError)
    case SendVoid(p) => Goto(s.(net := s.net + {Void(p)}), p, AwaitVoid)
    case RecvVoid(p) => Goto(s, p, Finished(CommitFailed))
    case Timeout(p) =>
      var c := s.calls[p];
      if c.pc == AwaitPending then Goto(s, p, Finished(PendingFailed))
      else if c.pc == AwaitCommit then s.(calls := s.calls[p := c.(pc := CommitError, timedOut := true)])
      else Goto(s, p, Finished(CommitFailed))
    case Store(p) =>
      var o := s.calls[p].pc.outcome;
      Goto(s.(cache := s.cache[s.calls[p].req.key := o]), p, Done(o))
    case Deliver(m, refuse) =>
      var req := s.calls[m.id].req;
      var ok := Effective(s.ledger, m, req, refuse);
      s.(net := s.net - {m}, replies := s.replies[m := if ok then Accepted else Refused],
         ledger := if ok then Execute(s.ledger, m, req) else s.ledger)
    case Drop(m) => s.(net := s.net - {m})
  }

  ghost predicate Run(s: State, steps: seq<Step>, t: State)
    decreases |steps|
  {
    if steps == [] then s == t
    else Enabled(s, steps[0]) && Run(Apply(s, steps[0]), steps[1..], t)
  }

  lemma {:induction false} RunConcat(s: State, xs: seq<Step>, t: State, ys: seq<Step>, u: State)
    requires Run(s, xs, t) && Run(t, ys, u)
    ensures Run(s, xs + ys, u)
    decreases |xs|
  {
    if xs == [] {
      assert xs + ys == ys;
    } else {
      RunConcat(Apply(s, xs[0]), xs[1..], t, ys, u);
      assert (xs + ys)[0] == xs[0] && (xs + ys)[1..] == xs[1..] + ys;
    }
  }

  lemma RunCons(s: State, step: Step, rest: seq<Step>, t: State)
    requires Enabled(s, step) && Run(Apply(s, step), rest, t)
    ensures Run(s, [step] + rest, t)
  {
    assert ([step] + rest)[1..] == rest;
  }
}
