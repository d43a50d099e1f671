/**
 The in-memory double-entry ledger. Amounts are whole units of 10^-8. The decimal library's
 addition and subtraction are parameters: all that is assumed of them is that they are exact
 below 2^96 units, and every theorem over runs keeps within that range.
 */
module Ledger {
  import opened Sums
  import opened Wrappers

  datatype Error = NotFound | Duplicate | SelfTransfer | ZeroAmount | CurrencyMismatch | InsufficientFunds | AmountOverflow

  const LIMIT: nat := 0x1_0000_0000_0000_0000_0000_0000

  /** The decimal library; `None` is overflow. */
  datatype Arith = Arith(add: (nat, nat) -> Option<nat>, sub: (nat, nat) -> Option<nat>)

  ghost predicate Exact(ar: Arith) {
    && (forall a: nat, b: nat :: a + b < LIMIT ==> ar.add(a, b) == Some(a + b))
    && (forall a: nat, b: nat :: b <= a < LIMIT ==> ar.sub(a, b) == Some(a - b))
  }

  // ---- Amounts and accounts ----

  datatype Amount = Amount(units: nat, currency: nat)

  function CheckedAdd(ar: Arith, a: Amount, b: Amount): Result<Amount, Error> {
    if a.currency != b.currency then Err(CurrencyMismatch)
    else match ar.add(a.units, b.units)
         case None => Err(AmountOverflow)
         case Some(u) => Ok(Amount(u, a.currency))
  }

  function CheckedSub(ar: Arith, a: Amount, b: Amount): Result<Amount, Error> {
    if a.currency != b.currency then Err(CurrencyMismatch)
    else if b.units > a.units then Err(InsufficientFunds)
    else match ar.sub(a.units, b.units)
         case None => Err(AmountOverflow)
         case Some(u) => Ok(Amount(u, a.currency))
  }

  datatype Account = Account(id: nat, currency: nat, noOverdraft: bool, debits: Amount, credits: Amount)

  function NewAccount(id: nat, currency: nat, noOverdraft: bool): Account {
    Account(id, currency, noOverdraft, Amount(0, currency), Amount(0, currency))
  }

  function Balance(ar: Arith, a: Account): Result<Amount, Error> {
    match CheckedSub(ar, a.credits, a.debits)
    case Ok(b) => Ok(b)
    case Err(_) => Err(AmountOverflow)
  }

  predicate CanDebit(ar: Arith, a: Account, amount: Amount) {
    !a.noOverdraft || (Balance(ar, a).Ok? && Balance(ar, a).value.units >= amount.units)
  }

  datatype Transfer = Transfer(id: nat, debit: nat, credit: nat, amount: Amount)

  /** `validate_transfer`: the first rule broken. */
  function Violation(ar: Arith, t: Transfer, d: Account, c: Account): Option<Error> {
    if t.debit == t.credit then Some(SelfTransfer)
    else if t.amount.units == 0 then Some(ZeroAmount)
    else if t.amount.currency != d.currency then Some(CurrencyMismatch)
    else if t.amount.currency != c.currency then Some(CurrencyMismatch)
    else if !CanDebit(ar, d, t.amount) then Some(InsufficientFunds)
    else None
  }

  // ---- The book ----

  datatype Book = Book(accounts: map<nat, Account>, transfers: map<nat, Transfer>)

  datatype Posting = Posting(book: Book, result: Result<nat, Error>)

  function OpenAccount(book: Book, a: Account): Posting {
    if a.id in book.accounts then Posting(book, Err(Duplicate))
    else Posting(book.(accounts := book.accounts[a.id := a]), Ok(a.id))
  }

  /** Validate, post the debit, post the credit, record. An overflow on the credit side leaves the
      debit posted. */
  function Post(ar: Arith, book: Book, t: Transfer): Posting {
    if t.debit !in book.accounts || t.credit !in book.accounts then Posting(book, Err(NotFound))
    else
      var d, c := book.accounts[t.debit], book.accounts[t.credit];
      match Violation(ar, t, d, c)
      case Some(e) => Posting(book, Err(e))
      case None =>
        match CheckedAdd(ar, d.debits, t.amount)
        case Err(e) => Posting(book, Err(e))
        case Ok(debits) =>
          var half := book.accounts[t.debit := d.(debits := debits)];
          match CheckedAdd(ar, c.credits, t.amount)
          case Err(e) => Posting(book.(accounts := half), Err(e))
          case Ok(credits) =>
            Posting(Book(half[t.credit := c.(credits := credits)], book.transfers[t.id := t]), Ok(t.id))
  }

  class InMemoryLedger {
    var accounts: map<nat, Account>
    var transfers: map<nat, Transfer>

    ghost function Abs(): Book
      reads this
    {
      Book(accounts, transfers)
    }

    constructor ()
      ensures Abs() == Book(map[], map[])
    {
      accounts, transfers := map[], map[];
    }

    method CreateAccount(a: Account) returns (r: Result<nat, Error>)
      modifies this
      ensures Posting(Abs(), r) == OpenAccount(old(Abs()), a)
      ensures r == if a.id in old(accounts) then Err(Duplicate) else Ok(a.id)
    {
      if a.id in accounts {
        return Err(Duplicate);
      }
      accounts := accounts[a.id := a];
      r := Ok(a.id);
    }

    method CreateTransfer(ar: Arith, t: Transfer) returns (r: Result<nat, Error>)
      modifies this
      ensures Posting(Abs(), r) == Post(ar, old(Abs()), t)
      ensures transfers == if r.Ok? then old(transfers)[t.id := t] else old(transfers)
    {
      if t.debit !in accounts || t.credit !in accounts {
        return Err(NotFound);
      }
      var d := accounts[t.debit];
      var c := accounts[t.credit];
      var violation := Violation(ar, t, d, c);
      if violation.Some? {
        return Err(violation.value);
      }
      var debits := CheckedAdd(ar, d.debits, t.amount);
      if debits.Err? {
        return Err(debits.error);
      }
      accounts := accounts[t.debit := d.(debits := debits.value)];
      var credits := CheckedAdd(ar, accounts[t.credit].credits, t.amount);
      if credits.Err? {
        return Err(credits.error);
      }
      accounts := accounts[t.credit := accounts[t.credit].(credits := credits.value)];
      transfers := transfers[t.id := t];
      r := Ok(t.id);
    }
  }

  // ---- What a call answers ----

  /** The debited account's balance covers the amount. */
  ghost predicate CanPay(ar: Arith, d: Account, units: nat) {
    && d.credits.currency == d.debits.currency && d.debits.units <= d.credits.units
    && ar.sub(d.credits.units, d.debits.units).Some? && ar.sub(d.credits.units, d.debits.units).value >= units
  }

  /** The checks in their order, each with its own error, and both additions; nothing else refuses. */
  lemma AnswerSpelledOut(ar: Arith, book: Book, t: Transfer)
    ensures var r := Post(ar, book, t).result;
            if t.debit !in book.accounts || t.credit !in book.accounts then r == Err(NotFound)
            else
              var d, c := book.accounts[t.debit], book.accounts[t.credit];
              if t.debit == t.credit then r == Err(SelfTransfer)
              else if t.amount.units == 0 then r == Err(ZeroAmount)
              else if t.amount.currency != d.currency || t.amount.currency != c.currency then r == Err(CurrencyMismatch)
              else if d.noOverdraft && !CanPay(ar, d, t.amount.units) then r == Err(InsufficientFunds)
              else if d.debits.currency != t.amount.currency then r == Err(CurrencyMismatch)
              else if ar.add(d.debits.units, t.amount.units).None? then r == Err(AmountOverflow)
              else if c.credits.currency != t.amount.currency then r == Err(CurrencyMismatch)
              else if ar.add(c.credits.units, t.amount.units).None? then r == Err(AmountOverflow)
              else r == Ok(t.id)
  {}

  /** In the exact range a transfer goes through if and only if both accounts exist and differ, the amount
      is positive and of both their currencies, and a protected source can pay it. */
  lemma AcceptedIff(ar: Arith, book: Book, t: Transfer)
    requires Exact(ar)
    requires forall id :: id in book.accounts ==>
               var a := book.accounts[id];
               && a.debits.currency == a.credits.currency == a.currency
               && a.debits.units + t.amount.units < LIMIT && a.credits.units + t.amount.units < LIMIT
    ensures Post(ar, book, t).result.Ok? <==>
              && t.debit in book.accounts && t.credit in book.accounts && t.debit != t.credit && t.amount.units > 0
              && t.amount.currency == book.accounts[t.debit].currency == book.accounts[t.credit].currency
              && (book.accounts[t.debit].noOverdraft ==>
                    book.accounts[t.debit].debits.units + t.amount.units <= book.accounts[t.debit].credits.units)
  {
    AnswerSpelledOut(ar, book, t);
  }

  /** A transfer is recorded exactly when it goes through. */
  lemma RecordedIffOk(ar: Arith, book: Book, t: Transfer)
    ensures var p := Post(ar, book, t);
            p.book.transfers == if p.result.Ok? then book.transfers[t.id := t] else book.transfers
  {}

  /** A known id is a duplicate, and nothing changes; any other account is added. */
  lemma OpenSpelledOut(book: Book, a: Account)
    ensures a.id in book.accounts ==> OpenAccount(book, a) == Posting(book, Err(Duplicate))
    ensures a.id !in book.accounts ==>
              && OpenAccount(book, a).result == Ok(a.id) && OpenAccount(book, a).book.transfers == book.transfers
              && OpenAccount(book, a).book.accounts.Keys == book.accounts.Keys + {a.id}
              && forall id :: id in OpenAccount(book, a).book.accounts ==>
                   OpenAccount(book, a).book.accounts[id] == if id == a.id then a else book.accounts[id]
  {}

  // ---- When a failed call changes a balance ----

  /** The credit side overflows although everything before it passed. */
  predicate CreditOverflows(ar: Arith, book: Book, t: Transfer) {
    && t.debit in book.accounts && t.credit in book.accounts
    && Violation(ar, t, book.accounts[t.debit], book.accounts[t.credit]).None?
    && CheckedAdd(ar, book.accounts[t.debit].debits, t.amount).Ok?
    && CheckedAdd(ar, book.accounts[t.credit].credits, t.amount).Err?
  }

  /** A failed transfer leaves a trace exactly when the credit overflows after a debit that changed the
      total was posted: then the debit stays, the credit side is untouched and no transfer is
      recorded. */
  lemma FailureLeavesHalfPosted(ar: Arith, book: Book, t: Transfer)
    requires Post(ar, book, t).result.Err?
    ensures Post(ar, book, t).book != book <==>
              CreditOverflows(ar, book, t)
              && CheckedAdd(ar, book.accounts[t.debit].debits, t.amount).value != book.accounts[t.debit].debits
    ensures CreditOverflows(ar, book, t) ==>
              var d := book.accounts[t.debit];
              Post(ar, book, t).book
              == book.(accounts := book.accounts[t.debit := d.(debits := CheckedAdd(ar, d.debits, t.amount).value)])
  {
    if CreditOverflows(ar, book, t) {
      var d := book.accounts[t.debit];
      assert Post(ar, book, t).book.accounts[t.debit].debits == CheckedAdd(ar, d.debits, t.amount).value;
      assert d.(debits := d.debits) == d;
      assert book.accounts[t.debit := d] == book.accounts;
    }
  }

  // ---- Runs ----

  datatype Call = Open(id: nat, currency: nat, noOverdraft: bool) | Send(t: Transfer)

  function Do(ar: Arith, book: Book, call: Call): Posting {
    match call
    case Open(id, currency, flag) => OpenAccount(book, NewAccount(id, currency, flag))
    case Send(t) => Post(ar, book, t)
  }

  /** Book and committed transfers after a run of calls. */
  datatype History = History(book: Book, log: seq<Transfer>)

  function Exec(ar: Arith, calls: seq<Call>): History {
    if calls == [] then History(Book(map[], map[]), [])
    else
      var h, call := Exec(ar, calls[..|calls| - 1]), calls[|calls| - 1];
      var p := Do(ar, h.book, call);
      History(p.book, if call.Send? && p.result.Ok? then h.log + [call.t] else h.log)
  }

  /** Everything submitted, whether or not it went through. */
  function Submitted(calls: seq<Call>): nat {
    if calls == [] then 0
    else Submitted(calls[..|calls| - 1]) + (if calls[|calls| - 1].Send? then calls[|calls| - 1].t.amount.units else 0)
  }

  /** Debits the committed transfers put on account `id`. */
  function DebitsOf(log: seq<Transfer>, id: nat): nat {
    if log == [] then 0
    else var t := log[|log| - 1];
         DebitsOf(log[..|log| - 1], id) + (if t.debit == id then t.amount.units else 0)
  }

  function CreditsOf(log: seq<Transfer>, id: nat): nat {
    if log == [] then 0
    else var t := log[|log| - 1];
         CreditsOf(log[..|log| - 1], id) + (if t.credit == id then t.amount.units else 0)
  }

  ghost function DebitsIn(accounts: map<nat, Account>, currency: nat): map<nat, int> {
    map id | id in accounts :: if accounts[id].currency == currency then accounts[id].debits.units else 0
  }

  ghost function CreditsIn(accounts: map<nat, Account>, currency: nat): map<nat, int> {
    map id | id in accounts :: if accounts[id].currency == currency then accounts[id].credits.units else 0
  }

  ghost predicate AccountOk(a: Account, id: nat, log: seq<Transfer>) {
    && a.id == id && a.debits.currency == a.credits.currency == a.currency
    && a.debits.units == DebitsOf(log, id) && a.credits.units == CreditsOf(log, id)
    && (a.noOverdraft ==> a.debits.units <= a.credits.units)
  }

  ghost predicate HistoryOk(h: History, spent: nat) {
    && (forall id :: id in h.book.accounts ==> AccountOk(h.book.accounts[id], id, h.log))
    && (forall id :: DebitsOf(h.log, id) <= spent && CreditsOf(h.log, id) <= spent)
    && (forall id :: id !in h.book.accounts ==> DebitsOf(h.log, id) == 0 == CreditsOf(h.log, id))
    && (forall c :: Sum(DebitsIn(h.book.accounts, c)) == Sum(CreditsIn(h.book.accounts, c)))
  }

  lemma OpenOk(h: History, spent: nat, a: Account)
    requires HistoryOk(h, spent) && a == NewAccount(a.id, a.currency, a.noOverdraft)
    ensures HistoryOk(h.(book := OpenAccount(h.book, a).book), spent)
  {
    if a.id !in h.book.accounts {
      var accounts := h.book.accounts[a.id := a];
      forall c ensures Sum(DebitsIn(accounts, c)) == Sum(CreditsIn(accounts, c)) {
        assert DebitsIn(accounts, c) == DebitsIn(h.book.accounts, c)[a.id := 0];
        assert CreditsIn(accounts, c) == CreditsIn(h.book.accounts, c)[a.id := 0];
        SumUpdate(DebitsIn(h.book.accounts, c), a.id, 0);
        SumUpdate(CreditsIn(h.book.accounts, c), a.id, 0);
      }
    }
  }

  /** Below the limit a transfer that has any effect posts both sides in full. */
  lemma PostSucceeds(ar: Arith, h: History, spent: nat, t: Transfer)
    requires Exact(ar) && HistoryOk(h, spent) && spent + t.amount.units < LIMIT
    requires Post(ar, h.book, t).book != h.book || Post(ar, h.book, t).result.Ok?
    ensures Post(ar, h.book, t).result == Ok(t.id)
    ensures t.debit in h.book.accounts && t.credit in h.book.accounts && t.debit != t.credit
    ensures var d, c := h.book.accounts[t.debit], h.book.accounts[t.credit];
            && d.currency == c.currency == t.amount.currency
            && (d.noOverdraft ==> d.debits.units + t.amount.units <= d.credits.units)
            && Post(ar, h.book, t).book.accounts
               == h.book.accounts[t.debit := d.(debits := Amount(d.debits.units + t.amount.units, d.currency))]
                                 [t.credit := c.(credits := Amount(c.credits.units + t.amount.units, c.currency))]
  {
    var d, c := h.book.accounts[t.debit], h.book.accounts[t.credit];
    assert AccountOk(d, t.debit, h.log) && AccountOk(c, t.credit, h.log);
    assert DebitsOf(h.log, t.debit) <= spent && CreditsOf(h.log, t.credit) <= spent;
    assert CreditsOf(h.log, t.debit) <= spent;
  }

  lemma FoldGrows(log: seq<Transfer>, t: Transfer, id: nat)
    ensures DebitsOf(log + [t], id) == DebitsOf(log, id) + (if t.debit == id then t.amount.units else 0)
    ensures CreditsOf(log + [t], id) == CreditsOf(log, id) + (if t.credit == id then t.amount.units else 0)
  {
    assert (log + [t])[..|log|] == log;
  }

  lemma BothSidesEqual(accounts: map<nat, Account>, t: Transfer, d: Account, c: Account, cur: nat)
    requires t.debit in accounts && t.credit in accounts && t.debit != t.credit
    requires accounts[t.debit].currency == accounts[t.credit].currency
    requires d == accounts[t.debit].(debits := Amount(accounts[t.debit].debits.units + t.amount.units, d.currency))
    requires c == accounts[t.credit].(credits := Amount(accounts[t.credit].credits.units + t.amount.units, c.currency))
    requires Sum(DebitsIn(accounts, cur)) == Sum(CreditsIn(accounts, cur))
    ensures var after := accounts[t.debit := d][t.credit := c];
            Sum(DebitsIn(after, cur)) == Sum(CreditsIn(after, cur))
  {
    var after := accounts[t.debit := d][t.credit := c];
    var dm, cm := DebitsIn(accounts, cur), CreditsIn(accounts, cur);
    var dv := if d.currency == cur then d.debits.units else 0;
    var cv := if c.currency == cur then c.credits.units else 0;
    assert DebitsIn(after, cur) == dm[t.debit := dv];
    assert CreditsIn(after, cur) == cm[t.credit := cv];
    SumUpdate(dm, t.debit, dv);
    SumUpdate(cm, t.credit, cv);
  }

  /** The committed transfer is in the folds of its two accounts and in no other. */
  lemma CommitFolds(h: History, spent: nat, t: Transfer)
    requires HistoryOk(h, spent) && t.debit in h.book.accounts && t.credit in h.book.accounts
    ensures forall id :: DebitsOf(h.log + [t], id) <= spent + t.amount.units && CreditsOf(h.log + [t], id) <= spent + t.amount.units
    ensures forall id :: id !in h.book.accounts ==> DebitsOf(h.log + [t], id) == 0 == CreditsOf(h.log + [t], id)
  {
    forall id
      ensures DebitsOf(h.log + [t], id) <= spent + t.amount.units && CreditsOf(h.log + [t], id) <= spent + t.amount.units
      ensures id !in h.book.accounts ==> DebitsOf(h.log + [t], id) == 0 == CreditsOf(h.log + [t], id)
    {
      FoldGrows(h.log, t, id);
    }
  }

  lemma CommitAccount(ar: Arith, h: History, spent: nat, t: Transfer, id: nat)
    requires Exact(ar) && HistoryOk(h, spent) && spent + t.amount.units < LIMIT && Post(ar, h.book, t).result.Ok?
    requires id in Post(ar, h.book, t).book.accounts
    ensures AccountOk(Post(ar, h.book, t).book.accounts[id], id, h.log + [t])
  {
    PostSucceeds(ar, h, spent, t);
    FoldGrows(h.log, t, id);
    assert AccountOk(h.book.accounts[id], id, h.log);
  }

  lemma CommitOk(ar: Arith, h: History, spent: nat, t: Transfer)
    requires Exact(ar) && HistoryOk(h, spent) && spent + t.amount.units < LIMIT && Post(ar, h.book, t).result.Ok?
    ensures HistoryOk(History(Post(ar, h.book, t).book, h.log + [t]), spent + t.amount.units)
  {
    PostSucceeds(ar, h, spent, t);
    CommitFolds(h, spent, t);
    var after := Post(ar, h.book, t).book.accounts;
    forall id | id in after ensures AccountOk(after[id], id, h.log + [t]) {
      CommitAccount(ar, h, spent, t, id);
    }
    forall cur ensures Sum(DebitsIn(after, cur)) == Sum(CreditsIn(after, cur)) {
      BothSidesEqual(h.book.accounts, t, after[t.debit], after[t.credit], cur);
    }
  }

  lemma {:induction false} RunOk(ar: Arith, calls: seq<Call>)
    requires Exact(ar) && Submitted(calls) < LIMIT
    ensures HistoryOk(Exec(ar, calls), Submitted(calls))
    decreases |calls|
  {
    if calls == [] {
      var none: map<nat, Account> := map[];
      forall c ensures Sum(DebitsIn(none, c)) == Sum(CreditsIn(none, c)) {
        assert DebitsIn(none, c) == CreditsIn(none, c);
      }
    } else {
      var front, call := calls[..|calls| - 1], calls[|calls| - 1];
      RunOk(ar, front);
      var h := Exec(ar, front);
      match call
      case Open(id, currency, flag) => OpenOk(h, Submitted(front), NewAccount(id, currency, flag));
      case Send(t) =>
        if Post(ar, h.book, t).result.Ok? {
          CommitOk(ar, h, Submitted(front), t);
        } else if Post(ar, h.book, t).book != h.book {
          PostSucceeds(ar, h, Submitted(front), t);
        }
    }
  }

  /** Over every run: per currency the debits posted equal the credits posted, every account's
      totals are the committed transfers that name it, and a protected account is never overdrawn. */
  lemma BooksBalance(ar: Arith, calls: seq<Call>, currency: nat, id: nat)
    requires Exact(ar) && Submitted(calls) < LIMIT
    ensures var h := Exec(ar, calls);
            && Sum(DebitsIn(h.book.accounts, currency)) == Sum(CreditsIn(h.book.accounts, currency))
            && (id in h.book.accounts ==>
                  && h.book.accounts[id].debits.units == DebitsOf(h.log, id)
                  && h.book.accounts[id].credits.units == CreditsOf(h.log, id)
                  && (h.book.accounts[id].noOverdraft ==> h.book.accounts[id].debits.units <= h.book.accounts[id].credits.units))
  {
    RunOk(ar, calls);
    var h := Exec(ar, calls);
    if id in h.book.accounts {
      assert AccountOk(h.book.accounts[id], id, h.log);
    }
  }

  /** Over every run, a call that fails changes nothing. */
  lemma FailedCallChangesNothing(ar: Arith, calls: seq<Call>, call: Call)
    requires Exact(ar) && Submitted(calls + [call]) < LIMIT
    ensures var h := Exec(ar, calls); Do(ar, h.book, call).result.Err? ==> Do(ar, h.book, call).book == h.book
  {
    assert (calls + [call])[..|calls|] == calls;
    RunOk(ar, calls);
    var h := Exec(ar, calls);
    if call.Send? && Do(ar, h.book, call).book != h.book {
      PostSucceeds(ar, h, Submitted(calls), call.t);
    }
  }

  // ---- The record of transfers ----

  /** The last committed transfer with an id is at position `k`. */
  ghost predicate LastWithId(log: seq<Transfer>, id: nat, k: nat) {
    k < |log| && log[k].id == id && forall j :: k < j < |log| ==> log[j].id != id
  }

  /** Under each id, the last transfer of the log with it, and nothing else. */
  ghost predicate IsRecordOf(ts: map<nat, Transfer>, log: seq<Transfer>) {
    && (forall id: nat :: id in ts <==> exists k :: 0 <= k < |log| && log[k].id == id)
    && forall id: nat, k: nat :: LastWithId(log, id, k) ==> id in ts && ts[id] == log[k]
  }

  lemma LogGrows(ts: map<nat, Transfer>, log: seq<Transfer>, t: Transfer)
    requires IsRecordOf(ts, log)
    ensures IsRecordOf(ts[t.id := t], log + [t])
  {
    var ts', log' := ts[t.id := t], log + [t];
    forall id: nat ensures id in ts' <==> exists k :: 0 <= k < |log'| && log'[k].id == id {
      if id == t.id {
        assert log'[|log|].id == id;
      } else if id in ts {
        var k :| 0 <= k < |log| && log[k].id == id;
        assert log'[k].id == id;
      }
    }
    forall id: nat, k: nat | LastWithId(log', id, k) ensures id in ts' && ts'[id] == log'[k] {
      assert log'[|log|] == t;
      if k < |log| {
        assert LastWithId(log, id, k) by {
          forall j | k < j < |log| ensures log[j].id != id {
            assert log'[j] == log[j];
          }
        }
      }
    }
  }

  /** Over every run, whatever its amounts, the record holds exactly the last committed transfer under
      each id. */
  lemma {:induction false} RecordIsLog(ar: Arith, calls: seq<Call>)
    ensures IsRecordOf(Exec(ar, calls).book.transfers, Exec(ar, calls).log)
    decreases |calls|
  {
    if calls != [] {
      var front, call := calls[..|calls| - 1], calls[|calls| - 1];
      RecordIsLog(ar, front);
      var h := Exec(ar, front);
      if call.Send? && Post(ar, h.book, call.t).result.Ok? {
        LogGrows(h.book.transfers, h.log, call.t);
      }
    }
  }

  // ---- A run that ends half posted ----

  /** Whole currency units, and the largest amount the 96-bit decimal can hold, both in 10^-8. */
  const WHOLE: nat := 100_000_000
  const LARGEST: nat := (LIMIT - 1) * WHOLE

  /** The decimal library on whole amounts: exact up to its largest value. */
  function WholeArith(): Arith {
    Arith((a, b) => if a + b <= LARGEST then Some(a + b) else None, (a, b) => if b <= a then Some(a - b) else None)
  }

  /** Opening three accounts. */
  lemma ThreeAccounts(ar: Arith, currency: nat) returns (calls: seq<Call>)
    ensures Exec(ar, calls) == History(Book(map[1 := NewAccount(1, currency, false), 2 := NewAccount(2, currency, false),
                                                3 := NewAccount(3, currency, false)], map[]), [])
    ensures forall i :: 0 <= i < |calls| ==> calls[i].Open?
  {
    var c1 := [Open(1, currency, false)];
    var c2 := c1 + [Open(2, currency, false)];
    calls := c2 + [Open(3, currency, false)];
    assert c1[..0] == [] && c2[..1] == c1 && calls[..2] == c2;
    var a1, a2, a3 := NewAccount(1, currency, false), NewAccount(2, currency, false), NewAccount(3, currency, false);
    assert Exec(ar, c1) == History(Book(map[1 := a1], map[]), []);
    assert Exec(ar, c2) == History(Book(map[1 := a1, 2 := a2], map[]), []);
    assert Exec(ar, calls).book.accounts == map[1 := a1, 2 := a2, 3 := a3];
  }

  /** What `Amount::new` accepts: amounts below half of the largest. */
  predicate Admissible(a: Amount) {
    2 * a.units < LARGEST
  }

  /** Two large transfers nearly fill the credit side of the second account. */
  lemma NearlyFull(currency: nat) returns (calls: seq<Call>)
    ensures forall i :: 0 <= i < |calls| && calls[i].Send? ==> Admissible(calls[i].t.amount)
    ensures var h, half := Exec(WholeArith(), calls), (LIMIT / 2 - 2) * WHOLE;
            && |h.log| == 2 && h.book.accounts.Keys == {1, 2, 3}
            && h.book.accounts[2] == NewAccount(2, currency, false).(credits := Amount(2 * half, currency))
            && h.book.accounts[3] == NewAccount(3, currency, false)
  {
    var ar, half := WholeArith(), Amount((LIMIT / 2 - 2) * WHOLE, currency);
    var both := Amount(2 * half.units, currency);
    var front := ThreeAccounts(ar, currency);
    var t1, t2 := Transfer(1, 1, 2, half), Transfer(2, 1, 2, half);
    ExecSend(ar, front, t1);
    ExecSend(ar, front + [Send(t1)], t2);
    assert CheckedAdd(ar, Amount(0, currency), half) == Ok(half) && CheckedAdd(ar, half, half) == Ok(both);
    calls := front + [Send(t1)] + [Send(t2)];
  }

  /** Send it a little more from the third account: the call fails and leaves the third account debited
      with nothing credited. Every amount sent is one the code accepts. */
  lemma HalfPostedRun(currency: nat) returns (calls: seq<Call>, t: Transfer)
    ensures forall i :: 0 <= i < |calls| && calls[i].Send? ==> Admissible(calls[i].t.amount)
    ensures var ar := WholeArith(); var h := Exec(ar, calls);
            && Exact(ar) && Admissible(t.amount) && t.amount.units > 0
            && Post(ar, h.book, t).result == Err(AmountOverflow) && CreditOverflows(ar, h.book, t)
            && h.book.accounts[t.debit].debits.units == 0
            && Post(ar, h.book, t).book.accounts[t.debit].debits.units == t.amount.units
            && Post(ar, h.book, t).book.accounts[t.credit] == h.book.accounts[t.credit]
  {
    calls := NearlyFull(currency);
    t := Transfer(3, 3, 2, Amount(4 * WHOLE, currency));
    OverfullPost(Exec(WholeArith(), calls).book, t);
  }

  lemma OverfullPost(book: Book, t: Transfer)
    requires t.debit in book.accounts && t.credit in book.accounts && t.debit != t.credit && 0 < t.amount.units <= LARGEST
    requires var d, c := book.accounts[t.debit], book.accounts[t.credit];
             && d == NewAccount(t.debit, t.amount.currency, false)
             && c.currency == c.credits.currency == t.amount.currency && c.credits.units + t.amount.units > LARGEST
    ensures var p := Post(WholeArith(), book, t);
            && p.result == Err(AmountOverflow) && CreditOverflows(WholeArith(), book, t)
            && p.book.accounts[t.debit].debits.units == t.amount.units
            && p.book.accounts[t.credit] == book.accounts[t.credit]
  {
    var ar, d, c := WholeArith(), book.accounts[t.debit], book.accounts[t.credit];
    assert CheckedAdd(ar, d.debits, t.amount) == Ok(t.amount);
    assert CheckedAdd(ar, c.credits, t.amount) == Err(AmountOverflow);
  }

  /** There is no duplicate check: a transfer that went through goes through again, under the same id,
      exactly when the debited account is unprotected or can pay it twice. */
  lemma ResendMovesAgain(ar: Arith, calls: seq<Call>, t: Transfer)
    requires Exact(ar) && Submitted(calls + [Send(t)] + [Send(t)]) < LIMIT
    requires Post(ar, Exec(ar, calls).book, t).result.Ok?
    ensures t.debit in Exec(ar, calls).book.accounts
    ensures var h, h' := Exec(ar, calls), Exec(ar, calls + [Send(t)] + [Send(t)]);
            var d := h.book.accounts[t.debit];
            if d.noOverdraft && d.credits.units < d.debits.units + 2 * t.amount.units
            then h' == Exec(ar, calls + [Send(t)])
            else && h'.log == h.log + [t, t]
                 && DebitsOf(h'.log, t.debit) == DebitsOf(h.log, t.debit) + 2 * t.amount.units
  {
    var h := Exec(ar, calls);
    var h1 := Exec(ar, calls + [Send(t)]);
    ExecSend(ar, calls, t);
    ExecSend(ar, calls + [Send(t)], t);
    RunOk(ar, calls);
    CommitOk(ar, h, Submitted(calls), t);
    SecondSend(ar, h, h1, Submitted(calls), t);
    TwiceDebited(h.log, t);
  }

  lemma ExecSend(ar: Arith, calls: seq<Call>, t: Transfer)
    ensures var h := Exec(ar, calls); var p := Post(ar, h.book, t);
            Exec(ar, calls + [Send(t)]) == History(p.book, if p.result.Ok? then h.log + [t] else h.log)
    ensures Submitted(calls + [Send(t)]) == Submitted(calls) + t.amount.units
  {
    assert (calls + [Send(t)])[..|calls|] == calls;
  }

  lemma TwiceDebited(log: seq<Transfer>, t: Transfer)
    ensures log + [t] + [t] == log + [t, t]
    ensures DebitsOf(log + [t, t], t.debit) == DebitsOf(log, t.debit) + 2 * t.amount.units
  {
    FoldGrows(log, t, t.debit);
    FoldGrows(log + [t], t, t.debit);
    assert log + [t] + [t] == log + [t, t];
  }

  /** With totals in the exact range only the overdraft check can refuse a transfer between two accounts
      of its currency. */
  lemma OnlyOverdraftRefuses(ar: Arith, book: Book, t: Transfer)
    requires Exact(ar) && t.debit in book.accounts && t.credit in book.accounts && t.debit != t.credit
    requires var d, c, u := book.accounts[t.debit], book.accounts[t.credit], t.amount.units;
             && u > 0 && d.debits.units + u < LIMIT && c.credits.units + u < LIMIT && d.credits.units < LIMIT
             && d.currency == d.debits.currency == d.credits.currency == t.amount.currency
             && c.currency == c.credits.currency == t.amount.currency
    ensures var d, p := book.accounts[t.debit], Post(ar, book, t);
            if d.noOverdraft && d.credits.units < d.debits.units + t.amount.units
            then p.result.Err? && p.book == book else p.result.Ok?
  {
    var d := book.accounts[t.debit];
    if d.noOverdraft && d.debits.units <= d.credits.units {
      assert Balance(ar, d) == Ok(Amount(d.credits.units - d.debits.units, d.currency));
    }
  }

  lemma SecondSend(ar: Arith, h: History, h1: History, spent: nat, t: Transfer)
    requires Exact(ar) && HistoryOk(h, spent) && spent + 2 * t.amount.units < LIMIT
    requires Post(ar, h.book, t).result.Ok? && h1 == History(Post(ar, h.book, t).book, h.log + [t])
    requires HistoryOk(h1, spent + t.amount.units)
    ensures t.debit in h.book.accounts
    ensures var d, p := h.book.accounts[t.debit], Post(ar, h1.book, t);
            if d.noOverdraft && d.credits.units < d.debits.units + 2 * t.amount.units
            then p.result.Err? && p.book == h1.book
            else p.result.Ok?
  {
    PostSucceeds(ar, h, spent, t);
    var d, c := h1.book.accounts[t.debit], h1.book.accounts[t.credit];
    assert AccountOk(d, t.debit, h1.log) && AccountOk(c, t.credit, h1.log);
    assert DebitsOf(h1.log, t.debit) <= spent + t.amount.units && CreditsOf(h1.log, t.credit) <= spent + t.amount.units;
    assert CreditsOf(h1.log, t.debit) <= spent + t.amount.units;
    OnlyOverdraftRefuses(ar, h1.book, t);
  }
}
