/**
 The TigerBeetle batch call and the retry loop around it: conversion failures, the scatter of a
 sparse error reply back to the caller's indices, and retries after lost replies, against a ledger
 that commits each id at most once.
 */
module LedgerBatch {
  import opened Wrappers

  /** A transfer and what `domain_transfer_to_tb` makes of it: its wire content, or nothing when it
      cannot be expressed. The id is carried over as it is. */
  datatype Transfer = Transfer(id: nat, wire: Option<nat>)

  datatype Wire = Wire(id: nat, content: nat)

  datatype Error = BadConversion | Rejected(kind: string) | Transient | NotSet

  /** What the caller is told about one transfer: its id, or what went wrong. */
  type Outcome = Result<nat, Error>

  datatype ApiError = ApiError(index: nat, kind: string)

  /** What the ledger client returns. */
  datatype Reply = AllOk | Api(errors: seq<ApiError>) | Transport

  /** The code recognises an already committed transfer by this substring of the error kind. */
  predicate SaysExist(kind: string) {
    exists i :: 0 <= i < |kind| && ExistAt(kind, i)
  }

  predicate ExistAt(kind: string, i: nat) {
    i + 5 <= |kind| && kind[i..i + 5] == "Exist"
  }

  /** That is: "Exist" occurs in it. */
  lemma SaysExistIff(kind: string)
    ensures SaysExist(kind) <==> exists a: string, z: string :: kind == a + "Exist" + z
  {
    if SaysExist(kind) {
      var i :| 0 <= i < |kind| && ExistAt(kind, i);
      assert kind == kind[..i] + "Exist" + kind[i + 5..];
    }
    if a: string, z: string :| kind == a + "Exist" + z {
      assert kind[|a|..|a| + 5] == "Exist";
      assert ExistAt(kind, |a|);
    }
  }

  // ---- Specification of the scatter ----

  /** The indices of the convertible transfers among the first `k`, in order: what is submitted, and
      where each submitted position came from. */
  function OriginsTo(ts: seq<Transfer>, k: nat): (r: seq<nat>)
    requires k <= |ts|
    ensures forall p :: 0 <= p < |r| ==> r[p] < k && ts[r[p]].wire.Some?
    ensures forall p, q :: 0 <= p < q < |r| ==> r[p] < r[q]
  {
    if k == 0 then [] else
      var r := OriginsTo(ts, k - 1);
      if ts[k - 1].wire.Some? then r + [k - 1] else r
  }

  function Origins(ts: seq<Transfer>): seq<nat> {
    OriginsTo(ts, |ts|)
  }

  /** Every convertible transfer is submitted. */
  lemma {:induction false} OriginOf(ts: seq<Transfer>, k: nat, i: nat) returns (p: nat)
    requires i < k <= |ts| && ts[i].wire.Some?
    ensures p < |OriginsTo(ts, k)| && OriginsTo(ts, k)[p] == i
    decreases k
  {
    if i == k - 1 {
      p := |OriginsTo(ts, k)| - 1;
    } else {
      p := OriginOf(ts, k - 1, i);
    }
  }

  function WireOf(t: Transfer): Wire
    requires t.wire.Some?
  {
    Wire(t.id, t.wire.value)
  }

  function Submitted(ts: seq<Transfer>): (ws: seq<Wire>)
    ensures |ws| == |Origins(ts)|
    ensures forall p :: 0 <= p < |ws| ==> ws[p] == WireOf(ts[Origins(ts)[p]])
  {
    var o := Origins(ts);
    seq(|o|, p requires 0 <= p < |o| => WireOf(ts[o[p]]))
  }

  /** The reported kind for a submitted position among the first `k` errors; a later entry for the
      same position wins. */
  function KindAt(errors: seq<ApiError>, k: nat, p: nat): Option<string>
    requires k <= |errors|
  {
    if k == 0 then None
    else if errors[k - 1].index == p then Some(errors[k - 1].kind)
    else KindAt(errors, k - 1, p)
  }

  /** What the caller is told about the transfer submitted at position `p`. */
  function Verdict(reply: Reply, p: nat, id: nat): Outcome {
    match reply
    case AllOk => Ok(id)
    case Transport => Err(Transient)
    case Api(errors) =>
      match KindAt(errors, |errors|, p)
      case None => Ok(id)
      case Some(kind) => if SaysExist(kind) then Ok(id) else Err(Rejected(kind))
  }

  /** Every input has its own result at its own index. */
  ghost predicate Scattered(ts: seq<Transfer>, reply: Reply, results: seq<Outcome>) {
    && |results| == |ts|
    && (forall i :: 0 <= i < |ts| && ts[i].wire.None? ==> results[i] == Err(BadConversion))
    && forall p :: 0 <= p < |Origins(ts)| ==> results[Origins(ts)[p]] == Verdict(reply, p, ts[Origins(ts)[p]].id)
  }

  // ---- The batch call ----

  method Convert(ts: seq<Transfer>) returns (results: seq<Option<Outcome>>, submitted: seq<Wire>, origins: seq<nat>)
    ensures origins == Origins(ts) && submitted == Submitted(ts) && |results| == |ts|
    ensures forall i :: 0 <= i < |ts| ==> results[i] == if ts[i].wire.None? then Some(Err(BadConversion)) else None
  {
    results, submitted, origins := seq(|ts|, _ => None), [], [];
    for i := 0 to |ts|
      invariant |results| == |ts| && origins == OriginsTo(ts, i) && |submitted| == |origins|
      invariant forall p :: 0 <= p < |submitted| ==> submitted[p] == WireOf(ts[origins[p]])
      invariant forall j :: 0 <= j < |ts| ==>
                  results[j] == if j < i && ts[j].wire.None? then Some(Err(BadConversion)) else None
    {
      if ts[i].wire.Some? {
        submitted := submitted + [WireOf(ts[i])];
        origins := origins + [i];
      } else {
        results := results[i := Some(Err(BadConversion))];
      }
    }
  }

  method ErrorMap(errors: seq<ApiError>) returns (m: map<nat, string>)
    ensures forall p: nat :: KindAt(errors, |errors|, p) == if p in m then Some(m[p]) else None
  {
    m := map[];
    for k := 0 to |errors|
      invariant forall p: nat :: KindAt(errors, k, p) == if p in m then Some(m[p]) else None
    {
      m := m[errors[k].index := errors[k].kind];
    }
  }

  /** The three arms of the reply, each writing every submitted transfer's own index. */
  method Scatter(ts: seq<Transfer>, origins: seq<nat>, reply: Reply, before: seq<Option<Outcome>>)
    returns (slots: seq<Option<Outcome>>)
    requires |before| == |ts| && forall p :: 0 <= p < |origins| ==> origins[p] < |ts|
    requires forall p, q :: 0 <= p < q < |origins| ==> origins[p] < origins[q]
    ensures |slots| == |ts|
    ensures forall p :: 0 <= p < |origins| ==> slots[origins[p]] == Some(Verdict(reply, p, ts[origins[p]].id))
    ensures forall i :: 0 <= i < |ts| && i !in origins ==> slots[i] == before[i]
  {
    slots := before;
    var errorMap := map[];
    if reply.Api? {
      errorMap := ErrorMap(reply.errors);
    }
    for p := 0 to |origins|
      invariant |slots| == |ts|
      invariant forall k :: 0 <= k < p ==> slots[origins[k]] == Some(Verdict(reply, k, ts[origins[k]].id))
      invariant forall i :: 0 <= i < |ts| && i !in origins ==> slots[i] == before[i]
    {
      var i := origins[p];
      var id := ts[i].id;
      var r := if reply.AllOk? then Ok(id)
               else if reply.Transport? then Err(Transient)
               else if p !in errorMap || SaysExist(errorMap[p]) then Ok(id)
               else Err(Rejected(errorMap[p]));
      assert r == Verdict(reply, p, id);
      slots := slots[i := Some(r)];
    }
  }

  function Unwrap(slots: seq<Option<Outcome>>): (r: seq<Outcome>)
    ensures |r| == |slots|
    ensures forall i :: 0 <= i < |r| ==> r[i] == if slots[i].Some? then slots[i].value else Err(NotSet)
  {
    seq(|slots|, i requires 0 <= i < |slots| => if slots[i].Some? then slots[i].value else Err(NotSet))
  }

  /** `create_transfers_batch`, given the client's reply to the submitted transfers. The guard for an
      unset result never fires. */
  method CreateTransfersBatch(ts: seq<Transfer>, reply: Reply) returns (results: seq<Outcome>)
    ensures Scattered(ts, reply, results)
    ensures forall i :: 0 <= i < |results| ==> results[i] != Err(NotSet)
  {
    var converted, submitted, origins := Convert(ts);
    var slots := converted;
    if submitted != [] {
      slots := Scatter(ts, origins, reply, converted);
    }
    results := Unwrap(slots);
    forall i | 0 <= i < |results| ensures results[i] != Err(NotSet) {
      if ts[i].wire.Some? {
        var p := OriginOf(ts, |ts|, i);
        assert slots[origins[p]] == Some(Verdict(reply, p, ts[origins[p]].id));
      }
    }
  }

  /** Some error of the reply is about position `p`; `k` is the last of them. */
  ghost predicate LastErrorAt(errors: seq<ApiError>, p: nat, k: nat) {
    k < |errors| && errors[k].index == p && forall j :: k < j < |errors| ==> errors[j].index != p
  }

  lemma {:induction false} KindOfLast(errors: seq<ApiError>, n: nat, p: nat, k: nat)
    requires k < n <= |errors| && LastErrorAt(errors, p, k)
    ensures KindAt(errors, n, p) == Some(errors[k].kind)
    decreases n
  {
    if k < n - 1 {
      KindOfLast(errors, n - 1, p, k);
    }
  }

  lemma {:induction false} NoKind(errors: seq<ApiError>, n: nat, p: nat)
    requires n <= |errors| && forall j :: 0 <= j < n ==> errors[j].index != p
    ensures KindAt(errors, n, p) == None
    decreases n
  {
    if n > 0 {
      NoKind(errors, n - 1, p);
    }
  }

  /** What the caller is told about the transfer submitted at position `p`, case by case. */
  lemma ResultSpelledOut(ts: seq<Transfer>, reply: Reply, results: seq<Outcome>, p: nat, k: nat)
    requires Scattered(ts, reply, results) && p < |Origins(ts)|
    ensures var i := Origins(ts)[p];
            && (reply.AllOk? ==> results[i] == Ok(ts[i].id))
            && (reply.Transport? ==> results[i] == Err(Transient))
            && (reply.Api? && (forall j :: 0 <= j < |reply.errors| ==> reply.errors[j].index != p) ==> results[i] == Ok(ts[i].id))
            && (reply.Api? && LastErrorAt(reply.errors, p, k) ==>
                  results[i] == if exists a: string, z: string :: reply.errors[k].kind == a + "Exist" + z
                                then Ok(ts[i].id) else Err(Rejected(reply.errors[k].kind)))
  {
    if reply.Api? {
      var es := reply.errors;
      if forall j :: 0 <= j < |es| ==> es[j].index != p {
        NoKind(es, |es|, p);
      }
      if LastErrorAt(es, p, k) {
        KindOfLast(es, |es|, p, k);
        SaysExistIff(es[k].kind);
      }
    }
  }

  // ---- The ledger behind the client ----

  type Store = map<nat, nat>

  /** A refusal is never taken for a transfer that exists. */
  type Refusal = k: string | !SaysExist(k)

  /** How the ledger treats an id it does not hold yet. */
  datatype Decision = Accept | Refuse(kind: Refusal)

  const EXISTS := "Exists"
  const EXISTS_DIFFERENT := "ExistsWithDifferentAmount"

  /** The store after the first `k` of the batch, processed in order; an id already held is never
      touched. */
  function Commits(l: Store, ws: seq<Wire>, ds: seq<Decision>, k: nat): Store
    requires k <= |ws| == |ds|
  {
    if k == 0 then l else
      var l' := Commits(l, ws, ds, k - 1);
      if ws[k - 1].id !in l' && ds[k - 1].Accept? then l'[ws[k - 1].id := ws[k - 1].content] else l'
  }

  /** What is reported for a position, given the store it met. */
  function Complaint(l: Store, w: Wire, d: Decision): Option<string> {
    if w.id in l then Some(if l[w.id] == w.content then EXISTS else EXISTS_DIFFERENT)
    else if d.Refuse? then Some(d.kind)
    else None
  }

  /** The sparse error list for the first `k` of the batch. */
  function Errors(l: Store, ws: seq<Wire>, ds: seq<Decision>, k: nat): seq<ApiError>
    requires k <= |ws| == |ds|
  {
    if k == 0 then [] else
      var es, c := Errors(l, ws, ds, k - 1), Complaint(Commits(l, ws, ds, k - 1), ws[k - 1], ds[k - 1]);
      if c.Some? then es + [ApiError(k - 1, c.value)] else es
  }

  /** A round trip: answered, or lost after any part of the batch was committed. */
  datatype Round = Answered(ds: seq<Decision>) | Lost(ds: seq<Decision>)

  function Served(l: Store, ws: seq<Wire>, r: Round): Store
    requires |ws| == |r.ds|
  {
    Commits(l, ws, r.ds, |ws|)
  }

  function ReplyOf(l: Store, ws: seq<Wire>, r: Round): Reply
    requires |ws| == |r.ds|
  {
    match r
    case Lost(_) => Transport
    case Answered(ds) =>
      var es := Errors(l, ws, ds, |ws|);
      if es == [] then AllOk else Api(es)
  }

  /** Nothing is forgotten or overwritten. */
  ghost predicate Extends(l: Store, l': Store) {
    forall id :: id in l ==> id in l' && l'[id] == l[id]
  }

  lemma {:induction false} CommitsExtend(l: Store, ws: seq<Wire>, ds: seq<Decision>, k: nat, m: nat)
    requires k <= m <= |ws| == |ds|
    ensures Extends(Commits(l, ws, ds, k), Commits(l, ws, ds, m))
    decreases m
  {
    if k < m {
      CommitsExtend(l, ws, ds, k, m - 1);
    }
  }

  lemma SaysExistFacts()
    ensures SaysExist(EXISTS) && SaysExist(EXISTS_DIFFERENT)
  {
    assert ExistAt(EXISTS, 0);
    assert ExistAt(EXISTS_DIFFERENT, 0);
  }

  lemma {:induction false} KindAtPrefix(es: seq<ApiError>, e: ApiError, k: nat, p: nat)
    requires k <= |es|
    ensures KindAt(es + [e], k, p) == KindAt(es, k, p)
    decreases k
  {
    if k > 0 {
      KindAtPrefix(es, e, k - 1, p);
    }
  }

  /** The error reported for a position says what happened there. */
  lemma {:induction false} KindIs(l: Store, ws: seq<Wire>, ds: seq<Decision>, k: nat, p: nat)
    requires k <= |ws| == |ds| && p < |ws|
    ensures var es := Errors(l, ws, ds, k);
            KindAt(es, |es|, p) == if p < k then Complaint(Commits(l, ws, ds, p), ws[p], ds[p]) else None
    decreases k
  {
    if k > 0 {
      KindIs(l, ws, ds, k - 1, p);
      var es, c := Errors(l, ws, ds, k - 1), Complaint(Commits(l, ws, ds, k - 1), ws[k - 1], ds[k - 1]);
      if c.Some? {
        KindAtPrefix(es, ApiError(k - 1, c.value), |es|, p);
      }
    }
  }

  /** The caller is told Ok exactly when the id is in the store once its position is processed. */
  lemma OkAtPosition(l: Store, ws: seq<Wire>, ds: seq<Decision>, p: nat, id: nat)
    requires p < |ws| == |ds|
    ensures var v := Verdict(ReplyOf(l, ws, Answered(ds)), p, id);
            && (v.Ok? ==> v.value == id)
            && (v.Ok? <==> ws[p].id in Commits(l, ws, ds, p + 1))
  {
    SaysExistFacts();
    KindIs(l, ws, ds, |ws|, p);
    if ds[p].Refuse? {
      var k: string := ds[p].kind;
      assert !SaysExist(k);
    }
  }

  ghost predicate DistinctIds(ws: seq<Wire>) {
    forall p, q :: 0 <= p < q < |ws| ==> ws[p].id != ws[q].id
  }

  /** With distinct ids, only its own position decides about an id. */
  lemma {:induction false} OthersDoNotAdd(l: Store, ws: seq<Wire>, ds: seq<Decision>, p: nat, m: nat)
    requires p < |ws| == |ds| && m <= |ws| && DistinctIds(ws)
    ensures ws[p].id in Commits(l, ws, ds, m) <==>
              if m <= p then ws[p].id in l else ws[p].id in Commits(l, ws, ds, p + 1)
    decreases m
  {
    if m > 0 && m != p + 1 {
      OthersDoNotAdd(l, ws, ds, p, m - 1);
      assert ws[m - 1].id != ws[p].id;
    }
  }

  /** Ok only for ids in the ledger and, when no id is repeated in the batch, for all of them. */
  ghost predicate Truthful(ts: seq<Transfer>, results: seq<Outcome>, l: Store) {
    && |results| == |ts|
    && (forall i :: 0 <= i < |ts| && results[i].Ok? ==> results[i].value == ts[i].id && ts[i].id in l)
    && (DistinctIds(Submitted(ts)) ==>
          forall i :: 0 <= i < |ts| && ts[i].wire.Some? && ts[i].id in l ==> results[i] == Ok(ts[i].id))
  }

  /** An answered round tells the truth about the ledger it leaves behind. */
  lemma AnsweredIsTruthful(ts: seq<Transfer>, l: Store, round: Round, results: seq<Outcome>)
    requires round.Answered? && |round.ds| == |Submitted(ts)|
    requires Scattered(ts, ReplyOf(l, Submitted(ts), round), results)
    ensures Truthful(ts, results, Served(l, Submitted(ts), round))
  {
    var ws, l' := Submitted(ts), Served(l, Submitted(ts), round);
    forall i | 0 <= i < |ts| && ts[i].wire.Some?
      ensures results[i].Ok? ==> results[i].value == ts[i].id && ts[i].id in l'
      ensures DistinctIds(ws) && ts[i].id in l' ==> results[i] == Ok(ts[i].id)
    {
      var p := OriginOf(ts, |ts|, i);
      assert results[Origins(ts)[p]] == Verdict(ReplyOf(l, ws, round), p, ts[i].id);
      OkAtPosition(l, ws, round.ds, p, ts[i].id);
      CommitsExtend(l, ws, round.ds, p + 1, |ws|);
      if DistinctIds(ws) {
        OthersDoNotAdd(l, ws, round.ds, p, |ws|);
      }
    }
  }

  /** None of the transfers of a lost batch is in the ledger (or ids repeat, and then nothing is promised
      about them). */
  ghost predicate LossIsHarmless(ts: seq<Transfer>, l: Store) {
    DistinctIds(Submitted(ts)) ==> forall i :: 0 <= i < |ts| && ts[i].wire.Some? ==> ts[i].id !in l
  }

  /** After a lost reply the results are true exactly when nothing of the batch is in the ledger. */
  lemma LostIsTruthfulIff(ts: seq<Transfer>, results: seq<Outcome>, l: Store)
    requires Scattered(ts, Transport, results)
    ensures Truthful(ts, results, l) <==> LossIsHarmless(ts, l)
  {
    forall i | 0 <= i < |ts| ensures results[i].Err? {
      if ts[i].wire.Some? {
        var p := OriginOf(ts, |ts|, i);
        assert results[Origins(ts)[p]] == Verdict(Transport, p, ts[i].id);
      }
    }
  }

  // ---- The retry loop of the ledger handler ----

  const MAX_TRANSIENT_RETRIES: nat := 5

  predicate AllTransient(results: seq<Outcome>) {
    forall i :: 0 <= i < |results| ==> results[i] == Err(Transient)
  }

  ghost predicate HasBadConversion(ts: seq<Transfer>) {
    exists i :: 0 <= i < |ts| && ts[i].wire.None?
  }

  ghost predicate RoundsFit(rounds: seq<Round>, n: nat) {
    forall k :: 0 <= k < |rounds| ==> |rounds[k].ds| == n
  }

  /** The store after the first `k` rounds. */
  ghost function StoreAfter(l: Store, ws: seq<Wire>, rounds: seq<Round>, k: nat): Store
    requires RoundsFit(rounds, |ws|) && k <= |rounds|
  {
    if k == 0 then l else Served(StoreAfter(l, ws, rounds, k - 1), ws, rounds[k - 1])
  }

  lemma {:induction false} StoreOnlyGrows(l: Store, ws: seq<Wire>, rounds: seq<Round>, k: nat)
    requires RoundsFit(rounds, |ws|) && k <= |rounds|
    ensures Extends(l, StoreAfter(l, ws, rounds, k))
    decreases k
  {
    if k > 0 {
      StoreOnlyGrows(l, ws, rounds, k - 1);
      CommitsExtend(StoreAfter(l, ws, rounds, k - 1), ws, rounds[k - 1].ds, 0, |ws|);
    }
  }

  /** How often an id is committed by the first `k` positions of a batch, and by the first `k` rounds. */
  function TimesCommitted(l: Store, ws: seq<Wire>, ds: seq<Decision>, k: nat, id: nat): nat
    requires k <= |ws| == |ds|
  {
    if k == 0 then 0 else
      TimesCommitted(l, ws, ds, k - 1, id)
      + if ws[k - 1].id == id && Commits(l, ws, ds, k) != Commits(l, ws, ds, k - 1) then 1 else 0
  }

  ghost function TimesCommittedIn(l: Store, ws: seq<Wire>, rounds: seq<Round>, k: nat, id: nat): nat
    requires RoundsFit(rounds, |ws|) && k <= |rounds|
  {
    if k == 0 then 0 else
      TimesCommittedIn(l, ws, rounds, k - 1, id)
      + TimesCommitted(StoreAfter(l, ws, rounds, k - 1), ws, rounds[k - 1].ds, |ws|, id)
  }

  function Present(l: Store, id: nat): nat {
    if id in l then 1 else 0
  }

  lemma {:induction false} BatchCommitsOnce(l: Store, ws: seq<Wire>, ds: seq<Decision>, k: nat, id: nat)
    requires k <= |ws| == |ds|
    ensures TimesCommitted(l, ws, ds, k, id) + Present(l, id) == Present(Commits(l, ws, ds, k), id)
    decreases k
  {
    if k > 0 {
      BatchCommitsOnce(l, ws, ds, k - 1, id);
    }
  }

  /** However often a batch is resubmitted, an id is committed at most once, and not at all if the ledger
      held it. */
  lemma {:induction false} CommittedAtMostOnce(l: Store, ws: seq<Wire>, rounds: seq<Round>, k: nat, id: nat)
    requires RoundsFit(rounds, |ws|) && k <= |rounds|
    ensures TimesCommittedIn(l, ws, rounds, k, id) + Present(l, id) == Present(StoreAfter(l, ws, rounds, k), id)
    decreases k
  {
    if k > 0 {
      CommittedAtMostOnce(l, ws, rounds, k - 1, id);
      BatchCommitsOnce(StoreAfter(l, ws, rounds, k - 1), ws, rounds[k - 1].ds, |ws|, id);
    }
  }

  /** All results are transient exactly when the reply was lost and every transfer was convertible. */
  lemma AllTransientIff(ts: seq<Transfer>, reply: Reply, results: seq<Outcome>)
    requires Scattered(ts, reply, results) && ts != []
    ensures AllTransient(results) <==> reply.Transport? && !HasBadConversion(ts)
  {
    if ts[0].wire.Some? {
      var p := OriginOf(ts, |ts|, 0);
      assert results[Origins(ts)[p]] == Verdict(reply, p, ts[0].id);
    }
    if reply.Transport? && !HasBadConversion(ts) {
      forall i | 0 <= i < |results| ensures results[i] == Err(Transient) {
        var p := OriginOf(ts, |ts|, i);
        assert results[Origins(ts)[p]] == Verdict(reply, p, ts[i].id);
      }
    }
  }

  /** One round trip: the results and what the ledger holds afterwards. */
  method Attempt(ts: seq<Transfer>, l: Store, round: Round)
    returns (results: seq<Outcome>, l': Store, allTransient: bool)
    requires |round.ds| == |Submitted(ts)| && ts != []
    ensures l' == Served(l, Submitted(ts), round)
    ensures round.Answered? ==> Truthful(ts, results, l')
    ensures round.Lost? ==> Scattered(ts, Transport, results)
    ensures allTransient <==> round.Lost? && !HasBadConversion(ts)
  {
    var ws := Submitted(ts);
    var reply := ReplyOf(l, ws, round);
    results := CreateTransfersBatch(ts, reply);
    l' := Served(l, ws, round);
    allTransient := AllTransient(results);
    AllTransientIff(ts, reply, results);
    if round.Answered? {
      AnsweredIsTruthful(ts, l, round, results);
    }
  }

  /** Resubmit while every result is transient, at most five times. `rounds` are the round trips the
      ledger would make, `l'` what it holds at the end. However many replies are lost and whatever
      they committed, nothing is committed twice or overwritten, and when the last reply was answered
      the results are the truth. The loop ends on a lost reply only when the retries are used up or
      the batch holds a transfer that could not be converted; then every other one is reported as
      transient, which is the truth exactly when none of them is in the ledger. */
  method SubmitWithRetry(ts: seq<Transfer>, l: Store, rounds: seq<Round>)
    returns (results: seq<Outcome>, attempt: nat, l': Store)
    requires |rounds| > 5 && ts != [] && RoundsFit(rounds, |Submitted(ts)|)
    ensures attempt <= 5 && forall k :: 0 <= k < attempt ==> rounds[k].Lost?
    ensures l' == StoreAfter(l, Submitted(ts), rounds, attempt + 1) && Extends(l, l')
    ensures rounds[attempt].Answered? ==> Truthful(ts, results, l')
    ensures rounds[attempt].Lost? ==> attempt == 5 || HasBadConversion(ts)
    ensures rounds[attempt].Lost? ==> Scattered(ts, Transport, results)
    ensures rounds[attempt].Lost? ==> (Truthful(ts, results, l') <==> LossIsHarmless(ts, l'))
    ensures HasBadConversion(ts) ==> attempt == 0
  {
    attempt := 0;
    ghost var bad := HasBadConversion(ts);
    var retry;
    results, l', retry := Attempt(ts, l, rounds[0]);
    while retry && attempt < MAX_TRANSIENT_RETRIES
      invariant attempt <= MAX_TRANSIENT_RETRIES
      invariant forall k :: 0 <= k < attempt ==> rounds[k].Lost?
      invariant l' == StoreAfter(l, Submitted(ts), rounds, attempt + 1)
      invariant rounds[attempt].Answered? ==> Truthful(ts, results, l')
      invariant rounds[attempt].Lost? ==> Scattered(ts, Transport, results)
      invariant retry <==> rounds[attempt].Lost? && !bad
      invariant bad ==> attempt == 0
      decreases MAX_TRANSIENT_RETRIES - attempt
    {
      attempt := attempt + 1;
      results, l', retry := Attempt(ts, l', rounds[attempt]);
    }
    StoreOnlyGrows(l, Submitted(ts), rounds, attempt + 1);
    if rounds[attempt].Lost? {
      LostIsTruthfulIff(ts, results, l');
    }
  }

  // ---- What is not promised ----

  /** A transfer next to an unconvertible one can be committed and yet reported as failed: the lost
      reply is not retried. */
  lemma MixedBatchMisreports(t: Transfer, bad: Transfer, results: seq<Outcome>)
    requires t.wire.Some? && bad.wire.None?
    ensures Submitted([t, bad]) == [WireOf(t)]
    ensures var round := Lost([Accept]);
            && t.id in Served(map[], [WireOf(t)], round)
            && (Scattered([t, bad], ReplyOf(map[], [WireOf(t)], round), results) ==>
                  !AllTransient(results) && results[0] == Err(Transient))
  {
    var ts, round := [t, bad], Lost([Accept]);
    assert OriginsTo(ts, 0) == [] && OriginsTo(ts, 1) == [0] && OriginsTo(ts, 2) == [0];
    assert Commits(map[], [WireOf(t)], [Accept], 0) == map[];
    assert t.id in Commits(map[], [WireOf(t)], [Accept], 1);
    if Scattered(ts, ReplyOf(map[], [WireOf(t)], round), results) {
      assert results[1] == Err(BadConversion);
      assert results[Origins(ts)[0]] == Err(Transient);
    }
  }

  /** The condition that ids are distinct is needed: repeated in one batch, an id can be refused the
      first time and accepted the second. */
  lemma RepeatedIdMisreports(t: Transfer, kind: Refusal, results: seq<Outcome>)
    requires t.wire.Some?
    ensures var ts, round := [t, t], Answered([Refuse(kind), Accept]);
            && |Submitted(ts)| == 2
            && t.id in Served(map[], Submitted(ts), round)
            && (Scattered(ts, ReplyOf(map[], Submitted(ts), round), results) ==> results[0].Err?)
  {
    var ts := [t, t];
    var ds := [Refuse(kind), Accept];
    assert OriginsTo(ts, 0) == [] && OriginsTo(ts, 1) == [0] && OriginsTo(ts, 2) == [0, 1];
    var ws := Submitted(ts);
    assert Commits(map[], ws, ds, 0) == map[] && Commits(map[], ws, ds, 1) == map[];
    assert t.id in Commits(map[], ws, ds, 2);
    OkAtPosition(map[], ws, ds, 0, t.id);
    if Scattered(ts, ReplyOf(map[], ws, Answered(ds)), results) {
      assert results[Origins(ts)[0]] == Verdict(ReplyOf(map[], ws, Answered(ds)), 0, t.id);
    }
  }

  /** An Ok for an id the ledger already held speaks of the earlier transfer: the two agree exactly
      when the contents do. */
  lemma OkMayMeanAnother(l: Store, ws: seq<Wire>, ds: seq<Decision>, p: nat)
    requires p < |ws| == |ds| && DistinctIds(ws)
    requires Verdict(ReplyOf(l, ws, Answered(ds)), p, ws[p].id).Ok?
    ensures ws[p].id in Served(l, ws, Answered(ds))
    ensures Served(l, ws, Answered(ds))[ws[p].id] == ws[p].content <==> ws[p].id !in l || l[ws[p].id] == ws[p].content
  {
    OkAtPosition(l, ws, ds, p, ws[p].id);
    CommitsExtend(l, ws, ds, p + 1, |ws|);
    CommitsExtend(l, ws, ds, 0, p);
    OthersDoNotAdd(l, ws, ds, p, p);
  }
}
