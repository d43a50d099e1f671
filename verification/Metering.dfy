/**
 Usage metering: the sharded counters and the flush that moves them to the usage store.
 */
module Metering {
  import opened Bits

  type Byte = b: nat | b < 256

  type Tenant = seq<Byte>

  const SHARD_COUNT: nat := 64

  /** The FNV-1a hash of the first `k` bytes, in 32 bits. */
  function FnvTo(xor: (nat, nat) -> nat, t: Tenant, k: nat): nat
    requires k <= |t|
  {
    if k == 0 then 2166136261 else xor(FnvTo(xor, t, k - 1), t[k - 1]) * 16777619 % 0x1_0000_0000
  }

  type ShardIndex = i: nat | i < SHARD_COUNT

  /** Every tenant has one home shard. */
  function ShardOf(t: Tenant): ShardIndex {
    FnvTo(Xor, t, |t|) % SHARD_COUNT
  }

  method ShardFor(t: Tenant) returns (i: nat)
    ensures i == ShardOf(t)
  {
    var h := 2166136261;
    for k := 0 to |t|
      invariant h == FnvTo(Xor, t, k)
    {
      h := Xor(h, t[k]);
      h := h * 16777619 % 0x1_0000_0000;
    }
    MaskIsMod(h, 6);
    assert Pow2(6) == 64;
    i := And(h, SHARD_COUNT - 1);
  }

  /** What an exclusive or does to the last bit. */
  ghost predicate HalvesAt(xor: (nat, nat) -> nat, a: nat, b: nat) {
    xor(a, b) == 2 * xor(a / 2, b / 2) + (a % 2 + b % 2) % 2
  }

  ghost predicate IsXor(xor: (nat, nat) -> nat) {
    && (forall a: nat, b: nat {:trigger HalvesAt(xor, a, b)} :: HalvesAt(xor, a, b))
    && forall a: nat {:trigger xor(a, 0)} :: xor(a, 0) == a
  }

  lemma XorIsXor()
    ensures IsXor(Xor)
  {
    forall a: nat, b: nat ensures HalvesAt(Xor, a, b) {
      if a == 0 && b == 0 {
        assert Xor(a, b) == 0;
      }
    }
    forall a: nat ensures Xor(a, 0) == a {
      XorZero(a);
    }
  }

  lemma FirstLetter(xor: (nat, nat) -> nat)
    requires IsXor(xor)
    ensures xor(0x811c9dc5, 0x61) == 0x811c9da4
  {
    assert HalvesAt(xor, 0x811c9dc5, 0x61) && HalvesAt(xor, 0x408e4ee2, 0x30) && HalvesAt(xor, 0x20472771, 0x18);
    assert HalvesAt(xor, 0x102393b8, 0xc) && HalvesAt(xor, 0x811c9dc, 0x6) && HalvesAt(xor, 0x408e4ee, 0x3);
    assert HalvesAt(xor, 0x2047277, 0x1) && xor(0x102393b, 0) == 0x102393b;
  }

  /** The published values of FNV-1a for the empty text and for "a", for everything that is an exclusive
      or. */
  lemma KnownFnv(xor: (nat, nat) -> nat, t: Tenant)
    requires IsXor(xor)
    ensures t == [] ==> FnvTo(xor, t, |t|) == 0x811c9dc5
    ensures t == [0x61] ==> FnvTo(xor, t, |t|) == 0xe40c292c
  {
    FirstLetter(xor);
  }

  type Counts = map<Tenant, int>

  function Get(m: Counts, t: Tenant): int {
    if t in m then m[t] else 0
  }

  function Bump(m: Counts, t: Tenant, delta: int): Counts {
    m[t := Get(m, t) + delta]
  }

  /** The store after the rows of the given tenants were added to it. */
  function Merged(m: Counts, rows: Counts, keys: set<Tenant>): (r: Counts)
    ensures forall t :: Get(r, t) == Get(m, t) + if t in keys then Get(rows, t) else 0
  {
    map t | t in m.Keys + keys :: Get(m, t) + if t in keys then Get(rows, t) else 0
  }

  /** Every tenant's counter is in the tenant's own shard. */
  ghost predicate Homed(home: Tenant -> ShardIndex, shards: seq<Counts>) {
    |shards| == SHARD_COUNT && forall i, t :: 0 <= i < SHARD_COUNT && t in shards[i] ==> home(t) == i
  }

  function Counted(home: Tenant -> ShardIndex, shards: seq<Counts>, t: Tenant): int
    requires |shards| == SHARD_COUNT
  {
    Get(shards[home(t)], t)
  }

  // ---- The recorder, called by one thread at a time ----

  /** Swaps every counter of a shard with zero and enters what was not zero into the result. */
  method DrainShard(shard: Counts, taken: Counts) returns (shard': Counts, result: Counts)
    ensures shard'.Keys == shard.Keys && forall t :: t in shard ==> shard'[t] == 0
    ensures forall t :: t in result <==> t in taken || Get(shard, t) != 0
    ensures forall t :: t in result ==> result[t] == if Get(shard, t) != 0 then shard[t] else taken[t]
  {
    shard', result := shard, taken;
    var tenants := shard.Keys;
    while tenants != {}
      invariant tenants <= shard.Keys == shard'.Keys
      invariant forall t :: t in shard ==> shard'[t] == if t in tenants then shard[t] else 0
      invariant forall t :: t in result <==> t in taken || (t !in tenants && Get(shard, t) != 0)
      invariant forall t :: t in result ==>
                  result[t] == if t !in tenants && Get(shard, t) != 0 then shard[t] else taken[t]
      decreases |tenants|
    {
      var t :| t in tenants;
      var v := shard'[t];
      shard' := shard'[t := 0];
      if v != 0 {
        result := result[t := v];
      }
      tenants := tenants - {t};
    }
  }

  /** Behaves as one map from tenants to counts. */
  class AtomicRecorder {
    var shards: seq<Counts>

    ghost predicate Valid()
      reads this
    {
      Homed(ShardOf, shards)
    }

    ghost function Count(t: Tenant): int
      requires Valid()
      reads this
    {
      Counted(ShardOf, shards, t)
    }

    constructor ()
      ensures Valid() && forall t :: Count(t) == 0
    {
      shards := seq(SHARD_COUNT, _ => map[]);
    }

    method Record(t: Tenant, delta: int)
      requires Valid()
      modifies this
      ensures Valid() && forall u :: Count(u) == old(Count(u)) + if u == t then delta else 0
    {
      var i := ShardFor(t);
      if t !in shards[i] {
        shards := shards[i := shards[i][t := 0]];
      }
      shards := shards[i := shards[i][t := shards[i][t] + delta]];
    }

    /** Hands over every non-zero count and leaves all counters at zero. */
    method Snapshot() returns (result: Counts)
      requires Valid()
      modifies this
      ensures Valid() && forall t :: Count(t) == 0
      ensures forall t :: Get(result, t) == old(Count(t))
      ensures forall t :: t in result ==> result[t] != 0
    {
      result := map[];
      for i := 0 to SHARD_COUNT
        invariant Valid()
        invariant forall t :: t in result ==> ShardOf(t) < i && result[t] != 0
        invariant forall t :: Get(result, t) + Count(t) == old(Count(t))
        invariant forall t :: ShardOf(t) < i ==> Count(t) == 0
      {
        var shard;
        shard, result := DrainShard(shards[i], result);
        shards := shards[i := shard];
      }
    }

    /** Records every row again. */
    method Reinject(rows: Counts)
      requires Valid()
      modifies this
      ensures Valid() && forall t :: Count(t) == old(Count(t)) + Get(rows, t)
    {
      var todo := rows.Keys;
      while todo != {}
        invariant Valid() && todo <= rows.Keys
        invariant forall t :: Count(t) == old(Count(t)) + if t in todo then 0 else Get(rows, t)
        decreases |todo|
      {
        var t :| t in todo;
        Record(t, rows[t]);
        todo := todo - {t};
      }
    }
  }

  class Flusher {
    const rec: AtomicRecorder
    var persisted: Counts

    constructor (rec: AtomicRecorder)
      ensures this.rec == rec && persisted == map[]
    {
      this.rec := rec;
      persisted := map[];
    }

    /** `flushAt`, given the outcome of the write: it succeeded, or it failed having stored the rows of
        `kept` all the same. Failure puts everything back. */
    method Flush(ok: bool, kept: set<Tenant>) returns (err: bool)
      requires rec.Valid()
      modifies this, rec
      ensures rec.Valid()
      ensures err ==> forall t :: rec.Count(t) == old(rec.Count(t))
      ensures !err ==> forall t :: rec.Count(t) == 0
      ensures !err ==> forall t :: Get(persisted, t) == Get(old(persisted), t) + old(rec.Count(t))
      ensures err ==> forall t :: Get(persisted, t) == Get(old(persisted), t) + if t in kept then old(rec.Count(t)) else 0
      ensures err <==> !ok && !(forall t :: old(rec.Count(t)) == 0)
    {
      var rows := rec.Snapshot();
      if rows == map[] {
        return false;
      }
      if ok {
        persisted := Merged(persisted, rows, rows.Keys);
        return false;
      }
      ghost var w :| w in rows.Keys;
      assert old(rec.Count(w)) == Get(rows, w) != 0;
      persisted := Merged(persisted, rows, kept);
      rec.Reinject(rows);
      err := true;
    }
  }
}
