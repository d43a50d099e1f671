/**
 Jump consistent hash (Lamping and Veach 2014) and the shard router built on it. The jump is
 computed in floating point; all the proofs need of the rounding is that it is monotone and
 leaves integers up to 2^53, and their multiples by 2^31, alone, which holds of IEEE double
 precision in every rounding mode.
 */
module JumpHash {
  import opened Bits
  import opened Wrappers

  const TWO_31: nat := 0x8000_0000
  const TWO_32: nat := 0x1_0000_0000
  const TWO_33: nat := 0x2_0000_0000
  const TWO_53: nat := 0x20_0000_0000_0000
  const TWO_63: nat := 0x8000_0000_0000_0000
  const TWO_64: nat := 0x1_0000_0000_0000_0000
  const MULTIPLIER: nat := 2862933555777941757

  type Rounding = real -> real

  function Scaled(k: nat): real {
    (k * TWO_31) as real
  }

  ghost predicate Faithful(rnd: Rounding) {
    && (forall x: real, y: real :: 0.0 <= x <= y ==> rnd(x) <= rnd(y))
    && (forall k: nat {:trigger rnd(k as real)} :: k <= TWO_53 ==> rnd(k as real) == k as real)
    && (forall k: nat {:trigger Scaled(k)} :: k <= TWO_53 ==> rnd(Scaled(k)) == Scaled(k))
  }

  /** The 64-bit linear congruential step. */
  function NextKey(key: nat): (r: nat)
    ensures r < TWO_64
  {
    (key * MULTIPLIER + 1) % TWO_64
  }

  /** `int(float64(b+1) * (float64(1<<31) / float64((key>>33)+1)))`. */
  function Jump(rnd: Rounding, b: nat, key: nat): int {
    rnd((b + 1) as real * rnd(TWO_31 as real / (key / TWO_33 + 1) as real)).Floor
  }

  lemma QuotientBounds(d: nat)
    requires 1 <= d <= TWO_31
    ensures 1.0 <= TWO_31 as real / d as real <= TWO_31 as real
  {}

  lemma ProductAtMost(x: real, y: real, m: real)
    requires 0.0 <= x && y <= m
    ensures x * y <= x * m
  {}

  lemma ProductAtLeast(x: real, y: real)
    requires x >= 0.0 && y >= 1.0
    ensures x * y >= x
  {}

  /** The factor a jump multiplies by, rounded, lies between 1 and 2^31. */
  lemma FactorBounds(rnd: Rounding, key: nat)
    requires Faithful(rnd) && key < TWO_64
    ensures 1.0 <= rnd(TWO_31 as real / (key / TWO_33 + 1) as real) <= TWO_31 as real
  {
    QuotientBounds(key / TWO_33 + 1);
    assert rnd(1 as real) == 1 as real && rnd(TWO_31 as real) == TWO_31 as real;
  }

  /** A value at least `k` rounds to at least `k`, or to at least 2^53. */
  lemma RoundsAtLeast(rnd: Rounding, x: real, k: nat)
    requires Faithful(rnd) && x >= k as real
    ensures rnd(x).Floor >= k || rnd(x).Floor >= TWO_53
  {
    var l := if k <= TWO_53 then k else TWO_53;
    assert rnd(l as real) == l as real;
    assert rnd(l as real) <= rnd(x);
  }

  /** Every jump moves past its bucket (or past 2^53, far beyond any bucket count). */
  lemma JumpExceeds(rnd: Rounding, b: nat, key: nat)
    requires Faithful(rnd) && key < TWO_64
    ensures Jump(rnd, b, key) > b || Jump(rnd, b, key) >= TWO_53
  {
    FactorBounds(rnd, key);
    var x, q := (b + 1) as real, rnd(TWO_31 as real / (key / TWO_33 + 1) as real);
    ProductAtLeast(x, q);
    RoundsAtLeast(rnd, x * q, b + 1);
  }

  lemma ProductScaled(k: nat, q: real)
    requires 1.0 <= q <= TWO_31 as real
    ensures 0.0 <= k as real * q <= Scaled(k)
  {
    ProductAtLeast(k as real, q);
    ProductAtMost(k as real, q, TWO_31 as real);
  }

  /** A jump is at most 2^31 times as far as the next bucket. */
  lemma JumpAtMost(rnd: Rounding, b: nat, key: nat)
    requires Faithful(rnd) && key < TWO_64 && b + 1 <= TWO_53
    ensures Jump(rnd, b, key) <= (b + 1) * TWO_31
  {
    FactorBounds(rnd, key);
    var x := (b + 1) as real * rnd(TWO_31 as real / (key / TWO_33 + 1) as real);
    ProductScaled(b + 1, rnd(TWO_31 as real / (key / TWO_33 + 1) as real));
    assert rnd(x) <= rnd(Scaled(b + 1)) == Scaled(b + 1);
  }

  /** With the smallest divisor it is exactly that. */
  lemma LongestJump(rnd: Rounding, b: nat)
    requires Faithful(rnd) && b + 1 <= TWO_53
    ensures Jump(rnd, b, 0) == (b + 1) * TWO_31
  {
    assert 0 / TWO_33 + 1 == 1 && TWO_31 as real / 1 as real == TWO_31 as real;
    assert rnd(TWO_31 as real) == TWO_31 as real;
    assert (b + 1) as real * TWO_31 as real == Scaled(b + 1);
    assert rnd(Scaled(b + 1)) == Scaled(b + 1);
  }

  /** Whatever the key, a jump from bucket `b` fits the conversion back to a 64-bit integer, if and only
      if the next bucket is below 2^32. */
  lemma ConversionFitsIff(rnd: Rounding, b: nat)
    requires Faithful(rnd) && b + 1 <= TWO_53
    ensures (forall key: nat :: key < TWO_64 ==> Jump(rnd, b, key) < TWO_63) <==> b + 1 < TWO_32
  {
    if b + 1 < TWO_32 {
      forall key: nat | key < TWO_64 ensures Jump(rnd, b, key) < TWO_63 {
        JumpAtMost(rnd, b, key);
      }
    } else {
      LongestJump(rnd, b);
      assert Jump(rnd, b, 0) >= TWO_63;
    }
  }

  // ---- What a jump computes ----

  lemma FloorOfQuotient(n: nat, d: nat)
    requires d > 0
    ensures (n as real / d as real).Floor == n / d
  {
    var q, r := n / d, n % d;
    assert n == q * d + r;
    assert n as real == q as real * d as real + r as real;
    assert n as real / d as real == q as real + r as real / d as real;
    assert 0.0 <= r as real / d as real < 1.0;
  }

  /** Exact arithmetic. */
  function Exact(): Rounding {
    x => x
  }

  /** Computed exactly, a jump is the integer quotient of the paper. */
  lemma ExactJump(b: nat, key: nat)
    ensures Jump(Exact(), b, key) == (b + 1) * TWO_31 / (key / TWO_33 + 1)
  {
    var d := key / TWO_33 + 1;
    var x := (b + 1) as real;
    MulDiv(x, TWO_31 as real, d as real);
    assert x * TWO_31 as real == ((b + 1) * TWO_31) as real;
    FloorOfQuotient((b + 1) * TWO_31, d);
  }

  lemma MulDiv(x: real, m: real, d: real)
    requires d > 0.0
    ensures x * (m / d) == x * m / d
  {}

  /** The quotient of 2^31 by the divisor, rounded down and up. */
  function FactorDown(key: nat): nat {
    TWO_31 / (key / TWO_33 + 1)
  }

  function FactorUp(key: nat): nat {
    (TWO_31 + key / TWO_33) / (key / TWO_33 + 1)
  }

  lemma QuotientBetween(n: nat, d: nat)
    requires d > 0
    ensures (n / d) as real <= n as real / d as real <= ((n + d - 1) / d) as real
  {
    FloorOfQuotient(n, d);
    var u := (n + d - 1) / d;
    assert n + d - 1 == u * d + (n + d - 1) % d;
    CastProduct(u, d);
    QuotientAtMost(n as real, u as real, d as real);
  }

  lemma QuotientAtMost(x: real, y: real, d: real)
    requires d > 0.0 && x <= y * d
    ensures x / d <= y
  {}

  lemma ProductBetween(x: real, lo: real, y: real, hi: real)
    requires x >= 0.0 && lo <= y <= hi
    ensures x * lo <= x * y <= x * hi
  {}

  /** In every rounding the factor lies between its quotient rounded down and up. */
  lemma FactorBetween(rnd: Rounding, key: nat)
    requires Faithful(rnd) && key < TWO_64
    ensures FactorDown(key) as real <= rnd(TWO_31 as real / (key / TWO_33 + 1) as real) <= FactorUp(key) as real
  {
    var d := key / TWO_33 + 1;
    QuotientBetween(TWO_31, d);
    QuotientsSmall(d);
    assert rnd(FactorDown(key) as real) == FactorDown(key) as real;
    assert rnd(FactorUp(key) as real) == FactorUp(key) as real;
  }

  lemma QuotientsSmall(d: nat)
    requires d > 0
    ensures TWO_31 / d <= TWO_53 && (TWO_31 + d - 1) / d <= TWO_53
  {
    var u := (TWO_31 + d - 1) / d;
    assert TWO_31 + d - 1 == u * d + (TWO_31 + d - 1) % d;
    MulMono(TWO_31 + 1, if u > TWO_31 then u else TWO_31 + 1, d);
    assert TWO_31 + d - 1 <= TWO_31 * d;
    var l := TWO_31 / d;
    assert TWO_31 == l * d + TWO_31 % d;
    assert l <= l * d;
  }

  lemma CastProduct(a: nat, b: nat)
    ensures (a * b) as real == a as real * b as real
  {}

  /** In every rounding a jump lies between the next bucket times the factor rounded down and up. */
  lemma JumpBetween(rnd: Rounding, b: nat, key: nat)
    requires Faithful(rnd) && key < TWO_64 && (b + 1) * FactorUp(key) <= TWO_53
    ensures (b + 1) * FactorDown(key) <= Jump(rnd, b, key) <= (b + 1) * FactorUp(key)
  {
    var y := rnd(TWO_31 as real / (key / TWO_33 + 1) as real);
    FactorBetween(rnd, key);
    ScaledBetween(rnd, b + 1, FactorDown(key), y, FactorUp(key));
  }

  lemma ScaledBetween(rnd: Rounding, k: nat, lo: nat, y: real, hi: nat)
    requires Faithful(rnd) && lo as real <= y <= hi as real && k * hi <= TWO_53
    ensures k * lo <= rnd(k as real * y).Floor <= k * hi
  {
    CastBetween(k, lo, y, hi);
    RoundsBetween(rnd, k * lo, k as real * y, k * hi);
  }

  lemma CastBetween(k: nat, lo: nat, y: real, hi: nat)
    requires lo as real <= y <= hi as real
    ensures (k * lo) as real <= k as real * y <= (k * hi) as real
  {
    CastProduct(k, lo);
    CastProduct(k, hi);
    ProductBetween(k as real, lo as real, y, hi as real);
  }

  /** When the divisor divides 2^31 that is one number, so all roundings agree. */
  lemma EvenJump(rnd: Rounding, b: nat, key: nat)
    requires Faithful(rnd) && key < TWO_64 && (b + 1) * FactorDown(key) <= TWO_53 && TWO_31 % (key / TWO_33 + 1) == 0
    ensures Jump(rnd, b, key) == (b + 1) * FactorDown(key)
  {
    DivisorFactor(key / TWO_33 + 1);
    JumpBetween(rnd, b, key);
  }

  lemma RoundsBetween(rnd: Rounding, lo: nat, x: real, hi: nat)
    requires Faithful(rnd) && lo as real <= x <= hi as real && hi <= TWO_53
    ensures lo <= rnd(x).Floor <= hi
  {
    assert rnd(lo as real) == lo as real && rnd(hi as real) == hi as real;
    assert rnd(lo as real) <= rnd(x) <= rnd(hi as real);
  }

  lemma DivisorFactor(d: nat)
    requires d > 0 && TWO_31 % d == 0
    ensures (TWO_31 + d - 1) / d == TWO_31 / d
  {
    var q := TWO_31 / d;
    assert TWO_31 == q * d;
    DivModUnique(TWO_31 + d - 1, d, q, d - 1);
  }

  // ---- The chain of buckets a key jumps through ----

  function KeyAt(key: nat, i: nat): nat {
    if i == 0 then key else NextKey(KeyAt(key, i - 1))
  }

  /** The `i`-th bucket the key visits; the number of buckets plays no part. */
  function Bucket(rnd: Rounding, key: nat, i: nat): int {
    if i == 0 then 0 else
      var b := Bucket(rnd, key, i - 1);
      if b < 0 then 0 else Jump(rnd, b, KeyAt(key, i))
  }

  type Chain = nat -> int

  ghost function ChainOf(rnd: Rounding, key: nat): Chain {
    (i: nat) => Bucket(rnd, key, i)
  }

  /** All that consistency needs of a chain. */
  ghost predicate Climbs(c: Chain) {
    forall i: nat :: c(i) >= 0 && (c(i + 1) > c(i) || c(i + 1) >= TWO_53)
  }

  lemma {:induction false} BucketStep(rnd: Rounding, key: nat, i: nat)
    requires Faithful(rnd)
    ensures Bucket(rnd, key, i) >= 0
    ensures Bucket(rnd, key, i + 1) > Bucket(rnd, key, i) || Bucket(rnd, key, i + 1) >= TWO_53
  {
    if i > 0 {
      BucketStep(rnd, key, i - 1);
    }
    JumpExceeds(rnd, Bucket(rnd, key, i), KeyAt(key, i + 1));
  }

  lemma ChainClimbs(rnd: Rounding, key: nat)
    requires Faithful(rnd)
    ensures Climbs(ChainOf(rnd, key))
  {
    var c := ChainOf(rnd, key);
    forall i: nat ensures c(i) >= 0 && (c(i + 1) > c(i) || c(i + 1) >= TWO_53) {
      BucketStep(rnd, key, i);
    }
  }

  /** The last visited bucket below `n`. */
  ghost predicate LastBelow(c: Chain, n: nat, r: int) {
    exists i: nat :: r == c(i) && 0 <= r < n <= c(i + 1)
  }

  ghost predicate IsHash(rnd: Rounding, key: nat, n: nat, r: int) {
    LastBelow(ChainOf(rnd, key), n, r)
  }

  method JumpHash(rnd: Rounding, key: nat, numBuckets: int) returns (r: int)
    requires Faithful(rnd) && key < TWO_64 && numBuckets < TWO_32
    ensures numBuckets <= 0 ==> r == -1
    ensures numBuckets > 0 ==> IsHash(rnd, key, numBuckets, r)
  {
    var b, j, k := -1, 0, key;
    ghost var i: nat, c := 0, ChainOf(rnd, key);
    ChainClimbs(rnd, key);
    while j < numBuckets
      invariant k == KeyAt(key, i) && j == c(i)
      invariant i == 0 ==> b == -1
      invariant i > 0 ==> b == c(i - 1) && 0 <= b < numBuckets
      decreases numBuckets - j
    {
      assert c(i + 1) == Jump(rnd, j, NextKey(k));
      b := j;
      k := NextKey(k);
      j := Jump(rnd, b, k);
      assert j < TWO_63 by {
        JumpAtMost(rnd, b, k);
      }
      i := i + 1;
    }
    r := b;
    if numBuckets > 0 {
      assert r == c(i - 1) && c(i - 1 + 1) >= numBuckets;
    }
  }

  lemma {:induction false} PastStaysPast(c: Chain, i: nat, j: nat, n: nat)
    requires Climbs(c) && i <= j && n <= TWO_53 && c(i) >= n
    ensures c(j) >= n
    decreases j - i
  {
    if i < j {
      PastStaysPast(c, i + 1, j, n);
    }
  }

  lemma {:induction false} BelowGrows(c: Chain, j: nat, i: nat, n: nat)
    requires Climbs(c) && j <= i && n <= TWO_53 && c(i) < n
    ensures c(j) <= c(i)
    decreases i - j
  {
    if j < i {
      if c(j + 1) >= n {
        PastStaysPast(c, j + 1, i, n);
      } else {
        BelowGrows(c, j + 1, i, n);
      }
    }
  }

  /** Every chain passes every bucket count. */
  lemma {:induction false} PassesEventually(c: Chain, n: nat, i: nat) returns (r: int)
    requires Climbs(c) && n < TWO_32 && c(i) < n
    ensures LastBelow(c, n, r)
    decreases n - c(i)
  {
    if c(i + 1) >= n {
      r := c(i);
    } else {
      r := PassesEventually(c, n, i + 1);
    }
  }

  /** For every positive bucket count a key has a hash, and it is a bucket. */
  lemma HashExists(rnd: Rounding, key: nat, n: nat) returns (r: int)
    requires Faithful(rnd) && 0 < n < TWO_32
    ensures IsHash(rnd, key, n, r) && 0 <= r < n
  {
    ChainClimbs(rnd, key);
    assert ChainOf(rnd, key)(0) == 0;
    r := PassesEventually(ChainOf(rnd, key), n, 0);
  }

  /** The hash is the largest bucket of the chain below `n`. */
  lemma HashIsLargest(c: Chain, n: nat, r: int, j: nat)
    requires Climbs(c) && n <= TWO_53 && LastBelow(c, n, r) && c(j) < n
    ensures c(j) <= r
  {
    var i: nat :| r == c(i) && 0 <= r < n <= c(i + 1);
    if j > i {
      PastStaysPast(c, i + 1, j, n);
    } else {
      BelowGrows(c, j, i, n);
    }
  }

  /** Consistency: growing from `n` to `m` buckets either leaves a key alone or moves it to one of
      the new buckets. */
  lemma GrowthMovesToNewBuckets(rnd: Rounding, key: nat, n: nat, m: nat, r: int, r': int)
    requires Faithful(rnd) && n <= m < TWO_32 && IsHash(rnd, key, n, r) && IsHash(rnd, key, m, r')
    ensures r' == r || n <= r' < m
  {
    var c := ChainOf(rnd, key);
    ChainClimbs(rnd, key);
    var i: nat :| r == c(i) && 0 <= r < n <= c(i + 1);
    var j: nat :| r' == c(j) && 0 <= r' < m <= c(j + 1);
    if r' < n {
      HashIsLargest(c, n, r, j);
      HashIsLargest(c, m, r', i);
    }
  }

  // ---- Routing ----

  datatype NodeStatus = Healthy | Degraded | Down

  datatype NodeInfo = NodeInfo(id: string, address: string, shardId: int, status: NodeStatus)

  predicate Serves(node: NodeInfo, shardId: int) {
    node.shardId == shardId && node.status != Down
  }

  /** `NodeRing.Get`: the first node in ring order that serves the shard. */
  method RingGet(nodes: seq<NodeInfo>, shardId: int) returns (r: Option<NodeInfo>)
    ensures r.None? ==> forall i :: 0 <= i < |nodes| ==> nodes[i].shardId != shardId || nodes[i].status == Down
    ensures r.Some? ==> r.value.shardId == shardId && r.value.status != Down
    ensures r.Some? ==> exists i :: 0 <= i < |nodes| && r.value == nodes[i]
                                    && forall j :: 0 <= j < i ==> !Serves(nodes[j], shardId)
  {
    for i := 0 to |nodes|
      invariant forall j :: 0 <= j < i ==> !Serves(nodes[j], shardId)
    {
      if nodes[i].shardId == shardId && nodes[i].status != Down {
        return Some(nodes[i]);
      }
    }
    r := None;
  }

  /** The router's answer for an account on the given shard. */
  ghost predicate RoutedTo(nodes: seq<NodeInfo>, shard: int, r: Option<NodeInfo>) {
    && (r.Some? <==> exists i :: 0 <= i < |nodes| && Serves(nodes[i], shard))
    && (r.Some? ==> r.value in nodes && r.value.shardId == shard && r.value.status != Down)
  }

  /** `RouteByAccount`: a node of the account's own shard, if one is up. */
  method RouteByAccount(rnd: Rounding, nodes: seq<NodeInfo>, shards: nat, account: nat) returns (r: Option<NodeInfo>)
    requires Faithful(rnd) && account < TWO_64 && 0 < shards < TWO_32
    ensures exists shard :: IsHash(rnd, account, shards, shard) && RoutedTo(nodes, shard, r)
  {
    var s := JumpHash(rnd, account, shards);
    r := RingGet(nodes, s);
    assert IsHash(rnd, account, shards, s) && RoutedTo(nodes, s, r);
  }

  method IsCrossShard(rnd: Rounding, shards: nat, from: nat, to: nat) returns (b: bool)
    requires Faithful(rnd) && from < TWO_64 && to < TWO_64 && 0 < shards < TWO_32
    ensures b <==> !exists s :: IsHash(rnd, from, shards, s) && IsHash(rnd, to, shards, s)
  {
    var s := JumpHash(rnd, from, shards);
    var t := JumpHash(rnd, to, shards);
    b := s != t;
    HashUnique(rnd, from, shards, s);
    HashUnique(rnd, to, shards, t);
  }

  lemma HashUnique(rnd: Rounding, key: nat, n: nat, r: int)
    requires Faithful(rnd) && n < TWO_32 && IsHash(rnd, key, n, r)
    ensures forall r' :: IsHash(rnd, key, n, r') ==> r' == r
  {
    forall r' | IsHash(rnd, key, n, r') ensures r' == r {
      GrowthMovesToNewBuckets(rnd, key, n, n, r, r');
    }
  }

  /** Growing the cluster never merges two accounts onto one old shard, nor splits two that both
      stay on old shards. */
  lemma GrowthKeepsCrossShard(rnd: Rounding, a: nat, b: nat, n: nat, m: nat, ra: int, rb: int, ra': int, rb': int)
    requires Faithful(rnd) && n <= m < TWO_32
    requires IsHash(rnd, a, n, ra) && IsHash(rnd, b, n, rb) && IsHash(rnd, a, m, ra') && IsHash(rnd, b, m, rb')
    ensures ra' < n && rb' < n ==> (ra' != rb' <==> ra != rb)
    ensures ra' == rb' < n ==> ra == rb
  {
    GrowthMovesToNewBuckets(rnd, a, n, m, ra, ra');
    GrowthMovesToNewBuckets(rnd, b, n, m, rb, rb');
  }

  /** Exact arithmetic is one such rounding: the chain is then the integer quotient. */
  lemma ExactIsFaithful()
    ensures Faithful(Exact())
  {}

  // ---- The hash in integers ----

  function PaperKey(k: nat): nat {
    (k * 2862933555777941757 + 1) % 0x1_0000_0000_0000_0000
  }

  function PaperJump(b: nat, k: nat): nat {
    (b + 1) * 0x8000_0000 / (k / 0x2_0000_0000 + 1)
  }

  lemma PaperJumpExceeds(b: nat, k: nat)
    requires k < 0x1_0000_0000_0000_0000
    ensures PaperJump(b, k) > b
  {
    var d, m := k / 0x2_0000_0000 + 1, 0x8000_0000;
    assert d <= m;
    var x := (b + 1) * m;
    assert x == (x / d) * d + x % d;
    MulMono(d, m, b + 1);
    if x / d <= b {
      MulMono(x / d, b, d);
      MulDist(b, 1, d);
    }
  }

  /** The loop over a key sequence and a jump, from key `k` and bucket `b` on. */
  function HashBy(next: nat -> nat, jump: (nat, nat) -> nat, k: nat, b: nat, n: nat): nat
    decreases n - b
  {
    var k' := next(k);
    var j := jump(b, k');
    if j >= n || j <= b then b else HashBy(next, jump, k', j, n)
  }

  /** The integer form of the algorithm in the paper. */
  function PaperHash(key: nat, n: nat): nat {
    HashBy(PaperKey, PaperJump, key, 0, n)
  }

  /** Keys and buckets of a chain follow the key sequence and the jump, upwards. */
  ghost predicate Walks(next: nat -> nat, jump: (nat, nat) -> nat, ks: nat -> nat, c: Chain, i: nat) {
    c(i) >= 0 && ks(i + 1) == next(ks(i)) && c(i + 1) == jump(c(i), ks(i + 1)) && c(i + 1) > c(i)
  }

  lemma {:induction false} HashByFrom(next: nat -> nat, jump: (nat, nat) -> nat, ks: nat -> nat, c: Chain, i: nat, n: nat)
    requires forall j: nat {:trigger Walks(next, jump, ks, c, j)} :: Walks(next, jump, ks, c, j)
    requires 0 <= c(i) < n
    ensures LastBelow(c, n, HashBy(next, jump, ks(i), c(i), n))
    decreases n - c(i)
  {
    assert Walks(next, jump, ks, c, i);
    if c(i + 1) < n {
      HashByFrom(next, jump, ks, c, i + 1, n);
    }
  }

  ghost function KeysOf(key: nat): nat -> nat {
    (i: nat) => KeyAt(key, i)
  }

  lemma PaperIsExact(b: nat, k: nat)
    ensures PaperKey(k) == NextKey(k) && Jump(Exact(), b, NextKey(k)) == PaperJump(b, PaperKey(k)) > b
  {
    ExactJump(b, NextKey(k));
    PaperJumpExceeds(b, PaperKey(k));
  }

  lemma NextBucket(rnd: Rounding, key: nat, i: nat)
    requires Bucket(rnd, key, i) >= 0
    ensures KeyAt(key, i + 1) == NextKey(KeyAt(key, i))
    ensures Bucket(rnd, key, i + 1) == Jump(rnd, Bucket(rnd, key, i), NextKey(KeyAt(key, i)))
  {}

  lemma ExactBuckets(key: nat, i: nat)
    ensures KeyAt(key, i + 1) == PaperKey(KeyAt(key, i)) && Bucket(Exact(), key, i) >= 0
    ensures Bucket(Exact(), key, i + 1) == PaperJump(Bucket(Exact(), key, i), KeyAt(key, i + 1)) > Bucket(Exact(), key, i)
  {
    assert Bucket(Exact(), key, i) >= 0 by {
      ExactIsFaithful();
      BucketStep(Exact(), key, i);
    }
    NextBucket(Exact(), key, i);
    PaperIsExact(Bucket(Exact(), key, i), KeyAt(key, i));
  }

  lemma ExactWalks(key: nat)
    ensures forall i: nat {:trigger Walks(PaperKey, PaperJump, KeysOf(key), ChainOf(Exact(), key), i)} ::
              Walks(PaperKey, PaperJump, KeysOf(key), ChainOf(Exact(), key), i)
  {
    forall i: nat ensures Walks(PaperKey, PaperJump, KeysOf(key), ChainOf(Exact(), key), i) {
      ExactBuckets(key, i);
    }
  }

  lemma PaperIsHash(key: nat, n: nat)
    requires n > 0
    ensures IsHash(Exact(), key, n, PaperHash(key, n))
  {
    ExactWalks(key);
    assert KeysOf(key)(0) == key && ChainOf(Exact(), key)(0) == 0;
    HashByFrom(PaperKey, PaperJump, KeysOf(key), ChainOf(Exact(), key), 0, n);
  }

  /** Computed exactly, the hash of every key is the integer algorithm of the paper. */
  lemma ExactHashIsPaper(key: nat, n: nat, r: int)
    requires 0 < n < TWO_32 && IsHash(Exact(), key, n, r)
    ensures r == PaperHash(key, n)
  {
    PaperIsHash(key, n);
    ExactIsFaithful();
    HashUnique(Exact(), key, n, r);
  }

  // ---- Known values ----

  lemma Walk42(next: nat -> nat, jump: (nat, nat) -> nat)
    requires next(42) == 9562744900416244099 && next(9562744900416244099) == 14010661636263409272
    requires next(14010661636263409272) == 2482660656413906073 && next(2482660656413906073) == 12779540726165998390
    requires next(12779540726165998390) == 15469935623126070367 && next(15469935623126070367) == 17576256497753526756
    requires next(17576256497753526756) == 1419670933141876309
    requires jump(0, 9562744900416244099) == 1 && jump(1, 14010661636263409272) == 2
    requires jump(2, 2482660656413906073) == 22 && jump(22, 12779540726165998390) == 33
    requires jump(33, 15469935623126070367) == 40 && jump(40, 17576256497753526756) == 43
    requires jump(43, 1419670933141876309) == 571
    ensures HashBy(next, jump, 42, 0, 57) == 43
  {
    assert HashBy(next, jump, 12779540726165998390, 33, 57) == 43;
  }

  lemma Known42(next: nat -> nat, jump: (nat, nat) -> nat)
    requires next == PaperKey && jump == PaperJump
    ensures HashBy(next, jump, 42, 0, 57) == 43
  {
    Walk42(next, jump);
  }

  lemma Walk2(next: nat -> nat, jump: (nat, nat) -> nat)
    requires next(2) == 5725867111555883515 && next(5725867111555883515) == 12177941594710369552
    requires jump(0, 5725867111555883515) == 3 && jump(3, 12177941594710369552) == 6
    ensures HashBy(next, jump, 2, 0, 4) == 3
  {}

  lemma Known2(next: nat -> nat, jump: (nat, nat) -> nat)
    requires next == PaperKey && jump == PaperJump
    ensures HashBy(next, jump, 2, 0, 4) == 3
  {
    Walk2(next, jump);
  }

  /** Values published with other implementations of the hash. */
  lemma KnownHashes()
    ensures PaperHash(2, 4) == 3 && PaperHash(42, 57) == 43
  {
    Known2(PaperKey, PaperJump);
    Known42(PaperKey, PaperJump);
  }
}
