/**
 Volume-tiered invoicing: one price per window, taken at the volume before the window, against the
 exact price of every single transaction.
 */
module Pricing {
  import opened Bits

  datatype Tier = Free | CloudSaaS | Enterprise

  /** Price of the transaction made after `cumulative` others, in micro-USD. */
  function PricePerTx(tier: Tier, cumulative: int): int {
    if tier != CloudSaaS then 0
    else if cumulative < 1_000_000 then 1_000
    else if cumulative < 10_000_000 then 500
    else if cumulative < 100_000_000 then 200
    else 100
  }

  datatype Line = Line(txCount: int, pricePerTx: int, total: int)

  // ---- Specification ----

  function Volume(counts: seq<nat>): nat {
    if counts == [] then 0 else counts[0] + Volume(counts[1..])
  }

  /** What the windows are billed, starting from a cumulative volume. */
  function Billed(tier: Tier, from: nat, counts: seq<nat>): int
    decreases |counts|
  {
    if counts == [] then 0
    else PricePerTx(tier, from) * counts[0] + Billed(tier, from + counts[0], counts[1..])
  }

  /** What the same transactions cost one by one. */
  function Exact(tier: Tier, from: nat, n: nat): int
    decreases n
  {
    if n == 0 then 0 else PricePerTx(tier, from) + Exact(tier, from + 1, n - 1)
  }

  // ---- Thresholds ----

  /** How much of a window of `n` is billed, and how much truly lies, below a volume threshold. */
  function BilledBelow(t: nat, from: nat, n: nat): nat {
    if from < t then n else 0
  }

  function TrulyBelow(t: nat, from: nat, n: nat): nat {
    if from >= t then 0 else if from + n <= t then n else t - from
  }

  /** How many transactions are billed as below the threshold although they are not. */
  function Excess(t: nat, from: nat, counts: seq<nat>): int
    decreases |counts|
  {
    if counts == [] then 0
    else BilledBelow(t, from, counts[0]) - TrulyBelow(t, from, counts[0]) + Excess(t, from + counts[0], counts[1..])
  }

  /** The schedule as three surcharges over a base price. */
  lemma {:induction false} ExactByThreshold(from: nat, n: nat)
    ensures Exact(CloudSaaS, from, n) == 100 * n + 500 * TrulyBelow(1_000_000, from, n)
                                         + 300 * TrulyBelow(10_000_000, from, n) + 100 * TrulyBelow(100_000_000, from, n)
    decreases n
  {
    if n > 0 {
      ExactByThreshold(from + 1, n - 1);
    }
  }

  lemma {:induction false} ExactSplits(tier: Tier, from: nat, n: nat, m: nat)
    ensures Exact(tier, from, n + m) == Exact(tier, from, n) + Exact(tier, from + n, m)
    decreases n
  {
    if n > 0 {
      ExactSplits(tier, from + 1, n - 1, m);
    }
  }

  lemma BilledWindow(from: nat, n: nat)
    ensures PricePerTx(CloudSaaS, from) * n == 100 * n + 500 * BilledBelow(1_000_000, from, n)
                                               + 300 * BilledBelow(10_000_000, from, n) + 100 * BilledBelow(100_000_000, from, n)
  {
  }

  function Overcharge(from: nat, counts: seq<nat>): int {
    500 * Excess(1_000_000, from, counts) + 300 * Excess(10_000_000, from, counts) + 100 * Excess(100_000_000, from, counts)
  }

  /** The invoice differs from the exact price by the surcharges on the excess alone. */
  lemma {:induction false} BilledMinusExact(from: nat, counts: seq<nat>)
    ensures Billed(CloudSaaS, from, counts) - Exact(CloudSaaS, from, Volume(counts)) == Overcharge(from, counts)
    decreases |counts|
  {
    if counts != [] {
      var c, rest := counts[0], counts[1..];
      BilledMinusExact(from + c, rest);
      ExactSplits(CloudSaaS, from, c, Volume(rest));
      ExactByThreshold(from, c);
      BilledWindow(from, c);
    }
  }

  /** Only the window that crosses a threshold is billed too much, and at least its first
      transaction rightly. */
  lemma {:induction false} ExcessBound(t: nat, from: nat, counts: seq<nat>, m: nat)
    requires m >= 1 && forall i :: 0 <= i < |counts| ==> counts[i] <= m
    ensures 0 <= Excess(t, from, counts) <= if from < t then m - 1 else 0
    decreases |counts|
  {
    if counts != [] {
      assert counts[0] <= m;
      ExcessBound(t, from + counts[0], counts[1..], m);
    }
  }

  // ---- The theorems ----

  /** For every usage history the invoice is at least the exact price and above it by at most 900
      micro-USD for every transaction but one of the largest window; with windows of at most one
      transaction it is exact. Other tiers are billed nothing. */
  lemma InvoiceWithinBound(tier: Tier, counts: seq<nat>, m: nat)
    requires m >= 1 && forall i :: 0 <= i < |counts| ==> counts[i] <= m
    ensures 0 <= Billed(tier, 0, counts) - Exact(tier, 0, Volume(counts)) <= 900 * (m - 1)
  {
    if tier == CloudSaaS {
      BilledMinusExact(0, counts);
      ExcessBound(1_000_000, 0, counts, m);
      ExcessBound(10_000_000, 0, counts, m);
      ExcessBound(100_000_000, 0, counts, m);
    } else {
      OtherTiersFree(tier, 0, counts, Volume(counts));
    }
  }

  lemma {:induction false} OtherTiersFree(tier: Tier, from: nat, counts: seq<nat>, n: nat)
    requires tier != CloudSaaS
    ensures Billed(tier, from, counts) == 0 && Exact(tier, from, n) == 0
    decreases |counts| + n
  {
    if counts != [] {
      OtherTiersFree(tier, from + counts[0], counts[1..], 0);
    }
    if n > 0 {
      OtherTiersFree(tier, from + 1, [], n - 1);
    }
  }

  lemma {:induction false} VolumeConcat(a: seq<nat>, b: seq<nat>)
    ensures Volume(a + b) == Volume(a) + Volume(b)
    decreases |a|
  {
    if a == [] {
      assert a + b == b;
    } else {
      VolumeConcat(a[1..], b);
      assert (a + b)[1..] == a[1..] + b;
    }
  }

  lemma {:induction false} BilledConcat(tier: Tier, from: nat, a: seq<nat>, b: seq<nat>)
    ensures Billed(tier, from, a + b) == Billed(tier, from, a) + Billed(tier, from + Volume(a), b)
    decreases |a|
  {
    if a == [] {
      assert a + b == b;
    } else {
      BilledConcat(tier, from + a[0], a[1..], b);
      assert (a + b)[1..] == a[1..] + b;
    }
  }

  lemma MergedWindow(tier: Tier, from: nat, a: nat, b: nat)
    ensures Volume([a, b]) == Volume([a + b]) == a + b
    ensures Billed(tier, from, [a, b]) <= Billed(tier, from, [a + b])
  {
    assert [a, b][1..] == [b] && [b][1..] == [] && [a + b][1..] == [];
    var p, q := PricePerTx(tier, from), PricePerTx(tier, from + a);
    MulMono(q, p, b);
    assert p * (a + b) == p * a + p * b;
  }

  /** Merging two neighbouring windows never lowers the invoice. */
  lemma MergeNeverLowers(tier: Tier, before: seq<nat>, a: nat, b: nat, after: seq<nat>)
    ensures Billed(tier, 0, before + ([a, b] + after)) <= Billed(tier, 0, before + ([a + b] + after))
  {
    var v := Volume(before);
    BilledConcat(tier, 0, before, [a, b] + after);
    BilledConcat(tier, 0, before, [a + b] + after);
    BilledConcat(tier, v, [a, b], after);
    BilledConcat(tier, v, [a + b], after);
    MergedWindow(tier, v, a, b);
  }

  // ---- The bound cannot be improved ----

  function Ones(k: nat): seq<nat> {
    seq(k, _ => 1)
  }

  lemma {:induction false} OnesAreExact(t: nat, from: nat, k: nat)
    ensures Excess(t, from, Ones(k)) == 0 && Volume(Ones(k)) == k
    decreases k
  {
    if k > 0 {
      OnesAreExact(t, from + 1, k - 1);
      assert Ones(k)[1..] == Ones(k - 1);
    }
  }

  lemma {:induction false} ExcessConcat(t: nat, from: nat, a: seq<nat>, b: seq<nat>)
    ensures Excess(t, from, a + b) == Excess(t, from, a) + Excess(t, from + Volume(a), b)
    decreases |a|
  {
    if a == [] {
      assert a + b == b;
    } else {
      ExcessConcat(t, from + a[0], a[1..], b);
      assert (a + b)[1..] == a[1..] + b;
    }
  }

  /** `k` windows of one transaction, then one window of `m`. */
  function Leg(k: nat, m: nat): seq<nat> {
    Ones(k) + [m]
  }

  lemma LegExcess(t: nat, from: nat, k: nat, m: nat)
    ensures Volume(Leg(k, m)) == k + m
    ensures Excess(t, from, Leg(k, m)) == BilledBelow(t, from + k, m) - TrulyBelow(t, from + k, m)
  {
    OnesAreExact(t, from, k);
    ExcessConcat(t, from, Ones(k), [m]);
    VolumeConcat(Ones(k), [m]);
    assert [m][1..] == [];
  }

  /** A history whose windows of `m` start just below each threshold. */
  function WorstHistory(m: nat): seq<nat>
    requires m <= 9_000_000
  {
    Leg(999_999, m) + (Leg(9_000_000 - m, m) + Leg(90_000_000 - m, m))
  }

  lemma WorstExcess(t: nat, m: nat)
    requires 1 <= m <= 9_000_000 && t in {1_000_000, 10_000_000, 100_000_000}
    ensures Excess(t, 0, WorstHistory(m)) == m - 1
  {
    var a, b, c := Leg(999_999, m), Leg(9_000_000 - m, m), Leg(90_000_000 - m, m);
    ExcessConcat(t, 0, a, b + c);
    LegExcess(t, 0, 999_999, m);
    ExcessConcat(t, 999_999 + m, b, c);
    LegExcess(t, 999_999 + m, 9_000_000 - m, m);
    LegExcess(t, 9_999_999 + m, 90_000_000 - m, m);
  }

  /** For every window size up to nine million the bound is reached. */
  lemma BoundIsReached(m: nat)
    requires 1 <= m <= 9_000_000
    ensures forall i :: 0 <= i < |WorstHistory(m)| ==> WorstHistory(m)[i] <= m
    ensures var counts := WorstHistory(m);
            Billed(CloudSaaS, 0, counts) - Exact(CloudSaaS, 0, Volume(counts)) == 900 * (m - 1)
  {
    BilledMinusExact(0, WorstHistory(m));
    WorstExcess(1_000_000, m);
    WorstExcess(10_000_000, m);
    WorstExcess(100_000_000, m);
  }

  // ---- The code, on 64-bit integers ----

  const TWO63 := 0x8000_0000_0000_0000
  const TWO64 := 0x1_0000_0000_0000_0000

  /** Two's-complement truncation to 64 bits. */
  function Wrap64(x: int): (r: int)
    ensures -TWO63 <= r < TWO63
    ensures -TWO63 <= x < TWO63 ==> r == x
    ensures (x - r) % 0x1_0000_0000_0000_0000 == 0
  {
    (x + TWO63) % TWO64 - TWO63
  }

  /** Truncating early does not change a truncated sum. */
  lemma WrapAdd(a: int, b: int)
    ensures Wrap64(Wrap64(a) + b) == Wrap64(a + b)
  {
    var q := (a + TWO63) / TWO64;
    assert Wrap64(a) == a - q * TWO64;
    ModShift(a + b + TWO63, TWO64, -q);
  }

  function LineTotals(lines: seq<Line>): int {
    if lines == [] then 0 else LineTotals(lines[..|lines| - 1]) + lines[|lines| - 1].total
  }

  /** The volume for which no intermediate value can leave 64 bits. */
  predicate Fits(counts: seq<nat>) {
    1_000 * Volume(counts) < TWO63
  }

  lemma SplitAt(tier: Tier, counts: seq<nat>, i: nat)
    requires i < |counts|
    ensures Volume(counts[..i + 1]) == Volume(counts[..i]) + counts[i] <= Volume(counts)
    ensures Billed(tier, 0, counts[..i + 1]) ==
              Billed(tier, 0, counts[..i]) + PricePerTx(tier, Volume(counts[..i])) * counts[i]
  {
    assert counts[..i + 1] == counts[..i] + [counts[i]];
    assert [counts[i]][1..] == [];
    VolumeConcat(counts[..i], [counts[i]]);
    BilledConcat(tier, 0, counts[..i], [counts[i]]);
    assert counts == counts[..i + 1] + counts[i + 1..];
    VolumeConcat(counts[..i + 1], counts[i + 1..]);
  }

  /** `CalculateInvoice`: one line per window, priced at the volume before it; the lines add up to the
      bill. */
  method CalculateInvoice(tier: Tier, counts: seq<nat>) returns (lines: seq<Line>)
    ensures |lines| == |counts|
    ensures forall i :: 0 <= i < |lines| ==> lines[i].txCount == counts[i]
    ensures Fits(counts) ==> LineTotals(lines) == Billed(tier, 0, counts)
    ensures Fits(counts) ==> forall i :: 0 <= i < |lines| ==>
                               && lines[i].pricePerTx == PricePerTx(tier, Volume(counts[..i]))
                               && lines[i].total == lines[i].pricePerTx * lines[i].txCount
  {
    lines := [];
    var cumulative := 0;
    for i := 0 to |counts|
      invariant |lines| == i
      invariant forall j :: 0 <= j < i ==> lines[j].txCount == counts[j]
      invariant Fits(counts) ==> cumulative == Volume(counts[..i]) <= Volume(counts)
      invariant Fits(counts) ==> LineTotals(lines) == Billed(tier, 0, counts[..i])
      invariant Fits(counts) ==> forall j :: 0 <= j < i ==>
                                   && lines[j].pricePerTx == PricePerTx(tier, Volume(counts[..j]))
                                   && lines[j].total == lines[j].pricePerTx * lines[j].txCount
    {
      var price := PricePerTx(tier, cumulative);
      SplitAt(tier, counts, i);
      MulMono(price, 1_000, counts[i]);
      var line := Line(counts[i], price, Wrap64(price * counts[i]));
      assert (lines + [line])[..i] == lines;
      lines := lines + [line];
      cumulative := Wrap64(cumulative + counts[i]);
    }
    assert counts[..|counts|] == counts;
  }

  /** `TotalInvoiceMicroUSD`: the sum, truncated. */
  method TotalInvoice(lines: seq<Line>) returns (total: int)
    ensures total == Wrap64(LineTotals(lines))
  {
    total := 0;
    for i := 0 to |lines|
      invariant total == Wrap64(LineTotals(lines[..i]))
    {
      assert lines[..i + 1][..i] == lines[..i];
      WrapAdd(LineTotals(lines[..i]), lines[i].total);
      total := Wrap64(total + lines[i].total);
    }
    assert lines[..|lines|] == lines;
  }

  lemma {:induction false} BilledAtMost(tier: Tier, from: nat, counts: seq<nat>)
    ensures 0 <= Billed(tier, from, counts) <= 1_000 * Volume(counts)
    decreases |counts|
  {
    if counts != [] {
      BilledAtMost(tier, from + counts[0], counts[1..]);
      MulMono(PricePerTx(tier, from), 1_000, counts[0]);
      MulMono(0, PricePerTx(tier, from), counts[0]);
    }
  }

  /** Both steps together: for volumes that fit, the amount charged is the bill. */
  method Charge(tier: Tier, counts: seq<nat>) returns (total: int)
    ensures Fits(counts) ==> total == Billed(tier, 0, counts)
  {
    var lines := CalculateInvoice(tier, counts);
    total := TotalInvoice(lines);
    BilledAtMost(tier, 0, counts);
  }
}
