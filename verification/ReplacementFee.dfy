/** The least priority fee a replacement must offer, `math.ceil(p * 1.125)`, as the source computes it: in
    binary64, rounding to nearest with ties to even. All quantities are counted in eighths, so they are
    integers. */
module ReplacementFee {

  const SIGNIFICANDS: nat := 0x20_0000_0000_0000

  /** The distance between neighbouring doubles around `n` eighths, never below an eighth. */
  function Grain(n: nat): (g: nat)
    ensures g > 0 && n < SIGNIFICANDS * g
    decreases n
  {
    if n < SIGNIFICANDS then 1 else 2 * Grain(n / 2)
  }

  /** The double nearest to `n` eighths. */
  function Round(n: nat): nat {
    var g := Grain(n);
    var q, r := n / g, n % g;
    if 2 * r < g || (2 * r == g && q % 2 == 0) then q * g else (q + 1) * g
  }

  /** `float(p)`, in eighths. */
  function FromInt(p: nat): nat {
    Round(8 * p)
  }

  /** `p * 1.125` in eighths: the integer is converted, the product rounded. */
  function Product(p: nat): nat {
    Round(9 * FromInt(p) / 8)
  }

  /** `math.ceil(p * 1.125)`. Rounding is symmetric about zero. */
  function MinPriority(p: int): int {
    if p >= 0 then (Product(p) + 7) / 8 else 0 - Product(0 - p) / 8
  }

  /** From this fee on the product is no longer always exact. */
  const FIRST_INEXACT: nat := 1_000_799_917_193_444

  lemma SmallIsExact(n: nat)
    requires n < SIGNIFICANDS
    ensures Round(n) == n
  {
  }

  /** Below it, the required fee is nine eighths of the previous one, rounded up. */
  lemma MinPriorityIsNineEighths(p: nat)
    requires p < FIRST_INEXACT
    ensures MinPriority(p) == (9 * p + 7) / 8
    ensures forall q: int :: q >= MinPriority(p) <==> 8 * q >= 9 * p
  {
    SmallIsExact(8 * p);
    SmallIsExact(9 * p);
  }

  lemma NextBinade(n: nat)
    requires SIGNIFICANDS <= n < 2 * SIGNIFICANDS
    ensures Grain(n) == 2
    ensures Round(n) == if n % 4 == 1 then n - 1 else if n % 4 == 3 then n + 1 else n
  {
    assert Grain(n / 2) == 1;
  }

  lemma ConversionIsExact(p: nat)
    requires 8 * p < 2 * SIGNIFICANDS
    ensures FromInt(p) == 8 * p
  {
    if 8 * p < SIGNIFICANDS {
      SmallIsExact(8 * p);
    } else {
      NextBinade(8 * p);
    }
  }

  /** The last fee for which the product stays within one binade of exactness. */
  const LAST_NEAR: nat := 2_001_599_834_386_887

  lemma ProductBeyond(p: nat)
    requires FIRST_INEXACT <= p <= LAST_NEAR
    ensures Product(p) == if p % 4 == 1 then 9 * p - 1 else if p % 4 == 3 then 9 * p + 1 else 9 * p
  {
    hide Round, FromInt, Grain;
    ConversionIsExact(p);
    assert 9 * (8 * p) / 8 == 9 * p;
    NextBinade(9 * p);
  }

  /** Whole eighths leave the quotient. */
  lemma EighthsOf(t: nat, c: nat)
    ensures (72 * t + c) / 8 == 9 * t + c / 8
  {
  }

  /** Rounding up nine times `8t + s` eighths, taken to the nearest even eighth. */
  lemma NineEighthsUp(t: nat, s: nat, r: nat)
    requires s < 8 && r == 72 * t + 9 * s + if s % 4 == 1 then -1 else if s % 4 == 3 then 1 else 0
    ensures (r + 7) / 8 == 9 * t + if s <= 1 then s else s + 1
  {
    var c := 9 * s + if s % 4 == 1 then -1 else if s % 4 == 3 then 1 else 0;
    assert c in [0, 8, 18, 28, 36, 44, 54, 64];
    EighthsOf(t, c + 7);
  }

  /** The two quotients of the statement below, in the same terms. */
  lemma NineEighthsQuotients(t: nat, s: nat)
    requires s < 8
    ensures s >= 1 ==> (72 * t + 9 * s - 1) / 8 == 9 * t + (9 * s - 1) / 8
    ensures (72 * t + 9 * s + 7) / 8 == 9 * t + (9 * s + 7) / 8
    ensures (9 * s + 7) / 8 == if s == 0 then 0 else s + 1
  {
    if s >= 1 {
      EighthsOf(t, 9 * s - 1);
    }
    EighthsOf(t, 9 * s + 7);
    assert s in [0, 1, 2, 3, 4, 5, 6, 7];
  }

  lemma ByEight(p: nat)
    ensures p == 8 * (p / 8) + p % 8 && p % 4 == (p % 8) % 4
  {
    var t, s, q := p / 8, p % 8, p / 4;
    var d := q - 2 * t;
    assert s == 4 * d + p % 4;
    assert d == 0 || d == 1;
  }

  /** There the required fee is one too small exactly at one residue. */
  lemma MinPriorityBeyond(p: nat)
    requires FIRST_INEXACT <= p <= LAST_NEAR
    ensures MinPriority(p) == if p % 8 == 1 then (9 * p - 1) / 8 else (9 * p + 7) / 8
    ensures 8 * MinPriority(p) >= 9 * p <==> p % 8 != 1
  {
    hide Product;
    ProductBeyond(p);
    ByEight(p);
    var t, s := p / 8, p % 8;
    var r := Product(p);
    assert 9 * p == 72 * t + 9 * s;
    NineEighthsUp(t, s, r);
    NineEighthsQuotients(t, s);
    assert MinPriority(p) == 9 * t + if s <= 1 then s else s + 1;
  }

  /** The least fee with too small a bump, and that bump. */
  const SHORT_FEE: nat := 1_000_799_917_193_449
  const SHORT_BUMP: nat := 1_125_899_906_842_630

  /** What the bump rule and the cap on fees let follow `p`. */
  predicate Follows(p: nat, q: int, cap: int) {
    p <= cap && MinPriority(p) <= q <= cap
  }

  predicate AnEighthMore(p: nat, q: int) {
    8 * q >= 9 * p
  }

  ghost predicate BumpLaw(cap: int) {
    forall p: nat, q: int :: Follows(p, q, cap) ==> AnEighthMore(p, q)
  }

  lemma FirstShortfall()
    ensures MinPriority(SHORT_FEE) == SHORT_BUMP && !AnEighthMore(SHORT_FEE, SHORT_BUMP)
  {
    MinPriorityBeyond(SHORT_FEE);
  }

  /** Every bump that is accepted is at least an eighth exactly when the cap on fees is below the first
      bump that falls short, 2^50 + 6. */
  lemma BumpLawIff(cap: int)
    ensures BumpLaw(cap) <==> cap < SHORT_BUMP
  {
    hide MinPriority;
    FirstShortfall();
    if cap < SHORT_BUMP {
      forall p: nat, q: int | Follows(p, q, cap) ensures AnEighthMore(p, q) {
        if p < FIRST_INEXACT {
          MinPriorityIsNineEighths(p);
        } else {
          MinPriorityBeyond(p);
        }
      }
    } else {
      assert Follows(SHORT_FEE, SHORT_BUMP, cap);
    }
  }
}
