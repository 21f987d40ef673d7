/** Coordinate frames of the grammar: octave subsampling, virtual padding and
    anchors (src/pydro/core.py, the index arithmetic shared by filtering and
    parsing). */
module Geometry {

  /** `1 << d`, equivalently `2 ** d`. */
  function Pow2(d: nat): (r: nat)
    ensures r >= 1
  {
    if d == 0 then 1 else 2 * Pow2(d - 1)
  }

  lemma {:induction false} Pow2Add(a: nat, b: nat)
    ensures Pow2(a + b) == Pow2(a) * Pow2(b)
  {
    if a > 0 {
      Pow2Add(a - 1, b);
      assert Pow2(a + b) == 2 * Pow2(a - 1 + b);
    }
  }

  /** The virtual padding accumulated by `d` halvings of resolution:
      `pad * ((1 << d) - 1)`. */
  function VirtualPad(pad: int, d: nat): int
  {
    pad * (Pow2(d) - 1)
  }

  /** The position of a logical (padded) coordinate in the raw array:
      `p - pad * ((1 << d) - 1)`. */
  function NonVirtual(p: int, pad: int, d: nat): (q: int)
    ensures d == 0 ==> q == p
  {
    p - VirtualPad(pad, d)
  }

  /** The inverse of NonVirtual: a raw array position back to the logical frame. */
  function Virtual(q: int, pad: int, d: nat): (p: int)
    ensures NonVirtual(p, pad, d) == q
  {
    q + VirtualPad(pad, d)
  }

  /** The pyramid level of a child placed `ds` octaves finer. */
  function ChildLevel(l: int, interval: nat, ds: nat): (r: int)
    ensures r <= l && (ds == 0 ==> r == l)
  {
    l - interval * ds
  }

  /** One coordinate of an anchored child: `p * (1 << ds) + a`. */
  function AnchorCoord(p: int, a: int, ds: nat): int
  {
    p * Pow2(ds) + a
  }

  /** Mapping an anchored child's logical coordinate to its raw array position
      depends on the parent only through the parent's raw position: the child
      of a cell `q` of the parent's array lies at `q * 2^ads + a - pad * (2^ads - 1)`
      of the child's array, whatever the parent's own subsampling `ds`. */
  lemma AnchorNonVirtual(q: int, a: int, pad: int, ds: nat, ads: nat)
    ensures NonVirtual(AnchorCoord(Virtual(q, pad, ds), a, ads), pad, ds + ads)
            == q * Pow2(ads) + a - VirtualPad(pad, ads)
  {
    Pow2Add(ds, ads);
    AnchorArith(q, a, pad, Pow2(ds), Pow2(ads));
  }

  lemma AnchorArith(q: int, a: int, pad: int, P: int, A: int)
    ensures (q + pad * (P - 1)) * A + a - pad * (P * A - 1) == q * A + a - pad * (A - 1)
  {
    assert (q + pad * (P - 1)) * A == q * A + pad * (P - 1) * A;
    assert pad * (P - 1) * A == pad * P * A - pad * A;
  }
}
