/** 64-bit words: single bits, masks, and counting trailing zeros. */
module Words {
  const ONES: bv64 := 0xFFFF_FFFF_FFFF_FFFF

  function Count(k: nat): (r: bv64)
    requires k < 64
    ensures r as nat == k && r <= 63
  {
    if k == 0 then 0 else Count(k - 1) + 1
  }

  /** A bit position as a shift amount. */
  function Ix(k: nat): (r: bv64)
    requires k < 64
    ensures r <= 63
  {
    Count(k)
  }

  lemma {:induction false} IxLess(a: nat, b: nat)
    requires a < b < 64
    ensures Ix(a) < Ix(b)
    decreases b
  {
    if a == b - 1 {
    } else {
      IxLess(a, b - 1);
    }
  }

  lemma IxNext(k: nat)
    requires k < 63
    ensures Ix(k + 1) == Ix(k) + 1 && Ix(k) < 63
  {
    IxLess(k, 63);
  }

  lemma IxEnds()
    ensures Ix(0) == 0 && Ix(63) == 63
  {}

  lemma IxOrder(a: nat, b: nat)
    requires a < 64 && b < 64
    ensures (Ix(a) <= Ix(b) <==> a <= b) && (Ix(a) == Ix(b) <==> a == b)
  {
    hide Ix;
    if a < b { IxLess(a, b); } else if b < a { IxLess(b, a); }
  }

  // ---- bits -----------------------------------------------------------------------------------------

  predicate BitAt(w: bv64, k: bv64)
    requires k <= 63
  {
    (w >> k) & 1 == 1
  }

  predicate Bit(w: bv64, k: nat)
    requires k < 64
  {
    BitAt(w, Ix(k))
  }

  function And(v: bv64, w: bv64): bv64 { v & w }
  function Or(v: bv64, w: bv64): bv64 { v | w }
  function Not(v: bv64): bv64 { !v }

  lemma AndAt(v: bv64, w: bv64, k: bv64)
    requires k <= 63
    ensures BitAt(And(v, w), k) <==> BitAt(v, k) && BitAt(w, k)
  {}

  lemma NotAt(v: bv64, k: bv64)
    requires k <= 63
    ensures BitAt(Not(v), k) <==> !BitAt(v, k)
  {}

  lemma DeMorgan(v: bv64, w: bv64)
    ensures Or(v, w) == Not(And(Not(v), Not(w)))
  {}

  lemma OrAt(v: bv64, w: bv64, k: bv64)
    requires k <= 63
    ensures BitAt(Or(v, w), k) <==> BitAt(v, k) || BitAt(w, k)
  {
    hide BitAt, And, Or, Not;
    DeMorgan(v, w);
    NotAt(v, k);
    NotAt(w, k);
    AndAt(Not(v), Not(w), k);
    NotAt(And(Not(v), Not(w)), k);
  }

  lemma ConstAt(k: bv64)
    requires k <= 63
    ensures BitAt(ONES, k) && !BitAt(0, k)
  {}

  lemma OpBits(v: bv64, w: bv64, k: nat)
    requires k < 64
    ensures Bit(Or(v, w), k) <==> Bit(v, k) || Bit(w, k)
    ensures Bit(And(v, w), k) <==> Bit(v, k) && Bit(w, k)
    ensures Bit(Not(v), k) <==> !Bit(v, k)
    ensures Bit(ONES, k) && !Bit(0, k)
  {
    hide BitAt, Ix, And, Or, Not;
    OrAt(v, w, Ix(k));
    AndAt(v, w, Ix(k));
    NotAt(v, Ix(k));
    ConstAt(Ix(k));
  }

  // ---- masks ----------------------------------------------------------------------------------------

  function OneAt(a: bv64): bv64
    requires a <= 63
  { 1 << a }

  function FromAt(a: bv64): bv64
    requires a <= 63
  { ONES << a }

  function UpToAt(a: bv64): bv64
    requires a <= 63
  { ONES >> (63 - a) }

  function BelowAt(a: bv64): bv64
    requires a <= 63
  { (1 << a) - 1 }

  function One(k: nat): bv64
    requires k < 64
  { OneAt(Ix(k)) }

  function From(k: nat): bv64
    requires k < 64
  { FromAt(Ix(k)) }

  function UpTo(k: nat): bv64
    requires k < 64
  { UpToAt(Ix(k)) }

  function Below(k: nat): bv64
    requires k < 64
  { BelowAt(Ix(k)) }

  lemma FromBit(a: bv64, k: bv64)
    requires a <= 63 && k <= 63
    ensures BitAt(FromAt(a), k) <==> a <= k
  {}

  lemma UpToBit(a: bv64, k: bv64)
    requires a <= 63 && k <= 63
    ensures BitAt(UpToAt(a), k) <==> k <= a
  {}

  lemma BelowBit(a: bv64, k: bv64)
    requires a <= 63 && k <= 63
    ensures BitAt(BelowAt(a), k) <==> !(a <= k)
  {}

  lemma OneBit(a: bv64, k: bv64)
    requires a <= 63 && k <= 63
    ensures BitAt(OneAt(a), k) <==> a == k
  {}

  /** Which bits each mask of the bitmap code holds. */
  lemma MaskBits(a: nat, k: nat)
    requires a < 64 && k < 64
    ensures Bit(From(a), k) <==> a <= k
    ensures Bit(UpTo(a), k) <==> k <= a
    ensures Bit(Below(a), k) <==> k < a
    ensures Bit(One(a), k) <==> k == a
  {
    hide BitAt, Ix, FromAt, UpToAt, BelowAt, OneAt;
    FromBit(Ix(a), Ix(k));
    UpToBit(Ix(a), Ix(k));
    BelowBit(Ix(a), Ix(k));
    OneBit(Ix(a), Ix(k));
    IxOrder(a, k);
    IxOrder(k, a);
  }

  // ---- trailing zeros -------------------------------------------------------------------------------

  predicate RestAt(w: bv64, k: bv64)
    requires k <= 63
  {
    w >> k != 0
  }

  lemma RestOn(w: bv64, k: bv64, n: bv64)
    requires k <= 63 && RestAt(w, k) && !BitAt(w, k)
    ensures k < 63 && (n == k + 1 ==> RestAt(w, n))
  {}

  lemma RestNext(w: bv64, k: nat)
    requires k < 64 && RestAt(w, Ix(k)) && !Bit(w, k)
    ensures k < 63 && RestAt(w, Ix(k + 1))
  {
    hide BitAt, Ix, RestAt;
    if k == 63 {
      IxEnds();
      RestOn(w, Ix(k), 0);
    } else {
      IxNext(k);
      RestOn(w, Ix(k), Ix(k + 1));
    }
  }

  function CtzFrom(w: bv64, k: nat): (r: nat)
    requires k < 64
    ensures k <= r < 64
    decreases 64 - k
  {
    if k == 63 || Bit(w, k) then k else CtzFrom(w, k + 1)
  }

  lemma {:induction false} CtzFromIs(w: bv64, k: nat)
    requires k < 64 && RestAt(w, Ix(k))
    ensures Bit(w, CtzFrom(w, k)) && forall j :: k <= j < CtzFrom(w, k) ==> !Bit(w, j)
    decreases 64 - k
  {
    hide Bit, Ix, RestAt;
    if Bit(w, k) {
    } else {
      RestNext(w, k);
      CtzFromIs(w, k + 1);
    }
  }

  lemma AllRest(w: bv64)
    ensures RestAt(w, Ix(0)) <==> w != 0
  {
    IxEnds();
  }

  /** __builtin_ctzll */
  function Ctz(w: bv64): (r: nat)
    ensures r < 64
  {
    CtzFrom(w, 0)
  }

  /** Position of the lowest set bit. */
  lemma CtzIs(w: bv64)
    requires w != 0
    ensures Bit(w, Ctz(w)) && forall j :: 0 <= j < Ctz(w) ==> !Bit(w, j)
  {
    hide Bit, Ix, RestAt;
    AllRest(w);
    CtzFromIs(w, 0);
  }

  /** A word is zero exactly when no bit is set, and all ones exactly when every bit is. */
  lemma ZeroWord(w: bv64)
    ensures w == 0 <==> forall j :: 0 <= j < 64 ==> !Bit(w, j)
  {
    hide Bit, Ctz;
    if w != 0 {
      CtzIs(w);
    } else {
      forall j | 0 <= j < 64 ensures !Bit(w, j) { OpBits(w, w, j); }
    }
  }

  lemma NotZero(w: bv64)
    ensures Not(w) == 0 <==> w == ONES
  {}

  lemma OnesWord(w: bv64)
    ensures w == ONES <==> forall j :: 0 <= j < 64 ==> Bit(w, j)
  {
    hide Bit, Not;
    NotZero(w);
    ZeroWord(Not(w));
    forall j | 0 <= j < 64 ensures Bit(Not(w), j) <==> !Bit(w, j) { OpBits(w, w, j); }
  }

  // ---- clearing the lowest set bit ------------------------------------------------------------------

  function DropLowest(w: bv64): bv64 { w & (w - 1) }

  lemma DropLone(w: bv64, m: bv64)
    requires m & (m - 1) == 0 && w & m != 0 && w & (m - 1) == 0
    ensures w & (w - 1) == w & !m
  {}

  lemma BelowIs(b: bv64)
    requires b <= 63
    ensures BelowAt(b) == OneAt(b) - 1 && OneAt(b) & (OneAt(b) - 1) == 0
  {}

  lemma MeetsOne(w: bv64, b: bv64)
    requires b <= 63 && BitAt(w, b)
    ensures w & OneAt(b) != 0
  {}

  lemma DropAt(w: bv64, b: bv64)
    requires b <= 63 && BitAt(w, b) && And(w, BelowAt(b)) == 0
    ensures DropLowest(w) == And(w, Not(OneAt(b)))
  {
    MeetsOne(w, b);
    BelowIs(b);
    DropLone(w, OneAt(b));
  }

  lemma NothingBelow(w: bv64, b: nat)
    requires b < 64 && forall j :: 0 <= j < b ==> !Bit(w, j)
    ensures And(w, Below(b)) == 0
  {
    hide Bit, Below, And;
    var v := And(w, Below(b));
    forall j | 0 <= j < 64 ensures !Bit(v, j) {
      OpBits(w, Below(b), j);
      MaskBits(b, j);
    }
    ZeroWord(v);
  }

  /** w & (w - 1) clears exactly the lowest set bit. */
  lemma DropLow(w: bv64, k: nat)
    requires w != 0 && k < 64
    ensures Bit(DropLowest(w), k) <==> Bit(w, k) && k != Ctz(w)
  {
    hide BitAt, Ix, Ctz, OneAt, BelowAt, And, Not, DropLowest;
    var b := Ctz(w);
    CtzIs(w);
    NothingBelow(w, b);
    DropAt(w, Ix(b));
    OpBits(w, Not(One(b)), k);
    OpBits(One(b), w, k);
    MaskBits(b, k);
  }
}
