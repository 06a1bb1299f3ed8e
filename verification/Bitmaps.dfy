/** Bitmaps stored in bytes, bit i of the map in bit i % 8 of byte i / 8, as pages and inner columns keep them. */
module Bitmaps {
  import opened Bits

  /** Bit i of the bitmap, tested with a mask. */
  predicate TestBit(bitmap: seq<U8>, i: nat)
    requires i / 8 < |bitmap|
  {
    And(bitmap[i / 8], Pow2(i % 8)) != 0
  }

  /** The bitmap with bit i set. */
  function SetBit(bitmap: seq<U8>, i: nat): (r: seq<U8>)
    requires i / 8 < |bitmap|
    ensures |r| == |bitmap|
  {
    SmallPow2(i % 8);
    OrBound(8, bitmap[i / 8], Pow2(i % 8));
    bitmap[i / 8 := Or(bitmap[i / 8], Pow2(i % 8))]
  }

  /** The bitmap with bit i cleared. */
  function ClearBit(bitmap: seq<U8>, i: nat): (r: seq<U8>)
    requires i / 8 < |bitmap|
    ensures |r| == |bitmap|
  {
    SmallPow2(i % 8);
    AndBound(8, bitmap[i / 8], Not(8, Pow2(i % 8)));
    bitmap[i / 8 := And(bitmap[i / 8], Not(8, Pow2(i % 8)))]
  }

  lemma SmallPow2(k: nat)
    requires k < 8
    ensures Pow2(k) < Pow2(8) == 0x100
  {
    WordSizes();
    Pow2Below(k, 8);
  }

  lemma {:induction false} Pow2Below(k: nat, n: nat)
    requires k < n
    ensures Pow2(k) < Pow2(n)
  {
    if k < n - 1 { Pow2Below(k, n - 1); }
  }

  /** Testing a bit with a mask is asking for that bit. */
  lemma MaskTest(b: nat, k: nat)
    ensures And(b, Pow2(k)) != 0 <==> Bit(b, k)
  {
    AndIsZero(b, Pow2(k));
    Pow2Bit(k, k);
    forall i: nat ensures Bit(Pow2(k), i) == (i == k) { Pow2Bit(k, i); }
  }

  lemma TestIsBit(bitmap: seq<U8>, i: nat)
    requires i / 8 < |bitmap|
    ensures TestBit(bitmap, i) == Bit(bitmap[i / 8], i % 8)
  {
    MaskTest(bitmap[i / 8], i % 8);
  }

  /** Setting a bit sets that bit and leaves every other one. */
  lemma SetBitLaw(bitmap: seq<U8>, i: nat, j: nat)
    requires i / 8 < |bitmap| && j / 8 < |bitmap|
    ensures TestBit(SetBit(bitmap, i), j) == (i == j || TestBit(bitmap, j))
  {
    TestIsBit(bitmap, j);
    TestIsBit(SetBit(bitmap, i), j);
    if i / 8 == j / 8 {
      OrBit(bitmap[i / 8], Pow2(i % 8), j % 8);
      Pow2Bit(i % 8, j % 8);
    }
  }

  /** Clearing a bit clears that bit and leaves every other one. */
  lemma ClearBitLaw(bitmap: seq<U8>, i: nat, j: nat)
    requires i / 8 < |bitmap| && j / 8 < |bitmap|
    ensures TestBit(ClearBit(bitmap, i), j) == (i != j && TestBit(bitmap, j))
  {
    TestIsBit(bitmap, j);
    TestIsBit(ClearBit(bitmap, i), j);
    if i / 8 == j / 8 {
      SmallPow2(i % 8);
      AndBit(bitmap[i / 8], Not(8, Pow2(i % 8)), j % 8);
      NotBit(8, Pow2(i % 8), j % 8);
      Pow2Bit(i % 8, j % 8);
    }
  }

  method SetBitmap(bitmap: array<U8>, i: nat)
    requires i / 8 < bitmap.Length
    modifies bitmap
    ensures bitmap[..] == SetBit(old(bitmap[..]), i)
  {
    SmallPow2(i % 8);
    OrBound(8, bitmap[i / 8], Pow2(i % 8));
    bitmap[i / 8] := Or(bitmap[i / 8], Pow2(i % 8));
  }

  method UnsetBitmap(bitmap: array<U8>, i: nat)
    requires i / 8 < bitmap.Length
    modifies bitmap
    ensures bitmap[..] == ClearBit(old(bitmap[..]), i)
  {
    SmallPow2(i % 8);
    AndBound(8, bitmap[i / 8], Not(8, Pow2(i % 8)));
    bitmap[i / 8] := And(bitmap[i / 8], Not(8, Pow2(i % 8)));
  }
}
