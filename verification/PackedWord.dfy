/** The 64-bit directory word: a 48-bit byte position above a 16-bit Bloom tag. */
module PackedWord {
  import opened Bits
  import opened Slab

  const POSITION_LIMIT: nat := 0x1_0000_0000_0000

  // The machine operations of the three build passes, wrapping at 64 bits.

  function Shl16(a: U64): U64 {
    (a * 0x1_0000) % 0x1_0000_0000_0000_0000
  }

  function Shr16(a: U64): U64 {
    a / 0x1_0000
  }

  function Low16(a: U64): U16 {
    a % 0x1_0000
  }

  function Add64(a: U64, b: U64): U64 {
    (a + b) % 0x1_0000_0000_0000_0000
  }

  function Or64(a: U64, b: U64): U64 {
    WordSizes();
    OrBound(64, a, b);
    Or(a, b)
  }

  function Or16(a: U16, b: U16): U16 {
    WordSizes();
    OrBound(16, a, b);
    Or(a, b)
  }

  /** Counting pass: the word counts one more entry, in bytes, and takes up the tag. */
  function CountWord(w: U64, tag: U16): U64 {
    Or64(Add64(w, Shl16(ENTRY_SIZE)), tag)
  }

  /** Prefix pass: the count is replaced by where the slot starts, the tag bits are kept. */
  function PlaceWord(w: U64, cur: U64): U64 {
    Or64(Shl16(cur), Low16(w))
  }

  /** Copy pass: the cursor moves over one entry. */
  function AdvanceWord(w: U64): U64 {
    Add64(w, Shl16(ENTRY_SIZE))
  }

  /** No bit of the tag is missing from the entry. */
  predicate CouldContain(entry: U16, tag: U16) {
    WordSizes();
    And(tag, Not(16, entry)) == 0
  }

  // The abstract word the machine word stands for.

  function Pack(pos: nat, tag: U16): (w: nat)
    ensures pos < POSITION_LIMIT ==> w < 0x1_0000_0000_0000_0000
  {
    pos * 0x1_0000 + tag
  }

  lemma Unpack(pos: nat, tag: U16)
    requires pos < POSITION_LIMIT
    ensures Shr16(Pack(pos, tag)) == pos && Low16(Pack(pos, tag)) == tag
  {
  }

  lemma OrLow16(pos: nat, t: U16, u: U16)
    requires pos < POSITION_LIMIT
    ensures Or64(Pack(pos, t), u) == Pack(pos, Or16(t, u))
  {
    WordSizes();
    OrLow(16, pos, t, u);
  }

  /** Each pass acts on the pair: the position field moves by one entry or is replaced, the tag field only
      collects tags, and neither ever spills into the other while positions stay below 2^48. */
  lemma CountActsOnPair(pos: nat, tag: U16, t: U16)
    requires pos + ENTRY_SIZE < POSITION_LIMIT
    ensures CountWord(Pack(pos, tag), t) == Pack(pos + ENTRY_SIZE, Or16(tag, t))
  {
    AdvanceActsOnPair(pos, tag);
    OrLow16(pos + ENTRY_SIZE, tag, t);
  }

  lemma PlaceActsOnPair(pos: nat, tag: U16, cur: nat)
    requires pos < POSITION_LIMIT && cur < POSITION_LIMIT
    ensures PlaceWord(Pack(pos, tag), cur) == Pack(cur, tag)
  {
    Unpack(pos, tag);
    assert Shl16(cur) == Pack(cur, 0);
    OrLow16(cur, 0, tag);
    OrZeroLeft(tag);
  }

  lemma AdvanceActsOnPair(pos: nat, tag: U16)
    requires pos + ENTRY_SIZE < POSITION_LIMIT
    ensures AdvanceWord(Pack(pos, tag)) == Pack(pos + ENTRY_SIZE, tag)
  {
  }

  lemma {:induction false} OrZeroLeft(a: nat)
    ensures Or(0, a) == a
  {
    if a > 0 { OrZeroLeft(a / 2); }
  }

  /** The Bloom test passes exactly when every bit of the tag is present. */
  lemma CouldContainBits(entry: U16, tag: U16)
    ensures CouldContain(entry, tag) <==> forall i: nat :: Bit(tag, i) ==> Bit(entry, i)
  {
    WordSizes();
    AndIsZero(tag, Not(16, entry));
    forall i: nat ensures Bit(tag, i) && Bit(Not(16, entry), i) <==> Bit(tag, i) && !Bit(entry, i) {
      if i < 16 { NotBit(16, entry, i); } else { HighBits(16, tag, i); }
    }
  }
}
