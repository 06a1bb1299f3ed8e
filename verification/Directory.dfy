/** The contents of the unchained hash table as functions of the rows it indexes: bucket i of a row list is the
    list of its rows that hash to slot i, in order, and the table stores the buckets one after the other. */
module Directory {
  import opened Bits
  import opened PackedWord
  import opened Slab

  /** Everything the table layout depends on: any hash function, any table of 2048 tags, 2^k slots, and the
      address of the tuple storage. */
  datatype Config = Config(hash: int -> U64, tags: seq<U16>, k: nat, base: nat) {
    predicate Valid() {
      9 <= k <= 30 && |tags| == 2048
    }

    function Slots(): nat {
      Pow2(k)
    }

    /** The top k bits of the hash. */
    function Slot(key: int): nat
      requires Valid()
    {
      DivNat(hash(key), Pow2(64 - k));
      hash(key) / Pow2(64 - k)
    }

    function Partition(key: int): nat {
      PartitionOf(hash(key))
    }

    /** Eleven bits of the hash, bits 21 to 31, select the tag. */
    function Tag(key: int): U16
      requires Valid()
    {
      tags[hash(key) % 0x1_0000_0000 / 0x20_0000]
    }

    /** First slot of partition p: the slots are dealt out evenly. */
    function FirstSlot(p: nat): nat {
      p * Pow2(k) / NUM_PARTITIONS
    }
  }

  /** A partition owns a whole range of slots, and only its own entries hash into that range. */
  lemma PartitionOwnsSlots(c: Config, key: int, p: nat)
    requires c.Valid()
    ensures c.Slot(key) < c.Slots()
    ensures c.Partition(key) == p <==> c.FirstSlot(p) <= c.Slot(key) < c.FirstSlot(p + 1)
  {
    var h, a, b := c.hash(key), Pow2(64 - c.k), Pow2(c.k - 6);
    WordSizes();
    Pow2Add(64 - c.k, c.k - 6);
    Pow2Add(64 - c.k, c.k);
    FirstSlotIs(c, p);
    FirstSlotIs(c, p + 1);
    hide Pow2;
    DivDiv(h, a, b);
    DivNat(h, a);
    hide Config.FirstSlot;
    DivRange(h / a, b, p);
    QuotientBound(h, a, c.Slots());
  }

  lemma QuotientBound(h: nat, a: nat, n: nat)
    requires 0 < a && h < a * n
    ensures h / a < n
  {
    DivRange(h, a, h / a);
    if h / a >= n { MulMono(n, h / a, a); }
  }

  lemma FirstSlotIs(c: Config, p: nat)
    requires c.Valid()
    ensures c.FirstSlot(p) == p * Pow2(c.k - 6)
    ensures c.FirstSlot(0) == 0 && c.FirstSlot(NUM_PARTITIONS) == c.Slots()
  {
    WordSizes();
    Pow2Add(6, c.k - 6);
    hide Pow2;
    MulAssoc(p, Pow2(c.k - 6));
    MulAssoc(NUM_PARTITIONS, Pow2(c.k - 6));
  }

  lemma MulAssoc(p: nat, b: nat)
    ensures p * (64 * b) / 64 == p * b
  {
    assert p * (64 * b) == 64 * (p * b);
  }

  lemma FirstSlotMonotone(c: Config, p: nat, q: nat)
    requires c.Valid() && p <= q
    ensures c.FirstSlot(p) <= c.FirstSlot(q)
  {
    FirstSlotIs(c, p);
    FirstSlotIs(c, q);
    MulMono(p, q, Pow2(c.k - 6));
  }

  lemma DivRange(x: nat, b: nat, q: nat)
    requires b > 0
    ensures x / b == q <==> q * b <= x < (q + 1) * b
  {
    assert x == (x / b) * b + x % b;
    var d := x / b;
    if d < q { MulMono(d + 1, q, b); } else if d > q { MulMono(q + 1, d, b); }
  }

  lemma MulSwap(q: nat, a: nat, b: nat)
    ensures (q * b) * a == q * (a * b)
  {
  }

  lemma MulPositive(a: nat, b: nat)
    requires a > 0 && b > 0
    ensures a * b > 0
  {
  }

  lemma DivDiv(x: nat, a: nat, b: nat)
    requires a > 0 && b > 0
    ensures a * b > 0 && x / (a * b) == x / a / b
  {
    MulPositive(a, b);
    var y: int := x / a;
    DivNat(x, a);
    var q: int := y / b;
    DivNat(y, b);
    DivRange(x, a, y);
    DivRange(y, b, q);
    MulMono(q * b, y, a);
    MulMono(y + 1, (q + 1) * b, a);
    MulSwap(q, a, b);
    MulSwap(q + 1, a, b);
    DivRange(x, a * b, q);
  }

  lemma DivNat(x: nat, a: nat)
    requires a > 0
    ensures 0 <= x / a
  {
  }

  function Bucket(c: Config, es: seq<Entry>, i: nat): seq<Entry>
    requires c.Valid()
  {
    if es == [] then [] else
      var e := es[|es| - 1];
      Bucket(c, es[..|es| - 1], i) + (if c.Slot(e.key) == i then [e] else [])
  }

  /** Number of entries in slots below i, which is where bucket i starts. */
  function Below(c: Config, es: seq<Entry>, i: nat): nat
    requires c.Valid()
  {
    if es == [] then 0 else
      Below(c, es[..|es| - 1], i) + (if c.Slot(es[|es| - 1].key) < i then 1 else 0)
  }

  /** The Bloom tag of slot i: the OR of the tags of its keys. */
  function TagsOf(c: Config, es: seq<Entry>, i: nat): U16
    requires c.Valid()
  {
    if es == [] then 0 else
      var e := es[|es| - 1];
      var t := TagsOf(c, es[..|es| - 1], i);
      if c.Slot(e.key) == i then Or16(t, c.Tag(e.key)) else t
  }

  /** The entries of es with the given key, in order. */
  function WithKey(es: seq<Entry>, key: int): seq<Entry> {
    if es == [] then [] else
      WithKey(es[..|es| - 1], key) + (if es[|es| - 1].key == key then [es[|es| - 1]] else [])
  }

  lemma Extend(c: Config, es: seq<Entry>, e: Entry, i: nat)
    requires c.Valid()
    ensures Bucket(c, es + [e], i) == Bucket(c, es, i) + (if c.Slot(e.key) == i then [e] else [])
    ensures Below(c, es + [e], i) == Below(c, es, i) + (if c.Slot(e.key) < i then 1 else 0)
    ensures TagsOf(c, es + [e], i) ==
      if c.Slot(e.key) == i then Or16(TagsOf(c, es, i), c.Tag(e.key)) else TagsOf(c, es, i)
    ensures forall key :: WithKey(es + [e], key) == WithKey(es, key) + (if e.key == key then [e] else [])
  {
    assert (es + [e])[..|es + [e]| - 1] == es;
  }

  /** Bucket i + 1 starts where bucket i ends. */
  lemma {:induction false} BelowNext(c: Config, es: seq<Entry>, i: nat)
    requires c.Valid()
    ensures Below(c, es, i + 1) == Below(c, es, i) + |Bucket(c, es, i)|
  {
    if es != [] { BelowNext(c, es[..|es| - 1], i); }
  }

  lemma {:induction false} BelowMonotone(c: Config, es: seq<Entry>, i: nat, j: nat)
    requires c.Valid() && i <= j
    ensures Below(c, es, i) <= Below(c, es, j) <= |es|
  {
    if es != [] { BelowMonotone(c, es[..|es| - 1], i, j); }
  }

  /** If every slot is in [lo, hi), counting starts at lo and is complete at hi. */
  lemma {:induction false} BelowBounds(c: Config, es: seq<Entry>, lo: nat, hi: nat, i: nat)
    requires c.Valid() && forall e :: e in es ==> lo <= c.Slot(e.key) < hi
    ensures i <= lo ==> Below(c, es, i) == 0
    ensures hi <= i ==> Below(c, es, i) == |es|
    ensures i < lo || hi <= i ==> Bucket(c, es, i) == [] && TagsOf(c, es, i) == 0
  {
    if es != [] { BelowBounds(c, es[..|es| - 1], lo, hi, i); }
  }

  lemma {:induction false} Concat(c: Config, a: seq<Entry>, b: seq<Entry>, i: nat)
    requires c.Valid()
    ensures Bucket(c, a + b, i) == Bucket(c, a, i) + Bucket(c, b, i)
    ensures Below(c, a + b, i) == Below(c, a, i) + Below(c, b, i)
    ensures Bucket(c, a, i) == [] && TagsOf(c, a, i) == 0 ==> TagsOf(c, a + b, i) == TagsOf(c, b, i)
    ensures Bucket(c, b, i) == [] ==> TagsOf(c, a + b, i) == TagsOf(c, a, i)
  {
    if b == [] {
      assert a + b == a;
    } else {
      var b', e := b[..|b| - 1], b[|b| - 1];
      assert b == b' + [e] && a + b == (a + b') + [e];
      Concat(c, a, b', i);
      Extend(c, a + b', e, i);
      Extend(c, b', e, i);
      hide Bucket, Below, TagsOf;
    }
  }

  /** Every key's rows are all in its bucket. */
  lemma {:induction false} BucketHasKey(c: Config, es: seq<Entry>, key: int)
    requires c.Valid()
    ensures WithKey(Bucket(c, es, c.Slot(key)), key) == WithKey(es, key)
  {
    if es != [] {
      var es', e := es[..|es| - 1], es[|es| - 1];
      BucketHasKey(c, es', key);
      assert es == es' + [e];
      Extend(c, es', e, c.Slot(key));
      Extend(c, Bucket(c, es', c.Slot(key)), e, 0);
      hide Bucket, WithKey;
      assert Bucket(c, es', c.Slot(key)) + [] == Bucket(c, es', c.Slot(key));
    }
  }

  lemma {:induction false} WithKeyCounts(es: seq<Entry>, key: int, e: Entry)
    ensures multiset(WithKey(es, key))[e] == if e.key == key then multiset(es)[e] else 0
  {
    if es != [] {
      WithKeyCounts(es[..|es| - 1], key, e);
      assert es == es[..|es| - 1] + [es[|es| - 1]];
    }
  }

  /** The tag of a slot covers the tag of every key stored in it. */
  lemma {:induction false} TagsCover(c: Config, es: seq<Entry>, key: int)
    requires c.Valid() && WithKey(es, key) != []
    ensures CouldContain(TagsOf(c, es, c.Slot(key)), c.Tag(key))
  {
    var es', e, s := es[..|es| - 1], es[|es| - 1], c.Slot(key);
    var t := TagsOf(c, es', s);
    if e.key == key {
      CouldContainBits(Or16(t, c.Tag(key)), c.Tag(key));
      forall i: nat | Bit(c.Tag(key), i) ensures Bit(Or16(t, c.Tag(key)), i) { OrBit(t, c.Tag(key), i); }
    } else {
      TagsCover(c, es', key);
      if c.Slot(e.key) == s {
        var u := Or16(t, c.Tag(e.key));
        CouldContainBits(t, c.Tag(key));
        CouldContainBits(u, c.Tag(key));
        forall i: nat | Bit(c.Tag(key), i) ensures Bit(u, i) { OrBit(t, c.Tag(e.key), i); }
      }
    }
  }
}
