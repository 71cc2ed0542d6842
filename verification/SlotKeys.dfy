/** Slots of keys as strings of bytes (pkg/server/slot.go:19-24). */
module SlotKeys {
  import opened Bytes
  import opened Slots

  // ---------- Bytes and bit-vectors ----------

  lemma NextByte(x: bv8)
    requires x != 255
    ensures (x + 1) as int == x as int + 1
  {
  }

  lemma {:induction false} AsBits(b: nat) returns (x: bv8)
    requires b < 256
    ensures x as int == b
    decreases b
  {
    if b == 0 {
      x := 0;
    } else {
      var y := AsBits(b - 1);
      NextByte(y);
      x := y + 1;
    }
  }

  lemma ThereAndBack(b: int, x: bv8)
    requires b == x as int
    ensures (b as bv8) as int == b && b as bv8 == x
  {
  }

  lemma ByteThere(b: Byte)
    ensures (b as bv8) as int == b
  {
    var x := AsBits(b);
    ThereAndBack(b, x);
  }

  lemma ByteBack(x: bv8)
    ensures 0 <= x as int < 256 && (x as int) as bv8 == x
  {
    ThereAndBack(x as int, x);
  }

  /** The hash is taken over the bytes of the key themselves. */
  lemma KeyBytes(key: Str)
    ensures |Bits(key)| == |key| && forall i :: 0 <= i < |key| ==> Bits(key)[i] as int == key[i]
  {
    forall i | 0 <= i < |key| ensures Bits(key)[i] as int == key[i] {
      ByteThere(key[i]);
    }
  }

  // ---------- Known slots ----------

  /** The digits one to nine, as bytes. */
  lemma DigitBits(i: nat, d: bv8)
    requires i < 9 && d as int == 49 + i
    ensures Bits([49, 50, 51, 52, 53, 54, 55, 56, 57])[i] == d
  {
    var key: Str := [49, 50, 51, 52, 53, 54, 55, 56, 57];
    assert key[i] == 49 + i;
    KeyBytes(key);
    ThereAndBack(49 + i, d);
    ByteBack(Bits(key)[i]);
    hide Bits;
  }

  lemma KnownBits()
    ensures Bits([49, 50, 51, 52, 53, 54, 55, 56, 57])
      == [0x31, 0x32, 0x33, 0x34, 0x35, 0x36, 0x37, 0x38, 0x39]
  {
    hide Bits;
    DigitBits(0, 0x31);
    DigitBits(1, 0x32);
    DigitBits(2, 0x33);
    DigitBits(3, 0x34);
    DigitBits(4, 0x35);
    DigitBits(5, 0x36);
    DigitBits(6, 0x37);
    DigitBits(7, 0x38);
    DigitBits(8, 0x39);
  }

  lemma KnownNumber()
    ensures Number(0x31C3) == 12739
  {
  }

  /** The key "123456789" goes to slot 12739 of 16384, as the Redis Cluster specification has it. */
  lemma KnownKeySlot()
    ensures KeySlot([49, 50, 51, 52, 53, 54, 55, 56, 57], 16384) == Some(12739)
  {
    KnownBits();
    KnownNumber();
    KnownAnswer();
    hide Bits, Number, Crc16;
  }

  /** Slot counts that no cluster can use: none, and multiples of 65536. */
  lemma KeySlotEdges(key: Str, slots: int)
    ensures slots <= 0 ==> KeySlot(key, slots) == Some(0)
    ensures slots > 0 ==> (KeySlot(key, slots) == None <==> slots % 65536 == 0)
    ensures slots > 0 && slots % 65536 != 0 ==> KeySlot(key, slots) == KeySlot(key, slots % 65536)
  {
    hide Number, Crc16, Bits;
  }

  // ---------- Four pairs of bytes for each slot ----------

  function WordOf(hi: bv8, lo: bv8): bv16 {
    ((hi as bv16) << 8) | (lo as bv16)
  }

  lemma WordParts(hi: bv8, lo: bv8)
    ensures High(WordOf(hi, lo)) == hi && Low(WordOf(hi, lo)) == lo
  {
  }

  lemma PartsWord(w: bv16)
    ensures WordOf(High(w), Low(w)) == w
  {
  }

  /** The two bytes of a window, high one first. */
  function PairOf(w: bv16): (int, int) {
    (High(w) as int, Low(w) as int)
  }

  lemma PairOfIsInjective(v: bv16, w: bv16)
    requires PairOf(v) == PairOf(w)
    ensures v == w
  {
    ByteBack(High(v));
    ByteBack(High(w));
    ByteBack(Low(v));
    ByteBack(Low(w));
    PartsWord(v);
    PartsWord(w);
    hide High, Low, WordOf;
  }

  /** The four windows of a slot, as pairs of bytes. */
  function PairsInto(prefix: seq<bv8>, suffix: seq<bv8>, slot: int): set<(int, int)>
    requires 0 <= slot < DEFAULT_SLOTS
  {
    { PairOf(WindowFor(prefix, SlotWord(slot, 0), suffix)), PairOf(WindowFor(prefix, SlotWord(slot, 1), suffix)),
      PairOf(WindowFor(prefix, SlotWord(slot, 2), suffix)), PairOf(WindowFor(prefix, SlotWord(slot, 3), suffix)) }
  }

  lemma PairsAreWindows(prefix: seq<bv8>, suffix: seq<bv8>, slot: int, w: bv16)
    requires 0 <= slot < DEFAULT_SLOTS
    ensures PairOf(w) in PairsInto(prefix, suffix, slot) <==> w in WindowsInto(prefix, suffix, slot)
  {
    hide WindowFor, SlotWord, PairOf;
    forall k | 0 <= k < 4 && PairOf(WindowFor(prefix, SlotWord(slot, k), suffix)) == PairOf(w)
      ensures WindowFor(prefix, SlotWord(slot, k), suffix) == w
    {
      PairOfIsInjective(WindowFor(prefix, SlotWord(slot, k), suffix), w);
    }
  }

  lemma FourPairs(prefix: seq<bv8>, suffix: seq<bv8>, slot: int)
    requires 0 <= slot < DEFAULT_SLOTS
    ensures |PairsInto(prefix, suffix, slot)| == 4
  {
    hide WindowFor, SlotWord, PairOf;
    forall i, j | 0 <= i < j < 4
      ensures PairOf(WindowFor(prefix, SlotWord(slot, i), suffix))
           != PairOf(WindowFor(prefix, SlotWord(slot, j), suffix))
    {
      DistinctWindows(prefix, suffix, slot, i, j);
      if PairOf(WindowFor(prefix, SlotWord(slot, i), suffix)) == PairOf(WindowFor(prefix, SlotWord(slot, j), suffix)) {
        PairOfIsInjective(WindowFor(prefix, SlotWord(slot, i), suffix), WindowFor(prefix, SlotWord(slot, j), suffix));
      }
    }
  }

  lemma PairsInRange(prefix: seq<bv8>, suffix: seq<bv8>, slot: int)
    requires 0 <= slot < DEFAULT_SLOTS
    ensures forall x :: x in PairsInto(prefix, suffix, slot) ==> 0 <= x.0 < 256 && 0 <= x.1 < 256
  {
    hide WindowFor, SlotWord, PairOf;
    PairInRange(WindowFor(prefix, SlotWord(slot, 0), suffix));
    PairInRange(WindowFor(prefix, SlotWord(slot, 1), suffix));
    PairInRange(WindowFor(prefix, SlotWord(slot, 2), suffix));
    PairInRange(WindowFor(prefix, SlotWord(slot, 3), suffix));
  }

  lemma BitsOfKey(p: Str, hi: Byte, lo: Byte, q: Str)
    ensures Bits(p + [hi, lo] + q) == Bits(p) + [hi as bv8, lo as bv8] + Bits(q)
  {
  }

  lemma WindowOf(hi: Byte, lo: Byte) returns (w: bv16)
    ensures BigEndian(w) == [hi as bv8, lo as bv8] && PairOf(w) == (hi, lo)
  {
    w := WordOf(hi as bv8, lo as bv8);
    WordParts(hi as bv8, lo as bv8);
    ByteThere(hi);
    ByteThere(lo);
  }

  /** Exactly these pairs of bytes, between `p` and `q`, put a key into the slot. */
  ghost predicate PutsInto(p: Str, q: Str, slot: int, pairs: set<(int, int)>) {
    forall hi: Byte, lo: Byte {:trigger (hi, lo) in pairs} ::
      KeySlot(p + [hi, lo] + q, 16384) == Some(slot) <==> (hi, lo) in pairs
  }

  /**
   * Even distribution over keys: whatever bytes surround them, exactly four pairs of
   * bytes put a key into each of the 16384 slots.
   */
  lemma FourPairsPerSlot(p: Str, q: Str, slot: int) returns (pairs: set<(int, int)>)
    requires 0 <= slot < 16384
    ensures |pairs| == 4 && PutsInto(p, q, slot, pairs)
    ensures forall x :: x in pairs ==> 0 <= x.0 < 256 && 0 <= x.1 < 256
  {
    pairs := PairsInto(Bits(p), Bits(q), slot);
    FourPairs(Bits(p), Bits(q), slot);
    PairsInRange(Bits(p), Bits(q), slot);
    hide KeySlot, Bits, PairsInto;
    forall hi: Byte, lo: Byte ensures KeySlot(p + [hi, lo] + q, 16384) == Some(slot) <==> (hi, lo) in pairs {
      PairPuts(p, q, slot, hi, lo);
    }
  }

  lemma PairInRange(w: bv16)
    ensures 0 <= PairOf(w).0 < 256 && 0 <= PairOf(w).1 < 256
  {
    ByteBack(High(w));
    ByteBack(Low(w));
  }

  lemma PairPuts(p: Str, q: Str, slot: int, hi: Byte, lo: Byte)
    requires 0 <= slot < DEFAULT_SLOTS
    ensures KeySlot(p + [hi, lo] + q, 16384) == Some(slot) <==> (hi, lo) in PairsInto(Bits(p), Bits(q), slot)
  {
    hide Hits, KeySlot, Bits, PairOf, BigEndian, PairsInto, WindowsInto;
    BitsOfKey(p, hi, lo, q);
    var w := WindowOf(hi, lo);
    HitsIsKeySlot(p + [hi, lo] + q, Bits(p), w, Bits(q), slot);
    HitsExactly(Bits(p), w, Bits(q), slot);
    PairsAreWindows(Bits(p), Bits(q), slot, w);
  }
}
