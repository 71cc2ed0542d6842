/** CRC16 slot hashing (pkg/server/slot.go). Hash tags are not part of the source. */
module Slots {
  import opened Bytes

  /** One round of the inner loop. */
  function Shift(c: bv16): bv16 {
    if c & 0x8000 != 0 then (c << 1) ^ 0x1021 else c << 1
  }

  /** `n` rounds of the inner loop. */
  function Rounds(c: bv16, n: nat): bv16
    decreases n
  {
    if n == 0 then c else Rounds(Shift(c), n - 1)
  }

  function Xor(a: bv16, b: bv16): bv16 {
    a ^ b
  }

  /** A byte enters at the top of the register. */
  function Top(b: bv8): bv16 {
    (b as bv16) << 8
  }

  /** One byte of the outer loop. */
  function Feed(c: bv16, b: bv8): bv16 {
    Rounds(Xor(c, Top(b)), 8)
  }

  /** The register after `data`, from register `c`. */
  function Crc(c: bv16, data: seq<bv8>): bv16
    decreases |data|
  {
    if data == [] then c else Crc(Feed(c, data[0]), data[1..])
  }

  function Crc16(data: seq<bv8>): bv16 {
    Crc(0, data)
  }

  /** crc16 */
  method ComputeCrc16(data: seq<bv8>) returns (crc: bv16)
    ensures crc == Crc16(data)
  {
    hide Feed;
    crc := 0;
    for k := 0 to |data|
      invariant Crc(crc, data[k..]) == Crc16(data)
    {
      crc := FeedByte(crc, data[k]);
      assert data[k..][1..] == data[k + 1..];
    }
  }

  /** The inner loop of crc16 (slot.go:7-14). */
  method FeedByte(start: bv16, b: bv8) returns (crc: bv16)
    ensures crc == Feed(start, b)
  {
    hide Xor;
    crc := Xor(start, (b as bv16) << 8);
    for i := 0 to 8
      invariant Rounds(crc, 8 - i) == Feed(start, b)
    {
      crc := Shift(crc);
    }
  }

  /** Eight rounds, written out. */
  lemma EightRounds(c: bv16)
    ensures Rounds(c, 8) == Shift(Shift(Shift(Shift(Shift(Shift(Shift(Shift(c))))))))
  {
    hide Shift;
    var d := Shift(Shift(Shift(Shift(c))));
    assert Rounds(d, 4) == Shift(Shift(Shift(Shift(d)))) by {
      assert Rounds(Shift(Shift(d)), 2) == Shift(Shift(Shift(Shift(d))));
    }
    assert Rounds(Shift(Shift(c)), 6) == Rounds(d, 4);
  }

  lemma Byte1()
    ensures Feed(0x0000, 0x31) == 0x2672
  {
    EightRounds(Xor(0x0000, Top(0x31)));
  }

  lemma Byte2()
    ensures Feed(0x2672, 0x32) == 0x20B5
  {
    EightRounds(Xor(0x2672, Top(0x32)));
  }

  lemma Byte3()
    ensures Feed(0x20B5, 0x33) == 0x9752
  {
    EightRounds(Xor(0x20B5, Top(0x33)));
  }

  lemma Byte4()
    ensures Feed(0x9752, 0x34) == 0xD789
  {
    EightRounds(Xor(0x9752, Top(0x34)));
  }

  lemma Byte5()
    ensures Feed(0xD789, 0x35) == 0x546C
  {
    EightRounds(Xor(0xD789, Top(0x35)));
  }

  lemma Byte6()
    ensures Feed(0x546C, 0x36) == 0x20E4
  {
    EightRounds(Xor(0x546C, Top(0x36)));
  }

  lemma Byte7()
    ensures Feed(0x20E4, 0x37) == 0x86D6
  {
    EightRounds(Xor(0x20E4, Top(0x37)));
  }

  lemma Byte8()
    ensures Feed(0x86D6, 0x38) == 0x9015
  {
    EightRounds(Xor(0x86D6, Top(0x38)));
  }

  lemma Byte9()
    ensures Feed(0x9015, 0x39) == 0x31C3
  {
    EightRounds(Xor(0x9015, Top(0x39)));
  }

  /** The check value of the Redis Cluster specification, Appendix A. */
  lemma KnownAnswer()
    ensures Crc16([0x31, 0x32, 0x33, 0x34, 0x35, 0x36, 0x37, 0x38, 0x39]) == 0x31C3
  {
    hide Feed;
    Byte1();
    Byte2();
    Byte3();
    Byte4();
    Byte5();
    Byte6();
    Byte7();
    Byte8();
    Byte9();
    var data: seq<bv8> := [0x31, 0x32, 0x33, 0x34, 0x35, 0x36, 0x37, 0x38, 0x39];
    assert data[0..] == data && data[9..] == [];
    assert data[0..][1..] == data[1..];
    assert data[1..][1..] == data[2..];
    assert data[2..][1..] == data[3..];
    assert data[3..][1..] == data[4..];
    assert data[4..][1..] == data[5..];
    assert data[5..][1..] == data[6..];
    assert data[6..][1..] == data[7..];
    assert data[7..][1..] == data[8..];
    assert data[8..][1..] == data[9..];
    assert Crc(0x9015, data[8..]) == 0x31C3;
    assert Crc(0x86D6, data[7..]) == 0x31C3;
    assert Crc(0x20E4, data[6..]) == 0x31C3;
    assert Crc(0x546C, data[5..]) == 0x31C3;
    assert Crc(0xD789, data[4..]) == 0x31C3;
    assert Crc(0x9752, data[3..]) == 0x31C3;
    assert Crc(0x20B5, data[2..]) == 0x31C3;
    assert Crc(0x2672, data[1..]) == 0x31C3;
    assert Crc(0x0000, data[0..]) == 0x31C3;
  }

  // ---------- Linearity ----------

  lemma XorFacts(a: bv16, b: bv16, c: bv16)
    ensures Xor(Xor(a, b), c) == Xor(a, Xor(b, c))
    ensures Xor(Xor(a, b), b) == a
    ensures Xor(a, Xor(a, b)) == b
    ensures Xor(a, a) == 0
  {
  }

  lemma XorPairs(a: bv16, b: bv16, c: bv16, d: bv16)
    ensures Xor(Xor(a, b), Xor(c, d)) == Xor(Xor(a, c), Xor(b, d))
  {
    hide Xor;
    XorFacts(a, b, Xor(c, d));
    XorFacts(b, c, d);
    XorFacts(c, b, d);
    XorCommutes(b, c);
    XorFacts(a, c, Xor(b, d));
  }

  lemma XorCommutes(a: bv16, b: bv16)
    ensures Xor(a, b) == Xor(b, a)
  {
  }

  lemma TopBit(a: bv16, b: bv16)
    ensures ((a ^ b) & 0x8000 != 0) == ((a & 0x8000 != 0) != (b & 0x8000 != 0))
  {
  }

  lemma ShiftedXor(a: bv16, b: bv16)
    ensures (a ^ b) << 1 == (a << 1) ^ (b << 1)
    ensures (a ^ b) << 1 == ((a << 1) ^ 0x1021) ^ ((b << 1) ^ 0x1021)
    ensures ((a ^ b) << 1) ^ 0x1021 == ((a << 1) ^ 0x1021) ^ (b << 1)
    ensures ((a ^ b) << 1) ^ 0x1021 == (a << 1) ^ ((b << 1) ^ 0x1021)
  {
  }

  lemma ShiftLinearBoth(a: bv16, b: bv16)
    requires a & 0x8000 != 0 && b & 0x8000 != 0
    ensures Shift(Xor(a, b)) == Xor(Shift(a), Shift(b))
  {
    TopBit(a, b);
    ShiftedXor(a, b);
  }

  lemma ShiftLinearNone(a: bv16, b: bv16)
    requires a & 0x8000 == 0 && b & 0x8000 == 0
    ensures Shift(Xor(a, b)) == Xor(Shift(a), Shift(b))
  {
    TopBit(a, b);
    ShiftedXor(a, b);
  }

  lemma ShiftLinearLeft(a: bv16, b: bv16)
    requires a & 0x8000 != 0 && b & 0x8000 == 0
    ensures Shift(Xor(a, b)) == Xor(Shift(a), Shift(b))
  {
    TopBit(a, b);
    ShiftedXor(a, b);
  }

  lemma ShiftLinearRight(a: bv16, b: bv16)
    requires a & 0x8000 == 0 && b & 0x8000 != 0
    ensures Shift(Xor(a, b)) == Xor(Shift(a), Shift(b))
  {
    TopBit(a, b);
    ShiftedXor(a, b);
  }

  lemma ShiftLinear(a: bv16, b: bv16)
    ensures Shift(Xor(a, b)) == Xor(Shift(a), Shift(b))
  {
    hide Shift, Xor;
    if a & 0x8000 != 0 {
      if b & 0x8000 != 0 {
        ShiftLinearBoth(a, b);
      } else {
        ShiftLinearLeft(a, b);
      }
    } else if b & 0x8000 != 0 {
      ShiftLinearRight(a, b);
    } else {
      ShiftLinearNone(a, b);
    }
  }

  lemma {:induction false} RoundsLinear(a: bv16, b: bv16, n: nat)
    ensures Rounds(Xor(a, b), n) == Xor(Rounds(a, n), Rounds(b, n))
    decreases n
  {
    hide Shift, Xor;
    if n > 0 {
      ShiftLinear(a, b);
      RoundsLinear(Shift(a), Shift(b), n - 1);
    }
  }

  function XorBytes(x: seq<bv8>, y: seq<bv8>): seq<bv8>
    requires |x| == |y|
  {
    seq(|x|, i requires 0 <= i < |x| => x[i] ^ y[i])
  }

  lemma TopLinear(x: bv8, y: bv8)
    ensures Top(x ^ y) == Xor(Top(x), Top(y))
  {
  }

  lemma FeedLinear(a: bv16, b: bv16, x: bv8, y: bv8)
    ensures Feed(Xor(a, b), x ^ y) == Xor(Feed(a, x), Feed(b, y))
  {
    hide Rounds, Top, Xor;
    TopLinear(x, y);
    XorPairs(a, b, Top(x), Top(y));
    RoundsLinear(Xor(a, Top(x)), Xor(b, Top(y)), 8);
  }

  lemma {:induction false} CrcLinearFrom(a: bv16, b: bv16, x: seq<bv8>, y: seq<bv8>)
    requires |x| == |y|
    ensures Crc(Xor(a, b), XorBytes(x, y)) == Xor(Crc(a, x), Crc(b, y))
    decreases |x|
  {
    hide Feed, Xor;
    if x != [] {
      FeedLinear(a, b, x[0], y[0]);
      assert XorBytes(x, y)[1..] == XorBytes(x[1..], y[1..]);
      CrcLinearFrom(Feed(a, x[0]), Feed(b, y[0]), x[1..], y[1..]);
    }
  }

  /** crc16 is XOR-linear on inputs of equal length. */
  lemma CrcLinear(x: seq<bv8>, y: seq<bv8>)
    requires |x| == |y|
    ensures Crc16(XorBytes(x, y)) == Xor(Crc16(x), Crc16(y))
  {
    hide Crc, Xor;
    CrcLinearFrom(0, 0, x, y);
    XorFacts(0, 0, 0);
  }

  // ---------- The check value ----------

  function High(w: bv16): bv8 {
    (w >> 8) as bv8
  }

  function Low(w: bv16): bv8 {
    (w & 0xFF) as bv8
  }

  /** Big-endian bytes of a 16-bit value. */
  function BigEndian(w: bv16): seq<bv8> {
    [High(w), Low(w)]
  }

  lemma BigEndianParts(w: bv16)
    ensures Xor(Top(High(w)), Low(w) as bv16) == w
  {
  }

  lemma NoTopBit(b: bv8)
    ensures var w := b as bv16;
      && w & 0x8000 == 0 && (w << 1) & 0x8000 == 0 && (w << 2) & 0x8000 == 0 && (w << 3) & 0x8000 == 0
      && (w << 4) & 0x8000 == 0 && (w << 5) & 0x8000 == 0 && (w << 6) & 0x8000 == 0 && (w << 7) & 0x8000 == 0
  {
  }

  lemma ShiftsAdd(w: bv16)
    ensures (w << 1) << 1 == w << 2 && (w << 2) << 1 == w << 3 && (w << 3) << 1 == w << 4
    ensures (w << 4) << 1 == w << 5 && (w << 5) << 1 == w << 6 && (w << 6) << 1 == w << 7 && (w << 7) << 1 == w << 8
  {
  }

  /** A register with an empty high byte only moves up. */
  lemma LowByteMovesUp(b: bv8)
    ensures Rounds(b as bv16, 8) == Top(b)
  {
    NoTopBit(b);
    ShiftsAdd(b as bv16);
    EightRounds(b as bv16);
  }

  lemma {:induction false} CrcConcat(c: bv16, x: seq<bv8>, y: seq<bv8>)
    ensures Crc(c, x + y) == Crc(Crc(c, x), y)
    decreases |x|
  {
    hide Feed;
    if x == [] {
      assert x + y == y;
    } else {
      assert (x + y)[1..] == x[1..] + y;
      CrcConcat(Feed(c, x[0]), x[1..], y);
    }
  }

  lemma CrcTwo(c: bv16, x: bv8, y: bv8)
    ensures Crc(c, [x, y]) == Feed(Feed(c, x), y)
  {
    hide Feed;
    assert [x, y][1..] == [y];
    assert [y][1..] == [];
    assert Crc(Feed(c, x), [y]) == Feed(Feed(c, x), y);
  }

  /** Two bytes enter the register as one 16-bit word. */
  lemma TwoBytes(c: bv16, w: bv16)
    ensures Crc(c, BigEndian(w)) == Rounds(Rounds(Xor(c, w), 8), 8)
  {
    hide Rounds, High, Low, Top, Crc, Xor;
    var hi, lo := High(w), Low(w);
    CrcTwo(c, hi, lo);
    LowByteMovesUp(lo);
    BigEndianParts(w);
    RoundsLinear(Xor(c, Top(hi)), lo as bv16, 8);
    XorFacts(c, Top(hi), lo as bv16);
  }

  lemma {:induction false} RoundsZero(n: nat)
    ensures Rounds(0, n) == 0
  {
    if n > 0 {
      RoundsZero(n - 1);
    }
  }

  /** Appending the checksum, big end first, gives checksum 0. */
  lemma CheckValue(data: seq<bv8>)
    ensures Crc16(data + BigEndian(Crc16(data))) == 0
  {
    hide Rounds, Crc, BigEndian, Xor;
    var c := Crc16(data);
    CrcConcat(0, data, BigEndian(c));
    TwoBytes(c, c);
    XorFacts(c, c, c);
    RoundsZero(8);
  }

  // ---------- Two-byte windows ----------

  /** Undoes one round: the low bit tells whether the polynomial was added. */
  function Unshift(c: bv16): bv16 {
    if c & 1 != 0 then ((c ^ 0x1021) >> 1) | 0x8000 else c >> 1
  }

  lemma UnshiftShiftTop(c: bv16)
    requires c & 0x8000 != 0
    ensures Unshift(Shift(c)) == c
  {
    assert ((c << 1) ^ 0x1021) & 1 != 0;
  }

  lemma UnshiftShiftRest(c: bv16)
    requires c & 0x8000 == 0
    ensures Unshift(Shift(c)) == c
  {
    assert (c << 1) & 1 == 0;
  }

  lemma UnshiftShift(c: bv16)
    ensures Unshift(Shift(c)) == c
  {
    hide Shift, Unshift;
    if c & 0x8000 != 0 {
      UnshiftShiftTop(c);
    } else {
      UnshiftShiftRest(c);
    }
  }

  lemma ShiftUnshiftOdd(c: bv16)
    requires c & 1 != 0
    ensures Shift(Unshift(c)) == c
  {
    assert (((c ^ 0x1021) >> 1) | 0x8000) & 0x8000 != 0;
  }

  lemma ShiftUnshiftEven(c: bv16)
    requires c & 1 == 0
    ensures Shift(Unshift(c)) == c
  {
    assert (c >> 1) & 0x8000 == 0;
  }

  lemma ShiftUnshift(c: bv16)
    ensures Shift(Unshift(c)) == c
  {
    hide Shift, Unshift;
    if c & 1 != 0 {
      ShiftUnshiftOdd(c);
    } else {
      ShiftUnshiftEven(c);
    }
  }

  function Unrounds(c: bv16, n: nat): bv16
    decreases n
  {
    if n == 0 then c else Unshift(Unrounds(c, n - 1))
  }

  lemma {:induction false} UnroundsRounds(c: bv16, n: nat)
    ensures Unrounds(Rounds(c, n), n) == c
    decreases n
  {
    hide Shift, Unshift;
    if n > 0 {
      UnroundsRounds(Shift(c), n - 1);
      UnshiftShift(c);
    }
  }

  lemma {:induction false} RoundsUnrounds(c: bv16, n: nat)
    ensures Rounds(Unrounds(c, n), n) == c
    decreases n
  {
    hide Shift, Unshift;
    if n > 0 {
      ShiftUnshift(Unrounds(c, n - 1));
      RoundsUnrounds(c, n - 1);
    }
  }

  /** The register before `data`, from the register after it. */
  function Uncrc(c: bv16, data: seq<bv8>): bv16
    decreases |data|
  {
    if data == [] then c else Unfeed(Uncrc(c, data[1..]), data[0])
  }

  function Unfeed(c: bv16, b: bv8): bv16 {
    Xor(Unrounds(c, 8), Top(b))
  }

  lemma FeedInverse(c: bv16, b: bv8)
    ensures Unfeed(Feed(c, b), b) == c && Feed(Unfeed(c, b), b) == c
  {
    hide Rounds, Unrounds, Top, Xor;
    XorFacts(c, Top(b), 0);
    UnroundsRounds(Xor(c, Top(b)), 8);
    XorFacts(Unrounds(c, 8), Top(b), 0);
    RoundsUnrounds(c, 8);
  }

  lemma {:induction false} CrcInverse(c: bv16, data: seq<bv8>)
    ensures Uncrc(Crc(c, data), data) == c && Crc(Uncrc(c, data), data) == c
    decreases |data|
  {
    hide Feed, Unfeed;
    if data != [] {
      CrcInverse(Feed(c, data[0]), data[1..]);
      FeedInverse(c, data[0]);
      CrcInverse(c, data[1..]);
      FeedInverse(Uncrc(c, data[1..]), data[0]);
    }
  }

  /** The checksum as a function of a two-byte window between fixed bytes. */
  function WindowCrc(prefix: seq<bv8>, w: bv16, suffix: seq<bv8>): bv16 {
    Crc16(prefix + BigEndian(w) + suffix)
  }

  /** The window that yields a given checksum. */
  function WindowFor(prefix: seq<bv8>, target: bv16, suffix: seq<bv8>): bv16 {
    Xor(Crc16(prefix), Unrounds(Unrounds(Uncrc(target, suffix), 8), 8))
  }

  lemma WindowCrcForm(prefix: seq<bv8>, w: bv16, suffix: seq<bv8>)
    ensures WindowCrc(prefix, w, suffix) == Crc(Rounds(Rounds(Xor(Crc16(prefix), w), 8), 8), suffix)
  {
    hide Rounds, Crc, BigEndian, Xor;
    CrcConcat(0, prefix + BigEndian(w), suffix);
    CrcConcat(0, prefix, BigEndian(w));
    TwoBytes(Crc16(prefix), w);
  }

  lemma WindowBack(prefix: seq<bv8>, w: bv16, suffix: seq<bv8>)
    ensures WindowFor(prefix, WindowCrc(prefix, w, suffix), suffix) == w
  {
    hide Rounds, Unrounds, WindowCrc, Crc, Uncrc, Crc16, Xor;
    var c := Crc16(prefix);
    WindowCrcForm(prefix, w, suffix);
    CrcInverse(Rounds(Rounds(Xor(c, w), 8), 8), suffix);
    UnroundsRounds(Rounds(Xor(c, w), 8), 8);
    UnroundsRounds(Xor(c, w), 8);
    XorFacts(c, w, 0);
  }

  lemma WindowForth(prefix: seq<bv8>, target: bv16, suffix: seq<bv8>)
    ensures WindowCrc(prefix, WindowFor(prefix, target, suffix), suffix) == target
  {
    hide Rounds, Unrounds, WindowCrc, Crc, Uncrc, Crc16, Xor;
    var c, u := Crc16(prefix), Uncrc(target, suffix);
    WindowCrcForm(prefix, WindowFor(prefix, target, suffix), suffix);
    XorFacts(c, Unrounds(Unrounds(u, 8), 8), 0);
    RoundsUnrounds(Unrounds(u, 8), 8);
    RoundsUnrounds(u, 8);
    CrcInverse(target, suffix);
  }

  /** For any bytes around it, a two-byte window reaches every checksum exactly once. */
  lemma WindowBijection(prefix: seq<bv8>, suffix: seq<bv8>, w: bv16, target: bv16)
    ensures WindowCrc(prefix, w, suffix) == target <==> w == WindowFor(prefix, target, suffix)
  {
    hide WindowCrc, WindowFor;
    WindowBack(prefix, w, suffix);
    WindowForth(prefix, target, suffix);
  }

  // ---------- Slots ----------

  function Bits(key: Str): (r: seq<bv8>)
    ensures |r| == |key|
  {
    seq(|key|, i requires 0 <= i < |key| => key[i] as bv8)
  }

  /** Hexadecimal digits of a 16-bit word, lowest first. */
  function Digit0(w: bv16): bv4 { (w & 0xF) as bv4 }

  function Digit1(w: bv16): bv4 { ((w >> 4) & 0xF) as bv4 }

  function Digit2(w: bv16): bv4 { ((w >> 8) & 0xF) as bv4 }

  function Digit3(w: bv16): bv4 { (w >> 12) as bv4 }

  /** The number a 16-bit word stands for. */
  function Number(w: bv16): (n: int)
    ensures 0 <= n < 0x1_0000
  {
    4096 * (Digit3(w) as int) + 256 * (Digit2(w) as int) + 16 * (Digit1(w) as int) + Digit0(w) as int
  }

  /** keySlot; None is the division by zero on a count that is a multiple of 65536. */
  function KeySlot(key: Str, slots: int): Option<int> {
    if slots <= 0 then Some(0)
    else if slots % 0x1_0000 == 0 then None
    else Some(Number(Crc16(Bits(key))) % (slots % 0x1_0000))
  }

  /** For every slot count a cluster can use, the slot is in range. */
  lemma KeySlotInRange(key: Str, slots: int)
    requires 1 <= slots <= 65535
    ensures KeySlot(key, slots).Some? && 0 <= KeySlot(key, slots).value < slots
  {
    hide Number;
    assert slots % 0x1_0000 == slots;
  }

  const DEFAULT_SLOTS := 16384

  /** The window puts a key with these surroundings into the slot. */
  predicate Hits(prefix: seq<bv8>, w: bv16, suffix: seq<bv8>, slot: int) {
    Number(WindowCrc(prefix, w, suffix)) % DEFAULT_SLOTS == slot
  }

  /** A key with that window goes to that slot. */
  lemma HitsIsKeySlot(key: Str, prefix: seq<bv8>, w: bv16, suffix: seq<bv8>, slot: int)
    requires Bits(key) == prefix + BigEndian(w) + suffix
    ensures Hits(prefix, w, suffix, slot) <==> KeySlot(key, DEFAULT_SLOTS) == Some(slot)
  {
    hide Number, BigEndian;
  }

  function Word(d3: bv4, d2: bv4, d1: bv4, d0: bv4): bv16 {
    ((d3 as bv16) << 12) | ((d2 as bv16) << 8) | ((d1 as bv16) << 4) | (d0 as bv16)
  }

  lemma WordDigits(d3: bv4, d2: bv4, d1: bv4, d0: bv4)
    ensures var w := Word(d3, d2, d1, d0);
      Digit3(w) == d3 && Digit2(w) == d2 && Digit1(w) == d1 && Digit0(w) == d0
  {
  }

  lemma DigitsWord(w: bv16)
    ensures Word(Digit3(w), Digit2(w), Digit1(w), Digit0(w)) == w
  {
  }

  lemma IntToDigit(n: int)
    requires 0 <= n < 16
    ensures (n as bv4) as int == n
  {
  }

  lemma DigitToInt(d: bv4)
    ensures (d as int) as bv4 == d
  {
  }

  /** The `k`-th of the four words that fall into a slot. */
  function SlotWord(slot: int, k: int): bv16
    requires 0 <= slot < DEFAULT_SLOTS && 0 <= k < 4
  {
    Word((slot / 4096 + 4 * k) as bv4, (slot / 256 % 16) as bv4, (slot / 16 % 16) as bv4, (slot % 16) as bv4)
  }

  /** The two top bits of the first digit do not matter. */
  lemma TopBitsDrop(d3: int, r: int)
    requires 0 <= d3 < 16 && 0 <= r < 4096
    ensures (4096 * d3 + r) % DEFAULT_SLOTS == 4096 * (d3 % 4) + r
  {
    var q, e := d3 / 4, d3 % 4;
    assert d3 == 4 * q + e && 4096 * d3 + r == DEFAULT_SLOTS * q + (4096 * e + r);
    assert q == 0 || q == 1 || q == 2 || q == 3;
  }

  lemma SlotDigits(e: int, d2: int, d1: int, d0: int, slot: int)
    requires 0 <= d2 < 16 && 0 <= d1 < 16 && 0 <= d0 < 16
    ensures 4096 * e + 256 * d2 + 16 * d1 + d0 == slot <==>
      d0 == slot % 16 && d1 == slot / 16 % 16 && d2 == slot / 256 % 16 && e == slot / 4096
  {
    LastDigit(256 * e + 16 * d2 + d1, d0, slot);
    LastDigit(16 * e + d2, d1, slot / 16);
    LastDigit(e, d2, slot / 256);
  }

  lemma NumberSlot(d3: int, d2: int, d1: int, d0: int, slot: int)
    requires 0 <= d3 < 16 && 0 <= d2 < 16 && 0 <= d1 < 16 && 0 <= d0 < 16 && 0 <= slot < DEFAULT_SLOTS
    ensures (4096 * d3 + 256 * d2 + 16 * d1 + d0) % DEFAULT_SLOTS == slot <==>
      d0 == slot % 16 && d1 == slot / 16 % 16 && d2 == slot / 256 % 16 && d3 % 4 == slot / 4096
  {
    TopBitsDrop(d3, 256 * d2 + 16 * d1 + d0);
    SlotDigits(d3 % 4, d2, d1, d0, slot);
  }

  lemma LastDigit(q: int, r: int, n: int)
    requires 0 <= r < 16
    ensures 16 * q + r == n <==> r == n % 16 && q == n / 16
    ensures n / 16 / 16 == n / 256 && n / 256 / 16 == n / 4096
  {
  }

  lemma SlotWordDigits(slot: int, k: int)
    requires 0 <= slot < DEFAULT_SLOTS && 0 <= k < 4
    ensures var w := SlotWord(slot, k);
      && Digit3(w) as int == slot / 4096 + 4 * k && Digit2(w) as int == slot / 256 % 16
      && Digit1(w) as int == slot / 16 % 16 && Digit0(w) as int == slot % 16
  {
    hide Word, Digit0, Digit1, Digit2, Digit3;
    var d3, d2, d1, d0 := slot / 4096 + 4 * k, slot / 256 % 16, slot / 16 % 16, slot % 16;
    WordDigits(d3 as bv4, d2 as bv4, d1 as bv4, d0 as bv4);
    IntToDigit(d3);
    IntToDigit(d2);
    IntToDigit(d1);
    IntToDigit(d0);
  }

  lemma SlotWordIn(slot: int, k: int)
    requires 0 <= slot < DEFAULT_SLOTS && 0 <= k < 4
    ensures Number(SlotWord(slot, k)) % DEFAULT_SLOTS == slot
    ensures Digit3(SlotWord(slot, k)) as int / 4 == k
  {
    hide SlotWord, Digit0, Digit1, Digit2, Digit3;
    SlotWordDigits(slot, k);
    NumberSlot(slot / 4096 + 4 * k, slot / 256 % 16, slot / 16 % 16, slot % 16, slot);
  }

  lemma WordFromInts(x: bv16, d3: int, d2: int, d1: int, d0: int)
    requires Digit3(x) as int == d3 && Digit2(x) as int == d2 && Digit1(x) as int == d1 && Digit0(x) as int == d0
    ensures x == Word(d3 as bv4, d2 as bv4, d1 as bv4, d0 as bv4)
  {
    hide Word, Digit0, Digit1, Digit2, Digit3;
    DigitsWord(x);
    DigitToInt(Digit3(x));
    DigitToInt(Digit2(x));
    DigitToInt(Digit1(x));
    DigitToInt(Digit0(x));
  }

  lemma SlotWordOnly(x: bv16, slot: int)
    requires 0 <= slot < DEFAULT_SLOTS && Number(x) % DEFAULT_SLOTS == slot
    ensures x == SlotWord(slot, Digit3(x) as int / 4)
  {
    hide Word, Digit0, Digit1, Digit2, Digit3;
    var d3, d2, d1, d0 := Digit3(x) as int, Digit2(x) as int, Digit1(x) as int, Digit0(x) as int;
    NumberSlot(d3, d2, d1, d0, slot);
    WordFromInts(x, slot / 4096 + 4 * (d3 / 4), slot / 256 % 16, slot / 16 % 16, slot % 16);
  }

  /** The four windows that put a key into a slot. */
  function WindowsInto(prefix: seq<bv8>, suffix: seq<bv8>, slot: int): set<bv16>
    requires 0 <= slot < DEFAULT_SLOTS
  {
    { WindowFor(prefix, SlotWord(slot, 0), suffix), WindowFor(prefix, SlotWord(slot, 1), suffix),
      WindowFor(prefix, SlotWord(slot, 2), suffix), WindowFor(prefix, SlotWord(slot, 3), suffix) }
  }

  lemma HitsExactly(prefix: seq<bv8>, w: bv16, suffix: seq<bv8>, slot: int)
    requires 0 <= slot < DEFAULT_SLOTS
    ensures Hits(prefix, w, suffix, slot) <==> w in WindowsInto(prefix, suffix, slot)
  {
    hide WindowCrc, WindowFor, SlotWord, Number, Digit3;
    var x := WindowCrc(prefix, w, suffix);
    if Hits(prefix, w, suffix, slot) {
      SlotWordOnly(x, slot);
      WindowBijection(prefix, suffix, w, x);
    }
    forall k | 0 <= k < 4 && w == WindowFor(prefix, SlotWord(slot, k), suffix)
      ensures Hits(prefix, w, suffix, slot)
    {
      WindowBijection(prefix, suffix, w, SlotWord(slot, k));
      SlotWordIn(slot, k);
    }
  }

  lemma DistinctWindows(prefix: seq<bv8>, suffix: seq<bv8>, slot: int, i: int, j: int)
    requires 0 <= slot < DEFAULT_SLOTS && 0 <= i < j < 4
    ensures WindowFor(prefix, SlotWord(slot, i), suffix) != WindowFor(prefix, SlotWord(slot, j), suffix)
  {
    hide WindowCrc, WindowFor, SlotWord, Digit3;
    WindowForth(prefix, SlotWord(slot, i), suffix);
    WindowForth(prefix, SlotWord(slot, j), suffix);
    SlotWordIn(slot, i);
    SlotWordIn(slot, j);
  }

  /**
   * Even distribution: whatever bytes surround it, each of the 16384 slots is hit
   * by exactly four of the 65536 two-byte windows.
   */
  lemma FourWindowsPerSlot(prefix: seq<bv8>, suffix: seq<bv8>, slot: int)
    requires 0 <= slot < DEFAULT_SLOTS
    ensures forall w :: Hits(prefix, w, suffix, slot) <==> w in WindowsInto(prefix, suffix, slot)
    ensures forall key, w :: Bits(key) == prefix + BigEndian(w) + suffix ==>
      (KeySlot(key, DEFAULT_SLOTS) == Some(slot) <==> w in WindowsInto(prefix, suffix, slot))
    ensures |WindowsInto(prefix, suffix, slot)| == 4
  {
    hide WindowCrc, WindowFor, SlotWord, Number;
    forall w ensures Hits(prefix, w, suffix, slot) <==> w in WindowsInto(prefix, suffix, slot) {
      HitsExactly(prefix, w, suffix, slot);
    }
    forall key, w | Bits(key) == prefix + BigEndian(w) + suffix
      ensures KeySlot(key, DEFAULT_SLOTS) == Some(slot) <==> w in WindowsInto(prefix, suffix, slot)
    {
      HitsIsKeySlot(key, prefix, w, suffix, slot);
    }
    forall i, j | 0 <= i < j < 4
      ensures WindowFor(prefix, SlotWord(slot, i), suffix) != WindowFor(prefix, SlotWord(slot, j), suffix)
    {
      DistinctWindows(prefix, suffix, slot, i, j);
    }
  }
}
