/** CRC-32 as computed by src/persistence/snapshot_store.c: the bit-reversed polynomial
    0xEDB88320, initial value and final xor all ones (section 8 of RFC 1952). The 32-bit
    register is written out as its bits, least significant first. */
module Crc {
  import opened Bytes

  type Word = w: seq<bool> | |w| == 32 witness Repeat(false, 32)

  function Repeat(b: bool, n: nat): (r: seq<bool>)
    ensures |r| == n && forall i :: 0 <= i < n ==> r[i] == b
  {
    if n == 0 then [] else [b] + Repeat(b, n - 1)
  }

  const ONES: Word := Repeat(true, 32)
  const NOTHING: Word := Repeat(false, 32)

  /** 0xEDB88320, bit 0 first. */
  const POLYNOMIAL: Word := [
    false, false, false, false, false, true, false, false,
    true, true, false, false, false, false, false, true,
    false, false, false, true, true, true, false, true,
    true, false, true, true, false, true, true, true]

  function Xor(a: Word, b: Word): (r: Word)
    ensures forall i :: 0 <= i < 32 ==> r[i] == (a[i] != b[i])
  {
    seq(32, i requires 0 <= i < 32 => a[i] != b[i])
  }

  /** `crc >> 1`. */
  function ShiftDown(c: Word): (r: Word)
    ensures forall i :: 0 <= i < 32 ==> r[i] == (i < 31 && c[i + 1])
  {
    c[1..] + [false]
  }

  function BitStep(c: Word): (r: Word)
    ensures forall i :: 0 <= i < 32 ==> r[i] == ((i < 31 && c[i + 1]) != (c[0] && POLYNOMIAL[i]))
  {
    if c[0] then Xor(ShiftDown(c), POLYNOMIAL) else ShiftDown(c)
  }

  function Steps(c: Word, n: nat): Word
    decreases n
  {
    if n == 0 then c else Steps(BitStep(c), n - 1)
  }

  /** One input byte already xored into the register. */
  function ByteStep(c: Word): Word {
    Steps(c, 8)
  }

  // ------------------------------------------------------- numbers and their bits

  function ToBits(n: nat, k: nat): (bits: seq<bool>)
    ensures |bits| == k
  {
    if k == 0 then [] else [n % 2 == 1] + ToBits(n / 2, k - 1)
  }

  function FromBits(bits: seq<bool>): (n: nat)
    ensures n < PowerOfTwo(|bits|)
  {
    if bits == [] then 0 else (if bits[0] then 1 else 0) + 2 * FromBits(bits[1..])
  }

  lemma {:induction false} FromToBits(n: nat, k: nat)
    requires n < PowerOfTwo(k)
    ensures FromBits(ToBits(n, k)) == n
  {
    if k > 0 {
      FromToBits(n / 2, k - 1);
      assert ToBits(n, k)[1..] == ToBits(n / 2, k - 1);
    }
  }

  lemma {:induction false} ToFromBits(bits: seq<bool>)
    ensures ToBits(FromBits(bits), |bits|) == bits
    decreases |bits|
  {
    if bits != [] {
      ToFromBits(bits[1..]);
      assert bits == [bits[0]] + bits[1..];
    }
  }

  /** The byte `b` as a register value. */
  function WordOf(b: Byte): (w: Word)
    ensures Small(w)
  {
    ToBits(b, 8) + Repeat(false, 24)
  }

  /** Only the low byte is in use. */
  predicate Small(w: Word) {
    forall i :: 8 <= i < 32 ==> !w[i]
  }

  function ByteOfBits(bits: seq<bool>): Byte
    requires |bits| == 8
  {
    assert PowerOfTwo(8) == 256;
    FromBits(bits)
  }

  lemma WordOfInjective(a: Byte, b: Byte)
    requires WordOf(a) == WordOf(b)
    ensures a == b
  {
    assert PowerOfTwo(8) == 256;
    assert ToBits(a, 8) == WordOf(a)[..8] == WordOf(b)[..8] == ToBits(b, 8);
    FromToBits(a, 8);
    FromToBits(b, 8);
  }

  /** `encode_u32_be` of a checksum. */
  function WordBytes(w: Word): (bytes: ByteString)
    ensures |bytes| == 4
  {
    [ByteOfBits(w[24..]), ByteOfBits(w[16..24]), ByteOfBits(w[8..16]), ByteOfBits(w[..8])]
  }

  /** `decode_u32_be` of a checksum. */
  function BytesWord(bytes: ByteString): Word
    requires |bytes| == 4
  {
    ToBits(bytes[3], 8) + ToBits(bytes[2], 8) + ToBits(bytes[1], 8) + ToBits(bytes[0], 8)
  }

  lemma BytesOfWord(w: Word)
    ensures BytesWord(WordBytes(w)) == w
  {
    hide FromBits, ToBits;
    ToFromBits(w[24..]);
    ToFromBits(w[16..24]);
    ToFromBits(w[8..16]);
    ToFromBits(w[..8]);
    assert w == w[..8] + w[8..16] + w[16..24] + w[24..];
  }

  lemma BytesWordInjective(a: ByteString, b: ByteString)
    requires |a| == |b| == 4 && BytesWord(a) == BytesWord(b)
    ensures a == b
  {
    hide FromBits, ToBits;
    assert PowerOfTwo(8) == 256;
    var w := BytesWord(a);
    forall i | 0 <= i < 4 ensures a[i] == b[i] {
      FromToBits(a[i], 8);
      FromToBits(b[i], 8);
      assert ToBits(a[i], 8) == w[24 - 8 * i..32 - 8 * i] == ToBits(b[i], 8);
    }
  }

  // ------------------------------------------------------------ the checksum

  /** `snapshot_crc32_update`. */
  function Update(c: Word, data: ByteString): Word {
    if data == [] then c else ByteStep(Xor(Update(c, data[..|data| - 1]), WordOf(data[|data| - 1])))
  }

  function Checksum(data: ByteString): Word {
    Xor(Update(ONES, data), ONES)
  }

  /** Feeding the data in pieces gives the same register. */
  lemma {:induction false} UpdateAppend(c: Word, a: ByteString, b: ByteString)
    ensures Update(c, a + b) == Update(Update(c, a), b)
    decreases |b|
  {
    hide ByteStep, WordOf, Xor;
    if b == [] {
      assert a + b == a;
    } else {
      assert (a + b)[..|a + b| - 1] == a + b[..|b| - 1];
      UpdateAppend(c, a, b[..|b| - 1]);
    }
  }

  lemma StepFirst(c: Word, n: nat)
    requires n > 0
    ensures Steps(c, n) == Steps(if c[0] then Xor(ShiftDown(c), POLYNOMIAL) else ShiftDown(c), n - 1)
  {
    hide Xor, ShiftDown;
  }

  /** The inner loop of `snapshot_crc32_update`. */
  method BitLoop(start: Word) returns (crc: Word)
    ensures crc == ByteStep(start)
  {
    hide Xor, ShiftDown, BitStep, POLYNOMIAL;
    crc := start;
    var bit := 0;
    while bit < 8
      invariant 0 <= bit <= 8
      invariant Steps(crc, 8 - bit) == ByteStep(start)
    {
      StepFirst(crc, 8 - bit);
      if crc[0] {
        crc := Xor(ShiftDown(crc), POLYNOMIAL);
      } else {
        crc := ShiftDown(crc);
      }
      bit := bit + 1;
    }
  }

  /** `snapshot_crc32_update`: the loop over the bytes. */
  method UpdateLoop(start: Word, data: ByteString) returns (crc: Word)
    ensures crc == Update(start, data)
  {
    hide ByteStep, Xor, WordOf;
    crc := start;
    var i := 0;
    while i < |data|
      invariant 0 <= i <= |data|
      invariant crc == Update(start, data[..i])
    {
      assert data[..i + 1][..i] == data[..i];
      crc := Xor(crc, WordOf(data[i]));
      crc := BitLoop(crc);
      i := i + 1;
    }
    assert data[..|data|] == data;
  }

  // ------------------------------------------------------- linear bijection

  lemma BitStepXor(a: Word, b: Word)
    ensures BitStep(Xor(a, b)) == Xor(BitStep(a), BitStep(b))
  {
    assert forall i :: 0 <= i < 32 ==> BitStep(Xor(a, b))[i] == Xor(BitStep(a), BitStep(b))[i];
  }

  lemma BitStepZero(c: Word)
    requires BitStep(c) == NOTHING
    ensures c == NOTHING
  {
    assert !BitStep(c)[31];
    assert !c[0];
    forall i | 0 < i < 32 ensures !c[i] {
      assert !BitStep(c)[i - 1];
    }
  }

  lemma {:induction false} StepsXor(a: Word, b: Word, n: nat)
    ensures Steps(Xor(a, b), n) == Xor(Steps(a, n), Steps(b, n))
    decreases n
  {
    hide BitStep, Xor;
    if n > 0 {
      BitStepXor(a, b);
      StepsXor(BitStep(a), BitStep(b), n - 1);
    }
  }

  lemma {:induction false} StepsZero(c: Word, n: nat)
    requires Steps(c, n) == NOTHING
    ensures c == NOTHING
    decreases n
  {
    hide BitStep;
    if n > 0 {
      StepsZero(BitStep(c), n - 1);
      BitStepZero(c);
    }
  }

  lemma XorZero(a: Word, b: Word)
    ensures Xor(a, b) == NOTHING <==> a == b
  {
    if Xor(a, b) == NOTHING {
      forall i | 0 <= i < 32 ensures a[i] == b[i] {
        assert !Xor(a, b)[i];
      }
    }
  }

  lemma XorLaws(a: Word, b: Word, c: Word, d: Word)
    ensures Xor(Xor(a, b), Xor(c, d)) == Xor(Xor(a, c), Xor(b, d))
    ensures Xor(a, b) == c ==> a == Xor(b, c)
    ensures Xor(a, b) == Xor(c, b) ==> a == c
    ensures Xor(NOTHING, a) == a
  {
    if Xor(a, b) == c {
      forall i | 0 <= i < 32 ensures a[i] == Xor(b, c)[i] {
        assert Xor(a, b)[i] == c[i];
      }
    }
    if Xor(a, b) == Xor(c, b) {
      forall i | 0 <= i < 32 ensures a[i] == c[i] {
        assert Xor(a, b)[i] == Xor(c, b)[i];
      }
    }
  }

  /** Two registers that differ still differ after any number of steps. */
  lemma StepsInjective(a: Word, b: Word, n: nat)
    requires Steps(a, n) == Steps(b, n)
    ensures a == b
  {
    hide Steps, Xor;
    StepsXor(a, b, n);
    XorZero(Steps(a, n), Steps(b, n));
    StepsZero(Xor(a, b), n);
    XorZero(a, b);
  }

  lemma {:induction false} UpdateInjective(a: Word, b: Word, data: ByteString)
    requires Update(a, data) == Update(b, data)
    ensures a == b
    decreases |data|
  {
    hide Steps, WordOf, Xor;
    if data != [] {
      var front, w := data[..|data| - 1], WordOf(data[|data| - 1]);
      StepsInjective(Xor(Update(a, front), w), Xor(Update(b, front), w), 8);
      XorLaws(Update(a, front), w, Update(b, front), w);
      UpdateInjective(a, b, front);
    }
  }

  // ------------------------------------------------------------ burst errors

  /** `y << 8`. */
  function ShiftUp(y: Word): Word {
    Repeat(false, 8) + y[..24]
  }

  /** The top byte is clear. */
  predicate TopClear(y: Word) {
    forall i :: 24 <= i < 32 ==> !y[i]
  }

  lemma {:induction false} StepsShift(c: Word, n: nat)
    requires n <= 32 && forall i :: 0 <= i < n ==> !c[i]
    ensures Steps(c, n) == c[n..] + Repeat(false, n)
    decreases n
  {
    if n > 0 {
      StepsShift(BitStep(c), n - 1);
      assert BitStep(c)[n - 1..] == c[n..] + [false];
    }
  }

  /** Eight steps on a value whose low byte is clear only shift it out; nothing else leads there. */
  lemma Solve(x: Word, y: Word)
    requires TopClear(y) && ByteStep(x) == y
    ensures x == ShiftUp(y)
  {
    ShiftedOut(y);
    hide Steps, ShiftUp;
    StepsInjective(x, ShiftUp(y), 8);
  }

  lemma ShiftedOut(y: Word)
    requires TopClear(y)
    ensures ByteStep(ShiftUp(y)) == y
  {
    hide Steps;
    StepsShift(ShiftUp(y), 8);
    assert ShiftUp(y)[8..] + Repeat(false, 8) == y;
  }

  /** Going back one byte through the register. */
  lemma StepBack(d: Word, e: Word, y: Word)
    requires TopClear(y) && ByteStep(Xor(d, e)) == y
    ensures d == Xor(e, ShiftUp(y))
  {
    hide Xor, Steps;
    Solve(Xor(d, e), y);
    XorLaws(d, e, ShiftUp(y), NOTHING);
  }

  /** `e` with `y` shifted above it: the bits of both stay visible. */
  lemma Stacked(e: Word, y: Word)
    requires Small(e) && TopClear(y)
    ensures forall i :: 0 <= i < 32 ==> Xor(e, ShiftUp(y))[i] == if i < 8 then e[i] else y[i - 8]
  {
  }

  /** Four bytes of difference never cancel in the register. */
  lemma BurstNonZero(e0: Word, e1: Word, e2: Word, e3: Word)
    requires Small(e0) && Small(e1) && Small(e2) && Small(e3)
    requires ByteStep(Xor(ByteStep(Xor(ByteStep(Xor(ByteStep(e0), e1)), e2)), e3)) == NOTHING
    ensures e0 == NOTHING && e1 == NOTHING && e2 == NOTHING && e3 == NOTHING
  {
    hide Xor, Steps, ShiftUp;
    var d1 := ByteStep(e0);
    var d2 := ByteStep(Xor(d1, e1));
    var d3 := ByteStep(Xor(d2, e2));
    StepsZero(Xor(d3, e3), 8);
    XorZero(d3, e3);
    var f2 := Xor(e2, ShiftUp(e3));
    StepBack(d2, e2, e3);
    Stacked(e2, e3);
    var f1 := Xor(e1, ShiftUp(f2));
    StepBack(d1, e1, f2);
    Stacked(e1, f2);
    Solve(e0, f1);
    StackedZero(e0, e1, e2, e3, f2, f1);
  }

  lemma StackedZero(e0: Word, e1: Word, e2: Word, e3: Word, f2: Word, f1: Word)
    requires Small(e0) && Small(e1) && Small(e2) && Small(e3)
    requires forall i :: 0 <= i < 32 ==> f2[i] == if i < 8 then e2[i] else e3[i - 8]
    requires forall i :: 0 <= i < 32 ==> f1[i] == if i < 8 then e1[i] else f2[i - 8]
    requires e0 == ShiftUp(f1)
    ensures e0 == NOTHING && e1 == NOTHING && e2 == NOTHING && e3 == NOTHING
  {
    forall i | 0 <= i < 24 ensures !f1[i] {
      assert e0[i + 8] == f1[i];
    }
    forall i | 0 <= i < 8 ensures !e0[i] && !e1[i] && !e2[i] && !e3[i] {
      assert !f1[i] && !f1[i + 8] && !f1[i + 16];
      assert f1[i + 8] == f2[i] && f1[i + 16] == f2[i + 8];
    }
  }

  /** How one input byte changes the difference of two registers. */
  lemma StepDifference(c: Word, d: Word, a: Byte, b: Byte)
    ensures Xor(ByteStep(Xor(c, WordOf(a))), ByteStep(Xor(d, WordOf(b))))
            == ByteStep(Xor(Xor(c, d), Xor(WordOf(a), WordOf(b))))
  {
    hide Steps, Xor, WordOf;
    StepsXor(Xor(c, WordOf(a)), Xor(d, WordOf(b)), 8);
    XorLaws(c, WordOf(a), d, WordOf(b));
  }

  lemma WordDifference(a: Byte, b: Byte)
    ensures Small(Xor(WordOf(a), WordOf(b)))
    ensures Xor(WordOf(a), WordOf(b)) == NOTHING ==> a == b
  {
    XorZero(WordOf(a), WordOf(b));
    if WordOf(a) == WordOf(b) {
      WordOfInjective(a, b);
    }
  }

  /** One step of `Update` for the byte at `i`. */
  function After(c: Word, b: Byte): Word {
    ByteStep(Xor(c, WordOf(b)))
  }

  lemma UpdateFour(c: Word, a: ByteString)
    requires |a| == 4
    ensures Update(c, a) == After(After(After(After(c, a[0]), a[1]), a[2]), a[3])
  {
    hide Steps, Xor, WordOf;
    var p3, p2, p1 := a[..3], a[..2], a[..1];
    assert p3[..2] == p2 && p2[..1] == p1 && p1[..0] == [];
    assert Update(c, p1) == After(c, a[0]);
    assert Update(c, p2) == After(Update(c, p1), a[1]);
    assert Update(c, p3) == After(Update(c, p2), a[2]);
  }

  /** Different four-byte inputs lead equal registers to different ones. */
  lemma FourDiffer(c: Word, a: ByteString, b: ByteString)
    requires |a| == |b| == 4 && Update(c, a) == Update(c, b)
    ensures a == b
  {
    hide Steps, Xor, WordOf, Update;
    UpdateFour(c, a);
    UpdateFour(c, b);
    var x1, y1 := After(c, a[0]), After(c, b[0]);
    var x2, y2 := After(x1, a[1]), After(y1, b[1]);
    var x3, y3 := After(x2, a[2]), After(y2, b[2]);
    StepDifference(c, c, a[0], b[0]);
    StepDifference(x1, y1, a[1], b[1]);
    StepDifference(x2, y2, a[2], b[2]);
    StepDifference(x3, y3, a[3], b[3]);
    XorZero(c, c);
    XorZero(After(x3, a[3]), After(y3, b[3]));
    var e0, e1 := Xor(WordOf(a[0]), WordOf(b[0])), Xor(WordOf(a[1]), WordOf(b[1]));
    var e2, e3 := Xor(WordOf(a[2]), WordOf(b[2])), Xor(WordOf(a[3]), WordOf(b[3]));
    XorLaws(e0, e0, e0, e0);
    WordDifference(a[0], b[0]);
    WordDifference(a[1], b[1]);
    WordDifference(a[2], b[2]);
    WordDifference(a[3], b[3]);
    BurstNonZero(e0, e1, e2, e3);
    assert a == [a[0], a[1], a[2], a[3]] && b == [b[0], b[1], b[2], b[3]];
  }

  /** Any change confined to four consecutive bytes changes the checksum. */
  lemma BurstDetected(pre: ByteString, a: ByteString, b: ByteString, post: ByteString)
    requires |a| == |b| == 4 && Checksum(pre + a + post) == Checksum(pre + b + post)
    ensures a == b
  {
    hide Update, Xor;
    var c := Update(ONES, pre);
    UpdateAppend(ONES, pre + a, post);
    UpdateAppend(ONES, pre, a);
    UpdateAppend(ONES, pre + b, post);
    UpdateAppend(ONES, pre, b);
    XorLaws(Update(ONES, pre + a + post), ONES, Update(ONES, pre + b + post), ONES);
    UpdateInjective(Update(c, a), Update(c, b), post);
    FourDiffer(c, a, b);
  }
}
