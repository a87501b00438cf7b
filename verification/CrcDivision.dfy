/** What the checksum is: the remainder of polynomial division over GF(2) by the generator
    x^32 + x^26 + x^23 + x^22 + x^16 + x^12 + x^11 + x^10 + x^8 + x^7 + x^5 + x^4 + x^2 + x + 1,
    done by hand with the coefficients written out, highest power first. */
module CrcDivision {
  import opened Bytes
  import opened Crc

  const GENERATOR: set<nat> := {32, 26, 23, 22, 16, 12, 11, 10, 8, 7, 5, 4, 2, 1, 0}

  /** `n >> i & 1`. */
  predicate Bit(n: nat, i: nat) {
    if i == 0 then n % 2 == 1 else Bit(n / 2, i - 1)
  }

  /** The bits of the data in the order of transmission: low bit of each byte first. */
  function MessageBits(data: ByteString): (bits: seq<bool>)
    ensures |bits| == 8 * |data|
  {
    seq(8 * |data|, i requires 0 <= i < 8 * |data| => Bit(data[i / 8], i % 8))
  }

  /** The dividend: the message times x^32, its first 32 coefficients complemented. */
  function Dividend(data: ByteString): (m: seq<bool>)
    ensures |m| == 8 * |data| + 32
  {
    var bits := MessageBits(data) + Repeat(false, 32);
    seq(|bits|, i requires 0 <= i < |bits| => bits[i] != (i < 32))
  }

  /** Long division: while the dividend has degree 32 or more, subtract the generator under its
      leading coefficient if that is one; the leading coefficient is zero then and dropped. */
  function Remainder(m: seq<bool>): (r: seq<bool>)
    requires |m| >= 32
    ensures |r| == 32
    decreases |m|
  {
    if |m| == 32 then m else Remainder(Subtract(m)[1..])
  }

  function Subtract(m: seq<bool>): (r: seq<bool>)
    requires |m| > 32
    ensures |r| == |m| && !r[0]
  {
    assert 32 in GENERATOR;
    seq(|m|, i requires 0 <= i < |m| => m[i] != (m[0] && i <= 32 && 32 - i in GENERATOR))
  }

  /** The register's polynomial is the generator without its leading term, highest power in
      bit 0. */
  lemma PolynomialIsGenerator(i: nat)
    requires i < 32
    ensures POLYNOMIAL[i] <==> 31 - i in GENERATOR
  {
  }

  // -------------------------------------------- the register divides, bit by bit

  /** The register under the first coefficients of what is still to be divided. */
  function Pending(c: Word, rest: seq<bool>): (m: seq<bool>)
    ensures |m| == |rest| + 32
  {
    seq(|rest| + 32, i requires 0 <= i < |rest| + 32 => (i < 32 && c[i]) != (i < |rest| && rest[i]))
  }

  /** One step of the register is one step of the division. */
  lemma StepDivides(c: Word, rest: seq<bool>)
    ensures Remainder(Pending(c, [false] + rest)) == Remainder(Pending(BitStep(c), rest))
  {
    hide BitStep;
    var m, n := Pending(c, [false] + rest), Pending(BitStep(c), rest);
    var t := Subtract(m)[1..];
    forall i | 0 <= i < |n| ensures t[i] == n[i] {
      if i < 32 {
        PolynomialIsGenerator(i);
      }
    }
    assert t == n;
  }

  lemma {:induction false} StepsDivide(c: Word, k: nat, rest: seq<bool>)
    ensures Remainder(Pending(c, Repeat(false, k) + rest)) == Remainder(Pending(Steps(c, k), rest))
    decreases k
  {
    hide Remainder, Pending, BitStep;
    if k == 0 {
      assert Repeat(false, k) + rest == rest;
    } else {
      assert Repeat(false, k) + rest == [false] + (Repeat(false, k - 1) + rest);
      StepDivides(c, Repeat(false, k - 1) + rest);
      StepsDivide(BitStep(c), k - 1, rest);
    }
  }

  lemma {:induction false} BitAt(n: nat, k: nat, i: nat)
    requires i < k
    ensures ToBits(n, k)[i] == Bit(n, i)
    decreases k
  {
    if i > 0 {
      BitAt(n / 2, k - 1, i - 1);
    }
  }

  /** Xoring a byte into the register takes its eight bits off what is to come. */
  lemma ByteEnters(c: Word, b: Byte, rest: seq<bool>)
    ensures Pending(c, ToBits(b, 8) + rest) == Pending(Xor(c, WordOf(b)), Repeat(false, 8) + rest)
  {
    hide ToBits;
  }

  lemma FrontBits(data: ByteString)
    requires data != []
    ensures MessageBits(data) == ToBits(data[0], 8) + MessageBits(data[1..])
  {
    hide ToBits;
    var bits := ToBits(data[0], 8) + MessageBits(data[1..]);
    forall i | 0 <= i < |bits| ensures MessageBits(data)[i] == bits[i] {
      if i < 8 {
        BitAt(data[0], 8, i);
      } else {
        assert (i - 8) / 8 == i / 8 - 1 && (i - 8) % 8 == i % 8;
      }
    }
  }

  /** Feeding the data to the register is dividing them. */
  lemma {:induction false} UpdateDivides(c: Word, data: ByteString)
    ensures Update(c, data) == Remainder(Pending(c, MessageBits(data)))
    decreases |data|
  {
    hide Steps, Xor, WordOf, ToBits, MessageBits;
    if data == [] {
      assert Pending(c, []) == c;
    } else {
      var next, rest := ByteStep(Xor(c, WordOf(data[0]))), MessageBits(data[1..]);
      assert data == data[..1] + data[1..] && data[..1][..0] == [];
      UpdateAppend(c, data[..1], data[1..]);
      FrontBits(data);
      ByteEnters(c, data[0], rest);
      StepsDivide(Xor(c, WordOf(data[0])), 8, rest);
      UpdateDivides(next, data[1..]);
    }
  }

  /** The checksum is the complement of the remainder that the complemented, shifted message
      leaves under the generator. */
  lemma ChecksumIsRemainder(data: ByteString)
    ensures forall i :: 0 <= i < 32 ==> Checksum(data)[i] == !Remainder(Dividend(data))[i]
  {
    hide Update, Remainder, MessageBits;
    UpdateDivides(ONES, data);
    assert Pending(ONES, MessageBits(data)) == Dividend(data);
  }
}
