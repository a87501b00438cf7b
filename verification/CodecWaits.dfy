/** When the parser waits (src/protocol/codec.c): only while the input can still become a
    well-formed command. What cannot is refused at once or with the next byte. */
module CodecWaits {
  import opened Bytes
  import opened Codec

  /** The input is a proper prefix of a well-formed command. */
  ghost predicate CanComplete(s: ByteString) {
    exists t, count, nums, fields ::
      t != [] && fields != [] && NumeralsFit(count, nums, fields) && s + t == CommandWire(count, nums, fields)
  }

  /** Whatever comes next, the verdict is -1. */
  predicate RefusedNext(s: ByteString, capacity: nat, max: nat) {
    forall b: Byte :: ParseCommand(s + [b], capacity, max).Malformed?
  }

  // ------------------------------------------------------------------- numbers

  /** A number is waited for while all of it are digits, or digits and a carriage return. */
  lemma {:induction false} ScanShape(s: ByteString, pos: nat, value: nat)
    requires pos <= |s| && ScanDigits(s, pos, value).Incomplete?
    ensures AllDigits(s[pos..]) || (pos < |s| && s[|s| - 1] == CR && AllDigits(s[pos..|s| - 1]))
    decreases |s| - pos
  {
    if pos < |s| && IsDigit(s[pos]) {
      ScanShape(s, pos + 1, 10 * value + (s[pos] - ZERO));
      assert s[pos..] == [s[pos]] + s[pos + 1..];
      if !AllDigits(s[pos + 1..]) {
        assert s[pos..|s| - 1] == [s[pos]] + s[pos + 1..|s| - 1];
      }
    }
  }

  /** Digits alone, or none yet: any further digit fits the form. */
  predicate OpenNumber(s: ByteString, pos: nat)
    requires pos <= |s|
  {
    AllDigits(s[pos..])
  }

  /** A digit run and its carriage return: the number is fixed. */
  predicate ClosedNumber(s: ByteString, pos: nat)
    requires pos <= |s|
  {
    pos + 1 < |s| && s[|s| - 1] == CR && AllDigits(s[pos..|s| - 1])
  }

  lemma NumberShape(s: ByteString, pos: nat)
    requires pos <= |s| && ParseNumber(s, pos).Incomplete?
    ensures OpenNumber(s, pos) || ClosedNumber(s, pos)
  {
    ScanShape(s, pos, 0);
  }

  /** The rest of the line after a closed number. */
  lemma ClosedLine(s: ByteString, pos: nat) returns (num: ByteString, v: nat)
    requires pos <= |s| && ClosedNumber(s, pos)
    ensures IsNumeral(num, v) && s[pos..] + [LF] == num + CRLF && num == s[pos..|s| - 1]
  {
    num := s[pos..|s| - 1];
    v := Value(num);
    assert s[pos..] == num + [CR];
  }

  /** An open number can be ended, after `digit` if it is empty or zero so far. */
  lemma OpenLine(s: ByteString, pos: nat, digit: Byte) returns (num: ByteString, v: nat, t: ByteString)
    requires pos <= |s| && OpenNumber(s, pos) && IsDigit(digit)
    ensures IsNumeral(num, v) && s[pos..] + t == num + CRLF && t != []
    ensures digit != ZERO ==> v > 0
  {
    var ds := s[pos..];
    if ds == [] || Value(ds) == 0 {
      num := ds + [digit];
      ValueSnoc(ds, digit);
      t := [digit] + CRLF;
    } else {
      num := ds;
      t := CRLF;
    }
    v := Value(num);
  }

  // -------------------------------------------------------------------- fields

  function Zeros(n: nat): (b: ByteString)
    ensures |b| == n
  {
    seq(n, i => 0)
  }

  function EmptyFields(n: nat): (fs: Fields)
    ensures |fs| == n && forall i :: 0 <= i < n ==> fs[i] == []
  {
    seq(n, i => [])
  }

  function ZeroNumerals(n: nat): (nums: seq<ByteString>)
    ensures |nums| == n && forall i :: 0 <= i < n ==> nums[i] == [ZERO]
  {
    seq(n, i => [ZERO])
  }

  lemma Digits()
    ensures IsNumeral([ZERO], 0) && IsNumeral([ZERO + 1], 1)
  {
    assert [ZERO][..0] == [] && [ZERO + 1][..0] == [];
  }

  /** A field that is waited for is the beginning of a well-formed one, unless the byte after
      its contents is wrong; then the byte that follows is refused with it. */
  lemma FieldWaits(s: ByteString, pos: nat, max: nat)
    returns (late: bool, num: ByteString, field: ByteString, t: ByteString)
    requires pos <= |s| && ParseField(s, pos, max).Incomplete?
    ensures if late then forall b: Byte :: ParseField(s + [b], pos, max).Malformed?
            else t != [] && IsNumeral(num, |field|) && s[pos..] + t == FieldWire(num, field)
  {
    late, num, field, t := false, [ZERO], [], FieldWire([ZERO], []);
    if pos == |s| {
      assert s[pos..] == [];
      assert [ZERO][..0] == [];
    } else if ParseNumber(s, pos + 1).Incomplete? {
      num, field, t := FieldNumberWaits(s, pos);
    } else {
      late, num, field, t := FieldBodyWaits(s, pos, max);
    }
  }

  lemma FieldNumberWaits(s: ByteString, pos: nat) returns (num: ByteString, field: ByteString, t: ByteString)
    requires pos < |s| && s[pos] == DOLLAR && ParseNumber(s, pos + 1).Incomplete?
    ensures t != [] && IsNumeral(num, |field|) && s[pos..] + t == FieldWire(num, field)
  {
    hide ScanDigits;
    NumberShape(s, pos + 1);
    var v, rest;
    if OpenNumber(s, pos + 1) {
      num, v, rest := OpenLine(s, pos + 1, ZERO);
    } else {
      num, v := ClosedLine(s, pos + 1);
      rest := [LF];
    }
    field := Zeros(v);
    t := rest + field + CRLF;
    assert s[pos..] + t == [s[pos]] + (s[pos + 1..] + rest) + field + CRLF;
  }

  lemma FieldBodyWaits(s: ByteString, pos: nat, max: nat)
    returns (late: bool, num: ByteString, field: ByteString, t: ByteString)
    requires pos < |s| && ParseField(s, pos, max).Incomplete? && ParseNumber(s, pos + 1).Complete?
    ensures if late then forall b: Byte :: ParseField(s + [b], pos, max).Malformed?
            else t != [] && IsNumeral(num, |field|) && s[pos..] + t == FieldWire(num, field)
  {
    hide ScanDigits;
    NumberSound(s, pos + 1);
    var n := ParseNumber(s, pos + 1);
    num := s[pos + 1..n.next - 2];
    var end := n.next + n.value;
    late, field, t := false, [], [];
    assert s[pos..n.next] == [DOLLAR] + num + CRLF;
    assert s[pos..] == s[pos..n.next] + s[n.next..];
    if |s| <= end {
      var missing := Zeros(end - |s|);
      field, t := s[n.next..] + missing, missing + CRLF;
    } else if s[end] == CR {
      field, t := s[n.next..end], [LF];
      assert s[n.next..] == field + [CR];
    } else {
      late := true;
      forall b: Byte ensures ParseField(s + [b], pos, max).Malformed? {
        NumberStable(s, [b], pos + 1);
      }
    }
  }

  lemma NumberStable(s: ByteString, t: ByteString, pos: nat)
    requires ParseNumber(s, pos).Complete?
    ensures ParseNumber(s + t, pos) == ParseNumber(s, pos)
  {
    ScanDigitsStable(s, t, pos, 0);
  }

  lemma {:induction false} FieldsWait(s: ByteString, pos: nat, count: nat, max: nat)
    returns (late: bool, nums: seq<ByteString>, fields: Fields, t: ByteString)
    requires pos <= |s| && ParseFields(s, pos, count, max).Incomplete?
    ensures if late then forall b: Byte :: ParseFields(s + [b], pos, count, max).Malformed?
            else t != [] && |fields| == count && LengthsFit(nums, fields) && s[pos..] + t == FieldsWire(nums, fields)
    decreases count
  {
    hide ParseField, FieldWire;
    var num, field;
    if ParseField(s, pos, max).Incomplete? {
      late, num, field, t := FieldWaits(s, pos, max);
      var more := FieldsWire(ZeroNumerals(count - 1), EmptyFields(count - 1));
      nums, fields := [num] + ZeroNumerals(count - 1), [field] + EmptyFields(count - 1);
      Digits();
      assert nums[1..] == ZeroNumerals(count - 1) && fields[1..] == EmptyFields(count - 1);
      if !late {
        assert FieldsWire(nums, fields) == FieldWire(num, field) + more;
        assert s[pos..] + (t + more) == (s[pos..] + t) + more;
      }
      t := t + more;
    } else {
      var f := ParseField(s, pos, max);
      num := FieldSound(s, pos, max);
      late, nums, fields, t := FieldsWait(s, f.next, count - 1, max);
      forall b: Byte ensures ParseField(s + [b], pos, max) == f {
        FieldStable(s, [b], pos, max);
      }
      if !late {
        var rest := fields;
        nums, fields := [num] + nums, [f.value] + fields;
        assert fields[1..] == rest;
        assert FieldsWire(nums, fields) == FieldWire(num, f.value) + FieldsWire(nums[1..], rest);
        assert s[pos..] + t == s[pos..f.next] + (s[f.next..] + t);
      }
    }
  }

  // ------------------------------------------------------------------ commands

  /** The count line is still open: any well-formed command with that count can follow. */
  lemma CountWaits(s: ByteString, capacity: nat, max: nat)
    requires s != [] && s[0] == STAR && ParseNumber(s, 1).Incomplete? && capacity > 0 && max > 0
    ensures CanComplete(s) || RefusedNext(s, capacity, max)
  {
    NumberShape(s, 1);
    if OpenNumber(s, 1) {
      var num, v, t := OpenLine(s, 1, ZERO + 1);
      CountFollowed(s, num, v, t);
    } else {
      var num, v := ClosedLine(s, 1);
      if v > 0 {
        CountFollowed(s, num, v, [LF]);
      } else {
        forall b: Byte ensures ParseCommand(s + [b], capacity, max).Malformed? {
          ZeroRefused(s, num, b, capacity, max);
        }
      }
    }
  }

  lemma CountFollowed(s: ByteString, num: ByteString, v: nat, t: ByteString)
    requires s != [] && s[0] == STAR && IsNumeral(num, v) && v > 0 && t != [] && s[1..] + t == num + CRLF
    ensures CanComplete(s)
  {
    var nums, fields := ZeroNumerals(v), EmptyFields(v);
    Digits();
    assert NumeralsFit(num, nums, fields);
    var all := t + FieldsWire(nums, fields);
    assert s + all == [s[0]] + (s[1..] + t) + FieldsWire(nums, fields);
    assert s + all == CommandWire(num, nums, fields);
  }

  /** No command has zero fields. */
  lemma ZeroRefused(s: ByteString, num: ByteString, b: Byte, capacity: nat, max: nat)
    requires s != [] && s[0] == STAR && ClosedNumber(s, 1) && num == s[1..|s| - 1] && IsNumeral(num, 0)
    ensures ParseCommand(s + [b], capacity, max).Malformed?
  {
    var r := s + [b];
    assert r[1..|s| - 1] == num;
    if b == LF {
      assert r == [STAR] + num + CRLF + [];
      NumberComplete([STAR], num, 0, []);
    } else {
      NumberBroken(r, 1, |s| - 1);
    }
  }

  lemma {:induction false} NumberBroken(s: ByteString, pos: nat, end: nat)
    requires pos < end < |s| - 1 && AllDigits(s[pos..end]) && s[end] == CR && s[end + 1] != LF
    ensures ParseNumber(s, pos).Malformed?
  {
    assert s[pos] == s[pos..end][0];
    ScanBroken(s, pos, 0, end);
  }

  lemma {:induction false} ScanBroken(s: ByteString, pos: nat, value: nat, end: nat)
    requires pos <= end < |s| - 1 && AllDigits(s[pos..end]) && s[end] == CR && s[end + 1] != LF
    ensures ScanDigits(s, pos, value).Malformed?
    decreases end - pos
  {
    if pos < end {
      assert s[pos] == s[pos..end][0];
      assert s[pos + 1..end] == s[pos..end][1..];
      ScanBroken(s, pos + 1, 10 * value + (s[pos] - ZERO), end);
    }
  }

  lemma BodyWaits(s: ByteString, capacity: nat, max: nat)
    requires ParseCommand(s, capacity, max).Incomplete? && s != [] && ParseNumber(s, 1).Complete?
    ensures CanComplete(s) || RefusedNext(s, capacity, max)
  {
    hide ScanDigits, ParseFields;
    NumberSound(s, 1);
    var n := ParseNumber(s, 1);
    var count := s[1..n.next - 2];
    var late, nums, fields, t := FieldsWait(s, n.next, n.value, max);
    if late {
      forall b: Byte ensures ParseCommand(s + [b], capacity, max).Malformed? {
        NumberStable(s, [b], 1);
      }
    } else {
      assert s + t == [s[0]] + s[1..n.next] + (s[n.next..] + t);
      assert s + t == CommandWire(count, nums, fields);
    }
  }

  /** The parser waits only for the rest of a well-formed command; any other input is refused, at
      the latest with the byte that follows. */
  lemma WaitsOnlyForCommands(s: ByteString, capacity: nat, max: nat)
    requires ParseCommand(s, capacity, max).Incomplete?
    ensures CanComplete(s) || RefusedNext(s, capacity, max)
  {
    if s == [] {
      hide ParseCommand;
      CountFollowedAtStart();
    } else if ParseNumber(s, 1).Incomplete? {
      CountWaits(s, capacity, max);
    } else {
      BodyWaits(s, capacity, max);
    }
  }

  lemma CountFollowedAtStart()
    ensures CanComplete([])
  {
    Digits();
    var count, nums, fields := [ZERO + 1], [[ZERO]], [[]];
    assert NumeralsFit(count, nums, fields);
    assert [] + CommandWire(count, nums, fields) == CommandWire(count, nums, fields);
  }

  /** The delay by one byte is real: "*0" and a carriage return is waited on. */
  lemma OneByteLate(capacity: nat, max: nat)
    requires capacity > 0 && max > 0
    ensures ParseCommand([STAR, ZERO, CR], capacity, max).Incomplete?
    ensures !CanComplete([STAR, ZERO, CR])
  {
    var s := [STAR, ZERO, CR];
    assert ScanDigits(s, 2, 0).Incomplete?;
    assert ScanDigits(s, 1, 0) == ScanDigits(s, 2, 0);
    forall t, count, nums, fields
      | fields != [] && NumeralsFit(count, nums, fields) && s + t == CommandWire(count, nums, fields)
      ensures false
    {
      ZeroCount(t, count, FieldsWire(nums, fields));
      Digits();
    }
  }

  lemma ZeroCount(t: ByteString, count: ByteString, rest: ByteString)
    requires count != [] && AllDigits(count) && [STAR, ZERO, CR] + t == [STAR] + count + CRLF + rest
    ensures count == [ZERO]
  {
    var w := [STAR] + count + (CRLF + rest);
    assert w == [STAR, ZERO, CR] + t;
    assert w[1] == ZERO && w[2] == CR;
    assert forall i :: 0 <= i < |count| ==> w[i + 1] == count[i];
    assert forall i :: 1 <= i < 1 + |count| ==> w[i] == count[i - 1] && IsDigit(w[i]);
  }
}
