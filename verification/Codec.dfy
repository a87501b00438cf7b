/** The length-prefixed command codec (src/protocol/codec.c): an incremental, size-limited
    parser for arrays of bulk strings, and the encoder used by the AOF and by replies. */
module Codec {
  import opened Bytes

  const STAR: Byte := 42
  const DOLLAR: Byte := 36

  type Fields = seq<ByteString>

  /** The parsers' three-valued answer: 0 (more input needed), -1 (format error) and 1. */
  datatype Verdict<+T> = Incomplete | Malformed | Complete(value: T, next: nat)

  // ---------------------------------------------------------------- parser

  function ScanDigits(s: ByteString, pos: nat, value: nat): Verdict<nat>
    decreases |s| - pos
  {
    if pos >= |s| then Incomplete
    else if IsDigit(s[pos]) then
      if value > (SIZE_MAX - (s[pos] - ZERO)) / 10 then Malformed
      else ScanDigits(s, pos + 1, 10 * value + (s[pos] - ZERO))
    else if s[pos] != CR then Malformed
    else if pos + 1 >= |s| then Incomplete
    else if s[pos + 1] != LF then Malformed
    else Complete(value, pos + 2)
  }

  function ParseNumber(s: ByteString, pos: nat): Verdict<nat> {
    if pos >= |s| then Incomplete
    else if !IsDigit(s[pos]) then Malformed
    else ScanDigits(s, pos, 0)
  }

  function ParseField(s: ByteString, pos: nat, max: nat): Verdict<ByteString> {
    if pos >= |s| then Incomplete
    else if s[pos] != DOLLAR then Malformed
    else
      match ParseNumber(s, pos + 1)
      case Incomplete => Incomplete
      case Malformed => Malformed
      case Complete(length, start) =>
        if start > max || max - start < 2 || length > max - start - 2 then Malformed
        else if start + length + 2 > |s| then Incomplete
        else if s[start + length] != CR || s[start + length + 1] != LF then Malformed
        else Complete(s[start..start + length], start + length + 2)
  }

  function ParseFields(s: ByteString, pos: nat, count: nat, max: nat): Verdict<Fields>
    decreases count
  {
    if count == 0 then Complete([], pos)
    else
      match ParseField(s, pos, max)
      case Incomplete => Incomplete
      case Malformed => Malformed
      case Complete(field, next) =>
        match ParseFields(s, next, count - 1, max)
        case Incomplete => Incomplete
        case Malformed => Malformed
        case Complete(rest, end) => Complete([field] + rest, end)
  }

  /** The verdict of `kvs_parse_command_limited` on the bytes received so far. */
  function ParseCommand(s: ByteString, capacity: nat, max: nat): Verdict<Fields> {
    if capacity == 0 || max == 0 then Malformed
    else if s == [] then Incomplete
    else if s[0] != STAR then Malformed
    else
      match ParseNumber(s, 1)
      case Incomplete => Incomplete
      case Malformed => Malformed
      case Complete(count, start) =>
        if start > max || count == 0 || count > capacity then Malformed
        else ParseFields(s, start, count, max)
  }

  // ------------------------------------------------- wire format and encoder

  /** One field on the wire, its length written with the numeral `num`. */
  function FieldWire(num: ByteString, field: ByteString): (w: ByteString)
    ensures |w| == |num| + |field| + 5
  {
    [DOLLAR] + num + CRLF + field + CRLF
  }

  function FieldsWire(nums: seq<ByteString>, fields: Fields): ByteString
    requires |nums| == |fields|
  {
    if fields == [] then []
    else FieldWire(nums[0], fields[0]) + FieldsWire(nums[1..], fields[1..])
  }

  /** A whole command on the wire with explicit count and length numerals. */
  function CommandWire(count: ByteString, nums: seq<ByteString>, fields: Fields): ByteString
    requires |nums| == |fields|
  {
    [STAR] + count + CRLF + FieldsWire(nums, fields)
  }

  /** The numerals describe the fields; they may carry leading zeros. */
  predicate NumeralsFit(count: ByteString, nums: seq<ByteString>, fields: Fields) {
    && IsNumeral(count, |fields|)
    && LengthsFit(nums, fields)
  }

  predicate LengthsFit(nums: seq<ByteString>, fields: Fields) {
    && |nums| == |fields|
    && forall i :: 0 <= i < |fields| ==> IsNumeral(nums[i], |fields[i]|)
  }

  function EncodeField(field: ByteString): ByteString {
    FieldWire(Decimal(|field|), field)
  }

  function EncodeFields(fields: Fields): ByteString {
    if fields == [] then [] else EncodeField(fields[0]) + EncodeFields(fields[1..])
  }

  function CountLine(count: nat): ByteString {
    [STAR] + Decimal(count) + CRLF
  }

  /** The canonical encoding written by `kvs_encode_command`. */
  function EncodeCommand(fields: Fields): ByteString {
    CountLine(|fields|) + EncodeFields(fields)
  }

  function CanonicalNumerals(fields: Fields): (nums: seq<ByteString>)
    ensures LengthsFit(nums, fields)
  {
    seq(|fields|, i requires 0 <= i < |fields| => Decimal(|fields[i]|))
  }

  lemma {:induction false} EncodeFieldsIsWire(fields: Fields)
    ensures EncodeFields(fields) == FieldsWire(CanonicalNumerals(fields), fields)
  {
    if fields != [] {
      EncodeFieldsIsWire(fields[1..]);
      assert CanonicalNumerals(fields)[1..] == CanonicalNumerals(fields[1..]);
    }
  }

  lemma EncodeIsWire(fields: Fields)
    ensures EncodeCommand(fields) == CommandWire(Decimal(|fields|), CanonicalNumerals(fields), fields)
    ensures NumeralsFit(Decimal(|fields|), CanonicalNumerals(fields), fields)
  {
    EncodeFieldsIsWire(fields);
  }

  // ------------------------------------------------------------- exactness

  /** The overflow test is exact: a digit run is accepted iff its value fits in `size_t`. */
  lemma {:induction false} ScanDigitsComplete(s: ByteString, start: nat, ds: ByteString, k: nat)
    requires AllDigits(ds) && Value(ds) <= SIZE_MAX && k <= |ds|
    requires start + |ds| + 1 < |s| && s[start + |ds|] == CR && s[start + |ds| + 1] == LF
    requires forall i :: 0 <= i < |ds| ==> s[start + i] == ds[i]
    ensures ScanDigits(s, start + k, Value(ds[..k])) == Complete(Value(ds), start + |ds| + 2)
    decreases |ds| - k
  {
    if k < |ds| {
      assert s[start + k] == ds[k];
      assert ds[..k + 1] == ds[..k] + [ds[k]];
      ValueSnoc(ds[..k], ds[k]);
      ValuePrefix(ds, k + 1);
      ScanDigitsComplete(s, start, ds, k + 1);
    } else {
      assert ds[..k] == ds;
    }
  }

  lemma {:induction false} ScanDigitsSound(s: ByteString, start: nat, pos: nat)
    requires start <= pos <= |s|
    requires AllDigits(s[start..pos])
    ensures ScanDigits(s, pos, Value(s[start..pos])).Complete? ==>
              var r := ScanDigits(s, pos, Value(s[start..pos]));
              && pos + 2 <= r.next <= |s|
              && AllDigits(s[start..r.next - 2]) && Value(s[start..r.next - 2]) == r.value
              && s[r.next - 2..r.next] == CRLF
    decreases |s| - pos
  {
    if pos < |s| && IsDigit(s[pos]) {
      assert s[start..pos + 1] == s[start..pos] + [s[pos]];
      ValueSnoc(s[start..pos], s[pos]);
      ScanDigitsSound(s, start, pos + 1);
    }
  }

  lemma NumberComplete(pre: ByteString, num: ByteString, v: nat, rest: ByteString)
    requires IsNumeral(num, v) && v <= SIZE_MAX
    ensures ParseNumber(pre + num + CRLF + rest, |pre|) == Complete(v, |pre| + |num| + 2)
  {
    var s := pre + num + CRLF + rest;
    var end := |pre| + |num|;
    assert s[|pre|] == num[0] && s[end] == CR && s[end + 1] == LF;
    assert num[..0] == [];
    ScanDigitsComplete(s, |pre|, num, 0);
  }

  lemma NumberSound(s: ByteString, pos: nat)
    ensures ParseNumber(s, pos).Complete? ==>
              var r := ParseNumber(s, pos);
              && pos + 3 <= r.next <= |s|
              && IsNumeral(s[pos..r.next - 2], r.value)
              && s[pos..r.next] == s[pos..r.next - 2] + CRLF
  {
    if ParseNumber(s, pos).Complete? {
      assert s[pos..pos] == [];
      ScanDigitsSound(s, pos, pos);
      var r := ParseNumber(s, pos);
      assert s[pos..r.next] == s[pos..r.next - 2] + s[r.next - 2..r.next];
    }
  }

  lemma FieldComplete(pre: ByteString, num: ByteString, field: ByteString, rest: ByteString, max: nat)
    requires IsNumeral(num, |field|) && |pre| + |FieldWire(num, field)| <= max <= SIZE_MAX
    ensures ParseField(pre + FieldWire(num, field) + rest, |pre|, max)
            == Complete(field, |pre| + |FieldWire(num, field)|)
  {
    hide IsNumeral, ScanDigits;
    var s := pre + FieldWire(num, field) + rest;
    var head := pre + [DOLLAR] + num + CRLF;
    assert s == (pre + [DOLLAR]) + num + CRLF + (field + CRLF + rest);
    NumberComplete(pre + [DOLLAR], num, |field|, field + CRLF + rest);
    assert s == head + field + (CRLF + rest);
    MiddlePart(head, field, CRLF + rest);
    assert s[|pre|] == DOLLAR && s[|head| + |field|] == CR && s[|head| + |field| + 1] == LF;
  }

  lemma FieldSound(s: ByteString, pos: nat, max: nat) returns (num: ByteString)
    requires ParseField(s, pos, max).Complete?
    ensures var r := ParseField(s, pos, max);
            && IsNumeral(num, |r.value|)
            && r.next <= |s| && r.next <= max
            && r.next == pos + |FieldWire(num, r.value)|
            && s[pos..r.next] == FieldWire(num, r.value)
  {
    NumberSound(s, pos + 1);
    var n := ParseNumber(s, pos + 1);
    var r := ParseField(s, pos, max);
    num := s[pos + 1..n.next - 2];
    assert s[pos..r.next] == [s[pos]] + s[pos + 1..n.next] + s[n.next..n.next + n.value]
                             + [s[r.next - 2], s[r.next - 1]];
  }

  lemma {:induction false} FieldsComplete(pre: ByteString, nums: seq<ByteString>, fields: Fields, rest: ByteString,
                                          max: nat)
    requires LengthsFit(nums, fields) && |pre| + |FieldsWire(nums, fields)| <= max <= SIZE_MAX
    ensures ParseFields(pre + FieldsWire(nums, fields) + rest, |pre|, |fields|, max)
            == Complete(fields, |pre| + |FieldsWire(nums, fields)|)
    decreases |fields|
  {
    hide FieldWire, ParseField, IsNumeral;
    if fields != [] {
      var first := FieldWire(nums[0], fields[0]);
      var tail := FieldsWire(nums[1..], fields[1..]);
      var s := pre + FieldsWire(nums, fields) + rest;
      assert s == pre + first + (tail + rest);
      FieldComplete(pre, nums[0], fields[0], tail + rest, max);
      assert s == (pre + first) + tail + rest;
      FieldsComplete(pre + first, nums[1..], fields[1..], rest, max);
      assert [fields[0]] + fields[1..] == fields;
    }
  }

  lemma {:induction false} FieldsSound(s: ByteString, pos: nat, count: nat, max: nat) returns (nums: seq<ByteString>)
    requires pos <= |s| && pos <= max
    requires ParseFields(s, pos, count, max).Complete?
    ensures var r := ParseFields(s, pos, count, max);
            && |r.value| == count && LengthsFit(nums, r.value)
            && r.next <= |s| && r.next <= max
            && r.next == pos + |FieldsWire(nums, r.value)|
            && s[pos..r.next] == FieldsWire(nums, r.value)
    decreases count
  {
    nums := [];
    if count > 0 {
      var num := FieldSound(s, pos, max);
      var f := ParseField(s, pos, max);
      var rest := FieldsSound(s, f.next, count - 1, max);
      nums := [num] + rest;
      var r := ParseFields(s, pos, count, max);
      assert r.value[1..] == ParseFields(s, f.next, count - 1, max).value;
      assert nums[1..] == rest;
      assert s[pos..r.next] == s[pos..f.next] + s[f.next..r.next];
    }
  }

  /** Completeness: whatever follows it, a well-formed command that fits both limits is
      recognised, with exactly its own fields and its own length. */
  lemma WireAccepted(count: ByteString, nums: seq<ByteString>, fields: Fields, rest: ByteString, capacity: nat,
                     max: nat)
    requires NumeralsFit(count, nums, fields)
    requires 0 < |fields| <= capacity && |CommandWire(count, nums, fields)| <= max <= SIZE_MAX
    ensures ParseCommand(CommandWire(count, nums, fields) + rest, capacity, max)
            == Complete(fields, |CommandWire(count, nums, fields)|)
  {
    hide IsNumeral, ParseFields, ScanDigits;
    var body := FieldsWire(nums, fields);
    var head := [STAR] + count + CRLF;
    var s := CommandWire(count, nums, fields) + rest;
    FieldsWireBounds(nums, fields);
    assert s == [STAR] + count + CRLF + (body + rest);
    NumberComplete([STAR], count, |fields|, body + rest);
    assert s == head + body + rest && s[0] == STAR;
    FieldsComplete(head, nums, fields, rest, max);
  }

  lemma {:induction false} FieldsWireBounds(nums: seq<ByteString>, fields: Fields)
    requires |nums| == |fields|
    ensures 5 * |fields| <= |FieldsWire(nums, fields)|
  {
    if fields != [] {
      FieldsWireBounds(nums[1..], fields[1..]);
    }
  }

  /** Soundness: an accepted input starts with a well-formed command within both limits. */
  lemma AcceptedIsWire(s: ByteString, capacity: nat, max: nat) returns (count: ByteString, nums: seq<ByteString>)
    requires ParseCommand(s, capacity, max).Complete?
    ensures var r := ParseCommand(s, capacity, max);
            && NumeralsFit(count, nums, r.value)
            && 0 < |r.value| <= capacity && r.next <= |s| && r.next <= max
            && s[..r.next] == CommandWire(count, nums, r.value)
  {
    NumberSound(s, 1);
    var n := ParseNumber(s, 1);
    var r := ParseCommand(s, capacity, max);
    count := s[1..n.next - 2];
    nums := FieldsSound(s, n.next, n.value, max);
    CutInThree(s, 1, n.next, r.next);
    assert s[..1] == [s[0]];
  }

  /** The size-limited parser accepts exactly the commands of at most `max` bytes and at most
      `capacity` fields whose numerals are digit strings of the right value. */
  lemma AcceptedExactly(s: ByteString, capacity: nat, max: nat, fields: Fields, n: nat)
    requires max <= SIZE_MAX
    ensures ParseCommand(s, capacity, max) == Complete(fields, n) <==>
            && 0 < |fields| <= capacity && n <= max && n <= |s|
            && exists count, nums :: NumeralsFit(count, nums, fields) && s[..n] == CommandWire(count, nums, fields)
  {
    if ParseCommand(s, capacity, max) == Complete(fields, n) {
      var count, nums := AcceptedIsWire(s, capacity, max);
    }
    if 0 < |fields| <= capacity && n <= max && n <= |s| {
      forall count, nums | NumeralsFit(count, nums, fields) && s[..n] == CommandWire(count, nums, fields)
        ensures ParseCommand(s, capacity, max) == Complete(fields, n)
      {
        WireAccepted(count, nums, fields, s[n..], capacity, max);
        assert s[..n] + s[n..] == s;
      }
    }
  }

  // ------------------------------------------------------------- stability

  lemma {:induction false} ScanDigitsStable(s: ByteString, t: ByteString, pos: nat, value: nat)
    requires !ScanDigits(s, pos, value).Incomplete?
    ensures ScanDigits(s + t, pos, value) == ScanDigits(s, pos, value)
    decreases |s| - pos
  {
    if IsDigit(s[pos]) && value <= (SIZE_MAX - (s[pos] - ZERO)) / 10 {
      ScanDigitsStable(s, t, pos + 1, 10 * value + (s[pos] - ZERO));
    }
  }

  lemma FieldStable(s: ByteString, t: ByteString, pos: nat, max: nat)
    requires !ParseField(s, pos, max).Incomplete?
    ensures ParseField(s + t, pos, max) == ParseField(s, pos, max)
  {
    if s[pos] == DOLLAR && IsDigit(s[pos + 1]) {
      ScanDigitsStable(s, t, pos + 1, 0);
      var n := ParseNumber(s, pos + 1);
      if n.Complete? && n.next + n.value + 2 <= |s| {
        assert (s + t)[n.next..n.next + n.value] == s[n.next..n.next + n.value];
      }
    }
  }

  lemma {:induction false} FieldsStable(s: ByteString, t: ByteString, pos: nat, count: nat, max: nat)
    requires !ParseFields(s, pos, count, max).Incomplete?
    ensures ParseFields(s + t, pos, count, max) == ParseFields(s, pos, count, max)
    decreases count
  {
    if count > 0 {
      FieldStable(s, t, pos, max);
      var f := ParseField(s, pos, max);
      if f.Complete? {
        FieldsStable(s, t, f.next, count - 1, max);
      }
    }
  }

  /** Verdicts 1 and -1 are final: receiving more bytes never changes them. */
  lemma VerdictStable(s: ByteString, t: ByteString, capacity: nat, max: nat)
    requires !ParseCommand(s, capacity, max).Incomplete?
    ensures ParseCommand(s + t, capacity, max) == ParseCommand(s, capacity, max)
  {
    if capacity > 0 && max > 0 && s[0] == STAR {
      if IsDigit(s[1]) {
        ScanDigitsStable(s, t, 1, 0);
      }
      var n := ParseNumber(s, 1);
      if n.Complete? && n.next <= max && 0 < n.value <= capacity {
        FieldsStable(s, t, n.next, n.value, max);
      }
    }
  }

  /** While the command that will be recognised has not fully arrived, the parser waits. */
  lemma PrefixWaits(s: ByteString, t: ByteString, capacity: nat, max: nat)
    requires ParseCommand(s + t, capacity, max).Complete?
    requires |s| < ParseCommand(s + t, capacity, max).next
    ensures ParseCommand(s, capacity, max).Incomplete?
  {
    if !ParseCommand(s, capacity, max).Incomplete? {
      VerdictStable(s, t, capacity, max);
      var count, nums := AcceptedIsWire(s, capacity, max);
    }
  }

  /** The byte limit only removes commands that are too long. */
  lemma LimitExact(s: ByteString, capacity: nat, max: nat, fields: Fields, n: nat)
    requires max <= SIZE_MAX
    ensures ParseCommand(s, capacity, max) == Complete(fields, n)
            <==> ParseCommand(s, capacity, SIZE_MAX) == Complete(fields, n) && n <= max
  {
    AcceptedExactly(s, capacity, max, fields, n);
    AcceptedExactly(s, capacity, SIZE_MAX, fields, n);
  }

  /** `max` buffered bytes that still do not complete a command can never be completed by one
      that fits: the caller's "incomplete and too long" rejection loses nothing. */
  lemma FullBufferNeverCompletes(s: ByteString, t: ByteString, capacity: nat, max: nat)
    requires max <= SIZE_MAX
    requires ParseCommand(s, capacity, max).Incomplete? && |s| >= max
    ensures !ParseCommand(s + t, capacity, max).Complete?
  {
    var r := ParseCommand(s + t, capacity, max);
    if r.Complete? {
      var count, nums := AcceptedIsWire(s + t, capacity, max);
      assert s[..r.next] == (s + t)[..r.next];
      assert s == s[..r.next] + s[r.next..];
      WireAccepted(count, nums, r.value, s[r.next..], capacity, max);
    }
  }

  // ------------------------------------------------------------ round trips

  /** Parsing an encoded command returns its fields and consumes exactly its bytes. */
  lemma RoundTrip(fields: Fields, rest: ByteString, capacity: nat, max: nat)
    requires 0 < |fields| <= capacity && |EncodeCommand(fields)| <= max <= SIZE_MAX
    ensures ParseCommand(EncodeCommand(fields) + rest, capacity, max) == Complete(fields, |EncodeCommand(fields)|)
  {
    EncodeIsWire(fields);
    WireAccepted(Decimal(|fields|), CanonicalNumerals(fields), fields, rest, capacity, max);
  }

  /** Every proper prefix of an encoded command makes the parser wait. */
  lemma EncodedPrefixWaits(fields: Fields, k: nat, capacity: nat, max: nat)
    requires 0 < |fields| <= capacity && |EncodeCommand(fields)| <= max <= SIZE_MAX
    requires k < |EncodeCommand(fields)|
    ensures ParseCommand(EncodeCommand(fields)[..k], capacity, max).Incomplete?
  {
    var w := EncodeCommand(fields);
    RoundTrip(fields, [], capacity, max);
    assert w + [] == w == w[..k] + w[k..];
    PrefixWaits(w[..k], w[k..], capacity, max);
  }

  /** Re-encoding an accepted command never takes more room than the input did, and gives back
      the same bytes exactly when none of its numerals carried leading zeros. */
  lemma ReencodeCanonical(count: ByteString, nums: seq<ByteString>, fields: Fields)
    requires NumeralsFit(count, nums, fields)
    ensures |EncodeCommand(fields)| <= |CommandWire(count, nums, fields)|
    ensures EncodeCommand(fields) == CommandWire(count, nums, fields)
            <==> count == Decimal(|fields|) && nums == CanonicalNumerals(fields)
  {
    EncodeIsWire(fields);
    DecimalShortest(count, |fields|);
    EncodeFieldsShortest(nums, fields);
    if EncodeCommand(fields) == CommandWire(count, nums, fields) {
      NumeralSplit([STAR], Decimal(|fields|), EncodeFields(fields), [STAR], count, FieldsWire(nums, fields));
      CanonicalFields(nums, fields);
    }
  }

  /** Two byte strings that agree can only split their leading numerals in one way. */
  lemma NumeralSplit(p: ByteString, m: ByteString, a: ByteString, q: ByteString, n: ByteString, b: ByteString)
    requires AllDigits(m) && AllDigits(n) && |m| <= |n| && |p| == |q|
    requires p + m + CRLF + a == q + n + CRLF + b
    ensures m == n && a == b
  {
    var x, y := p + m + CRLF + a, q + n + CRLF + b;
    assert forall k :: |q| <= k < |q| + |n| ==> y[k] == n[k - |q|] && IsDigit(y[k]);
    assert !IsDigit(x[|p| + |m|]);
    assert m == x[|p|..|p| + |m|] == n;
    assert a == x[|p| + |m| + 2..] == b;
  }

  lemma FieldSplit(m: ByteString, n: ByteString, f: ByteString, a: ByteString, b: ByteString)
    requires AllDigits(m) && AllDigits(n) && |m| <= |n|
    requires FieldWire(m, f) + a == FieldWire(n, f) + b
    ensures m == n && a == b
  {
    var x, y := f + CRLF + a, f + CRLF + b;
    assert FieldWire(m, f) + a == [DOLLAR] + m + CRLF + x;
    assert FieldWire(n, f) + b == [DOLLAR] + n + CRLF + y;
    NumeralSplit([DOLLAR], m, x, [DOLLAR], n, y);
    assert a == x[|f| + 2..] == y[|f| + 2..] == b;
  }

  lemma {:induction false} CanonicalFields(nums: seq<ByteString>, fields: Fields)
    requires LengthsFit(nums, fields)
    requires EncodeFields(fields) == FieldsWire(nums, fields)
    ensures nums == CanonicalNumerals(fields)
  {
    if fields != [] {
      var f := fields[0];
      DecimalShortest(nums[0], |f|);
      FieldSplit(Decimal(|f|), nums[0], f, EncodeFields(fields[1..]), FieldsWire(nums[1..], fields[1..]));
      CanonicalFields(nums[1..], fields[1..]);
      assert nums == [nums[0]] + nums[1..];
      assert CanonicalNumerals(fields) == [Decimal(|f|)] + CanonicalNumerals(fields[1..]);
    }
  }

  lemma {:induction false} EncodeFieldsShortest(nums: seq<ByteString>, fields: Fields)
    requires LengthsFit(nums, fields)
    ensures |EncodeFields(fields)| <= |FieldsWire(nums, fields)|
  {
    if fields != [] {
      DecimalShortest(nums[0], |fields[0]|);
      EncodeFieldsShortest(nums[1..], fields[1..]);
    }
  }

  /** Two different commands never share an encoding, and neither encoding is a prefix of the
      other: a concatenation of encodings has one reading. */
  lemma EncodingPrefixFree(a: Fields, b: Fields, rest: ByteString)
    requires a != [] && b != [] && |a| <= SIZE_MAX && |b| <= SIZE_MAX
    requires |EncodeCommand(a)| <= SIZE_MAX && |EncodeCommand(b)| <= SIZE_MAX
    requires EncodeCommand(a) == EncodeCommand(b) + rest
    ensures a == b && rest == []
  {
    RoundTrip(a, [], SIZE_MAX, SIZE_MAX);
    RoundTrip(b, rest, SIZE_MAX, SIZE_MAX);
    assert EncodeCommand(a) + [] == EncodeCommand(a);
  }

  // ------------------------------------------------------------- the loops

  /** `parse_number`: reads digits and CR LF; the caller's offset moves only on success. */
  method ReadNumber(input: ByteString, offset: nat) returns (result: Verdict<nat>)
    ensures result == ParseNumber(input, offset)
  {
    var pos: nat, value: nat := offset, 0;
    if pos >= |input| { return Incomplete; }
    if !IsDigit(input[pos]) { return Malformed; }
    while pos < |input| && IsDigit(input[pos])
      invariant offset <= pos <= |input|
      invariant ParseNumber(input, offset) == ScanDigits(input, pos, value)
    {
      var digit := input[pos] - ZERO;
      if value > (SIZE_MAX - digit) / 10 { return Malformed; }
      value := value * 10 + digit;
      pos := pos + 1;
    }
    if pos >= |input| { return Incomplete; }
    if input[pos] != CR { return Malformed; }
    if pos + 1 >= |input| { return Incomplete; }
    if input[pos + 1] != LF { return Malformed; }
    return Complete(value, pos + 2);
  }

  /** `parse_field`. */
  method ReadField(input: ByteString, offset: nat, max: nat) returns (result: Verdict<ByteString>)
    ensures result == ParseField(input, offset, max)
  {
    var pos := offset;
    if pos >= |input| { return Incomplete; }
    if input[pos] != DOLLAR { return Malformed; }
    pos := pos + 1;
    var number := ReadNumber(input, pos);
    if number.Incomplete? { return Incomplete; }
    if number.Malformed? { return Malformed; }
    var length := number.value;
    pos := number.next;
    if pos > max || max - pos < 2 || length > max - pos - 2 { return Malformed; }
    NumberSound(input, offset + 1);
    var remaining := |input| - pos;
    if length > remaining || remaining - length < 2 { return Incomplete; }
    if input[pos + length] != CR || input[pos + length + 1] != LF { return Malformed; }
    return Complete(input[pos..pos + length], pos + length + 2);
  }

  /** Putting already parsed fields in front of the verdict on the remaining ones. */
  function Prepend(done: Fields, rest: Verdict<Fields>): Verdict<Fields> {
    match rest
    case Complete(fields, next) => Complete(done + fields, next)
    case other => other
  }

  lemma PrependNothing(v: Verdict<Fields>)
    ensures Prepend([], v) == v
  {
    if v.Complete? {
      assert [] + v.value == v.value;
    }
  }

  /** `kvs_parse_command_limited`. */
  method ReadCommand(input: ByteString, capacity: nat, max: nat) returns (result: Verdict<Fields>)
    ensures result == ParseCommand(input, capacity, max)
  {
    if capacity == 0 || max == 0 { return Malformed; }
    if |input| == 0 { return Incomplete; }
    if input[0] != STAR { return Malformed; }
    var number := ReadNumber(input, 1);
    if number.Incomplete? { return Incomplete; }
    if number.Malformed? { return Malformed; }
    var offset: nat, count: nat := number.next, number.value;
    if offset > max { return Malformed; }
    if count == 0 || count > capacity { return Malformed; }
    var fields: Fields := [];
    var i := 0;
    PrependNothing(ParseFields(input, offset, count, max));
    while i < count
      invariant 0 <= i <= count && |fields| == i
      invariant ParseCommand(input, capacity, max) == Prepend(fields, ParseFields(input, offset, count - i, max))
    {
      var field := ReadField(input, offset, max);
      if field.Incomplete? { return Incomplete; }
      if field.Malformed? { return Malformed; }
      ghost var rest := ParseFields(input, field.next, count - i - 1, max);
      if rest.Complete? {
        assert fields + ([field.value] + rest.value) == (fields + [field.value]) + rest.value;
      }
      fields := fields + [field.value];
      offset := field.next;
      i := i + 1;
    }
    assert fields + [] == fields;
    return Complete(fields, offset);
  }

  /** `decimal_digits`. */
  method CountDigits(number: nat) returns (digits: nat)
    ensures digits == |Decimal(number)|
  {
    digits := 1;
    var value := number;
    while value >= 10
      invariant digits + |Decimal(value)| == |Decimal(number)| + 1
    {
      value := value / 10;
      digits := digits + 1;
    }
  }

  lemma {:induction false} EncodeFieldsAppend(a: Fields, b: Fields)
    ensures EncodeFields(a + b) == EncodeFields(a) + EncodeFields(b)
  {
    hide EncodeField;
    if a == [] {
      assert a + b == b;
    } else {
      EncodeFieldsAppend(a[1..], b);
      assert (a + b)[1..] == a[1..] + b && (a + b)[0] == a[0];
      Regroup(EncodeField(a[0]), EncodeFields(a[1..]), EncodeFields(b));
    }
  }

  lemma EncodeFieldsSnoc(fields: Fields, i: nat)
    requires i < |fields|
    ensures EncodeFields(fields[..i + 1]) == EncodeFields(fields[..i]) + EncodeField(fields[i])
  {
    EncodeFieldsAppend(fields[..i], [fields[i]]);
    assert fields[..i + 1] == fields[..i] + [fields[i]];
    assert EncodeFields([fields[i]]) == EncodeField(fields[i]) + EncodeFields([fields[i]][1..]);
  }

  lemma EncodedPrefixSize(fields: Fields, i: nat)
    requires i <= |fields|
    ensures |EncodeFields(fields[..i])| <= |EncodeFields(fields)|
  {
    EncodeFieldsAppend(fields[..i], fields[i..]);
    assert fields[..i] + fields[i..] == fields;
  }

  datatype Size = Overflow | Bytes(count: nat)

  /** `kvs_encoded_command_size`: exact, and refused exactly when it exceeds `size_t`. */
  method EncodedSize(fields: Fields) returns (size: Size)
    requires forall i :: 0 <= i < |fields| ==> |fields[i]| <= SIZE_MAX
    requires |fields| <= SIZE_MAX
    ensures size.Bytes? <==> fields != [] && |EncodeCommand(fields)| <= SIZE_MAX
    ensures size.Bytes? ==> size.count == |EncodeCommand(fields)|
  {
    if |fields| == 0 { return Overflow; }
    var digits := CountDigits(|fields|);
    var total := 1 + digits + 2;
    assert PowerOfTen(10) == 10_000_000_000;
    assert PowerOfTen(20) > SIZE_MAX;
    DecimalWidth(|fields|, 20);
    var i := 0;
    while i < |fields|
      invariant 0 <= i <= |fields|
      invariant total == 3 + |Decimal(|fields|)| + |EncodeFields(fields[..i])|
      invariant total <= SIZE_MAX
    {
      EncodeFieldsSnoc(fields, i);
      EncodedPrefixSize(fields, i + 1);
      var width := CountDigits(|fields[i]|);
      var overhead := 1 + width + 4;
      if |fields[i]| > SIZE_MAX - overhead || total > SIZE_MAX - (overhead + |fields[i]|) {
        return Overflow;
      }
      total := total + overhead + |fields[i]|;
      i := i + 1;
    }
    assert fields[..|fields|] == fields;
    return Bytes(total);
  }

  /** `write_decimal`: fills the digits from the last one backwards. */
  method WriteDecimal(output: array<Byte>, start: nat, number: nat) returns (digits: nat)
    requires start + |Decimal(number)| <= output.Length
    modifies output
    ensures digits == |Decimal(number)|
    ensures output[..] == old(output[..start]) + Decimal(number) + old(output[start + |Decimal(number)|..])
  {
    hide Decimal, Value, AllDigits;
    digits := CountDigits(number);
    var value, i := number, digits;
    ghost var ds := Decimal(number);
    while i > 0
      invariant 0 <= i <= digits && 0 <= value
      invariant i > 0 ==> Decimal(value) == ds[..i]
      invariant output[..start + i] == old(output[..start + i])
      invariant output[start + i..start + digits] == ds[i..]
      invariant output[start + digits..] == old(output[start + digits..])
    {
      LastDigit(ds, i, value);
      ghost var tail := output[start + i..start + digits];
      output[start + i - 1] := ZERO + value % 10;
      assert output[start + i - 1..start + digits] == [ds[i - 1]] + tail;
      assert ds[i - 1..] == [ds[i - 1]] + ds[i..];
      value := value / 10;
      i := i - 1;
    }
    assert output[..] == output[..start] + output[start..start + digits] + output[start + digits..];
  }

  lemma LastDigit(ds: ByteString, i: nat, value: nat)
    requires 0 < i <= |ds| && Decimal(value) == ds[..i]
    ensures ds[i - 1] == ZERO + value % 10
    ensures i > 1 ==> Decimal(value / 10) == ds[..i - 1]
  {
    assert ds[..i][i - 1] == ds[i - 1];
    if value < 10 {
      assert |Decimal(value)| == 1;
    } else {
      assert Decimal(value) == Decimal(value / 10) + [ZERO + value % 10];
      assert ds[..i][..i - 1] == ds[..i - 1];
    }
  }

  /** `output` holds `done` at the front and is otherwise as it was in `before`. */
  ghost predicate Holds(output: ByteString, done: ByteString, before: ByteString) {
    |output| == |before| && |done| <= |before| && output == done + before[|done|..]
  }

  lemma HoldsMore(output: ByteString, done: ByteString, before: ByteString, more: ByteString, output': ByteString)
    requires Holds(output, done, before) && |done| + |more| <= |output|
    requires output' == output[..|done|] + more + output[|done| + |more|..]
    ensures Holds(output', done + more, before)
  {
    assert output[..|done|] == done;
    assert output[|done| + |more|..] == before[|done| + |more|..];
  }

  /** `memcpy(output + pos, data, |data|)`, and single bytes likewise. */
  method Put(output: array<Byte>, pos: nat, data: ByteString, ghost done: ByteString, ghost before: ByteString)
    requires pos == |done| && pos + |data| <= output.Length && Holds(output[..], done, before)
    modifies output
    ensures Holds(output[..], done + data, before)
  {
    ghost var was := output[..];
    forall i | 0 <= i < |data| {
      output[pos + i] := data[i];
    }
    assert output[..] == was[..pos] + data + was[pos + |data|..];
    HoldsMore(was, done, before, data, output[..]);
  }

  method PutDecimal(output: array<Byte>, pos: nat, number: nat, ghost done: ByteString, ghost before: ByteString)
    returns (digits: nat)
    requires pos == |done| && pos + |Decimal(number)| <= output.Length && Holds(output[..], done, before)
    modifies output
    ensures digits == |Decimal(number)|
    ensures Holds(output[..], done + Decimal(number), before)
  {
    ghost var was := output[..];
    digits := WriteDecimal(output, pos, number);
    HoldsMore(was, done, before, Decimal(number), output[..]);
  }

  /** One round of the loop of `kvs_encode_command`. */
  method WriteField(field: ByteString, output: array<Byte>, start: nat, ghost done: ByteString,
                    ghost before: ByteString)
    returns (pos: nat)
    requires start == |done| && start + |EncodeField(field)| <= output.Length
    requires Holds(output[..], done, before)
    modifies output
    ensures pos == start + |EncodeField(field)|
    ensures Holds(output[..], done + EncodeField(field), before)
  {
    hide Holds;
    pos := start;
    Put(output, pos, [DOLLAR], done, before);
    var d1 := done + [DOLLAR];
    var digits := PutDecimal(output, pos + 1, |field|, d1, before);
    pos := pos + 1 + digits;
    ghost var d2 := d1 + Decimal(|field|);
    Put(output, pos, CRLF, d2, before);
    pos := pos + 2;
    ghost var d3 := d2 + CRLF;
    Put(output, pos, field, d3, before);
    pos := pos + |field|;
    ghost var d4 := d3 + field;
    Put(output, pos, CRLF, d4, before);
    pos := pos + 2;
    assert d4 + CRLF == done + EncodeField(field);
  }

  method WriteCountLine(count: nat, output: array<Byte>, ghost before: ByteString) returns (pos: nat)
    requires |CountLine(count)| <= output.Length && before == output[..]
    modifies output
    ensures pos == |CountLine(count)| && Holds(output[..], CountLine(count), before)
  {
    hide Decimal;
    Put(output, 0, [STAR], [], before);
    var digits := PutDecimal(output, 1, count, [STAR], before);
    Put(output, 1 + digits, CRLF, [STAR] + Decimal(count), before);
    pos := 1 + digits + 2;
  }

  /** `kvs_encode_command`: nothing is written unless the whole encoding fits. */
  method WriteCommand(fields: Fields, output: array<Byte>) returns (ok: bool, written: nat)
    requires forall i :: 0 <= i < |fields| ==> |fields[i]| <= SIZE_MAX
    requires |fields| <= SIZE_MAX
    modifies output
    ensures ok <==> fields != [] && |EncodeCommand(fields)| <= SIZE_MAX && |EncodeCommand(fields)| <= output.Length
    ensures ok ==> written == |EncodeCommand(fields)| && Holds(output[..], EncodeCommand(fields), old(output[..]))
    ensures !ok ==> written == 0 && output[..] == old(output[..])
  {
    hide EncodeField, CountLine, Holds, EncodeCommand;
    var size := EncodedSize(fields);
    if size.Overflow? || output.Length < size.count { return false, 0; }
    written := FillCommand(fields, output);
    ok := true;
  }

  /** The part that writes. */
  method FillCommand(fields: Fields, output: array<Byte>) returns (written: nat)
    requires |EncodeCommand(fields)| <= output.Length
    modifies output
    ensures written == |EncodeCommand(fields)|
    ensures Holds(output[..], EncodeCommand(fields), old(output[..]))
  {
    hide EncodeField, CountLine, Holds;
    ghost var before := output[..];
    var pos := WriteCountLine(|fields|, output, before);
    ghost var done := CountLine(|fields|);
    assert fields[..0] == [];
    var i := 0;
    while i < |fields|
      invariant 0 <= i <= |fields|
      invariant done == CountLine(|fields|) + EncodeFields(fields[..i]) && pos == |done|
      invariant Holds(output[..], done, before)
    {
      EncodeFieldsSnoc(fields, i);
      EncodedPrefixSize(fields, i + 1);
      pos := WriteField(fields[i], output, pos, done, before);
      done := done + EncodeField(fields[i]);
      i := i + 1;
    }
    assert fields[..|fields|] == fields;
    written := pos;
  }
}
