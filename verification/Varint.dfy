/** Base-128 varints as the frame prefixes of a BEP stream use them: seven
    payload bits a byte, least significant group first, at most ten bytes, and
    a tenth byte that may only carry the top bit of a 64-bit value. */
module Varint {
  import opened Base

  /** 128 to the power `i`: the weight of the i-th seven-bit group. */
  function Pow128(i: nat): (w: nat)
    ensures w > 0
  {
    if i == 0 then 1 else 128 * Pow128(i - 1)
  }

  /** The number whose seven-bit groups, least significant first, are in `s`. */
  function LittleEndian(s: Bytes): nat {
    if s == [] then 0 else s[0] % 128 + 128 * LittleEndian(s[1..])
  }

  lemma {:induction false} LittleEndianSnoc(s: Bytes, b: Byte)
    ensures LittleEndian(s + [b]) == LittleEndian(s) + b % 128 * Pow128(|s|)
  {
    if s == [] {
      assert [b][1..] == [];
    } else {
      LittleEndianSnoc(s[1..], b);
      assert (s + [b])[1..] == s[1..] + [b];
      ShiftGroups(LittleEndian(s[1..]), b % 128, Pow128(|s| - 1));
    }
  }

  lemma ShiftGroups(low: nat, high: nat, weight: nat)
    ensures 128 * (low + high * weight) == 128 * low + high * (128 * weight)
  {
  }

  lemma {:induction false} LittleEndianBound(s: Bytes)
    ensures LittleEndian(s) < Pow128(|s|)
  {
    if s != [] {
      LittleEndianBound(s[1..]);
    }
  }

  /** The position of the first byte without a continuation bit, or `|s|`. */
  function FirstStop(s: Bytes): (k: nat)
    ensures k <= |s|
    ensures forall j :: 0 <= j < k ==> s[j] >= 128
    ensures k < |s| ==> s[k] < 128
  {
    if s == [] || s[0] < 128 then 0 else 1 + FirstStop(s[1..])
  }

  datatype Prefix =
    | NeedMore
    | Malformed
    | Length(bytes: nat, value: nat)

  /** The meaning of the varint at the front of `s`. */
  function ReadPrefix(s: Bytes): (r: Prefix)
    ensures r.Length? ==> 1 <= r.bytes <= |s| && r.bytes <= 10
    ensures r.NeedMore? ==> |s| < 10
  {
    var k := FirstStop(s);
    if k < |s| && k < 9 then Length(k + 1, LittleEndian(s[..k + 1]))
    else if |s| < 10 then NeedMore
    else if s[9] <= 1 then Length(10, LittleEndian(s[..10]))
    else Malformed
  }

  /** Every accepted length fits an unsigned 64-bit integer. */
  lemma PrefixFitsU64(s: Bytes)
    ensures ReadPrefix(s).Length? ==> ReadPrefix(s).value <= USIZE_MAX
  {
    match ReadPrefix(s)
    case Length(n, value) =>
      if n == 10 {
        LittleEndianSnoc(s[..9], s[9]);
        assert s[..9] + [s[9]] == s[..10];
      }
      var m := if n == 10 then 9 else n;
      LittleEndianBound(s[..m]);
      Pow128Order(m, 9);
      assert Pow128(9) == 0x8000_0000_0000_0000 by { Pow128Nine(); }
    case _ =>
  }

  lemma Pow128Nine()
    ensures Pow128(9) == 0x8000_0000_0000_0000
  {
    assert Pow128(3) == 0x20_0000;
    assert Pow128(6) == 0x400_0000_0000;
  }

  lemma {:induction false} Pow128Order(i: nat, j: nat)
    ensures i < j <==> Pow128(i) < Pow128(j)
    ensures i == j <==> Pow128(i) == Pow128(j)
  {
    if i > 0 && j > 0 {
      Pow128Order(i - 1, j - 1);
    }
  }

  lemma {:induction false} FirstStopAppend(s: Bytes, rest: Bytes)
    ensures FirstStop(s) <= FirstStop(s + rest)
    ensures FirstStop(s) < |s| ==> FirstStop(s + rest) == FirstStop(s)
  {
    if s != [] {
      assert (s + rest)[0] == s[0];
      if s[0] >= 128 {
        FirstStopAppend(s[1..], rest);
        assert (s + rest)[1..] == s[1..] + rest;
      }
    }
  }

  /** More input never changes a prefix that was already decided. */
  lemma ReadPrefixAppend(s: Bytes, rest: Bytes)
    ensures !ReadPrefix(s).NeedMore? ==> ReadPrefix(s + rest) == ReadPrefix(s)
  {
    var k := FirstStop(s);
    FirstStopAppend(s, rest);
    if k < |s| && k < 9 {
      assert (s + rest)[..k + 1] == s[..k + 1];
    } else if |s| >= 10 {
      assert (s + rest)[..10] == s[..10];
    }
  }

  /** The canonical encoding of `value`. */
  function Encode(value: nat): (s: Bytes)
    ensures |s| >= 1
  {
    if value >= 128 then [value % 128 + 128] + Encode(value / 128) else [value]
  }

  /** `write_varint`: appends the encoding of `value` to `output`. */
  method WriteVarint(value: nat, output: Bytes) returns (r: Bytes)
    ensures r == output + Encode(value)
  {
    var rest := value;
    r := output;
    while rest >= 128
      invariant r + Encode(rest) == output + Encode(value)
    {
      assert r + ([rest % 128 + 128] + Encode(rest / 128)) == r + [rest % 128 + 128] + Encode(rest / 128);
      r := r + [rest % 128 + 128];
      rest := rest / 128;
    }
    r := r + [rest];
  }

  /** `encode_varint`: fills a ten-byte buffer in place and returns the length
      used; a 64-bit value never runs past the end of the buffer. */
  method EncodeVarint(value: nat, output: array<Byte>) returns (length: nat)
    requires value <= USIZE_MAX
    requires output.Length == 10
    modifies output
    ensures length <= 10
    ensures output[..length] == Encode(value)
    ensures forall j :: length <= j < 10 ==> output[j] == old(output[j])
  {
    var rest := value;
    length := 0;
    EncodeLength(value);
    while rest >= 128
      invariant length + |Encode(rest)| <= 10
      invariant output[..length] + Encode(rest) == Encode(value)
      invariant forall j :: length <= j < 10 ==> output[j] == old(output[j])
      decreases rest
    {
      ghost var before := output[..length];
      output[length] := rest % 128 + 128;
      assert output[..length + 1] == before + [rest % 128 + 128];
      assert Encode(rest) == [rest % 128 + 128] + Encode(rest / 128);
      assert before + ([rest % 128 + 128] + Encode(rest / 128)) == output[..length + 1] + Encode(rest / 128);
      rest := rest / 128;
      length := length + 1;
    }
    ghost var before := output[..length];
    output[length] := rest;
    length := length + 1;
    assert output[..length] == before + [rest];
  }

  lemma {:induction false} EncodeShape(value: nat)
    ensures var s := Encode(value);
      && FirstStop(s) == |s| - 1
      && LittleEndian(s) == value
      && (|s| > 1 ==> Pow128(|s| - 1) <= value)
  {
    var s := Encode(value);
    if value >= 128 {
      EncodeShape(value / 128);
      assert s[1..] == Encode(value / 128);
      var n := |s[1..]|;
      if n > 1 {
        assert Pow128(n) == 128 * Pow128(n - 1);
      }
    } else {
      assert s[1..] == [];
    }
  }

  /** A 64-bit value encodes to at most ten bytes, the tenth being 0 or 1. */
  lemma {:induction false} EncodeLength(value: nat)
    requires value <= USIZE_MAX
    ensures |Encode(value)| <= 10
    ensures |Encode(value)| == 10 ==> Encode(value)[9] <= 1
  {
    var s := Encode(value);
    EncodeShape(value);
    Pow128Nine();
    assert Pow128(10) == 128 * Pow128(9);
    Pow128Order(|s| - 1, 10);
    if |s| == 10 {
      TenthByte(s);
    }
  }

  /** What the tenth byte adds. */
  lemma {:induction false} TenthByte(s: Bytes)
    requires |s| == 10 && s[9] < 128
    ensures LittleEndian(s) >= s[9] * Pow128(9)
  {
    LittleEndianSnoc(s[..9], s[9]);
    assert s == s[..9] + [s[9]];
  }

  /** Reading what was written gives the value back, whatever follows it. */
  lemma {:induction false} VarintRoundTrip(value: nat, rest: Bytes)
    requires value <= USIZE_MAX
    ensures ReadPrefix(Encode(value) + rest) == Length(|Encode(value)|, value)
  {
    var s := Encode(value);
    EncodeShape(value);
    EncodeLength(value);
    FirstStopAppend(s, rest);
    assert (s + rest)[..|s|] == s;
    if |s| == 10 {
      assert (s + rest)[9] == s[9];
    }
  }
}
