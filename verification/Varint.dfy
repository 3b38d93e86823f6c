/** The variable-length integers of the replication wire format (src/replication/replicate.cpp:15-41). */
module Varint {
  import opened Arith
  import opened Bits
  import opened Bytes

  const WORD: nat := 64
  const LIMIT: nat := 0x1_0000_0000_0000_0000

  /** Seven bits a byte, least significant first; the top bit of a byte says that more follow. */
  function Encoded(v: nat): (r: seq<Byte>)
    ensures |r| > 0
  {
    if v < 128 then [v] else [v % 128 + 128] + Encoded(v / 128)
  }

  /** The encoding is the usual one: seven bits a byte, low bits first. */
  lemma EncodedExamples()
    ensures Encoded(0) == [0] && Encoded(127) == [127] && Encoded(128) == [0x80, 1] && Encoded(300) == [0xAC, 2]
    ensures Encoded(0x4001) == [0x81, 0x80, 1]
  {
    assert Encoded(0x4001) == [0x81] + Encoded(128);
  }

  datatype Decoded = Truncated | Value(value: nat, length: nat)

  /** `partial | (byte & 0x7F) << shift` in a 64-bit word, where the bits of `partial` lie below the shift. */
  function Added(partial: nat, byte: nat, shift: nat): nat {
    (partial + byte % 128 * Pow2(shift)) % LIMIT
  }

  /** Decoding from a shift and a partial result; the shift stops at the width of the word. */
  function DecodeFrom(s: seq<Byte>, shift: nat, partial: nat): (r: Decoded)
    ensures r.Value? ==> 1 <= r.length <= |s|
    decreases |s|
  {
    if s == [] || shift >= WORD then Truncated else
      var now := Added(partial, s[0], shift);
      if s[0] < 128 then Value(now, 1) else
        match DecodeFrom(s[1..], shift + 7, now)
        case Truncated => Truncated
        case Value(v, n) => Value(v, n + 1)
  }

  function Decode(s: seq<Byte>): Decoded {
    DecodeFrom(s, 0, 0)
  }

  lemma Pow2By7(n: nat)
    ensures Pow2(n + 7) == 128 * Pow2(n)
  {
    assert Pow2(n + 7) == 2 * Pow2(n + 6) && Pow2(n + 6) == 2 * Pow2(n + 5) && Pow2(n + 5) == 2 * Pow2(n + 4);
    assert Pow2(n + 4) == 2 * Pow2(n + 3) && Pow2(n + 3) == 2 * Pow2(n + 2) && Pow2(n + 2) == 2 * Pow2(n + 1);
  }

  /** Ten bytes that all say "more" are refused, whatever follows. */
  lemma OverlongRefused(s: seq<Byte>)
    requires |s| >= 10 && forall i :: 0 <= i < 10 ==> s[i] >= 128
    ensures Decode(s) == Truncated
  {
    OverlongFrom(s, 0, 0);
  }

  lemma {:induction false} OverlongFrom(s: seq<Byte>, k: nat, partial: nat)
    requires k <= 10 && |s| >= 10 - k && forall i :: 0 <= i < 10 - k ==> s[i] >= 128
    ensures DecodeFrom(s, 7 * k, partial) == Truncated
    decreases 10 - k
  {
    if k < 10 {
      OverlongFrom(s[1..], k + 1, Added(partial, s[0], 7 * k));
    }
  }

  lemma {:induction false} DecodeEncoded(v: nat, rest: seq<Byte>, shift: nat, partial: nat)
    requires partial + v * Pow2(shift) < LIMIT && (v == 0 ==> shift == 0)
    ensures DecodeFrom(Encoded(v) + rest, shift, partial) == Value(partial + v * Pow2(shift), |Encoded(v)|)
    decreases v
  {
    var s := Encoded(v) + rest;
    ShiftFits(v, shift);
    Split(v, Pow2(shift));
    AddedExact(partial, v, s[0], shift);
    if v >= 128 {
      Pow2By7(shift);
      assert s[1..] == Encoded(v / 128) + rest;
      DecodeEncoded(v / 128, rest, shift + 7, partial + v % 128 * Pow2(shift));
    }
  }

  lemma AddedExact(partial: nat, v: nat, byte: nat, shift: nat)
    requires byte % 128 == v % 128 && partial + v % 128 * Pow2(shift) < LIMIT
    ensures Added(partial, byte, shift) == partial + v % 128 * Pow2(shift)
  {
  }

  lemma Split(v: nat, f: nat)
    ensures v * f == v % 128 * f + v / 128 * (128 * f)
    ensures v % 128 * f <= v * f
  {
    assert v == v % 128 + v / 128 * 128;
    assert v / 128 * 128 * f == v / 128 * (128 * f);
  }

  lemma {:induction false} Pow2Sum(a: nat, b: nat)
    ensures Pow2(a + b) == Pow2(a) * Pow2(b)
    decreases b
  {
    if b > 0 {
      Pow2Sum(a, b - 1);
      assert Pow2(a + b) == 2 * Pow2(a + (b - 1));
    }
  }

  lemma Doubled(n: nat, m: nat)
    requires m == n + n
    ensures Pow2(m) == Pow2(n) * Pow2(n)
  {
    Pow2Sum(n, n);
  }

  lemma LimitIsPower()
    ensures LIMIT == Pow2(WORD)
  {
    var n := 8;
    assert Pow2(n) == 256;
    Doubled(n, 16);
    Doubled(16, 32);
    Doubled(32, 64);
  }

  lemma ShiftFits(v: nat, shift: nat)
    requires v * Pow2(shift) < LIMIT && (v == 0 ==> shift == 0)
    ensures shift < WORD
  {
    LimitIsPower();
    if v > 0 {
      MulMono(1, v, Pow2(shift));
      if WORD <= shift {
        Pow2Grows(WORD, shift);
      }
    }
  }

  /** Every 64-bit value is decoded from its encoding, and exactly its bytes are consumed. */
  lemma RoundTrip(v: nat, rest: seq<Byte>)
    requires v < LIMIT
    ensures Decode(Encoded(v) + rest) == Value(v, |Encoded(v)|)
  {
    DecodeEncoded(v, rest, 0, 0);
  }

  /** No strict prefix of an encoding decodes. */
  lemma {:induction false} PrefixTruncated(v: nat, n: nat, shift: nat, partial: nat)
    requires n < |Encoded(v)|
    ensures DecodeFrom(Encoded(v)[..n], shift, partial) == Truncated
    decreases v
  {
    var s := Encoded(v)[..n];
    if n > 0 {
      assert s[1..] == Encoded(v / 128)[..n - 1];
      PrefixTruncated(v / 128, n - 1, shift + 7, Added(partial, s[0], shift));
    }
  }

  lemma {:induction false} LengthBound(v: nat, k: nat)
    requires v < Pow2(7 * k) && k > 0
    ensures |Encoded(v)| <= k
    decreases k
  {
    Pow2By7(7 * (k - 1));
    if v >= 128 {
      LengthBound(v / 128, k - 1);
    }
  }

  /** A 64-bit value takes at most ten bytes. */
  lemma AtMostTen(v: nat)
    requires v < LIMIT
    ensures |Encoded(v)| <= 10
  {
    LimitIsPower();
    Pow2Grows(WORD, 70);
    LengthBound(v, 10);
  }

  /** varint_encode: writes at `start`, without a capacity check, and returns the length. */
  method VarintEncode(val: nat, out: array<Byte>, start: nat) returns (pos: nat)
    requires start + |Encoded(val)| <= out.Length
    modifies out
    ensures pos == |Encoded(val)|
    ensures out[..] == old(out[..start]) + Encoded(val) + old(out[start + |Encoded(val)|..])
  {
    var v, more := val, true;
    pos := 0;
    ghost var code, before := Encoded(val), out[..];
    while more
      invariant pos <= |code| && (if more then code[pos..] == Encoded(v) else pos == |code|)
      invariant forall k :: 0 <= k < pos ==> out[start + k] == code[k]
      invariant forall k :: 0 <= k < out.Length && !(start <= k < start + pos) ==> out[k] == before[k]
      decreases more, v
    {
      EncodedStep(code, pos, v);
      var byte := v % 128;
      v := v / 128;
      if v != 0 {
        byte := byte + 128;
      }
      out[start + pos] := byte;
      pos := pos + 1;
      more := v != 0;
    }
    assert out[start..start + pos] == code;
    assert out[..] == out[..start] + out[start..start + pos] + out[start + pos..];
  }

  /** One byte of an encoding. */
  lemma EncodedStep(code: seq<Byte>, pos: nat, v: nat)
    requires pos <= |code| && code[pos..] == Encoded(v)
    ensures pos < |code| && code[pos] == v % 128 + (if v / 128 != 0 then 128 else 0)
    ensures if v / 128 != 0 then code[pos + 1..] == Encoded(v / 128) else pos + 1 == |code|
  {
    var rest := code[pos..];
    assert rest[0] == code[pos] && rest[1..] == code[pos + 1..];
  }

  /** varint_decode: the value and the number of bytes read, or -1. */
  method VarintDecode(data: seq<Byte>) returns (length: int, value: nat)
    ensures Decode(data) == if length < 0 then Truncated else Value(value, length)
    ensures length >= -1
  {
    var shift, pos, result: nat := 0, 0, 0;
    while pos < |data| && shift < WORD
      invariant pos <= |data|
      invariant Decode(data) == match DecodeFrom(data[pos..], shift, result)
                                case Truncated => Truncated
                                case Value(v, n) => Value(v, n + pos)
    {
      var byte := data[pos];
      ghost var here := data[pos..];
      result := Added(result, byte, shift);
      pos := pos + 1;
      assert here[1..] == data[pos..];
      if byte < 128 {
        return pos, result;
      }
      shift := shift + 7;
    }
    return -1, 0;
  }
}
