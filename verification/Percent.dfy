/** Percent-encoding of URI components, on UTF-8 bytes. */
module Percent {
  import opened Bytes
  import opened Utf8

  const PERCENT: byte := 0x25

  predicate IsUnreserved(b: byte) {
    || 0x41 <= b <= 0x5A || 0x61 <= b <= 0x7A || 0x30 <= b <= 0x39
    || b == 0x2D || b == 0x2E || b == 0x5F || b == 0x7E
  }

  function HexDigit(n: nat): byte
    requires n < 16
  {
    if n < 10 then 0x30 + n else 0x37 + n
  }

  function HexValue(b: byte): Option<nat> {
    if 0x30 <= b <= 0x39 then Some(b - 0x30)
    else if 0x41 <= b <= 0x46 then Some(b - 0x37)
    else if 0x61 <= b <= 0x66 then Some(b - 0x57)
    else None
  }

  /** `u8::from_str_radix(_, 16)` on two characters; a leading plus sign is accepted. */
  function FromHex(a: byte, b: byte): Option<byte> {
    if a == 0x2B && HexValue(b).Some? then Some(HexValue(b).value)
    else if HexValue(a).Some? && HexValue(b).Some? then Some(HexValue(a).value * 16 + HexValue(b).value)
    else None
  }

  function EncodeByte(b: byte): (r: bytes)
    ensures |r| == if IsUnreserved(b) then 1 else 3
  {
    if IsUnreserved(b) then [b] else [PERCENT, HexDigit(b / 16), HexDigit(b % 16)]
  }

  function Encoded(s: bytes): bytes {
    if s == [] then [] else EncodeByte(s[0]) + Encoded(s[1..])
  }

  lemma {:induction false} EncodedConcat(a: bytes, b: bytes)
    ensures Encoded(a + b) == Encoded(a) + Encoded(b)
    decreases |a|
  {
    if a == [] {
      Unit(b);
      Unit(Encoded(b));
    } else {
      assert (a + b)[1..] == a[1..] + b;
      EncodedConcat(a[1..], b);
      Assoc(EncodeByte(a[0]), Encoded(a[1..]), Encoded(b));
    }
  }

  method Pct(s: bytes) returns (out: bytes)
    ensures out == Encoded(s)
  {
    out := [];
    for i := 0 to |s|
      invariant out == Encoded(s[..i])
    {
      EncodedConcat(s[..i], [s[i]]);
      assert s[..i + 1] == s[..i] + [s[i]];
      assert Encoded([s[i]]) == EncodeByte(s[i]) + Encoded([]);
      Unit(EncodeByte(s[i]));
      if IsUnreserved(s[i]) {
        out := out + [s[i]];
      } else {
        out := out + [PERCENT, HexDigit(s[i] / 16), HexDigit(s[i] % 16)];
      }
    }
    assert s[..|s|] == s;
  }

  // ------------------------------------------------------------- decoding

  /** The decoder from position i on. None: the two characters after a `%` cut a character in half. */
  function DecodeFrom(s: bytes, i: nat): (r: Option<bytes>)
    requires i <= |s|
    decreases |s| - i
  {
    if i == |s| then Some([])
    else if s[i] == PERCENT && i + 2 < |s| && i + 3 < |s| && Continues(s[i + 3]) then None
    else
      var hit := if s[i] == PERCENT && i + 2 < |s| then FromHex(s[i + 1], s[i + 2]) else None;
      var next := if hit.Some? then i + 3 else i + 1;
      match DecodeFrom(s, next)
      case None => None
      case Some(rest) => Some([if hit.Some? then hit.value else s[i]] + rest)
  }

  /** The decoded text: what is not UTF-8 is repaired. None is the panic. */
  function Decoded(s: bytes): Option<bytes> {
    match DecodeFrom(s, 0)
    case None => None
    case Some(b) => Some(Repair(b))
  }

  method PctDecode(s: bytes) returns (r: Option<bytes>)
    ensures r == Decoded(s)
  {
    var out: bytes := [];
    var i := 0;
    if DecodeFrom(s, 0).Some? {
      Unit(DecodeFrom(s, 0).value);
    }
    while i < |s|
      invariant 0 <= i <= |s|
      invariant match DecodeFrom(s, i)
                case None => DecodeFrom(s, 0) == None
                case Some(rest) => DecodeFrom(s, 0) == Some(out + rest)
    {
      if s[i] == PERCENT && i + 2 < |s| {
        if i + 3 < |s| && Continues(s[i + 3]) {
          return None;
        }
        var b := FromHex(s[i + 1], s[i + 2]);
        if b.Some? {
          if DecodeFrom(s, i + 3).Some? {
            Assoc(out, [b.value], DecodeFrom(s, i + 3).value);
          }
          out := out + [b.value];
          i := i + 3;
          continue;
        }
      }
      if DecodeFrom(s, i + 1).Some? {
        Assoc(out, [s[i]], DecodeFrom(s, i + 1).value);
      }
      out := out + [s[i]];
      i := i + 1;
    }
    Unit(out);
    r := Some(Repair(out));
  }

  /** Nothing but unreserved characters and escapes comes out of the encoder. */
  predicate IsPlain(b: byte) {
    IsUnreserved(b) || b == PERCENT
  }

  lemma {:induction false} EncodedIsPlain(s: bytes)
    ensures forall b | b in Encoded(s) :: IsPlain(b)
    decreases |s|
  {
    if s != [] {
      EncodedIsPlain(s[1..]);
      assert forall b | b in EncodeByte(s[0]) :: IsPlain(b);
    }
  }

  lemma EscapeDecodes(b: byte)
    ensures FromHex(HexDigit(b / 16), HexDigit(b % 16)) == Some(b)
  {
    assert b / 16 * 16 + b % 16 == b;
  }

  lemma DecodeEscape(p: bytes, b: byte, tail: bytes)
    requires !IsUnreserved(b) && forall x | x in tail :: IsPlain(x)
    ensures var s := p + EncodeByte(b) + tail;
            DecodeFrom(s, |p|) == match DecodeFrom(s, |p| + 3)
                                  case None => None
                                  case Some(rest) => Some([b] + rest)
  {
    EscapeDecodes(b);
    var s := p + EncodeByte(b) + tail;
    assert s[|p|..|p| + 3] == EncodeByte(b);
    assert s[|p|] == PERCENT && s[|p| + 1] == HexDigit(b / 16) && s[|p| + 2] == HexDigit(b % 16);
    if |p| + 3 < |s| {
      assert s[|p| + 3] == tail[0] && tail[0] in tail;
    }
  }

  lemma DecodeEnd(s: bytes)
    ensures DecodeFrom(s, |s|) == Some([])
  {
  }

  lemma DecodeUnreserved(p: bytes, b: byte, tail: bytes)
    requires IsUnreserved(b)
    ensures var s := p + EncodeByte(b) + tail;
            DecodeFrom(s, |p|) == match DecodeFrom(s, |p| + 1)
                                  case None => None
                                  case Some(rest) => Some([b] + rest)
  {
    var s := p + EncodeByte(b) + tail;
    assert s[|p|] == b;
  }

  lemma {:induction false} DecodeEncodedFrom(p: bytes, s: bytes)
    ensures DecodeFrom(p + Encoded(s), |p|) == Some(s)
    decreases |s|
  {
    hide DecodeFrom;
    hide EncodeByte;
    if s == [] {
      Unit(p);
      DecodeEnd(p);
    } else {
      var e, tail := EncodeByte(s[0]), Encoded(s[1..]);
      Assoc(p, e, tail);
      DecodeEncodedFrom(p + e, s[1..]);
      assert s == [s[0]] + s[1..];
      if IsUnreserved(s[0]) {
        DecodeUnreserved(p, s[0], tail);
      } else {
        EncodedIsPlain(s[1..]);
        DecodeEscape(p, s[0], tail);
      }
    }
  }

  /** Decoding undoes encoding up to the repair of what is not UTF-8: exactly, on exactly the texts. */
  lemma PercentRoundTrip(s: bytes)
    ensures DecodeFrom(Encoded(s), 0) == Some(s)
    ensures Decoded(Encoded(s)) == Some(Repair(s))
    ensures Decoded(Encoded(s)) == Some(s) <==> IsText(s)
  {
    DecodeEncodedFrom([], s);
    Unit(Encoded(s));
    RepairedExactly(s);
  }

  /** A percent sign whose third following byte continues a character. */
  predicate CutsAt(s: bytes, i: nat) {
    i + 3 < |s| && s[i] == PERCENT && Continues(s[i + 3])
  }

  /** No percent sign hides inside an escape, so the decoder meets every one of them. */
  lemma {:induction false} DecoderPanicsFrom(s: bytes, i: nat)
    requires i <= |s|
    ensures DecodeFrom(s, i) == None <==> exists j: nat :: i <= j && CutsAt(s, j)
    decreases |s| - i
  {
    if i < |s| && CutsAt(s, i) {
      assert DecodeFrom(s, i) == None;
    } else if i < |s| {
      var hit := if s[i] == PERCENT && i + 2 < |s| then FromHex(s[i + 1], s[i + 2]) else None;
      var next := if hit.Some? then i + 3 else i + 1;
      DecoderPanicsFrom(s, next);
      assert forall j: nat | i < j < next :: !CutsAt(s, j);
      assert DecodeFrom(s, i) == None <==> DecodeFrom(s, next) == None;
    }
  }

  /** The decoder panics exactly on the strings in which some escape would cut a character. */
  lemma DecoderPanicsExactly(s: bytes)
    ensures Decoded(s) == None <==> exists j: nat :: CutsAt(s, j)
  {
    DecoderPanicsFrom(s, 0);
  }

  /** Such strings exist: `%a` followed by a two-byte character. */
  lemma DecoderCutsCharacter()
    ensures IsText([0x25, 0x61, 0xC3, 0xA9]) && Decoded([0x25, 0x61, 0xC3, 0xA9]) == None
  {
  }
}
