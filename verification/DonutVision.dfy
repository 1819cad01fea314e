/** donut's own Vision framing: a few padded frames, then the raw stream. */
module DonutVision {
  import opened Bytes

  const MORE: byte := 0
  const END: byte := 1
  const MAX_DATA: nat := 16384

  /** `[kind][dataLen:2][padLen:2][data][pad]`; both lengths are truncated to 16 bits. */
  function Frame(kind: byte, data: bytes, pad: nat): bytes {
    [kind] + U16(|data|) + U16(pad) + data + Zeros(pad)
  }

  datatype Decoded = Decoded(out: bytes, ok: bool)

  /** What the receiver makes of a whole stream. A stream that ends inside a header ends cleanly. */
  function Decode(s: bytes): Decoded
    decreases |s|
  {
    if |s| < 5 then Decoded([], true)
    else
      var data, pad := FromU16(s[1], s[2]), FromU16(s[3], s[4]);
      if |s| < 5 + data then Decoded([], false)
      else if |s| < 5 + data + pad then Decoded(s[5..5 + data], false)
      else
        var rest := s[5 + data + pad..];
        if s[0] == END then Decoded(s[5..5 + data] + rest, true)
        else
          var d := Decode(rest);
          d.(out := s[5..5 + data] + d.out)
  }

  ghost predicate AreReads(parts: seq<bytes>) {
    forall i | 0 <= i < |parts| :: 1 <= |parts[i]| <= MAX_DATA
  }

  /** The stream sent for a list of reads when `left` more of them are to be framed. */
  function Encoded(parts: seq<bytes>, left: nat, pads: nat -> nat, k: nat): bytes
    requires left > 0
    decreases |parts|
  {
    if parts == [] then Frame(END, [], pads(k))
    else if left == 1 then Frame(END, parts[0], pads(k)) + Flatten(parts[1..])
    else Frame(MORE, parts[0], pads(k)) + Encoded(parts[1..], left - 1, pads, k + 1)
  }

  function FramesToPad(padFrames: nat): nat {
    if padFrames < 1 then 1 else padFrames
  }

  /** Copies a source to the tunnel: the first frames padded, the rest raw. */
  method EncodeCopy(parts: seq<bytes>, padFrames: nat, pads: nat -> nat) returns (wire: bytes)
    requires AreReads(parts)
    ensures wire == Encoded(parts, FramesToPad(padFrames), pads, 0)
  {
    hide Frame;
    var limit := FramesToPad(padFrames);
    var frames := 0;
    wire := [];
    assert parts[0..] == parts;
    Unit(Encoded(parts, limit, pads, 0));
    while true
      invariant 0 <= frames < limit && frames <= |parts|
      invariant wire + Encoded(parts[frames..], limit - frames, pads, frames) == Encoded(parts, limit, pads, 0)
      decreases limit - frames
    {
      if frames == |parts| {
        wire := wire + Frame(END, [], pads(frames));
        return;
      }
      var data := parts[frames];
      assert parts[frames..][0] == data && parts[frames..][1..] == parts[frames + 1..];
      frames := frames + 1;
      var last := frames >= limit;
      var kind := if last then END else MORE;
      var f := Frame(kind, data, pads(frames - 1));
      if last {
        Assoc(wire, f, Flatten(parts[frames..]));
        wire := wire + f;
        wire := wire + Flatten(parts[frames..]);
        return;
      }
      Assoc(wire, f, Encoded(parts[frames..], limit - frames, pads, frames));
      wire := wire + f;
    }
  }

  /** What the first frame of a stream contributes. */
  lemma DecodeFirst(s: bytes)
    ensures |s| < 5 ==> Decode(s) == Decoded([], true)
    ensures |s| >= 5 ==>
              var data, pad := FromU16(s[1], s[2]), FromU16(s[3], s[4]);
              && (|s| < 5 + data ==> Decode(s) == Decoded([], false))
              && (5 + data <= |s| < 5 + data + pad ==> Decode(s) == Decoded(s[5..5 + data], false))
              && (|s| >= 5 + data + pad ==>
                    var rest := s[5 + data + pad..];
                    Decode(s) == if s[0] == END then Decoded(s[5..5 + data] + rest, true)
                                 else Decode(rest).(out := s[5..5 + data] + Decode(rest).out))
  {
  }

  /** Copies the tunnel to the destination, unframing until END. */
  method DecodeCopy(src: bytes) returns (out: bytes, ok: bool)
    ensures Decoded(out, ok) == Decode(src)
  {
    hide Decode;
    out := [];
    var s := src;
    Unit(Decode(src).out);
    while true
      invariant Decode(src) == Decode(s).(out := out + Decode(s).out)
      decreases |s|
    {
      DecodeFirst(s);
      if |s| < 5 {
        Unit(out);
        return out, true;
      }
      var kind := s[0];
      var dataLen, padLen := FromU16(s[1], s[2]), FromU16(s[3], s[4]);
      ghost var before, whole := out, s;
      s := s[5..];
      if dataLen > 0 {
        if |s| < dataLen {
          Unit(out);
          return out, false;
        }
        out := out + s[..dataLen];
        s := s[dataLen..];
      }
      ghost var data := whole[5..5 + dataLen];
      assert out == before + data;
      if padLen > 0 {
        if |s| < padLen {
          return out, false;
        }
        s := s[padLen..];
      }
      assert s == whole[5 + dataLen + padLen..];
      if kind == END {
        Assoc(before, data, s);
        out := out + s;
        return out, true;
      }
      Assoc(before, data, Decode(s).out);
    }
  }

  /** What the receiver reads when the two length fields agree with the parts they count. */
  lemma DecodeParts(kind: byte, dataLen: bytes, padLen: bytes, data: bytes, pad: bytes, rest: bytes)
    requires |dataLen| == 2 && |padLen| == 2
    requires FromU16(dataLen[0], dataLen[1]) == |data| && FromU16(padLen[0], padLen[1]) == |pad|
    ensures Decode([kind] + dataLen + padLen + data + pad + rest) ==
            if kind == END then Decoded(data + rest, true)
            else Decode(rest).(out := data + Decode(rest).out)
  {
    hide Decode;
    var s := [kind] + dataLen + padLen + data + pad + rest;
    assert s[0] == kind && s[1] == dataLen[0] && s[2] == dataLen[1] && s[3] == padLen[0] && s[4] == padLen[1];
    assert s[5..5 + |data|] == data;
    assert s[5 + |data| + |pad|..] == rest;
    DecodeFirst(s);
  }

  /** One frame with lengths that fit. */
  lemma DecodeFrame(kind: byte, data: bytes, pad: nat, rest: bytes)
    requires |data| < 65536 && pad < 65536
    ensures Decode(Frame(kind, data, pad) + rest) ==
            if kind == END then Decoded(data + rest, true)
            else Decode(rest).(out := data + Decode(rest).out)
  {
    hide U16;
    hide FromU16;
    hide Decode;
    hide Zeros;
    U16RoundTrip(|data|);
    U16RoundTrip(pad);
    DecodeParts(kind, U16(|data|), U16(pad), data, Zeros(pad), rest);
  }

  lemma {:induction false} RoundTripFrom(parts: seq<bytes>, left: nat, pads: nat -> nat, k: nat)
    requires left > 0 && AreReads(parts) && forall i: nat :: pads(i) < 65536
    ensures Decode(Encoded(parts, left, pads, k)) == Decoded(Flatten(parts), true)
    decreases |parts|
  {
    hide Frame;
    hide Decode;
    if parts == [] {
      Unit(Frame(END, [], pads(k)));
      DecodeFrame(END, [], pads(k), []);
    } else if left == 1 {
      DecodeFrame(END, parts[0], pads(k), Flatten(parts[1..]));
    } else {
      RoundTripFrom(parts[1..], left - 1, pads, k + 1);
      DecodeFrame(MORE, parts[0], pads(k), Encoded(parts[1..], left - 1, pads, k + 1));
    }
  }

  /** Every source, every split into reads, every choice of padding up to `maxPad` comes back intact. */
  ghost predicate Faithful(padFrames: nat, maxPad: nat) {
    forall parts: seq<bytes>, pads: nat -> nat |
      AreReads(parts) && (forall i: nat :: pads(i) <= maxPad) ::
      Decode(Encoded(parts, FramesToPad(padFrames), pads, 0)) == Decoded(Flatten(parts), true)
  }

  lemma OversizedPadShows(pad: nat)
    requires pad >= 65536
    ensures Decode(Frame(END, [], pad)).out != []
  {
    U16RoundTrip(pad);
    var s := Frame(END, [], pad);
    assert |s| == 5 + pad;
    assert s[0] == END && s[1] == 0 && s[2] == 0;
    assert s[3] == U16(pad)[0] && s[4] == U16(pad)[1];
    assert |Decode(s).out| == pad - pad % 65536;
  }

  /** The framing is faithful exactly when a padding length always fits its 16-bit field. */
  lemma FaithfulExactly(padFrames: nat, maxPad: nat)
    ensures Faithful(padFrames, maxPad) <==> maxPad <= 65535
  {
    hide Decode;
    if maxPad <= 65535 {
      forall parts: seq<bytes>, pads: nat -> nat |
        AreReads(parts) && (forall i: nat :: pads(i) <= maxPad)
        ensures Decode(Encoded(parts, FramesToPad(padFrames), pads, 0)) == Decoded(Flatten(parts), true)
      {
        RoundTripFrom(parts, FramesToPad(padFrames), pads, 0);
      }
    } else {
      var pads := (i: nat) => maxPad;
      OversizedPadShows(maxPad);
      assert Encoded([], FramesToPad(padFrames), pads, 0) == Frame(END, [], maxPad);
      assert AreReads([]);
    }
  }
}
