/** TLS detection for Vision: which inner traffic permits the raw splice. */
module VisionFilter {
  import opened Bytes

  const MARKER: bytes := [0x00, 0x2b, 0x00, 0x02, 0x03, 0x04]  // supported_versions: TLS 1.3
  const CCM8: nat := 0x1305                                     // TLS_AES_128_CCM_8_SHA256
  const MAX_FILTERED: nat := 8

  predicate OpensServerHello(b: bytes) {
    |b| >= 6 && b[0] == 0x16 && b[1] == 0x03 && b[2] == 0x03 && b[5] == 0x02
  }

  predicate OpensClientHello(b: bytes) {
    |b| >= 6 && b[0] == 0x16 && b[1] == 0x03 && b[5] == 0x01
  }

  /** The length of the record that `b` opens, header included. */
  function Declared(b: bytes): nat
    requires |b| >= 6
  {
    FromU16(b[3], b[4]) + 5
  }

  predicate At(haystack: bytes, needle: bytes, k: int) {
    0 <= k && k + |needle| <= |haystack| && haystack[k..k + |needle|] == needle
  }

  predicate Contains(haystack: bytes, needle: bytes) {
    needle != [] && exists k | 0 <= k <= |haystack| :: At(haystack, needle, k)
  }

  // ------------------------------------- what the inspected buffers say

  function Last(seen: seq<bytes>): bytes
    requires seen != []
  {
    seen[|seen| - 1]
  }

  function Init(seen: seq<bytes>): seq<bytes>
    requires seen != []
  {
    seen[..|seen| - 1]
  }

  /** Bytes of the latest ServerHello record still due when the last buffer is inspected. */
  function Due(seen: seq<bytes>): nat
    requires seen != []
    decreases |seen|
  {
    if OpensServerHello(Last(seen)) then Declared(Last(seen)) else Left(Init(seen))
  }

  /** Bytes of the latest ServerHello record still due after all of `seen`. */
  function Left(seen: seq<bytes>): nat
    decreases |seen|, 0
  {
    if seen == [] then 0
    else if OpensServerHello(Last(seen)) then
      if Declared(Last(seen)) > |Last(seen)| then Declared(Last(seen)) - |Last(seen)| else 0
    else
      var before := Left(Init(seen));
      if before > |Last(seen)| then before - |Last(seen)| else 0
  }

  /** The TLS 1.3 marker lies in the last buffer, inside the ServerHello record's declared length. */
  predicate Marked(seen: seq<bytes>)
    requires seen != []
  {
    Due(seen) > 0 && Contains(Last(seen)[..Min(Due(seen), |Last(seen)|)], MARKER)
  }

  /** Inspection ends with the last buffer: verdict reached, or the record is over. */
  predicate Stops(seen: seq<bytes>)
    requires seen != []
  {
    Marked(seen) || 0 < Due(seen) <= |Last(seen)|
  }

  predicate ShowsCipher(b: bytes) {
    OpensServerHello(b) && |b| >= 79 && Declared(b) >= 79 && b[43] as int + 46 <= |b|
  }

  function CipherOf(b: bytes): nat
    requires ShowsCipher(b)
  {
    var at := b[43] as int + 44;
    FromU16(b[at], b[at + 1])
  }

  /** The cipher suite read from the most recent ServerHello long enough to show one. */
  function LastCipher(seen: seq<bytes>): nat {
    if seen == [] then 0
    else
      var b := Last(seen);
      if ShowsCipher(b) then CipherOf(b) else LastCipher(Init(seen))
  }

  function Total(chunks: seq<bytes>): nat {
    if chunks == [] then 0 else Total(Init(chunks)) + |Last(chunks)|
  }

  /** Buffer i opened a ServerHello record and the marker lies within its length, counted over all buffers since. */
  ghost predicate ShowsTls13(seen: seq<bytes>, i: nat) {
    && i < |seen|
    && OpensServerHello(seen[i])
    && (forall k | i < k < |seen| :: !OpensServerHello(seen[k]))
    && var before := Total(seen[i..|seen| - 1]);
       && before < Declared(seen[i])
       && Contains(Last(seen)[..Min(Declared(seen[i]) - before, |Last(seen)|)], MARKER)
  }

  lemma {:induction false} DueHasOpener(seen: seq<bytes>) returns (i: nat)
    requires seen != [] && Due(seen) > 0
    ensures i < |seen| && OpensServerHello(seen[i])
    ensures forall k | i < k < |seen| :: !OpensServerHello(seen[k])
    ensures Due(seen) == Declared(seen[i]) - Total(seen[i..|seen| - 1])
    decreases |seen|
  {
    if OpensServerHello(Last(seen)) {
      i := |seen| - 1;
      assert seen[i..|seen| - 1] == [];
    } else {
      var init := Init(seen);
      i := DueHasOpener(init);
      var part := seen[i..|seen| - 1];
      assert Init(part) == init[i..|init| - 1] && Last(part) == Last(init);
    }
  }

  lemma {:induction false} OpenerGivesDue(seen: seq<bytes>, i: nat)
    requires i < |seen| && OpensServerHello(seen[i])
    requires forall k | i < k < |seen| :: !OpensServerHello(seen[k])
    requires Total(seen[i..|seen| - 1]) < Declared(seen[i])
    ensures Due(seen) == Declared(seen[i]) - Total(seen[i..|seen| - 1])
    decreases |seen|
  {
    if i == |seen| - 1 {
      assert seen[i..|seen| - 1] == [];
    } else {
      var init := Init(seen);
      var part := seen[i..|seen| - 1];
      assert Init(part) == init[i..|init| - 1] && Last(part) == Last(init);
      OpenerGivesDue(init, i);
    }
  }

  /** A positive verdict is backed by a buffer that opened a ServerHello record, and the marker within its length. */
  lemma MarkedShowsTls13(seen: seq<bytes>)
    requires seen != []
    ensures Marked(seen) <==> exists i :: ShowsTls13(seen, i)
  {
    if Marked(seen) {
      var i := DueHasOpener(seen);
      assert ShowsTls13(seen, i);
    }
    forall i | ShowsTls13(seen, i)
      ensures Marked(seen)
    {
      OpenerGivesDue(seen, i);
    }
  }

  /** Every buffer but the last left the inspection going. */
  ghost predicate Unstopped(seen: seq<bytes>) {
    forall k | 0 < k < |seen| :: !Stops(seen[..k])
  }

  ghost predicate SawServerHello(seen: seq<bytes>) {
    exists k | 0 <= k < |seen| :: OpensServerHello(seen[k])
  }

  ghost predicate SawHello(seen: seq<bytes>) {
    exists k | 0 <= k < |seen| :: OpensServerHello(seen[k]) || OpensClientHello(seen[k])
  }

  lemma SawSnoc(seen: seq<bytes>, b: bytes)
    ensures SawServerHello(seen + [b]) <==> SawServerHello(seen) || OpensServerHello(b)
    ensures SawHello(seen + [b]) <==> SawHello(seen) || OpensServerHello(b) || OpensClientHello(b)
    ensures Unstopped(seen) && (seen == [] || !Stops(seen)) ==> Unstopped(seen + [b])
  {
    var now := seen + [b];
    assert now[|seen|] == b;
    assert forall k | 0 <= k < |seen| :: now[k] == seen[k];
    assert forall k | 0 <= k < |seen| :: now[..k] == seen[..k];
    assert now[..|seen|] == seen;
  }

  // --------------------------------------------------------- FilterState

  class FilterState {
    var numberToFilter: int
    var enableXtls: bool
    var isTls12OrAbove: bool
    var isTls: bool
    var cipher: int
    var remainingServerHello: int

    /** Every field, as a function of the buffers inspected so far. */
    ghost predicate Tracks(seen: seq<bytes>)
      reads this
    {
      && |seen| <= MAX_FILTERED
      && Unstopped(seen)
      && numberToFilter == (if seen != [] && Stops(seen) then 0 else MAX_FILTERED - |seen|)
      && (enableXtls <==> seen != [] && Marked(seen) && LastCipher(seen) != CCM8)
      && (isTls12OrAbove <==> SawServerHello(seen))
      && (isTls <==> SawHello(seen))
      && cipher == LastCipher(seen)
      && (numberToFilter > 0 ==> remainingServerHello == Left(seen))
    }

    constructor ()
      ensures Tracks([])
    {
      numberToFilter := 8;
      enableXtls, isTls12OrAbove, isTls := false, false, false;
      cipher := 0;
      remainingServerHello := 0;
    }

    /** XTLS is enabled only for what has shown itself to be TLS 1.2 or above. */
    lemma XtlsOnlyForTls(seen: seq<bytes>)
      requires Tracks(seen)
      ensures enableXtls ==> isTls12OrAbove && isTls
    {
      if enableXtls {
        var i := DueHasOpener(seen);
      }
    }

    /** The header part of `Filter`: which hello the buffer opens, and its cipher suite. */
    method ReadHello(b: bytes, ghost seen: seq<bytes>)
      requires remainingServerHello == Left(seen) && cipher == LastCipher(seen)
      modifies this`remainingServerHello, this`isTls12OrAbove, this`isTls, this`cipher
      ensures remainingServerHello == Due(seen + [b]) && cipher == LastCipher(seen + [b])
      ensures isTls12OrAbove <==> old(isTls12OrAbove) || OpensServerHello(b)
      ensures isTls <==> old(isTls) || OpensServerHello(b) || OpensClientHello(b)
    {
      assert Init(seen + [b]) == seen && Last(seen + [b]) == b;
      if |b| >= 6 {
        if b[0] == 0x16 && b[1] == 0x03 && b[2] == 0x03 && b[5] == 0x02 {
          remainingServerHello := FromU16(b[3], b[4]) + 5;
          isTls12OrAbove := true;
          isTls := true;
          if |b| >= 79 && remainingServerHello >= 79 {
            var sessionIdLen: int := b[43];
            if 43 + sessionIdLen + 3 <= |b| {
              cipher := FromU16(b[43 + sessionIdLen + 1], b[43 + sessionIdLen + 2]);
            }
          }
        } else if b[0] == 0x16 && b[1] == 0x03 && b[5] == 0x01 {
          isTls := true;
        }
      }
    }

    /** Inspects one buffer; callers do so only while `numberToFilter > 0`. */
    method Filter(b: bytes, ghost seen: seq<bytes>)
      requires Tracks(seen) && numberToFilter > 0
      modifies this
      ensures Tracks(seen + [b])
      ensures old(isTls) ==> isTls
      ensures old(isTls12OrAbove) ==> isTls12OrAbove
      ensures !old(enableXtls)
    {
      ghost var now := seen + [b];
      assert Init(now) == seen && Last(now) == b;
      numberToFilter := numberToFilter - 1;
      hide Due;
      hide LastCipher;
      hide Contains;
      hide OpensServerHello;
      hide OpensClientHello;
      hide SawServerHello;
      hide SawHello;
      hide Unstopped;
      SawSnoc(seen, b);
      ReadHello(b, seen);
      if remainingServerHello > 0 {
        var end := Min(remainingServerHello, |b|);
        remainingServerHello := remainingServerHello - |b|;
        if Contains(b[..end], MARKER) {
          if cipher != CCM8 {
            enableXtls := true;
          }
          numberToFilter := 0;
        } else if remainingServerHello <= 0 {
          numberToFilter := 0;
        }
      }
    }
  }

  // -------------------------------------------------- complete records

  /** A run of application-data records, one per body. */
  function AppRecords(bodies: seq<bytes>): bytes {
    if bodies == [] then []
    else [0x17, 0x03, 0x03] + U16(|bodies[0]|) + bodies[0] + AppRecords(bodies[1..])
  }

  ghost predicate Tiled(b: bytes, bodies: seq<bytes>) {
    (forall k | 0 <= k < |bodies| :: |bodies[k]| < 65536) && b == AppRecords(bodies)
  }

  function RecordEnd(b: bytes): (e: Option<nat>)
    ensures e.Some? ==> 5 <= e.value <= |b|
  {
    if |b| < 5 || b[0] != 0x17 || b[1] != 0x03 || b[2] != 0x03 then None
    else if |b| < 5 + FromU16(b[3], b[4]) then None
    else Some(5 + FromU16(b[3], b[4]))
  }

  lemma FirstRecordOf(b: bytes, bodies: seq<bytes>)
    requires Tiled(b, bodies) && bodies != []
    ensures RecordEnd(b) == Some(5 + |bodies[0]|)
    ensures Tiled(b[5 + |bodies[0]|..], bodies[1..])
  {
    U16RoundTrip(|bodies[0]|);
    var n := |bodies[0]|;
    var head := [0x17, 0x03, 0x03] + U16(n) + bodies[0];
    assert b == head + AppRecords(bodies[1..]);
    assert b[5 + n..] == AppRecords(bodies[1..]);
  }

  lemma TileOne(b: bytes, e: nat, rest: seq<bytes>)
    requires RecordEnd(b) == Some(e) && Tiled(b[e..], rest)
    ensures Tiled(b, [b[5..e]] + rest)
  {
    hide U16;
    U16OfBytes(b[3], b[4]);
    var body := b[5..e];
    var bodies := [body] + rest;
    assert bodies[0] == body && bodies[1..] == rest;
    assert b[..5] == [0x17, 0x03, 0x03] + [b[3], b[4]];
    assert b == b[..5] + body + b[e..];
  }

  /** True exactly when the buffer is a run of whole application-data records. */
  method IsCompleteRecord(input: bytes) returns (complete: bool)
    ensures complete <==> exists bodies :: Tiled(input, bodies)
  {
    var b := input;
    while b != []
      invariant (exists bodies :: Tiled(input, bodies)) <==> (exists bodies :: Tiled(b, bodies))
      decreases |b|
    {
      if RecordEnd(b).None? {
        forall bodies | Tiled(b, bodies)
          ensures false
        {
          FirstRecordOf(b, bodies);
        }
        return false;
      }
      var e := RecordEnd(b).value;
      forall rest | Tiled(b[e..], rest)
        ensures exists bodies :: Tiled(b, bodies)
      {
        TileOne(b, e, rest);
      }
      forall bodies | Tiled(b, bodies)
        ensures Tiled(b[e..], bodies[1..])
      {
        FirstRecordOf(b, bodies);
      }
      b := b[e..];
    }
    assert Tiled([], []);
    complete := true;
  }
}
