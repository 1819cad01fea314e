/** The front door: reading the first ClientHello record before deciding where a caller goes. */
module FrontDoor {
  import opened Bytes
  import opened Sockets

  const TLS_HANDSHAKE: byte := 0x16
  const MAX_CLIENT_HELLO: nat := 16384
  const READ: nat := 2048

  datatype Verdict = Undecided | Decided(hello: bytes)

  /** What the bytes read so far settle. */
  function Look(prefix: bytes): Verdict {
    if prefix != [] && prefix[0] != TLS_HANDSHAKE then Decided([])
    else if |prefix| < 5 then Undecided
    else
      var n := FromU16(prefix[3], prefix[4]);
      if n == 0 || n > MAX_CLIENT_HELLO then Decided([])
      else if |prefix| >= 5 + n then Decided(prefix[5..5 + n])
      else Undecided
  }

  /** The reader on one particular cut of the stream. */
  function Triage(prefix: bytes, chunks: seq<bytes>): bytes
    requires NonEmpty(chunks)
    decreases |Flatten(chunks)|
  {
    match Look(prefix)
    case Decided(hello) => hello
    case Undecided =>
      var r := ReadSome(chunks, READ);
      if r.0 == [] then (if |prefix| >= 5 then prefix[5..] else [])
      else if |prefix + r.0| > MAX_CLIENT_HELLO + 5 then []
      else Triage(prefix + r.0, r.1)
  }

  /** What the reader would say of the whole stream at once, without a cap. */
  function Reference(stream: bytes): bytes {
    match Look(stream)
    case Decided(hello) => hello
    case Undecided => if |stream| >= 5 then stream[5..] else []
  }

  /** Reads the first record; every byte taken off the socket is in `prefix`. */
  method ReadClientHello(chunks: seq<bytes>) returns (hello: bytes, prefix: bytes, unread: seq<bytes>)
    requires NonEmpty(chunks)
    ensures hello == Triage([], chunks)
    ensures NonEmpty(unread) && prefix + Flatten(unread) == Flatten(chunks)
  {
    hide Look;
    prefix, unread := [], chunks;
    Unit(Flatten(chunks));
    while true
      invariant NonEmpty(unread)
      invariant Triage(prefix, unread) == Triage([], chunks)
      invariant prefix + Flatten(unread) == Flatten(chunks)
      decreases |Flatten(unread)|
    {
      var v := Look(prefix);
      if v.Decided? {
        hello := v.hello;
        return;
      }
      var r := ReadSome(unread, READ);
      if r.0 == [] {
        hello := if |prefix| >= 5 then prefix[5..] else [];
        return;
      }
      Assoc(prefix, r.0, Flatten(r.1));
      prefix, unread := prefix + r.0, r.1;
      if |prefix| > MAX_CLIENT_HELLO + 5 {
        hello := [];
        return;
      }
    }
  }

  /** Forwarding replays the prefix and then the socket: the destination sees the original stream. */
  method RelayToDest(chunks: seq<bytes>) returns (toDest: bytes)
    requires NonEmpty(chunks)
    ensures toDest == Flatten(chunks)
  {
    var hello, prefix, unread := ReadClientHello(chunks);
    toDest := prefix;
    while unread != []
      invariant NonEmpty(unread) && toDest + Flatten(unread) == Flatten(chunks)
      decreases |Flatten(unread)|
    {
      var r := ReadSome(unread, READ);
      Assoc(toDest, r.0, Flatten(r.1));
      toDest, unread := toDest + r.0, r.1;
    }
    Unit(toDest);
  }

  // ------------------------------------------------- when the cut matters

  /** The stream as it may arrive. */
  ghost predicate IsCut(chunks: seq<bytes>, stream: bytes) {
    NonEmpty(chunks) && Flatten(chunks) == stream
  }

  /** A handshake record too long to be safe, in a stream long enough to overshoot the cap. */
  predicate CutMatters(stream: bytes) {
    && |stream| > MAX_CLIENT_HELLO + 5
    && stream[0] == TLS_HANDSHAKE
    && 14337 < FromU16(stream[3], stream[4]) <= MAX_CLIENT_HELLO
  }

  /** A verdict stands when more bytes arrive. */
  lemma LookStable(prefix: bytes, more: bytes)
    requires Look(prefix).Decided?
    ensures Look(prefix + more) == Look(prefix)
  {
    var all := prefix + more;
    assert all[0] == prefix[0];
    if |prefix| >= 5 {
      assert all[3] == prefix[3] && all[4] == prefix[4];
      var n := FromU16(prefix[3], prefix[4]);
      if |prefix| >= 5 + n {
        assert all[5..5 + n] == prefix[5..5 + n];
      }
    }
  }

  /** An undecided prefix before which a read cannot overshoot, unless the cut matters. */
  lemma NoOvershoot(prefix: bytes, got: bytes, rest: bytes)
    requires Look(prefix) == Undecided && |got| <= READ
    requires !CutMatters(prefix + got + rest)
    ensures |prefix + got| <= MAX_CLIENT_HELLO + 5
  {
    if |prefix| >= 5 {
      var all := prefix + got + rest;
      assert all[0] == prefix[0] && all[3] == prefix[3] && all[4] == prefix[4];
    }
  }

  lemma {:induction false} TriageIsReference(prefix: bytes, chunks: seq<bytes>)
    requires NonEmpty(chunks) && !CutMatters(prefix + Flatten(chunks))
    ensures Triage(prefix, chunks) == Reference(prefix + Flatten(chunks))
    decreases |Flatten(chunks)|
  {
    var stream := prefix + Flatten(chunks);
    if Look(prefix).Decided? {
      LookStable(prefix, Flatten(chunks));
    } else {
      var r := ReadSome(chunks, READ);
      if r.0 == [] {
        Unit(prefix);
      } else {
        Assoc(prefix, r.0, Flatten(r.1));
        NoOvershoot(prefix, r.0, Flatten(r.1));
        TriageIsReference(prefix + r.0, r.1);
      }
    }
  }

  // ------------------------------------------------------ the cut that overshoots

  /** `stream[lo..hi]` as reads of at most 2048 bytes. */
  function Slices(stream: bytes, lo: nat, hi: nat): (cs: seq<bytes>)
    requires lo < hi <= |stream|
    ensures NonEmpty(cs) && cs != []
    decreases hi - lo
  {
    if hi - lo <= READ then [stream[lo..hi]]
    else [stream[lo..lo + READ]] + Slices(stream, lo + READ, hi)
  }

  lemma {:induction false} SlicesFlatten(stream: bytes, lo: nat, hi: nat)
    requires lo < hi <= |stream|
    ensures Flatten(Slices(stream, lo, hi)) == stream[lo..hi]
    decreases hi - lo
  {
    if hi - lo <= READ {
      FlattenOne(stream[lo..hi]);
    } else {
      SlicesFlatten(stream, lo + READ, hi);
      var cs := Slices(stream, lo, hi);
      assert cs[1..] == Slices(stream, lo + READ, hi);
      assert stream[lo..lo + READ] + stream[lo + READ..hi] == stream[lo..hi];
    }
  }

  lemma ShortOfRecord(stream: bytes, p: nat)
    requires CutMatters(stream) && p < 5 + FromU16(stream[3], stream[4])
    ensures Look(stream[..p]) == Undecided
  {
    var x := stream[..p];
    if p >= 5 {
      assert x[3] == stream[3] && x[4] == stream[4];
    }
  }

  lemma TriageOneRead(prefix: bytes, c: bytes, rest: seq<bytes>)
    requires Look(prefix) == Undecided && 0 < |c| <= READ && NonEmpty(rest)
    requires |prefix + c| <= MAX_CLIENT_HELLO + 5
    ensures NonEmpty([c] + rest)
    ensures Triage(prefix, [c] + rest) == Triage(prefix + c, rest)
  {
    hide Look;
    var chunks := [c] + rest;
    assert chunks[0] == c && chunks[1..] == rest;
    assert ReadSome(chunks, READ) == (c, rest);
  }

  lemma {:induction false} TriageSlices(stream: bytes, lo: nat, hi: nat, rest: seq<bytes>)
    requires CutMatters(stream) && lo < hi < 5 + FromU16(stream[3], stream[4]) && NonEmpty(rest)
    ensures NonEmpty(Slices(stream, lo, hi) + rest)
    ensures Triage(stream[..lo], Slices(stream, lo, hi) + rest) == Triage(stream[..hi], rest)
    decreases hi - lo
  {
    hide Look;
    hide Triage;
    ShortOfRecord(stream, lo);
    if hi - lo <= READ {
      assert stream[..lo] + stream[lo..hi] == stream[..hi];
      TriageOneRead(stream[..lo], stream[lo..hi], rest);
    } else {
      var mid := lo + READ;
      var more := Slices(stream, mid, hi) + rest;
      TriageSlices(stream, mid, hi, rest);
      assert stream[..lo] + stream[lo..mid] == stream[..mid];
      TriageOneRead(stream[..lo], stream[lo..mid], more);
      assert Slices(stream, lo, hi) + rest == [stream[lo..mid]] + more;
    }
  }

  /** Fill up to just below the record's end, then take one full read. */
  lemma OvershootingCut(stream: bytes) returns (chunks: seq<bytes>)
    requires CutMatters(stream)
    ensures IsCut(chunks, stream) && Triage([], chunks) != Reference(stream)
  {
    var at := 14342;
    var tail := [stream[at..]];
    chunks := Slices(stream, 0, at) + tail;
    SlicesFlatten(stream, 0, at);
    FlattenOne(stream[at..]);
    FlattenConcat(Slices(stream, 0, at), tail);
    assert stream[0..at] + stream[at..] == stream;
    assert stream[..0] == [];
    TriageSlices(stream, 0, at, tail);
    ShortOfRecord(stream, at);
    assert |ReadSome(tail, READ).0| == READ;
    assert Triage(stream[..at], tail) == [];
    var n := FromU16(stream[3], stream[4]);
    assert Reference(stream) == stream[5..5 + n];
  }

  /** Fill up to just below the record's end, then read exactly to it. */
  lemma ExactCut(stream: bytes) returns (chunks: seq<bytes>)
    requires CutMatters(stream)
    ensures IsCut(chunks, stream) && Triage([], chunks) == Reference(stream)
  {
    var end := 5 + FromU16(stream[3], stream[4]);
    var at := end - 1;
    var last, after := stream[at..end], [stream[end..]];
    var tail := [last] + after;
    chunks := Slices(stream, 0, at) + tail;
    SlicesFlatten(stream, 0, at);
    FlattenOne(stream[end..]);
    assert tail[1..] == after && last + stream[end..] == stream[at..];
    FlattenConcat(Slices(stream, 0, at), tail);
    assert stream[0..at] + stream[at..] == stream;
    assert stream[..0] == [];
    TriageSlices(stream, 0, at, tail);
    ShortOfRecord(stream, at);
    assert stream[..at] + last == stream[..end];
    TriageOneRead(stream[..at], last, after);
    assert Look(stream[..end]) == Decided(stream[5..end]);
  }

  /**
   * All cuts of the stream lead to the same decision exactly when the stream is not a handshake record
   * of more than 14337 bytes followed far enough to overshoot the cap; it is then the decision on the
   * whole stream.
   */
  lemma DecisionIndependentExactly(stream: bytes)
    ensures (forall a, b | IsCut(a, stream) && IsCut(b, stream) :: Triage([], a) == Triage([], b))
            <==> !CutMatters(stream)
    ensures (forall a | IsCut(a, stream) :: Triage([], a) == Reference(stream)) <==> !CutMatters(stream)
  {
    if CutMatters(stream) {
      var a := OvershootingCut(stream);
      var b := ExactCut(stream);
    } else {
      hide Triage;
      forall a | IsCut(a, stream)
        ensures Triage([], a) == Reference(stream)
      {
        Unit(stream);
        TriageIsReference([], a);
      }
    }
  }
}
