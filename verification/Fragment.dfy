/** ClientHello fragmentation: one handshake record re-emitted as several smaller ones. */
module Fragment {
  import opened Bytes
  import opened Sockets

  type u32 = n: nat | n <= 0xffff_ffff

  /** Fragment payload size range, inclusive. */
  datatype Params = Params(lo: u32, hi: u32) {
    /** `hi - lo + 1` does not fit 32 bits: the first size drawn panics. */
    predicate Overflows() {
      lo < hi && hi - lo + 1 > 0xffff_ffff
    }

    function Pick(random: nat): (n: nat)
      ensures lo <= n && (n <= hi || n == lo)
    {
      if lo >= hi then lo else lo + random % (hi - lo + 1)
    }

    /** No emitted fragment is longer than this. */
    function Bound(): nat {
      var most := if lo >= hi then lo else hi;
      if most < 1 then 1 else most
    }

    function Size(random: nat, left: nat): (n: nat)
      requires left > 0
      ensures 1 <= n <= left && n <= Bound()
    {
      var n := Pick(random);
      if n < 1 then 1 else if n > left then left else n
    }
  }

  predicate IsClientHello(record: bytes) {
    |record| >= 6 && record[0] == 0x16 && record[5] == 0x01
  }

  // -------------------------------------------------------- TLS records

  datatype Record = Record(contentType: byte, major: byte, minor: byte, payload: bytes)

  function Emit(r: Record): bytes {
    [r.contentType, r.major, r.minor] + U16(|r.payload|) + r.payload
  }

  function EmitAll(rs: seq<Record>): bytes {
    if rs == [] then [] else Emit(rs[0]) + EmitAll(rs[1..])
  }

  /** How a TLS receiver reads a stream that is a whole number of records. */
  function Records(s: bytes): Option<seq<Record>>
    decreases |s|
  {
    if s == [] then Some([])
    else
      match RecordLen(s)
      case None => None
      case Some(n) =>
        match Records(s[n..])
        case None => None
        case Some(rest) => Some([Record(s[0], s[1], s[2], s[5..n])] + rest)
  }

  lemma FirstOf(r: Record, more: bytes)
    requires |r.payload| < 65536
    ensures var s := Emit(r) + more; var n := 5 + |r.payload|;
            && RecordLen(s) == Some(n)
            && s[n..] == more
            && Record(s[0], s[1], s[2], s[5..n]) == r
  {
    U16RoundTrip(|r.payload|);
    var s := Emit(r) + more;
    var n := 5 + |r.payload|;
    assert s[3] == U16(|r.payload|)[0] && s[4] == U16(|r.payload|)[1];
    assert s[5..n] == r.payload;
    assert s[n..] == more;
  }

  lemma {:induction false} RecordsRoundTrip(rs: seq<Record>)
    requires forall i | 0 <= i < |rs| :: |rs[i].payload| < 65536
    ensures Records(EmitAll(rs)) == Some(rs)
    decreases |rs|
  {
    if rs != [] {
      FirstOf(rs[0], EmitAll(rs[1..]));
      hide Emit;
      hide RecordLen;
      RecordsRoundTrip(rs[1..]);
      assert rs == [rs[0]] + rs[1..];
    }
  }

  // ------------------------------------------------------- fragmentation

  /** The payload cut by successive random sizes. */
  function Pieces(payload: bytes, p: Params, randoms: nat -> nat, k: nat): seq<bytes>
    decreases |payload|
  {
    if payload == [] then []
    else
      var n := p.Size(randoms(k), |payload|);
      [payload[..n]] + Pieces(payload[n..], p, randoms, k + 1)
  }

  lemma Regroup(done: seq<bytes>, piece: bytes, rest: seq<bytes>)
    ensures done + ([piece] + rest) == (done + [piece]) + rest
  {
  }

  /** One turn of the fragmenting loop: the next piece moves from what is left to what is done. */
  lemma PiecesStep(payload: bytes, off: nat, p: Params, randoms: nat -> nat, k: nat, done: seq<bytes>)
    requires off < |payload|
    ensures var n := p.Size(randoms(k), |payload| - off);
            done + Pieces(payload[off..], p, randoms, k) ==
            (done + [payload[off..off + n]]) + Pieces(payload[off + n..], p, randoms, k + 1)
  {
    var n := p.Size(randoms(k), |payload| - off);
    assert payload[off..][..n] == payload[off..off + n] && payload[off..][n..] == payload[off + n..];
    Regroup(done, payload[off..off + n], Pieces(payload[off + n..], p, randoms, k + 1));
  }

  /** A legal cut: every piece non-empty and bounded, and together they are the payload. */
  ghost predicate Cuts(payload: bytes, pieces: seq<bytes>, bound: nat) {
    && Flatten(pieces) == payload
    && forall i | 0 <= i < |pieces| :: 1 <= |pieces[i]| <= bound
  }

  lemma {:induction false} PiecesCut(payload: bytes, p: Params, randoms: nat -> nat, k: nat)
    ensures Cuts(payload, Pieces(payload, p, randoms, k), p.Bound())
    ensures payload != [] ==> Pieces(payload, p, randoms, k) != []
    decreases |payload|
  {
    if payload != [] {
      var n := p.Size(randoms(k), |payload|);
      PiecesCut(payload[n..], p, randoms, k + 1);
      var all := [payload[..n]] + Pieces(payload[n..], p, randoms, k + 1);
      assert all[1..] == Pieces(payload[n..], p, randoms, k + 1);
      assert payload == payload[..n] + payload[n..];
    }
  }

  function Wrap(record: bytes, pieces: seq<bytes>): (rs: seq<Record>)
    requires |record| >= 6
    ensures |rs| == |pieces|
  {
    seq(|pieces|, i requires 0 <= i < |pieces| => Record(0x16, record[1], record[2], pieces[i]))
  }

  function Payloads(rs: seq<Record>): bytes {
    if rs == [] then [] else rs[0].payload + Payloads(rs[1..])
  }

  lemma {:induction false} WrapPayloads(record: bytes, pieces: seq<bytes>)
    requires |record| >= 6
    ensures Payloads(Wrap(record, pieces)) == Flatten(pieces)
    decreases |pieces|
  {
    if pieces != [] {
      WrapPayloads(record, pieces[1..]);
      assert Wrap(record, pieces)[1..] == Wrap(record, pieces[1..]);
    }
  }

  lemma {:induction false} PieceInFlatten(pieces: seq<bytes>, i: nat)
    requires i < |pieces|
    ensures |pieces[i]| <= |Flatten(pieces)|
    decreases |pieces|
  {
    if i > 0 {
      PieceInFlatten(pieces[1..], i - 1);
    }
  }

  /**
   * Fragmentation preserves the handshake: a receiver reads records of the same type and version,
   * none empty, whose payloads concatenate to the original's (section 5.1 of RFC 8446).
   */
  lemma FragmentsReassemble(record: bytes, pieces: seq<bytes>, bound: nat)
    requires IsClientHello(record) && Cuts(record[5..], pieces, bound)
    requires |record| <= 65540 || bound < 65536
    ensures var rs := Wrap(record, pieces);
            && Records(EmitAll(rs)) == Some(rs)
            && Payloads(rs) == record[5..]
            && forall i | 0 <= i < |rs| ::
                 && rs[i].contentType == record[0] && rs[i].major == record[1] && rs[i].minor == record[2]
                 && 1 <= |rs[i].payload| <= bound
  {
    forall i | 0 <= i < |pieces|
      ensures |pieces[i]| < 65536
    {
      PieceInFlatten(pieces, i);
    }
    RecordsRoundTrip(Wrap(record, pieces));
    WrapPayloads(record, pieces);
  }

  /** The bytes a ClientHello is replaced by. */
  function Fragmented(record: bytes, pieces: seq<bytes>): bytes
    requires |record| >= 6
  {
    EmitAll(Wrap(record, pieces))
  }

  lemma {:induction false} EmitSnoc(rs: seq<Record>, r: Record)
    ensures EmitAll(rs + [r]) == EmitAll(rs) + Emit(r)
    decreases |rs|
  {
    hide Emit;
    if rs == [] {
      assert rs + [r] == [r];
      Unit(Emit(r));
    } else {
      assert (rs + [r])[1..] == rs[1..] + [r];
      EmitSnoc(rs[1..], r);
      Assoc(Emit(rs[0]), EmitAll(rs[1..]), Emit(r));
    }
  }

  lemma FragmentedSnoc(record: bytes, pieces: seq<bytes>, piece: bytes)
    requires |record| >= 6
    ensures Fragmented(record, pieces + [piece]) ==
            Fragmented(record, pieces) + Emit(Record(0x16, record[1], record[2], piece))
  {
    EmitSnoc(Wrap(record, pieces), Record(0x16, record[1], record[2], piece));
    assert Wrap(record, pieces + [piece]) ==
           Wrap(record, pieces) + [Record(0x16, record[1], record[2], piece)];
  }

  function HeaderOf(record: bytes, n: nat): bytes
    requires |record| >= 6
  {
    [0x16, record[1], record[2]] + U16(n)
  }

  lemma AppendFragment(record: bytes, pieces: seq<bytes>, slice: bytes)
    requires |record| >= 6
    ensures Fragmented(record, pieces) + HeaderOf(record, |slice|) + slice == Fragmented(record, pieces + [slice])
  {
    FragmentedSnoc(record, pieces, slice);
    Assoc(Fragmented(record, pieces), HeaderOf(record, |slice|), slice);
    assert Emit(Record(0x16, record[1], record[2], slice)) == HeaderOf(record, |slice|) + slice;
  }

  /** The fragmenting loops: `done` has been emitted to `out`, `payload[off..]` is still to be cut. */
  ghost predicate InProgress(record: bytes, p: Params, randoms: nat -> nat, off: nat, k: nat,
                             done: seq<bytes>, out: bytes)
  {
    && |record| >= 6 && off <= |record| - 5
    && done + Pieces(record[5..][off..], p, randoms, k) == Pieces(record[5..], p, randoms, 0)
    && out == Fragmented(record, done)
  }

  lemma Begun(record: bytes, p: Params, randoms: nat -> nat)
    requires |record| >= 6
    ensures InProgress(record, p, randoms, 0, 0, [], [])
  {
    assert record[5..][0..] == record[5..];
    assert [] + Pieces(record[5..], p, randoms, 0) == Pieces(record[5..], p, randoms, 0);
  }

  lemma Turned(record: bytes, p: Params, randoms: nat -> nat, off: nat, k: nat, done: seq<bytes>, out: bytes)
    requires InProgress(record, p, randoms, off, k, done, out) && off < |record| - 5
    ensures var n := p.Size(randoms(k), |record| - 5 - off);
            var slice := record[5..][off..off + n];
            InProgress(record, p, randoms, off + n, k + 1, done + [slice], out + HeaderOf(record, n) + slice)
  {
    hide Pieces;
    hide Fragmented;
    hide HeaderOf;
    var n := p.Size(randoms(k), |record| - 5 - off);
    PiecesStep(record[5..], off, p, randoms, k, done);
    AppendFragment(record, done, record[5..][off..off + n]);
  }

  lemma Ended(record: bytes, p: Params, randoms: nat -> nat, off: nat, k: nat, done: seq<bytes>, out: bytes)
    requires InProgress(record, p, randoms, off, k, done, out) && off == |record| - 5
    ensures done == Pieces(record[5..], p, randoms, 0)
    ensures out == Fragmented(record, Pieces(record[5..], p, randoms, 0))
  {
    assert record[5..][off..] == [];
    assert done + [] == done;
  }

  lemma SoFar(record: bytes, p: Params, randoms: nat -> nat, off: nat, k: nat, done: seq<bytes>, out: bytes)
    requires InProgress(record, p, randoms, off, k, done, out)
    ensures |record| >= 6 && out == Fragmented(record, done)
  {
  }

  /**
   * Builds the fragmented form in one buffer; anything but a ClientHello is returned as it is. None
   * is the panic of a range too wide to draw from.
   */
  method FragmentClientHelloToVec(record: bytes, p: Params, randoms: nat -> nat) returns (r: Option<bytes>)
    ensures r == None <==> IsClientHello(record) && p.Overflows()
    ensures r.Some? ==>
              r.value == if IsClientHello(record) then Fragmented(record, Pieces(record[5..], p, randoms, 0)) else record
  {
    hide Pieces;
    hide Fragmented;
    hide InProgress;
    hide Params.Size;
    hide Params.Bound;
    hide HeaderOf;
    hide U16;
    if |record| < 6 || record[0] != 0x16 || record[5] != 0x01 {
      return Some(record);
    }
    var payload := record[5..];
    var out := [];
    var off, k := 0, 0;
    ghost var done: seq<bytes> := [];
    Begun(record, p, randoms);
    while off < |payload|
      invariant 0 <= off <= |payload| && (off > 0 ==> !p.Overflows())
      invariant InProgress(record, p, randoms, off, k, done, out)
    {
      if p.Overflows() {
        return None;
      }
      Turned(record, p, randoms, off, k, done, out);
      var n := p.Size(randoms(k), |payload| - off);
      var slice := payload[off..off + n];
      out := out + HeaderOf(record, |slice|);
      out := out + slice;
      done := done + [slice];
      off, k := off + n, k + 1;
    }
    Ended(record, p, randoms, off, k, done, out);
    r := Some(out);
  }

  /** Every flush falls between two fragments. */
  ghost predicate FlushedAt(record: bytes, pieces: seq<bytes>, flushed: seq<bytes>)
    requires |record| >= 6
  {
    && |flushed| == |pieces|
    && forall i | 0 <= i < |flushed| :: flushed[i] == Fragmented(record, pieces[..i + 1])
  }

  lemma NothingFlushed(record: bytes)
    requires |record| >= 6
    ensures FlushedAt(record, [], [])
  {
  }

  lemma FlushedSnoc(record: bytes, pieces: seq<bytes>, slice: bytes, flushed: seq<bytes>)
    requires |record| >= 6 && FlushedAt(record, pieces, flushed)
    ensures FlushedAt(record, pieces + [slice], flushed + [Fragmented(record, pieces + [slice])])
  {
    hide Fragmented;
    var all := pieces + [slice];
    var now := flushed + [Fragmented(record, all)];
    forall i | 0 <= i < |now|
      ensures now[i] == Fragmented(record, all[..i + 1])
    {
      assert if i < |pieces| then all[..i + 1] == pieces[..i + 1] else all[..i + 1] == all;
    }
  }

  /**
   * Writes the record straight to the destination, flushing after each fragment. `flushed` lists how
   * much had been written at each flush: always a whole number of records.
   */
  method WriteFragmented(record: bytes, p: Params, randoms: nat -> nat)
    returns (written: bytes, flushed: seq<bytes>, panicked: bool)
    ensures panicked <==> IsClientHello(record) && p.Overflows()
    ensures panicked ==> written == []
    ensures !panicked ==>
              written == if IsClientHello(record) then Fragmented(record, Pieces(record[5..], p, randoms, 0)) else record
    ensures !panicked && IsClientHello(record) ==> FlushedAt(record, Pieces(record[5..], p, randoms, 0), flushed)
  {
    hide Pieces;
    hide Fragmented;
    hide FlushedAt;
    hide InProgress;
    hide Params.Size;
    hide Params.Bound;
    hide HeaderOf;
    hide U16;
    written, flushed, panicked := [], [], false;
    if !IsClientHello(record) {
      written := record;
      return;
    }
    NothingFlushed(record);
    var payload := record[5..];
    var off, k := 0, 0;
    ghost var done: seq<bytes> := [];
    Begun(record, p, randoms);
    while off < |payload|
      invariant 0 <= off <= |payload| && (if off > 0 then !p.Overflows() else written == [])
      invariant InProgress(record, p, randoms, off, k, done, written)
      invariant FlushedAt(record, done, flushed)
    {
      if p.Overflows() {
        panicked := true;
        return;
      }
      Turned(record, p, randoms, off, k, done, written);
      var n := p.Size(randoms(k), |payload| - off);
      var slice := payload[off..off + n];
      written := written + HeaderOf(record, |slice|);
      written := written + slice;
      off, k := off + n, k + 1;
      SoFar(record, p, randoms, off, k, done + [slice], written);
      FlushedSnoc(record, done, slice, flushed);
      flushed := flushed + [written];
      done := done + [slice];
    }
    Ended(record, p, randoms, off, k, done, written);
  }

  /** Splits the first record off a stream; a stream that ends early comes back whole. */
  method ReadFirstRecord(prefix: bytes, chunks: seq<bytes>)
    returns (record: bytes, extra: bytes, unread: seq<bytes>)
    requires NonEmpty(chunks)
    ensures var all := prefix + Flatten(chunks);
            && record + extra + Flatten(unread) == all
            && match RecordLen(all)
               case Some(n) => record == all[..n]
               case None => record == all && extra == []
  {
    ghost var all := prefix + Flatten(chunks);
    var buf := prefix;
    unread := chunks;
    while |buf| < 5
      invariant NonEmpty(unread) && buf + Flatten(unread) == all
      decreases |Flatten(unread)|
    {
      var r := ReadSome(unread, 2048);
      if r.0 == [] {
        Unit(buf);
        return buf, [], unread;
      }
      Assoc(buf, r.0, Flatten(r.1));
      buf, unread := buf + r.0, r.1;
    }
    var total := 5 + FromU16(buf[3], buf[4]);
    ghost var header := buf[..5];
    var open := true;
    while |buf| < total && open
      invariant NonEmpty(unread) && buf + Flatten(unread) == all
      invariant |buf| >= 5 && buf[..5] == header
      invariant !open ==> |buf| < total && Flatten(unread) == []
      decreases |Flatten(unread)|, open
    {
      var r := ReadSome(unread, 4096);
      if r.0 == [] {
        open := false;
      } else {
        Assoc(buf, r.0, Flatten(r.1));
        assert (buf + r.0)[..5] == buf[..5];
        buf, unread := buf + r.0, r.1;
      }
    }
    assert all[..5] == header;
    assert all[3] == header[3] && all[4] == header[4];
    if |buf| > total {
      record, extra := buf[..total], buf[total..];
      assert all[..total] == record && record + extra == buf;
    } else {
      record, extra := buf, [];
      Unit(buf);
    }
  }
}
