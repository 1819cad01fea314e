/** What the uplink of a Vision session delivers, told from the client's side. */
module SpliceTheorems {
  import opened Bytes
  import opened VisionCodec
  import opened Sockets
  import opened OuterTls
  import opened Splice

  /** Outer records 0..n-1 of a session, and the plaintext the TLS session opens each to. */
  ghost predicate Opens(decrypt: Opener, k: nat, records: seq<bytes>, plaintexts: seq<bytes>) {
    && |records| == |plaintexts|
    && forall i | 0 <= i < |records| ::
         RecordLen(records[i]) == Some(|records[i]|) && decrypt(k + i, records[i]) == Some(plaintexts[i])
  }

  /** No DIRECT block has ended before the last record. */
  ghost predicate FramedUntilLast(id: bytes, s: State, plaintexts: seq<bytes>)
    requires s.Valid()
  {
    forall j | 0 <= j < |plaintexts| :: Run(id, s, Flatten(plaintexts[..j])).0 != Finished(true)
  }

  lemma FirstRecord(records: seq<bytes>, raw: bytes)
    requires records != [] && RecordLen(records[0]) == Some(|records[0]|)
    ensures var stream := Flatten(records) + raw;
            && RecordLen(stream) == Some(|records[0]|)
            && stream[..|records[0]|] == records[0]
            && stream[|records[0]|..] == Flatten(records[1..]) + raw
  {
    RecordLenStable(records[0], Flatten(records[1..]) + raw);
    Assoc(records[0], Flatten(records[1..]), raw);
  }

  lemma FramedTail(id: bytes, s: State, plaintexts: seq<bytes>)
    requires s.Valid() && plaintexts != [] && FramedUntilLast(id, s, plaintexts)
    ensures s != Finished(true)
    ensures FramedUntilLast(id, Run(id, s, plaintexts[0]).0, plaintexts[1..])
  {
    hide Run;
    assert plaintexts[..0] == [];
    RunNothing(id, s);
    var rest := plaintexts[1..];
    forall j | 0 <= j < |rest|
      ensures Run(id, Run(id, s, plaintexts[0]).0, Flatten(rest[..j])).0 != Finished(true)
    {
      assert plaintexts[..j + 1] == [plaintexts[0]] + rest[..j];
      FlattenConcat([plaintexts[0]], rest[..j]);
      FlattenOne(plaintexts[0]);
      RunConcat(id, s, plaintexts[0], Flatten(rest[..j]));
    }
  }

  /** Whole records are consumed one by one; what follows them is left for the state they end in. */
  lemma {:induction false} UplinkRecords(decrypt: Opener, id: bytes, k: nat, s: State,
                                         records: seq<bytes>, plaintexts: seq<bytes>, raw: bytes)
    requires s.Valid() && Opens(decrypt, k, records, plaintexts) && FramedUntilLast(id, s, plaintexts)
    ensures var r := Run(id, s, Flatten(plaintexts));
            && Uplink(decrypt, id, k, s, Flatten(records) + raw) ==
               r.1 + Uplink(decrypt, id, k + |records|, r.0, raw)
            && Breaks(decrypt, id, k, s, Flatten(records) + raw) == Breaks(decrypt, id, k + |records|, r.0, raw)
    decreases |records|
  {
    hide Run;
    hide Uplink;
    hide Breaks;
    hide RecordLen;
    if records == [] {
      Unit(raw);
      RunNothing(id, s);
      Unit(Uplink(decrypt, id, k, s, raw));
    } else {
      var stream := Flatten(records) + raw;
      FirstRecord(records, raw);
      FramedTail(id, s, plaintexts);
      assert decrypt(k + 0, records[0]) == Some(plaintexts[0]);
      UplinkRecord(decrypt, id, k, s, stream, |records[0]|, plaintexts[0]);
      var a := Run(id, s, plaintexts[0]);
      assert Opens(decrypt, k + 1, records[1..], plaintexts[1..]) by {
        forall i | 0 <= i < |records| - 1
          ensures decrypt(k + 1 + i, records[1..][i]) == Some(plaintexts[1..][i])
        {
          assert decrypt(k + (i + 1), records[i + 1]) == Some(plaintexts[i + 1]);
        }
      }
      UplinkRecords(decrypt, id, k + 1, a.0, records[1..], plaintexts[1..], raw);
      RunConcat(id, s, plaintexts[0], Flatten(plaintexts[1..]));
      var b := Run(id, a.0, Flatten(plaintexts[1..]));
      Assoc(a.1, b.1, Uplink(decrypt, id, k + |records|, b.0, raw));
    }
  }

  /** A proper prefix of a block does not end the padded phase. */
  lemma BlockPrefixUnfinished(id: bytes, b: Block, p: bytes, q: bytes)
    requires b.Fits() && q != [] && Encode(b) == p + q
    ensures !Run(id, InHeader([]), p).0.Finished?
  {
    hide Run;
    var h := Header(b.command, |b.content|, |b.pad|);
    Unit(p);
    if |p| < 5 {
      RunHeader(id, [], p);
    } else {
      assert p[..5] == (p + q)[..5] == h;
      var body := p[5..];
      assert p == h + body;
      Unit(h);
      RunHeader(id, [], h);
      U16RoundTrip(|b.content|);
      U16RoundTrip(|b.pad|);
      AfterHeaderFields(b.command, U16(|b.content|), U16(|b.pad|));
      RunTruncatedBody(id, b.command, |b.content|, |b.pad|, body);
      RunConcat(id, InHeader([]), h, body);
    }
  }

  lemma {:induction false} PrefixUnfinished(id: bytes, bs: seq<Block>, p: bytes, q: bytes)
    requires Complete(bs) && q != [] && EncodeAll(bs) == p + q
    ensures !Run(id, InHeader([]), p).0.Finished?
    decreases |bs|
  {
    hide Run;
    hide Encode;
    var b, rest := bs[0], bs[1..];
    var e := Encode(b);
    assert e + EncodeAll(rest) == p + q;
    if |p| < |e| {
      assert p == e[..|p|] by { assert (p + q)[..|p|] == p; }
      assert e == p + e[|p|..];
      BlockPrefixUnfinished(id, b, p, e[|p|..]);
    } else {
      var p' := p[|e|..];
      assert p == e + p' by { assert (p + q)[..|e|] == e; }
      assert EncodeAll(rest) == p' + q by { assert (e + EncodeAll(rest))[|e|..] == (p + q)[|e|..] == p' + q; }
      RunBlock(id, b);
      RunConcat(id, InHeader([]), e, p');
      assert |p' + q| > 0;
      assert rest[..|rest| - 1] == bs[..|bs| - 1][1..];
      assert bs[..|bs| - 1][0] == b;
      PrefixUnfinished(id, rest, p', q);
    }
  }

  /** Until the last byte of its last block, a padded stream is still padded. */
  lemma PaddedUntilEnd(id: bytes, bs: seq<Block>, tail: bytes, p: bytes, q: bytes)
    requires |id| == 16 && Complete(bs) && id + EncodeAll(bs) + tail == p + q
    requires |p| < 16 + |EncodeAll(bs)|
    ensures !Run(id, Starting([]), p).0.Finished?
  {
    hide Run;
    hide EncodeAll;
    var e := EncodeAll(bs);
    Unit(p);
    RunStarting(id, [], p);
    if |p| >= 21 {
      assert (p + q)[..|p|] == p;
      assert (id + e + tail)[..|p|] == id + e[..|p| - 16];
      var x := e[..|p| - 16];
      assert p[16..] == x && p[..16] == id;
      assert e == x + e[|x|..];
      PrefixUnfinished(id, bs, x, e[|x|..]);
    }
  }

  lemma FlattenPrefix(chunks: seq<bytes>, j: nat)
    requires j <= |chunks|
    ensures Flatten(chunks) == Flatten(chunks[..j]) + Flatten(chunks[j..])
  {
    hide Flatten;
    assert chunks[..j] + chunks[j..] == chunks;
    FlattenConcat(chunks[..j], chunks[j..]);
  }

  /**
   * The uplink splice loses nothing. The client pads into records, its DIRECT block ends inside the
   * last of them, and raw bytes follow: the target gets the content, the rest of that last record,
   * and the raw bytes.
   */
  lemma UplinkSpliceLossless(decrypt: Opener, id: bytes, leftover: bytes, records: seq<bytes>,
                             plaintexts: seq<bytes>, bs: seq<Block>, tail: bytes, raw: bytes)
    requires |id| == 16 && Opens(decrypt, 0, records, plaintexts)
    requires Complete(bs) && bs[|bs| - 1].command == DIRECT
    requires leftover + Flatten(plaintexts) == id + EncodeAll(bs) + tail
    requires forall j | 0 <= j < |plaintexts| :: |leftover| + |Flatten(plaintexts[..j])| < 16 + |EncodeAll(bs)|
    ensures UplinkFrom(decrypt, id, leftover, Flatten(records) + raw) == Contents(bs) + tail + raw
    ensures !BreaksFrom(decrypt, id, leftover, Flatten(records) + raw)
  {
    hide Run;
    hide Uplink;
    hide Breaks;
    hide EncodeAll;
    hide Opens;
    var a := Run(id, Starting([]), leftover);
    forall j | 0 <= j < |plaintexts|
      ensures Run(id, a.0, Flatten(plaintexts[..j])).0 != Finished(true)
    {
      var p := leftover + Flatten(plaintexts[..j]);
      FlattenPrefix(plaintexts, j);
      Assoc(leftover, Flatten(plaintexts[..j]), Flatten(plaintexts[j..]));
      PaddedUntilEnd(id, bs, tail, p, Flatten(plaintexts[j..]));
      RunConcat(id, Starting([]), leftover, Flatten(plaintexts[..j]));
    }
    UplinkRecords(decrypt, id, 0, a.0, records, plaintexts, raw);
    RunConcat(id, Starting([]), leftover, Flatten(plaintexts));
    PaddingRoundTrip(id, bs, tail);
    var b := Run(id, a.0, Flatten(plaintexts));
    UplinkRaw(decrypt, id, |records|, raw);
    Assoc(a.1, b.1, raw);
  }

  /** A session that ends its padding with END stays inside the outer TLS to its last record. */
  lemma UplinkFramedLossless(decrypt: Opener, id: bytes, leftover: bytes, records: seq<bytes>,
                             plaintexts: seq<bytes>, bs: seq<Block>, tail: bytes)
    requires |id| == 16 && Opens(decrypt, 0, records, plaintexts)
    requires Complete(bs) && bs[|bs| - 1].command != DIRECT
    requires leftover + Flatten(plaintexts) == id + EncodeAll(bs) + tail
    ensures UplinkFrom(decrypt, id, leftover, Flatten(records)) == Contents(bs) + tail
    ensures !BreaksFrom(decrypt, id, leftover, Flatten(records))
  {
    hide Run;
    hide Uplink;
    hide Breaks;
    hide EncodeAll;
    hide Opens;
    var a := Run(id, Starting([]), leftover);
    RunConcat(id, Starting([]), leftover, Flatten(plaintexts));
    PaddingRoundTrip(id, bs, tail);
    forall j | 0 <= j < |plaintexts|
      ensures Run(id, a.0, Flatten(plaintexts[..j])).0 != Finished(true)
    {
      FlattenPrefix(plaintexts, j);
      RunConcat(id, a.0, Flatten(plaintexts[..j]), Flatten(plaintexts[j..]));
      RunVerbatim(id, Finished(true), Flatten(plaintexts[j..]));
    }
    UplinkRecords(decrypt, id, 0, a.0, records, plaintexts, []);
    Unit(Flatten(records));
    var b := Run(id, a.0, Flatten(plaintexts));
    UplinkStops(decrypt, id, |records|, b.0, []);
    Unit(b.1);
  }

  // -------------------------------------------------------- sessions, end to end

  /**
   * What one client sends after the bytes already decrypted: outer records, the plaintext of each, the
   * padded blocks in it, the plaintext after the last block, and raw bytes after the last record.
   */
  datatype Session = Session(records: seq<bytes>, plaintexts: seq<bytes>, blocks: seq<Block>, tail: bytes, raw: bytes) {
    /** A client that pads until its END or DIRECT block, and goes raw at the end of the record DIRECT ends in. */
    ghost predicate Sound(decrypt: Opener, id: bytes, leftover: bytes) {
      && Opens(decrypt, 0, records, plaintexts)
      && Complete(blocks)
      && leftover + Flatten(plaintexts) == id + EncodeAll(blocks) + tail
      && if blocks[|blocks| - 1].command == DIRECT then
           forall j | 0 <= j < |plaintexts| :: |leftover| + |Flatten(plaintexts[..j])| < 16 + |EncodeAll(blocks)|
         else raw == []
    }

    /** The application's own bytes. */
    function Payload(): bytes {
      Contents(blocks) + tail + raw
    }
  }

  lemma SessionOwed(decrypt: Opener, id: bytes, leftover: bytes, s: Session)
    requires |id| == 16 && s.Sound(decrypt, id, leftover)
    ensures UplinkFrom(decrypt, id, leftover, Flatten(s.records) + s.raw) == s.Payload()
    ensures !BreaksFrom(decrypt, id, leftover, Flatten(s.records) + s.raw)
  {
    hide UplinkFrom;
    hide BreaksFrom;
    hide EncodeAll;
    hide Opens;
    if s.blocks[|s.blocks| - 1].command == DIRECT {
      UplinkSpliceLossless(decrypt, id, leftover, s.records, s.plaintexts, s.blocks, s.tail, s.raw);
    } else {
      UplinkFramedLossless(decrypt, id, leftover, s.records, s.plaintexts, s.blocks, s.tail);
      Unit(Flatten(s.records));
      Unit(Contents(s.blocks) + s.tail);
    }
  }

  /**
   * Both directions end to end: however the client's stream is cut, whatever the target sends and
   * however the two are scheduled, the target gets the application's bytes and nothing else, the client
   * what the target sent and nothing else, and after more turns than bytes each has all of it.
   */
  method DeliverSession(decrypt: Opener, tcp: seq<bytes>, inbuf: bytes, fromTarget: seq<bytes>,
                        leftover: bytes, uuid: bytes, turns: seq<Turn>, ghost s: Session)
    returns (r: Relayed)
    requires |uuid| == 16 && NonEmpty(tcp) && NonEmpty(fromTarget)
    requires s.Sound(decrypt, uuid, leftover) && inbuf + Flatten(tcp) == Flatten(s.records) + s.raw
    ensures r.toTarget <= s.Payload()
    ensures r.uplinkOver ==> r.toTarget == s.Payload()
    ensures Ups(turns) > |inbuf + Flatten(tcp)| ==> r.toTarget == s.Payload()
    ensures !r.failed && Received(uuid, r.sent) <= Flatten(fromTarget)
    ensures Downs(turns) > |Flatten(fromTarget)| ==> Received(uuid, r.sent) == Flatten(fromTarget)
  {
    hide UplinkFrom;
    hide BreaksFrom;
    hide Session.Sound;
    hide Session.Payload;
    hide Flatten;
    hide Ups;
    hide Downs;
    hide Shape;
    hide Received;
    hide ClientState;
    SessionOwed(decrypt, uuid, leftover, s);
    r := VisionServerSplice(decrypt, tcp, inbuf, fromTarget, leftover, uuid, turns);
    assert turns[..|turns|] == turns;
  }
}
