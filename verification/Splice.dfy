/** The Vision data plane of the server: both directions, and their switch to the raw socket. */
module Splice {
  import opened Bytes
  import opened VisionCodec
  import opened VisionFilter
  import opened Sockets
  import opened OuterTls

  // ------------------------------------------------ uplink: what it must deliver

  /**
   * The bytes the target is owed by a client stream: unpadded record by record until a DIRECT
   * block has ended, then the rest of the stream as it is. A cut-off or rejected record ends it.
   */
  function Uplink(decrypt: Opener, id: bytes, k: nat, s: State, stream: bytes): bytes
    requires s.Valid()
    decreases |stream|
  {
    if s == Finished(true) then stream
    else
      match RecordLen(stream)
      case None => []
      case Some(n) =>
        match decrypt(k, stream[..n])
        case None => []
        case Some(plaintext) =>
          var r := Run(id, s, plaintext);
          r.1 + Uplink(decrypt, id, k + 1, r.0, stream[n..])
  }

  /** The client's stream ends inside a record, or holds one that is rejected, before it is raw. */
  predicate Breaks(decrypt: Opener, id: bytes, k: nat, s: State, stream: bytes)
    requires s.Valid()
    decreases |stream|
  {
    s != Finished(true) &&
    match RecordLen(stream)
    case None => stream != []
    case Some(n) =>
      match decrypt(k, stream[..n])
      case None => true
      case Some(plaintext) => Breaks(decrypt, id, k + 1, Run(id, s, plaintext).0, stream[n..])
  }

  /** What the target has at least after `n` turns of the uplink: one record each, or one raw byte. */
  function Promised(decrypt: Opener, id: bytes, k: nat, s: State, stream: bytes, n: nat): bytes
    requires s.Valid()
    decreases n
  {
    if n == 0 then []
    else if s == Finished(true) then stream[..Min(n, |stream|)]
    else
      match RecordLen(stream)
      case None => []
      case Some(len) =>
        match decrypt(k, stream[..len])
        case None => []
        case Some(plaintext) =>
          var r := Run(id, s, plaintext);
          r.1 + Promised(decrypt, id, k + 1, r.0, stream[len..], n - 1)
  }

  /** The same from the start of a session, whose first plaintext was already decrypted. */
  function UplinkFrom(decrypt: Opener, id: bytes, leftover: bytes, stream: bytes): bytes {
    var r := Run(id, Starting([]), leftover);
    r.1 + Uplink(decrypt, id, 0, r.0, stream)
  }

  predicate BreaksFrom(decrypt: Opener, id: bytes, leftover: bytes, stream: bytes) {
    Breaks(decrypt, id, 0, Run(id, Starting([]), leftover).0, stream)
  }

  function PromisedFrom(decrypt: Opener, id: bytes, leftover: bytes, stream: bytes, n: nat): bytes {
    var r := Run(id, Starting([]), leftover);
    r.1 + Promised(decrypt, id, 0, r.0, stream, n)
  }

  lemma FromStart(decrypt: Opener, id: bytes, leftover: bytes, stream: bytes)
    ensures var r := Run(id, Starting([]), leftover);
            && UplinkFrom(decrypt, id, leftover, stream) == r.1 + Uplink(decrypt, id, 0, r.0, stream)
            && BreaksFrom(decrypt, id, leftover, stream) == Breaks(decrypt, id, 0, r.0, stream)
            && forall n: nat ::
                 PromisedFrom(decrypt, id, leftover, stream, n) == r.1 + Promised(decrypt, id, 0, r.0, stream, n)
  {
  }

  lemma {:induction false} PromisedIsOwed(decrypt: Opener, id: bytes, k: nat, s: State, stream: bytes, n: nat)
    requires s.Valid()
    ensures Promised(decrypt, id, k, s, stream, n) <= Uplink(decrypt, id, k, s, stream)
    decreases n
  {
    hide Run;
    if n > 0 && s != Finished(true) && RecordLen(stream).Some? {
      var len := RecordLen(stream).value;
      if decrypt(k, stream[..len]).Some? {
        var r := Run(id, s, decrypt(k, stream[..len]).value);
        PromisedIsOwed(decrypt, id, k + 1, r.0, stream[len..], n - 1);
      }
    }
  }

  lemma PromisedRaw(decrypt: Opener, id: bytes, k: nat, got: bytes, stream: bytes, n: nat)
    ensures got != [] ==> Promised(decrypt, id, k, Finished(true), got + stream, n + 1) <=
                          got + Promised(decrypt, id, k, Finished(true), stream, n)
    ensures Promised(decrypt, id, k, Finished(true), got + stream, n) <=
            got + Promised(decrypt, id, k, Finished(true), stream, n)
  {
  }

  lemma PromisedRecord(decrypt: Opener, id: bytes, k: nat, s: State, stream: bytes, len: nat, plaintext: bytes, n: nat)
    requires s.Valid() && s != Finished(true)
    requires RecordLen(stream) == Some(len) && decrypt(k, stream[..len]) == Some(plaintext)
    ensures var r := Run(id, s, plaintext);
            Promised(decrypt, id, k, s, stream, n + 1) == r.1 + Promised(decrypt, id, k + 1, r.0, stream[len..], n)
  {
  }

  /** With `toTarget` delivered after `ups` turns, the rest of the stream still makes every later promise good. */
  ghost predicate KeepsPace(promised: nat -> bytes, ups: nat, toTarget: bytes,
                            decrypt: Opener, id: bytes, k: nat, s: State, stream: bytes)
    requires s.Valid()
  {
    forall n: nat :: promised(ups + n) <= toTarget + Promised(decrypt, id, k, s, stream, n)
  }

  lemma PaceStarts(promised: nat -> bytes, toTarget: bytes, decrypt: Opener, id: bytes, s: State, stream: bytes)
    requires s.Valid() && forall n: nat :: promised(n) == toTarget + Promised(decrypt, id, 0, s, stream, n)
    ensures KeepsPace(promised, 0, toTarget, decrypt, id, 0, s, stream)
  {
    hide Promised;
  }

  /** One record further the pace is kept. */
  lemma PaceRecord(promised: nat -> bytes, ups: nat, toTarget: bytes,
                   decrypt: Opener, id: bytes, k: nat, s: State, stream: bytes, len: nat, plaintext: bytes)
    requires s.Valid() && s != Finished(true)
    requires RecordLen(stream) == Some(len) && decrypt(k, stream[..len]) == Some(plaintext)
    requires KeepsPace(promised, ups, toTarget, decrypt, id, k, s, stream)
    ensures var r := Run(id, s, plaintext);
            KeepsPace(promised, ups + 1, toTarget + r.1, decrypt, id, k + 1, r.0, stream[len..])
  {
    hide Run;
    hide Promised;
    hide RecordLen;
    var r, next, rest := Run(id, s, plaintext), k + 1, stream[len..];
    forall n: nat
      ensures promised(ups + 1 + n) <= (toTarget + r.1) + Promised(decrypt, id, next, r.0, rest, n)
    {
      PromisedRecord(decrypt, id, k, s, stream, len, plaintext, n);
      assert promised(ups + (n + 1)) <= toTarget + Promised(decrypt, id, k, s, stream, n + 1);
      Assoc(toTarget, r.1, Promised(decrypt, id, next, r.0, rest, n));
    }
  }

  /** So it is after raw bytes, handed over without a turn or taken in one. */
  lemma PaceRaw(promised: nat -> bytes, ups: nat, toTarget: bytes,
                decrypt: Opener, id: bytes, k: nat, got: bytes, rest: bytes)
    requires KeepsPace(promised, ups, toTarget, decrypt, id, k, Finished(true), got + rest)
    ensures KeepsPace(promised, ups, toTarget + got, decrypt, id, k, Finished(true), rest)
  {
    hide Promised;
    forall n: nat
      ensures promised(ups + n) <= (toTarget + got) + Promised(decrypt, id, k, Finished(true), rest, n)
    {
      PromisedRaw(decrypt, id, k, got, rest, n);
      assert promised(ups + n) <= toTarget + Promised(decrypt, id, k, Finished(true), got + rest, n);
      Assoc(toTarget, got, Promised(decrypt, id, k, Finished(true), rest, n));
    }
  }

  lemma PaceRawTurn(promised: nat -> bytes, ups: nat, toTarget: bytes,
                    decrypt: Opener, id: bytes, k: nat, got: bytes, rest: bytes)
    requires KeepsPace(promised, ups, toTarget, decrypt, id, k, Finished(true), got + rest) && got != []
    ensures KeepsPace(promised, ups + 1, toTarget + got, decrypt, id, k, Finished(true), rest)
  {
    hide Promised;
    forall n: nat
      ensures promised(ups + 1 + n) <= (toTarget + got) + Promised(decrypt, id, k, Finished(true), rest, n)
    {
      PromisedRaw(decrypt, id, k, got, rest, n);
      assert promised(ups + (n + 1)) <= toTarget + Promised(decrypt, id, k, Finished(true), got + rest, n + 1);
      Assoc(toTarget, got, Promised(decrypt, id, k, Finished(true), rest, n));
    }
  }

  lemma PaceNow(promised: nat -> bytes, ups: nat, toTarget: bytes,
                decrypt: Opener, id: bytes, k: nat, s: State, stream: bytes)
    requires s.Valid() && KeepsPace(promised, ups, toTarget, decrypt, id, k, s, stream)
    ensures promised(ups) <= toTarget
  {
    assert promised(ups + 0) <= toTarget + Promised(decrypt, id, k, s, stream, 0);
    Unit(toTarget);
  }

  lemma PromisedFromOwed(decrypt: Opener, id: bytes, leftover: bytes, stream: bytes, n: nat)
    ensures PromisedFrom(decrypt, id, leftover, stream, n) <= UplinkFrom(decrypt, id, leftover, stream)
  {
    hide Run;
    hide Uplink;
    hide Promised;
    PromisedIsOwed(decrypt, id, 0, Run(id, Starting([]), leftover).0, stream, n);
  }

  lemma UplinkRaw(decrypt: Opener, id: bytes, k: nat, stream: bytes)
    ensures Uplink(decrypt, id, k, Finished(true), stream) == stream && !Breaks(decrypt, id, k, Finished(true), stream)
  {
  }

  lemma UplinkStops(decrypt: Opener, id: bytes, k: nat, s: State, stream: bytes)
    requires s.Valid() && s != Finished(true)
    requires match RecordLen(stream) case None => true case Some(n) => decrypt(k, stream[..n]) == None
    ensures Uplink(decrypt, id, k, s, stream) == [] && (Breaks(decrypt, id, k, s, stream) <==> stream != [])
  {
  }

  lemma UplinkRecord(decrypt: Opener, id: bytes, k: nat, s: State, stream: bytes, n: nat, plaintext: bytes)
    requires s.Valid() && s != Finished(true)
    requires RecordLen(stream) == Some(n) && decrypt(k, stream[..n]) == Some(plaintext)
    ensures var r := Run(id, s, plaintext);
            && Uplink(decrypt, id, k, s, stream) == r.1 + Uplink(decrypt, id, k + 1, r.0, stream[n..])
            && Breaks(decrypt, id, k, s, stream) == Breaks(decrypt, id, k + 1, r.0, stream[n..])
  {
  }

  // --------------------------------------------- downlink: what the client gets

  function SealedBytes(sent: seq<Sent>): bytes {
    if sent == [] then []
    else SealedBytes(sent[..|sent| - 1]) + (if sent[|sent| - 1].Sealed? then sent[|sent| - 1].plaintext else [])
  }

  function ClearBytes(sent: seq<Sent>): bytes {
    if sent == [] then []
    else ClearBytes(sent[..|sent| - 1]) + (if sent[|sent| - 1].Clear? then sent[|sent| - 1].data else [])
  }

  /** Once bytes go out in the clear, nothing is sealed any more. */
  ghost predicate SwitchesOnce(sent: seq<Sent>) {
    forall i, j | 0 <= i < j < |sent| :: sent[i].Clear? ==> sent[j].Clear?
  }

  lemma SentSnoc(sent: seq<Sent>, x: Sent)
    ensures SealedBytes(sent + [x]) == SealedBytes(sent) + (if x.Sealed? then x.plaintext else [])
    ensures ClearBytes(sent + [x]) == ClearBytes(sent) + (if x.Clear? then x.data else [])
  {
    var all := sent + [x];
    assert all[..|all| - 1] == sent && all[|all| - 1] == x;
  }

  /** What a client makes of the connection: it unpads the sealed bytes and keeps the clear ones. */
  function ClientState(id: bytes, sent: seq<Sent>): (s: State)
    ensures s.Valid()
  {
    Run(id, Starting([]), SealedBytes(sent)).0
  }

  function Received(id: bytes, sent: seq<Sent>): bytes {
    Run(id, Starting([]), SealedBytes(sent)).1 + ClearBytes(sent)
  }

  ghost predicate AllSealed(sent: seq<Sent>) {
    forall i | 0 <= i < |sent| :: sent[i].Sealed?
  }

  lemma {:induction false} AllSealedClear(sent: seq<Sent>)
    requires AllSealed(sent)
    ensures ClearBytes(sent) == []
    decreases |sent|
  {
    if sent != [] {
      AllSealedClear(sent[..|sent| - 1]);
    }
  }

  /** A client past its DIRECT block takes clear bytes as they come. */
  lemma SendClear(id: bytes, sent: seq<Sent>, data: bytes)
    ensures ClientState(id, sent + [Clear(data)]) == ClientState(id, sent)
    ensures Received(id, sent + [Clear(data)]) == Received(id, sent) + data
    ensures SwitchesOnce(sent) ==> SwitchesOnce(sent + [Clear(data)])
  {
    hide Run;
    SentSnoc(sent, Clear(data));
    Unit(SealedBytes(sent));
    Assoc(Run(id, Starting([]), SealedBytes(sent)).1, ClearBytes(sent), data);
  }

  /** Sealed bytes advance the client's unpadding by one run. */
  lemma SendSealed(id: bytes, sent: seq<Sent>, data: bytes)
    requires AllSealed(sent)
    ensures var r := Run(id, ClientState(id, sent), data);
            && ClientState(id, sent + [Sealed(data)]) == r.0
            && Received(id, sent + [Sealed(data)]) == Received(id, sent) + r.1
    ensures AllSealed(sent + [Sealed(data)]) && SwitchesOnce(sent + [Sealed(data)])
  {
    hide Run;
    SentSnoc(sent, Sealed(data));
    AllSealedClear(sent);
    AllSealedClear(sent + [Sealed(data)]);
    RunConcat(id, Starting([]), SealedBytes(sent), data);
    Unit(Received(id, sent));
    Unit(Received(id, sent + [Sealed(data)]));
    Unit(Run(id, Starting([]), SealedBytes(sent)).1);
    Unit(Run(id, Starting([]), SealedBytes(sent + [Sealed(data)])).1);
  }

  /** The first block of a direction, which the UUID introduces. */
  lemma SendFirstBlock(id: bytes, b: Block)
    requires |id| == 16 && b.Fits()
    ensures Run(id, Starting([]), id + Encode(b)) == (BlockDone(b.command), b.content)
  {
    hide Run;
    hide Encode;
    assert EncodeAll([b]) == Encode(b) + EncodeAll([]);
    Unit(Encode(b));
    Unit(id + Encode(b));
    PaddedStreamStarts(id, [b], []);
    RunBlock(id, b);
  }

  // ------------------------------------------------- what the filter inspected

  datatype Seen = FromClient(data: bytes) | FromTarget(data: bytes)

  function Buffers(seen: seq<Seen>): seq<bytes> {
    seq(|seen|, i requires 0 <= i < |seen| => seen[i].data)
  }

  function ClientPart(seen: seq<Seen>): bytes {
    if seen == [] then []
    else ClientPart(seen[..|seen| - 1]) + (if seen[|seen| - 1].FromClient? then seen[|seen| - 1].data else [])
  }

  function TargetPart(seen: seq<Seen>): bytes {
    if seen == [] then []
    else TargetPart(seen[..|seen| - 1]) + (if seen[|seen| - 1].FromTarget? then seen[|seen| - 1].data else [])
  }

  lemma SeenSnoc(seen: seq<Seen>, x: Seen)
    ensures Buffers(seen + [x]) == Buffers(seen) + [x.data]
    ensures ClientPart(seen + [x]) == ClientPart(seen) + (if x.FromClient? then x.data else [])
    ensures TargetPart(seen + [x]) == TargetPart(seen) + (if x.FromTarget? then x.data else [])
  {
    var all := seen + [x];
    assert all[..|all| - 1] == seen && all[|all| - 1] == x;
  }

  /**
   * Some inspected buffer opened a ServerHello record, and the TLS 1.3 marker lay in the last one, within
   * the record's length counted over the buffers of both sides; the cipher suite may be spliced.
   */
  ghost predicate Spliceable(seen: seq<Seen>) {
    seen != [] && Marked(Buffers(seen)) && LastCipher(Buffers(seen)) != CCM8
  }

  /** Buffer i opened a ServerHello record and none after it did. */
  ghost predicate LatestOpener(seen: seq<Seen>, i: nat) {
    && i < |seen| && OpensServerHello(seen[i].data)
    && forall k | i < k < |seen| :: !OpensServerHello(seen[k].data)
  }

  /** The latest opener and the last buffer come from the same side. */
  ghost predicate OneSided(seen: seq<Seen>) {
    exists i: nat :: LatestOpener(seen, i) && seen[i].FromClient? == seen[|seen| - 1].FromClient?
  }

  /** How many bytes came from one side. */
  function SideBytes(seen: seq<Seen>, client: bool): nat {
    if seen == [] then 0
    else
      var last := seen[|seen| - 1];
      SideBytes(seen[..|seen| - 1], client) + (if last.FromClient? == client then |last.data| else 0)
  }

  /** The marker lay in the last buffer and in the record that buffer i opened, on its own side of the traffic. */
  ghost predicate InOwnRecord(seen: seq<Seen>, i: nat) {
    && LatestOpener(seen, i)
    && var last := seen[|seen| - 1];
       && last.FromClient? == seen[i].FromClient?
       && var before := SideBytes(seen[i..|seen| - 1], last.FromClient?);
          && before < Declared(seen[i].data)
          && Contains(last.data[..Min(Declared(seen[i].data) - before, |last.data|)], MARKER)
  }

  lemma {:induction false} SideIsPart(seen: seq<Seen>, client: bool)
    ensures SideBytes(seen, client) <= Total(Buffers(seen))
    decreases |seen|
  {
    if seen != [] {
      SideIsPart(seen[..|seen| - 1], client);
      assert Init(Buffers(seen)) == Buffers(seen[..|seen| - 1]);
    }
  }

  lemma LongerContains(b: bytes, m: nat, n: nat)
    requires m <= n <= |b| && Contains(b[..m], MARKER)
    ensures Contains(b[..n], MARKER)
  {
    var k :| 0 <= k <= |b[..m]| && At(b[..m], MARKER, k);
    assert b[..n][k..k + |MARKER|] == b[..m][k..k + |MARKER|];
    assert At(b[..n], MARKER, k);
  }

  lemma MarkerInWindow(seen: seq<Seen>, i: nat)
    requires seen != [] && Marked(Buffers(seen)) && LatestOpener(seen, i)
    ensures var before := Total(Buffers(seen[i..|seen| - 1]));
            var last := seen[|seen| - 1].data;
            before < Declared(seen[i].data) &&
            Contains(last[..Min(Declared(seen[i].data) - before, |last|)], MARKER)
  {
    var bs := Buffers(seen);
    var j := DueHasOpener(bs);
    assert i == j by {
      assert OpensServerHello(bs[i]) && OpensServerHello(seen[j].data);
    }
    assert bs[i..|bs| - 1] == Buffers(seen[i..|seen| - 1]);
  }

  /**
   * The filter is shared by both directions, so a positive verdict is no proof of a TLS 1.3 ServerHello:
   * the marker lay in the opened record itself exactly when opener and last buffer come from one side.
   */
  lemma OwnRecordExactly(seen: seq<Seen>)
    requires seen != [] && Marked(Buffers(seen))
    ensures (exists i: nat :: InOwnRecord(seen, i)) <==> OneSided(seen)
  {
    hide Marked;
    hide Contains;
    hide SideBytes;
    hide Total;
    hide Declared;
    if OneSided(seen) {
      var i: nat :| LatestOpener(seen, i) && seen[i].FromClient? == seen[|seen| - 1].FromClient?;
      MarkerInWindow(seen, i);
      var part := seen[i..|seen| - 1];
      SideIsPart(part, seen[i].FromClient?);
      var last := seen[|seen| - 1].data;
      var total, own, all := Total(Buffers(part)), SideBytes(part, seen[i].FromClient?), Declared(seen[i].data);
      LongerContains(last, Min(all - total, |last|), Min(all - own, |last|));
      assert InOwnRecord(seen, i);
    }
  }

  /** The first six bytes of a ServerHello record of 105 bytes. */
  const OPENER: bytes := [0x16, 0x03, 0x03, 0x00, 0x64, 0x02]

  lemma OpenerGoesOn()
    ensures Left([OPENER]) == 99 && !Stops([OPENER]) && LastCipher([OPENER]) == 0
  {
    assert Last([OPENER]) == OPENER && Init([OPENER]) == [];
    assert OPENER[..6] == OPENER;
    assert OPENER[0..6][0] != MARKER[0];
  }

  lemma MarkerIsSeen()
    ensures Marked([OPENER, MARKER]) && LastCipher([OPENER, MARKER]) == 0
  {
    var bs := [OPENER, MARKER];
    assert Last(bs) == MARKER && Init(bs) == [OPENER];
    OpenerGoesOn();
    assert Due(bs) == 99;
    assert MARKER[..6] == MARKER && At(MARKER, MARKER, 0);
  }

  /** Traffic that is spliced though no ServerHello holds the marker: the target opens, the client marks. */
  method MixedTrafficSplices() returns (enableXtls: bool, ghost seen: seq<Seen>)
    ensures seen == [FromTarget(OPENER), FromClient(MARKER)]
    ensures enableXtls && Spliceable(seen) && !exists i: nat :: InOwnRecord(seen, i)
  {
    hide Left;
    hide Due;
    hide Marked;
    hide LastCipher;
    seen := [FromTarget(OPENER), FromClient(MARKER)];
    assert Buffers(seen) == [OPENER, MARKER];
    OpenerGoesOn();
    MarkerIsSeen();
    var filter := new FilterState();
    assert [] + [OPENER] == [OPENER] && [OPENER] + [MARKER] == [OPENER, MARKER];
    filter.Filter(OPENER, []);
    filter.Filter(MARKER, [OPENER]);
    enableXtls := filter.enableXtls;
    OwnRecordExactly(seen);
    assert !OneSided(seen) by {
      assert OpensServerHello(seen[0].data) && !OpensServerHello(seen[1].data);
    }
  }

  /**
   * The shape of the sealed bytes: UUID and CONTINUE blocks; then, once padding is over, one last
   * block, and bare plaintext behind it only if that block was END.
   */
  ghost predicate Shape(id: bytes, sealed: bytes, blocks: seq<Block>, bare: bytes, padding: bool, spliced: bool) {
    && sealed == (if blocks == [] then [] else id + EncodeAll(blocks)) + bare
    && (padding ==> Continuing(blocks) && bare == [] && !spliced)
    && (!padding ==> Complete(blocks) && blocks[|blocks| - 1].command == (if spliced then DIRECT else END))
    && (spliced ==> bare == [])
  }

  lemma ShapeBlock(id: bytes, sealed: bytes, blocks: seq<Block>, b: Block)
    requires Shape(id, sealed, blocks, [], true, false) && b.Fits() && b.command <= DIRECT
    ensures Shape(id, sealed + (if blocks == [] then id + Encode(b) else Encode(b)), blocks + [b], [],
                  b.command == CONTINUE, b.command == DIRECT)
  {
    hide Encode;
    EncodeSnoc(blocks, b);
    if b.command != CONTINUE {
      CompleteSnoc(blocks, b);
    }
    Unit(sealed);
    Unit(id + EncodeAll(blocks + [b]));
    if blocks == [] {
      Unit(Encode(b));
      Unit(id + Encode(b));
    } else {
      Assoc(id, EncodeAll(blocks), Encode(b));
    }
  }

  lemma ShapeBare(id: bytes, sealed: bytes, blocks: seq<Block>, bare: bytes, data: bytes)
    requires Shape(id, sealed, blocks, bare, false, false)
    ensures Shape(id, sealed + data, blocks, bare + data, false, false)
  {
    hide EncodeAll;
    Assoc(if blocks == [] then [] else id + EncodeAll(blocks), bare, data);
  }

  /** The padded phase ends with whole application-data records of a TLS session. */
  ghost predicate EndsPadding(isTls: bool, chunk: bytes) {
    isTls && |chunk| >= 6 && exists bodies :: Tiled(chunk, bodies)
  }

  /** The inspected buffers are the front of the traffic, and all of it while inspection lasts. */
  ghost predicate InStep(seen: seq<Seen>, toTarget: bytes, taken: bytes, inspecting: bool,
                         upSpliced: bool, downSpliced: bool)
  {
    && ClientPart(seen) <= toTarget
    && TargetPart(seen) <= taken
    && (inspecting && !upSpliced ==> ClientPart(seen) == toTarget)
    && (inspecting && !downSpliced ==> TargetPart(seen) == taken)
  }

  /** More traffic from the target that the filter is not shown: it has stopped looking, or the downlink is raw. */
  lemma InStepSkipped(seen: seq<Seen>, toTarget: bytes, taken: bytes, chunk: bytes, inspecting: bool, up: bool)
    ensures InStep(seen, toTarget, taken, inspecting, up, true) ==>
              InStep(seen, toTarget, taken + chunk, inspecting, up, true)
    ensures InStep(seen, toTarget, taken, false, up, false) ==>
              forall down: bool :: InStep(seen, toTarget, taken + chunk, false, up, down)
  {
    hide ClientPart;
    hide TargetPart;
    if TargetPart(seen) <= taken {
      PrefixGrows(TargetPart(seen), taken, chunk);
    }
  }

  /** More traffic from the target that the filter is shown. */
  lemma InStepShown(seen: seq<Seen>, toTarget: bytes, taken: bytes, chunk: bytes, up: bool)
    ensures InStep(seen, toTarget, taken, true, up, false) ==>
              forall inspecting: bool, down: bool ::
                InStep(seen + [FromTarget(chunk)], toTarget, taken + chunk, inspecting, up, down)
  {
    SeenSnoc(seen, FromTarget(chunk));
    Unit(ClientPart(seen));
  }

  // ------------------------------------------------------------- scheduling

  /** Whose turn it is: the scheduler's choice among the branches that can run. */
  datatype Turn = UplinkReady | DownlinkReady(draw: nat) | UplinkPartial

  function Ups(turns: seq<Turn>): nat {
    if turns == [] then 0
    else Ups(turns[..|turns| - 1]) + (if turns[|turns| - 1].UplinkReady? then 1 else 0)
  }

  function Downs(turns: seq<Turn>): nat {
    if turns == [] then 0
    else Downs(turns[..|turns| - 1]) + (if turns[|turns| - 1].DownlinkReady? then 1 else 0)
  }

  lemma CountSnoc(turns: seq<Turn>, i: nat)
    requires i < |turns|
    ensures Ups(turns[..i + 1]) == Ups(turns[..i]) + (if turns[i].UplinkReady? then 1 else 0)
    ensures Downs(turns[..i + 1]) == Downs(turns[..i]) + (if turns[i].DownlinkReady? then 1 else 0)
  {
    var t := turns[..i + 1];
    assert t[..|t| - 1] == turns[..i] && t[|t| - 1] == turns[i];
  }

  lemma {:induction false} CountSplit(turns: seq<Turn>, i: nat)
    requires i <= |turns|
    ensures Ups(turns) == Ups(turns[..i]) + Ups(turns[i..])
    ensures Downs(turns) == Downs(turns[..i]) + Downs(turns[i..])
    decreases |turns|
  {
    if i == |turns| {
      assert turns[..i] == turns && turns[i..] == [];
    } else {
      var init := turns[..|turns| - 1];
      CountSplit(init, i);
      assert init[..i] == turns[..i];
      var rest := turns[i..];
      assert rest[..|rest| - 1] == init[i..] && rest[|rest| - 1] == turns[|turns| - 1];
    }
  }

  // ------------------------------------------------------------- the relay

  class Relay {
    const uuid: bytes
    const tunnel: RecordTlsServer
    const unp: Unpadder
    const filter: FilterState
    var fromTarget: seq<bytes>     // what the target will still send
    var toTarget: bytes            // what was written to the target
    var taken: bytes               // what was read from the target
    var uuidOnce: Option<bytes>
    var isPadding: bool
    var blocks: seq<Block>         // the padded blocks sent
    var bare: bytes                // sealed plaintext sent after them
    var uplinkSpliced: bool
    var downlinkSpliced: bool
    var uplinkDone: bool
    var downlinkDone: bool
    var inspected: seq<Seen>       // buffers passed to the filter, in order
    ghost var owed: bytes          // what the client's stream owes the target
    ghost var breaks: bool         // whether the client's stream breaks off
    ghost var promised: nat -> bytes  // what the target has at least after so many uplink turns
    ghost var ups: nat             // uplink turns so far
    ghost const offered: bytes     // everything the target will send

    ghost predicate UplinkInv()
      reads this`uplinkSpliced, this`toTarget, this`uplinkDone, this`owed, this`breaks
      reads tunnel`tcp, tunnel`inbuf, tunnel`fed, unp
    {
      && tunnel.Valid()
      && unp.Valid() && unp.userUuid == uuid
      && uplinkSpliced == unp.direct
      && toTarget + Uplink(tunnel.decrypt, uuid, tunnel.fed, unp.View(), tunnel.Stream()) == owed
      && Breaks(tunnel.decrypt, uuid, tunnel.fed, unp.View(), tunnel.Stream()) == breaks
      && (uplinkDone ==> toTarget == owed && !breaks)
    }

    /** The uplink has kept pace with its turns. */
    ghost predicate UplinkPace()
      reads this`toTarget, this`uplinkDone, this`promised, this`ups, tunnel`tcp, tunnel`inbuf, tunnel`fed, unp
    {
      && unp.Valid()
      && (!uplinkDone ==>
            KeepsPace(promised, ups, toTarget, tunnel.decrypt, uuid, tunnel.fed, unp.View(), tunnel.Stream()))
    }

    /** The client has received exactly `got` and is in the phase the server is in. */
    ghost predicate SentInv(got: bytes)
      reads this`uuidOnce, this`isPadding, this`blocks, this`bare, this`downlinkSpliced, tunnel`sent
    {
      && |uuid| == 16
      && SwitchesOnce(tunnel.sent)
      && (!downlinkSpliced ==> AllSealed(tunnel.sent))
      && (downlinkSpliced ==> !isPadding)
      && uuidOnce == (if blocks == [] then Some(uuid) else None)
      && (blocks == [] ==> isPadding)
      && Shape(uuid, SealedBytes(tunnel.sent), blocks, bare, isPadding, downlinkSpliced)
      && ClientState(uuid, tunnel.sent) == (if uuidOnce.Some? then Starting([])
                                            else if isPadding then InHeader([])
                                            else Finished(downlinkSpliced))
      && Received(uuid, tunnel.sent) == got
    }

    ghost predicate DownlinkInv()
      reads this`fromTarget, this`taken, this`downlinkDone
      reads this`uuidOnce, this`isPadding, this`blocks, this`bare, this`downlinkSpliced, tunnel`sent
    {
      && NonEmpty(fromTarget)
      && taken + Flatten(fromTarget) == offered
      && (downlinkDone ==> taken == offered)
      && SentInv(taken)
    }

    ghost predicate FilterInv()
      reads this`inspected, this`toTarget, this`taken, this`uplinkSpliced, this`downlinkSpliced, filter
    {
      && filter.Tracks(Buffers(inspected))
      && InStep(inspected, toTarget, taken, filter.numberToFilter > 0, uplinkSpliced, downlinkSpliced)
      && (downlinkSpliced ==> filter.enableXtls)
    }

    ghost predicate Valid()
      reads this, tunnel, unp, filter
    {
      UplinkInv() && UplinkPace() && DownlinkInv() && FilterInv()
    }

    /** Fixes what the stream ahead owes, whether it breaks off and what it promises, before any turn. */
    ghost method Pledge()
      requires tunnel.Valid() && unp.Valid() && unp.userUuid == uuid && uplinkSpliced == unp.direct
      requires !uplinkDone && ups == 0 && tunnel.fed == 0
      modifies this`owed, this`breaks, this`promised
      ensures UplinkInv() && UplinkPace()
      ensures owed == toTarget + Uplink(tunnel.decrypt, uuid, 0, unp.View(), tunnel.Stream())
      ensures breaks == Breaks(tunnel.decrypt, uuid, 0, unp.View(), tunnel.Stream())
      ensures forall n: nat ::
                promised(n) == toTarget + Promised(tunnel.decrypt, uuid, 0, unp.View(), tunnel.Stream(), n)
    {
      hide Unpadder.Valid;
      hide Unpadder.View;
      hide Uplink;
      hide Breaks;
      hide Promised;
      hide KeepsPace;
      var decrypt, stream, v, t := tunnel.decrypt, tunnel.Stream(), unp.View(), toTarget;
      owed := t + Uplink(decrypt, uuid, 0, v, stream);
      breaks := Breaks(decrypt, uuid, 0, v, stream);
      promised := n => t + Promised(decrypt, uuid, 0, v, stream, n);
      PaceStarts(promised, t, decrypt, uuid, v, stream);
    }

    lemma DownlinkBegins()
      requires |uuid| == 16 && NonEmpty(fromTarget) && tunnel.sent == []
      requires taken == [] && offered == Flatten(fromTarget) && !downlinkDone && !downlinkSpliced
      requires uuidOnce == Some(uuid) && isPadding && blocks == [] && bare == []
      ensures DownlinkInv()
    {
      hide Flatten;
      Unit(offered);
      RunNothing(uuid, Starting([]));
    }

    lemma FilterBegins()
      requires filter.Tracks([]) && inspected == [] && toTarget == [] && taken == [] && !downlinkSpliced
      ensures FilterInv()
    {
      hide FilterState.Tracks;
      assert Buffers([]) == [];
    }

    constructor (decrypt: Opener, tcp: seq<bytes>, inbuf: bytes, fromTarget: seq<bytes>, uuid: bytes)
      requires |uuid| == 16 && NonEmpty(tcp) && NonEmpty(fromTarget)
      ensures Valid()
      ensures fresh(tunnel) && fresh(unp) && fresh(filter)
      ensures this.uuid == uuid && this.fromTarget == fromTarget && offered == Flatten(fromTarget)
      ensures tunnel.decrypt == decrypt && tunnel.Stream() == inbuf + Flatten(tcp) && tunnel.fed == 0
      ensures unp.View() == Starting([]) && toTarget == [] && !uplinkSpliced && !uplinkDone && ups == 0
    {
      hide Uplink;
      hide Breaks;
      hide KeepsPace;
      hide FilterState.Tracks;
      hide Unpadder.Valid;
      hide Unpadder.View;
      hide UplinkInv;
      hide KeepsPace;
      hide DownlinkInv;
      hide FilterInv;
      hide Flatten;
      this.uuid := uuid;
      var t := new RecordTlsServer(decrypt, tcp, inbuf);
      var u := new Unpadder(uuid);
      var f := new FilterState();
      tunnel, unp, filter := t, u, f;
      this.fromTarget := fromTarget;
      toTarget, taken := [], [];
      uuidOnce := Some(uuid);
      isPadding, blocks, bare := true, [], [];
      uplinkSpliced, downlinkSpliced, uplinkDone, downlinkDone := false, false, false, false;
      inspected := [];
      offered := Flatten(fromTarget);
      ups := 0;
      new;
      unp.DirectView();
      Pledge();
      DownlinkBegins();
      FilterBegins();
    }

    /** Shows one buffer to the filter, while it still looks. */
    method Inspect(x: Seen)
      requires filter.Tracks(Buffers(inspected))
      modifies this`inspected, filter
      ensures filter.Tracks(Buffers(inspected))
      ensures if old(filter.numberToFilter) > 0
              then inspected == old(inspected) + [x]
              else inspected == old(inspected) && filter.numberToFilter == old(filter.numberToFilter)
      ensures old(filter.enableXtls) ==> filter.enableXtls
    {
      if filter.numberToFilter > 0 {
        SeenSnoc(inspected, x);
        filter.Filter(x.data, Buffers(inspected));
        inspected := inspected + [x];
      }
    }

    /** Unpads one piece of plaintext, inspects what comes out and writes it to the target. */
    method Unpadded(plaintext: bytes)
      requires unp.Valid() && unp.userUuid == uuid
      requires !uplinkSpliced && !unp.direct
      requires FilterInv()
      modifies this`toTarget, this`inspected, this`uplinkSpliced, unp, filter
      ensures unp.Valid() && uplinkSpliced == unp.direct
      ensures toTarget == old(toTarget) + Run(uuid, old(unp.View()), plaintext).1
      ensures unp.View() == Run(uuid, old(unp.View()), plaintext).0
      ensures FilterInv()
    {
      hide FilterState.Tracks;
      hide Unpadder.Valid;
      hide Unpadder.View;
      hide Run;
      var content := unp.Push(plaintext);
      if content != [] {
        Inspect(FromClient(content));
        SeenSnoc(old(inspected), FromClient(content));
        Unit(TargetPart(old(inspected)));
        PrefixGrows(ClientPart(old(inspected)), toTarget, content);
        toTarget := toTarget + content;
      } else {
        Unit(toTarget);
      }
      if unp.direct {
        uplinkSpliced := true;
      }
    }

    lemma Ready()
      requires UplinkInv()
      ensures tunnel.Valid() && unp.Valid() && unp.userUuid == uuid && uplinkSpliced == unp.direct
    {
    }

    /** Runs the plaintext that was decrypted along with the request through the uplink. */
    method Replay(leftover: bytes)
      requires Valid() && unp.View() == Starting([]) && toTarget == [] && !uplinkSpliced && !uplinkDone
      requires tunnel.fed == 0 && ups == 0
      modifies this`toTarget, this`inspected, this`uplinkSpliced, this`owed, this`breaks, this`promised, unp, filter
      ensures Valid()
      ensures owed == UplinkFrom(tunnel.decrypt, uuid, leftover, tunnel.Stream())
      ensures breaks == BreaksFrom(tunnel.decrypt, uuid, leftover, tunnel.Stream())
      ensures forall n: nat :: promised(n) == PromisedFrom(tunnel.decrypt, uuid, leftover, tunnel.Stream(), n)
    {
      hide FilterState.Tracks;
      hide Unpadder.Valid;
      hide Unpadder.View;
      hide Run;
      hide Uplink;
      hide Breaks;
      hide KeepsPace;
      hide Promised;
      hide UplinkFrom;
      hide BreaksFrom;
      hide PromisedFrom;
      hide UplinkInv;
      hide UplinkPace;
      hide FilterInv;
      hide DownlinkInv;
      hide NonEmpty;
      hide Flatten;
      Ready();
      unp.DirectView();
      if leftover != [] {
        Unpadded(leftover);
        Unit(toTarget);
      } else {
        RunNothing(uuid, Starting([]));
        Unit([]);
      }
      Pledge();
      FromStart(tunnel.decrypt, uuid, leftover, tunnel.Stream());
    }

    /** What record k of the stream brings: its plaintext is unpadded, unless it is empty. */
    method RecordIn(plaintext: bytes, ghost k: nat, ghost stream: bytes)
      requires tunnel.Valid() && unp.Valid() && unp.userUuid == uuid && !unp.direct && !uplinkSpliced && !uplinkDone
      requires RecordLen(stream).Some? && tunnel.decrypt(k, stream[..RecordLen(stream).value]) == Some(plaintext)
      requires tunnel.fed == k + 1 && tunnel.Stream() == stream[RecordLen(stream).value..]
      requires toTarget + Uplink(tunnel.decrypt, uuid, k, unp.View(), stream) == owed
      requires Breaks(tunnel.decrypt, uuid, k, unp.View(), stream) == breaks
      requires KeepsPace(promised, ups, toTarget, tunnel.decrypt, uuid, k, unp.View(), stream)
      requires FilterInv()
      modifies this`toTarget, this`inspected, this`uplinkSpliced, this`ups, unp, filter
      ensures UplinkInv() && UplinkPace() && FilterInv()
      ensures ups == old(ups) + 1
    {
      hide FilterInv;
      hide Unpadder.Valid;
      hide Unpadder.View;
      hide Run;
      hide Uplink;
      hide Breaks;
      hide KeepsPace;
      hide NonEmpty;
      hide Flatten;
      hide RecordLen;
      unp.DirectView();
      ghost var v, len := unp.View(), RecordLen(stream).value;
      UplinkRecord(tunnel.decrypt, uuid, k, v, stream, len, plaintext);
      PaceRecord(promised, ups, toTarget, tunnel.decrypt, uuid, k, v, stream, len, plaintext);
      ghost var x := Run(uuid, v, plaintext);
      Assoc(toTarget, x.1, Uplink(tunnel.decrypt, uuid, k + 1, x.0, tunnel.Stream()));
      if plaintext != [] {
        Unpadded(plaintext);
      } else {
        RunNothing(uuid, v);
        Unit(toTarget);
      }
      ups := ups + 1;
    }

    method UplinkRecordTurn() returns (ok: bool)
      requires Valid() && !uplinkDone && !uplinkSpliced
      modifies this`toTarget, this`inspected, this`uplinkSpliced, this`uplinkDone, this`ups, unp, filter
      modifies tunnel`tcp, tunnel`inbuf, tunnel`readTotal, tunnel`fed
      ensures ok ==> Valid()
      ensures !ok ==> toTarget == owed && breaks && DownlinkInv() && FilterInv()
      ensures ok && !uplinkDone ==> |tunnel.Stream()| < |old(tunnel.Stream())|
      ensures ok && !uplinkDone ==> ups == old(ups) + 1
    {
      hide FilterState.Tracks;
      hide Unpadder.Valid;
      hide Unpadder.View;
      hide Run;
      hide Uplink;
      hide Breaks;
      hide KeepsPace;
      hide FilterInv;
      hide RecordLen;
      hide NonEmpty;
      hide Flatten;
      hide DownlinkInv;
      unp.DirectView();
      ghost var stream, k := tunnel.Stream(), tunnel.fed;
      ok := true;
      var r := tunnel.ReadRecordOpt();
      match r {
        case Eof =>
          UplinkStops(tunnel.decrypt, uuid, k, unp.View(), stream);
          Unit(toTarget);
          uplinkDone := true;
        case Torn =>
          UplinkStops(tunnel.decrypt, uuid, k, unp.View(), stream);
          Unit(toTarget);
          ok := false;
        case Rejected =>
          UplinkStops(tunnel.decrypt, uuid, k, unp.View(), stream);
          Unit(toTarget);
          ok := false;
        case Got(plaintext) =>
          RecordIn(plaintext, k, stream);
      }
    }

    /** The uplink branch: one padded record, or one raw read once spliced. False on a fatal error. */
    method UplinkTurn() returns (ok: bool)
      requires Valid() && !uplinkDone
      modifies this`toTarget, this`inspected, this`uplinkSpliced, this`uplinkDone, this`ups, unp, filter
      modifies tunnel`tcp, tunnel`inbuf, tunnel`readTotal, tunnel`fed
      ensures ok ==> Valid()
      ensures !ok ==> toTarget == owed && breaks && DownlinkInv() && FilterInv()
      ensures ok && !uplinkDone ==> |tunnel.Stream()| < |old(tunnel.Stream())|
      ensures ok && !uplinkDone ==> ups == old(ups) + 1
      ensures old(uplinkSpliced) ==> ok && uplinkSpliced
    {
      hide FilterState.Tracks;
      hide Unpadder.Valid;
      hide Unpadder.View;
      hide Run;
      hide Uplink;
      hide Breaks;
      hide KeepsPace;
      hide DownlinkInv;
      hide NonEmpty;
      hide Flatten;
      unp.DirectView();
      ok := true;
      if uplinkSpliced {
        ghost var before, stream := toTarget, tunnel.Stream();
        UplinkRaw(tunnel.decrypt, uuid, tunnel.fed, stream);
        var got := tunnel.ReadRaw(READ_CHUNK);
        UplinkRaw(tunnel.decrypt, uuid, tunnel.fed, tunnel.Stream());
        if got == [] {
          Unit(toTarget);
          uplinkDone := true;
        } else {
          Assoc(toTarget, got, tunnel.Stream());
          PrefixGrows(ClientPart(inspected), toTarget, got);
          toTarget := toTarget + got;
          PaceRawTurn(promised, ups, before, tunnel.decrypt, uuid, tunnel.fed, got, tunnel.Stream());
          ups := ups + 1;
        }
        return;
      }
      ok := UplinkRecordTurn();
    }

    /** A read that moved bytes to the buffer before the other branch won. */
    method FillTurn()
      requires Valid() && !uplinkSpliced
      modifies tunnel`tcp, tunnel`inbuf, tunnel`readTotal
      ensures Valid() && tunnel.Stream() == old(tunnel.Stream())
    {
      hide FilterState.Tracks;
      hide Unpadder.Valid;
      hide Unpadder.View;
      hide Run;
      hide Uplink;
      hide Breaks;
      hide KeepsPace;
      var _ := tunnel.Fill();
    }

    /** One chunk past the outer TLS. */
    method ForwardClear(chunk: bytes)
      requires SentInv(taken) && downlinkSpliced
      modifies tunnel`sent
      ensures SentInv(taken + chunk)
    {
      hide ClientState;
      hide Received;
      hide AllSealed;
      hide SwitchesOnce;
      hide Shape;
      hide SealedBytes;
      SendClear(uuid, tunnel.sent, chunk);
      SentSnoc(tunnel.sent, Clear(chunk));
      Unit(SealedBytes(tunnel.sent));
      tunnel.WriteRaw(chunk);
    }

    /** Whole application-data records of a TLS session end the padding; the filter's verdict says how. */
    method Decide(chunk: bytes) returns (command: byte)
      ensures command == if !EndsPadding(filter.isTls, chunk) then CONTINUE
                         else if filter.enableXtls then DIRECT else END
    {
      var complete := IsCompleteRecord(chunk);
      var appData := filter.isTls && |chunk| >= 6 && chunk[..3] == [0x17, 0x03, 0x03] && complete;
      if complete && |chunk| >= 6 {
        ghost var bodies :| Tiled(chunk, bodies);
        FirstRecordOf(chunk, bodies);
        assert chunk[..3] == [chunk[0], chunk[1], chunk[2]];
      }
      command := CONTINUE;
      if appData {
        command := if filter.enableXtls then DIRECT else END;
      }
    }

    lemma ShapeWhilePadding()
      requires Shape(uuid, SealedBytes(tunnel.sent), blocks, bare, true, false)
      ensures bare == []
    {
    }

    /** One chunk of the padded phase, in a block whose command the filter's verdict decides. */
    method Padded(chunk: bytes, draw: nat)
      requires isPadding && !downlinkSpliced && |uuid| == 16 && |chunk| < 65536
      requires AllSealed(tunnel.sent)
      requires uuidOnce == if blocks == [] then Some(uuid) else None
      requires ClientState(uuid, tunnel.sent) == if uuidOnce.Some? then Starting([]) else InHeader([])
      requires Shape(uuid, SealedBytes(tunnel.sent), blocks, bare, true, false)
      modifies this`isPadding, this`uuidOnce, this`blocks, this`bare, this`downlinkSpliced, tunnel`sent
      ensures AllSealed(tunnel.sent) && SwitchesOnce(tunnel.sent)
      ensures uuidOnce == None && blocks != []
      ensures Shape(uuid, SealedBytes(tunnel.sent), blocks, bare, isPadding, downlinkSpliced)
      ensures !isPadding <==> EndsPadding(filter.isTls, chunk)
      ensures downlinkSpliced <==> !isPadding && filter.enableXtls
      ensures ClientState(uuid, tunnel.sent) == if isPadding then InHeader([]) else Finished(downlinkSpliced)
      ensures Received(uuid, tunnel.sent) == Received(uuid, old(tunnel.sent)) + chunk
    {
      hide ClientState;
      hide Received;
      hide AllSealed;
      hide SwitchesOnce;
      hide Run;
      hide Encode;
      hide Shape;
      hide SealedBytes;
      hide EndsPadding;
      ShapeWhilePadding();
      var command := Decide(chunk);
      if command != CONTINUE {
        isPadding := false;
      }
      var block, left, b := XtlsPadding(chunk, command, uuidOnce, filter.isTls, DEFAULT_SEED, draw);
      SendSealed(uuid, tunnel.sent, block);
      if uuidOnce.Some? {
        SendFirstBlock(uuid, b);
      } else {
        Unit(Encode(b));
        RunBlock(uuid, b);
      }
      SentSnoc(tunnel.sent, Sealed(block));
      Unit(Encode(b));
      ShapeBlock(uuid, SealedBytes(tunnel.sent), blocks, b);
      uuidOnce := left;
      blocks := blocks + [b];
      tunnel.WritePlaintext(block);
      if command == DIRECT {
        downlinkSpliced := true;
      }
    }

    /** One chunk through the outer TLS: in a block while padding, bare after END. */
    method ForwardSealed(chunk: bytes, draw: nat)
      requires SentInv(taken) && !downlinkSpliced && |chunk| < 65536
      modifies this`isPadding, this`uuidOnce, this`blocks, this`bare, this`downlinkSpliced, tunnel`sent
      ensures SentInv(taken + chunk)
      ensures downlinkSpliced <==> old(isPadding) && EndsPadding(filter.isTls, chunk) && filter.enableXtls
    {
      hide ClientState;
      hide Received;
      hide AllSealed;
      hide SwitchesOnce;
      hide Shape;
      hide SealedBytes;
      if isPadding {
        Padded(chunk, draw);
      } else {
        SendSealed(uuid, tunnel.sent, chunk);
        RunVerbatim(uuid, Finished(false), chunk);
        SentSnoc(tunnel.sent, Sealed(chunk));
        ShapeBare(uuid, SealedBytes(tunnel.sent), blocks, bare, chunk);
        tunnel.WritePlaintext(chunk);
        bare := bare + chunk;
      }
    }

    /** Takes one chunk from the target, inspects it unless spliced, and sends it to the client. */
    method Forward(chunk: bytes, draw: nat)
      requires SentInv(taken) && FilterInv() && |chunk| < 65536
      modifies this`taken, this`inspected, this`isPadding, this`uuidOnce, this`blocks, this`bare
      modifies this`downlinkSpliced
      modifies tunnel`sent, filter
      ensures SentInv(taken) && FilterInv()
      ensures taken == old(taken) + chunk
      ensures old(downlinkSpliced) ==> downlinkSpliced
    {
      hide FilterState.Tracks;
      hide SentInv;
      hide InStep;
      hide EndsPadding;
      hide Buffers;
      InStepSkipped(inspected, toTarget, taken, chunk, filter.numberToFilter > 0, uplinkSpliced);
      InStepShown(inspected, toTarget, taken, chunk, uplinkSpliced);
      if downlinkSpliced {
        ForwardClear(chunk);
      } else {
        Inspect(FromTarget(chunk));
        ForwardSealed(chunk, draw);
      }
      taken := taken + chunk;
    }

    /** The downlink branch: one read from the target, sent on in whatever form its phase asks for. */
    method DownlinkTurn(draw: nat)
      requires DownlinkInv() && FilterInv() && !downlinkDone
      modifies this`fromTarget, this`taken, this`inspected, this`isPadding, this`uuidOnce, this`blocks, this`bare
      modifies this`downlinkSpliced, this`downlinkDone, tunnel`sent, filter
      ensures DownlinkInv() && FilterInv()
      ensures old(downlinkSpliced) ==> downlinkSpliced
      ensures !downlinkDone ==> |Flatten(fromTarget)| < |old(Flatten(fromTarget))|
    {
      hide FilterState.Tracks;
      hide SentInv;
      var r := ReadSome(fromTarget, READ_CHUNK);
      if r.0 == [] {
        Unit(taken);
        downlinkDone := true;
        return;
      }
      Assoc(taken, r.0, Flatten(r.1));
      Forward(r.0, draw);
      fromTarget := r.1;
    }

    /** Both directions are raw: hand the buffered bytes over and leave the outer TLS for good. */
    method Handoff()
      requires Valid() && uplinkSpliced && downlinkSpliced
      modifies this`toTarget, tunnel`inbuf
      ensures Valid() && |tunnel.Stream()| <= |old(tunnel.Stream())|
    {
      hide FilterState.Tracks;
      hide Unpadder.Valid;
      hide Unpadder.View;
      hide Run;
      hide Uplink;
      hide Breaks;
      hide KeepsPace;
      hide DownlinkInv;
      unp.DirectView();
      ghost var before, stream := toTarget, tunnel.Stream();
      UplinkRaw(tunnel.decrypt, uuid, tunnel.fed, stream);
      var leftover := tunnel.IntoRaw();
      UplinkRaw(tunnel.decrypt, uuid, tunnel.fed, tunnel.Stream());
      Assoc(toTarget, leftover, tunnel.Stream());
      PrefixGrows(ClientPart(inspected), toTarget, leftover);
      if uplinkDone {
        assert |leftover + tunnel.Stream()| == 0;
      }
      toTarget := toTarget + leftover;
      if !uplinkDone {
        PaceRaw(promised, ups, before, tunnel.decrypt, uuid, tunnel.fed, leftover, tunnel.Stream());
      }
    }

    /**
     * After `turns` from a state with `up` and `down` bytes still to come: a direction that is not over
     * has used at least one byte in each of its turns.
     */
    ghost predicate Progressed(turns: seq<Turn>, failed: bool, up: nat, down: nat, before: nat)
      reads this`ups, this`uplinkDone, this`downlinkDone, this`fromTarget, tunnel`tcp, tunnel`inbuf
    {
      && (!failed && !uplinkDone ==> Ups(turns) + |tunnel.Stream()| <= up && ups == before + Ups(turns))
      && (!downlinkDone ==> Downs(turns) + |Flatten(fromTarget)| <= down)
    }

    /** What the relay's loops leave: their invariants, or the end of a stream that breaks off. */
    ghost predicate Rests(failed: bool)
      reads this, tunnel, unp, filter
    {
      && DownlinkInv() && FilterInv()
      && (if failed then toTarget == owed && breaks else UplinkInv() && UplinkPace())
    }

    /** One turn of the select loop; a turn of a branch that is disabled does nothing. */
    method Take(turn: Turn) returns (failed: bool)
      requires Valid()
      modifies this`fromTarget, this`toTarget, this`taken, this`inspected
      modifies this`uuidOnce, this`isPadding, this`blocks, this`bare
      modifies this`uplinkSpliced, this`downlinkSpliced, this`uplinkDone, this`downlinkDone, this`ups
      modifies tunnel, unp, filter
      ensures Rests(failed)
      ensures !failed && !uplinkDone ==> |tunnel.Stream()| <= |old(tunnel.Stream())|
      ensures !downlinkDone ==> |Flatten(fromTarget)| <= |old(Flatten(fromTarget))|
      ensures old(uplinkDone) ==> uplinkDone
      ensures old(downlinkDone) ==> downlinkDone
      ensures failed ==> turn.UplinkReady?
      ensures !failed && !uplinkDone ==> ups == old(ups) + (if turn.UplinkReady? then 1 else 0)
      ensures old(uplinkSpliced) ==> !failed && uplinkSpliced
      ensures turn.UplinkReady? && !failed && !uplinkDone ==> |tunnel.Stream()| < |old(tunnel.Stream())|
      ensures turn.DownlinkReady? && !downlinkDone ==> |Flatten(fromTarget)| < |old(Flatten(fromTarget))|
    {
      hide DownlinkInv;
      hide UplinkInv;
      hide UplinkPace;
      hide FilterInv;
      hide Flatten;
      failed := false;
      match turn {
        case UplinkReady =>
          if !uplinkDone {
            var ok := UplinkTurn();
            failed := !ok;
          }
        case UplinkPartial =>
          if !uplinkDone && !uplinkSpliced {
            FillTurn();
          }
        case DownlinkReady(draw) =>
          if !downlinkDone {
            DownlinkTurn(draw);
          }
      }
    }

    /** The framed loop: until both directions are raw, both are over, or the run is cut off. */
    method Framed(turns: seq<Turn>) returns (used: nat, failed: bool)
      requires Valid()
      modifies this`fromTarget, this`toTarget, this`taken, this`inspected
      modifies this`uuidOnce, this`isPadding, this`blocks, this`bare
      modifies this`uplinkSpliced, this`downlinkSpliced, this`uplinkDone, this`downlinkDone, this`ups
      modifies tunnel, unp, filter
      ensures used <= |turns|
      ensures Rests(failed)
      ensures Progressed(turns[..used], failed, |old(tunnel.Stream())|, |old(Flatten(fromTarget))|, old(ups))
      ensures failed ==> used > 0 && turns[used - 1].UplinkReady?
      ensures !failed && used < |turns| ==> (uplinkSpliced && downlinkSpliced) || (uplinkDone && downlinkDone)
    {
      hide DownlinkInv;
      hide UplinkInv;
      hide UplinkPace;
      hide FilterInv;
      hide Flatten;
      used, failed := 0, false;
      while used < |turns| && !failed && !(uplinkSpliced && downlinkSpliced) && !(uplinkDone && downlinkDone)
        invariant used <= |turns|
        invariant Rests(failed)
        invariant Progressed(turns[..used], failed, |old(tunnel.Stream())|, |old(Flatten(fromTarget))|, old(ups))
        invariant failed ==> used > 0 && turns[used - 1].UplinkReady?
      {
        CountSnoc(turns, used);
        failed := Take(turns[used]);
        used := used + 1;
      }
    }

    /** The full-duplex raw copy after the handoff; there is no record left to reject. */
    method RawCopy(turns: seq<Turn>)
      requires Valid() && uplinkSpliced && downlinkSpliced
      modifies this`fromTarget, this`toTarget, this`taken, this`inspected
      modifies this`uuidOnce, this`isPadding, this`blocks, this`bare
      modifies this`uplinkSpliced, this`downlinkSpliced, this`uplinkDone, this`downlinkDone, this`ups
      modifies tunnel, unp, filter
      ensures Valid()
      ensures old(uplinkDone) ==> uplinkDone
      ensures old(downlinkDone) ==> downlinkDone
      ensures Progressed(turns, false, |old(tunnel.Stream())|, |old(Flatten(fromTarget))|, old(ups))
    {
      hide DownlinkInv;
      hide UplinkInv;
      hide UplinkPace;
      hide FilterInv;
      hide Flatten;
      Handoff();
      var i := 0;
      while i < |turns|
        invariant 0 <= i <= |turns|
        invariant Valid() && uplinkSpliced
        invariant old(uplinkDone) ==> uplinkDone
        invariant old(downlinkDone) ==> downlinkDone
        invariant Progressed(turns[..i], false, |old(tunnel.Stream())|, |old(Flatten(fromTarget))|, old(ups))
      {
        CountSnoc(turns, i);
        var _ := Take(turns[i]);
        i := i + 1;
      }
      assert turns[..|turns|] == turns;
    }

    /** Both loops, one after the other. Only a turn of the uplink can end them early. */
    method RunTurns(turns: seq<Turn>) returns (used: nat, failed: bool)
      requires Valid()
      modifies this`fromTarget, this`toTarget, this`taken, this`inspected
      modifies this`uuidOnce, this`isPadding, this`blocks, this`bare
      modifies this`uplinkSpliced, this`downlinkSpliced, this`uplinkDone, this`downlinkDone, this`ups
      modifies tunnel, unp, filter
      ensures used <= |turns| && (if failed then used > 0 && turns[used - 1].UplinkReady? else used == |turns|)
      ensures Rests(failed)
      ensures Progressed(turns[..used], failed, |old(tunnel.Stream())|, |old(Flatten(fromTarget))|, old(ups))
    {
      hide DownlinkInv;
      hide UplinkInv;
      hide UplinkPace;
      hide FilterInv;
      hide Flatten;
      hide Ups;
      hide Downs;
      used, failed := Framed(turns);
      if !failed {
        CountSplit(turns, used);
        assert turns[..|turns|] == turns;
        if uplinkSpliced && downlinkSpliced && !(uplinkDone && downlinkDone) {
          RawCopy(turns[used..]);
        }
        used := |turns|;
      }
    }

    lemma Settled(failed: bool)
      requires Rests(failed)
      ensures toTarget <= owed
      ensures failed || uplinkDone ==> toTarget == owed && (failed <==> breaks)
      ensures !failed && !uplinkDone ==> promised(ups) <= toTarget
      ensures taken <= offered && (downlinkDone ==> taken == offered)
      ensures |taken| + |Flatten(fromTarget)| == |offered|
      ensures SwitchesOnce(tunnel.sent) && Received(uuid, tunnel.sent) == taken
      ensures ClearBytes(tunnel.sent) != [] ==> ClientState(uuid, tunnel.sent) == Finished(true)
      ensures Shape(uuid, SealedBytes(tunnel.sent), blocks, bare, !ClientState(uuid, tunnel.sent).Finished?,
                    ClientState(uuid, tunnel.sent) == Finished(true))
      ensures ClientState(uuid, tunnel.sent) == Finished(true) ==> Spliceable(inspected)
      ensures |inspected| <= MAX_FILTERED
      ensures ClientPart(inspected) <= toTarget && TargetPart(inspected) <= taken
    {
      hide Run;
      hide Uplink;
      hide Breaks;
      hide KeepsPace;
      hide Unpadder.Valid;
      hide Unpadder.View;
      hide ClientState;
      hide Received;
      hide SwitchesOnce;
      hide Marked;
      hide LastCipher;
      if !downlinkSpliced {
        AllSealedClear(tunnel.sent);
      }
      assert |Buffers(inspected)| == |inspected|;
      if !failed && !uplinkDone {
        PaceNow(promised, ups, toTarget, tunnel.decrypt, uuid, tunnel.fed, unp.View(), tunnel.Stream());
      }
    }
  }

  /**
   * What a run leaves behind: the bytes the target has, the bytes read from it, what went to the
   * client and the blocks it is made of, the inspected buffers, how each direction stands, whether the
   * client's stream ended the run, and how many turns were used.
   */
  datatype Relayed = Relayed(toTarget: bytes, taken: bytes, sent: seq<Sent>, blocks: seq<Block>, bare: bytes,
                             inspected: seq<Seen>, uplinkOver: bool, downlinkOver: bool, failed: bool, used: nat)

  /**
   * The whole relay, for any scheduling. `turns` ends where the run is cut off by an idle timeout
   * or a socket error; the cut can fall after any branch.
   */
  method VisionServerSplice(decrypt: Opener, tcp: seq<bytes>, inbuf: bytes, fromTarget: seq<bytes>,
                            leftover: bytes, uuid: bytes, turns: seq<Turn>)
    returns (r: Relayed)
    requires |uuid| == 16 && NonEmpty(tcp) && NonEmpty(fromTarget)
    // uplink: nothing lost, nothing added, nothing reordered
    ensures r.toTarget <= UplinkFrom(decrypt, uuid, leftover, inbuf + Flatten(tcp))
    ensures r.uplinkOver ==> r.toTarget == UplinkFrom(decrypt, uuid, leftover, inbuf + Flatten(tcp))
    // only a stream that breaks off ends a run before its turns, and at a turn of the uplink
    ensures r.used <= |turns| && if r.failed then r.used > 0 && turns[r.used - 1].UplinkReady? else r.used == |turns|
    // each of its turns brought one more record, or at least one more raw byte
    ensures PromisedFrom(decrypt, uuid, leftover, inbuf + Flatten(tcp), Ups(turns[..r.used])) <= r.toTarget
    // it is over after enough turns, and then the run has failed exactly if the stream breaks off
    ensures Ups(turns) > |inbuf + Flatten(tcp)| || r.failed ==> r.uplinkOver
    ensures r.uplinkOver ==> (r.failed <==> BreaksFrom(decrypt, uuid, leftover, inbuf + Flatten(tcp)))
    // downlink: the client has exactly what was read from the target
    ensures r.taken <= Flatten(fromTarget)
    ensures r.downlinkOver ==> r.taken == Flatten(fromTarget)
    ensures r.downlinkOver || Downs(turns[..r.used]) <= |r.taken|
    ensures SwitchesOnce(r.sent)
    ensures Received(uuid, r.sent) == r.taken
    ensures ClearBytes(r.sent) != [] ==> ClientState(uuid, r.sent) == Finished(true)
    // and the blocks are CONTINUE*, then at most one END or DIRECT; bare plaintext follows END alone
    ensures Shape(uuid, SealedBytes(r.sent), r.blocks, r.bare, !ClientState(uuid, r.sent).Finished?,
                  ClientState(uuid, r.sent) == Finished(true))
    // DIRECT is justified by the traffic itself
    ensures ClientState(uuid, r.sent) == Finished(true) ==> Spliceable(r.inspected)
    ensures |r.inspected| <= MAX_FILTERED
    ensures ClientPart(r.inspected) <= r.toTarget && TargetPart(r.inspected) <= r.taken
  {
    hide UplinkFrom;
    hide BreaksFrom;
    hide PromisedFrom;
    hide Relay.UplinkPace;
    hide Relay.DownlinkInv;
    hide Relay.UplinkInv;
    hide Relay.FilterInv;
    hide Flatten;
    hide Ups;
    hide Downs;
    hide Shape;
    hide ClientState;
    hide Received;
    hide SwitchesOnce;
    hide Spliceable;
    var relay := new Relay(decrypt, tcp, inbuf, fromTarget, uuid);
    relay.Replay(leftover);
    var used, failed := relay.RunTurns(turns);
    relay.Settled(failed);
    assert turns[..|turns|] == turns;
    PromisedFromOwed(decrypt, uuid, leftover, inbuf + Flatten(tcp), Ups(turns[..used]));
    r := Relayed(relay.toTarget, relay.taken, relay.tunnel.sent, relay.blocks, relay.bare, relay.inspected,
                 failed || relay.uplinkDone, relay.downlinkDone, failed, used);
  }
}
