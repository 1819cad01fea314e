/** The sending half of a TLS connection that encrypts straight into the caller's buffer. */
module SendPath {
  import opened Bytes
  import opened RecordLayer

  const ALERT: byte := 21
  const APPLICATION_DATA: byte := 23
  const CLOSE_NOTIFY: bytes := [1, 0]

  /** The current key: a whole encoded record for a message under one nonce, of a length it declares. */
  datatype Cipher = Cipher(seal: (byte, bytes, nat) -> bytes, payloadLen: nat -> nat) {
    function EncodedLen(n: nat): nat {
      5 + payloadLen(n)
    }

    ghost predicate Honest() {
      forall t: byte, m: bytes, q: nat :: |seal(t, m, q)| == EncodedLen(|m|)
    }
  }

  datatype EncryptError = InsufficientSize(required: nat) | EncryptExhausted

  datatype Written = Ok(n: nat) | Err(error: EncryptError)

  /** The records of consecutive fragments, from sequence number `q` on. */
  function SealAll(c: Cipher, q: nat, fragments: seq<bytes>): bytes
    decreases |fragments|
  {
    if fragments == [] then []
    else c.seal(APPLICATION_DATA, fragments[0], q) + SealAll(c, q + 1, fragments[1..])
  }

  function SizeOf(c: Cipher, fragments: seq<bytes>): nat {
    if fragments == [] then 0 else c.EncodedLen(|fragments[0]|) + SizeOf(c, fragments[1..])
  }

  lemma {:induction false} SealAllSize(c: Cipher, q: nat, fragments: seq<bytes>)
    requires c.Honest()
    ensures |SealAll(c, q, fragments)| == SizeOf(c, fragments)
    decreases |fragments|
  {
    if fragments != [] {
      SealAllSize(c, q + 1, fragments[1..]);
    }
  }

  lemma SealNext(c: Cipher, q: nat, fragments: seq<bytes>, i: nat)
    requires i < |fragments|
    ensures SealAll(c, q, fragments[i..]) ==
            c.seal(APPLICATION_DATA, fragments[i], q) + SealAll(c, q + 1, fragments[i + 1..])
    ensures SizeOf(c, fragments[i..]) == c.EncodedLen(|fragments[i]|) + SizeOf(c, fragments[i + 1..])
  {
    assert fragments[i..][1..] == fragments[i + 1..];
  }

  lemma SealNone(c: Cipher, q: nat)
    ensures SealAll(c, q, []) == [] && SizeOf(c, []) == 0
  {
  }

  function Queued(message: Option<bytes>): seq<bytes> {
    match message case None => [] case Some(m) => [m]
  }

  method CopyInto(out: array<byte>, at: nat, data: bytes)
    requires at + |data| <= out.Length
    modifies out
    ensures out[..at] == old(out[..at])
    ensures out[at..at + |data|] == data
    ensures out[at + |data|..] == old(out[at + |data|..])
  {
    forall i | 0 <= i < |data| {
      out[at + i] := data[i];
    }
  }

  class CommonState {
    const recordLayer: RecordLayer
    const cipher: Cipher
    const tls13: bool
    var sendableTls: seq<bytes>
    var queuedKeyUpdate: Option<bytes>
    var refreshPending: bool
    var sentFatalAlert: bool
    var hasSentCloseNotify: bool

    ghost predicate Valid()
      reads recordLayer
    {
      recordLayer.Valid() && recordLayer.encryptState == Active && cipher.Honest()
    }

    /** A connection that has just begun to encrypt under a key good for `maxMessages`. */
    constructor (cipher: Cipher, tls13: bool, maxMessages: nat)
      requires cipher.Honest()
      ensures Valid() && fresh(recordLayer) && recordLayer.writeSeq == 0
      ensures this.cipher == cipher && this.tls13 == tls13
      ensures sendableTls == [] && queuedKeyUpdate == None && !refreshPending && !sentFatalAlert
    {
      var rl := new RecordLayer();
      rl.PrepareMessageEncrypter(maxMessages);
      rl.StartEncrypting();
      recordLayer := rl;
      this.cipher, this.tls13 := cipher, tls13;
      sendableTls, queuedKeyUpdate := [], None;
      refreshPending, sentFatalAlert, hasSentCloseNotify := false, false, false;
    }

    method PerhapsWriteKeyUpdate()
      modifies this`sendableTls, this`queuedKeyUpdate
      ensures queuedKeyUpdate == None
      ensures sendableTls == old(sendableTls) + old(Queued(queuedKeyUpdate))
    {
      if queuedKeyUpdate.Some? {
        sendableTls := sendableTls + [queuedKeyUpdate.value];
        queuedKeyUpdate := None;
      }
    }

    /** The alert has been queued, behind the queued key update, under one number; once only. */
    twostate predicate Notified()
      reads this, recordLayer
    {
      && sentFatalAlert
      && if old(sentFatalAlert) then
           && sendableTls == old(sendableTls) && queuedKeyUpdate == old(queuedKeyUpdate)
           && hasSentCloseNotify == old(hasSentCloseNotify)
           && recordLayer.writeSeq == old(recordLayer.writeSeq)
         else
           && hasSentCloseNotify && queuedKeyUpdate == None
           && recordLayer.writeSeq == old(recordLayer.writeSeq) + 1
           && sendableTls == old(sendableTls + Queued(queuedKeyUpdate))
                             + [cipher.seal(ALERT, CLOSE_NOTIFY, old(recordLayer.writeSeq))]
    }

    /** Neither the queue nor the number nor the alert state has moved. */
    twostate predicate Unmoved()
      reads this, recordLayer
    {
      && sendableTls == old(sendableTls) && queuedKeyUpdate == old(queuedKeyUpdate)
      && sentFatalAlert == old(sentFatalAlert) && hasSentCloseNotify == old(hasSentCloseNotify)
      && recordLayer.writeSeq == old(recordLayer.writeSeq)
    }

    /** Queues the alert, encrypted; the queued key update goes first. */
    method SendCloseNotify()
      requires Valid() && recordLayer.Action(0) != Refuse
      modifies this`sendableTls, this`queuedKeyUpdate, this`sentFatalAlert, this`hasSentCloseNotify
      modifies recordLayer`writeSeq, recordLayer`used
      ensures Valid() && Notified()
    {
      if sentFatalAlert {
        return;
      }
      sentFatalAlert, hasSentCloseNotify := true, true;
      var q := recordLayer.EncryptOutgoing();
      PerhapsWriteKeyUpdate();
      sendableTls := sendableTls + [cipher.seal(ALERT, CLOSE_NOTIFY, q)];
    }

    method CheckRequiredSize(available: nat, fragments: seq<bytes>) returns (required: nat, fits: bool)
      ensures required == |Flatten(sendableTls)| + SizeOf(cipher, fragments)
      ensures fits <==> required <= available
    {
      required := |Flatten(sendableTls)|;
      var i := 0;
      assert fragments[0..] == fragments;
      while i < |fragments|
        invariant 0 <= i <= |fragments|
        invariant required + SizeOf(cipher, fragments[i..]) == |Flatten(sendableTls)| + SizeOf(cipher, fragments)
      {
        assert fragments[i..][1..] == fragments[i + 1..];
        required := required + cipher.EncodedLen(|fragments[i]|);
        i := i + 1;
      }
      fits := required <= available;
    }

    /** What must be in the buffer: queued records in order, then one record for each fragment. */
    ghost function Expected(queue: seq<bytes>, q: nat, fragments: seq<bytes>): bytes {
      Flatten(queue) + SealAll(cipher, q, fragments)
    }

    /** Places `data` at `at`, in a buffer whose tail is still untouched. */
    method Emit(out: array<byte>, at: nat, data: bytes, ghost was: bytes)
      requires at + |data| <= out.Length == |was| && out[at..] == was[at..]
      modifies out
      ensures out[..at + |data|] == old(out[..at]) + data
      ensures out[at + |data|..] == was[at + |data|..]
    {
      ghost var before := out[..];
      CopyInto(out, at, data);
      assert out[..at + |data|] == out[..at] + out[at..at + |data|];
      assert before[at + |data|..] == before[at..][|data|..] && was[at + |data|..] == was[at..][|data|..];
    }

    method EncryptFragments(out: array<byte>, start: nat, fragments: seq<bytes>, ghost was: bytes)
      returns (written: nat)
      requires Valid()
      requires recordLayer.writeSeq + |fragments| <= SEQ_HARD_LIMIT
      requires start + SizeOf(cipher, fragments) <= out.Length == |was| && out[start..] == was[start..]
      modifies recordLayer`writeSeq, recordLayer`used, out
      ensures Valid()
      ensures written == start + SizeOf(cipher, fragments)
      ensures out[..written] == old(out[..start]) + SealAll(cipher, old(recordLayer.writeSeq), fragments)
      ensures out[written..] == was[written..]
      ensures recordLayer.writeSeq == old(recordLayer.writeSeq) + |fragments|
    {
      hide SealAll;
      hide SizeOf;
      hide RecordLayer.Valid;
      written := start;
      ghost var q0 := recordLayer.writeSeq;
      ghost var head := out[..start];
      var i := 0;
      assert fragments[0..] == fragments;
      while i < |fragments|
        invariant 0 <= i <= |fragments|
        invariant Valid() && recordLayer.writeSeq == q0 + i
        invariant written + SizeOf(cipher, fragments[i..]) == start + SizeOf(cipher, fragments)
        invariant written <= out.Length
        invariant out[..written] + SealAll(cipher, q0 + i, fragments[i..]) == head + SealAll(cipher, q0, fragments)
        invariant out[written..] == was[written..]
      {
        recordLayer.NotRefused();
        var q := recordLayer.EncryptOutgoing();
        var record := cipher.seal(APPLICATION_DATA, fragments[i], q);
        SealNext(cipher, q0 + i, fragments, i);
        Assoc(out[..written], record, SealAll(cipher, q0 + i + 1, fragments[i + 1..]));
        Emit(out, written, record, was);
        written := written + |record|;
        i := i + 1;
      }
      assert fragments[i..] == [];
      SealNone(cipher, q0 + i);
      Unit(out[..written]);
    }

    /** Empties the queue into the buffer, then encrypts the fragments behind it. */
    method WriteFragments(out: array<byte>, fragments: seq<bytes>) returns (written: nat)
      requires Valid()
      requires recordLayer.writeSeq + |fragments| <= SEQ_HARD_LIMIT
      requires |Flatten(sendableTls)| + SizeOf(cipher, fragments) <= out.Length
      modifies this`sendableTls, recordLayer`writeSeq, recordLayer`used, out
      ensures Valid() && sendableTls == []
      ensures written == |old(Flatten(sendableTls))| + SizeOf(cipher, fragments)
      ensures written <= out.Length
      ensures out[..written] == Expected(old(sendableTls), old(recordLayer.writeSeq), fragments)
      ensures out[written..] == old(out[written..])
      ensures recordLayer.writeSeq == old(recordLayer.writeSeq) + |fragments|
    {
      written := 0;
      while sendableTls != []
        invariant Valid() && recordLayer.writeSeq == old(recordLayer.writeSeq)
        invariant written + |Flatten(sendableTls)| == |old(Flatten(sendableTls))|
        invariant written <= out.Length
        invariant out[..written] + Flatten(sendableTls) == old(Flatten(sendableTls))
        invariant out[written..] == old(out[..])[written..]
        decreases |sendableTls|
      {
        var message := sendableTls[0];
        Emit(out, written, message, old(out[..]));
        Assoc(out[..written], message, Flatten(sendableTls[1..]));
        sendableTls := sendableTls[1..];
        written := written + |message|;
      }
      Unit(out[..written]);
      assert out[..written] == old(Flatten(sendableTls));
      written := EncryptFragments(out, written, fragments, old(out[..]));
    }

    /** The key's message limit is one of the next `count` sequence numbers. */
    ghost predicate LimitWithin(count: nat)
      reads recordLayer
    {
      recordLayer.writeSeq <= recordLayer.writeSeqMax < recordLayer.writeSeq + count
    }

    /** Asks about every fragment's sequence number before any is used. */
    method LookAhead(count: nat) returns (exhausted: bool)
      requires Valid()
      modifies this`sendableTls, this`queuedKeyUpdate, this`refreshPending
      modifies this`sentFatalAlert, this`hasSentCloseNotify
      modifies recordLayer`writeSeq, recordLayer`used
      ensures Valid()
      ensures !exhausted ==> recordLayer.writeSeq + count <= SEQ_HARD_LIMIT
      // the number space would run out, or (before TLS 1.3) the key's limit is among the numbers asked for
      ensures exhausted <==>
                old(recordLayer.writeSeq) + count > SEQ_HARD_LIMIT ||
                (!tls13 && old(LimitWithin(count)))
      ensures if !tls13 && old(LimitWithin(count)) then Notified() else Unmoved()
      ensures refreshPending <==> old(refreshPending) || (tls13 && old(LimitWithin(count)))
    {
      var f := 0;
      while f < count
        invariant 0 <= f <= count
        invariant Valid()
        invariant Unmoved()
        invariant recordLayer.writeSeqMax == old(recordLayer.writeSeqMax)
        invariant recordLayer.writeSeq + f <= SEQ_HARD_LIMIT
        invariant old(LimitWithin(f)) ==> tls13
        invariant refreshPending <==> old(refreshPending) || old(LimitWithin(f))
      {
        var action := recordLayer.Action(f);
        RefreshOnceBeforeRefuse(recordLayer.writeSeqMax, SaturatingAdd(recordLayer.writeSeq, f));
        match action {
          case Nothing =>
          case RefreshOrClose =>
            if tls13 {
              refreshPending := true;
            } else {
              SendCloseNotify();
              return true;
            }
          case Refuse => return true;
        }
        f := f + 1;
      }
      exhausted := false;
    }

    /**
     * Encrypts `fragments` into `out`. Every check comes before the first sequence number is taken:
     * on any error the buffer is untouched, and a too-small buffer costs nothing at all.
     */
    method WritePlaintext(fragments: seq<bytes>, out: array<byte>) returns (r: Written)
      requires Valid()
      modifies this`sendableTls, this`queuedKeyUpdate, this`refreshPending
      modifies this`sentFatalAlert, this`hasSentCloseNotify
      modifies recordLayer`writeSeq, recordLayer`used, out
      ensures Valid()
      ensures fragments == [] ==> r == Ok(0) && out[..] == old(out[..]) && Unmoved()
      ensures r.Ok? && fragments != [] ==>
                var queue := old(sendableTls + Queued(queuedKeyUpdate));
                && r.n == |Flatten(queue)| + SizeOf(cipher, fragments) <= out.Length
                && out[..r.n] == Expected(queue, old(recordLayer.writeSeq), fragments)
                && out[r.n..] == old(out[..])[r.n..]
                && sendableTls == [] && queuedKeyUpdate == None
                && recordLayer.writeSeq == old(recordLayer.writeSeq) + |fragments|
      ensures r == Err(EncryptExhausted) <==>
                fragments != [] && (|| old(recordLayer.writeSeq) + |fragments| > SEQ_HARD_LIMIT
                                    || (!tls13 && old(LimitWithin(|fragments|))))
      ensures r.Err? ==> out[..] == old(out[..])
      ensures r.Err? && r.error.InsufficientSize? ==>
                && recordLayer.writeSeq == old(recordLayer.writeSeq)
                && sendableTls == old(sendableTls + Queued(queuedKeyUpdate)) && queuedKeyUpdate == None
                && r.error.required == |Flatten(sendableTls)| + SizeOf(cipher, fragments)
                && r.error.required > out.Length
      // before TLS 1.3 a key at its limit is closed with an alert; otherwise exhaustion changes nothing
      ensures r == Err(EncryptExhausted) ==> if !tls13 && old(LimitWithin(|fragments|)) then Notified() else Unmoved()
      ensures r != Err(EncryptExhausted) ==>
                sentFatalAlert == old(sentFatalAlert) && hasSentCloseNotify == old(hasSentCloseNotify)
      ensures refreshPending <==> old(refreshPending) || (tls13 && old(LimitWithin(|fragments|)))
    {
      if fragments == [] {
        return Ok(0);
      }
      var exhausted := LookAhead(|fragments|);
      if exhausted {
        return Err(EncryptExhausted);
      }
      PerhapsWriteKeyUpdate();
      var required, fits := CheckRequiredSize(out.Length, fragments);
      if !fits {
        return Err(InsufficientSize(required));
      }
      var n := WriteFragments(out, fragments);
      assert old(out[..])[n..] == old(out[n..]);
      r := Ok(n);
    }
  }
}
