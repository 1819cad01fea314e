/** TLS record protection: write sequence numbers, key epochs and the trial-decryption budget. */
module RecordLayer {
  import opened Bytes

  const U64_MAX: nat := 0xffff_ffff_ffff_ffff
  const SEQ_SOFT_LIMIT: nat := 0xffff_ffff_ffff_0000
  const SEQ_HARD_LIMIT: nat := 0xffff_ffff_ffff_fffe

  datatype DirectionState = Invalid | Prepared | Active

  datatype PreEncryptAction = Nothing | RefreshOrClose | Refuse

  /** A key and a sequence number: what must never be used twice. Epochs number the keys. */
  datatype Nonce = Nonce(epoch: nat, seqno: nat)

  function SaturatingAdd(a: nat, b: nat): nat {
    if a + b > U64_MAX then U64_MAX else a + b
  }

  /** The remedy due before the message with sequence number `v`. */
  function ActionAt(v: nat, max: nat): PreEncryptAction {
    if v == max then RefreshOrClose else if v >= SEQ_HARD_LIMIT then Refuse else Nothing
  }

  /** The numbers used under each key are 0, 1, 2, ... in order, and keys do not come back. */
  ghost predicate Sequential(used: seq<Nonce>, epoch: nat, next: nat) {
    if used == [] then next == 0
    else
      var last := used[|used| - 1];
      && last.epoch <= epoch
      && (last.epoch == epoch ==> next == last.seqno + 1)
      && (last.epoch < epoch ==> next == 0)
      && Sequential(used[..|used| - 1], last.epoch, last.seqno)
  }

  lemma {:induction false} SequentialBelow(used: seq<Nonce>, epoch: nat, next: nat, i: nat)
    requires Sequential(used, epoch, next) && i < |used|
    ensures used[i].epoch < epoch || (used[i].epoch == epoch && used[i].seqno < next)
    decreases |used|
  {
    var init, last := used[..|used| - 1], used[|used| - 1];
    if i < |used| - 1 {
      SequentialBelow(init, last.epoch, last.seqno, i);
      assert init[i] == used[i];
    }
  }

  /** No nonce reuse: earlier uses are of an older key, or of a smaller number under the same key. */
  lemma {:induction false} NoNonceReuse(used: seq<Nonce>, epoch: nat, next: nat, i: nat, j: nat)
    requires Sequential(used, epoch, next) && i < j < |used|
    ensures used[i] != used[j]
    ensures used[i].epoch < used[j].epoch || (used[i].epoch == used[j].epoch && used[i].seqno < used[j].seqno)
    decreases |used|
  {
    var init, last := used[..|used| - 1], used[|used| - 1];
    if j == |used| - 1 {
      SequentialBelow(init, last.epoch, last.seqno, i);
      assert init[i] == used[i];
    } else {
      NoNonceReuse(init, last.epoch, last.seqno, i, j);
      assert init[i] == used[i] && init[j] == used[j];
    }
  }

  /** Each key is used from 0 on without gaps. */
  lemma {:induction false} NumbersAreDense(used: seq<Nonce>, epoch: nat, next: nat, i: nat)
    requires Sequential(used, epoch, next) && i < |used| && used[i].seqno > 0
    ensures i > 0 && used[i - 1] == Nonce(used[i].epoch, used[i].seqno - 1)
    decreases |used|
  {
    var init, last := used[..|used| - 1], used[|used| - 1];
    if i < |used| - 1 {
      NumbersAreDense(init, last.epoch, last.seqno, i);
      assert init[i] == used[i] && init[i - 1] == used[i - 1];
    } else if init != [] {
      assert init[|init| - 1] == used[i - 1];
    }
  }

  /** Every number below the next one has been used under the current key. */
  lemma {:induction false} UsedBelow(used: seq<Nonce>, epoch: nat, next: nat, v: nat)
    requires Sequential(used, epoch, next) && v < next
    ensures Nonce(epoch, v) in used
    decreases |used|
  {
    var init, last := used[..|used| - 1], used[|used| - 1];
    if v + 1 < next {
      UsedBelow(init, last.epoch, last.seqno, v);
    }
  }

  /**
   * Under a key with limit `max`, the refresh-or-close remedy is reported at `max` and nowhere else,
   * and every number at which encryption is refused comes later.
   */
  lemma RefreshOnceBeforeRefuse(max: nat, v: nat)
    requires max <= SEQ_SOFT_LIMIT
    ensures ActionAt(v, max) == RefreshOrClose <==> v == max
    ensures ActionAt(v, max) == Refuse <==> v >= SEQ_HARD_LIMIT
    ensures ActionAt(v, max) == Refuse ==> v > max + 65000
  {
    assert SEQ_SOFT_LIMIT + 65000 < SEQ_HARD_LIMIT;
  }

  class RecordLayer {
    var writeSeqMax: nat
    var writeSeq: nat
    var encryptState: DirectionState
    var trialDecryptionLen: Option<nat>
    ghost var epoch: nat
    ghost var used: seq<Nonce>

    ghost predicate Valid()
      reads this
    {
      && writeSeqMax <= SEQ_SOFT_LIMIT
      && writeSeq <= SEQ_HARD_LIMIT
      && Sequential(used, epoch, writeSeq)
      && forall i | 0 <= i < |used| :: used[i].seqno < SEQ_HARD_LIMIT
    }

    constructor ()
      ensures Valid() && used == [] && epoch == 0 && encryptState == Invalid
      ensures writeSeq == 0 && writeSeqMax == 0 && trialDecryptionLen == None
    {
      writeSeqMax, writeSeq, encryptState, trialDecryptionLen := 0, 0, Invalid, None;
      epoch, used := 0, [];
    }

    function Action(add: nat): PreEncryptAction
      reads this
    {
      ActionAt(SaturatingAdd(writeSeq, add), writeSeqMax)
    }

    lemma NotRefused()
      requires Valid() && writeSeq < SEQ_HARD_LIMIT
      ensures Action(0) != Refuse
    {
    }

    /** Takes the next sequence number; callers have checked that it is not refused. */
    method EncryptOutgoing() returns (seqno: nat)
      requires Valid() && encryptState == Active
      requires Action(0) != Refuse
      modifies this`writeSeq, this`used
      ensures Valid()
      ensures seqno == old(writeSeq) && writeSeq == seqno + 1
      ensures used == old(used) + [Nonce(epoch, seqno)]
    {
      seqno := writeSeq;
      RefreshOnceBeforeRefuse(writeSeqMax, writeSeq);
      used := used + [Nonce(epoch, seqno)];
      assert used[..|used| - 1] == old(used);
      writeSeq := writeSeq + 1;
    }

    method PrepareMessageEncrypter(maxMessages: nat)
      requires Valid()
      modifies this`writeSeq, this`writeSeqMax, this`encryptState, this`epoch
      ensures Valid() && encryptState == Prepared && writeSeq == 0 && epoch == old(epoch) + 1
      ensures writeSeqMax == Min(SEQ_SOFT_LIMIT, maxMessages)
    {
      writeSeq := 0;
      writeSeqMax := Min(SEQ_SOFT_LIMIT, maxMessages);
      encryptState := Prepared;
      epoch := epoch + 1;
    }

    method StartEncrypting()
      requires Valid() && encryptState == Prepared
      modifies this`encryptState
      ensures Valid() && encryptState == Active
    {
      encryptState := Active;
    }

    /** Spends the budget for messages that may belong to other keys. */
    method DoingTrialDecryption(requested: nat) returns (ok: bool)
      modifies this`trialDecryptionLen
      ensures ok <==> old(trialDecryptionLen).Some? && requested <= old(trialDecryptionLen).value
      ensures if ok then trialDecryptionLen == Some(old(trialDecryptionLen).value - requested)
              else trialDecryptionLen == old(trialDecryptionLen)
    {
      ok := trialDecryptionLen.Some? && requested <= trialDecryptionLen.value;
      if ok {
        trialDecryptionLen := Some(trialDecryptionLen.value - requested);
      }
    }
  }

  // ---------------------------------------------------------------- runs

  datatype Op = Prepare(maxMessages: nat) | Start | Encrypt

  /** The limit of every key so far; entry 0 stands for the time before the first key. */
  function Limits(ops: seq<Op>): (limits: seq<nat>)
    ensures limits != []
  {
    if ops == [] then [0]
    else
      match ops[|ops| - 1]
      case Prepare(max) => Limits(ops[..|ops| - 1]) + [Min(SEQ_SOFT_LIMIT, max)]
      case _ => Limits(ops[..|ops| - 1])
  }

  /** The current key: how many have been prepared. */
  function Epoch(ops: seq<Op>): nat {
    |Limits(ops)| - 1
  }

  function StateAfter(ops: seq<Op>): DirectionState {
    if ops == [] then Invalid
    else
      match ops[|ops| - 1]
      case Prepare(_) => Prepared
      case Start => Active
      case Encrypt => StateAfter(ops[..|ops| - 1])
  }

  /** How many messages have been encrypted since the last key came. */
  function Since(ops: seq<Op>): nat {
    if ops == [] then 0
    else
      match ops[|ops| - 1]
      case Prepare(_) => 0
      case Start => Since(ops[..|ops| - 1])
      case Encrypt => Since(ops[..|ops| - 1]) + 1
  }

  /** The nonce each encryption takes: its key and how often that key was used before. */
  function Nonces(ops: seq<Op>): seq<Nonce> {
    if ops == [] then []
    else
      var before := ops[..|ops| - 1];
      Nonces(before) + (if ops[|ops| - 1].Encrypt? then [Nonce(Epoch(before), Since(before))] else [])
  }

  /** What the layer's own assertions reject. */
  predicate Rejects(op: Op, state: DirectionState, next: nat, max: nat) {
    match op
    case Prepare(_) => false
    case Start => state != Prepared
    case Encrypt => state != Active || ActionAt(next, max) == Refuse
  }

  predicate RejectedAt(ops: seq<Op>, i: nat)
    requires i < |ops|
  {
    var before := ops[..i];
    Rejects(ops[i], StateAfter(before), Since(before), Limits(before)[Epoch(before)])
  }

  lemma Unused()
    ensures Limits([]) == [0] && StateAfter([]) == Invalid && Since([]) == 0 && Nonces([]) == []
  {
  }

  lemma OneMore(ops: seq<Op>, i: nat)
    requires i < |ops|
    ensures var a, b := ops[..i], ops[..i + 1];
            match ops[i]
            case Prepare(max) =>
              && Limits(b) == Limits(a) + [Min(SEQ_SOFT_LIMIT, max)]
              && StateAfter(b) == Prepared && Since(b) == 0 && Nonces(b) == Nonces(a)
            case Start =>
              && Limits(b) == Limits(a)
              && StateAfter(b) == Active && Since(b) == Since(a) && Nonces(b) == Nonces(a)
            case Encrypt =>
              && Limits(b) == Limits(a)
              && StateAfter(b) == StateAfter(a) && Since(b) == Since(a) + 1
              && Nonces(b) == Nonces(a) + [Nonce(Epoch(a), Since(a))]
  {
    var t := ops[..i + 1];
    assert t[..|t| - 1] == ops[..i] && t[|t| - 1] == ops[i];
  }

  /** The reports of a run: every use of a number that is its key's limit and no other, once for each key. */
  ghost predicate Reported(used: seq<Nonce>, due: seq<Nonce>, limits: seq<nat>) {
    && (forall x | x in used :: x.epoch < |limits| && (x in due <==> x.seqno == limits[x.epoch]))
    && (forall x | x in due :: x in used)
    && (forall i, j | 0 <= i < j < |due| :: due[i].epoch < due[j].epoch)
  }

  lemma NothingReported()
    ensures Reported([], [], [0])
  {
  }

  lemma NewKey(used: seq<Nonce>, due: seq<Nonce>, limits: seq<nat>, limit: nat)
    requires Reported(used, due, limits)
    ensures Reported(used, due, limits + [limit])
  {
  }

  lemma OneUse(used: seq<Nonce>, due: seq<Nonce>, limits: seq<nat>, next: nat)
    requires limits != [] && Reported(used, due, limits) && Sequential(used, |limits| - 1, next)
    ensures var x := Nonce(|limits| - 1, next);
            Reported(used + [x], if next == limits[|limits| - 1] then due + [x] else due, limits)
  {
    var epoch := |limits| - 1;
    forall x | x in used
      ensures x.epoch < epoch || (x.epoch == epoch && x.seqno < next)
    {
      var i :| 0 <= i < |used| && used[i] == x;
      SequentialBelow(used, epoch, next, i);
    }
    hide Sequential;
  }

  lemma AtLimit(used: seq<Nonce>, due: seq<Nonce>, limits: seq<nat>, epoch: nat)
    requires epoch < |limits| && Reported(used, due, limits) && Nonce(epoch, limits[epoch]) in used
    ensures Nonce(epoch, limits[epoch]) in due
  {
  }

  /**
   * Any use of the layer, up to the first call its own assertions reject: the nonces used and those
   * before which refresh-or-close was reported.
   */
  method Use(ops: seq<Op>) returns (used: seq<Nonce>, due: seq<Nonce>, made: nat)
    // it stops at the first rejected call
    ensures made <= |ops| && forall i | 0 <= i < made :: !RejectedAt(ops, i)
    ensures made < |ops| ==> RejectedAt(ops, made)
    // every encryption takes its own nonce
    ensures used == Nonces(ops[..made]) && Sequential(used, Epoch(ops[..made]), Since(ops[..made]))
    ensures forall i, j | 0 <= i < j < |used| :: used[i] != used[j]
    ensures forall i | 0 <= i < |used| :: used[i].seqno < SEQ_HARD_LIMIT
    // the remedy is reported exactly when a key reaches its limit, and long before a refusal
    ensures Reported(used, due, Limits(ops[..made]))
    ensures made < |ops| && ops[made].Encrypt? && StateAfter(ops[..made]) == Active ==>
              && Since(ops[..made]) == SEQ_HARD_LIMIT
              && var epoch := Epoch(ops[..made]); Nonce(epoch, Limits(ops[..made])[epoch]) in due
  {
    hide Sequential;
    hide Reported;
    hide Limits;
    hide StateAfter;
    hide Since;
    hide Nonces;
    Unused();
    NothingReported();
    var rl := new RecordLayer();
    used, due, made := [], [], 0;
    while made < |ops| && !Rejects(ops[made], rl.encryptState, rl.writeSeq, rl.writeSeqMax)
      invariant 0 <= made <= |ops| && forall i | 0 <= i < made :: !RejectedAt(ops, i)
      invariant fresh(rl) && rl.Valid() && rl.used == used == Nonces(ops[..made])
      invariant rl.epoch == Epoch(ops[..made]) && rl.writeSeq == Since(ops[..made])
      invariant rl.encryptState == StateAfter(ops[..made])
      invariant rl.writeSeqMax == Limits(ops[..made])[rl.epoch]
      invariant Reported(used, due, Limits(ops[..made]))
    {
      OneMore(ops, made);
      var limits := Limits(ops[..made]);
      match ops[made] {
        case Prepare(limit) =>
          NewKey(used, due, limits, Min(SEQ_SOFT_LIMIT, limit));
          rl.PrepareMessageEncrypter(limit);
        case Start => rl.StartEncrypting();
        case Encrypt =>
          var x := Nonce(|limits| - 1, rl.writeSeq);
          OneUse(used, due, limits, rl.writeSeq);
          if rl.Action(0) == RefreshOrClose {
            due := due + [x];
          }
          var n := rl.EncryptOutgoing();
          used := used + [x];
      }
      made := made + 1;
    }
    forall i, j | 0 <= i < j < |used|
      ensures used[i] != used[j]
    {
      NoNonceReuse(used, rl.epoch, rl.writeSeq, i, j);
    }
    if rl.writeSeq > rl.writeSeqMax {
      UsedBelow(used, rl.epoch, rl.writeSeq, rl.writeSeqMax);
      AtLimit(used, due, Limits(ops[..made]), rl.epoch);
    }
  }
}
