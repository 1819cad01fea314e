/** The streaming fragmenter: a write adapter that rewrites the first ClientHello it sees. */
module FragmentWriter {
  import opened Bytes
  import opened Sockets
  import opened Fragment

  /** How the inner stream answers one write: it takes up to n bytes, is not ready, or fails. */
  datatype Answer = Takes(n: nat) | NotReady | Breaks

  datatype Poll<+T> = Ready(value: T) | Pending | Failed

  predicate StartsClientHello(s: bytes) {
    RecordLen(s).Some? && IsClientHello(s[..RecordLen(s).value])
  }

  /** A first record that is a handshake record as far as can be told, and not all there. */
  predicate Unclassified(s: bytes) {
    s != [] && s[0] == 0x16 && RecordLen(s) == None
  }

  predicate Classified(s: bytes) {
    s != [] && !Unclassified(s)
  }

  lemma EitherWay(s: bytes)
    ensures Classified(s) <==> s != [] && !Unclassified(s)
    ensures Unclassified(s) ==> s != [] && !StartsClientHello(s)
    ensures StartsClientHello(s) ==> s != []
  {
  }

  /** Once the first record is settled, more bytes do not change what it is. */
  lemma ClassifiedStays(s: bytes, more: bytes)
    requires Classified(s)
    ensures Classified(s + more)
    ensures StartsClientHello(s + more) <==> StartsClientHello(s)
  {
    var all := s + more;
    assert all[0] == s[0];
    if RecordLen(s).Some? {
      RecordLenStable(s, more);
      var n := RecordLen(s).value;
      assert all[..n] == s[..n];
    }
  }

  /** What the destination is owed for `s`: its first record cut into pieces, or all of it as it is. */
  function Rewritten(s: bytes, cut: bool, p: Params, randoms: nat -> nat): bytes
    requires cut ==> StartsClientHello(s)
  {
    if !cut then s
    else
      var n := RecordLen(s).value;
      Fragmented(s[..n], Pieces(s[..n][5..], p, randoms, 0)) + s[n..]
  }

  lemma RewrittenAppend(s: bytes, cut: bool, p: Params, randoms: nat -> nat, more: bytes)
    requires cut ==> StartsClientHello(s)
    ensures cut ==> StartsClientHello(s + more)
    ensures Rewritten(s + more, cut, p, randoms) == Rewritten(s, cut, p, randoms) + more
  {
    hide Fragmented;
    hide Pieces;
    if cut {
      RecordLenStable(s, more);
      var n := RecordLen(s).value;
      assert (s + more)[..n] == s[..n] && (s + more)[n..] == s[n..] + more;
      Assoc(Fragmented(s[..n], Pieces(s[..n][5..], p, randoms, 0)), s[n..], more);
    }
  }

  lemma Uncut(s: bytes, p: Params, randoms: nat -> nat)
    ensures Rewritten(s, false, p, randoms) == s
  {
  }

  /** No handshake record, or not all of it yet. */
  lemma NoHello(s: bytes)
    requires s == [] || s[0] != 0x16 || RecordLen(s) == None
    ensures !StartsClientHello(s)
    ensures Unclassified(s) <==> s != [] && s[0] == 0x16
    ensures Classified(s) <==> s != [] && s[0] != 0x16
  {
  }

  /** The first record is all there. */
  lemma WholeRecord(s: bytes, p: Params, randoms: nat -> nat)
    requires RecordLen(s).Some?
    ensures var n := RecordLen(s).value;
            && Classified(s)
            && (StartsClientHello(s) <==> IsClientHello(s[..n]))
            && Rewritten(s, StartsClientHello(s), p, randoms) ==
               (if IsClientHello(s[..n]) then Fragmented(s[..n], Pieces(s[..n][5..], p, randoms, 0)) else s[..n]) + s[n..]
  {
    hide Fragmented;
    hide Pieces;
    assert s == s[..RecordLen(s).value] + s[RecordLen(s).value..];
  }

  /**
   * A receiver of a cut stream reads the first ClientHello as records of its type and version, none
   * empty or longer than the range allows, with the same payload; the rest of the stream follows.
   */
  lemma CutReassembles(s: bytes, p: Params, randoms: nat -> nat)
    requires StartsClientHello(s)
    ensures var n := RecordLen(s).value;
            var rs := Wrap(s[..n], Pieces(s[..n][5..], p, randoms, 0));
            && Rewritten(s, true, p, randoms) == EmitAll(rs) + s[n..]
            && Records(EmitAll(rs)) == Some(rs)
            && Payloads(rs) == s[5..n]
            && forall i | 0 <= i < |rs| ::
                 && rs[i].contentType == s[0] && rs[i].major == s[1] && rs[i].minor == s[2]
                 && 1 <= |rs[i].payload| <= p.Bound()
  {
    hide Pieces;
    hide EmitAll;
    hide Records;
    hide Payloads;
    hide Params.Bound;
    var n := RecordLen(s).value;
    var record := s[..n];
    PiecesCut(record[5..], p, randoms, 0);
    FragmentsReassemble(record, Pieces(record[5..], p, randoms, 0), p.Bound());
    assert record[5..] == s[5..n];
  }

  /** Bytes handed over and bytes still waiting stay the same stream. */
  lemma MovedOn(sunk: bytes, out: bytes, at: nat, n: nat)
    requires at + n <= |out|
    ensures sunk + out[at..] == (sunk + out[at..][..n]) + out[at + n..]
  {
    assert out[at..] == out[at..][..n] + out[at + n..];
    Assoc(sunk, out[at..][..n], out[at + n..]);
  }

  /** Answer i of the inner stream is no progress; past the last answer it waits. */
  predicate StallsAt(script: seq<Answer>, i: nat) {
    i < |script| ==> !script[i].Takes? || script[i].n == 0
  }

  /** How many of the first `asked` answers are no progress. */
  function Stalls(script: seq<Answer>, asked: nat): nat {
    if asked == 0 then 0 else Stalls(script, asked - 1) + (if StallsAt(script, asked - 1) then 1 else 0)
  }

  /** The last answer was an error, or a write of nothing, which is made one. */
  predicate Fails(script: seq<Answer>, asked: nat) {
    0 < asked <= |script| && (script[asked - 1].Breaks? || script[asked - 1] == Takes(0))
  }

  datatype Call = Write(buf: bytes) | Flush(inner: Poll<()>) | Shutdown(inner: Poll<()>)

  function Plain(r: Poll<()>): Poll<nat> {
    match r
    case Ready(_) => Ready(0)
    case Pending => Pending
    case Failed => Failed
  }

  /** The answer is not what the caller could hope for: no byte taken, or not the inner stream's own. */
  predicate FallsShort(call: Call, answer: Poll<nat>) {
    match call
    case Write(buf) => !answer.Ready? || (buf != [] && answer.value == 0)
    case Flush(inner) => answer != Plain(inner)
    case Shutdown(inner) => answer != Plain(inner)
  }

  /** How one call moves the adapter: the bytes taken charge of, and whether the first record is settled and cut. */
  predicate Moves(call: Call, a: Poll<nat>, t0: bytes, d0: bool, c0: bool, t1: bytes, d1: bool, c1: bool) {
    match call
    case Write(buf) =>
      if d0 then
        d1 && c1 == c0 && match a case Ready(n) => n <= |buf| && t1 == t0 + buf[..n] case _ => t1 == t0
      else if a.Failed? && t1 == t0 then
        // the panic
        !d1 && c1 == c0 && buf != []
      else
        && a != Pending && (a.Ready? ==> a.value == |buf|)
        && t1 == t0 + buf && (d1 <==> t1 == [] || Classified(t1)) && (c1 <==> StartsClientHello(t1))
    case Flush(_) => t1 == t0 && c1 == c0 && (d1 <==> d0 || t0 != [])
    case Shutdown(_) => t1 == t0 && c1 == c0 && d1 == d0
  }

  /** Why a call fails: the inner stream's own error, or the panic on a ClientHello that is to be cut. */
  predicate Excused(call: Call, script: seq<Answer>, asked: nat, p: Params, before: bytes, done: bool) {
    match call
    case Write(buf) =>
      && (Fails(script, asked) || (p.Overflows() && !done && StartsClientHello(before + buf)))
      && (done || Classified(before + buf))
    case Flush(inner) => Fails(script, asked) || inner.Failed?
    case Shutdown(inner) => Fails(script, asked) || inner.Failed?
  }

  class FragmentWriter {
    const params: Params
    const randoms: nat -> nat
    const script: seq<Answer>     // how the inner stream will answer
    var asked: nat                // how often it has been asked
    var sunk: bytes               // what it has taken
    var acc: bytes
    var out: bytes
    var outPos: nat
    var done: bool
    ghost var taken: bytes        // everything this adapter took charge of
    ghost var cut: bool           // the first record was a ClientHello and has been cut
    ghost var hitches: nat        // answers of the inner stream that were no progress
    ghost var vain: nat           // empty writes handed to the inner stream

    /** Every answer of the inner stream is a hitch, sinks a byte, or answers an empty write. */
    ghost predicate Paced()
      reads this`asked, this`sunk, this`hitches, this`vain
    {
      hitches <= Stalls(script, asked) && asked <= |sunk| + Stalls(script, asked) + vain
    }

    /** The inner stream's bytes, the undrained output and the accumulator are the input, rewritten. */
    ghost predicate Valid()
      reads this
    {
      && outPos <= |out|
      && (cut ==> done && StartsClientHello(taken))
      && sunk + out[outPos..] + acc == Rewritten(taken, cut, params, randoms)
      && (if done then acc == [] else out == [] && sunk == [] && (acc == [] || Unclassified(acc)))
      && Paced()
    }

    /** Output waits only for an inner stream that makes no progress. */
    ghost predicate Waiting()
      reads this`out, this`asked
    {
      out != [] ==> asked > 0 && StallsAt(script, asked - 1)
    }

    constructor (params: Params, randoms: nat -> nat, script: seq<Answer>)
      ensures Valid() && Waiting() && !done && !cut && taken == [] && sunk == [] && asked == 0 && hitches == 0 && vain == 0
      ensures this.params == params && this.randoms == randoms && this.script == script
    {
      this.params, this.randoms, this.script := params, randoms, script;
      asked, sunk, acc, out, outPos, done := 0, [], [], [], 0, false;
      taken, cut, hitches, vain := [], false, 0, 0;
    }

    /** One write to the inner stream. */
    method InnerWrite(data: bytes) returns (r: Poll<nat>)
      requires Paced()
      modifies this`asked, this`sunk, this`hitches, this`vain
      ensures Paced() && asked == old(asked) + 1
      ensures r.Ready? ==> r.value <= |data| && sunk == old(sunk) + data[..r.value]
      ensures !r.Ready? ==> sunk == old(sunk)
      ensures old(asked) >= |script| ==> r.Pending?
      ensures old(asked) < |script| && script[old(asked)].Takes? ==> r == Ready(Min(script[old(asked)].n, |data|))
      ensures hitches == old(hitches) + (if r.Ready? && (r.value > 0 || data == []) then 0 else 1)
      ensures vain == old(vain) + (if data == [] then 1 else 0)
      ensures r.Failed? || (r.Ready? && r.value == 0 && data != []) ==> Fails(script, asked)
      ensures !r.Ready? || (r.value == 0 && data != []) ==> StallsAt(script, asked - 1)
    {
      if data == [] {
        vain := vain + 1;
      }
      asked := asked + 1;
      if asked > |script| {
        hitches := hitches + 1;
        return Pending;
      }
      match script[asked - 1] {
        case Takes(n) =>
          var m := Min(n, |data|);
          sunk := sunk + data[..m];
          r := Ready(m);
          if m == 0 && data != [] {
            hitches := hitches + 1;
          }
        case NotReady =>
          hitches := hitches + 1;
          r := Pending;
        case Breaks =>
          hitches := hitches + 1;
          r := Failed;
      }
    }

    /** Moves `out` to the inner stream; Ready only when all of it is gone. */
    method Drain() returns (r: Poll<()>)
      requires outPos <= |out| && Paced()
      modifies this`asked, this`sunk, this`out, this`outPos, this`hitches, this`vain
      ensures outPos <= |out| && Paced() && vain == old(vain)
      ensures sunk + out[outPos..] == old(sunk + out[outPos..])
      ensures r.Ready? ==> out == [] && hitches == old(hitches)
      ensures !r.Ready? ==> hitches == old(hitches) + 1
      ensures old(out) == [] ==> r.Ready? && out == [] && sunk == old(sunk) && asked == old(asked)
      ensures Waiting() && (r.Failed? ==> Fails(script, asked))
    {
      hide Paced;
      hide Fails;
      hide StallsAt;
      while outPos < |out|
        invariant outPos <= |out| && out == old(out) && Paced() && vain == old(vain)
        invariant sunk + out[outPos..] == old(sunk + out[outPos..])
        invariant out == [] ==> sunk == old(sunk) && asked == old(asked)
        invariant hitches == old(hitches)
        decreases |out| - outPos
      {
        ghost var before := sunk;
        var w := InnerWrite(out[outPos..]);
        match w {
          case Ready(n) =>
            MovedOn(before, out, outPos, n);
            if n == 0 {
              return Failed;
            }
            outPos := outPos + n;
          case Failed => return Failed;
          case Pending => return Pending;
        }
      }
      out, outPos := [], 0;
      r := Ready(());
    }

    /** Before the first record is settled nothing has gone out, and all input is in the accumulator. */
    lemma Held()
      requires Valid()
      ensures if done then acc == []
              else acc == taken && sunk == [] && out == [] && (taken != [] ==> Unclassified(taken))
    {
      Unit(acc);
    }

    /** The account of a run: where every byte is, and how often the inner stream was asked. */
    lemma Account()
      requires Valid()
      ensures outPos <= |out| && (cut ==> StartsClientHello(taken))
      ensures sunk + out[outPos..] + acc == Rewritten(taken, cut, params, randoms)
      ensures hitches <= Stalls(script, asked) && asked <= |sunk| + Stalls(script, asked) + vain
    {
    }

    /** Past the first record, writes go straight to the inner stream. */
    method PassOn(buf: bytes) returns (r: Poll<nat>)
      requires Valid() && done && out == []
      modifies this`asked, this`sunk, this`taken, this`hitches, this`vain
      ensures Valid()
      ensures !r.Ready? || (r.value == 0 && buf != []) ==> hitches > old(hitches)
      ensures hitches >= old(hitches) && vain == old(vain) + (if buf == [] then 1 else 0)
      ensures r.Ready? ==> r.value <= |buf| && taken == old(taken) + buf[..r.value]
      ensures !r.Ready? ==> taken == old(taken)
      ensures r.Failed? ==> Fails(script, asked)
      ensures old(asked) < |script| && script[old(asked)].Takes? ==> r == Ready(Min(script[old(asked)].n, |buf|))
    {
      hide Fragmented;
      hide RecordLen;
      hide StartsClientHello;
      hide Rewritten;
      hide Paced;
      Unit(sunk);
      r := InnerWrite(buf);
      if r.Ready? {
        RewrittenAppend(taken, cut, params, randoms, buf[..r.value]);
        taken := taken + buf[..r.value];
      }
      Unit(sunk);
    }

    /** Holds the first record until it can be classified, then replaces or passes it. */
    method Accumulate(buf: bytes) returns (panicked: bool)
      requires Valid() && !done
      modifies this`acc, this`out, this`outPos, this`done, this`taken, this`cut
      ensures Valid()
      ensures panicked ==>
                && params.Overflows() && StartsClientHello(old(taken) + buf) && buf != []
                && taken == old(taken) && !done && out == [] && cut == old(cut)
      ensures !panicked ==>
                && taken == old(taken) + buf
                && (done <==> taken == [] || Classified(taken))
                && (cut <==> StartsClientHello(taken))
                && (taken == [] ==> out == [])
      ensures panicked ==> !Unclassified(old(taken) + buf) && old(taken) + buf != []
    {
      hide Fragmented;
      hide Pieces;
      hide Paced;
      hide Rewritten;
      hide RecordLen;
      hide StartsClientHello;
      hide Classified;
      hide Unclassified;
      Held();
      panicked := false;
      var all := acc + buf;
      Uncut(all, params, randoms);
      if all == [] || all[0] != 0x16 {
        NoHello(all);
        out, outPos, acc, done := all, 0, [], true;
      } else if RecordLen(all).Some? {
        var total := RecordLen(all).value;
        WholeRecord(all, params, randoms);
        EitherWay(all);
        EitherWay(taken);
        Unit(taken);
        var f := FragmentClientHelloToVec(all[..total], params, randoms);
        if f == None {
          return true;
        }
        cut := IsClientHello(all[..total]);
        out, outPos, acc, done := f.value + all[total..], 0, [], true;
      } else {
        NoHello(all);
        acc := all;
      }
      taken := taken + buf;
      Unit(out);
      Unit(acc);
    }

    /**
     * An empty accumulator is settled by any write, even an empty one. The panic of a range too wide
     * to draw from counts as a failure.
     */
    method PollWrite(buf: bytes) returns (r: Poll<nat>)
      requires Valid() && Waiting()
      modifies this
      ensures Valid() && Waiting()
      ensures Moves(Write(buf), r, old(taken), old(done), old(cut), taken, done, cut)
      ensures r.Failed? ==> Excused(Write(buf), script, asked, params, old(taken), old(done))
      ensures r.Ready? ==> r.value <= |buf| && taken == old(taken) + buf[..r.value]
      // bytes are turned away only when the inner stream made no progress
      ensures !r.Ready? ==> hitches > old(hitches) || (r.Failed? && params.Overflows())
      ensures r.Ready? && buf != [] && r.value == 0 ==> hitches > old(hitches)
      ensures hitches >= old(hitches) && vain <= old(vain) + (if buf == [] then 1 else 0)
      ensures !old(done) && (old(taken) + buf == [] || Unclassified(old(taken) + buf)) ==>
                r.Ready? && out == [] && asked == old(asked)
      ensures old(done) && old(out) == [] && old(asked) < |script| && script[old(asked)].Takes? ==>
                r == Ready(Min(script[old(asked)].n, |buf|)) && out == []
    {
      hide Fragmented;
      hide RecordLen;
      hide Classified;
      hide Unclassified;
      hide StartsClientHello;
      hide Rewritten;
      hide Paced;
      Held();
      EitherWay(taken);
      EitherWay(taken + buf);
      Unit(taken);
      if out != [] {
        var d := Drain();
        if d.Pending? {
          return Pending;
        }
        if d.Failed? {
          return Failed;
        }
      }
      if done {
        r := PassOn(buf);
        return;
      }
      var panicked := Accumulate(buf);
      if panicked {
        return Failed;
      }
      assert buf[..|buf|] == buf;
      if done {
        var d := Drain();
        if d.Failed? {
          return Failed;
        }
      }
      r := Ready(|buf|);
    }

    /** A flush ends the accumulation: what is held goes out as it is. */
    method PollFlush(inner: Poll<()>) returns (r: Poll<()>)
      requires Valid() && Waiting()
      modifies this
      ensures Valid() && Waiting() && taken == old(taken) && cut == old(cut)
      ensures done <==> old(done) || old(acc) != []
      ensures r == inner || (hitches > old(hitches) && (r.Failed? ==> Fails(script, asked)))
      ensures hitches >= old(hitches) && vain == old(vain)
      // a completed flush leaves nothing behind
      ensures r.Ready? ==> acc == [] && out == [] && sunk == Rewritten(taken, cut, params, randoms)
    {
      hide Fragmented;
      hide RecordLen;
      hide StartsClientHello;
      hide Rewritten;
      hide Paced;
      Unit(sunk);
      if !done && acc != [] {
        Unit(acc);
        out, outPos, acc, done := acc, 0, [], true;
      }
      if out != [] {
        var d := Drain();
        if !d.Ready? {
          return d;
        }
      }
      Unit(sunk);
      r := inner;
    }

    method PollShutdown(inner: Poll<()>) returns (r: Poll<()>)
      requires Valid() && Waiting()
      modifies this
      ensures Valid() && Waiting() && taken == old(taken) && cut == old(cut)
      ensures acc == old(acc) && done == old(done)
      ensures old(out) == [] ==> r == inner
      ensures r == inner || (hitches > old(hitches) && (r.Failed? ==> Fails(script, asked)))
      ensures hitches >= old(hitches) && vain == old(vain)
      // what a completed shutdown can lose is an unflushed, incomplete first record and no more
      ensures r.Ready? ==> out == [] && sunk + acc == Rewritten(taken, cut, params, randoms)
    {
      hide Fragmented;
      hide RecordLen;
      hide StartsClientHello;
      hide Rewritten;
      hide Paced;
      if out != [] {
        var d := Drain();
        if !d.Ready? {
          return d;
        }
      }
      Unit(sunk);
      r := inner;
    }

    /** One call and its answer. */
    method Serve(call: Call) returns (a: Poll<nat>)
      requires Valid() && Waiting()
      modifies this
      ensures Valid() && Waiting()
      ensures Moves(call, a, old(taken), old(done), old(cut), taken, done, cut)
      ensures a.Failed? ==> Excused(call, script, asked, params, old(taken), old(done))
      ensures call.Write? && a.Ready? ==> a.value <= |call.buf|
      ensures FallsShort(call, a) ==> hitches > old(hitches) || (a.Failed? && params.Overflows())
      ensures hitches >= old(hitches) && vain <= old(vain) + (if call == Write([]) then 1 else 0)
      ensures call.Flush? && a.Ready? ==> out == [] && acc == []
      ensures call.Shutdown? && a.Ready? ==> out == []
    {
      hide Valid;
      hide Waiting;
      hide Fails;
      hide Rewritten;
      hide Classified;
      hide Unclassified;
      hide StartsClientHello;
      hide Min;
      hide Params.Overflows;
      Held();
      match call {
        case Write(buf) => a := PollWrite(buf);
        case Flush(inner) =>
          var f := PollFlush(inner);
          a := Plain(f);
        case Shutdown(inner) =>
          var f := PollShutdown(inner);
          a := Plain(f);
      }
    }
  }

  // ------------------------------------------------------------ whole runs

  /** The bytes the caller was told are taken, in order. */
  function Accepted(calls: seq<Call>, answers: seq<Poll<nat>>): bytes
    requires |answers| <= |calls|
  {
    if answers == [] then []
    else
      var i := |answers| - 1;
      Accepted(calls, answers[..i]) +
      match (calls[i], answers[i])
      case (Write(buf), Ready(n)) => buf[..Min(n, |buf|)]
      case _ => []
  }

  /** Calls that settle the first record before it is there: an early flush, or an empty first write. */
  predicate Spoils(call: Call, before: bytes) {
    (call.Flush? && Unclassified(before)) || (call == Write([]) && before == [])
  }

  predicate Spoiled(calls: seq<Call>, answers: seq<Poll<nat>>)
    requires |answers| <= |calls|
  {
    answers != [] &&
    var i := |answers| - 1;
    Spoiled(calls, answers[..i]) || Spoils(calls[i], Accepted(calls, answers[..i]))
  }

  function Short(calls: seq<Call>, answers: seq<Poll<nat>>): nat
    requires |answers| <= |calls|
  {
    if answers == [] then 0
    else
      var i := |answers| - 1;
      Short(calls, answers[..i]) + (if FallsShort(calls[i], answers[i]) then 1 else 0)
  }

  function EmptyWrites(calls: seq<Call>, n: nat): nat
    requires n <= |calls|
  {
    if n == 0 then 0 else EmptyWrites(calls, n - 1) + (if calls[n - 1] == Write([]) then 1 else 0)
  }

  lemma OneAnswer(calls: seq<Call>, answers: seq<Poll<nat>>, a: Poll<nat>)
    requires |answers| < |calls|
    ensures var n, now := |answers|, answers + [a];
            && Spoiled(calls, now) == (Spoiled(calls, answers) || Spoils(calls[n], Accepted(calls, answers)))
            && Short(calls, now) == Short(calls, answers) + (if FallsShort(calls[n], a) then 1 else 0)
            && EmptyWrites(calls, n + 1) == EmptyWrites(calls, n) + (if calls[n] == Write([]) then 1 else 0)
            && Accepted(calls, now) == Accepted(calls, answers) +
                 (match (calls[n], a)
                  case (Write(buf), Ready(k)) => buf[..Min(k, |buf|)]
                  case _ => [])
  {
    hide Spoils;
    hide FallsShort;
    assert (answers + [a])[..|answers|] == answers;
  }

  predicate Failing(answers: seq<Poll<nat>>) {
    answers != [] && answers[|answers| - 1].Failed?
  }

  /** The bytes the adapter took charge of: those accepted, and perhaps those of a write that failed. */
  ghost predicate Took(calls: seq<Call>, answers: seq<Poll<nat>>, taken: bytes)
    requires |answers| <= |calls|
  {
    || taken == Accepted(calls, answers)
    || (Failing(answers) && calls[|answers| - 1].Write? &&
        taken == Accepted(calls, answers) + calls[|answers| - 1].buf)
  }

  /** The adapter's state against the history of the run. */
  ghost predicate InStep(calls: seq<Call>, answers: seq<Poll<nat>>, taken: bytes, done: bool, cut: bool)
    requires |answers| <= |calls|
  {
    && Took(calls, answers, taken)
    && (done <==> Spoiled(calls, answers) || Classified(taken))
    && (cut <==> StartsClientHello(taken) && !Spoiled(calls, answers))
  }

  /** A failing run has its reason outside the adapter. */
  predicate Explained(calls: seq<Call>, answers: seq<Poll<nat>>, script: seq<Answer>, asked: nat, p: Params)
    requires |answers| <= |calls|
  {
    Failing(answers) ==>
      var n := |answers| - 1;
      var before := Accepted(calls, answers[..n]);
      Excused(calls[n], script, asked, p, before, Spoiled(calls, answers[..n]) || Classified(before))
  }

  /** Every answer is in bounds, and the inner stream's hitches pay for those that fall short. */
  ghost predicate Tallied(calls: seq<Call>, answers: seq<Poll<nat>>, hitches: nat, vain: nat)
    requires |answers| <= |calls|
  {
    && (forall i | 0 <= i < |answers| :: calls[i].Write? && answers[i].Ready? ==> answers[i].value <= |calls[i].buf|)
    && Short(calls, answers) <= hitches
    && vain <= EmptyWrites(calls, |answers|)
  }

  lemma NoCalls(calls: seq<Call>)
    ensures InStep(calls, [], [], false, false) && Tallied(calls, [], 0, 0)
  {
  }

  /** An inner stream that takes bytes or makes the caller wait, and whose flushes and shutdowns do not fail. */
  ghost predicate Patient(script: seq<Answer>, calls: seq<Call>) {
    && (forall i | 0 <= i < |script| :: script[i] != Breaks && script[i] != Takes(0))
    && (forall i | 0 <= i < |calls| :: calls[i].Write? || !calls[i].inner.Failed?)
  }

  lemma PatientNeverFails(calls: seq<Call>, answers: seq<Poll<nat>>, script: seq<Answer>, asked: nat, p: Params)
    requires |answers| <= |calls| && Patient(script, calls) && !p.Overflows()
    requires Explained(calls, answers, script, asked, p)
    ensures !Failing(answers)
  {
    hide Accepted;
    hide Spoiled;
  }

  lemma NoFailure(calls: seq<Call>, script: seq<Answer>, asked: nat, p: Params)
    ensures Explained(calls, [], script, asked, p)
  {
  }

  lemma Tally(calls: seq<Call>, answers: seq<Poll<nat>>, hitches: nat, vain: nat)
    requires |answers| <= |calls| && Tallied(calls, answers, hitches, vain)
    ensures forall i | 0 <= i < |answers| :: calls[i].Write? && answers[i].Ready? ==> answers[i].value <= |calls[i].buf|
    ensures Short(calls, answers) <= hitches && vain <= EmptyWrites(calls, |answers|)
  {
  }

  lemma OneTally(calls: seq<Call>, answers: seq<Poll<nat>>, a: Poll<nat>, h0: nat, v0: nat, h1: nat, v1: nat)
    requires |answers| < |calls| && Tallied(calls, answers, h0, v0)
    requires calls[|answers|].Write? && a.Ready? ==> a.value <= |calls[|answers|].buf|
    requires h1 >= h0 && (FallsShort(calls[|answers|], a) ==> h1 > h0)
    requires v1 <= v0 + (if calls[|answers|] == Write([]) then 1 else 0)
    ensures Tallied(calls, answers + [a], h1, v1)
  {
    hide Short;
    hide EmptyWrites;
    hide FallsShort;
    OneAnswer(calls, answers, a);
  }

  lemma Balanced(calls: seq<Call>, answers: seq<Poll<nat>>, taken: bytes, done: bool, cut: bool)
    requires |answers| <= |calls| && InStep(calls, answers, taken, done, cut)
    ensures Took(calls, answers, taken)
    ensures cut <==> StartsClientHello(taken) && !Spoiled(calls, answers)
    ensures !done && taken != [] <==> Unclassified(taken) && !Spoiled(calls, answers)
  {
    hide Took;
    hide Spoiled;
    EitherWay(taken);
  }

  lemma Answered(calls: seq<Call>, answers: seq<Poll<nat>>, a: Poll<nat>,
                 t0: bytes, d0: bool, c0: bool, t1: bytes, d1: bool, c1: bool)
    requires |answers| < |calls| && !Failing(answers) && InStep(calls, answers, t0, d0, c0)
    requires Moves(calls[|answers|], a, t0, d0, c0, t1, d1, c1)
    ensures InStep(calls, answers + [a], t1, d1, c1)
  {
    hide Accepted;
    hide Spoiled;
    hide Short;
    hide EmptyWrites;
    hide Classified;
    hide Unclassified;
    hide StartsClientHello;
    OneAnswer(calls, answers, a);
    EitherWay(t0);
    EitherWay(t1);
    Unit(t0);
    if calls[|answers|].Write? {
      var buf := calls[|answers|].buf;
      assert buf[..|buf|] == buf;
      if Classified(t0) {
        ClassifiedStays(t0, t1[|t0|..]);
        assert t1 == t0 + t1[|t0|..];
      }
    }
  }

  lemma Explains(calls: seq<Call>, answers: seq<Poll<nat>>, a: Poll<nat>, script: seq<Answer>, asked: nat, p: Params,
                 t: bytes, done: bool, cut: bool)
    requires |answers| < |calls| && !Failing(answers) && InStep(calls, answers, t, done, cut)
    requires a.Failed? ==> Excused(calls[|answers|], script, asked, p, t, done)
    ensures Explained(calls, answers + [a], script, asked, p)
  {
    hide Accepted;
    hide Spoiled;
    hide Excused;
    hide Classified;
    hide StartsClientHello;
    assert (answers + [a])[..|answers|] == answers;
  }

  /**
   * A run: the answers the caller got, how often the inner stream was asked, what it took, what waits
   * for it, and what the accumulator keeps.
   */
  datatype Driven = Driven(answers: seq<Poll<nat>>, asked: nat, sunk: bytes, undrained: bytes, held: bytes) {
    predicate Broken() {
      Failing(answers)
    }

    /** The last call has been answered, successfully. */
    predicate Completed() {
      answers != [] && answers[|answers| - 1].Ready?
    }

    /**
     * Where the bytes `s` are: all of them, cut exactly when they start with a ClientHello and nothing
     * spoiled it, and held back exactly while the first record is incomplete and nothing spoiled it.
     */
    ghost predicate Places(s: bytes, spoiled: bool, p: Params, randoms: nat -> nat) {
      && sunk + undrained + held == Rewritten(s, StartsClientHello(s) && !spoiled, p, randoms)
      && (held != [] <==> Unclassified(s) && !spoiled)
      && (held != [] ==> held == s && sunk == [] && undrained == [])
    }
  }

  /** Makes the calls one after another, up to the first failure. */
  method MakeCalls(w: FragmentWriter, calls: seq<Call>) returns (answers: seq<Poll<nat>>)
    requires w.Valid() && w.Waiting() && w.taken == [] && !w.done && !w.cut && w.hitches == 0 && w.vain == 0
    modifies w
    ensures w.Valid() && w.Waiting()
    ensures |answers| <= |calls| && (|answers| < |calls| ==> Failing(answers))
    ensures Tallied(calls, answers, w.hitches + (if Failing(answers) && w.params.Overflows() then 1 else 0), w.vain)
    ensures InStep(calls, answers, w.taken, w.done, w.cut)
    ensures Explained(calls, answers, w.script, w.asked, w.params)
    ensures answers != [] && answers[|answers| - 1].Ready? ==>
              var last := calls[|answers| - 1];
              && (last.Flush? ==> w.out == [] && w.acc == [])
              && (last.Shutdown? ==> w.out == [])
  {
    hide InStep;
    hide Tallied;
    hide Explained;
    hide Excused;
    hide Moves;
    hide FallsShort;
    hide Params.Overflows;
    hide FragmentWriter.Valid;
    hide FragmentWriter.Waiting;
    answers := [];
    NoCalls(calls);
    NoFailure(calls, w.script, w.asked, w.params);
    while |answers| < |calls| && !Failing(answers)
      invariant |answers| <= |calls| && w.Valid() && w.Waiting()
      invariant Tallied(calls, answers, w.hitches + (if Failing(answers) && w.params.Overflows() then 1 else 0), w.vain)
      invariant InStep(calls, answers, w.taken, w.done, w.cut)
      invariant Explained(calls, answers, w.script, w.asked, w.params)
      invariant answers != [] && answers[|answers| - 1].Ready? ==>
                  var last := calls[|answers| - 1];
                  && (last.Flush? ==> w.out == [] && w.acc == [])
                  && (last.Shutdown? ==> w.out == [])
      decreases |calls| - |answers|
    {
      ghost var t, d, c, h, v := w.taken, w.done, w.cut, w.hitches, w.vain;
      var answer := w.Serve(calls[|answers|]);
      ghost var panic := if answer.Failed? && w.params.Overflows() then 1 else 0;
      OneTally(calls, answers, answer, h, v, w.hitches + panic, w.vain);
      Answered(calls, answers, answer, t, d, c, w.taken, w.done, w.cut);
      Explains(calls, answers, answer, w.script, w.asked, w.params, t, d, c);
      answers := answers + [answer];
    }
  }

  /** Any calls against any inner stream, up to the first failure. */
  method Drive(params: Params, randoms: nat -> nat, script: seq<Answer>, calls: seq<Call>)
    returns (r: Driven)
    ensures |r.answers| <= |calls| && (|r.answers| < |calls| ==> r.Broken())
    ensures forall i | 0 <= i < |r.answers| ::
              calls[i].Write? && r.answers[i].Ready? ==> r.answers[i].value <= |calls[i].buf|
    // a run fails only with the inner stream, or on the panic
    ensures Explained(calls, r.answers, script, r.asked, params)
    // calls fall short only when the inner stream makes no progress, and once on the panic
    ensures Short(calls, r.answers) <= Stalls(script, r.asked) + (if r.Broken() && params.Overflows() then 1 else 0)
    ensures r.asked <= |r.sunk| + Stalls(script, r.asked) + EmptyWrites(calls, |r.answers|)
    // conservation: every accepted byte has its place; the bytes of a write that failed may have one too
    ensures var s, spoiled := Accepted(calls, r.answers), Spoiled(calls, r.answers);
            || r.Places(s, spoiled, params, randoms)
            || (r.Broken() && calls[|r.answers| - 1].Write? &&
                r.Places(s + calls[|r.answers| - 1].buf, spoiled, params, randoms))
    // so partial writes and waiting never lose a byte
    ensures Patient(script, calls) && !params.Overflows() ==>
              && |r.answers| == |calls| && !r.Broken()
              && r.Places(Accepted(calls, r.answers), Spoiled(calls, r.answers), params, randoms)
    // output waits only for an inner stream that makes no progress
    ensures r.undrained != [] ==> r.asked > 0 && StallsAt(script, r.asked - 1)
    // a completed flush leaves nothing behind, a completed shutdown at most what is held back
    ensures r.Completed() && calls[|r.answers| - 1].Flush? ==> r.undrained == [] && r.held == []
    ensures r.Completed() && calls[|r.answers| - 1].Shutdown? ==> r.undrained == []
  {
    hide Rewritten;
    hide Unclassified;
    hide Classified;
    hide StartsClientHello;
    hide Accepted;
    hide Spoiled;
    hide Short;
    hide Stalls;
    hide StallsAt;
    hide EmptyWrites;
    hide InStep;
    hide Tallied;
    hide Explained;
    hide Patient;
    hide Spoils;
    hide Moves;
    hide FallsShort;
    hide Min;
    hide Params.Overflows;
    hide RecordLen;
    hide FragmentWriter.Valid;
    hide FragmentWriter.Paced;
    var w := new FragmentWriter(params, randoms, script);
    var answers := MakeCalls(w, calls);
    w.Held();
    w.Account();
    r := Driven(answers, w.asked, w.sunk, w.out[w.outPos..], w.acc);
    Tally(calls, answers, w.hitches + (if r.Broken() && params.Overflows() then 1 else 0), w.vain);
    Balanced(calls, answers, w.taken, w.done, w.cut);
    assert r.Places(w.taken, Spoiled(calls, answers), params, randoms);
    if Patient(script, calls) && !params.Overflows() {
      PatientNeverFails(calls, answers, script, r.asked, params);
    }
  }

  /** A run that drops a byte although it began with a flush: one byte of a record, then a shutdown. */
  method ShutdownDropsHello() returns (accepted: bytes, sunk: bytes, last: Poll<()>)
    ensures accepted == [0x16] && sunk == [] && last == Ready(())
  {
    hide Rewritten;
    hide Pieces;
    hide Stalls;
    var w := new FragmentWriter(Params(1, 1), (n: nat) => 0, []);
    w.Held();
    var f := w.PollFlush(Ready(()));
    w.Held();
    accepted := [0x16];
    Unit(accepted);
    var r := w.PollWrite(accepted);
    EitherWay(accepted);
    w.Held();
    last := w.PollShutdown(Ready(()));
    w.Held();
    sunk := w.sunk;
  }

  /** An empty first write lets any ClientHello through uncut. */
  method EmptyWriteDisablesCut(s: bytes, p: Params, randoms: nat -> nat) returns (sunk: bytes)
    requires StartsClientHello(s)
    ensures sunk == s
  {
    hide Rewritten;
    hide StartsClientHello;
    hide Classified;
    hide Unclassified;
    hide RecordLen;
    var w := new FragmentWriter(p, randoms, [Takes(|s|)]);
    NoHello([]);
    var first := w.PollWrite([]);
    assert w.asked == 0;
    var second := w.PollWrite(s);
    w.Account();
    w.Held();
    Unit(s);
    Unit(w.sunk);
    Uncut(s, p, randoms);
    sunk := w.sunk;
  }
}
