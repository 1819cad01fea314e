/** The Mux.Cool relay: multiplexed datagrams up, framed responses down, inside Vision or not. */
module MuxRelay {
  import opened Bytes
  import opened VisionCodec
  import opened MuxFrame

  const MAX_CONTENT: nat := BUF_SIZE - 21

  // ---------------------------------------------------- the first downlink frame

  /** Vision-pads one frame: CONTINUE blocks and a final END block, each within the block budget. */
  method Revision(uuid: bytes, frame: bytes, draws: nat -> nat) returns (out: bytes, bs: seq<Block>)
    requires |uuid| == 16
    ensures Complete(bs) && bs[|bs| - 1].command == END
    ensures Contents(bs) == frame
    ensures out == uuid + EncodeAll(bs)
  {
    hide Encode;
    var b: Block;
    if frame == [] {
      var spent;
      out, spent, b := XtlsPadding([], END, Some(uuid), false, DEFAULT_SEED, draws(0));
      bs := [b];
      assert EncodeAll(bs) == Encode(b) + [];
      return;
    }
    var uuidOnce := Some(uuid);
    var off := 0;
    out, bs := [], [];
    while |frame| - off > MAX_CONTENT
      invariant 0 <= off < |frame|
      invariant Continuing(bs) && Contents(bs) == frame[..off]
      invariant uuidOnce == (if off == 0 then Some(uuid) else None)
      invariant off == 0 ==> out == [] && bs == []
      invariant off > 0 ==> out == uuid + EncodeAll(bs)
    {
      var block;
      block, uuidOnce, b := XtlsPadding(frame[off..off + MAX_CONTENT], CONTINUE, uuidOnce, false,
                                        DEFAULT_SEED, draws(|bs|));
      EncodeSnoc(bs, b);
      Assoc(uuid, EncodeAll(bs), Encode(b));
      Unit(Encode(b));
      Unit(block);
      assert frame[..off] + frame[off..off + MAX_CONTENT] == frame[..off + MAX_CONTENT];
      out, bs, off := out + block, bs + [b], off + MAX_CONTENT;
    }
    var block;
    block, uuidOnce, b := XtlsPadding(frame[off..], END, uuidOnce, false, DEFAULT_SEED, draws(|bs|));
    EncodeSnoc(bs, b);
    CompleteSnoc(bs, b);
    Assoc(uuid, EncodeAll(bs), Encode(b));
    Unit(Encode(b));
    Unit(block);
    assert frame[..off] + frame[off..] == frame;
    out, bs := out + block, bs + [b];
  }

  // ------------------------------------------------------ what frames do

  datatype Datagram = Datagram(sid: nat, target: Option<Addr>, data: bytes)

  /** The relay's effects so far: live sub-sessions, datagrams sent on, and whether it gave up. */
  datatype Effect = Effect(sessions: set<nat>, forwarded: seq<Datagram>, failed: bool)

  const NOTHING: Effect := Effect({}, [], false)

  function Apply(e: Effect, f: Frame): Effect {
    if e.failed then e
    else if f.status == STATUS_NEW || f.status == STATUS_KEEP then
      Effect(e.sessions + {f.sid},
             if f.data.Some? then e.forwarded + [Datagram(f.sid, f.target, f.data.value)] else e.forwarded,
             false)
    else if f.status == STATUS_END then e.(sessions := e.sessions - {f.sid})
    else if f.status == STATUS_KEEPALIVE then e
    else e.(failed := true)
  }

  function ApplyAll(e: Effect, fs: seq<Frame>): Effect
    decreases |fs|
  {
    if fs == [] then e else ApplyAll(Apply(e, fs[0]), fs[1..])
  }

  lemma {:induction false} ApplyConcat(e: Effect, a: seq<Frame>, b: seq<Frame>)
    ensures ApplyAll(e, a + b) == ApplyAll(ApplyAll(e, a), b)
    decreases |a|
  {
    if a == [] {
      assert a + b == b;
    } else {
      assert (a + b)[1..] == a[1..] + b;
      ApplyConcat(Apply(e, a[0]), a[1..], b);
    }
  }

  lemma {:induction false} ApplyFailed(e: Effect, fs: seq<Frame>)
    requires e.failed
    ensures ApplyAll(e, fs) == e
    decreases |fs|
  {
    if fs != [] {
      ApplyFailed(e, fs[1..]);
    }
  }

  function Settle(e: Effect, d: Drained): Effect {
    var after := ApplyAll(e, d.frames);
    if d.bad then after.(failed := true) else after
  }

  /** What a plain Mux stream means. */
  function Meaning(stream: bytes): Effect {
    Settle(NOTHING, Drain(stream))
  }

  /** A stream that made the relay give up means the same whatever follows. */
  lemma MeaningStable(stream: bytes, more: bytes)
    requires Meaning(stream).failed
    ensures Meaning(stream + more) == Meaning(stream)
  {
    hide Drain;
    hide ApplyAll;
    var d := Drain(stream);
    DrainAppend(stream, more);
    if !d.bad {
      var d2 := Drain(d.rest + more);
      ApplyConcat(NOTHING, d.frames, d2.frames);
      ApplyFailed(ApplyAll(NOTHING, d.frames), d2.frames);
    }
  }

  /** One more piece of a stream that is still going. */
  lemma MeaningAppend(stream: bytes, more: bytes)
    requires !Drain(stream).bad
    ensures Meaning(stream + more) == Settle(Meaning(stream), Drain(Drain(stream).rest + more))
    ensures !Drain(Drain(stream).rest + more).bad ==>
              !Drain(stream + more).bad && Drain(stream + more).rest == Drain(Drain(stream).rest + more).rest
  {
    hide Drain;
    hide ApplyAll;
    DrainAppend(stream, more);
    ApplyConcat(NOTHING, Drain(stream).frames, Drain(Drain(stream).rest + more).frames);
  }

  // ------------------------------------------------------------ the relay

  /** What a party that may speak Vision reads from `wire`. */
  function Unwrapped(vision: Option<bytes>, wire: bytes): bytes {
    match vision
    case None => wire
    case Some(id) => Run(id, Starting([]), wire).1
  }

  class Relay {
    const vision: Option<bytes>
    const unp: Unpadder?
    var inbuf: bytes
    var sessions: set<nat>
    var forwarded: seq<Datagram>
    var failed: bool
    var downlinkPad: Option<bytes>
    var wire: bytes
    var answered: seq<Response>

    ghost predicate UnpadderInv(got: bytes)
      reads unp
    {
      && (vision.Some? <==> unp != null)
      && (unp != null ==>
            && unp.Valid() && unp.userUuid == vision.value && |vision.value| == 16
            && unp.View() == Run(vision.value, Starting([]), got).0)
    }

    /** Everything done so far is what the uplink bytes `got` mean. */
    ghost predicate UplinkInv(got: bytes)
      reads this`inbuf, this`sessions, this`forwarded, this`failed
    {
      && Effect(sessions, forwarded, failed) == Meaning(Unwrapped(vision, got))
      && (!failed ==> !Drain(Unwrapped(vision, got)).bad && inbuf == Drain(Unwrapped(vision, got)).rest)
    }

    /** The client can read exactly the answers given so far. */
    ghost predicate DownlinkInv()
      reads this`downlinkPad, this`wire, this`answered
    {
      && AllValid(answered)
      && (vision.Some? ==> |vision.value| == 16)
      && (answered == [] ==> wire == [])
      && downlinkPad == (if answered == [] then vision else None)
      && Unwrapped(vision, wire) == PrintAll(answered)
      && (vision.Some? ==> Run(vision.value, Starting([]), wire).0 ==
                           if answered == [] then Starting([]) else Finished(false))
    }

    constructor (vision: Option<bytes>)
      requires vision.Some? ==> |vision.value| == 16
      ensures UnpadderInv([]) && UplinkInv([]) && DownlinkInv()
      ensures this.vision == vision && answered == [] && !failed
      ensures unp != null ==> fresh(unp)
    {
      this.vision := vision;
      var u: Unpadder? := null;
      if vision.Some? {
        u := new Unpadder(vision.value);
      }
      unp := u;
      inbuf, sessions, forwarded, failed := [], {}, [], false;
      downlinkPad, wire, answered := vision, [], [];
    }

    method Devision(data: bytes, ghost got: bytes) returns (out: bytes)
      requires UnpadderInv(got)
      modifies unp
      ensures UnpadderInv(got + data)
      ensures Unwrapped(vision, got + data) == Unwrapped(vision, got) + out
    {
      hide Run;
      hide Unpadder.Valid;
      hide Unpadder.View;
      if unp != null {
        RunConcat(vision.value, Starting([]), got, data);
        out := unp.Push(data);
      } else {
        out := data;
      }
    }

    lemma Accounted(got: bytes)
      requires UplinkInv(got)
      ensures Effect(sessions, forwarded, failed) == Meaning(Unwrapped(vision, got))
    {
    }

    /** Handles every whole frame in the buffer, stopping at the first error. */
    method DrainFrames()
      requires !failed
      modifies this`inbuf, this`sessions, this`forwarded, this`failed
      ensures Effect(sessions, forwarded, failed)
           == Settle(Effect(old(sessions), old(forwarded), false), Drain(old(inbuf)))
      ensures !failed ==> !Drain(old(inbuf)).bad && inbuf == Drain(old(inbuf)).rest
    {
      hide ParseFrame;
      ghost var start := Effect(sessions, forwarded, false);
      while true
        invariant !failed
        invariant Settle(Effect(sessions, forwarded, false), Drain(inbuf)) == Settle(start, Drain(old(inbuf)))
        invariant Drain(inbuf).bad == Drain(old(inbuf)).bad && Drain(inbuf).rest == Drain(old(inbuf)).rest
        decreases |inbuf|
      {
        var p := ParseFrame(inbuf);
        match p {
          case NeedMore => return;
          case Bad => failed := true; return;
          case Done(f, used) =>
            DrainOne(inbuf, f, used);
            inbuf := inbuf[used..];
            ghost var e := Effect(sessions, forwarded, false);
            ghost var d := Drain(inbuf);
            assert ([f] + d.frames)[1..] == d.frames;
            if f.status == STATUS_NEW || f.status == STATUS_KEEP {
              sessions := sessions + {f.sid};
              if f.data.Some? {
                forwarded := forwarded + [Datagram(f.sid, f.target, f.data.value)];
              }
            } else if f.status == STATUS_END {
              sessions := sessions - {f.sid};
            } else if f.status != STATUS_KEEPALIVE {
              ApplyFailed(Apply(e, f), d.frames);
              failed := true;
              return;
            }
        }
      }
    }

    method Uplink(chunk: bytes, ghost got: bytes)
      requires UnpadderInv(got) && UplinkInv(got) && !failed
      modifies this`inbuf, this`sessions, this`forwarded, this`failed, unp
      ensures UnpadderInv(got + chunk) && UplinkInv(got + chunk)
    {
      hide Drain;
      hide Settle;
      hide Meaning;
      hide Unwrapped;
      hide UnpadderInv;
      var d := Devision(chunk, got);
      MeaningAppend(Unwrapped(vision, got), d);
      inbuf := inbuf + d;
      DrainFrames();
    }

    lemma Readable()
      requires DownlinkInv()
      ensures Drain(Unwrapped(vision, wire)) == Drained(ParsedAll(answered), [], false)
    {
      DrainPrinted(answered, []);
      Unit(PrintAll(answered));
    }

    method Answer(r: Response, draws: nat -> nat)
      requires DownlinkInv() && r.Valid()
      modifies this`downlinkPad, this`wire, this`answered
      ensures DownlinkInv() && answered == old(answered) + [r]
    {
      hide KeepFrame;
      hide Run;
      hide PrintAll;
      hide AllValid;
      PrintSnoc(answered, r);
      var frame := KeepFrame(r.sid, r.src, r.data);
      if downlinkPad.Some? {
        var out, bs := Revision(downlinkPad.value, frame, draws);
        PaddingRoundTrip(vision.value, bs, []);
        Unit(vision.value + EncodeAll(bs));
        Unit(frame);
        Unit(out);
        wire := wire + out;
      } else {
        if vision.Some? {
          RunConcat(vision.value, Starting([]), wire, frame);
          RunVerbatim(vision.value, Finished(false), frame);
        }
        wire := wire + frame;
      }
      downlinkPad := None;
      answered := answered + [r];
    }
  }

  // ----------------------------------------------------------- whole runs

  datatype Event = FromTunnel(chunk: bytes) | ToClient(response: Response)

  function TunnelBytes(es: seq<Event>): bytes {
    if es == [] then []
    else
      var i := |es| - 1;
      TunnelBytes(es[..i]) + (if es[i].FromTunnel? then es[i].chunk else [])
  }

  function Responses(es: seq<Event>): seq<Response> {
    if es == [] then []
    else
      var i := |es| - 1;
      Responses(es[..i]) + (if es[i].ToClient? then [es[i].response] else [])
  }

  lemma UnwrappedAppend(vision: Option<bytes>, a: bytes, b: bytes) returns (more: bytes)
    ensures Unwrapped(vision, a + b) == Unwrapped(vision, a) + more
  {
    more := b;
    if vision.Some? {
      RunConcat(vision.value, Starting([]), a, b);
      more := Run(vision.value, Run(vision.value, Starting([]), a).0, b).1;
    }
  }

  /** A relay that has given up is not moved by the rest of the uplink. */
  lemma GivenUp(vision: Option<bytes>, got: bytes, rest: bytes)
    requires Meaning(Unwrapped(vision, got)).failed
    ensures Meaning(Unwrapped(vision, got + rest)) == Meaning(Unwrapped(vision, got))
  {
    hide Meaning;
    hide Unwrapped;
    var more := UnwrappedAppend(vision, got, rest);
    MeaningStable(Unwrapped(vision, got), more);
  }

  lemma NextEvent(es: seq<Event>, i: nat)
    requires i < |es|
    ensures TunnelBytes(es[..i + 1]) == TunnelBytes(es[..i]) + (if es[i].FromTunnel? then es[i].chunk else [])
    ensures Responses(es[..i + 1]) == Responses(es[..i]) + (if es[i].ToClient? then [es[i].response] else [])
  {
    var t := es[..i + 1];
    assert t[..i] == es[..i] && t[i] == es[i];
  }

  lemma NoEvents(es: seq<Event>)
    ensures TunnelBytes(es[..0]) == [] && Responses(es[..0]) == []
  {
  }

  /** Some events are the front of all events. */
  lemma {:induction false} FrontOf(es: seq<Event>, i: nat)
    requires i <= |es|
    ensures TunnelBytes(es[..i]) <= TunnelBytes(es) && Responses(es[..i]) <= Responses(es)
    decreases |es| - i
  {
    hide TunnelBytes;
    hide Responses;
    if i == |es| {
      assert es[..i] == es;
    } else {
      NextEvent(es, i);
      FrontOf(es, i + 1);
    }
  }

  lemma NextValid(es: seq<Event>, i: nat)
    requires i < |es| && es[i].ToClient? && AllValid(Responses(es))
    ensures es[i].response.Valid()
  {
    hide TunnelBytes;
    hide Responses;
    hide Response.Valid;
    NextEvent(es, i);
    FrontOf(es, i + 1);
    var rs := Responses(es);
    assert rs[|Responses(es[..i])|] == es[i].response;
  }

  /** What the relay has read after `handled` events makes it give up. */
  ghost predicate GivesUpAt(vision: Option<bytes>, leftover: bytes, events: seq<Event>, handled: nat)
    requires handled <= |events|
  {
    Meaning(Unwrapped(vision, leftover + TunnelBytes(events[..handled]))).failed
  }

  /**
   * The relay, for every cut of the uplink and every interleaving with the responses. The run ends
   * with the events, or at the first frame that is malformed or has an unknown status.
   */
  method Serve(leftover: bytes, vision: Option<bytes>, events: seq<Event>, draws: nat -> nat)
    returns (effect: Effect, wire: bytes, answered: seq<Response>, handled: nat)
    requires vision.Some? ==> |vision.value| == 16
    requires AllValid(Responses(events))
    // uplink: the effects depend on the bytes alone
    ensures effect == Meaning(Unwrapped(vision, leftover + TunnelBytes(events)))
    // the run ends with its events, or with the first that makes it give up
    ensures handled <= |events| && (!effect.failed ==> handled == |events|)
    ensures effect.failed ==>
              && GivesUpAt(vision, leftover, events, handled)
              && forall i | 0 <= i < handled :: !GivesUpAt(vision, leftover, events, i)
    // downlink: the client reads back exactly the responses of the events handled, in order
    ensures answered == Responses(events[..handled])
    ensures Drain(Unwrapped(vision, wire)) == Drained(ParsedAll(answered), [], false)
  {
    hide Meaning;
    hide Unwrapped;
    hide Drain;
    hide Relay.UnpadderInv;
    hide Relay.DownlinkInv;
    hide Relay.UplinkInv;
    hide Settle;
    hide TunnelBytes;
    hide Responses;
    hide PrintAll;
    hide ParsedAll;
    hide AllValid;
    hide Response.Valid;
    var relay := new Relay(vision);
    relay.Uplink(leftover, []);
    Unit(leftover);
    ghost var got := leftover;
    NoEvents(events);
    handled := 0;
    while handled < |events| && !relay.failed
      invariant 0 <= handled <= |events|
      invariant fresh(relay) && (relay.unp != null ==> fresh(relay.unp)) && relay.vision == vision
      invariant relay.UnpadderInv(got) && relay.UplinkInv(got) && relay.DownlinkInv()
      invariant got == leftover + TunnelBytes(events[..handled])
      invariant relay.answered == Responses(events[..handled])
      invariant forall i | 0 <= i < handled :: !GivesUpAt(vision, leftover, events, i)
    {
      relay.Accounted(got);
      NextEvent(events, handled);
      match events[handled] {
        case FromTunnel(chunk) =>
          Assoc(leftover, TunnelBytes(events[..handled]), chunk);
          assert relay.answered + [] == relay.answered;
          relay.Uplink(chunk, got);
          got := got + chunk;
        case ToClient(r) =>
          NextValid(events, handled);
          Unit(TunnelBytes(events[..handled]));
          relay.Answer(r, draws);
      }
      handled := handled + 1;
    }
    effect := Effect(relay.sessions, relay.forwarded, relay.failed);
    relay.Accounted(got);
    wire, answered := relay.wire, relay.answered;
    FrontOf(events, handled);
    ghost var all, some := TunnelBytes(events), TunnelBytes(events[..handled]);
    assert all == some + all[|some|..];
    Assoc(leftover, some, all[|some|..]);
    if relay.failed {
      GivenUp(vision, got, all[|some|..]);
    } else {
      assert events[..handled] == events;
    }
    relay.Readable();
  }

  // --------------------------------------------- reading frames as they come

  /** A reader that unpads each chunk, appends it to its buffer and drains the buffer. */
  function ReadCuts(id: bytes, s: State, buf: bytes, chunks: seq<bytes>): Drained
    requires s.Valid()
    decreases |chunks|
  {
    if chunks == [] then Drained([], buf, false)
    else
      var r := Run(id, s, chunks[0]);
      var d := Drain(buf + r.1);
      if d.bad then d
      else
        var rest := ReadCuts(id, r.0, d.rest, chunks[1..]);
        rest.(frames := d.frames + rest.frames)
  }

  lemma DrainUndecided(buf: bytes)
    requires ParseFrame(buf).NeedMore?
    ensures Drain(buf) == Drained([], buf, false)
  {
  }

  /** However the stream is cut, the frames are those of the whole. */
  lemma {:induction false} CutsIrrelevant(id: bytes, s: State, buf: bytes, chunks: seq<bytes>)
    requires s.Valid() && ParseFrame(buf).NeedMore?
    ensures var d := ReadCuts(id, s, buf, chunks);
            var whole := Drain(buf + Run(id, s, Flatten(chunks)).1);
            d.frames == whole.frames && d.bad == whole.bad && (!d.bad ==> d.rest == whole.rest)
    decreases |chunks|
  {
    hide Run;
    hide Drain;
    if chunks == [] {
      RunNothing(id, s);
      Unit(buf);
      DrainUndecided(buf);
    } else {
      var r := Run(id, s, chunks[0]);
      var tail := Flatten(chunks[1..]);
      RunConcat(id, s, chunks[0], tail);
      var more := Run(id, r.0, tail).1;
      Assoc(buf, r.1, more);
      DrainAppend(buf + r.1, more);
      var d := Drain(buf + r.1);
      if !d.bad {
        CutsIrrelevant(id, r.0, d.rest, chunks[1..]);
      }
    }
  }

  /** How a client begins to read: unpadding if it speaks Vision, and taking bytes as they are if not. */
  function ClientStart(vision: Option<bytes>): (s: State)
    ensures s.Valid()
  {
    if vision.Some? then Starting([]) else Finished(true)
  }

  /** A client that gets the relay's downlink in any chunks recovers exactly what was answered. */
  lemma ClientRecoversAnswers(vision: Option<bytes>, id: bytes, wire: bytes, chunks: seq<bytes>, answered: seq<Response>)
    requires vision.Some? ==> vision.value == id
    requires Drain(Unwrapped(vision, wire)) == Drained(ParsedAll(answered), [], false)
    requires Flatten(chunks) == wire
    ensures ReadCuts(id, ClientStart(vision), [], chunks) == Drained(ParsedAll(answered), [], false)
  {
    hide Run;
    hide Drain;
    CutsIrrelevant(id, ClientStart(vision), [], chunks);
    RunVerbatim(id, Finished(true), wire);
    Unit(Run(id, ClientStart(vision), wire).1);
  }

  /**
   * End to end: whatever the cuts of the uplink, the interleaving and the cuts of the downlink, the
   * client recovers the session ids, source addresses and datagrams of the responses answered.
   */
  method ServeClient(leftover: bytes, vision: Option<bytes>, events: seq<Event>, draws: nat -> nat)
    returns (effect: Effect, wire: bytes, handled: nat)
    requires vision.Some? ==> |vision.value| == 16
    requires AllValid(Responses(events))
    ensures effect == Meaning(Unwrapped(vision, leftover + TunnelBytes(events)))
    ensures handled <= |events| && (!effect.failed ==> handled == |events|)
    ensures effect.failed ==>
              && GivesUpAt(vision, leftover, events, handled)
              && forall i | 0 <= i < handled :: !GivesUpAt(vision, leftover, events, i)
    ensures forall chunks, id | Flatten(chunks) == wire && (vision.Some? ==> vision.value == id) ::
              ReadCuts(id, ClientStart(vision), [], chunks) == Drained(ParsedAll(Responses(events[..handled])), [], false)
  {
    hide Meaning;
    hide Unwrapped;
    hide Drain;
    hide ReadCuts;
    hide ParsedAll;
    hide Responses;
    hide TunnelBytes;
    hide Flatten;
    hide AllValid;
    hide ClientStart;
    var answered;
    effect, wire, answered, handled := Serve(leftover, vision, events, draws);
    forall chunks, id | Flatten(chunks) == wire && (vision.Some? ==> vision.value == id)
      ensures ReadCuts(id, ClientStart(vision), [], chunks) == Drained(ParsedAll(answered), [], false)
    {
      ClientRecoversAnswers(vision, id, wire, chunks, answered);
    }
  }
}
