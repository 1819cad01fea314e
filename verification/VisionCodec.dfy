/** The XTLS-Vision padding codec: padded blocks and the machine that removes the padding. */
module VisionCodec {
  import opened Bytes

  const CONTINUE: byte := 0
  const END: byte := 1
  const DIRECT: byte := 2
  const BUF_SIZE: nat := 8192

  // ---------------------------------------------------------------- blocks

  /** One padded block. The pad bytes carry no meaning; only their number is announced. */
  datatype Block = Block(command: byte, content: bytes, pad: bytes) {
    predicate Fits() {
      |content| < 65536 && |pad| < 65536
    }
  }

  function Header(command: byte, contentLen: nat, padLen: nat): (h: bytes)
    ensures |h| == 5
  {
    [command] + U16(contentLen) + U16(padLen)
  }

  function Encode(b: Block): (r: bytes)
    ensures |r| == 5 + |b.content| + |b.pad|
  {
    Header(b.command, |b.content|, |b.pad|) + b.content + b.pad
  }

  function EncodeAll(bs: seq<Block>): bytes {
    if bs == [] then [] else Encode(bs[0]) + EncodeAll(bs[1..])
  }

  function Contents(bs: seq<Block>): bytes {
    if bs == [] then [] else bs[0].content + Contents(bs[1..])
  }

  /** Blocks of one direction before its last block. */
  ghost predicate Continuing(bs: seq<Block>) {
    forall i | 0 <= i < |bs| :: bs[i].Fits() && bs[i].command == CONTINUE
  }

  /** A whole padded phase: CONTINUE blocks, then one block that ends it. */
  ghost predicate Complete(bs: seq<Block>) {
    && |bs| > 0
    && Continuing(bs[..|bs| - 1])
    && bs[|bs| - 1].Fits()
    && bs[|bs| - 1].command != CONTINUE
  }

  lemma {:induction false} EncodeSnoc(bs: seq<Block>, b: Block)
    ensures EncodeAll(bs + [b]) == EncodeAll(bs) + Encode(b)
    ensures Contents(bs + [b]) == Contents(bs) + b.content
    decreases |bs|
  {
    hide Encode;
    if bs == [] {
      assert bs + [b] == [b];
      Unit(Encode(b));
      Unit(b.content);
    } else {
      assert (bs + [b])[1..] == bs[1..] + [b];
      EncodeSnoc(bs[1..], b);
      Assoc(Encode(bs[0]), EncodeAll(bs[1..]), Encode(b));
      Assoc(bs[0].content, Contents(bs[1..]), b.content);
    }
  }

  lemma CompleteSnoc(bs: seq<Block>, b: Block)
    requires Continuing(bs) && b.Fits() && b.command != CONTINUE
    ensures Complete(bs + [b])
  {
    assert (bs + [b])[..|bs|] == bs;
  }

  datatype Seed = Seed(longBelow: nat, longRange: nat, longBase: nat, shortRange: nat)

  const DEFAULT_SEED: Seed := Seed(900, 500, 900, 256)

  /** The padding length for one random draw; `draw % n` stands for `gen_range(0..n)`. */
  function PaddingLen(contentLen: nat, longPadding: bool, seed: Seed, draw: nat): (p: nat)
    requires seed.longRange > 0 && seed.shortRange > 0
    ensures contentLen <= BUF_SIZE - 21 ==> 21 + contentLen + p <= BUF_SIZE
    ensures p <= BUF_SIZE
  {
    var wanted := if contentLen < seed.longBelow && longPadding
                  then draw % seed.longRange + seed.longBase - contentLen
                  else draw % seed.shortRange;
    var cap := BUF_SIZE - 21 - contentLen;
    var capped := if wanted > cap then cap else wanted;
    if capped < 0 then 0 else capped
  }

  /** What the default seed hides: short TLS content grows to 900 bytes or more, the rest gets under 256. */
  lemma PaddingRange(contentLen: nat, longPadding: bool, draw: nat)
    ensures var p := PaddingLen(contentLen, longPadding, DEFAULT_SEED, draw);
            if contentLen < 900 && longPadding then 900 <= contentLen + p < 1400 else p < 256
  {
  }

  /** Builds one padded block. The UUID is taken from `uuidOnce` by the first block only. */
  method XtlsPadding(content: bytes, command: byte, uuidOnce: Option<bytes>,
                     longPadding: bool, seed: Seed, draw: nat)
    returns (out: bytes, uuidLeft: Option<bytes>, b: Block)
    requires seed.longRange > 0 && seed.shortRange > 0
    ensures uuidLeft == None
    ensures b == Block(command, content, Zeros(PaddingLen(|content|, longPadding, seed, draw)))
    ensures |content| < 65536 ==> b.Fits()
    ensures out == (if uuidOnce.Some? then uuidOnce.value else []) + Encode(b)
    ensures uuidOnce.Some? && |uuidOnce.value| == 16 && |content| <= BUF_SIZE - 21 ==> |out| <= BUF_SIZE
    ensures uuidOnce.None? && |content| <= BUF_SIZE - 21 ==> |out| <= BUF_SIZE - 16
  {
    var p := PaddingLen(|content|, longPadding, seed, draw);
    b := Block(command, content, Zeros(p));
    out := [];
    if uuidOnce.Some? {
      out := uuidOnce.value;
    }
    uuidLeft := None;
    ghost var prefix := out;
    out := out + [command, |content| / 256 % 256, |content| % 256];
    out := out + [p / 256 % 256, p % 256];
    assert out == prefix + Header(command, |content|, p);
    out := out + content;
    out := out + Zeros(p);
    assert out == prefix + Encode(b);
  }

  // ------------------------------------------- the byte-at-a-time reference

  /** What the receiver of one direction knows after some prefix of its stream. */
  datatype State =
    | Starting(pending: bytes)                      // fewer than 21 bytes seen
    | PassThrough                                   // the stream is not padded
    | InHeader(got: bytes)                          // fewer than 5 header bytes seen
    | InContent(command: byte, left: nat, pad: nat)
    | InPadding(command: byte, left: nat)
    | Finished(direct: bool)                        // END or DIRECT is behind us
  {
    predicate Valid() {
      match this
      case Starting(p) => |p| < 21
      case InHeader(g) => |g| < 5
      case InContent(_, left, _) => left > 0
      case InPadding(_, left) => left > 0
      case _ => true
    }
  }

  function BlockDone(command: byte): State {
    if command == CONTINUE then InHeader([]) else Finished(command == DIRECT)
  }

  function AfterContent(command: byte, pad: nat): State {
    if pad > 0 then InPadding(command, pad) else BlockDone(command)
  }

  function AfterHeader(h: bytes): State
    requires |h| == 5
  {
    var content := FromU16(h[1], h[2]);
    var pad := FromU16(h[3], h[4]);
    if content > 0 then InContent(h[0], content, pad) else AfterContent(h[0], pad)
  }

  /** The effect of one byte: the next state and the bytes it releases. */
  function Next(id: bytes, s: State, b: byte): (r: (State, bytes))
    requires s.Valid()
    ensures r.0.Valid()
  {
    match s
    case Starting(p) =>
      var q := p + [b];
      if |q| < 21 then (Starting(q), [])
      else if q[..16] != id then (PassThrough, q)
      else (AfterHeader(q[16..]), [])
    case PassThrough => (s, [b])
    case InHeader(g) =>
      var h := g + [b];
      (if |h| < 5 then InHeader(h) else AfterHeader(h), [])
    case InContent(c, left, pad) =>
      (if left > 1 then InContent(c, left - 1, pad) else AfterContent(c, pad), [b])
    case InPadding(c, left) =>
      (if left > 1 then InPadding(c, left - 1) else BlockDone(c), [])
    case Finished(_) => (s, [b])
  }

  function Run(id: bytes, s: State, input: bytes): (r: (State, bytes))
    requires s.Valid()
    ensures r.0.Valid()
    decreases |input|
  {
    if input == [] then (s, [])
    else
      var n := Next(id, s, input[0]);
      var rest := Run(id, n.0, input[1..]);
      (rest.0, n.1 + rest.1)
  }

  /** Feeding `a` and then `b` is feeding `a + b`. */
  lemma {:induction false} RunConcat(id: bytes, s: State, a: bytes, b: bytes)
    requires s.Valid()
    ensures var r1 := Run(id, s, a); var r2 := Run(id, r1.0, b);
            Run(id, s, a + b) == (r2.0, r1.1 + r2.1)
    decreases |a|
  {
    if a == [] {
      assert a + b == b;
      Unit(Run(id, s, b).1);
    } else {
      var n := Next(id, s, a[0]);
      RunConcat(id, n.0, a[1..], b);
      assert (a + b)[1..] == a[1..] + b;
      var r1 := Run(id, n.0, a[1..]);
      Assoc(n.1, r1.1, Run(id, r1.0, b).1);
    }
  }

  lemma RunNothing(id: bytes, s: State)
    requires s.Valid()
    ensures Run(id, s, []) == (s, [])
  {
  }

  /** One push per chunk: the final state and everything released. */
  function RunChunks(id: bytes, s: State, chunks: seq<bytes>): (r: (State, bytes))
    requires s.Valid()
    ensures r.0.Valid()
    decreases |chunks|
  {
    if chunks == [] then (s, [])
    else
      var first := Run(id, s, chunks[0]);
      var rest := RunChunks(id, first.0, chunks[1..]);
      (rest.0, first.1 + rest.1)
  }

  /** Removing padding does not depend on how the stream was cut into chunks. */
  lemma {:induction false} ChunkingIrrelevant(id: bytes, s: State, chunks: seq<bytes>)
    requires s.Valid()
    ensures RunChunks(id, s, chunks) == Run(id, s, Flatten(chunks))
    decreases |chunks|
  {
    if chunks != [] {
      ChunkingIrrelevant(id, Run(id, s, chunks[0]).0, chunks[1..]);
      RunConcat(id, s, chunks[0], Flatten(chunks[1..]));
    }
  }

  // ------------------------------------------------ runs inside one phase

  lemma {:induction false} RunVerbatim(id: bytes, s: State, input: bytes)
    requires s.PassThrough? || s.Finished?
    ensures Run(id, s, input) == (s, input)
    decreases |input|
  {
    if input != [] {
      RunVerbatim(id, s, input[1..]);
      assert [input[0]] + input[1..] == input;
    }
  }

  lemma {:induction false} RunContent(id: bytes, s: State, input: bytes)
    requires s.InContent? && s.Valid() && |input| <= s.left
    ensures Run(id, s, input) ==
            (if |input| < s.left then InContent(s.command, s.left - |input|, s.pad)
             else AfterContent(s.command, s.pad), input)
    decreases |input|
  {
    if input != [] {
      if s.left == 1 {
        assert input[1..] == [];
      } else {
        RunContent(id, InContent(s.command, s.left - 1, s.pad), input[1..]);
      }
      assert [input[0]] + input[1..] == input;
    }
  }

  lemma {:induction false} RunPadding(id: bytes, s: State, input: bytes)
    requires s.InPadding? && s.Valid() && |input| <= s.left
    ensures Run(id, s, input) ==
            (if |input| < s.left then InPadding(s.command, s.left - |input|) else BlockDone(s.command), [])
    decreases |input|
  {
    if input != [] {
      if s.left == 1 {
        assert input[1..] == [];
      } else {
        RunPadding(id, InPadding(s.command, s.left - 1), input[1..]);
      }
      Unit([]);
    }
  }

  lemma {:induction false} RunHeader(id: bytes, g: bytes, input: bytes)
    requires |g| < 5 && |g| + |input| <= 5
    ensures Run(id, InHeader(g), input) ==
            (if |g| + |input| < 5 then InHeader(g + input) else AfterHeader(g + input), [])
    decreases |input|
  {
    if input == [] {
      assert g + input == g;
    } else {
      assert (g + [input[0]]) + input[1..] == g + input;
      if |g| == 4 {
        assert input[1..] == [];
      } else {
        RunHeader(id, g + [input[0]], input[1..]);
      }
      Unit([]);
    }
  }

  lemma RunCons(id: bytes, s: State, input: bytes)
    requires s.Valid() && input != []
    ensures var n := Next(id, s, input[0]);
            var r := Run(id, n.0, input[1..]);
            Run(id, s, input) == (r.0, n.1 + r.1)
  {
    hide Next;
  }

  /** The 21st byte: the UUID is compared and the first header is complete. */
  lemma RunDecides(id: bytes, q: bytes, rest: bytes)
    requires |q| == 21
    ensures var n := if q[..16] != id then (PassThrough, q) else (AfterHeader(q[16..]), []);
            var r := Run(id, n.0, rest);
            (r.0, n.1 + r.1) == if (q + rest)[..16] != id then (PassThrough, q + rest)
                                else Run(id, InHeader([]), (q + rest)[16..])
  {
    hide Run;
    hide AfterHeader;
    var all := q + rest;
    assert q[..16] == all[..16];
    if q[..16] != id {
      RunVerbatim(id, PassThrough, rest);
    } else {
      RunHeader(id, [], q[16..]);
      Unit(q[16..]);
      RunConcat(id, InHeader([]), q[16..], rest);
      assert q[16..] + rest == all[16..];
    }
  }

  lemma {:induction false} RunStarting(id: bytes, p: bytes, input: bytes)
    requires |p| < 21
    ensures |p| + |input| < 21 ==> Run(id, Starting(p), input) == (Starting(p + input), [])
    ensures |p| + |input| >= 21 && (p + input)[..16] != id ==>
              Run(id, Starting(p), input) == (PassThrough, p + input)
    ensures |p| + |input| >= 21 && (p + input)[..16] == id ==>
              Run(id, Starting(p), input) == Run(id, InHeader([]), (p + input)[16..])
    decreases |input|
  {
    hide Run;
    hide AfterHeader;
    if input == [] {
      Unit(p);
      RunNothing(id, Starting(p));
    } else {
      var q := p + [input[0]];
      assert q + input[1..] == p + input;
      RunCons(id, Starting(p), input);
      if |q| < 21 {
        RunStarting(id, q, input[1..]);
        Unit(Run(id, Starting(q), input[1..]).1);
      } else {
        RunDecides(id, q, input[1..]);
      }
    }
  }

  // ------------------------------------------------------------ round trip

  lemma RunBody(id: bytes, b: Block)
    ensures var s := if |b.content| > 0 then InContent(b.command, |b.content|, |b.pad|)
                     else AfterContent(b.command, |b.pad|);
            Run(id, s, b.content + b.pad) == (BlockDone(b.command), b.content)
  {
    var s := if |b.content| > 0 then InContent(b.command, |b.content|, |b.pad|)
             else AfterContent(b.command, |b.pad|);
    if |b.content| > 0 {
      RunContent(id, s, b.content);
    }
    if |b.pad| > 0 {
      RunPadding(id, InPadding(b.command, |b.pad|), b.pad);
    }
    RunConcat(id, s, b.content, b.pad);
    Unit(b.content);
  }

  /** What a complete header says, whatever two bytes each of its lengths is. */
  lemma AfterHeaderFields(command: byte, content: bytes, pad: bytes)
    requires |content| == 2 && |pad| == 2
    ensures var c, p := FromU16(content[0], content[1]), FromU16(pad[0], pad[1]);
            AfterHeader([command] + content + pad) ==
            if c > 0 then InContent(command, c, p) else AfterContent(command, p)
  {
    var h := [command] + content + pad;
    assert h[1] == content[0] && h[2] == content[1] && h[3] == pad[0] && h[4] == pad[1];
  }

  /** One block, whatever follows it: its content comes out and its command decides the state. */
  lemma RunBlock(id: bytes, b: Block)
    requires b.Fits()
    ensures Run(id, InHeader([]), Encode(b)) == (BlockDone(b.command), b.content)
  {
    hide Run;
    hide U16;
    hide AfterHeader;
    hide AfterContent;
    var h := Header(b.command, |b.content|, |b.pad|);
    var body := b.content + b.pad;
    RunHeader(id, [], h);
    Unit(h);
    U16RoundTrip(|b.content|);
    U16RoundTrip(|b.pad|);
    AfterHeaderFields(b.command, U16(|b.content|), U16(|b.pad|));
    RunBody(id, b);
    RunConcat(id, InHeader([]), h, body);
    Unit(b.content);
    Assoc(h, b.content, b.pad);
  }

  lemma {:induction false} RunContinuing(id: bytes, bs: seq<Block>)
    requires Continuing(bs)
    ensures Run(id, InHeader([]), EncodeAll(bs)) == (InHeader([]), Contents(bs))
    decreases |bs|
  {
    if bs != [] {
      RunBlock(id, bs[0]);
      RunContinuing(id, bs[1..]);
      RunConcat(id, InHeader([]), Encode(bs[0]), EncodeAll(bs[1..]));
    }
  }

  lemma {:induction false} RunComplete(id: bytes, bs: seq<Block>, tail: bytes)
    requires Complete(bs)
    ensures Run(id, InHeader([]), EncodeAll(bs) + tail)
         == (Finished(bs[|bs| - 1].command == DIRECT), Contents(bs) + tail)
    decreases |bs|
  {
    var b, rest := bs[0], bs[1..];
    RunBlock(id, b);
    if rest == [] {
      RunVerbatim(id, BlockDone(b.command), tail);
      Unit(tail);
    } else {
      assert rest[..|rest| - 1] == bs[..|bs| - 1][1..];
      assert bs[..|bs| - 1][0] == b;
      RunComplete(id, rest, tail);
    }
    RunConcat(id, InHeader([]), Encode(b), EncodeAll(rest) + tail);
    Assoc(Encode(b), EncodeAll(rest), tail);
    Assoc(b.content, Contents(rest), tail);
  }

  /** A padded stream is at least the 21 bytes the receiver waits for. */
  lemma PaddedStreamStarts(id: bytes, bs: seq<Block>, tail: bytes)
    requires |id| == 16 && |bs| > 0
    ensures Run(id, Starting([]), id + EncodeAll(bs) + tail) == Run(id, InHeader([]), EncodeAll(bs) + tail)
  {
    var body := EncodeAll(bs) + tail;
    assert |body| >= |Encode(bs[0])| >= 5;
    hide Run;
    hide EncodeAll;
    RunStarting(id, [], id + body);
    Unit(id + body);
    assert (id + body)[..16] == id && (id + body)[16..] == body;
    Assoc(id, EncodeAll(bs), tail);
  }

  /** Padding round trip: every block list, every padding, every raw tail. */
  lemma PaddingRoundTrip(id: bytes, bs: seq<Block>, tail: bytes)
    requires |id| == 16 && Complete(bs)
    ensures Run(id, Starting([]), id + EncodeAll(bs) + tail)
         == (Finished(bs[|bs| - 1].command == DIRECT), Contents(bs) + tail)
  {
    PaddedStreamStarts(id, bs, tail);
    RunComplete(id, bs, tail);
  }

  // ---------------------------------------------------- nothing else is accepted

  /** The announced block does not fit in what has arrived: the phase cannot be over. */
  lemma RunTruncatedBody(id: bytes, command: byte, content: nat, pad: nat, input: bytes)
    requires |input| < content + pad
    ensures var s := if content > 0 then InContent(command, content, pad) else AfterContent(command, pad);
            !Run(id, s, input).0.Finished?
  {
    var s := if content > 0 then InContent(command, content, pad) else AfterContent(command, pad);
    if |input| < content {
      RunContent(id, s, input);
    } else {
      var a, b := input[..content], input[content..];
      assert input == a + b;
      if content > 0 {
        RunContent(id, s, a);
      }
      RunPadding(id, InPadding(command, pad), b);
      RunConcat(id, s, a, b);
    }
  }

  lemma CutBlock(h: bytes, body: bytes) returns (b: Block, rest: bytes)
    requires |h| == 5 && FromU16(h[1], h[2]) + FromU16(h[3], h[4]) <= |body|
    ensures b.Fits() && h + body == Encode(b) + rest
  {
    var content, pad := FromU16(h[1], h[2]), FromU16(h[3], h[4]);
    U16OfBytes(h[1], h[2]);
    U16OfBytes(h[3], h[4]);
    b := Block(h[0], body[..content], body[content..content + pad]);
    rest := body[content + pad..];
    assert Header(h[0], content, pad) == h;
    assert body == b.content + b.pad + rest;
  }

  lemma FirstBlock(id: bytes, s: bytes) returns (b: Block, rest: bytes)
    requires Run(id, InHeader([]), s).0.Finished?
    ensures b.Fits() && s == Encode(b) + rest
  {
    if |s| < 5 {
      RunHeader(id, [], s);
    }
    var h, body := s[..5], s[5..];
    assert s == h + body && [] + h == h;
    RunHeader(id, [], h);
    RunConcat(id, InHeader([]), h, body);
    var content, pad := FromU16(h[1], h[2]), FromU16(h[3], h[4]);
    if |body| < content + pad {
      RunTruncatedBody(id, h[0], content, pad, body);
    }
    b, rest := CutBlock(h, body);
  }

  lemma {:induction false} Decompose(id: bytes, s: bytes) returns (bs: seq<Block>, tail: bytes)
    requires Run(id, InHeader([]), s).0.Finished?
    ensures Complete(bs) && s == EncodeAll(bs) + tail
    decreases |s|
  {
    var b, rest := FirstBlock(id, s);
    RunBlock(id, b);
    RunConcat(id, InHeader([]), Encode(b), rest);
    if b.command == CONTINUE {
      var more;
      more, tail := Decompose(id, rest);
      bs := [b] + more;
      assert bs[..|bs| - 1] == [b] + more[..|more| - 1];
      assert bs[1..] == more;
      Assoc(Encode(b), EncodeAll(more), tail);
    } else {
      bs, tail := [b], rest;
      assert EncodeAll(bs) == Encode(b) + EncodeAll([]);
      Unit(Encode(b));
    }
  }

  /** The receiver leaves the padded phase on exactly the well-formed padded streams. */
  lemma FinishedExactly(id: bytes, s: bytes)
    requires |id| == 16
    ensures Run(id, Starting([]), s).0.Finished? <==>
            exists bs, tail :: Complete(bs) && s == id + EncodeAll(bs) + tail
  {
    if Run(id, Starting([]), s).0.Finished? {
      RunStarting(id, [], s);
      assert [] + s == s;
      var bs, tail := Decompose(id, s[16..]);
      assert s == s[..16] + s[16..];
      Assoc(id, EncodeAll(bs), tail);
    }
    forall bs, tail | Complete(bs) && s == id + EncodeAll(bs) + tail
      ensures Run(id, Starting([]), s).0.Finished?
    {
      PaddingRoundTrip(id, bs, tail);
    }
  }

  lemma HighByte(hi: byte)
    ensures hi * 256 % 256 == 0 && hi * 256 / 256 == hi && hi * 256 < 65536
  {
  }

  lemma LowByte(n: nat, lo: byte)
    requires n % 256 == 0 && n < 65536
    ensures n + lo < 65536 && U16(n + lo) == [n / 256, lo]
  {
    assert n == n / 256 * 256;
  }

  // ------------------------------------------------------------ the Unpadder

  /** The receiver as written: it takes whole runs of content or padding at a time. */
  class Unpadder {
    const userUuid: bytes
    var started: bool
    var passthrough: bool
    var pending: bytes
    var remainingCommand: int
    var remainingContent: int
    var remainingPadding: int
    var currentCommand: int
    var finished: bool
    var direct: bool

    /** The counters inside the padded phase, as far as the header has been read. */
    ghost predicate MidBlock()
      reads this
    {
      && 0 <= remainingCommand <= 5
      && (remainingCommand <= 4 ==> 0 <= currentCommand < 256)
      && (remainingCommand <= 3 ==> 0 <= remainingContent < 65536)
      && (remainingCommand == 3 ==> remainingContent % 256 == 0)
      && (remainingCommand <= 1 ==> 0 <= remainingPadding < 65536)
      && (remainingCommand == 1 ==> remainingPadding % 256 == 0)
      && (remainingCommand == 0 ==> remainingContent > 0 || remainingPadding > 0)
    }

    ghost predicate Valid()
      reads this
    {
      && |userUuid| == 16
      && (finished ==> started)
      && (direct ==> finished)
      && (passthrough ==> !started)
      && (!started && !passthrough ==> |pending| < 21)
      && (started && !finished ==> MidBlock())
    }

    ghost function HeaderSoFar(): bytes
      requires MidBlock() && remainingCommand > 0
      reads this
    {
      if remainingCommand == 5 then []
      else if remainingCommand == 4 then [currentCommand]
      else if remainingCommand == 3 then [currentCommand, remainingContent / 256]
      else if remainingCommand == 2 then [currentCommand] + U16(remainingContent)
      else [currentCommand] + U16(remainingContent) + [remainingPadding / 256]
    }

    ghost function View(): (s: State)
      requires Valid()
      ensures s.Valid()
      reads this
    {
      if finished then Finished(direct)
      else if passthrough then PassThrough
      else if !started then Starting(pending)
      else if remainingCommand > 0 then InHeader(HeaderSoFar())
      else if remainingContent > 0 then InContent(currentCommand, remainingContent, remainingPadding)
      else InPadding(currentCommand, remainingPadding)
    }

    lemma DirectView()
      requires Valid()
      ensures direct <==> View() == Finished(true)
    {
    }

    constructor (uuid: bytes)
      requires |uuid| == 16
      ensures Valid() && userUuid == uuid && View() == Starting([])
    {
      userUuid := uuid;
      started, passthrough, finished, direct := false, false, false, false;
      pending := [];
      remainingCommand, remainingContent, remainingPadding := -1, -1, -1;
      currentCommand := 0;
    }

    /** The end of a pass: a block with nothing left either opens the next header or ends the phase. */
    method Settle()
      requires |userUuid| == 16 && started && !finished && !passthrough && !direct
      requires remainingCommand >= 0
      requires remainingCommand > 0 ==> MidBlock()
      requires remainingCommand == 0 ==>
                 0 <= currentCommand < 256 && 0 <= remainingContent < 65536 && 0 <= remainingPadding < 65536
      modifies this
      ensures Valid() && started
      ensures old(remainingCommand) > 0 ==> View() == InHeader(old(HeaderSoFar()))
      ensures old(remainingCommand) == 0 ==>
                View() == if old(remainingContent) > 0
                          then InContent(old(currentCommand), old(remainingContent), old(remainingPadding))
                          else AfterContent(old(currentCommand), old(remainingPadding))
    {
      if remainingCommand <= 0 && remainingContent <= 0 && remainingPadding <= 0 {
        if currentCommand == 0 {
          remainingCommand := 5;
        } else {
          remainingCommand, remainingContent, remainingPadding := -1, -1, -1;
          finished := true;
          if currentCommand == 2 {
            direct := true;
          }
        }
      }
    }

    /** One header byte. The value or-ed into has a zero low byte, so `|=` is addition. */
    method HeaderByte(data: byte)
      requires MidBlock() && remainingCommand > 0
      modifies this`remainingCommand, this`currentCommand, this`remainingContent, this`remainingPadding
      ensures remainingCommand == old(remainingCommand) - 1
      ensures remainingCommand > 0 ==> MidBlock() && HeaderSoFar() == old(HeaderSoFar()) + [data]
      ensures remainingCommand == 0 ==>
                && 0 <= currentCommand < 256
                && 0 <= remainingContent < 65536 && 0 <= remainingPadding < 65536
                && [currentCommand] + U16(remainingContent) + U16(remainingPadding) == old(HeaderSoFar()) + [data]
    {
      hide U16;
      HighByte(data);
      if remainingCommand == 3 {
        LowByte(remainingContent, data);
      } else if remainingCommand == 1 {
        LowByte(remainingPadding, data);
      }
      match remainingCommand {
        case 5 => currentCommand := data;
        case 4 => remainingContent := data * 256;
        case 3 => remainingContent := remainingContent + data;
        case 2 => remainingPadding := data * 256;
        case 1 => remainingPadding := remainingPadding + data;
        case _ =>
      }
      remainingCommand := remainingCommand - 1;
    }

    /** One pass of the loop: consumes at least one byte and settles a block that is complete. */
    method Pass(b: bytes) returns (n: nat, released: bytes)
      requires Valid() && started && !finished && b != []
      modifies this
      ensures Valid() && started
      ensures 1 <= n <= |b|
      ensures finished ==> View().Finished?
      ensures (View(), released) == Run(userUuid, old(View()), b[..n])
    {
      released := [];
      if remainingCommand > 0 {
        n := 1;
        ghost var g := HeaderSoFar();
        assert b[..1] == [b[0]];
        RunHeader(userUuid, g, b[..1]);
        HeaderByte(b[0]);
        if remainingCommand == 0 {
          U16RoundTrip(remainingContent);
          U16RoundTrip(remainingPadding);
          AfterHeaderFields(currentCommand, U16(remainingContent), U16(remainingPadding));
        }
      } else if remainingContent > 0 {
        n := Min(remainingContent, |b|);
        RunContent(userUuid, View(), b[..n]);
        released := b[..n];
        remainingContent := remainingContent - n;
      } else {
        n := Min(remainingPadding, |b|);
        RunPadding(userUuid, View(), b[..n]);
        remainingPadding := remainingPadding - n;
      }
      Settle();
    }

    method Process(input: bytes) returns (out: bytes)
      requires Valid() && started && !finished
      modifies this
      ensures Valid()
      ensures (View(), out) == Run(userUuid, old(View()), input)
    {
      hide Run;
      hide View;
      hide Valid;
      var b := input;
      out := [];
      ghost var done: bytes := [];
      RunNothing(userUuid, View());
      while b != []
        invariant Valid() && started
        invariant input == done + b
        invariant finished ==> b == []
        invariant (View(), out) == Run(userUuid, old(View()), done)
        decreases |b|
      {
        var n, released := Pass(b);
        RunConcat(userUuid, old(View()), done, b[..n]);
        out := out + released;
        done := done + b[..n];
        b := b[n..];
        if finished {
          RunVerbatim(userUuid, View(), b);
          RunConcat(userUuid, old(View()), done, b);
          out := out + b;
          done := done + b;
          b := [];
        }
      }
      Unit(done);
    }

    /** Returns the content that `input` releases; in step with the byte-at-a-time reference. */
    method Push(input: bytes) returns (out: bytes)
      requires Valid()
      modifies this
      ensures Valid()
      ensures (View(), out) == Run(userUuid, old(View()), input)
    {
      if finished || passthrough {
        RunVerbatim(userUuid, View(), input);
        return input;
      }
      if !started {
        RunStarting(userUuid, pending, input);
        pending := pending + input;
        if |pending| < 21 {
          return [];
        }
        if pending[..16] != userUuid {
          passthrough := true;
          out := pending;
          pending := [];
          return;
        }
        started := true;
        remainingCommand := 5;
        var rest := pending[16..];
        pending := [];
        out := Process(rest);
        return;
      }
      out := Process(input);
    }
  }
}
