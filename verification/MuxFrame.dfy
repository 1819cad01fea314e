/** Mux.Cool / XUDP frames: the incremental parser, the printer and the datagram framing. */
module MuxFrame {
  import opened Bytes
  import opened Utf8

  const STATUS_NEW: byte := 0x01
  const STATUS_KEEP: byte := 0x02
  const STATUS_END: byte := 0x03
  const STATUS_KEEPALIVE: byte := 0x04
  const OPTION_DATA: byte := 0x01
  const NET_UDP: byte := 0x02

  /** A frame target. Octets are 4 or 16 bytes; a domain is the repaired text on the wire. */
  datatype Addr = Ip(octets: bytes, port: nat) | Domain(host: bytes, domainPort: nat)

  datatype Frame = Frame(sid: nat, status: byte, target: Option<Addr>, data: Option<bytes>)

  datatype Parse = Done(frame: Frame, used: nat) | NeedMore | Bad

  function ReadAddr(b: bytes): (r: Option<Addr>) {
    if |b| < 3 then None
    else
      var port := FromU16(b[0], b[1]);
      if b[2] == 0x01 then
        if |b| < 7 then None else Some(Ip(b[3..7], port))
      else if b[2] == 0x03 then
        if |b| < 19 then None else Some(Ip(b[3..19], port))
      else if b[2] == 0x02 then
        if |b| < 4 || |b| < 4 + b[3] as int then None else Some(Domain(Repair(b[4..4 + b[3] as int]), port))
      else None
  }

  predicate HasAddr(meta: bytes)
    requires |meta| >= 4
  {
    meta[2] == STATUS_NEW || (meta[2] == STATUS_KEEP && |meta| > 4 && meta[4] == NET_UDP)
  }

  /** The target the metadata carries: absent, present, or unreadable. */
  function TargetOf(meta: bytes): (r: Option<Option<Addr>>)
    requires |meta| >= 4
  {
    if !HasAddr(meta) then Some(None)
    else if |meta| < 5 then None
    else
      match ReadAddr(meta[5..])
      case None => None
      case Some(a) => Some(Some(a))
  }

  /** One frame at the front of `buf`, or the verdict that more bytes are needed, or an error. */
  function ParseFrame(buf: bytes): (p: Parse)
    ensures p.Done? ==> 6 <= p.used <= |buf|
    ensures p.Done? ==> p.frame.sid < 65536 && (p.frame.data.Some? ==> |p.frame.data.value| < 65536)
  {
    if |buf| < 2 then NeedMore
    else
      var metaLen := FromU16(buf[0], buf[1]);
      if metaLen < 4 || metaLen > 512 then Bad
      else if |buf| < 2 + metaLen then NeedMore
      else
        var meta := buf[2..2 + metaLen];
        match TargetOf(meta)
        case None => Bad
        case Some(target) =>
          var sid := FromU16(meta[0], meta[1]);
          if meta[3] % 2 == 0 then Done(Frame(sid, meta[2], target, None), 2 + metaLen)
          else if |buf| < 4 + metaLen then NeedMore
          else
            var dlen := FromU16(buf[2 + metaLen], buf[3 + metaLen]);
            if |buf| < 4 + metaLen + dlen then NeedMore
            else Done(Frame(sid, meta[2], target, Some(buf[4 + metaLen..4 + metaLen + dlen])), 4 + metaLen + dlen)
  }

  /** A decided result does not change when more bytes arrive. */
  lemma ParsePrefixStable(buf: bytes, more: bytes)
    requires !ParseFrame(buf).NeedMore?
    ensures ParseFrame(buf + more) == ParseFrame(buf)
  {
    var all := buf + more;
    assert all[0] == buf[0] && all[1] == buf[1];
    var metaLen := FromU16(buf[0], buf[1]);
    if 4 <= metaLen <= 512 {
      assert all[2..2 + metaLen] == buf[2..2 + metaLen];
      hide TargetOf;
      if |buf| >= 4 + metaLen {
        assert all[2 + metaLen] == buf[2 + metaLen] && all[3 + metaLen] == buf[3 + metaLen];
        var dlen := FromU16(buf[2 + metaLen], buf[3 + metaLen]);
        if |buf| >= 4 + metaLen + dlen {
          assert all[4 + metaLen..4 + metaLen + dlen] == buf[4 + metaLen..4 + metaLen + dlen];
        }
      }
    }
  }

  // ------------------------------------------------------------- draining

  datatype Drained = Drained(frames: seq<Frame>, rest: bytes, bad: bool)

  /** All frames at the front of `buf`; what is left is undecided, or starts with an error. */
  function Drain(buf: bytes): (d: Drained)
    ensures d.bad <==> ParseFrame(d.rest).Bad?
    ensures !d.bad <==> ParseFrame(d.rest).NeedMore?
    decreases |buf|
  {
    match ParseFrame(buf)
    case NeedMore => Drained([], buf, false)
    case Bad => Drained([], buf, true)
    case Done(f, used) =>
      var d := Drain(buf[used..]);
      Drained([f] + d.frames, d.rest, d.bad)
  }

  /** Draining, then appending and draining again, is draining everything at once. */
  lemma {:induction false} DrainAppend(buf: bytes, more: bytes)
    ensures !Drain(buf).bad ==>
              Drain(buf + more) == Drain(Drain(buf).rest + more).(
                frames := Drain(buf).frames + Drain(Drain(buf).rest + more).frames)
    ensures Drain(buf).bad ==>
              Drain(buf + more) == Drain(buf).(rest := Drain(buf).rest + more)
    decreases |buf|
  {
    hide ParseFrame;
    match ParseFrame(buf)
    case NeedMore =>
      assert [] + Drain(buf + more).frames == Drain(buf + more).frames;
    case Bad =>
      ParsePrefixStable(buf, more);
    case Done(f, used) =>
      ParsePrefixStable(buf, more);
      assert (buf + more)[used..] == buf[used..] + more;
      DrainAppend(buf[used..], more);
      var d := Drain(buf[used..]);
      assert ([f] + d.frames) + Drain(d.rest + more).frames == [f] + (d.frames + Drain(d.rest + more).frames);
  }

  lemma DrainOne(buf: bytes, f: Frame, used: nat)
    requires ParseFrame(buf) == Done(f, used)
    ensures Drain(buf) == Drain(buf[used..]).(frames := [f] + Drain(buf[used..]).frames)
  {
  }

  // ------------------------------------------------------------- printing

  ghost predicate IsSource(a: Addr) {
    a.Ip? && (|a.octets| == 4 || |a.octets| == 16) && a.port < 65536
  }

  /** `[network][port][type][address]` of a response frame. */
  function AddrBytes(a: Addr): bytes
    requires IsSource(a)
  {
    [NET_UDP] + U16(a.port) + [if |a.octets| == 4 then 0x01 else 0x03] + a.octets
  }

  function KeepMeta(sid: nat, src: Addr): (m: bytes)
    requires IsSource(src)
    ensures |m| == 8 + |src.octets|
  {
    U16(sid) + [STATUS_KEEP, OPTION_DATA] + AddrBytes(src)
  }

  function KeepFrame(sid: nat, src: Addr, data: bytes): (f: bytes)
    requires IsSource(src)
    ensures |f| == 12 + |src.octets| + |data|
  {
    U16(|KeepMeta(sid, src)|) + KeepMeta(sid, src) + U16(|data|) + data
  }

  /** The address part of response metadata, whatever bytes the id and the port are. */
  lemma KeepTarget(ids: bytes, port: bytes, octets: bytes)
    requires |ids| == 2 && |port| == 2 && (|octets| == 4 || |octets| == 16)
    ensures var kind: byte := if |octets| == 4 then 0x01 else 0x03;
            TargetOf(ids + [STATUS_KEEP, OPTION_DATA] + ([NET_UDP] + port + [kind] + octets)) ==
            Some(Some(Ip(octets, FromU16(port[0], port[1]))))
  {
    var kind: byte := if |octets| == 4 then 0x01 else 0x03;
    var m := ids + [STATUS_KEEP, OPTION_DATA] + ([NET_UDP] + port + [kind] + octets);
    var a := m[5..];
    assert a == port + [kind] + octets;
    assert a[3..] == octets && a[3..3 + |octets|] == octets;
    assert m[2] == STATUS_KEEP && m[4] == NET_UDP;
  }

  /** What the parser reads when the two length fields agree with the parts they count. */
  lemma ParseParts(m: bytes, metaLen: bytes, dataLen: bytes, data: bytes, more: bytes)
    requires |metaLen| == 2 && |dataLen| == 2 && 4 <= |m| <= 512 && m[3] == OPTION_DATA
    requires FromU16(metaLen[0], metaLen[1]) == |m| && FromU16(dataLen[0], dataLen[1]) == |data|
    requires TargetOf(m).Some?
    ensures ParseFrame(metaLen + m + dataLen + data + more)
         == Done(Frame(FromU16(m[0], m[1]), m[2], TargetOf(m).value, Some(data)), 4 + |m| + |data|)
  {
    hide TargetOf;
    var n := |m|;
    var buf := metaLen + m + dataLen + data + more;
    assert buf[0] == metaLen[0] && buf[1] == metaLen[1];
    assert buf[2..2 + n] == m;
    assert buf[2 + n] == dataLen[0] && buf[3 + n] == dataLen[1];
    assert buf[4 + n..4 + n + |data|] == data;
  }

  datatype Response = Response(sid: nat, src: Addr, data: bytes) {
    ghost predicate Valid() {
      sid < 65536 && IsSource(src) && |data| < 65536
    }

    function Print(): bytes
      requires Valid()
    {
      KeepFrame(sid, src, data)
    }

    function Parsed(): Frame {
      Frame(sid, STATUS_KEEP, Some(src), Some(data))
    }
  }

  ghost predicate AllValid(rs: seq<Response>) {
    forall i | 0 <= i < |rs| :: rs[i].Valid()
  }

  function PrintAll(rs: seq<Response>): bytes
    requires AllValid(rs)
  {
    if rs == [] then [] else rs[0].Print() + PrintAll(rs[1..])
  }

  function ParsedAll(rs: seq<Response>): (fs: seq<Frame>)
    ensures |fs| == |rs|
  {
    seq(|rs|, i requires 0 <= i < |rs| => rs[i].Parsed())
  }

  lemma {:induction false} PrintSnoc(rs: seq<Response>, r: Response)
    requires AllValid(rs) && r.Valid()
    ensures AllValid(rs + [r])
    ensures PrintAll(rs + [r]) == PrintAll(rs) + r.Print()
    ensures rs == [] ==> PrintAll(rs + [r]) == r.Print()
    decreases |rs|
  {
    hide KeepFrame;
    hide Response.Valid;
    if rs == [] {
      assert rs + [r] == [r];
      Unit(r.Print());
    } else {
      assert (rs + [r])[1..] == rs[1..] + [r];
      PrintSnoc(rs[1..], r);
      Assoc(rs[0].Print(), PrintAll(rs[1..]), r.Print());
    }
  }

  /** Printed responses drain to exactly themselves, before whatever the rest drains to. */
  lemma {:induction false} DrainPrinted(rs: seq<Response>, more: bytes)
    requires AllValid(rs)
    ensures Drain(PrintAll(rs) + more) == Drain(more).(frames := ParsedAll(rs) + Drain(more).frames)
    decreases |rs|
  {
    hide ParseFrame;
    hide TargetOf;
    hide U16;
    hide Drain;
    if rs == [] {
      assert PrintAll(rs) + more == more;
      assert ParsedAll(rs) + Drain(more).frames == Drain(more).frames;
    } else {
      var r, rest := rs[0], rs[1..];
      var p, after, m := r.Print(), PrintAll(rest) + more, KeepMeta(r.sid, r.src);
      U16RoundTrip(|m|);
      U16RoundTrip(r.sid);
      U16RoundTrip(|r.data|);
      U16RoundTrip(r.src.port);
      KeepTarget(U16(r.sid), U16(r.src.port), r.src.octets);
      assert m[0] == U16(r.sid)[0] && m[1] == U16(r.sid)[1] && m[2] == STATUS_KEEP && m[3] == OPTION_DATA;
      ParseParts(m, U16(|m|), U16(|r.data|), r.data, after);
      Assoc(p, PrintAll(rest), more);
      assert (p + after)[|p|..] == after;
      DrainOne(p + after, r.Parsed(), |p|);
      DrainPrinted(rest, more);
      assert ParsedAll(rs) == [r.Parsed()] + ParsedAll(rest);
      assert ([r.Parsed()] + ParsedAll(rest)) + Drain(more).frames
          == [r.Parsed()] + (ParsedAll(rest) + Drain(more).frames);
    }
  }

  // ------------------------------------------------- cascade datagrams

  /** `[len:2][payload]`, as written for a VLESS-UDP stream. */
  function WriteDatagram(data: bytes): bytes {
    U16(|data|) + data
  }

  /** The first whole datagram of the buffer and what follows it. */
  function TakeDatagram(buf: bytes): (r: Option<(bytes, bytes)>)
    ensures r.Some? <==> |buf| >= 2 && |buf| >= 2 + FromU16(buf[0], buf[1])
    ensures r.Some? ==> buf == buf[..2] + r.value.0 + r.value.1 && |r.value.0| == FromU16(buf[0], buf[1])
  {
    if |buf| < 2 || |buf| < 2 + FromU16(buf[0], buf[1]) then None
    else
      var n := FromU16(buf[0], buf[1]);
      Some((buf[2..2 + n], buf[2 + n..]))
  }

  /** The payload of any parsed frame survives the trip through the cascade's length header. */
  lemma ParsedPayloadFitsCascade(buf: bytes, more: bytes)
    requires ParseFrame(buf).Done? && ParseFrame(buf).frame.data.Some?
    ensures var data := ParseFrame(buf).frame.data.value;
            TakeDatagram(WriteDatagram(data) + more) == Some((data, more))
  {
    hide ParseFrame;
    var data := ParseFrame(buf).frame.data.value;
    U16RoundTrip(|data|);
    var all := WriteDatagram(data) + more;
    assert all[2..2 + |data|] == data && all[2 + |data|..] == more;
  }

  function TakeAll(buf: bytes): (r: (seq<bytes>, bytes))
    decreases |buf|
  {
    match TakeDatagram(buf)
    case None => ([], buf)
    case Some(t) => var d := TakeAll(t.1); ([t.0] + d.0, d.1)
  }

  function WriteAll(ds: seq<bytes>): bytes {
    if ds == [] then [] else WriteDatagram(ds[0]) + WriteAll(ds[1..])
  }

  /** A datagram that is all there is not changed by what follows it. */
  lemma TakeStable(buf: bytes, more: bytes)
    requires TakeDatagram(buf).Some?
    ensures var t := TakeDatagram(buf).value;
            TakeDatagram(buf + more) == Some((t.0, t.1 + more))
  {
    var n := FromU16(buf[0], buf[1]);
    assert (buf + more)[2..2 + n] == buf[2..2 + n] && (buf + more)[2 + n..] == buf[2 + n..] + more;
  }

  /** A stream of datagrams, cut anywhere, yields the same datagrams. */
  lemma {:induction false} TakeAppend(buf: bytes, more: bytes)
    ensures TakeAll(buf + more) ==
            (TakeAll(buf).0 + TakeAll(TakeAll(buf).1 + more).0, TakeAll(TakeAll(buf).1 + more).1)
    decreases |buf|
  {
    hide TakeDatagram;
    match TakeDatagram(buf)
    case None =>
      assert [] + TakeAll(buf + more).0 == TakeAll(buf + more).0;
    case Some(t) =>
      TakeStable(buf, more);
      TakeAppend(t.1, more);
      var d := TakeAll(t.1);
      assert ([t.0] + d.0) + TakeAll(d.1 + more).0 == [t.0] + (d.0 + TakeAll(d.1 + more).0);
  }

  lemma {:induction false} TakeWritten(ds: seq<bytes>)
    requires forall i | 0 <= i < |ds| :: |ds[i]| < 65536
    ensures TakeAll(WriteAll(ds)) == (ds, [])
    decreases |ds|
  {
    if ds != [] {
      var data, more := ds[0], WriteAll(ds[1..]);
      U16RoundTrip(|data|);
      var all := WriteDatagram(data) + more;
      assert all[2..2 + |data|] == data && all[2 + |data|..] == more;
      TakeWritten(ds[1..]);
      assert ds == [data] + ds[1..];
    }
  }
}
