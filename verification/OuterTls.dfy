/** The outer TLS connection, driven one record at a time over a TCP socket. */
module OuterTls {
  import opened Bytes
  import opened Sockets

  const READ_CHUNK: nat := 16384

  /** What the TLS session makes of its k-th record: plaintext (maybe none), or a fatal error. */
  type Opener = (nat, bytes) -> Option<bytes>

  /** What was handed to the socket: plaintext sealed by the outer TLS, or bytes sent as they are. */
  datatype Sent = Sealed(plaintext: bytes) | Clear(data: bytes)

  datatype Outcome<+T> = Got(value: T) | Eof | Torn | Rejected

  class RecordTlsServer {
    const decrypt: Opener
    var tcp: seq<bytes>      // what the socket will still deliver, cut as it will arrive
    var inbuf: bytes         // read off the socket, not yet consumed
    var readTotal: nat
    var fed: nat             // records given to the TLS session
    var sent: seq<Sent>

    ghost predicate Valid()
      reads this`tcp
    {
      NonEmpty(tcp)
    }

    /** Everything the peer has sent and the server has not consumed. */
    ghost function Stream(): bytes
      reads this`inbuf, this`tcp
    {
      inbuf + Flatten(tcp)
    }

    constructor (decrypt: Opener, tcp: seq<bytes>, prefix: bytes)
      requires NonEmpty(tcp)
      ensures Valid() && this.decrypt == decrypt
      ensures Stream() == prefix + Flatten(tcp)
      ensures fed == 0 && sent == []
    {
      this.decrypt := decrypt;
      this.tcp := tcp;
      inbuf := prefix;
      readTotal := |prefix|;
      fed := 0;
      sent := [];
    }

    /** Moves one read from the socket to `inbuf`; false at the end of the stream. */
    method Fill() returns (more: bool)
      requires Valid()
      modifies this`tcp, this`inbuf, this`readTotal
      ensures Valid() && Stream() == old(Stream())
      ensures more <==> old(tcp) != []
      ensures if more then |Flatten(tcp)| < |old(Flatten(tcp))| else tcp == [] && inbuf == old(inbuf)
      ensures readTotal + |Flatten(tcp)| == old(readTotal + |Flatten(tcp)|)
    {
      var r := ReadSome(tcp, READ_CHUNK);
      if r.0 == [] {
        return false;
      }
      Assoc(inbuf, r.0, Flatten(r.1));
      readTotal := readTotal + |r.0|;
      inbuf := inbuf + r.0;
      tcp := r.1;
      more := true;
    }

    method EnsureOneRecord() returns (r: Outcome<nat>)
      requires Valid()
      modifies this`tcp, this`inbuf, this`readTotal
      ensures Valid() && Stream() == old(Stream())
      ensures r.Got? ==> RecordLen(Stream()) == Some(r.value) && r.value <= |inbuf|
      ensures r.Eof? <==> Stream() == []
      ensures r.Torn? <==> Stream() != [] && RecordLen(Stream()) == None
      ensures !r.Rejected?
    {
      while true
        invariant Valid() && Stream() == old(Stream())
        decreases |Flatten(tcp)|
      {
        if RecordLen(inbuf).Some? {
          RecordLenStable(inbuf, Flatten(tcp));
          return Got(RecordLen(inbuf).value);
        }
        var more := Fill();
        if !more {
          Unit(inbuf);
          if inbuf == [] {
            return Eof;
          }
          return Torn;
        }
      }
    }

    /** Consumes exactly one record and nothing past it. */
    method ReadRecordOpt() returns (r: Outcome<bytes>)
      requires Valid()
      modifies this`tcp, this`inbuf, this`readTotal, this`fed
      ensures Valid()
      ensures match RecordLen(old(Stream()))
              case None => r == (if old(Stream()) == [] then Eof else Torn) && Stream() == old(Stream()) && fed == old(fed)
              case Some(n) =>
                && Stream() == old(Stream())[n..]
                && fed == old(fed) + 1
                && r == match decrypt(old(fed), old(Stream())[..n])
                        case None => Rejected
                        case Some(plaintext) => Got(plaintext)
    {
      var e := EnsureOneRecord();
      match e {
        case Eof => r := Eof;
        case Torn => r := Torn;
        case Got(total) =>
          assert Stream()[..total] == inbuf[..total];
          assert Stream()[total..] == inbuf[total..] + Flatten(tcp);
          var plaintext := decrypt(fed, inbuf[..total]);
          fed := fed + 1;
          inbuf := inbuf[total..];
          r := if plaintext.None? then Rejected else Got(plaintext.value);
      }
    }

    /** Reads past the outer TLS: buffered bytes first, then the socket. */
    method ReadRaw(limit: nat) returns (got: bytes)
      requires Valid() && limit > 0
      modifies this`tcp, this`inbuf
      ensures Valid()
      ensures old(Stream()) == got + Stream()
      ensures got == [] <==> old(Stream()) == []
    {
      if inbuf != [] {
        var n := Min(|inbuf|, limit);
        got := inbuf[..n];
        assert inbuf == got + inbuf[n..];
        Assoc(got, inbuf[n..], Flatten(tcp));
        inbuf := inbuf[n..];
        return;
      }
      var r := ReadSome(tcp, limit);
      Unit(Flatten(tcp));
      Unit(Flatten(r.1));
      got, tcp := r.0, r.1;
    }

    method WritePlaintext(data: bytes)
      modifies this`sent
      ensures sent == old(sent) + [Sealed(data)]
    {
      sent := sent + [Sealed(data)];
    }

    method WriteRaw(data: bytes)
      modifies this`sent
      ensures sent == old(sent) + [Clear(data)]
    {
      sent := sent + [Clear(data)];
    }

    /** Gives up the buffered bytes; the socket goes on being read directly. */
    method IntoRaw() returns (leftover: bytes)
      requires Valid()
      modifies this`inbuf
      ensures Valid() && inbuf == []
      ensures old(Stream()) == leftover + Stream()
    {
      leftover := inbuf;
      inbuf := [];
      Unit(Flatten(tcp));
    }
  }
}
