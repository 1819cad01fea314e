/** `vless://` share links: the printer of the server side and the parser of the client side. */
module Link {
  import opened Bytes
  import opened Percent
  import opened Utf8

  function Ascii(s: string): (b: bytes)
    ensures |b| == |s| && forall i | 0 <= i < |s| :: b[i] == s[i] as int % 256
  {
    seq(|s|, i requires 0 <= i < |s| => s[i] as int % 256)
  }

  const HASH: byte := 0x23
  const AMP: byte := 0x26
  const COLON: byte := 0x3A
  const EQUALS: byte := 0x3D
  const QUERY: byte := 0x3F
  const AT: byte := 0x40
  const OPEN: byte := 0x5B
  const CLOSE: byte := 0x5D

  // ---------------------------------------------------------- splitting

  /** The parts before and after the first `c`. */
  function SplitOnce(s: bytes, c: byte): Option<(bytes, bytes)> {
    if s == [] then None
    else if s[0] == c then Some(([], s[1..]))
    else
      match SplitOnce(s[1..], c)
      case None => None
      case Some(t) => Some(([s[0]] + t.0, t.1))
  }

  /** The parts before and after the last `c`. */
  function RSplitOnce(s: bytes, c: byte): Option<(bytes, bytes)> {
    if s == [] then None
    else
      var n := |s| - 1;
      if s[n] == c then Some((s[..n], []))
      else
        match RSplitOnce(s[..n], c)
        case None => None
        case Some(t) => Some((t.0, t.1 + [s[n]]))
  }

  lemma {:induction false} SplitOnceShorter(s: bytes, c: byte)
    ensures SplitOnce(s, c).Some? ==> |SplitOnce(s, c).value.1| < |s|
    decreases |s|
  {
    if s != [] && s[0] != c {
      SplitOnceShorter(s[1..], c);
    }
  }

  function Split(s: bytes, c: byte): seq<bytes>
    decreases |s|
  {
    match SplitOnce(s, c)
    case None => [s]
    case Some(t) => SplitOnceShorter(s, c); [t.0] + Split(t.1, c)
  }

  lemma {:induction false} SplitOnceAt(a: bytes, c: byte, b: bytes)
    requires c !in a
    ensures SplitOnce(a + [c] + b, c) == Some((a, b))
    decreases |a|
  {
    var s := a + [c] + b;
    if a == [] {
      assert s[1..] == b;
    } else {
      assert s[1..] == a[1..] + [c] + b;
      SplitOnceAt(a[1..], c, b);
      assert [a[0]] + a[1..] == a;
    }
  }

  lemma {:induction false} SplitOnceNone(s: bytes, c: byte)
    requires c !in s
    ensures SplitOnce(s, c) == None
    decreases |s|
  {
    if s != [] {
      SplitOnceNone(s[1..], c);
    }
  }

  lemma {:induction false} RSplitOnceAt(a: bytes, c: byte, b: bytes)
    requires c !in b
    ensures RSplitOnce(a + [c] + b, c) == Some((a, b))
    decreases |b|
  {
    var s := a + [c] + b;
    var n := |s| - 1;
    if b == [] {
      assert s[..n] == a;
    } else {
      var b' := b[..|b| - 1];
      assert s[..n] == a + [c] + b' && s[n] == b[|b| - 1];
      RSplitOnceAt(a, c, b');
      assert b' + [b[|b| - 1]] == b;
    }
  }

  function Join(parts: seq<bytes>, c: byte): bytes {
    if parts == [] then []
    else if |parts| == 1 then parts[0]
    else parts[0] + [c] + Join(parts[1..], c)
  }

  lemma {:induction false} SplitJoin(parts: seq<bytes>, c: byte)
    requires parts != [] && forall i | 0 <= i < |parts| :: c !in parts[i]
    ensures Split(Join(parts, c), c) == parts
    decreases |parts|
  {
    if |parts| == 1 {
      SplitOnceNone(parts[0], c);
      assert parts == [parts[0]];
    } else {
      SplitOnceAt(parts[0], c, Join(parts[1..], c));
      SplitJoin(parts[1..], c);
      assert parts == [parts[0]] + parts[1..];
    }
  }

  // ---------------------------------------------------------- host and port

  function Digits(n: nat): (d: bytes)
    ensures d != [] && forall b | b in d :: 0x30 <= b <= 0x39
    decreases n
  {
    if n < 10 then [0x30 + n] else Digits(n / 10) + [0x30 + n % 10]
  }

  /** The value of a non-empty run of decimal digits. */
  function Decimal(s: bytes): Option<nat>
    decreases |s|
  {
    if s == [] then None
    else
      var d := s[|s| - 1];
      if d < 0x30 || d > 0x39 then None
      else if |s| == 1 then Some(d - 0x30)
      else
        match Decimal(s[..|s| - 1])
        case None => None
        case Some(n) => Some(n * 10 + (d - 0x30))
  }

  /** `str::parse::<u16>`: an optional plus sign and digits, in range. */
  function ParsePort(s: bytes): Option<nat> {
    var digits := if s != [] && s[0] == 0x2B then s[1..] else s;
    match Decimal(digits)
    case None => None
    case Some(n) => if n < 65536 then Some(n) else None
  }

  lemma {:induction false} DecimalDigits(n: nat)
    ensures Decimal(Digits(n)) == Some(n)
    decreases n
  {
    if n >= 10 {
      var d := Digits(n);
      assert d[..|d| - 1] == Digits(n / 10) && d[|d| - 1] == 0x30 + n % 10;
      DecimalDigits(n / 10);
    }
  }

  lemma PortRoundTrip(n: nat)
    requires n < 65536
    ensures ParsePort(Digits(n)) == Some(n)
  {
    DecimalDigits(n);
    assert Digits(n)[0] in Digits(n);
  }

  /** The position of the first `]:`. */
  function SplitBracket(s: bytes): Option<(bytes, bytes)> {
    if |s| < 2 then None
    else if s[0] == CLOSE && s[1] == COLON then Some(([], s[2..]))
    else
      match SplitBracket(s[1..])
      case None => None
      case Some(t) => Some(([s[0]] + t.0, t.1))
  }

  function HostPort(s: bytes): Option<(bytes, nat)> {
    var parts := if s != [] && s[0] == OPEN then SplitBracket(s[1..]) else RSplitOnce(s, COLON);
    match parts
    case None => None
    case Some(t) =>
      match ParsePort(t.1)
      case None => None
      case Some(port) => Some((t.0, port))
  }

  lemma DigitsHaveNo(n: nat, c: byte)
    requires c < 0x30 || c > 0x39
    ensures c !in Digits(n)
  {
  }

  lemma PlainHostRoundTrip(host: bytes, port: nat)
    requires port < 65536 && (host != [] ==> host[0] != OPEN)
    ensures HostPort(host + [COLON] + Digits(port)) == Some((host, port))
  {
    DigitsHaveNo(port, COLON);
    RSplitOnceAt(host, COLON, Digits(port));
    PortRoundTrip(port);
    var s := host + [COLON] + Digits(port);
    assert s[0] == if host == [] then COLON else host[0];
  }

  lemma {:induction false} SplitBracketAt(host: bytes, rest: bytes)
    requires CLOSE !in host
    ensures SplitBracket(host + [CLOSE, COLON] + rest) == Some((host, rest))
    decreases |host|
  {
    var s := host + [CLOSE, COLON] + rest;
    if host == [] {
      assert s[2..] == rest;
    } else {
      assert s[1..] == host[1..] + [CLOSE, COLON] + rest;
      SplitBracketAt(host[1..], rest);
      assert [host[0]] + host[1..] == host;
    }
  }

  lemma BracketHostRoundTrip(host: bytes, port: nat)
    requires port < 65536 && CLOSE !in host
    ensures HostPort([OPEN] + host + [CLOSE, COLON] + Digits(port)) == Some((host, port))
  {
    hide SplitBracket;
    hide RSplitOnce;
    hide ParsePort;
    hide Digits;
    SplitBracketAt(host, Digits(port));
    PortRoundTrip(port);
    var s := [OPEN] + host + [CLOSE, COLON] + Digits(port);
    assert s[1..] == host + [CLOSE, COLON] + Digits(port);
  }

  // ------------------------------------------------------------- printing

  datatype XhttpParams = XhttpParams(
    uuid: bytes, serverAddr: bytes, sni: bytes, host: bytes, path: bytes, mode: bytes, fp: bytes, caption: bytes)
  {
    /** The percent-encoded fields are strings. */
    ghost predicate AreStrings() {
      IsText(sni) && IsText(host) && IsText(path) && IsText(mode) && IsText(fp) && IsText(caption)
    }
  }

  const SCHEME: bytes := Ascii("vless://")
  const TLS: bytes := Ascii("tls")
  const XHTTP: bytes := Ascii("xhttp")
  const TCP: bytes := Ascii("tcp")

  function QueryPairs(p: XhttpParams): seq<(bytes, bytes)> {
    [(Ascii("type"), XHTTP), (Ascii("security"), TLS), (Ascii("encryption"), Ascii("none")),
     (Ascii("sni"), p.sni), (Ascii("fp"), p.fp), (Ascii("alpn"), Ascii("h2")),
     (Ascii("host"), p.host), (Ascii("path"), p.path), (Ascii("mode"), p.mode)]
  }

  function PrintPair(kv: (bytes, bytes)): bytes {
    kv.0 + [EQUALS] + Encoded(kv.1)
  }

  function PrintPairs(kvs: seq<(bytes, bytes)>): (ps: seq<bytes>)
    ensures |ps| == |kvs| && forall i | 0 <= i < |kvs| :: ps[i] == PrintPair(kvs[i])
  {
    seq(|kvs|, i requires 0 <= i < |kvs| => PrintPair(kvs[i]))
  }

  function VlessXhttpLink(p: XhttpParams): bytes {
    SCHEME + (p.uuid + [AT] + p.serverAddr + [QUERY] + Join(PrintPairs(QueryPairs(p)), AMP)
              + [HASH] + Encoded(p.caption))
  }

  // -------------------------------------------------------------- parsing

  datatype VlessLink = VlessLink(
    uuid: bytes, host: bytes, port: nat, security: bytes, sni: bytes, fp: bytes, flow: bytes,
    network: bytes, caption: bytes)

  datatype Parsed = Link(link: VlessLink) | Rejected | Panics

  predicate IsSpace(b: byte) {
    b == 0x20 || 0x09 <= b <= 0x0D
  }

  /** White space of two bytes: U+0085 and U+00A0. */
  predicate IsSpace2(a: byte, b: byte) {
    a == 0xC2 && (b == 0x85 || b == 0xA0)
  }

  /** White space of three bytes: U+1680, U+2000 to U+200A, U+2028, U+2029, U+202F, U+205F and U+3000. */
  predicate IsSpace3(a: byte, b: byte, c: byte) {
    || (a == 0xE1 && b == 0x9A && c == 0x80)
    || (a == 0xE2 && b == 0x80 && (0x80 <= c <= 0x8A || c == 0xA8 || c == 0xA9 || c == 0xAF))
    || (a == 0xE2 && b == 0x81 && c == 0x9F)
    || (a == 0xE3 && b == 0x80 && c == 0x80)
  }

  /** The length of the white space character at the front of a text, if there is one. */
  function SpaceInFront(s: bytes): (n: nat)
    ensures n <= |s|
  {
    if |s| >= 1 && IsSpace(s[0]) then 1
    else if |s| >= 2 && IsSpace2(s[0], s[1]) then 2
    else if |s| >= 3 && IsSpace3(s[0], s[1], s[2]) then 3
    else 0
  }

  function SpaceAtEnd(s: bytes): (n: nat)
    ensures n <= |s|
  {
    var k := |s|;
    if k >= 1 && IsSpace(s[k - 1]) then 1
    else if k >= 2 && IsSpace2(s[k - 2], s[k - 1]) then 2
    else if k >= 3 && IsSpace3(s[k - 3], s[k - 2], s[k - 1]) then 3
    else 0
  }

  function Trim(s: bytes): bytes
    decreases |s|
  {
    if SpaceInFront(s) > 0 then Trim(s[SpaceInFront(s)..])
    else if SpaceAtEnd(s) > 0 then Trim(s[..|s| - SpaceAtEnd(s)])
    else s
  }

  function Set(link: VlessLink, k: bytes, v: bytes): VlessLink {
    if k == Ascii("security") then link.(security := v)
    else if k == Ascii("sni") then link.(sni := v)
    else if k == Ascii("fp") then link.(fp := v)
    else if k == Ascii("flow") then link.(flow := v)
    else if k == Ascii("type") then link.(network := v)
    else link
  }

  /** One `key=value` of the query; an empty one is skipped. None: the decoder panics. */
  function Apply(link: VlessLink, pair: bytes): Option<VlessLink> {
    if pair == [] then Some(link)
    else
      var kv := match SplitOnce(pair, EQUALS) case None => (pair, []) case Some(t) => t;
      match Decoded(kv.1)
      case None => None
      case Some(v) => Some(Set(link, kv.0, v))
  }

  function ApplyAll(link: VlessLink, pairs: seq<bytes>): Option<VlessLink>
    decreases |pairs|
  {
    if pairs == [] then Some(link)
    else
      match Apply(link, pairs[0])
      case None => None
      case Some(next) => ApplyAll(next, pairs[1..])
  }

  /** The pieces of a link: caption, authority and query, as far as they can be told apart. */
  function Cut(s: bytes): Option<(bytes, bytes, bytes)> {
    var t := Trim(s);
    if |t| < |SCHEME| || t[..|SCHEME|] != SCHEME then None
    else
      var rest := t[|SCHEME|..];
      var (body, caption) := match SplitOnce(rest, HASH) case None => (rest, []) case Some(x) => x;
      var (authority, query) := match SplitOnce(body, QUERY) case None => (body, []) case Some(x) => x;
      Some((caption, authority, query))
  }

  function Blank(uuid: bytes, host: bytes, port: nat, caption: bytes): VlessLink {
    VlessLink(uuid, host, port, [], [], [], [], TCP, caption)
  }

  function ParseOf(s: bytes): Parsed {
    match Cut(s)
    case None => Rejected
    case Some((rawCaption, authority, query)) =>
      match Decoded(rawCaption)
      case None => Panics
      case Some(caption) =>
        match SplitOnce(authority, AT)
        case None => Rejected
        case Some((uuid, hostport)) =>
          if uuid == [] then Rejected
          else
            match HostPort(hostport)
            case None => Rejected
            case Some((host, port)) =>
              match ApplyAll(Blank(uuid, host, port, caption), Split(query, AMP))
              case None => Panics
              case Some(link) => Link(link)
  }

  /** The parser: the query pairs are taken one after another. */
  method Parse(s: bytes) returns (r: Parsed)
    ensures r == ParseOf(s)
  {
    var cut := Cut(s);
    if cut.None? {
      return Rejected;
    }
    var caption := PctDecode(cut.value.0);
    if caption.None? {
      return Panics;
    }
    var at := SplitOnce(cut.value.1, AT);
    if at.None? || at.value.0 == [] {
      return Rejected;
    }
    var hp := HostPort(at.value.1);
    if hp.None? {
      return Rejected;
    }
    var link := Blank(at.value.0, hp.value.0, hp.value.1, caption.value);
    var pairs := Split(cut.value.2, AMP);
    ghost var start := link;
    var i := 0;
    assert pairs[0..] == pairs;
    while i < |pairs|
      invariant 0 <= i <= |pairs|
      invariant ApplyAll(link, pairs[i..]) == ApplyAll(start, pairs)
    {
      assert pairs[i..][0] == pairs[i] && pairs[i..][1..] == pairs[i + 1..];
      var next := Apply(link, pairs[i]);
      if next.None? {
        return Panics;
      }
      link := next.value;
      i := i + 1;
    }
    r := Link(link);
  }

  // ------------------------------------------------------------ round trip

  /** Bytes that none of the separators are. */
  ghost predicate Clean(s: bytes) {
    forall b | b in s :: IsPlain(b)
  }

  ghost predicate CleanKeys(kvs: seq<(bytes, bytes)>) {
    forall i | 0 <= i < |kvs| :: Clean(kvs[i].0) && kvs[i].0 != []
  }

  ghost predicate TextValues(kvs: seq<(bytes, bytes)>) {
    forall i | 0 <= i < |kvs| :: IsText(kvs[i].1)
  }

  lemma PairSplits(link: VlessLink, kv: (bytes, bytes))
    requires Clean(kv.0) && kv.0 != [] && IsText(kv.1)
    ensures Apply(link, PrintPair(kv)) == Some(Set(link, kv.0, kv.1))
  {
    hide Set;
    assert EQUALS !in kv.0;
    SplitOnceAt(kv.0, EQUALS, Encoded(kv.1));
    PercentRoundTrip(kv.1);
  }

  function SetAll(link: VlessLink, kvs: seq<(bytes, bytes)>): VlessLink
    decreases |kvs|
  {
    if kvs == [] then link else SetAll(Set(link, kvs[0].0, kvs[0].1), kvs[1..])
  }

  lemma {:induction false} PairsApply(link: VlessLink, kvs: seq<(bytes, bytes)>)
    requires CleanKeys(kvs) && TextValues(kvs)
    ensures ApplyAll(link, PrintPairs(kvs)) == Some(SetAll(link, kvs))
    decreases |kvs|
  {
    hide Set;
    hide Apply;
    hide PrintPair;
    if kvs != [] {
      PairSplits(link, kvs[0]);
      PairsApply(Set(link, kvs[0].0, kvs[0].1), kvs[1..]);
      assert PrintPairs(kvs)[1..] == PrintPairs(kvs[1..]);
    }
  }

  lemma PairHasNo(kv: (bytes, bytes), c: byte)
    requires Clean(kv.0) && !IsPlain(c) && c != EQUALS
    ensures c !in PrintPair(kv)
  {
    EncodedIsPlain(kv.1);
  }

  lemma {:induction false} QueryHasNo(kvs: seq<(bytes, bytes)>, c: byte)
    requires CleanKeys(kvs) && !IsPlain(c) && c != EQUALS && c != AMP
    ensures c !in Join(PrintPairs(kvs), AMP)
    decreases |kvs|
  {
    hide PrintPair;
    if kvs != [] {
      PairHasNo(kvs[0], c);
      if |kvs| > 1 {
        assert PrintPairs(kvs)[1..] == PrintPairs(kvs[1..]);
        QueryHasNo(kvs[1..], c);
      }
    }
  }

  lemma LettersAreClean(k: string)
    requires k != [] && forall c | c in k :: 'a' <= c <= 'z'
    ensures Clean(Ascii(k)) && Ascii(k) != []
  {
    forall b | b in Ascii(k)
      ensures IsPlain(b)
    {
      var i :| 0 <= i < |k| && Ascii(k)[i] == b;
      assert k[i] in k;
    }
  }

  lemma KeysAreClean(p: XhttpParams)
    ensures CleanKeys(QueryPairs(p))
  {
    hide Clean;
    hide Ascii;
    LettersAreClean("type");
    LettersAreClean("security");
    LettersAreClean("encryption");
    LettersAreClean("sni");
    LettersAreClean("fp");
    LettersAreClean("alpn");
    LettersAreClean("host");
    LettersAreClean("path");
    LettersAreClean("mode");
  }

  /** A key with another length or another first letter is another key. */
  lemma OtherKey(a: string, b: string)
    requires |a| != |b| || (a != [] && b != [] && a[0] != b[0] && a[0] < 128 as char && b[0] < 128 as char)
    ensures Ascii(a) != Ascii(b)
  {
  }

  /** Which field each generated key sets. */
  lemma KeyEffects(link: VlessLink, v: bytes)
    ensures Set(link, Ascii("type"), v) == link.(network := v)
    ensures Set(link, Ascii("security"), v) == link.(security := v)
    ensures Set(link, Ascii("sni"), v) == link.(sni := v)
    ensures Set(link, Ascii("fp"), v) == link.(fp := v)
    ensures Set(link, Ascii("encryption"), v) == link
  {
    hide Ascii;
    OtherKey("type", "security");
    OtherKey("type", "sni");
    OtherKey("type", "fp");
    OtherKey("type", "flow");
    OtherKey("sni", "security");
    OtherKey("fp", "security");
    OtherKey("fp", "sni");
    OtherKey("encryption", "security");
    OtherKey("encryption", "sni");
    OtherKey("encryption", "fp");
    OtherKey("encryption", "flow");
    OtherKey("encryption", "type");
  }

  lemma FourLetterKey(link: VlessLink, k: string, v: bytes)
    requires |k| == 4 && k[0] != 'f' && k[0] != 't' && k[0] < 128 as char
    ensures Set(link, Ascii(k), v) == link
  {
    hide Ascii;
    OtherKey(k, "security");
    OtherKey(k, "sni");
    OtherKey(k, "fp");
    OtherKey(k, "flow");
    OtherKey(k, "type");
  }

  lemma SetFirst(link: VlessLink, kv: (bytes, bytes), rest: seq<(bytes, bytes)>)
    ensures SetAll(link, [kv] + rest) == SetAll(Set(link, kv.0, kv.1), rest)
  {
    assert ([kv] + rest)[1..] == rest;
  }

  lemma PairsListed(p: XhttpParams)
    ensures var q := QueryPairs(p);
            && |q| == 9
            && q[0] == (Ascii("type"), XHTTP) && q[1] == (Ascii("security"), TLS)
            && q[2] == (Ascii("encryption"), Ascii("none")) && q[3] == (Ascii("sni"), p.sni)
            && q[4] == (Ascii("fp"), p.fp) && q[5] == (Ascii("alpn"), Ascii("h2"))
            && q[6] == (Ascii("host"), p.host) && q[7] == (Ascii("path"), p.path)
            && q[8] == (Ascii("mode"), p.mode)
  {
    hide Ascii;
  }

  lemma PeelSome(link: VlessLink, q: seq<(bytes, bytes)>, i: nat, next: VlessLink)
    requires i < |q| && Set(link, q[i].0, q[i].1) == next
    ensures SetAll(link, q[i..]) == SetAll(next, q[i + 1..])
  {
    assert q[i..] == [q[i]] + q[i + 1..];
    SetFirst(link, q[i], q[i + 1..]);
  }

  lemma SetNone(link: VlessLink)
    ensures SetAll(link, []) == link
  {
  }

  /** What the nine generated pairs set. */
  lemma PairsSet(link: VlessLink, p: XhttpParams)
    ensures SetAll(link, QueryPairs(p)) ==
            link.(network := XHTTP, security := TLS, sni := p.sni, fp := p.fp)
  {
    hide Set;
    hide SetAll;
    hide Ascii;
    hide QueryPairs;
    var q := QueryPairs(p);
    PairsListed(p);
    var l1 := link.(network := XHTTP);
    var l2 := l1.(security := TLS);
    var l4 := l2.(sni := p.sni);
    var l5 := l4.(fp := p.fp);
    KeyEffects(link, XHTTP);
    KeyEffects(l1, TLS);
    KeyEffects(l2, Ascii("none"));
    KeyEffects(l2, p.sni);
    KeyEffects(l4, p.fp);
    FourLetterKey(l5, "alpn", Ascii("h2"));
    FourLetterKey(l5, "host", p.host);
    FourLetterKey(l5, "path", p.path);
    FourLetterKey(l5, "mode", p.mode);
    PeelSome(link, q, 0, l1);
    PeelSome(l1, q, 1, l2);
    PeelSome(l2, q, 2, l2);
    PeelSome(l2, q, 3, l4);
    PeelSome(l4, q, 4, l5);
    PeelSome(l5, q, 5, l5);
    PeelSome(l5, q, 6, l5);
    PeelSome(l5, q, 7, l5);
    PeelSome(l5, q, 8, l5);
    assert q[0..] == q && q[9..] == [];
    SetNone(l5);
  }

  // The link as the parser cuts it.

  lemma NothingToTrim(s: bytes)
    requires s != [] && s[0] < 0x80 && !IsSpace(s[0])
    requires s[|s| - 1] < 0x80 && !IsSpace(s[|s| - 1])
    ensures Trim(s) == s
  {
  }

  lemma LinkIsTrim(p: XhttpParams)
    ensures Trim(VlessXhttpLink(p)) == VlessXhttpLink(p)
  {
    hide Trim;
    hide Join;
    hide QueryPairs;
    hide Encoded;
    var s, e := VlessXhttpLink(p), Encoded(p.caption);
    assert s[0] == SCHEME[0] == 0x76;
    EncodedIsPlain(p.caption);
    var last := s[|s| - 1];
    if e == [] {
      assert last == HASH;
    } else {
      assert last == e[|e| - 1] && last in e;
    }
    NothingToTrim(s);
  }

  lemma LinkCuts(p: XhttpParams)
    requires HASH !in p.uuid && QUERY !in p.uuid && HASH !in p.serverAddr && QUERY !in p.serverAddr
    ensures Cut(VlessXhttpLink(p)) ==
            Some((Encoded(p.caption), p.uuid + [AT] + p.serverAddr, Join(PrintPairs(QueryPairs(p)), AMP)))
  {
    hide Trim;
    hide QueryPairs;
    hide PrintPairs;
    hide Join;
    hide Encoded;
    hide SplitOnce;
    hide CleanKeys;
    LinkIsTrim(p);
    KeysAreClean(p);
    QueryHasNo(QueryPairs(p), HASH);
    var authority, query := p.uuid + [AT] + p.serverAddr, Join(PrintPairs(QueryPairs(p)), AMP);
    var body := authority + [QUERY] + query;
    var rest := body + [HASH] + Encoded(p.caption);
    var s := VlessXhttpLink(p);
    assert s == SCHEME + rest;
    assert s[..|SCHEME|] == SCHEME && s[|SCHEME|..] == rest;
    SplitOnceAt(body, HASH, Encoded(p.caption));
    SplitOnceAt(authority, QUERY, query);
  }

  lemma AsciiText(k: string)
    requires forall i | 0 <= i < |k| :: k[i] < 128 as char
    ensures IsText(Ascii(k))
  {
    AsciiIsText(Ascii(k));
  }

  lemma ValuesAreText(p: XhttpParams)
    requires p.AreStrings()
    ensures TextValues(QueryPairs(p))
  {
    hide IsText;
    hide Ascii;
    AsciiText("xhttp");
    AsciiText("tls");
    AsciiText("none");
    AsciiText("h2");
  }

  lemma QueryParses(blank: VlessLink, p: XhttpParams)
    requires p.AreStrings()
    ensures ApplyAll(blank, Split(Join(PrintPairs(QueryPairs(p)), AMP), AMP)) ==
            Some(blank.(network := XHTTP, security := TLS, sni := p.sni, fp := p.fp))
  {
    KeysAreClean(p);
    ValuesAreText(p);
    var kvs := QueryPairs(p);
    assert kvs != [];
    hide QueryPairs;
    forall i | 0 <= i < |kvs|
      ensures AMP !in PrintPairs(kvs)[i]
    {
      PairHasNo(kvs[i], AMP);
    }
    SplitJoin(PrintPairs(kvs), AMP);
    PairsApply(blank, kvs);
    PairsSet(blank, p);
  }

  /**
   * Printing and parsing undo each other: whatever the SNI, fingerprint, path, mode and label hold, a
   * generated link parses back to what it was made from.
   */
  lemma LinkRoundTrip(p: XhttpParams, host: bytes, port: nat)
    requires p.AreStrings()
    requires p.uuid != [] && AT !in p.uuid && HASH !in p.uuid && QUERY !in p.uuid
    requires HASH !in p.serverAddr && QUERY !in p.serverAddr
    requires HostPort(p.serverAddr) == Some((host, port))
    ensures ParseOf(VlessXhttpLink(p)) ==
            Link(VlessLink(p.uuid, host, port, TLS, p.sni, p.fp, [], XHTTP, p.caption))
  {
    LinkCuts(p);
    PercentRoundTrip(p.caption);
    SplitOnceAt(p.uuid, AT, p.serverAddr);
    QueryParses(Blank(p.uuid, host, port, p.caption), p);
    hide Cut;
    hide VlessXhttpLink;
    hide QueryPairs;
    hide PrintPairs;
    hide Join;
    hide Split;
    hide ApplyAll;
    hide HostPort;
  }

  /** An ordinary `host:port` and a bracketed IPv6 address both come back. */
  lemma AddressRoundTrip(p: XhttpParams, host: bytes, port: nat)
    requires p.AreStrings()
    requires p.uuid != [] && AT !in p.uuid && HASH !in p.uuid && QUERY !in p.uuid
    requires port < 65536 && HASH !in host && QUERY !in host
    requires || (p.serverAddr == host + [COLON] + Digits(port) && (host != [] ==> host[0] != OPEN))
             || (p.serverAddr == [OPEN] + host + [CLOSE, COLON] + Digits(port) && CLOSE !in host)
    ensures ParseOf(VlessXhttpLink(p)) ==
            Link(VlessLink(p.uuid, host, port, TLS, p.sni, p.fp, [], XHTTP, p.caption))
  {
    DigitsHaveNo(port, HASH);
    DigitsHaveNo(port, QUERY);
    if p.serverAddr == host + [COLON] + Digits(port) && (host != [] ==> host[0] != OPEN) {
      PlainHostRoundTrip(host, port);
    } else {
      BracketHostRoundTrip(host, port);
    }
    hide ParseOf;
    hide VlessXhttpLink;
    hide HostPort;
    LinkRoundTrip(p, host, port);
  }

  // ------------------------------------------------ what a parsed UUID can hold

  lemma {:induction false} SplitOnceFirst(s: bytes, c: byte)
    ensures match SplitOnce(s, c)
            case None => c !in s
            case Some(t) => c !in t.0 && forall b | b in t.0 :: b in s
    decreases |s|
  {
    if s != [] && s[0] != c {
      SplitOnceFirst(s[1..], c);
      assert s == [s[0]] + s[1..];
    }
  }

  lemma {:induction false} KeepsUuid(link: VlessLink, pairs: seq<bytes>)
    ensures ApplyAll(link, pairs).Some? ==> ApplyAll(link, pairs).value.uuid == link.uuid
    decreases |pairs|
  {
    hide Ascii;
    hide Decoded;
    hide SplitOnce;
    if pairs != [] && Apply(link, pairs[0]).Some? {
      KeepsUuid(Apply(link, pairs[0]).value, pairs[1..]);
    }
  }

  /** A UUID that comes out of the parser is never empty and holds no separator. */
  lemma ParsedUuidIsClean(s: bytes)
    requires ParseOf(s).Link?
    ensures var u := ParseOf(s).link.uuid;
            u != [] && AT !in u && HASH !in u && QUERY !in u
  {
    hide Trim;
    hide SplitOnce;
    hide Split;
    hide HostPort;
    hide Decoded;
    var (rawCaption, authority, query) := Cut(s).value;
    var rest := Trim(s)[|SCHEME|..];
    SplitOnceFirst(rest, HASH);
    var body := match SplitOnce(rest, HASH) case None => rest case Some(x) => x.0;
    SplitOnceFirst(body, QUERY);
    SplitOnceFirst(authority, AT);
    var (uuid, hostport) := SplitOnce(authority, AT).value;
    var (host, port) := HostPort(hostport).value;
    KeepsUuid(Blank(uuid, host, port, Decoded(rawCaption).value), Split(query, AMP));
  }

  /** UUID and address are printed as they are: the UUID comes back exactly when it holds no separator. */
  lemma UuidRecoveredExactly(p: XhttpParams, host: bytes, port: nat)
    requires p.AreStrings()
    requires HASH !in p.serverAddr && QUERY !in p.serverAddr
    requires HostPort(p.serverAddr) == Some((host, port))
    ensures (ParseOf(VlessXhttpLink(p)).Link? && ParseOf(VlessXhttpLink(p)).link.uuid == p.uuid)
            <==> (p.uuid != [] && AT !in p.uuid && HASH !in p.uuid && QUERY !in p.uuid)
  {
    hide ParseOf;
    hide HostPort;
    hide VlessXhttpLink;
    if p.uuid != [] && AT !in p.uuid && HASH !in p.uuid && QUERY !in p.uuid {
      LinkRoundTrip(p, host, port);
    } else if ParseOf(VlessXhttpLink(p)).Link? {
      ParsedUuidIsClean(VlessXhttpLink(p));
    }
  }
}
