/** Byte strings, big-endian 16-bit fields and lists of read chunks. */
module Bytes {

  type byte = x: int | 0 <= x < 256

  type bytes = seq<byte>

  datatype Option<+T> = None | Some(value: T)

  function Min(a: nat, b: nat): (m: nat) {
    if a <= b then a else b
  }

  /** `(n >> 8) as u8, n as u8`: the two low-order bytes, most significant first. */
  function U16(n: nat): bytes {
    [n / 256 % 256, n % 256]
  }

  function FromU16(hi: byte, lo: byte): nat {
    hi * 256 + lo
  }

  lemma RemainderUnique(n: nat, q: nat, r: nat)
    requires n == q * 65536 + r && r < 65536
    ensures n % 65536 == r
  {
  }

  lemma U16RoundTrip(n: nat)
    ensures |U16(n)| == 2
    ensures FromU16(U16(n)[0], U16(n)[1]) == n % 65536
    ensures n < 65536 ==> FromU16(U16(n)[0], U16(n)[1]) == n
  {
    var hi, lo := n / 256, n % 256;
    var q, r := hi / 256, hi % 256;
    assert n == q * 65536 + (r * 256 + lo);
    RemainderUnique(n, q, r * 256 + lo);
  }

  lemma U16OfBytes(hi: byte, lo: byte)
    ensures U16(FromU16(hi, lo)) == [hi, lo]
  {
  }

  function Zeros(n: nat): (z: bytes)
    ensures |z| == n && forall i | 0 <= i < n :: z[i] == 0
  {
    seq(n, i => 0)
  }

  lemma Assoc(a: bytes, b: bytes, c: bytes)
    ensures a + (b + c) == (a + b) + c
  {
  }

  lemma Unit(a: bytes)
    ensures [] + a == a && a + [] == a
  {
  }

  lemma PrefixGrows(a: bytes, b: bytes, more: bytes)
    requires a <= b
    ensures a <= b + more
  {
  }

  /** The byte stream that a list of chunks makes up. */
  function Flatten(chunks: seq<bytes>): bytes {
    if chunks == [] then [] else chunks[0] + Flatten(chunks[1..])
  }

  lemma {:induction false} FlattenConcat(a: seq<bytes>, b: seq<bytes>)
    ensures Flatten(a + b) == Flatten(a) + Flatten(b)
  {
    if a == [] {
      assert a + b == b;
      Unit(Flatten(b));
    } else {
      FlattenConcat(a[1..], b);
      assert (a + b)[0] == a[0] && (a + b)[1..] == a[1..] + b;
      Assoc(a[0], Flatten(a[1..]), Flatten(b));
    }
  }

  lemma FlattenOne(c: bytes)
    ensures Flatten([c]) == c
  {
    assert Flatten([c]) == c + Flatten([]);
  }
}
