/** Sockets as lists of arriving chunks, and TLS record boundaries in a byte stream. */
module Sockets {
  import opened Bytes

  ghost predicate NonEmpty(chunks: seq<bytes>) {
    forall i | 0 <= i < |chunks| :: chunks[i] != []
  }

  /** One socket read of at most `limit` bytes; empty only at the end of the stream. */
  function ReadSome(chunks: seq<bytes>, limit: nat): (r: (bytes, seq<bytes>))
    requires NonEmpty(chunks) && limit > 0
    ensures NonEmpty(r.1)
    ensures r.0 == [] <==> chunks == []
    ensures Flatten(chunks) == r.0 + Flatten(r.1)
    ensures |r.0| <= limit
  {
    if chunks == [] then ([], [])
    else if |chunks[0]| <= limit then (chunks[0], chunks[1..])
    else
      var rest := [chunks[0][limit..]] + chunks[1..];
      assert rest[1..] == chunks[1..];
      assert chunks[0] == chunks[0][..limit] + chunks[0][limit..];
      Assoc(chunks[0][..limit], chunks[0][limit..], Flatten(chunks[1..]));
      (chunks[0][..limit], rest)
  }

  /** The length of the record at the front of a stream, when all of it is there. */
  function RecordLen(s: bytes): (n: Option<nat>)
    ensures n.Some? ==> 5 <= n.value <= |s|
  {
    if |s| >= 5 && |s| >= 5 + FromU16(s[3], s[4]) then Some(5 + FromU16(s[3], s[4])) else None
  }

  lemma RecordLenStable(s: bytes, more: bytes)
    requires RecordLen(s).Some?
    ensures RecordLen(s + more) == RecordLen(s)
  {
  }
}
