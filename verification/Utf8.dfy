/** UTF-8 text (section 4 of RFC 3629), and the repair of byte strings that are not. */
module Utf8 {
  import opened Bytes

  /** U+FFFD, put in the place of what is not UTF-8. */
  const REPLACEMENT: bytes := [0xEF, 0xBF, 0xBD]

  /** A byte that continues a character; a string cannot be cut in front of it. */
  predicate Continues(b: byte) {
    0x80 <= b < 0xC0
  }

  /** How many bytes a character has that starts with `b`; 0 if none does. */
  function Width(b: byte): nat {
    if b < 0x80 then 1
    else if 0xC2 <= b <= 0xDF then 2
    else if 0xE0 <= b <= 0xEF then 3
    else if 0xF0 <= b <= 0xF4 then 4
    else 0
  }

  /** What may follow the first byte: no overlong forms, no surrogates, nothing above U+10FFFF. */
  predicate Follows(first: byte, b: byte) {
    && Continues(b)
    && (first == 0xE0 ==> b >= 0xA0)
    && (first == 0xED ==> b < 0xA0)
    && (first == 0xF0 ==> b >= 0x90)
    && (first == 0xF4 ==> b < 0x90)
  }

  /** How many bytes at the front could begin a character. */
  function Begun(s: bytes): (n: nat)
    ensures n <= |s| && (s != [] ==> n <= Width(s[0]))
  {
    if s == [] || Width(s[0]) == 0 then 0
    else if Width(s[0]) < 2 || |s| < 2 || !Follows(s[0], s[1]) then 1
    else if Width(s[0]) < 3 || |s| < 3 || !Continues(s[2]) then 2
    else if Width(s[0]) < 4 || |s| < 4 || !Continues(s[3]) then 3
    else 4
  }

  predicate StartsWithChar(s: bytes) {
    s != [] && Width(s[0]) > 0 && Begun(s) == Width(s[0])
  }

  predicate IsText(s: bytes)
    decreases |s|
  {
    s == [] || (StartsWithChar(s) && IsText(s[Begun(s)..]))
  }

  /** Every longest piece that cannot begin a character becomes one replacement character. */
  function Repair(s: bytes): bytes
    decreases |s|
  {
    if s == [] then []
    else if StartsWithChar(s) then s[..Begun(s)] + Repair(s[Begun(s)..])
    else
      var bad := if Begun(s) == 0 then 1 else Begun(s);
      REPLACEMENT + Repair(s[bad..])
  }

  /** A whole character stays one whatever follows it. */
  lemma CharStable(s: bytes, more: bytes)
    requires StartsWithChar(s)
    ensures StartsWithChar(s[..Begun(s)] + more) && Begun(s[..Begun(s)] + more) == Begun(s)
    ensures (s[..Begun(s)] + more)[Begun(s)..] == more
  {
  }

  /** What comes out of the repair is text. */
  lemma {:induction false} RepairIsText(s: bytes)
    ensures IsText(Repair(s))
    decreases |s|
  {
    if s != [] {
      if StartsWithChar(s) {
        RepairIsText(s[Begun(s)..]);
        CharStable(s, Repair(s[Begun(s)..]));
      } else {
        var bad := if Begun(s) == 0 then 1 else Begun(s);
        RepairIsText(s[bad..]);
        CharStable(REPLACEMENT, Repair(s[bad..]));
        assert REPLACEMENT[..Begun(REPLACEMENT)] == REPLACEMENT;
      }
    }
  }

  /** The repair changes nothing exactly on text. */
  lemma {:induction false} RepairedExactly(s: bytes)
    ensures Repair(s) == s <==> IsText(s)
    decreases |s|
  {
    if IsText(s) && s != [] {
      RepairedExactly(s[Begun(s)..]);
      assert s == s[..Begun(s)] + s[Begun(s)..];
    }
    RepairIsText(s);
  }

  lemma {:induction false} AsciiIsText(s: bytes)
    requires forall i | 0 <= i < |s| :: s[i] < 0x80
    ensures IsText(s)
    decreases |s|
  {
    if s != [] {
      AsciiIsText(s[1..]);
    }
  }
}
