/** The allowed-user set and its branchless membership test. */
module UserAuth {

  /** A UUID as its 16 bytes. */
  type UserId = u: seq<bv8> | |u| == 16 witness seq(16, i => 0)

  lemma ShiftedBorrow(d: bv16)
    requires d <= 0xFF
    ensures ((d - 1) >> 8) == if d == 0 then 0xFF else 0
  {
  }

  lemma MatchedBits(diff: bv8, d: bv16, w: bv16)
    requires d == diff as bv16 && w == (d - 1) >> 8
    ensures w == if diff == 0 then 0xFF else 0
  {
    assert diff as bv16 <= 0xFF;
    assert d == 0 <==> diff == 0;
    ShiftedBorrow(d);
  }

  /** 0xFF for a zero difference and 0x00 for any other, without a branch. */
  function Matched(diff: bv8): (m: bv8)
    ensures m == if diff == 0 then 0xFF else 0
  {
    var d: bv16 := diff as bv16;
    var w: bv16 := (d - 1) >> 8;
    MatchedBits(diff, d, w);
    w as bv8
  }

  lemma XorZero(a: bv8, b: bv8)
    ensures a ^ b == 0 <==> a == b
  {
  }

  lemma OrZero(a: bv8, b: bv8)
    ensures a | b == 0 <==> a == 0 && b == 0
  {
  }

  /** Compares against every user without stopping early; true exactly for a member. */
  method IsAuthorized(users: seq<UserId>, candidate: UserId) returns (authorized: bool)
    ensures authorized <==> candidate in users
  {
    var found: bv8 := 0;
    for k := 0 to |users|
      invariant found == 0 <==> candidate !in users[..k]
    {
      var a := users[k];
      var diff: bv8 := 0;
      for i := 0 to 16
        invariant diff == 0 <==> a[..i] == candidate[..i]
      {
        XorZero(a[i], candidate[i]);
        OrZero(diff, a[i] ^ candidate[i]);
        assert a[..i + 1] == a[..i] + [a[i]] && candidate[..i + 1] == candidate[..i] + [candidate[i]];
        diff := diff | (a[i] ^ candidate[i]);
      }
      assert a[..16] == a && candidate[..16] == candidate;
      OrZero(found, Matched(diff));
      assert users[..k + 1] == users[..k] + [a];
      found := found | Matched(diff);
    }
    assert users[..|users|] == users;
    authorized := found != 0;
  }
}
