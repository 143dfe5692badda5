/** Bitwise exclusive or on naturals, and the checksum it gives for a byte sequence. */
module Xor {

  import opened Blocks

  function XorOf(x: nat, y: nat): nat
    decreases x + y
  {
    if x == 0 && y == 0 then 0 else (x + y) % 2 + 2 * XorOf(x / 2, y / 2)
  }

  lemma {:induction false} XorZero(x: nat)
    ensures XorOf(x, 0) == x
  {
    if x > 0 { XorZero(x / 2); }
  }

  lemma {:induction false} XorSelf(x: nat)
    ensures XorOf(x, x) == 0
  {
    if x > 0 { XorSelf(x / 2); }
  }

  lemma {:induction false} XorComm(x: nat, y: nat)
    ensures XorOf(x, y) == XorOf(y, x)
    decreases x + y
  {
    if x != 0 || y != 0 { XorComm(x / 2, y / 2); }
  }

  lemma {:induction false} XorStep(x: nat, y: nat)
    ensures XorOf(x, y) % 2 == (x + y) % 2 && XorOf(x, y) / 2 == XorOf(x / 2, y / 2)
  {
    LowBit((x + y) % 2, XorOf(x / 2, y / 2));
  }

  lemma LowBit(d: nat, q: nat)
    requires d < 2
    ensures (d + 2 * q) % 2 == d && (d + 2 * q) / 2 == q
  {
  }

  lemma {:induction false} XorAssoc(x: nat, y: nat, z: nat)
    ensures XorOf(XorOf(x, y), z) == XorOf(x, XorOf(y, z))
    decreases x + y + z
  {
    if x != 0 || y != 0 || z != 0 {
      XorAssoc(x / 2, y / 2, z / 2);
      XorHalves(x, y, z);
      SameHalves(XorOf(XorOf(x, y), z), XorOf(x, XorOf(y, z)));
    }
  }

  lemma XorHalves(x: nat, y: nat, z: nat)
    ensures XorOf(XorOf(x, y), z) % 2 == XorOf(x, XorOf(y, z)) % 2
    ensures XorOf(XorOf(x, y), z) / 2 == XorOf(XorOf(x / 2, y / 2), z / 2)
    ensures XorOf(x, XorOf(y, z)) / 2 == XorOf(x / 2, XorOf(y / 2, z / 2))
  {
    var l, r := XorOf(x, y), XorOf(y, z);
    XorStep(x, y);
    XorStep(y, z);
    XorStep(l, z);
    XorStep(x, r);
    SameParity(x, y, z, l, r);
  }

  lemma SameParity(x: nat, y: nat, z: nat, l: nat, r: nat)
    requires l % 2 == (x + y) % 2 && r % 2 == (y + z) % 2
    ensures (l + z) % 2 == (x + r) % 2
  {
  }

  lemma SameHalves(a: nat, b: nat)
    requires a % 2 == b % 2 && a / 2 == b / 2
    ensures a == b
  {
  }

  lemma {:induction false} XorInRange(x: nat, y: nat, n: nat)
    requires x < Pow2(n) && y < Pow2(n)
    ensures XorOf(x, y) < Pow2(n)
  {
    if n > 0 && (x != 0 || y != 0) { XorInRange(x / 2, y / 2, n - 1); }
  }

  /** Different arguments give different results. */
  lemma XorInjective(x: nat, y: nat, z: nat)
    requires XorOf(x, y) == XorOf(x, z)
    ensures y == z
  {
    XorAssoc(x, x, y);
    XorAssoc(x, x, z);
    XorSelf(x);
    XorComm(0, y);
    XorComm(0, z);
    XorZero(y);
    XorZero(z);
  }

  /** The exclusive or of all bytes of a sequence. */
  function Sum(s: seq<Byte>): (r: Byte)
  {
    if s == [] then 0
    else
      SumInRange(Sum(s[..|s| - 1]), s[|s| - 1]);
      XorOf(Sum(s[..|s| - 1]), s[|s| - 1])
  }

  lemma SumInRange(x: Byte, y: Byte)
    ensures XorOf(x, y) < 256
  {
    assert Pow2(8) == 256;
    XorInRange(x, y, 8);
  }

  lemma {:induction false} SumAppend(s: seq<Byte>, t: seq<Byte>)
    ensures Sum(s + t) == XorOf(Sum(s), Sum(t))
  {
    if t == [] {
      assert s + t == s;
      XorZero(Sum(s));
    } else {
      assert (s + t)[..|s + t| - 1] == s + t[..|t| - 1];
      SumAppend(s, t[..|t| - 1]);
      XorAssoc(Sum(s), Sum(t[..|t| - 1]), t[|t| - 1]);
    }
  }

  lemma {:induction false} SumZeros(s: seq<Byte>)
    requires forall k: nat | k < |s| :: s[k] == 0
    ensures Sum(s) == 0
  {
    if s != [] { SumZeros(s[..|s| - 1]); }
  }

  /** Changing one byte changes the checksum. */
  lemma OneByteDetected(s: seq<Byte>, j: nat, v: Byte)
    requires j < |s| && v != s[j]
    ensures Sum(s[j := v]) != Sum(s)
  {
    assert s == s[..j] + [s[j]] + s[j + 1..];
    assert s[j := v] == s[..j] + [v] + s[j + 1..];
    SumMiddle(s[..j], s[j], s[j + 1..]);
    SumMiddle(s[..j], v, s[j + 1..]);
    if Sum(s[j := v]) == Sum(s) {
      var p, q := Sum(s[..j]), Sum(s[j + 1..]);
      XorComm(XorOf(p, s[j]), q);
      XorComm(XorOf(p, v), q);
      XorInjective(q, XorOf(p, s[j]), XorOf(p, v));
      XorInjective(p, s[j], v);
    }
  }

  lemma SumMiddle(a: seq<Byte>, x: Byte, b: seq<Byte>)
    ensures Sum(a + [x] + b) == XorOf(XorOf(Sum(a), x), Sum(b))
  {
    SumAppend(a + [x], b);
    assert (a + [x])[..|a|] == a;
  }
}
