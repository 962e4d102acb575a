// Decimal numbers joined by colons: how every composite key is spelled, and
// why two different keys never look alike.
module Keys {
  import opened Wrappers

  function Digit(d: nat): char
    requires d < 10
  {
    ['0', '1', '2', '3', '4', '5', '6', '7', '8', '9'][d]
  }

  function Decimal(n: nat): (s: string)
    ensures s != ""
    ensures forall i :: 0 <= i < |s| ==> s[i] != ':'
  {
    if n < 10 then [Digit(n)] else Decimal(n / 10) + [Digit(n % 10)]
  }

  lemma {:induction false} DecimalInjective(a: nat, b: nat)
    requires Decimal(a) == Decimal(b)
    ensures a == b
  {
    var s, t := Decimal(a), Decimal(b);
    assert s[|s| - 1] == Digit(a % 10) && t[|t| - 1] == Digit(b % 10);
    assert (a >= 10 <==> |s| > 1) && (b >= 10 <==> |t| > 1);
    if a >= 10 {
      assert Decimal(a / 10) == s[..|s| - 1] == t[..|t| - 1] == Decimal(b / 10);
      DecimalInjective(a / 10, b / 10);
    }
  }

  lemma ColonSplits(a: string, x: string, b: string, y: string)
    requires forall i :: 0 <= i < |a| ==> a[i] != ':'
    requires forall i :: 0 <= i < |b| ==> b[i] != ':'
    requires a + ":" + x == b + ":" + y
    ensures a == b && x == y
  {
    var s, t := a + ":" + x, b + ":" + y;
    assert s[|a|] == ':' && t[|b|] == ':';
    assert forall i :: 0 <= i < |a| ==> s[i] == a[i];
    assert forall i :: 0 <= i < |b| ==> t[i] == b[i];
    assert |a| == |b|;
    assert a == s[..|a|] && b == t[..|b|];
    assert x == s[|a| + 1..] && y == t[|b| + 1..];
  }

  // The driver's identity for a file; an inode number of zero is no identity.
  function IdentityKey(dev: nat, ino: int): Option<string>
  {
    if ino > 0 then Some(Decimal(dev) + ":" + Decimal(ino)) else None
  }

  lemma IdentityKeyInjective(dev: nat, ino: int, dev': nat, ino': int)
    requires ino > 0 && ino' > 0
    ensures IdentityKey(dev, ino) == IdentityKey(dev', ino') <==> dev == dev' && ino == ino'
  {
    if IdentityKey(dev, ino) == IdentityKey(dev', ino') {
      ColonSplits(Decimal(dev), Decimal(ino), Decimal(dev'), Decimal(ino'));
      DecimalInjective(dev, dev');
      DecimalInjective(ino, ino');
    }
  }
}
