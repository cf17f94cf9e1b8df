/** The order Rust gives `str`: the first differing character decides, and a
    proper prefix comes first.  (On UTF-8 text the byte order and the
    code-point order agree.) */
module Order {

  ghost predicate LessAt(a: string, b: string, i: nat) {
    && i <= |a|
    && i < |b|
    && a[..i] == b[..i]
    && (i < |a| ==> a[i] < b[i])
  }

  ghost predicate Less(a: string, b: string) {
    exists i: nat :: LessAt(a, b, i)
  }

  lemma LessIrreflexive(a: string)
    ensures !Less(a, a)
  {}

  lemma LessAsymmetric(a: string, b: string)
    requires Less(a, b)
    ensures !Less(b, a)
  {
    if Less(b, a) {
      LessTransitive(a, b, a);
    }
  }

  lemma LessTransitive(a: string, b: string, c: string)
    requires Less(a, b) && Less(b, c)
    ensures Less(a, c)
  {
    var i: nat :| LessAt(a, b, i);
    var j: nat :| LessAt(b, c, j);
    var k := if i <= j then i else j;
    assert a[..k] == a[..i][..k] == b[..i][..k] == b[..k];
    assert b[..k] == b[..j][..k] == c[..j][..k] == c[..k];
    if i < j {
      assert b[..j][i] == c[..j][i];
    } else if j < i {
      assert a[..i][j] == b[..i][j];
    }
    assert LessAt(a, c, k);
  }

  /** Any two different strings are ordered one way or the other. */
  lemma {:induction false} LessTotal(a: string, b: string)
    requires a != b
    ensures Less(a, b) || Less(b, a)
    decreases |a|
  {
    if a == [] {
      assert LessAt(a, b, 0);
    } else if b == [] {
      assert LessAt(b, a, 0);
    } else if a[0] != b[0] {
      assert LessAt(a, b, 0) || LessAt(b, a, 0);
    } else {
      assert a == [a[0]] + a[1..] && b == [b[0]] + b[1..];
      LessTotal(a[1..], b[1..]);
      if Less(a[1..], b[1..]) {
        LessTail(a, b);
      } else {
        LessTail(b, a);
      }
    }
  }

  lemma LessTail(a: string, b: string)
    requires a != [] && b != [] && a[0] == b[0]
    requires Less(a[1..], b[1..])
    ensures Less(a, b)
  {
    var i: nat :| LessAt(a[1..], b[1..], i);
    assert a[..i + 1] == [a[0]] + a[1..][..i];
    assert b[..i + 1] == [b[0]] + b[1..][..i];
    assert LessAt(a, b, i + 1);
  }

  /** Strings of one length compare on their fronts first, then on the last character. */
  lemma LessSnoc(a: string, b: string, x: char, y: char)
    requires |a| == |b|
    ensures Less(a + [x], b + [y]) <==> Less(a, b) || (a == b && x < y)
  {
    if Less(a, b) {
      var i: nat :| LessAt(a, b, i);
      assert (a + [x])[..i] == a[..i] && (b + [y])[..i] == b[..i];
      assert LessAt(a + [x], b + [y], i);
    }
    if a == b && x < y {
      assert LessAt(a + [x], b + [y], |a|);
    }
    if Less(a + [x], b + [y]) {
      var i: nat :| LessAt(a + [x], b + [y], i);
      if i < |a| {
        assert a[..i] == (a + [x])[..i] == (b + [y])[..i] == b[..i];
        assert LessAt(a, b, i);
      } else {
        assert a == (a + [x])[..|a|] && b == (b + [y])[..|a|];
      }
    }
  }

  /** A common prefix does not matter. */
  lemma LessPrefix(p: string, a: string, b: string)
    ensures Less(p + a, p + b) <==> Less(a, b)
  {
    if Less(a, b) {
      var i: nat :| LessAt(a, b, i);
      assert (p + a)[..|p| + i] == p + a[..i];
      assert (p + b)[..|p| + i] == p + b[..i];
      assert LessAt(p + a, p + b, |p| + i);
    }
    if Less(p + a, p + b) {
      var i: nat :| LessAt(p + a, p + b, i);
      assert i >= |p|;
      assert a[..i - |p|] == (p + a)[..i][|p|..];
      assert b[..i - |p|] == (p + b)[..i][|p|..];
      assert LessAt(a, b, i - |p|);
    }
  }

  /** The comparison as a program computes it. */
  predicate Precedes(a: string, b: string) {
    if b == [] then false
    else if a == [] then true
    else if a[0] != b[0] then a[0] < b[0]
    else Precedes(a[1..], b[1..])
  }

  lemma {:induction false} PrecedesIsLess(a: string, b: string)
    ensures Precedes(a, b) <==> Less(a, b)
  {
    if b == [] {
      assert forall i: nat :: !LessAt(a, b, i);
    } else if a == [] {
      assert LessAt(a, b, 0);
    } else if a[0] == b[0] {
      PrecedesIsLess(a[1..], b[1..]);
      assert a == [a[0]] + a[1..] && b == [a[0]] + b[1..];
      LessPrefix([a[0]], a[1..], b[1..]);
    } else if a[0] < b[0] {
      assert LessAt(a, b, 0);
    } else {
      assert LessAt(b, a, 0);
      LessAsymmetric(b, a);
    }
  }
}
