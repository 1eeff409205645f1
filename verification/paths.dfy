/** Paths and the one order every single-pass algorithm of the system rests on.
    A path is a C string: bytes other than NUL. */
module Paths {

  type byte = c: char | 0 < c as int < 256 witness 'a'

  type Path = seq<byte>

  const SEP: byte := '/'

  const ROOT: Path := [SEP]

  /** '/' is the least character; the others are ordered by their unsigned value. */
  predicate CharLt(a: byte, b: byte) {
    a != b && (a == SEP || (b != SEP && a < b))
  }

  /** The order `pathcmp` decides: lexicographic over `CharLt`, a proper prefix first. */
  predicate Lt(a: Path, b: Path) {
    LtFrom(a, b, 0)
  }

  predicate LtFrom(a: Path, b: Path, i: nat)
    requires i <= |a| && i <= |b|
    decreases |a| - i
  {
    i < |b| && (i == |a| || CharLt(a[i], b[i]) || (a[i] == b[i] && LtFrom(a, b, i + 1)))
  }

  predicate Le(a: Path, b: Path) {
    a == b || Lt(a, b)
  }

  lemma {:induction false} LtIrreflexiveFrom(a: Path, i: nat)
    requires i <= |a|
    ensures !LtFrom(a, a, i)
    decreases |a| - i
  {
    if i < |a| {
      LtIrreflexiveFrom(a, i + 1);
    }
  }

  lemma {:induction false} LtIrreflexive(a: Path)
    ensures !Lt(a, a)
  {
    LtIrreflexiveFrom(a, 0);
  }

  lemma {:induction false} LtTransitiveFrom(a: Path, b: Path, c: Path, i: nat)
    requires i <= |a| && i <= |b| && i <= |c|
    requires LtFrom(a, b, i) && LtFrom(b, c, i)
    ensures LtFrom(a, c, i)
    decreases |a| - i
  {
    if i < |a| && a[i] == b[i] == c[i] {
      LtTransitiveFrom(a, b, c, i + 1);
    }
  }

  lemma {:induction false} LtTransitive(a: Path, b: Path, c: Path)
    requires Lt(a, b) && Lt(b, c)
    ensures Lt(a, c)
  {
    LtTransitiveFrom(a, b, c, 0);
  }

  lemma {:induction false} LtTotalFrom(a: Path, b: Path, i: nat)
    requires i <= |a| && i <= |b| && a[..i] == b[..i]
    ensures a == b || LtFrom(a, b, i) || LtFrom(b, a, i)
    decreases |a| - i
  {
    if i < |a| && i < |b| && a[i] == b[i] {
      assert a[..i + 1] == a[..i] + [a[i]] && b[..i + 1] == b[..i] + [b[i]];
      LtTotalFrom(a, b, i + 1);
    }
  }

  lemma {:induction false} LtTotal(a: Path, b: Path)
    ensures a == b || Lt(a, b) || Lt(b, a)
  {
    LtTotalFrom(a, b, 0);
  }

  /** The order of two paths with a common first character is the order of the rests. */
  lemma {:induction false} LtTails(a: Path, b: Path, i: nat)
    requires 0 < i <= |a| && i <= |b|
    ensures LtFrom(a, b, i) == LtFrom(a[1..], b[1..], i - 1)
    decreases |a| - i
  {
    if i < |a| && i < |b| {
      LtTails(a, b, i + 1);
    }
  }

  lemma {:induction false} LtCons(a: Path, b: Path)
    ensures Lt(a, b) ==
            (|b| > 0 && (|a| == 0 || CharLt(a[0], b[0]) || (a[0] == b[0] && Lt(a[1..], b[1..]))))
  {
    if |a| > 0 && |b| > 0 {
      LtTails(a, b, 1);
    }
  }

  lemma {:induction false} LtAsymmetric(a: Path, b: Path)
    requires Lt(a, b)
    ensures !Lt(b, a) && a != b
  {
    LtIrreflexive(a);
    if Lt(b, a) {
      LtTransitive(a, b, a);
    }
  }

  lemma {:induction false} LeLtTransitive(a: Path, b: Path, c: Path)
    requires (Le(a, b) && Lt(b, c)) || (Lt(a, b) && Le(b, c))
    ensures Lt(a, c)
  {
    if a != b && b != c {
      LtTransitive(a, b, c);
    }
  }

  /** Adding a common prefix does not change the order. */
  lemma {:induction false} LtAfterPrefix(d: Path, a: Path, b: Path)
    ensures Lt(d + a, d + b) == Lt(a, b)
  {
    if |d| == 0 {
      assert d + a == a && d + b == b;
    } else {
      assert (d + a)[1..] == d[1..] + a && (d + b)[1..] == d[1..] + b;
      LtCons(d + a, d + b);
      LtAfterPrefix(d[1..], a, b);
    }
  }

  /* ---- subtrees ---- */

  /** `c` is `p` or `p` followed by a '/'. */
  predicate Extends(c: Path, p: Path) {
    p <= c && (|c| == |p| || c[|p|] == SEP)
  }

  /** What `ischild` decides: `c` is `p` or lies in the tree below it. */
  predicate Under(c: Path, p: Path) {
    if p == ROOT then |c| > 0 && c[0] == SEP else Extends(c, p)
  }

  lemma {:induction false} UnderReflexive(p: Path)
    ensures Under(p, p)
  {
  }

  lemma {:induction false} UnderTransitive(a: Path, b: Path, c: Path)
    requires Under(a, b) && Under(b, c)
    ensures Under(a, c)
  {
  }

  lemma {:induction false} UnderAntisymmetric(a: Path, b: Path)
    requires Under(a, b) && Under(b, a)
    requires |a| > 0 && |b| > 0
    ensures a == b
  {
  }

  /** Everything strictly below `p` comes after `p`. */
  lemma {:induction false} ExtendsAfter(c: Path, p: Path)
    requires Extends(c, p)
    ensures Le(p, c)
  {
    if |p| > 0 {
      ExtendsAfter(c[1..], p[1..]);
      LtCons(p, c);
      assert p == [p[0]] + p[1..] && c == [c[0]] + c[1..];
    }
  }

  lemma {:induction false} UnderAfter(c: Path, p: Path)
    requires Under(c, p)
    ensures Le(p, c)
  {
    if p == ROOT {
      if c != p {
        assert c == [SEP] + c[1..];
        LtCons(p, c);
      }
    } else {
      ExtendsAfter(c, p);
    }
  }

  lemma {:induction false} ExtendsContiguous(d: Path, x: Path, y: Path)
    requires Le(d, x) && Le(x, y) && Extends(y, d)
    ensures Extends(x, d)
  {
    if x == y || x == d {
    } else if |d| == 0 {
    } else {
      LtCons(d, x);
      LtCons(x, y);
      assert x[0] == d[0] == y[0];
      assert y[1..][..|d| - 1] == d[1..];
      ExtendsContiguous(d[1..], x[1..], y[1..]);
      assert x[..|d|] == [x[0]] + x[1..][..|d| - 1] == d;
    }
  }

  /** A subtree is an interval of the path order. */
  lemma {:induction false} SubtreeContiguous(d: Path, x: Path, y: Path)
    requires Le(d, x) && Le(x, y) && Under(y, d)
    ensures Under(x, d)
  {
    if d != ROOT {
      ExtendsContiguous(d, x, y);
    }
  }

  /** A path after `d` and outside its subtree comes after the whole subtree. */
  lemma {:induction false} AfterSubtree(d: Path, x: Path, q: Path)
    requires Under(x, d) && Lt(d, q) && !Under(q, d)
    ensures Lt(x, q)
  {
    LtTotal(x, q);
    if Lt(q, x) || q == x {
      SubtreeContiguous(d, q, x);
    }
  }

  /* ---- directories and their entries ---- */

  /** The directory name ready to take an entry name (fs_walk's two snprintf calls). */
  function Slashed(d: Path): Path {
    if |d| > 0 && d[|d| - 1] == SEP then d else d + [SEP]
  }

  /** A name readdir can return: not empty, no '/'. */
  predicate IsName(n: Path) {
    |n| > 0 && SEP !in n
  }

  function Join(d: Path, n: Path): Path {
    Slashed(d) + n
  }

  /** `p` is an entry of the directory `d`. */
  predicate EntryOf(p: Path, d: Path) {
    |d| > 0 && |p| > |Slashed(d)| && Slashed(d) <= p && SEP !in p[|Slashed(d)|..]
  }

  lemma {:induction false} JoinIsEntry(d: Path, n: Path)
    requires |d| > 0 && IsName(n)
    ensures EntryOf(Join(d, n), d)
  {
    assert Join(d, n)[|Slashed(d)|..] == n;
  }

  lemma {:induction false} EntryIsJoin(p: Path, d: Path)
    requires EntryOf(p, d)
    ensures IsName(p[|Slashed(d)|..]) && p == Join(d, p[|Slashed(d)|..])
  {
  }

  /** Names that may be a directory's: the root, or not ending in '/'. */
  predicate Canonical(d: Path) {
    d == ROOT || (|d| > 0 && d[|d| - 1] != SEP)
  }

  lemma {:induction false} EntryUnder(p: Path, d: Path)
    requires EntryOf(p, d) && Canonical(d)
    ensures Under(p, d) && p != d && Lt(d, p) && Canonical(p)
  {
    assert p[|p| - 1] == p[|Slashed(d)|..][|p| - |Slashed(d)| - 1];
    UnderAfter(p, d);
  }

  /** The directory of an entry lies in every subtree that properly holds the entry. */
  lemma {:induction false} EntryParentUnder(p: Path, d: Path, h: Path)
    requires EntryOf(p, d) && Canonical(d)
    requires Under(p, h) && p != h
    ensures Under(d, h)
  {
    var s := Slashed(d);
    assert forall i :: |s| <= i < |p| ==> p[i] == p[|s|..][i - |s|];
    if h != ROOT {
      assert p[|h|] == SEP;
      assert |h| < |s|;
      if d != ROOT {
        assert s == d + [SEP];
        assert |h| <= |d|;
        assert h == p[..|h|] == d[..|h|];
        assert |h| < |d| ==> d[|h|] == p[|h|];
      }
    }
  }

  lemma {:induction false} EntryDirUnique(p: Path, d: Path, e: Path)
    requires EntryOf(p, d) && EntryOf(p, e) && Canonical(d) && Canonical(e)
    ensures d == e
  {
    EntryUnder(p, d);
    EntryUnder(p, e);
    EntryParentUnder(p, d, e);
    EntryParentUnder(p, e, d);
    UnderAntisymmetric(d, e);
  }

  /** Siblings in name order: the first one's whole subtree precedes the second one's. */
  lemma {:induction false} SiblingSubtrees(d: Path, m: Path, n: Path, x: Path, y: Path)
    requires |d| > 0 && IsName(m) && IsName(n) && Lt(m, n)
    requires Under(x, Join(d, m)) && Under(y, Join(d, n))
    ensures Lt(Join(d, m), Join(d, n)) && !Under(Join(d, n), Join(d, m)) && Lt(x, y)
  {
    var a, b := Join(d, m), Join(d, n);
    LtAfterPrefix(Slashed(d), m, n);
    assert !Under(b, a) by {
      if Under(b, a) {
        assert a != ROOT by { assert a[|a| - 1] == m[|m| - 1]; }
        if |b| == |a| {
          assert a == b;
          LtIrreflexive(a);
        }
      }
    }
    AfterSubtree(a, x, b);
    UnderAfter(y, b);
    LeLtTransitive(x, b, y);
  }
}
