/** pathcmp.c: the three-way comparison and the subtree test as the C code computes
    them, with and without regard to case. */
module PathCmp {
  import opened Options
  import opened Paths

  /** tolower in the C locale; a negative argument (a signed char above 127) comes back
      unchanged, which the C standard leaves undefined. */
  function ToLower(v: int): int {
    if 'A' as int <= v <= 'Z' as int then v + 32 else v
  }

  /** What the loop reads for one character: unsigned when case counts, else the
      lower-case form of a signed char. */
  function Val(c: byte, caseSensitive: bool): (v: int)
    ensures v != 0
  {
    if caseSensitive then c as int
    else ToLower(if c as int < 128 then c as int else c as int - 256)
  }

  /** The value at index `i`; the terminator reads as 0. */
  function At(p: Path, i: nat, caseSensitive: bool): int
    requires i <= |p|
  {
    if i < |p| then Val(p[i], caseSensitive) else 0
  }

  function Sign(v: int): int {
    if v < 0 then -1 else if v == 0 then 0 else 1
  }

  /** The sign of the comparison, one character at a time. */
  function Cmp(a: Path, b: Path, caseSensitive: bool): (r: int)
    decreases |a|
  {
    if At(a, 0, caseSensitive) == At(b, 0, caseSensitive) then
      if |a| == 0 then 0 else Cmp(a[1..], b[1..], caseSensitive)
    else if |b| > 0 && |a| > 0 && a[0] == SEP then -1
    else if |a| > 0 && |b| > 0 && b[0] == SEP then 1
    else Sign(At(a, 0, caseSensitive) - At(b, 0, caseSensitive))
  }

  method PathCaseCmp(p1: Path, p2: Path, caseSensitive: bool) returns (rc: int)
    ensures Sign(rc) == Cmp(p1, p2, caseSensitive)
    ensures caseSensitive ==>
              (rc < 0 <==> Lt(p1, p2)) && (rc == 0 <==> p1 == p2) && (rc > 0 <==> Lt(p2, p1))
  {
    if caseSensitive {
      CmpDecidesLt(p1, p2);
    }
    var i := 0;
    while true
      invariant 0 <= i <= |p1| && i <= |p2|
      invariant Cmp(p1[i..], p2[i..], caseSensitive) == Cmp(p1, p2, caseSensitive)
      decreases |p1| - i
    {
      rc := At(p1, i, caseSensitive) - At(p2, i, caseSensitive);
      if rc != 0 {
        if i < |p2| && i < |p1| && p1[i] == SEP {
          return -1;
        } else if i < |p1| && i < |p2| && p2[i] == SEP {
          return 1;
        } else {
          return rc;
        }
      }
      if i == |p1| {
        return 0;
      }
      assert p1[i..][1..] == p1[i + 1..] && p2[i..][1..] == p2[i + 1..];
      i := i + 1;
    }
  }

  method PathCmp(p1: Path, p2: Path) returns (rc: int)
    ensures (rc < 0 <==> Lt(p1, p2)) && (rc == 0 <==> p1 == p2) && (rc > 0 <==> Lt(p2, p1))
  {
    rc := PathCaseCmp(p1, p2, true);
  }

  /** The case-sensitive comparison decides the order of module Paths. */
  lemma {:induction false} CmpDecidesLt(a: Path, b: Path)
    ensures Cmp(a, b, true) < 0 <==> Lt(a, b)
    ensures Cmp(a, b, true) == 0 <==> a == b
    ensures Cmp(a, b, true) > 0 <==> Lt(b, a)
  {
    LtCons(a, b);
    LtCons(b, a);
    if |a| > 0 && |b| > 0 && a[0] == b[0] {
      CmpDecidesLt(a[1..], b[1..]);
      assert a == [a[0]] + a[1..] && b == [b[0]] + b[1..];
    }
  }

  /** With case, a strict total order. */
  lemma {:induction false} PathCmpIsStrictTotalOrder(a: Path, b: Path, c: Path)
    ensures Cmp(a, b, true) == -Cmp(b, a, true)
    ensures Cmp(a, b, true) == 0 <==> a == b
    ensures Cmp(a, b, true) < 0 && Cmp(b, c, true) < 0 ==> Cmp(a, c, true) < 0
  {
    CmpDecidesLt(a, b);
    CmpDecidesLt(b, a);
    CmpDecidesLt(b, c);
    CmpDecidesLt(a, c);
    LtTotal(a, b);
    CmpIsSign(a, b, true);
    CmpIsSign(b, a, true);
    if Lt(a, b) && Lt(b, c) {
      LtTransitive(a, b, c);
    }
  }

  lemma {:induction false} CmpIsSign(a: Path, b: Path, caseSensitive: bool)
    ensures -1 <= Cmp(a, b, caseSensitive) <= 1
  {
    if |a| > 0 && |b| > 0 {
      CmpIsSign(a[1..], b[1..], caseSensitive);
    }
  }

  /** `ischildcase`; a null parent holds everything. */
  function IsChildCase(child: Path, parent: Option<Path>, caseSensitive: bool): bool {
    match parent
    case None => true
    case Some(parent) =>
      if |parent| > |child| then false
      else if parent == ROOT then child[0] == SEP
      else
        var same := if caseSensitive then parent == child[..|parent|]
                    else LowerPath(parent) == LowerPath(child[..|parent|]);
        same && (|child| == |parent| || child[|parent|] == SEP)
  }

  lemma {:induction false} IsChildIsUnder(child: Path, parent: Path)
    ensures IsChildCase(child, Some(parent), true) == Under(child, parent)
  {
  }

  /* ---- without regard to case ---- */

  predicate Ascii(p: Path) {
    forall i :: 0 <= i < |p| ==> p[i] as int < 128
  }

  function LowerByte(c: byte): byte {
    if 'A' <= c <= 'Z' then (c as int + 32) as char else c
  }

  function LowerPath(p: Path): (q: Path)
    ensures |q| == |p| && forall i :: 0 <= i < |p| ==> q[i] == LowerByte(p[i])
  {
    seq(|p|, i requires 0 <= i < |p| => LowerByte(p[i]))
  }

  /** On ASCII paths ignoring case is comparing the lower-case forms with case. */
  lemma {:induction false} FoldedCmp(a: Path, b: Path)
    requires Ascii(a) && Ascii(b)
    ensures Cmp(a, b, false) == Cmp(LowerPath(a), LowerPath(b), true)
    decreases |a|
  {
    if |a| > 0 && |b| > 0 {
      FoldedCmp(a[1..], b[1..]);
      assert LowerPath(a)[1..] == LowerPath(a[1..]) && LowerPath(b)[1..] == LowerPath(b[1..]);
    }
  }

  /** Without case, on ASCII paths: a total preorder whose ties are equality up to case. */
  lemma {:induction false} CaseInsensitiveIsTotalPreorder(a: Path, b: Path, c: Path)
    requires Ascii(a) && Ascii(b) && Ascii(c)
    ensures Cmp(a, b, false) == -Cmp(b, a, false)
    ensures Cmp(a, b, false) == 0 <==> LowerPath(a) == LowerPath(b)
    ensures Cmp(a, b, false) <= 0 && Cmp(b, c, false) <= 0 ==> Cmp(a, c, false) <= 0
    ensures Cmp(a, b, false) < 0 && Cmp(b, c, false) < 0 ==> Cmp(a, c, false) < 0
  {
    FoldedCmp(a, b);
    FoldedCmp(b, a);
    FoldedCmp(b, c);
    FoldedCmp(a, c);
    PathCmpIsStrictTotalOrder(LowerPath(a), LowerPath(b), LowerPath(c));
    PathCmpIsStrictTotalOrder(LowerPath(b), LowerPath(c), LowerPath(a));
  }

  /** Subtrees are intervals of the case-insensitive order too. */
  lemma {:induction false} CaseInsensitiveSubtreeContiguous(d: Path, x: Path, y: Path)
    requires Ascii(d) && Ascii(x) && Ascii(y)
    requires Cmp(d, x, false) <= 0 && Cmp(x, y, false) <= 0
    requires IsChildCase(y, Some(d), false)
    ensures IsChildCase(x, Some(d), false)
  {
    var d', x', y' := LowerPath(d), LowerPath(x), LowerPath(y);
    FoldedCmp(d, x);
    FoldedCmp(x, y);
    CmpDecidesLt(d', x');
    CmpDecidesLt(x', y');
    LtTotal(d', x');
    LtTotal(x', y');
    ChildOfFolded(y, d);
    SubtreeContiguous(d', x', y');
    ChildOfFolded(x, d);
  }

  lemma {:induction false} ChildOfFolded(c: Path, p: Path)
    ensures IsChildCase(c, Some(p), false) == Under(LowerPath(c), LowerPath(p))
  {
    assert |p| <= |c| ==> LowerPath(c)[..|p|] == LowerPath(c[..|p|]);
    assert p == ROOT <==> LowerPath(p) == ROOT by {
      if LowerPath(p) == ROOT { assert p[0] == SEP; }
    }
  }

  /** A full path over an alphabet. */
  predicate Over(p: Path, alphabet: set<byte>) {
    |p| > 0 && p[0] == SEP && forall i :: 0 <= i < |p| ==> p[i] in alphabet
  }

  ghost predicate TransitiveOver(alphabet: set<byte>) {
    forall a: Path, b: Path, c: Path ::
      (Over(a, alphabet) && Over(b, alphabet) && Over(c, alphabet) &&
       Cmp(a, b, false) < 0 && Cmp(b, c, false) < 0) ==> Cmp(a, c, false) < 0
  }

  /** Ignoring case is an order on the full paths over an alphabet exactly when the alphabet
      is ASCII: a byte above 127 reads as negative, below the terminator, yet '/' sorts
      below it and above the terminator. */
  lemma {:induction false} CaseInsensitiveOrderIffAscii(alphabet: set<byte>)
    requires SEP in alphabet
    ensures TransitiveOver(alphabet) <==> forall c :: c in alphabet ==> c as int < 128
  {
    if c :| c in alphabet && c as int >= 128 {
      HighByteCycle(c);
      assert Over([SEP, c], alphabet) && Over([SEP, c, SEP, c], alphabet) && Over([SEP, c, c], alphabet);
      assert !TransitiveOver(alphabet);
    } else {
      forall a: Path, b: Path, c: Path |
        Over(a, alphabet) && Over(b, alphabet) && Over(c, alphabet) &&
        Cmp(a, b, false) < 0 && Cmp(b, c, false) < 0
        ensures Cmp(a, c, false) < 0
      {
        CaseInsensitiveIsTotalPreorder(a, b, c);
      }
    }
  }

  /** With `c` above 127, "/c", "/c/c" and "/cc" sort in a circle. */
  lemma {:induction false} HighByteCycle(c: byte)
    requires c as int >= 128
    ensures Cmp([SEP, c], [SEP, c, SEP, c], false) < 0 && Cmp([SEP, c, SEP, c], [SEP, c, c], false) < 0
    ensures Cmp([SEP, c, c], [SEP, c], false) < 0 && !(Cmp([SEP, c], [SEP, c, c], false) < 0)
  {
    assert Val(c, false) < 0;
    AfterSameTwo(c, [], [SEP, c]);
    AfterSameTwo(c, [SEP, c], [c]);
    AfterSameTwo(c, [c], []);
    AfterSameTwo(c, [], [c]);
  }

  lemma {:induction false} AfterSameTwo(c: byte, a: Path, b: Path)
    ensures Cmp([SEP, c] + a, [SEP, c] + b, false) == Cmp(a, b, false)
  {
    assert ([SEP, c] + a)[1..] == [c] + a && ([SEP, c] + b)[1..] == [c] + b;
    assert ([c] + a)[1..] == a && ([c] + b)[1..] == b;
    assert Cmp([c] + a, [c] + b, false) == Cmp(a, b, false);
  }
}
