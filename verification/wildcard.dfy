/** wildcard.c: exclude patterns made of characters, escapes, '*', number ranges and lists
    of alternatives. */
module Wildcards {

  /* ---- patterns ---- */

  /** `Range` keeps its bounds as they are written. */
  datatype Item =
    | Lit(c: char, escaped: bool)
    | Star
    | Range(lo: string, hi: string)
    | Alt(alts: seq<string>)

  predicate IsDigit(c: char) {
    '0' <= c <= '9'
  }

  predicate AllDigits(s: string) {
    forall i :: 0 <= i < |s| ==> IsDigit(s[i])
  }

  predicate Special(c: char) {
    c == '*' || c == '<' || c == '?' || c == '[' || c == '{' || c == '\\'
  }

  predicate PlainAlt(a: string) {
    forall i :: 0 <= i < |a| ==> a[i] != ',' && a[i] != '}' && a[i] != '{'
  }

  predicate ItemOk(x: Item) {
    match x
    case Lit(c, escaped) => Special(c) ==> escaped
    case Star => true
    case Range(lo, hi) => lo != [] && hi != [] && AllDigits(lo) && AllDigits(hi)
    case Alt(alts) => alts != [] && forall k :: 0 <= k < |alts| ==> PlainAlt(alts[k])
  }

  predicate WellFormed(xs: seq<Item>) {
    forall i :: 0 <= i < |xs| ==> ItemOk(xs[i])
  }

  /** The alternatives from the first on, up to and with the '}'. */
  function RenderAlts(alts: seq<string>): (r: string)
    requires alts != []
    ensures r != []
  {
    if |alts| == 1 then alts[0] + ['}'] else alts[0] + [','] + RenderAlts(alts[1..])
  }

  function RenderItem(x: Item): (r: string)
    requires ItemOk(x)
    ensures r != []
  {
    match x
    case Lit(c, escaped) => if escaped then ['\\', c] else [c]
    case Star => ['*']
    case Range(lo, hi) => ['<'] + (lo + (['-'] + (hi + ['>'])))
    case Alt(alts) => ['{'] + RenderAlts(alts)
  }

  /** The pattern as it is written. */
  function Render(xs: seq<Item>): (r: string)
    requires WellFormed(xs)
    ensures xs != [] ==> r != []
  {
    if xs == [] then [] else RenderItem(xs[0]) + Render(xs[1..])
  }

  /* ---- the language of a pattern ---- */

  function Lower(c: char): char {
    if 'A' <= c <= 'Z' then (c as int + 32) as char else c
  }

  predicate SameChar(c: char, d: char, sensitive: bool) {
    if sensitive then c == d else Lower(c) == Lower(d)
  }

  /** Without regard to case, an upper-case letter is its lower-case one, and nothing else. */
  lemma {:induction false} SameCharIff(c: char, d: char, sensitive: bool)
    ensures SameChar(c, d, sensitive) <==>
            c == d || (!sensitive && (('A' <= c <= 'Z' && d as int == c as int + 32) ||
                                      ('A' <= d <= 'Z' && c as int == d as int + 32)))
  {
  }

  /** atoi of digits. */
  function Value(s: string): nat
    requires AllDigits(s)
  {
    if s == [] then 0 else 10 * Value(s[..|s| - 1]) + (s[|s| - 1] as int - '0' as int)
  }

  /** The number of digits `s` starts with. */
  function Run(s: string): (n: nat)
    ensures n <= |s| && AllDigits(s[..n]) && (n < |s| ==> !IsDigit(s[n]))
  {
    if s == [] || !IsDigit(s[0]) then 0
    else
      assert forall i :: 0 < i < 1 + Run(s[1..]) ==> s[i] == s[1..][i - 1];
      1 + Run(s[1..])
  }

  predicate Starts(a: string, s: string, sensitive: bool) {
    |a| <= |s| && forall i :: 0 <= i < |a| ==> SameChar(a[i], s[i], sensitive)
  }

  function Lowered(s: string): (r: string)
    ensures |r| == |s| && forall i :: 0 <= i < |s| ==> r[i] == Lower(s[i])
  {
    seq(|s|, i requires 0 <= i < |s| => Lower(s[i]))
  }

  /** An alternative is a prefix, or, without regard to case, its lower-case form is. */
  lemma {:induction false} StartsIff(a: string, s: string, sensitive: bool)
    ensures Starts(a, s, sensitive) <==> if sensitive then a <= s else Lowered(a) <= Lowered(s)
  {
    if |a| <= |s| {
      assert forall i :: 0 <= i < |a| ==> s[..|a|][i] == s[i] && Lowered(s)[..|a|][i] == Lower(s[i]);
    }
  }

  predicate InRange(x: Item, s: string)
    requires x.Range? && ItemOk(x)
  {
    Run(s) > 0 && Value(x.lo) <= Value(s[..Run(s)]) <= Value(x.hi)
  }

  /** Numbers are decimal, and a range holds its ends and nothing outside them. */
  lemma {:induction false} RangeHoldsItsEnds(lo: string, hi: string, n: string)
    requires ItemOk(Range(lo, hi)) && n != [] && AllDigits(n)
    ensures Value(lo) <= Value(hi) ==> InRange(Range(lo, hi), lo) && InRange(Range(lo, hi), hi)
    ensures Value(n) < Value(lo) || Value(n) > Value(hi) ==> !InRange(Range(lo, hi), n)
    ensures Value(lo) <= Value(n) <= Value(hi) ==> InRange(Range(lo, hi), n)
    ensures forall d :: IsDigit(d) ==> Value(n + [d]) == 10 * Value(n) + (d as int - '0' as int)
  {
    RunIsMaximal(lo, |lo|);
    RunIsMaximal(hi, |hi|);
    RunIsMaximal(n, |n|);
    assert lo[..|lo|] == lo && hi[..|hi|] == hi && n[..|n|] == n;
    forall d | IsDigit(d)
      ensures Value(n + [d]) == 10 * Value(n) + (d as int - '0' as int)
    {
      assert (n + [d])[..|n|] == n;
    }
  }

  /** `s` is in the language of the pattern: '*' stands for any characters or none, a range
      for a number in it, written to its last digit. */
  predicate Matches(xs: seq<Item>, s: string, sensitive: bool)
    requires WellFormed(xs)
    decreases |xs|
  {
    if xs == [] then s == []
    else
      match xs[0]
      case Lit(c, _) => s != [] && SameChar(c, s[0], sensitive) && Matches(xs[1..], s[1..], sensitive)
      case Star => exists i :: 0 <= i <= |s| && Matches(xs[1..], s[i..], sensitive)
      case Range(_, _) => InRange(xs[0], s) && Matches(xs[1..], s[Run(s)..], sensitive)
      case Alt(alts) =>
        exists k :: 0 <= k < |alts| && Starts(alts[k], s, sensitive) && Matches(xs[1..], s[|alts[k]|..], sensitive)
  }

  /** What wildcard() decides: a '*' that is not the last of the pattern leaves at least one
      character to the rest. */
  predicate Decides(xs: seq<Item>, s: string, sensitive: bool)
    requires WellFormed(xs)
    decreases |xs|
  {
    if xs == [] then s == []
    else
      match xs[0]
      case Lit(c, _) => s != [] && SameChar(c, s[0], sensitive) && Decides(xs[1..], s[1..], sensitive)
      case Star => |xs| == 1 || exists i :: 0 <= i < |s| && Decides(xs[1..], s[i..], sensitive)
      case Range(_, _) => InRange(xs[0], s) && Decides(xs[1..], s[Run(s)..], sensitive)
      case Alt(alts) =>
        exists k :: 0 <= k < |alts| && Starts(alts[k], s, sensitive) && Decides(xs[1..], s[|alts[k]|..], sensitive)
  }

  /** Some '*' is followed by a remainder that is not empty but can match nothing. */
  predicate EmptyTail(xs: seq<Item>, sensitive: bool)
    requires WellFormed(xs)
  {
    xs != [] &&
    ((xs[0].Star? && |xs| > 1 && Matches(xs[1..], [], sensitive)) || EmptyTail(xs[1..], sensitive))
  }

  /** It accepts only what is in the language. */
  lemma {:induction false} DecidesIsSound(xs: seq<Item>, s: string, sensitive: bool)
    requires WellFormed(xs) && Decides(xs, s, sensitive)
    ensures Matches(xs, s, sensitive)
    decreases |xs|
  {
    if xs != [] {
      match xs[0]
      case Lit(_, _) => DecidesIsSound(xs[1..], s[1..], sensitive);
      case Star =>
        if |xs| == 1 {
          assert Matches(xs[1..], s[|s|..], sensitive);
        } else {
          var i :| 0 <= i < |s| && Decides(xs[1..], s[i..], sensitive);
          DecidesIsSound(xs[1..], s[i..], sensitive);
        }
      case Range(_, _) => DecidesIsSound(xs[1..], s[Run(s)..], sensitive);
      case Alt(alts) =>
        var k :| 0 <= k < |alts| && Starts(alts[k], s, sensitive) && Decides(xs[1..], s[|alts[k]|..], sensitive);
        DecidesIsSound(xs[1..], s[|alts[k]|..], sensitive);
    }
  }

  /** And all of it, when no '*' has an empty tail. */
  lemma {:induction false} DecidesIsComplete(xs: seq<Item>, s: string, sensitive: bool)
    requires WellFormed(xs) && Matches(xs, s, sensitive) && !EmptyTail(xs, sensitive)
    ensures Decides(xs, s, sensitive)
    decreases |xs|
  {
    if xs != [] {
      match xs[0]
      case Lit(_, _) => DecidesIsComplete(xs[1..], s[1..], sensitive);
      case Star =>
        var i :| 0 <= i <= |s| && Matches(xs[1..], s[i..], sensitive);
        assert s[|s|..] == [];
        if |xs| > 1 {
          DecidesIsComplete(xs[1..], s[i..], sensitive);
        }
      case Range(_, _) => DecidesIsComplete(xs[1..], s[Run(s)..], sensitive);
      case Alt(alts) =>
        var k :| 0 <= k < |alts| && Starts(alts[k], s, sensitive) && Matches(xs[1..], s[|alts[k]|..], sensitive);
        DecidesIsComplete(xs[1..], s[|alts[k]|..], sensitive);
    }
  }

  lemma {:induction false} RunOfPrefix(s: string, n: nat)
    requires Run(s) <= n <= |s|
    ensures Run(s[..n]) == Run(s)
  {
    var t, r := s[..n], Run(s);
    assert t[..r] == s[..r];
    RunIsMaximal(t, r);
  }

  lemma {:induction false} RunIsMaximal(s: string, n: nat)
    requires n <= |s| && AllDigits(s[..n]) && (n < |s| ==> !IsDigit(s[n]))
    ensures Run(s) == n
  {
    if n > 0 {
      assert s[..n][0] == s[0];
      assert s[1..][..n - 1] == s[..n][1..];
      RunIsMaximal(s[1..], n - 1);
    }
  }

  /** The first item can take the first `d` characters. */
  predicate Takes(x: Item, s: string, d: nat, sensitive: bool)
    requires ItemOk(x)
  {
    d <= |s| &&
    match x
    case Lit(c, _) => d == 1 && SameChar(c, s[0], sensitive)
    case Star => true
    case Range(_, _) => d == Run(s) && InRange(x, s)
    case Alt(alts) => exists k :: 0 <= k < |alts| && |alts[k]| == d && Starts(alts[k], s, sensitive)
  }

  /** The first `d` characters of `s` taken by the first item, and the next `m` matched by
      the others, make the first `d + m` matched by all. */
  lemma {:induction false} FirstThenRest(xs: seq<Item>, s: string, d: nat, m: nat, sensitive: bool)
    requires WellFormed(xs) && xs != [] && d + m <= |s| && Matches(xs[1..], s[d..][..m], sensitive)
    requires Takes(xs[0], s, d, sensitive)
    ensures Matches(xs, s[..d + m], sensitive)
  {
    var t := s[..d + m];
    assert t[d..] == s[d..][..m];
    match xs[0]
    case Lit(_, _) =>
    case Star =>
    case Range(_, _) =>
      RunOfPrefix(s, d + m);
      assert t[..d] == s[..d];
    case Alt(alts) =>
      var k :| 0 <= k < |alts| && |alts[k]| == d && Starts(alts[k], s, sensitive);
      assert Starts(alts[k], t, sensitive);
  }

  lemma {:induction false} FirstTakes(xs: seq<Item>, s: string, sensitive: bool) returns (d: nat)
    requires WellFormed(xs) && xs != [] && Decides(xs, s, sensitive) && !(xs[0].Star? && |xs| == 1)
    ensures Takes(xs[0], s, d, sensitive) && Decides(xs[1..], s[d..], sensitive)
    ensures xs[0].Star? ==> d < |s|
  {
    match xs[0] {
      case Lit(_, _) =>
        d := 1;
      case Star =>
        var i :| 0 <= i < |s| && Decides(xs[1..], s[i..], sensitive);
        d := i;
      case Range(_, _) =>
        d := Run(s);
      case Alt(alts) =>
        var k :| 0 <= k < |alts| && Starts(alts[k], s, sensitive) && Decides(xs[1..], s[|alts[k]|..], sensitive);
        d := |alts[k]|;
    }
  }

  /** When a '*' has an empty tail, whatever is accepted has a shorter beginning that should
      be accepted too: the '*' can take all, and its tail nothing. */
  lemma {:induction false} AcceptedCanBeCut(xs: seq<Item>, s: string, sensitive: bool) returns (n: nat)
    requires WellFormed(xs) && Decides(xs, s, sensitive) && EmptyTail(xs, sensitive)
    ensures n < |s| && Matches(xs, s[..n], sensitive)
    decreases |xs|
  {
    var d := FirstTakes(xs, s, sensitive);
    var m: nat := 0;
    if xs[0].Star? && Matches(xs[1..], [], sensitive) {
      assert s[d..][..0] == [];
    } else {
      m := AcceptedCanBeCut(xs[1..], s[d..], sensitive);
    }
    FirstThenRest(xs, s, d, m, sensitive);
    n := d + m;
  }

  /** So the shortest word of the language is not accepted. */
  lemma {:induction false} SomeWordIsMissed(xs: seq<Item>, s: string, sensitive: bool) returns (t: string)
    requires WellFormed(xs) && Matches(xs, s, sensitive) && EmptyTail(xs, sensitive)
    ensures t <= s && Matches(xs, t, sensitive) && !Decides(xs, t, sensitive)
    decreases |s|
  {
    if Decides(xs, s, sensitive) {
      var n := AcceptedCanBeCut(xs, s, sensitive);
      t := SomeWordIsMissed(xs, s[..n], sensitive);
    } else {
      t := s;
    }
  }

  /** A path: not empty, of bytes other than NUL. */
  predicate Text(s: string) {
    s != [] && forall i :: 0 <= i < |s| ==> 0 < s[i] as int < 256
  }

  /** The pattern is decided rightly on every path. */
  ghost predicate Exact(xs: seq<Item>, sensitive: bool)
    requires WellFormed(xs)
  {
    forall s :: Text(s) ==> (Decides(xs, s, sensitive) <==> Matches(xs, s, sensitive))
  }

  ghost predicate MatchesNothing(xs: seq<Item>, sensitive: bool)
    requires WellFormed(xs)
  {
    forall s :: Text(s) ==> !Matches(xs, s, sensitive)
  }

  /** The pattern can match nothing at all, and takes every single character. */
  ghost predicate TakesEachCharacter(xs: seq<Item>, sensitive: bool)
    requires WellFormed(xs)
  {
    Matches(xs, [], sensitive) && forall c :: Text([c]) ==> Decides(xs, [c], sensitive)
  }

  /** Where every item can be empty and one is a '*', every subject is in the language. */
  lemma {:induction false} MatchesAll(xs: seq<Item>, s: string, sensitive: bool)
    requires WellFormed(xs) && EmptyTail(xs, sensitive) && Matches(xs, [], sensitive)
    ensures Matches(xs, s, sensitive)
    decreases |xs|
  {
    var e: string := [];
    match xs[0]
    case Star =>
      assert e[0..] == [] && s[|s|..] == [];
    case Alt(alts) =>
      var k :| 0 <= k < |alts| && Starts(alts[k], e, sensitive) && Matches(xs[1..], e[|alts[k]|..], sensitive);
      assert alts[k] == [] && e[0..] == [] && s[0..] == s;
      MatchesAll(xs[1..], s, sensitive);
  }

  /** A pattern with an empty tail that takes every single character takes every path: the '*'
      leaves the last character to the rest. */
  lemma {:induction false} TakesAll(xs: seq<Item>, s: string, sensitive: bool)
    requires WellFormed(xs) && EmptyTail(xs, sensitive) && TakesEachCharacter(xs, sensitive) && Text(s)
    ensures Decides(xs, s, sensitive)
    decreases |xs|
  {
    var e: string, n := [], |s| - 1;
    match xs[0]
    case Star =>
      if |xs| > 1 {
        var c := [s[n]];
        assert Text(c) && Decides(xs, c, sensitive);
        var i :| 0 <= i < |c| && Decides(xs[1..], c[i..], sensitive);
        assert c[i..] == s[n..];
      }
    case Alt(alts) =>
      var k :| 0 <= k < |alts| && Starts(alts[k], e, sensitive) && Matches(xs[1..], e[|alts[k]|..], sensitive);
      assert alts[k] == [] && e[0..] == [] && s[0..] == s;
      forall c | Text([c])
        ensures Decides(xs[1..], [c], sensitive)
      {
        RestTakes(xs, alts, c, sensitive);
      }
      TakesAll(xs[1..], s, sensitive);
  }

  lemma {:induction false} RestTakes(xs: seq<Item>, alts: seq<string>, c: char, sensitive: bool)
    requires WellFormed(xs) && xs != [] && xs[0] == Alt(alts) && EmptyTail(xs[1..], sensitive)
    requires Decides(xs, [c], sensitive)
    ensures Decides(xs[1..], [c], sensitive)
  {
    var s := [c];
    var k :| 0 <= k < |alts| && Starts(alts[k], s, sensitive) && Decides(xs[1..], s[|alts[k]|..], sensitive);
    if alts[k] != [] {
      var _ := AcceptedCanBeCut(xs[1..], s[|alts[k]|..], sensitive);
    }
    assert s[0..] == s;
  }

  /** A word that is not empty and is missed, or the empty one is in the language. */
  lemma {:induction false} MissedOrEmpty(xs: seq<Item>, s: string, sensitive: bool)
    requires WellFormed(xs) && EmptyTail(xs, sensitive) && Matches(xs, s, sensitive) && Text(s) && Exact(xs, sensitive)
    ensures Matches(xs, [], sensitive)
  {
    var t := SomeWordIsMissed(xs, s, sensitive);
    assert !Text(t);
  }

  /** A pattern is decided rightly on every path exactly when no '*' in it has an empty tail,
      or it can match nothing at all and takes every single character, or no path is in its
      language. */
  lemma {:induction false} ExactIff(xs: seq<Item>, sensitive: bool)
    requires WellFormed(xs)
    ensures Exact(xs, sensitive) <==>
            (!EmptyTail(xs, sensitive) || TakesEachCharacter(xs, sensitive) || MatchesNothing(xs, sensitive))
  {
    forall s | Decides(xs, s, sensitive)
      ensures Matches(xs, s, sensitive)
    {
      DecidesIsSound(xs, s, sensitive);
    }
    if !EmptyTail(xs, sensitive) {
      forall s | Matches(xs, s, sensitive)
        ensures Decides(xs, s, sensitive)
      {
        DecidesIsComplete(xs, s, sensitive);
      }
    } else if TakesEachCharacter(xs, sensitive) {
      forall s | Text(s)
        ensures Decides(xs, s, sensitive)
      {
        TakesAll(xs, s, sensitive);
      }
    } else if Exact(xs, sensitive) {
      if s :| Text(s) && Matches(xs, s, sensitive) {
        MissedOrEmpty(xs, s, sensitive);
        forall c | Text([c])
          ensures Decides(xs, [c], sensitive)
        {
          MatchesAll(xs, [c], sensitive);
        }
      }
    }
  }

  lemma {:induction false} StarsOnNothing(sensitive: bool)
    ensures var xs := [Star, Star];
            WellFormed(xs) && Matches(xs, [], sensitive) && !Decides(xs, [], sensitive)
  {
    var xs, e: string := [Star, Star], [];
    assert xs[1..] == [Star] && xs[1..][1..] == [] && e[0..] == [];
    assert Matches(xs[1..][1..], e[0..], sensitive);
    assert Matches(xs[1..], e[0..], sensitive);
  }

  lemma {:induction false} AfterLiteral(c: char, xs: seq<Item>, s: string, sensitive: bool)
    requires WellFormed(xs) && !Special(c)
    ensures var ys := [Lit(c, false)] + xs;
            && WellFormed(ys) && Matches(ys, [c] + s, sensitive) == Matches(xs, s, sensitive)
            && Decides(ys, [c] + s, sensitive) == Decides(xs, s, sensitive)
  {
    var ys := [Lit(c, false)] + xs;
    assert ys[1..] == xs && ([c] + s)[1..] == s;
  }

  lemma {:induction false} StarsAfterA(sensitive: bool)
    ensures var xs := [Lit('a', false)] + [Star, Star];
            WellFormed(xs) && Matches(xs, ['a'], sensitive) && !Decides(xs, ['a'], sensitive)
  {
    StarsOnNothing(sensitive);
    AfterLiteral('a', [Star, Star], [], sensitive);
    assert ['a'] + [] == ['a'];
  }

  /** "/a**" rejects "/a", although each '*' can stand for nothing. */
  lemma {:induction false} TwoStars(sensitive: bool)
    ensures var xs := [Lit('/', false)] + ([Lit('a', false)] + [Star, Star]);
            WellFormed(xs) && Matches(xs, ['/', 'a'], sensitive) && !Decides(xs, ['/', 'a'], sensitive)
  {
    StarsAfterA(sensitive);
    AfterLiteral('/', [Lit('a', false)] + [Star, Star], ['a'], sensitive);
    assert ['/'] + ['a'] == ['/', 'a'];
  }

  /* ---- the program ---- */

  /** isdigit and atoi together: the digits `s` starts with. */
  method TakeNumber(s: string) returns (n: nat, v: nat)
    ensures n == Run(s) && v == Value(s[..n])
  {
    n, v := 0, 0;
    while n < |s| && IsDigit(s[n])
      invariant n <= |s| && AllDigits(s[..n]) && v == Value(s[..n])
    {
      assert s[..n + 1][..n] == s[..n];
      v := 10 * v + (s[n] as int - '0' as int);
      n := n + 1;
    }
    RunIsMaximal(s, n);
  }

  /** The comparison loop of one alternative. */
  method Compare(a: string, s: string, sensitive: bool) returns (same: bool)
    ensures same == Starts(a, s, sensitive)
  {
    var i := 0;
    while i < |a|
      invariant 0 <= i <= |a| && i <= |s|
      invariant forall j :: 0 <= j < i ==> SameChar(a[j], s[j], sensitive)
    {
      if i == |s| || !SameChar(a[i], s[i], sensitive) {
        return false;
      }
      i := i + 1;
    }
    same := true;
  }

  /** The first character tells the item. */
  lemma {:induction false} FirstCharacter(xs: seq<Item>, wild: string)
    requires WellFormed(xs) && wild == Render(xs) && wild != []
    ensures xs != [] && WellFormed(xs[1..]) && ItemOk(xs[0]) && wild == RenderItem(xs[0]) + Render(xs[1..])
    ensures wild[0] == '*' <==> xs[0].Star?
    ensures wild[0] == '<' <==> xs[0].Range?
    ensures wild[0] == '{' <==> xs[0].Alt?
    ensures wild[0] == '\\' <==> xs[0].Lit? && xs[0].escaped
    ensures xs[0].Lit? && !xs[0].escaped ==> xs[0].c == wild[0]
  {
    assert (RenderItem(xs[0]) + Render(xs[1..]))[0] == RenderItem(xs[0])[0];
  }

  lemma {:induction false} RunBefore(d: string, c: char, rest: string)
    requires AllDigits(d) && !IsDigit(c)
    ensures Run(d + [c] + rest) == |d|
  {
    var t := d + [c] + rest;
    assert t[..|d|] == d && t[|d|] == c;
    RunIsMaximal(t, |d|);
  }

  /** The case '<' of wildcard(): whether the number is there and in the range, and what is
      left of the pattern and the subject. */
  method TakeRange(wild: string, p: string, ghost x: Item, ghost rest: string)
    returns (ok: bool, wild': string, p': string)
    requires x.Range? && ItemOk(x) && wild == RenderItem(x) + rest
    ensures ok == InRange(x, p)
    ensures ok ==> wild' == rest && p' == p[Run(p)..]
  {
    wild', p' := wild[1..], p;
    var n, i := TakeNumber(p);
    if n == 0 { return false, wild', p'; }
    p' := p[n..];
    RangeParts(x, rest);
    var nlo, min := TakeNumber(wild');
    if nlo == 0 { return false, wild', p'; }
    wild' := wild'[nlo..];
    if wild'[0] != '-' { return false, wild', p'; }
    wild' := wild'[1..];
    var nhi, max := TakeNumber(wild');
    if nhi == 0 { return false, wild', p'; }
    wild' := wild'[nhi..];
    if wild'[0] != '>' { return false, wild', p'; }
    wild' := wild'[1..];
    ok := min <= i <= max;
  }

  lemma {:induction false} RangeParts(x: Item, rest: string)
    requires x.Range? && ItemOk(x)
    ensures var t1 := (RenderItem(x) + rest)[1..];
            && Run(t1) == |x.lo| && t1[..|x.lo|] == x.lo && |t1| > |x.lo| && t1[|x.lo|] == '-'
            && var t2 := t1[|x.lo|..][1..];
            && Run(t2) == |x.hi| && t2[..|x.hi|] == x.hi && |t2| > |x.hi| && t2[|x.hi|] == '>'
            && t2[|x.hi|..][1..] == rest
  {
    var t1 := (RenderItem(x) + rest)[1..];
    var after := x.hi + ['>'] + rest;
    assert t1 == x.lo + ['-'] + after;
    RunBefore(x.lo, '-', after);
    var t2 := t1[|x.lo|..][1..];
    assert t2 == after;
    RunBefore(x.hi, '>', rest);
  }

  /** The alternatives end at the first '}', and no '{' comes before it. */
  lemma {:induction false} AltsEnd(alts: seq<string>)
    requires alts != [] && forall k :: 0 <= k < |alts| ==> PlainAlt(alts[k])
    ensures var r := RenderAlts(alts);
            r[|r| - 1] == '}' && forall i :: 0 <= i < |r| - 1 ==> r[i] != '}' && r[i] != '{'
  {
    if |alts| > 1 {
      AltsEnd(alts[1..]);
    }
  }

  /** The search for the '}'. */
  method FindEnd(wild: string, ghost alts: seq<string>, ghost rest: string) returns (end: nat)
    requires alts != [] && forall k :: 0 <= k < |alts| ==> PlainAlt(alts[k])
    requires wild == ['{'] + RenderAlts(alts) + rest
    ensures end <= |wild| && wild[end..] == rest && end >= 2
  {
    AltsEnd(alts);
    ghost var r := RenderAlts(alts);
    end := 1;
    while wild[end] != '}'
      invariant 1 <= end <= |r|
      decreases |r| - end
    {
      assert wild[end] == r[end - 1];
      end := end + 1;
    }
    assert wild[end] == r[end - 1];
    end := end + 1;
    assert wild[|r| + 1..] == rest;
  }

  /** The first alternative of some: up to a ',' or the '}'. */
  method FirstAlt(comma: string, ghost alts: seq<string>, ghost rest: string) returns (len: nat)
    requires alts != [] && forall k :: 0 <= k < |alts| ==> PlainAlt(alts[k])
    requires comma == RenderAlts(alts) + rest
    ensures len < |comma| && comma[..len] == alts[0]
    ensures comma[len] == if |alts| == 1 then '}' else ','
    ensures |alts| > 1 ==> comma[len + 1..] == RenderAlts(alts[1..]) + rest
  {
    ghost var a := alts[0];
    assert comma[..|a|] == a && comma[|a|] == if |alts| == 1 then '}' else ',';
    assert forall i :: 0 <= i < |a| ==> comma[i] == comma[..|a|][i];
    len := 0;
    while comma[len] != ',' && comma[len] != '}'
      invariant len <= |a| < |comma|
      decreases |a| - len
    {
      len := len + 1;
    }
    assert len == |a|;
    if |alts| > 1 {
      assert comma == a + [','] + (RenderAlts(alts[1..]) + rest);
    }
  }

  ghost predicate SomeAlt(alts: seq<string>, k: nat, rest: seq<Item>, p: string, sensitive: bool)
    requires WellFormed(rest)
  {
    exists j :: k <= j < |alts| && Starts(alts[j], p, sensitive) && Decides(rest, p[|alts[j]|..], sensitive)
  }

  /** The loop over the alternatives; `end` is the pattern after them. */
  method TryAlts(body: string, end: string, p: string, sensitive: bool, ghost alts: seq<string>, ghost rest: seq<Item>)
    returns (r: bool)
    requires alts != [] && (forall k :: 0 <= k < |alts| ==> PlainAlt(alts[k])) && WellFormed(rest)
    requires end == Render(rest) && body == RenderAlts(alts) + end
    ensures r == SomeAlt(alts, 0, rest, p, sensitive)
    decreases |end| + 1, 0
  {
    var comma := body;
    ghost var k := 0;
    while true
      invariant 0 <= k < |alts| && comma == RenderAlts(alts[k..]) + end
      invariant SomeAlt(alts, 0, rest, p, sensitive) == SomeAlt(alts, k, rest, p, sensitive)
      decreases |alts| - k
    {
      var len := FirstAlt(comma, alts[k..], end);
      var same := Compare(comma[..len], p, sensitive);
      if same {
        var go := Wildcard(end, p[len..], sensitive, rest);
        if go {
          return true;
        }
      }
      if comma[len] == '}' {
        return false;
      }
      assert alts[k..][1..] == alts[k + 1..];
      comma := comma[len + 1..];
      k := k + 1;
    }
  }

  /** The pattern takes the subject from `i` on. */
  predicate TakenFrom(xs: seq<Item>, p: string, i: nat, sensitive: bool)
    requires WellFormed(xs) && i <= |p|
  {
    Decides(xs, p[i..], sensitive)
  }

  /** What a '*' before the pattern takes. */
  lemma {:induction false} StarTakes(xs: seq<Item>, p: string, sensitive: bool)
    requires WellFormed(xs) && |xs| > 1 && xs[0].Star?
    ensures Decides(xs, p, sensitive) <==> exists i :: 0 <= i < |p| && TakenFrom(xs[1..], p, i, sensitive)
  {
    if i :| 0 <= i < |p| && TakenFrom(xs[1..], p, i, sensitive) {
      assert Decides(xs[1..], p[i..], sensitive);
    }
    if Decides(xs, p, sensitive) {
      var i :| 0 <= i < |p| && Decides(xs[1..], p[i..], sensitive);
      assert TakenFrom(xs[1..], p, i, sensitive);
    }
  }

  /** The loop of the case '*': each beginning the star could take, but never all. */
  method TryStar(wild: string, p: string, sensitive: bool, ghost rest: seq<Item>) returns (r: bool)
    requires WellFormed(rest) && wild == Render(rest)
    ensures r == exists i :: 0 <= i < |p| && TakenFrom(rest, p, i, sensitive)
    decreases |wild| + 1, 0
  {
    var i := 0;
    while i < |p|
      invariant 0 <= i <= |p| && forall j :: 0 <= j < i ==> !TakenFrom(rest, p, j, sensitive)
    {
      r := Wildcard(wild, p[i..], sensitive, rest);
      if r {
        assert TakenFrom(rest, p, i, sensitive);
        return;
      }
      i := i + 1;
    }
    r := false;
  }

  /** The cases of a character and of a range: past it on both sides, if it matches. */
  method TakeOne(wild: string, p: string, sensitive: bool, ghost xs: seq<Item>)
    returns (ok: bool, wild': string, p': string)
    requires WellFormed(xs) && wild == Render(xs) && wild != [] && (xs[0].Lit? || xs[0].Range?)
    ensures ok ==> wild' == Render(xs[1..]) && Decides(xs, p, sensitive) == Decides(xs[1..], p', sensitive)
    ensures !ok ==> !Decides(xs, p, sensitive)
  {
    FirstCharacter(xs, wild);
    if wild[0] == '<' {
      ok, wild', p' := TakeRange(wild, p, xs[0], Render(xs[1..]));
    } else {
      wild', p' := wild, p;
      if wild'[0] == '\\' {
        wild' := wild'[1..];
      }
      if p == [] || !SameChar(wild'[0], p[0], sensitive) {
        return false, wild', p';
      }
      ok, wild', p' := true, wild'[1..], p[1..];
    }
  }

  /** The case '{'. */
  method TakeAlt(wild: string, p: string, sensitive: bool, ghost xs: seq<Item>) returns (r: bool)
    requires WellFormed(xs) && xs != [] && xs[0].Alt? && wild == Render(xs)
    ensures r == Decides(xs, p, sensitive)
    decreases |wild|, 0
  {
    ghost var rest := xs[1..];
    assert ItemOk(xs[0]) && WellFormed(rest);
    var end := FindEnd(wild, xs[0].alts, Render(rest));
    assert wild[1..] == RenderAlts(xs[0].alts) + Render(rest);
    r := TryAlts(wild[1..], wild[end..], p, sensitive, xs[0].alts, rest);
  }

  /** wildcard(), on well-formed patterns. */
  method Wildcard(wild0: string, p0: string, sensitive: bool, ghost xs0: seq<Item>) returns (r: bool)
    requires WellFormed(xs0) && wild0 == Render(xs0)
    ensures r == Decides(xs0, p0, sensitive)
    decreases |wild0|, 1
  {
    var wild, p := wild0, p0;
    ghost var xs := xs0;
    while wild != []
      invariant WellFormed(xs) && wild == Render(xs) && |wild| <= |wild0|
      invariant Decides(xs, p, sensitive) == Decides(xs0, p0, sensitive)
      decreases |xs|
    {
      FirstCharacter(xs, wild);
      if wild[0] == '*' {
        if wild[1..] == [] {
          return true;
        }
        StarTakes(xs, p, sensitive);
        r := TryStar(wild[1..], p, sensitive, xs[1..]);
        return;
      }
      if wild[0] == '{' {
        r := TakeAlt(wild, p, sensitive, xs);
        return;
      }
      r, wild, p := TakeOne(wild, p, sensitive, xs);
      if !r {
        return;
      }
      xs := xs[1..];
    }
    r := p == [];
  }
}
