/** base64.c: the encoding of section 4 of RFC 4648, in which checksums are written. The ten
    tables of the C code are given by what their entries are. */
module Base64s {
  type Octet = x: int | 0 <= x < 256

  type Digit = x: int | 0 <= x < 64

  /* ---- the alphabet ---- */

  function Letter(v: Digit): char {
    if v < 26 then ('A' as int + v) as char
    else if v < 52 then ('a' as int + v - 26) as char
    else if v < 62 then ('0' as int + v - 52) as char
    else if v == 62 then '+'
    else '/'
  }

  /** Table 1 of the standard: from 'A' to 'Z', from 'a' to 'z', from '0' to '9', '+' and '/'. */
  lemma {:induction false} LettersAreStandard(v: Digit)
    ensures Letter(0) == 'A' && Letter(25) == 'Z' && Letter(26) == 'a' && Letter(51) == 'z'
    ensures Letter(52) == '0' && Letter(61) == '9' && Letter(62) == '+' && Letter(63) == '/'
    ensures v != 25 && v != 51 && v < 61 ==> Letter(v + 1) as int == Letter(v) as int + 1
  {
  }

  /** The value of a letter; anything else, and so '=', counts as 0. */
  function Meaning(c: char): Digit {
    if 'A' <= c <= 'Z' then c as int - 'A' as int
    else if 'a' <= c <= 'z' then c as int - 'a' as int + 26
    else if '0' <= c <= '9' then c as int - '0' as int + 52
    else if c == '+' then 62
    else if c == '/' then 63
    else 0
  }

  lemma {:induction false} LetterMeans(v: Digit)
    ensures Meaning(Letter(v)) == v
  {
  }

  function Letters(ds: seq<Digit>): (r: string)
    ensures |r| == |ds|
  {
    if ds == [] then [] else [Letter(ds[0])] + Letters(ds[1..])
  }

  function Meanings(e: string): (r: seq<Digit>)
    ensures |r| == |e|
  {
    if e == [] then [] else [Meaning(e[0])] + Meanings(e[1..])
  }

  lemma {:induction false} MeaningsOfLetters(ds: seq<Digit>)
    ensures Meanings(Letters(ds)) == ds
  {
    if ds != [] {
      LetterMeans(ds[0]);
      MeaningsOfLetters(ds[1..]);
      assert Letters(ds)[1..] == Letters(ds[1..]);
    }
  }

  /* ---- 24 bits ---- */

  /** Three octets cut into four groups of six bits. */
  function Split(a: Octet, b: Octet, c: Octet): (r: seq<Digit>)
    ensures |r| == 4
  {
    [a / 4, a % 4 * 16 + b / 16, b % 16 * 4 + c / 64, c % 64]
  }

  /** Four groups of six bits put together again. */
  function Join(ds: seq<Digit>): (r: seq<Octet>)
    requires |ds| == 4
    ensures |r| == 3
  {
    var (w: int, x: int, y: int, z: int) := (ds[0], ds[1], ds[2], ds[3]);
    [w * 4 + x / 16, x % 16 * 16 + y / 4, y % 4 * 64 + z]
  }

  /** The standard's 24-bit group: one number, in digits of 256 and in digits of 64. */
  lemma {:induction false} SplitKeepsTheNumber(a: Octet, b: Octet, c: Octet)
    ensures var (w: int, x: int, y: int, z: int) :=
              (Split(a, b, c)[0], Split(a, b, c)[1], Split(a, b, c)[2], Split(a, b, c)[3]);
            var (p: int, q: int, r: int) := (a, b, c);
            w * 0x40000 + x * 0x1000 + y * 64 + z == p * 0x10000 + q * 0x100 + r
  {
  }

  lemma {:induction false} JoinOfSplit(a: Octet, b: Octet, c: Octet)
    ensures Join(Split(a, b, c)) == [a, b, c]
  {
    var x, y := a % 4 * 16 + b / 16, b % 16 * 4 + c / 64;
    assert x / 16 == a % 4 && x % 16 == b / 16;
    assert y / 4 == b % 16 && y % 4 == c / 64;
  }

  /* ---- whole buffers ---- */

  /** One or two octets that are left over, filled up with zero bits; the groups that hold
      none of theirs are written as '='. */
  function Ending(d: seq<Octet>): string
    requires |d| < 3
  {
    if |d| == 2 then Letters(Split(d[0], d[1], 0)[..3]) + "="
    else if |d| == 1 then Letters(Split(d[0], 0, 0)[..2]) + "=="
    else []
  }

  function Encoded(d: seq<Octet>): (r: string)
    ensures |r| == (|d| + 2) / 3 * 4
  {
    if |d| < 3 then Ending(d) else Letters(Split(d[0], d[1], d[2])) + Encoded(d[3..])
  }

  function Decoded(e: string): (r: seq<Octet>)
    ensures |r| == |e| / 4 * 3
  {
    if |e| < 4 then [] else Join(Meanings(e[..4])) + Decoded(e[4..])
  }

  /** Zero octets that fill up the last group. */
  function Filling(n: nat): seq<Octet> {
    if n % 3 == 2 then [0] else if n % 3 == 1 then [0, 0] else []
  }

  lemma {:induction false} MeaningsAppend(a: string, b: string)
    ensures Meanings(a + b) == Meanings(a) + Meanings(b)
  {
    if a == [] {
      assert a + b == b;
    } else {
      assert (a + b)[1..] == a[1..] + b;
      MeaningsAppend(a[1..], b);
    }
  }

  /** A '=' reads as a group of zero bits, which is what it stands for. */
  lemma {:induction false} PadMeans(ds: seq<Digit>, pad: string)
    requires pad == "=" || pad == "=="
    ensures Meanings(Letters(ds) + pad) == ds + if |pad| == 1 then [0] else [0, 0]
  {
    MeaningsOfLetters(ds);
    MeaningsAppend(Letters(ds), pad);
    assert Meaning('=') == 0;
    assert Meanings("=") == [0];
    assert |pad| == 2 ==> pad[1..] == "=";
  }

  lemma {:induction false} EndingMeans(d: seq<Octet>)
    requires 0 < |d| < 3
    ensures Meanings(Ending(d)) == Split(d[0], if |d| == 2 then d[1] else 0, 0)
  {
    var s := Split(d[0], if |d| == 2 then d[1] else 0, 0);
    if |d| == 2 {
      PadMeans(s[..3], "=");
    } else {
      PadMeans(s[..2], "==");
    }
  }

  lemma {:induction false} DecodedGroup(four: string, later: string)
    requires |four| == 4
    ensures Decoded(four + later) == Join(Meanings(four)) + Decoded(later)
  {
    assert (four + later)[..4] == four && (four + later)[4..] == later;
  }

  lemma {:induction false} EndingDecoded(d: seq<Octet>)
    requires 0 < |d| < 3
    ensures Decoded(Ending(d)) == d + Filling(|d|)
  {
    EndingMeans(d);
    JoinOfSplit(d[0], if |d| == 2 then d[1] else 0, 0);
    DecodedGroup(Ending(d), []);
    assert Ending(d) + [] == Ending(d);
  }

  lemma {:induction false} GroupBack(a: Octet, b: Octet, c: Octet, later: string)
    ensures Decoded(Letters(Split(a, b, c)) + later) == [a, b, c] + Decoded(later)
  {
    MeaningsOfLetters(Split(a, b, c));
    JoinOfSplit(a, b, c);
    DecodedGroup(Letters(Split(a, b, c)), later);
  }

  lemma {:induction false} FillingOfRest(d: seq<Octet>)
    requires |d| >= 3
    ensures d + Filling(|d|) == [d[0], d[1], d[2]] + (d[3..] + Filling(|d[3..]|))
  {
    assert d == [d[0], d[1], d[2]] + d[3..];
  }

  /** base64_d of base64_e gives the octets back, followed by up to two zero octets. */
  lemma {:induction false} DecodeOfEncode(d: seq<Octet>)
    ensures Decoded(Encoded(d)) == d + Filling(|d|)
    decreases |d|
  {
    if |d| >= 3 {
      GroupBack(d[0], d[1], d[2], Encoded(d[3..]));
      DecodeOfEncode(d[3..]);
      FillingOfRest(d);
    } else if |d| > 0 {
      EndingDecoded(d);
    }
  }

  /* ---- the loops over the buffers ---- */

  function SizeE(n: nat): nat {
    (n + 2) / 3 * 4 + 1
  }

  function SizeD(n: nat): nat {
    n * 3 / 4
  }

  lemma {:induction false} FourLetters(w: Digit, x: Digit, y: Digit, z: Digit)
    ensures Letters([w, x, y, z]) == [Letter(w), Letter(x), Letter(y), Letter(z)]
    ensures Letters([w, x, y]) == [Letter(w), Letter(x), Letter(y)] && Letters([w, x]) == [Letter(w), Letter(x)]
  {
    LettersCons(w, [x, y, z]);
    LettersCons(x, [y, z]);
    LettersCons(y, [z]);
    LettersCons(z, []);
    LettersCons(w, [x, y]);
    LettersCons(x, [y]);
    LettersCons(y, []);
    LettersCons(w, [x]);
    LettersCons(x, []);
  }

  lemma {:induction false} LettersCons(w: Digit, ds: seq<Digit>)
    ensures Letters([w] + ds) == [Letter(w)] + Letters(ds)
  {
    assert ([w] + ds)[1..] == ds;
  }

  /** The body of base64_e's loop. */
  method PutGroup(a: Octet, b: Octet, c: Octet, e: array<char>, to: nat)
    requires to + 4 <= e.Length
    modifies e
    ensures e[..to + 4] == old(e[..to]) + Letters(Split(a, b, c))
  {
    var s := Split(a, b, c);
    FourLetters(s[0], s[1], s[2], s[3]);
    assert s == [s[0], s[1], s[2], s[3]];
    ghost var head := e[..to];
    e[to] := Letter(a / 4);
    e[to + 1] := Letter(a % 4 * 16 + b / 16);
    e[to + 2] := Letter(b % 16 * 4 + c / 64);
    e[to + 3] := Letter(c % 64);
    assert e[..to + 4] == head + [e[to], e[to + 1], e[to + 2], e[to + 3]];
  }

  /** `done` is the encoding of the first `at` octets. */
  predicate EncodedTo(d: seq<Octet>, at: nat, done: string) {
    at <= |d| && done + Encoded(d[at..]) == Encoded(d)
  }

  lemma {:induction false} NextGroup(d: seq<Octet>, at: nat, done: string)
    requires at + 3 <= |d| && EncodedTo(d, at, done)
    ensures EncodedTo(d, at + 3, done + Letters(Split(d[at], d[at + 1], d[at + 2])))
  {
    assert d[at..][3..] == d[at + 3..];
    var four := Letters(Split(d[at], d[at + 1], d[at + 2]));
    assert (done + four) + Encoded(d[at + 3..]) == done + (four + Encoded(d[at + 3..]));
  }

  /** base64_e. */
  method Base64E(d: seq<Octet>, e: array<char>)
    requires e.Length >= SizeE(|d|)
    modifies e
    ensures e[..SizeE(|d|) - 1] == Encoded(d) && e[SizeE(|d|) - 1] == '\0'
  {
    var i, at, to := |d| / 3, 0, 0;
    ghost var done := [];
    assert d[0..] == d;
    while i > 0
      invariant 0 <= i && at <= |d| && |d| - at == 3 * i + |d| % 3
      invariant to <= e.Length && e[..to] == done && EncodedTo(d, at, done)
    {
      PutGroup(d[at], d[at + 1], d[at + 2], e, to);
      NextGroup(d, at, done);
      done := done + Letters(Split(d[at], d[at + 1], d[at + 2]));
      at, to, i := at + 3, to + 4, i - 1;
    }
    LastLetters(d[at..], e, to);
    AllEncoded(d, at, done, e[..]);
  }

  lemma {:induction false} AllEncoded(d: seq<Octet>, at: nat, done: string, s: string)
    requires EncodedTo(d, at, done) && done <= s
    requires var last := Encoded(d[at..]); |done| + |last| < |s| && s[|done|..|done| + |last|] == last
    ensures SizeE(|d|) <= |s| && s[..SizeE(|d|) - 1] == Encoded(d)
  {
    var n := |done| + |Encoded(d[at..])|;
    assert s[..n] == s[..|done|] + s[|done|..n];
    assert n == |Encoded(d)|;
  }

  /** The switch on the octets left over. */
  method LastLetters(d: seq<Octet>, e: array<char>, to: nat)
    requires |d| < 3 && to + |Encoded(d)| < e.Length
    modifies e
    ensures e[..to] == old(e[..to])
    ensures e[to..to + |Encoded(d)|] == Encoded(d) && e[to + |Encoded(d)|] == '\0'
  {
    if d == [] {
      e[to] := '\0';
      return;
    }
    var s := Split(d[0], if |d| == 2 then d[1] else 0, 0);
    FourLetters(s[0], s[1], s[2], s[3]);
    e[to] := Letter(s[0]);
    e[to + 1] := Letter(s[1]);
    if |d| == 2 {
      assert s[..3] == [s[0], s[1], s[2]];
      e[to + 2] := Letter(s[2]);
    } else {
      assert s[..2] == [s[0], s[1]];
      e[to + 2] := '=';
    }
    e[to + 3] := '=';
    e[to + 4] := '\0';
    assert e[to..to + 4] == [e[to], e[to + 1], e[to + 2], e[to + 3]];
  }

  lemma {:induction false} FourMeanings(e: string)
    requires |e| == 4
    ensures Meanings(e) == [Meaning(e[0]), Meaning(e[1]), Meaning(e[2]), Meaning(e[3])]
  {
    MeaningsCons(e);
    MeaningsCons(e[1..]);
    MeaningsCons(e[2..]);
    MeaningsCons(e[3..]);
    assert e[1..][1..] == e[2..] && e[2..][1..] == e[3..] && e[3..][1..] == [];
  }

  lemma {:induction false} MeaningsCons(e: string)
    requires e != []
    ensures Meanings(e) == [Meaning(e[0])] + Meanings(e[1..])
  {
  }

  /** The body of base64_d's loop. */
  method PutOctets(e: string, d: array<Octet>, to: nat)
    requires |e| == 4 && to + 3 <= d.Length
    modifies d
    ensures d[..to + 3] == old(d[..to]) + Join(Meanings(e))
  {
    FourMeanings(e);
    ghost var head := d[..to];
    var w, x, y, z := Meaning(e[0]) as int, Meaning(e[1]) as int, Meaning(e[2]) as int, Meaning(e[3]) as int;
    d[to] := w * 4 + x / 16;
    d[to + 1] := x % 16 * 16 + y / 4;
    d[to + 2] := y % 4 * 64 + z;
    assert d[..to + 3] == head + [d[to], d[to + 1], d[to + 2]];
  }

  /** base64_d. */
  method Base64D(e: string, d: array<Octet>)
    requires |e| % 4 == 0 && d.Length >= SizeD(|e|)
    modifies d
    ensures d[..SizeD(|e|)] == Decoded(e)
  {
    var i, at, to := |e| / 4, 0, 0;
    while i > 0
      invariant 0 <= i && at <= |e| && |e| - at == 4 * i
      invariant to <= d.Length && d[..to] + Decoded(e[at..]) == Decoded(e)
    {
      ghost var head := d[..to];
      PutOctets(e[at..at + 4], d, to);
      NextOctets(e, at, head);
      at, to, i := at + 4, to + 3, i - 1;
    }
    assert Decoded(e[at..]) == [];
  }

  lemma {:induction false} NextOctets(e: string, at: nat, head: seq<Octet>)
    requires at + 4 <= |e|
    ensures head + Decoded(e[at..]) == head + Join(Meanings(e[at..at + 4])) + Decoded(e[at + 4..])
  {
    assert e[at..][..4] == e[at..at + 4] && e[at..][4..] == e[at + 4..];
  }
}
