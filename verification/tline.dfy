/** A transcript line as text: what t_print writes is what transcript_parse reads. */
module Tlines {
  import opened Codes
  import opened Argcargvs

  /* ---- numbers ---- */

  function Digit(d: nat): char
    requires d < 10
  {
    ('0' as int + d) as char
  }

  predicate IsDigit(c: char, base: nat) {
    '0' as int <= c as int < '0' as int + base
  }

  lemma {:induction false} Quotient(n: nat, base: nat)
    requires base == 8 || base == 10
    ensures 0 <= n % base < base && 0 <= n / base && (n > 0 ==> n / base < n)
  {
    if base == 8 {
      assert n == 8 * (n / 8) + n % 8;
    } else {
      assert n == 10 * (n / 10) + n % 10;
    }
  }

  function Digits(n: nat, base: nat): (r: string)
    requires base == 8 || base == 10
    ensures r != [] && forall i :: 0 <= i < |r| ==> IsDigit(r[i], base)
  {
    Quotient(n, base);
    (if n < base then [] else Digits(n / base, base)) + [Digit(n % base)]
  }

  /** "%d". */
  function Decimal(n: int): (r: string)
    ensures r != []
  {
    if n < 0 then "-" + Digits(-n, 10) else Digits(n, 10)
  }

  /** Owners, times and sizes are decimal. */
  lemma {:induction false} DecimalIs(n: nat, x: nat)
    requires x < 10
    ensures Decimal(10 * n + x) == (if n == 0 then [] else Decimal(n)) + [('0' as int + x) as char]
    ensures n > 0 ==> Decimal(0 - n) == "-" + Decimal(n)
  {
    assert (10 * n + x) / 10 == n && (10 * n + x) % 10 == x;
  }

  function Repeat(c: char, n: nat): (r: string)
    ensures |r| == n && forall i :: 0 <= i < n ==> r[i] == c
  {
    seq(n, _ => c)
  }

  /** "%.4lo". */
  function Octal(n: nat): (r: string)
    ensures |r| >= 4
  {
    var d := Digits(n, 8);
    if |d| < 4 then Repeat('0', 4 - |d|) + d else d
  }

  /** Modes are octal, in four digits or more. */
  lemma {:induction false} OctalIs(n: nat, x: nat)
    requires x < 8
    ensures n >= 0x200 ==> Octal(8 * n + x) == Octal(n) + [('0' as int + x) as char]
    ensures Octal(x) == "000" + [('0' as int + x) as char]
  {
    assert (8 * n + x) / 8 == n && (8 * n + x) % 8 == x;
    OctalLength(n);
  }

  lemma {:induction false} OctalLength(n: nat)
    ensures n >= 8 ==> |Digits(n, 8)| == 1 + |Digits(n / 8, 8)|
    ensures n >= 0x200 ==> |Digits(n, 8)| >= 4
  {
    if n >= 0x200 {
      OctalLength(n / 8);
      OctalLength(n / 8 / 8);
    }
  }

  /** The value of the digits from `i` on, after `acc`: the loop of strtol. */
  function Leading(s: string, i: nat, base: nat, acc: nat): nat
    requires i <= |s|
    decreases |s| - i
  {
    if i < |s| && IsDigit(s[i], base) then
      Leading(s, i + 1, base, acc * base + (s[i] as int - '0' as int))
    else acc
  }

  /** strtol and its kin, on a word: an optional '-' and digits. */
  function Strtol(s: string, base: nat): int {
    if s != [] && s[0] == '-' then 0 - Leading(s, 1, base, 0) else Leading(s, 0, base, 0)
  }

  lemma {:induction false} DigitsRead(n: nat, base: nat)
    requires base == 8 || base == 10
    ensures Leading(Digits(n, base), 0, base, 0) == n
  {
    var d := Digit(n % base);
    var front := if n < base then [] else Digits(n / base, base);
    var s := front + [d];
    assert Digits(n, base) == s && s[|front|] == d;
    if n >= base {
      DigitsRead(n / base, base);
      assert front + [] == front;
    }
    LeadingPrefix(front, [d], 0, base, 0);
    var before := if n < base then 0 else n / base;
    assert Leading(s, |front| + 1, base, before * base + n % base) == before * base + n % base;
  }

  /** The digits of a beginning are read first. */
  lemma {:induction false} LeadingPrefix(s: string, t: string, i: nat, base: nat, acc: nat)
    requires i <= |s| && forall k :: i <= k < |s| ==> IsDigit(s[k], base)
    ensures Leading(s + t, i, base, acc) == Leading(s + t, |s|, base, Leading(s, i, base, acc))
    decreases |s| - i
  {
    if i < |s| {
      assert (s + t)[i] == s[i];
      LeadingPrefix(s, t, i + 1, base, acc * base + (s[i] as int - '0' as int));
    }
  }

  lemma {:induction false} LeadingDigits(p: string, n: nat, base: nat)
    requires base == 8 || base == 10
    ensures Leading(p + Digits(n, base), |p|, base, 0) == n
  {
    LeadingTail(p, Digits(n, base), base);
    DigitsRead(n, base);
  }

  lemma {:induction false} LeadingTail(p: string, d: string, base: nat)
    ensures Leading(p + d, |p|, base, 0) == Leading(d, 0, base, 0)
  {
    LeadingShift(p, d, 0, base, 0);
  }

  lemma {:induction false} LeadingShift(p: string, d: string, i: nat, base: nat, acc: nat)
    requires i <= |d|
    ensures Leading(p + d, |p| + i, base, acc) == Leading(d, i, base, acc)
    decreases |d| - i
  {
    if i < |d| {
      assert (p + d)[|p| + i] == d[i];
      if IsDigit(d[i], base) {
        LeadingShift(p, d, i + 1, base, acc * base + (d[i] as int - '0' as int));
      }
    }
  }

  lemma {:induction false} DecimalRead(n: int)
    ensures Strtol(Decimal(n), 10) == n
  {
    if n < 0 {
      LeadingDigits("-", -n, 10);
    } else {
      LeadingDigits("", n, 10);
      assert "" + Digits(n, 10) == Digits(n, 10);
    }
  }

  lemma {:induction false} ZerosRead(z: string, t: string, i: nat, base: nat)
    requires i <= |z| && base > 0 && forall k :: 0 <= k < |z| ==> z[k] == '0'
    ensures Leading(z + t, i, base, 0) == Leading(z + t, |z|, base, 0)
    decreases |z| - i
  {
    if i < |z| {
      assert (z + t)[i] == '0';
      ZerosRead(z, t, i + 1, base);
    }
  }

  lemma {:induction false} OctalRead(n: nat)
    ensures Strtol(Octal(n), 8) == n
  {
    var d := Digits(n, 8);
    var z := if |d| < 4 then Repeat('0', 4 - |d|) else "";
    assert Octal(n) == z + d;
    ZerosRead(z, d, 0, 8);
    LeadingDigits(z, n, 8);
  }

  /* ---- words that stay whole ---- */

  /** No character of `w` separates, and a space after it will. */
  predicate Clean(w: string) {
    && w != [] && Slashes(w, |w|) % 2 == 0
    && forall i :: 0 <= i < |w| ==> !Separates(w, i)
  }

  predicate Bare(w: string) {
    w != [] && forall i :: 0 <= i < |w| ==> w[i] != ' ' && w[i] != '\t' && w[i] != '\n' && w[i] != '\\'
  }

  lemma {:induction false} BareIsClean(w: string)
    requires Bare(w)
    ensures Clean(w)
  {
  }

  lemma {:induction false} SlashesAppend(s: string, t: string, i: nat)
    requires i <= |t| && (s != [] ==> s[|s| - 1] != '\\')
    ensures Slashes(s + t, |s| + i) == Slashes(t, i)
  {
    if i > 0 {
      assert (s + t)[|s| + i - 1] == t[i - 1];
      SlashesAppend(s, t, i - 1);
    }
  }

  lemma {:induction false} SlashesPrefix(s: string, t: string, i: nat)
    requires i <= |s|
    ensures Slashes(s + t, i) == Slashes(s, i)
  {
    if i > 0 {
      assert (s + t)[i - 1] == s[i - 1];
      SlashesPrefix(s, t, i - 1);
    }
  }

  /** Nothing in an escape separates, and an even number of backslashes is left behind. */
  lemma {:induction false} EscapeIsClean(s: string, c: char, shell: bool)
    requires Slashes(s, |s|) % 2 == 0
    ensures var t := s + Escape(c, shell);
            Slashes(t, |t|) % 2 == 0 && forall i :: |s| <= i < |t| ==> !Separates(t, i)
  {
    var e := Escape(c, shell);
    var t := s + e;
    SlashesPrefix(s, e, |s|);
    assert t[|s|] == e[0];
    if |e| == 2 {
      assert e[0] == '\\' && t[|s| + 1] == e[1];
      assert Slashes(t, |s| + 1) == 1 + Slashes(t, |s|);
    }
    if c == '\\' {
      assert Slashes(t, |s| + 2) == 2 + Slashes(t, |s|);
    }
  }

  /** The encoders make one clean word of any path. */
  lemma {:induction false} EncodedIsClean(p: string, shell: bool)
    requires p != []
    ensures Clean(Encoded(p, shell))
  {
    var front, c := p[..|p| - 1], p[|p| - 1];
    var s, e := Encoded(front, shell), Escape(c, shell);
    if front != [] {
      EncodedIsClean(front, shell);
    }
    EscapeIsClean(s, c, shell);
    forall i | 0 <= i < |s|
      ensures !Separates(s + e, i)
    {
      SlashesPrefix(s, e, i);
      assert (s + e)[i] == s[i] && !Separates(s, i);
    }
  }

  /* ---- fields ---- */

  /** A word with the blanks around it, and the character after them. */
  datatype Field = Field(before: nat, word: string, after: nat, sep: char)

  predicate FieldOk(f: Field) {
    Clean(f.word) && (f.sep == ' ' || f.sep == '\t' || f.sep == '\n')
  }

  function FieldText(f: Field): string {
    Repeat(' ', f.before) + f.word + Repeat(' ', f.after) + [f.sep]
  }

  function Text(fs: seq<Field>): string {
    if fs == [] then [] else Text(fs[..|fs| - 1]) + FieldText(fs[|fs| - 1])
  }

  function WordsIn(fs: seq<Field>): (r: seq<string>)
    ensures |r| == |fs| && forall i :: 0 <= i < |r| ==> r[i] == fs[i].word
  {
    seq(|fs|, i requires 0 <= i < |fs| => fs[i].word)
  }

  /** A new word may start here. */
  predicate Ready(s: string) {
    !SplitTo(s, |s|).inWord && (s != [] ==> s[|s| - 1] != '\\')
  }

  lemma {:induction false} SplitPrefix(s: string, t: string, i: nat)
    requires i <= |s|
    ensures SplitTo(s + t, i) == SplitTo(s, i)
  {
    if i > 0 {
      assert (s + t)[i - 1] == s[i - 1];
      SlashesPrefix(s, t, i - 1);
      SplitPrefix(s, t, i - 1);
    }
  }

  lemma {:induction false} BlankAfter(s: string, c: char)
    requires c == ' ' || c == '\t' || c == '\n'
    requires Slashes(s, |s|) % 2 == 0
    ensures Ready(s + [c]) && Words(s + [c]) == Words(s)
  {
    SplitPrefix(s, [c], |s|);
    SlashesPrefix(s, [c], |s|);
  }

  lemma {:induction false} BlanksAfter(s: string, n: nat)
    requires n > 0 && Slashes(s, |s|) % 2 == 0
    ensures Ready(s + Repeat(' ', n)) && Words(s + Repeat(' ', n)) == Words(s)
  {
    if n == 1 {
      BlankAfter(s, ' ');
      assert Repeat(' ', 1) == [' '];
    } else {
      BlanksAfter(s, n - 1);
      var t := s + Repeat(' ', n - 1);
      assert t[|t| - 1] == ' ';
      BlankAfter(t, ' ');
      assert t + [' '] == s + Repeat(' ', n);
    }
  }

  lemma {:induction false} WordAfter(s: string, w: string, k: nat)
    requires Ready(s) && Clean(w) && 0 < k <= |w|
    ensures SplitTo(s + w, |s| + k) == Split(Words(s) + [w[..k]], true)
  {
    SlashesAppend(s, w, k - 1);
    assert (s + w)[|s| + k - 1] == w[k - 1];
    assert Separates(s + w, |s| + k - 1) == Separates(w, k - 1);
    if k == 1 {
      SplitPrefix(s, w, |s|);
      assert w[..1] == [w[0]];
    } else {
      WordAfter(s, w, k - 1);
      assert w[..k] == w[..k - 1] + [w[k - 1]];
      var ws := Words(s) + [w[..k - 1]];
      assert ws[|ws| - 1 := w[..k]] == Words(s) + [w[..k]];
    }
  }

  lemma {:induction false} BlanksBefore(s: string, n: nat)
    requires Ready(s)
    ensures Ready(s + Repeat(' ', n)) && Words(s + Repeat(' ', n)) == Words(s)
  {
    if n > 0 {
      BlanksAfter(s, n);
    } else {
      assert s + Repeat(' ', n) == s;
    }
  }

  /** A word, its padding and the character that ends it. */
  lemma {:induction false} WordThenBlanks(s: string, w: string, n: nat, sep: char)
    requires Ready(s) && Clean(w) && (sep == ' ' || sep == '\t' || sep == '\n')
    ensures var t := s + w + Repeat(' ', n) + [sep];
            Ready(t) && Words(t) == Words(s) + [w]
  {
    WordAfter(s, w, |w|);
    assert w[..|w|] == w;
    SlashesAppend(s, w, |w|);
    if n > 0 {
      BlanksAfter(s + w, n);
    } else {
      assert s + w + Repeat(' ', n) == s + w;
    }
    BlankAfter(s + w + Repeat(' ', n), sep);
  }

  lemma {:induction false} FieldAfter(s: string, f: Field)
    requires Ready(s) && FieldOk(f)
    ensures Ready(s + FieldText(f)) && Words(s + FieldText(f)) == Words(s) + [f.word]
  {
    BlanksBefore(s, f.before);
    WordThenBlanks(s + Repeat(' ', f.before), f.word, f.after, f.sep);
    assert s + FieldText(f) == s + Repeat(' ', f.before) + f.word + Repeat(' ', f.after) + [f.sep];
  }

  lemma {:induction false} FieldsAreWords(fs: seq<Field>)
    requires forall i :: 0 <= i < |fs| ==> FieldOk(fs[i])
    ensures Ready(Text(fs)) && Words(Text(fs)) == WordsIn(fs)
  {
    if fs != [] {
      FieldsAreWords(fs[..|fs| - 1]);
      FieldAfter(Text(fs[..|fs| - 1]), fs[|fs| - 1]);
    }
  }
}
