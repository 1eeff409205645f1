/** argcargv.c: a line cut into its words, in place. */
module Argcargvs {

  /* ---- what the words of a line are ---- */

  /** The number of backslashes just before `i`. */
  function Slashes(s: string, i: nat): nat
    requires i <= |s|
  {
    if i > 0 && s[i - 1] == '\\' then 1 + Slashes(s, i - 1) else 0
  }

  /** Tabs and newlines separate words, and so do spaces that no backslash escapes. */
  predicate Separates(s: string, i: nat)
    requires i < |s|
  {
    s[i] == '\t' || s[i] == '\n' || (s[i] == ' ' && Slashes(s, i) % 2 == 0)
  }

  /** The words of a beginning of a line, and whether it ends inside the last one. */
  datatype Split = Split(words: seq<string>, inWord: bool)

  function SplitTo(s: string, i: nat): (r: Split)
    requires i <= |s|
    ensures r.inWord ==> r.words != []
  {
    if i == 0 then Split([], false)
    else
      var (p, c) := (SplitTo(s, i - 1), s[i - 1]);
      if Separates(s, i - 1) then Split(p.words, false)
      else if p.inWord then
        var n := |p.words| - 1;
        Split(p.words[n := p.words[n] + [c]], true)
      else Split(p.words + [[c]], true)
  }

  function Words(s: string): seq<string> {
    SplitTo(s, |s|).words
  }

  /* ---- the words in a buffer ---- */

  /** The word `w` starts at `start`, before `i`: it ends there with a NUL, or is still open. */
  predicate WordAt(a: string, start: int, w: string, open: bool, i: nat) {
    && 0 <= start && start + |w| <= i <= |a| && w != []
    && a[start..start + |w|] == w && '\0' !in w
    && if open then start + |w| == i else start + |w| < i && a[start + |w|] == '\0'
  }

  predicate WordsAt(a: string, starts: seq<int>, sp: Split, i: nat) {
    && |starts| == |sp.words|
    && forall k :: 0 <= k < |starts| ==> WordAt(a, starts[k], sp.words[k], k == |starts| - 1 && sp.inWord, i)
  }

  lemma {:induction false} CutAt(a: string, starts: seq<int>, sp: Split, i: nat, a': string)
    requires WordsAt(a, starts, sp, i) && i < |a|
    requires a' == if sp.inWord then a[i := '\0'] else a
    ensures WordsAt(a', starts, Split(sp.words, false), i + 1)
  {
    forall k | 0 <= k < |starts|
      ensures WordAt(a', starts[k], sp.words[k], false, i + 1)
    {
      assert WordAt(a, starts[k], sp.words[k], k == |starts| - 1 && sp.inWord, i);
      assert a'[starts[k]..starts[k] + |sp.words[k]|] == a[starts[k]..starts[k] + |sp.words[k]|];
    }
  }

  lemma {:induction false} LongerAt(a: string, starts: seq<int>, sp: Split, i: nat)
    requires WordsAt(a, starts, sp, i) && i < |a| && sp.inWord && sp.words != [] && a[i] != '\0'
    ensures var n := |sp.words| - 1;
            WordsAt(a, starts, Split(sp.words[n := sp.words[n] + [a[i]]], true), i + 1)
  {
    var n := |sp.words| - 1;
    var w := sp.words[n];
    assert a[starts[n]..starts[n] + |w| + 1] == w + [a[i]];
    forall k | 0 <= k < n
      ensures WordAt(a, starts[k], sp.words[k], false, i + 1)
    {
      assert WordAt(a, starts[k], sp.words[k], false, i);
    }
  }

  lemma {:induction false} AnotherAt(a: string, starts: seq<int>, sp: Split, i: nat)
    requires WordsAt(a, starts, sp, i) && i < |a| && !sp.inWord && a[i] != '\0'
    ensures WordsAt(a, starts + [i], Split(sp.words + [[a[i]]], true), i + 1)
  {
    var starts', words' := starts + [i], sp.words + [[a[i]]];
    forall k | 0 <= k < |starts'|
      ensures WordAt(a, starts'[k], words'[k], k == |starts'| - 1, i + 1)
    {
      if k < |starts| {
        assert WordAt(a, starts[k], sp.words[k], false, i);
      } else {
        assert a[i..i + 1] == [a[i]];
      }
    }
  }

  /** So far the buffer differs from the line only by NULs in place of separators. */
  predicate CutUpTo(a: string, s: string, i: nat) {
    && i <= |s| <= |a|
    && (forall k :: 0 <= k < i ==> a[k] == s[k] || (a[k] == '\0' && Separates(s, k)))
    && (forall k :: i <= k < |s| ==> a[k] == s[k])
  }

  const ACV_ARGC := 10

  class Acav {
    var argv: array<int>      // acv_argv: offsets into the line, -1 for NULL

    constructor ()
      ensures fresh(argv) && argv.Length == ACV_ARGC
    {
      argv := new int[ACV_ARGC];
    }

    /** Add a word; the array grows when it is full, so that the NULL always fits. */
    method Push(ac: nat, start: int)
      requires ac < argv.Length
      modifies this, argv
      ensures ac + 1 < argv.Length && argv[..ac + 1] == old(argv[..ac]) + [start]
      ensures argv == old(argv) || fresh(argv)
    {
      argv[ac] := start;
      assert argv[..ac + 1] == argv[..ac] + [start];
      if ac + 1 >= argv.Length {
        var larger := new int[argv.Length + ACV_ARGC];
        var k := 0;
        while k < argv.Length
          invariant 0 <= k <= argv.Length && larger[..k] == argv[..k]
          modifies larger
        {
          larger[k] := argv[k];
          k := k + 1;
        }
        assert larger[..ac + 1] == argv[..ac + 1];
        argv := larger;
      }
    }

    /** The count of backslashes before a space, in the line as it has been cut so far. */
    method CountSlashes(line: array<char>, i: nat, ghost s: string) returns (slashes: nat)
      requires CutUpTo(line[..], s, i)
      ensures slashes == Slashes(s, i)
    {
      slashes := 0;
      var slash := i;
      while slash > 0 && line[slash - 1] == '\\'
        invariant 0 <= slash <= i && slashes + Slashes(s, slash) == Slashes(s, i)
      {
        assert line[..][slash - 1] == line[slash - 1];
        slashes := slashes + 1;
        slash := slash - 1;
      }
      if slash > 0 {
        assert line[..][slash - 1] == line[slash - 1];
      }
    }

    /** acav_parse: the line is in `line[..n]`, with a NUL after it. */
    method Parse(line: array<char>, n: nat) returns (ac: nat)
      requires n < line.Length && line[n] == '\0' && forall k :: 0 <= k < n ==> line[k] != '\0'
      requires argv.Length > 0
      modifies this, argv, line
      ensures ac < argv.Length && argv[ac] == -1 && (argv == old(argv) || fresh(argv))
      ensures ac == |Words(old(line[..n]))|
      ensures WordsAt(line[..], argv[..ac], Split(Words(old(line[..n])), false), n + 1)
    {
      ghost var s := line[..n];
      var i, word := 0, false;
      ac := 0;
      while i < n
        invariant 0 <= i <= n && ac < argv.Length && (argv == old(argv) || fresh(argv))
        invariant CutUpTo(line[..], s, i) && line[n] == '\0'
        invariant word == SplitTo(s, i).inWord && WordsAt(line[..], argv[..ac], SplitTo(s, i), i)
      {
        ac, word := Step(line, i, ac, word, s);
        i := i + 1;
      }
      ghost var a := line[..];
      CutAt(a, argv[..ac], SplitTo(s, n), n, if word then a[n := '\0'] else a);
      assert a[n := '\0'] == a;
      ghost var starts := argv[..ac];
      argv[ac] := -1;
      assert argv[..ac] == starts;
    }

    /** The switch on one character. */
    method Step(line: array<char>, i: nat, ac0: nat, word0: bool, ghost s: string) returns (ac: nat, word: bool)
      requires i < |s| < line.Length && ac0 < argv.Length && s[i] != '\0'
      requires CutUpTo(line[..], s, i)
      requires word0 == SplitTo(s, i).inWord && WordsAt(line[..], argv[..ac0], SplitTo(s, i), i)
      modifies this, argv, line
      ensures ac < argv.Length && (argv == old(argv) || fresh(argv))
      ensures CutUpTo(line[..], s, i + 1) && line[|s|] == old(line[|s|])
      ensures word == SplitTo(s, i + 1).inWord && WordsAt(line[..], argv[..ac], SplitTo(s, i + 1), i + 1)
    {
      ac, word := ac0, word0;
      ghost var a, sp := line[..], SplitTo(s, i);
      assert line[i] == a[i] == s[i];
      var separator := line[i] == '\t' || line[i] == '\n';
      if line[i] == ' ' {
        var slashes := CountSlashes(line, i, s);
        separator := slashes % 2 == 0;
      }
      assert separator == Separates(s, i);
      if separator {
        if word {
          line[i] := '\0';
          word := false;
        }
        CutAt(a, argv[..ac], sp, i, line[..]);
      } else if !word {
        AnotherAt(a, argv[..ac], sp, i);
        Push(ac, i);
        ac := ac + 1;
        word := true;
      } else {
        LongerAt(a, argv[..ac], sp, i);
      }
    }
  }
}
