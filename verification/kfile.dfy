/** command.c, read_kfile: the names a client may ask for are those that its command file
    and the command files it includes list. */
module Kfiles {
  import opened Paths

  /** The tokens of a line. */
  type Tokens = seq<Path>

  /** The files under command/, each a sequence of lines. */
  type Commands = map<Path, seq<Tokens>>

  /* ---- what the list should hold ---- */

  /** Not read: an empty line, a comment, or a line with a "-". */
  predicate PassedOver(t: Tokens) {
    t == [] || (t[0] != [] && (t[0][0] == '#' || t[0][0] == '-'))
  }

  /** Two tokens, the first of which starts with the letter. */
  predicate Starts(t: Tokens, letter: char) {
    |t| == 2 && t[0] != [] && t[0][0] == letter
  }

  predicate CommandLine(t: Tokens, n: Path) {
    Starts(t, 'k') && t[1] == n
  }

  /** A positive or a negative transcript. */
  predicate TranscriptLine(t: Tokens, n: Path) {
    (Starts(t, 'p') || Starts(t, 'n')) && t[1] == n
  }

  /** Lines for special files and for exclude patterns name nothing that is granted here. */
  predicate GoodLine(t: Tokens) {
    PassedOver(t) || Starts(t, 'k') || Starts(t, 'p') || Starts(t, 'n') || Starts(t, 's') || Starts(t, 'x')
  }

  /** The command file `f` includes `g`. */
  predicate Includes(files: Commands, f: Path, g: Path) {
    f in files && exists i :: 0 <= i < |files[f]| && CommandLine(files[f][i], g)
  }

  predicate Lists(files: Commands, f: Path, n: Path) {
    f in files &&
    exists i :: 0 <= i < |files[f]| && (CommandLine(files[f][i], n) || TranscriptLine(files[f][i], n))
  }

  /** A sequence of command files, each including the next. */
  predicate Chain(files: Commands, fs: seq<Path>) {
    |fs| > 0 && forall i :: 0 < i < |fs| ==> Includes(files, fs[i - 1], fs[i])
  }

  ghost predicate Reachable(files: Commands, base: Path, f: Path) {
    exists fs :: Chain(files, fs) && fs[0] == base && fs[|fs| - 1] == f
  }

  /** `n` is listed by the base file or by one it includes, directly or not. */
  ghost predicate Granted(files: Commands, base: Path, n: Path) {
    exists f :: Reachable(files, base, f) && Lists(files, f, n)
  }

  /** A file read for `base` includes `n`. */
  ghost predicate IsCommandFile(files: Commands, base: Path, n: Path) {
    exists f :: Reachable(files, base, f) && Includes(files, f, n)
  }

  predicate Mentions(files: Commands, f: Path, n: Path) {
    f in files && exists i :: 0 <= i < |files[f]| && TranscriptLine(files[f][i], n)
  }

  /** A file read for `base` lists `n` as a transcript. */
  ghost predicate IsTranscript(files: Commands, base: Path, n: Path) {
    exists f :: Reachable(files, base, f) && Mentions(files, f, n)
  }

  /** To the files read for `base`, no name is both a command file and a transcript. */
  ghost predicate NoClash(files: Commands, base: Path) {
    forall n :: !(IsCommandFile(files, base, n) && IsTranscript(files, base, n))
  }

  predicate Good(files: Commands, f: Path) {
    f in files && forall i :: 0 <= i < |files[f]| ==> GoodLine(files[f][i])
  }

  /* ---- reading ---- */

  datatype Meaning = Nothing | Wrong | Include(name: Path) | Names(name: Path)

  /** The switch on the first letter. */
  function Meant(t: Tokens): Meaning {
    if t == [] then Nothing
    else if t[0] != [] && (t[0][0] == '#' || t[0][0] == '-') then Nothing
    else if |t| != 2 || t[0] == [] then Wrong
    else if t[0][0] == 'k' then Include(t[1])
    else if t[0][0] == 'p' || t[0][0] == 'n' then Names(t[1])
    else if t[0][0] == 's' || t[0][0] == 'x' then Nothing
    else Wrong
  }

  lemma {:induction false} MeantIs(t: Tokens)
    ensures match Meant(t)
            case Wrong => !GoodLine(t)
            case Nothing => GoodLine(t) && forall n :: !CommandLine(t, n) && !TranscriptLine(t, n)
            case Include(g) => GoodLine(t) && forall n :: (CommandLine(t, n) <==> n == g) && !TranscriptLine(t, n)
            case Names(g) => GoodLine(t) && forall n :: (TranscriptLine(t, n) <==> n == g) && !CommandLine(t, n)
  {
  }

  function Universe(files: Commands): set<Path> {
    set f, i | f in files && 0 <= i < |files[f]| && |files[f][i]| == 2 :: files[f][i][1]
  }

  /** read_kfile from line `i` of `f` on: whether it succeeds, and the list. It ends because
      every recursion first adds a name to the list. */
  function Read(files: Commands, f: Path, i: nat, access: set<Path>): (r: (bool, set<Path>))
    requires f in files ==> i <= |files[f]|
    ensures access <= r.1
    decreases Universe(files) - access, if f in files then |files[f]| - i else 0
  {
    if f !in files then (false, access)
    else if i == |files[f]| then (true, access)
    else
      match Meant(files[f][i])
      case Nothing => Read(files, f, i + 1, access)
      case Wrong => (false, access)
      case Include(name) =>
        if name in access then Read(files, f, i + 1, access)
        else
          assert name in Universe(files);
          var (ok, access') := Read(files, name, 0, access + {name});
          if ok then Read(files, f, i + 1, access') else (false, access')
      case Names(name) =>
        assert name in Universe(files);
        Read(files, f, i + 1, access + {name})
  }

  /** Reading, with the letter under which each name was first met: whether as a command file,
      which is then read, or as a transcript, which is not. */
  function FirstAs(files: Commands, f: Path, i: nat, first: map<Path, bool>): (r: (bool, map<Path, bool>))
    requires f in files ==> i <= |files[f]|
    ensures first.Keys <= r.1.Keys && forall n :: n in first ==> r.1[n] == first[n]
    ensures (r.0, r.1.Keys) == Read(files, f, i, first.Keys)
    decreases Universe(files) - first.Keys, if f in files then |files[f]| - i else 0
  {
    if f !in files then (false, first)
    else if i == |files[f]| then (true, first)
    else
      match Meant(files[f][i])
      case Nothing => FirstAs(files, f, i + 1, first)
      case Wrong => (false, first)
      case Include(name) =>
        if name in first then FirstAs(files, f, i + 1, first)
        else
          assert name in Universe(files) && first[name := true].Keys == first.Keys + {name};
          var (ok, first') := FirstAs(files, name, 0, first[name := true]);
          if ok then FirstAs(files, f, i + 1, first') else (false, first')
      case Names(name) =>
        assert name in first ==> first.Keys + {name} == first.Keys;
        assert name !in first ==> name in Universe(files) && first[name := false].Keys == first.Keys + {name};
        FirstAs(files, f, i + 1, if name in first then first else first[name := false])
  }

  const UNREAD: map<Path, bool> := map[]

  lemma {:induction false} FirstAsReads(files: Commands, base: Path)
    ensures var (ok, first) := FirstAs(files, base, 0, UNREAD); (ok, first.Keys) == Read(files, base, 0, {})
  {
    assert UNREAD.Keys == {};
  }

  /** The command file `g`, not the base file, is listed as a transcript before it is listed
      as a command file, and so is not read. */
  ghost predicate Shadowed(files: Commands, base: Path, g: Path) {
    var (_, first) := FirstAs(files, base, 0, UNREAD);
    g != base && IsCommandFile(files, base, g) && g in first && !first[g]
  }

  ghost predicate NoShadow(files: Commands, base: Path) {
    forall g :: !Shadowed(files, base, g)
  }

  /** The names on the first `k` lines of `f` are in the list. */
  predicate ListedUpTo(files: Commands, f: Path, k: nat, access: set<Path>)
    requires f in files && k <= |files[f]|
  {
    forall i :: 0 <= i < k ==>
      (Meant(files[f][i]).Include? || Meant(files[f][i]).Names? ==> Meant(files[f][i]).name in access)
  }

  predicate Complete(files: Commands, f: Path, access: set<Path>) {
    f in files && ListedUpTo(files, f, |files[f]|, access)
  }

  /** What the list says of a name: a command file has been read to its end, and a transcript
      is one to some file that is read. */
  ghost predicate FirstOk(files: Commands, base: Path, n: Path, first: map<Path, bool>)
    requires n in first
  {
    if first[n] then Good(files, n) && Complete(files, n, first.Keys) else IsTranscript(files, base, n)
  }

  /** Every name that reading `f` adds belongs there, and is what the list says. */
  ghost predicate Added(files: Commands, base: Path, f: Path, first: map<Path, bool>, first': map<Path, bool>) {
    && first.Keys <= first'.Keys
    && (forall n :: n in first' && n !in first ==> Granted(files, f, n))
    && (forall n :: n in first' && n !in first ==> FirstOk(files, base, n, first'))
  }

  lemma {:induction false} ReachStart(files: Commands, f: Path)
    ensures Reachable(files, f, f)
  {
    assert Chain(files, [f]);
    assert [f][0] == f;
  }

  lemma {:induction false} ReachThrough(files: Commands, f: Path, g: Path, h: Path)
    requires Includes(files, f, g) && Reachable(files, g, h)
    ensures Reachable(files, f, h)
  {
    var fs :| Chain(files, fs) && fs[0] == g && fs[|fs| - 1] == h;
    var all := [f] + fs;
    assert forall i :: 0 < i < |all| ==> all[i] == fs[i - 1];
    assert Chain(files, all) && all[0] == f && all[|all| - 1] == h;
  }

  lemma {:induction false} ReachOn(files: Commands, base: Path, f: Path, g: Path)
    requires Reachable(files, base, f) && Includes(files, f, g)
    ensures Reachable(files, base, g)
  {
    var fs :| Chain(files, fs) && fs[0] == base && fs[|fs| - 1] == f;
    var all := fs + [g];
    assert Chain(files, all) && all[0] == base && all[|all| - 1] == g;
  }

  lemma {:induction false} GrantedThrough(files: Commands, f: Path, g: Path, n: Path)
    requires Includes(files, f, g) && Granted(files, g, n)
    ensures Granted(files, f, n)
  {
    var h :| Reachable(files, g, h) && Lists(files, h, n);
    ReachThrough(files, f, g, h);
  }

  lemma {:induction false} FirstStays(files: Commands, base: Path, n: Path, a: map<Path, bool>, c: map<Path, bool>)
    requires n in a && FirstOk(files, base, n, a) && a.Keys <= c.Keys && c[n] == a[n]
    ensures FirstOk(files, base, n, c)
  {
  }

  /** A reading and the next one. */
  lemma {:induction false} AddedThen(files: Commands, base: Path, f: Path,
                                     a: map<Path, bool>, b: map<Path, bool>, c: map<Path, bool>)
    requires Added(files, base, f, a, b) && Added(files, base, f, b, c) && forall n :: n in b ==> n in c && c[n] == b[n]
    ensures Added(files, base, f, a, c)
  {
    forall n | n in c && n !in a
      ensures Granted(files, f, n) && FirstOk(files, base, n, c)
    {
      if n in b {
        FirstStays(files, base, n, b, c);
      }
    }
  }

  lemma {:induction false} AddedByInclude(files: Commands, base: Path, f: Path, g: Path,
                                          a: map<Path, bool>, c: map<Path, bool>)
    requires Includes(files, f, g) && g !in a && Added(files, base, g, a[g := true], c) && g in c && c[g]
    requires Good(files, g) && Complete(files, g, c.Keys)
    ensures Added(files, base, f, a, c)
  {
    ReachStart(files, f);
    assert Lists(files, f, g);
    forall n | n in c && n !in a
      ensures Granted(files, f, n)
      ensures FirstOk(files, base, n, c)
    {
      if n != g {
        assert n !in a[g := true];
        GrantedThrough(files, f, g, n);
      }
    }
  }

  lemma {:induction false} AddedByName(files: Commands, base: Path, f: Path, i: nat, n: Path, a: map<Path, bool>)
    requires Reachable(files, base, f) && f in files && i < |files[f]| && Meant(files[f][i]) == Names(n) && n !in a
    ensures Added(files, base, f, a, a[n := false])
  {
    ReachStart(files, f);
    assert Lists(files, f, n) && Mentions(files, f, n);
  }

  predicate GoodFrom(files: Commands, f: Path, i: nat)
    requires f in files
  {
    forall j :: i <= j < |files[f]| ==> GoodLine(files[f][j])
  }

  /** What a reading from line `i` of `f` on adds, when it succeeds, and why it fails. */
  ghost predicate Result(files: Commands, base: Path, f: Path, i: nat, first: map<Path, bool>,
                         r: (bool, map<Path, bool>))
  {
    if r.0 then
      f in files && Added(files, base, f, first, r.1) && Complete(files, f, r.1.Keys) && GoodFrom(files, f, i)
    else exists g :: Reachable(files, f, g) && !Good(files, g)
  }

  /** Line `i` has added something, and the rest is read. */
  lemma {:induction false} ResultThen(files: Commands, base: Path, f: Path, i: nat,
                                      first: map<Path, bool>, mid: map<Path, bool>, r: (bool, map<Path, bool>))
    requires f in files && i < |files[f]| && Meant(files[f][i]) != Wrong
    requires Added(files, base, f, first, mid) && Result(files, base, f, i + 1, mid, r)
    requires forall n :: n in mid ==> n in r.1 && r.1[n] == mid[n]
    ensures Result(files, base, f, i, first, r)
  {
    if r.0 {
      AddedThen(files, base, f, first, mid, r.1);
    }
  }

  lemma {:induction false} AddedNothing(files: Commands, base: Path, f: Path, first: map<Path, bool>)
    ensures Added(files, base, f, first, first)
  {
  }

  lemma {:induction false} ReadAdds(files: Commands, base: Path, f: Path, i: nat, first: map<Path, bool>)
    requires Reachable(files, base, f) && (f in files ==> i <= |files[f]| && ListedUpTo(files, f, i, first.Keys))
    ensures Result(files, base, f, i, first, FirstAs(files, f, i, first))
    decreases Universe(files) - first.Keys, if f in files then |files[f]| - i else 0
  {
    ReachStart(files, f);
    if f in files && i < |files[f]| {
      match Meant(files[f][i])
      case Nothing => ReadAdds(files, base, f, i + 1, first);
      case Wrong =>
      case Include(name) =>
        if name in first {
          ReadAdds(files, base, f, i + 1, first);
        } else {
          IncludeAdds(files, base, f, i, name, first);
        }
      case Names(name) =>
        NameAdds(files, base, f, i, name, first);
    }
  }

  lemma {:induction false} ListedNext(files: Commands, f: Path, i: nat, a: set<Path>, b: set<Path>)
    requires f in files && i < |files[f]| && ListedUpTo(files, f, i, a) && a <= b
    requires Meant(files[f][i]).Include? || Meant(files[f][i]).Names? ==> Meant(files[f][i]).name in b
    ensures ListedUpTo(files, f, i + 1, b)
  {
  }

  lemma {:induction false} NameAdds(files: Commands, base: Path, f: Path, i: nat, name: Path, first: map<Path, bool>)
    requires f in files && i < |files[f]| && Meant(files[f][i]) == Names(name)
    requires Reachable(files, base, f) && ListedUpTo(files, f, i, first.Keys)
    ensures Result(files, base, f, i, first, FirstAs(files, f, i, first))
    decreases Universe(files) - first.Keys, |files[f]| - i, 0
  {
    assert name in Universe(files);
    var mid := if name in first then first else first[name := false];
    assert mid.Keys == first.Keys + {name};
    AddedNothing(files, base, f, first);
    if name !in first {
      AddedByName(files, base, f, i, name, first);
    }
    ListedNext(files, f, i, first.Keys, mid.Keys);
    ReadAdds(files, base, f, i + 1, mid);
    var r := FirstAs(files, f, i + 1, mid);
    ResultThen(files, base, f, i, first, mid, r);
    assert FirstAs(files, f, i, first) == r;
  }

  lemma {:induction false} IncludeAdds(files: Commands, base: Path, f: Path, i: nat, name: Path, first: map<Path, bool>)
    requires f in files && i < |files[f]| && Meant(files[f][i]) == Include(name) && name !in first
    requires Reachable(files, base, f) && ListedUpTo(files, f, i, first.Keys)
    ensures Result(files, base, f, i, first, FirstAs(files, f, i, first))
    decreases Universe(files) - first.Keys, |files[f]| - i, 0
  {
    assert Includes(files, f, name);
    assert name in Universe(files) && first[name := true].Keys == first.Keys + {name};
    ReachOn(files, base, f, name);
    var (ok, mid) := FirstAs(files, name, 0, first[name := true]);
    ReadAdds(files, base, name, 0, first[name := true]);
    if ok {
      AddedByInclude(files, base, f, name, first, mid);
      ListedNext(files, f, i, first.Keys, mid.Keys);
      ReadAdds(files, base, f, i + 1, mid);
      ResultThen(files, base, f, i, first, mid, FirstAs(files, f, i + 1, mid));
    } else {
      var g :| Reachable(files, name, g) && !Good(files, g);
      ReachThrough(files, f, name, g);
    }
  }

  /* ---- the list and the closure ---- */

  /** The list holds everything the shadowed files would have added. */
  ghost predicate ShadowsListed(files: Commands, base: Path, access: set<Path>) {
    forall g, n :: Shadowed(files, base, g) && Granted(files, g, n) ==> n in access
  }

  /** What a successful reading of the base file leaves. */
  ghost predicate ReadWell(files: Commands, base: Path, first: map<Path, bool>) {
    && FirstAs(files, base, 0, UNREAD) == (true, first) && Added(files, base, base, UNREAD, first)
    && Good(files, base) && Complete(files, base, first.Keys)
  }

  /** What a file that has been read includes has been read, or is shadowed. */
  lemma {:induction false} IncludeRead(files: Commands, base: Path, first: map<Path, bool>, f: Path, g: Path)
    requires ReadWell(files, base, first) && Reachable(files, base, f) && Includes(files, f, g)
    requires Complete(files, f, first.Keys)
    ensures Shadowed(files, base, g) || (Good(files, g) && Complete(files, g, first.Keys))
  {
    assert g in first && IsCommandFile(files, base, g);
    if g != base {
      assert FirstOk(files, base, g, first);
    }
  }

  lemma {:induction false} ChainFront(files: Commands, fs: seq<Path>)
    requires Chain(files, fs) && |fs| > 1
    ensures var n := |fs| - 1;
            && Chain(files, fs[..n]) && Reachable(files, fs[0], fs[n - 1]) && Includes(files, fs[n - 1], fs[n])
  {
    var n := |fs| - 1;
    var front := fs[..n];
    assert forall i :: 0 <= i < n ==> front[i] == fs[i];
    assert Chain(files, front) && front[0] == fs[0] && front[|front| - 1] == fs[n - 1];
  }

  /** Along a chain of command files, each has been read, or one is shadowed. */
  lemma {:induction false} ChainRead(files: Commands, base: Path, first: map<Path, bool>, fs: seq<Path>)
    returns (k: nat)
    requires ReadWell(files, base, first) && Chain(files, fs) && fs[0] == base
    ensures k < |fs|
    ensures Shadowed(files, base, fs[k]) ||
            (k == |fs| - 1 && Good(files, fs[k]) && Complete(files, fs[k], first.Keys))
    decreases |fs|
  {
    k := 0;
    if |fs| > 1 {
      var n := |fs| - 1;
      ChainFront(files, fs);
      k := ChainRead(files, base, first, fs[..n]);
      if !Shadowed(files, base, fs[k]) {
        IncludeRead(files, base, first, fs[n - 1], fs[n]);
        k := n;
      }
    }
  }

  lemma {:induction false} ChainEnds(files: Commands, fs: seq<Path>, k: nat)
    requires Chain(files, fs) && k < |fs|
    ensures Reachable(files, fs[k], fs[|fs| - 1])
  {
    var rest := fs[k..];
    assert forall i :: 0 <= i < |rest| ==> rest[i] == fs[k + i];
    assert Chain(files, rest) && rest[0] == fs[k] && rest[|rest| - 1] == fs[|fs| - 1];
  }

  lemma {:induction false} GrantedListed(files: Commands, base: Path, first: map<Path, bool>, n: Path)
    requires ReadWell(files, base, first) && ShadowsListed(files, base, first.Keys) && Granted(files, base, n)
    ensures n in first
  {
    var f :| Reachable(files, base, f) && Lists(files, f, n);
    var fs :| Chain(files, fs) && fs[0] == base && fs[|fs| - 1] == f;
    var k := ChainRead(files, base, first, fs);
    if Shadowed(files, base, fs[k]) {
      ChainEnds(files, fs, k);
      assert Granted(files, fs[k], n);
    }
  }

  lemma {:induction false} ReachableGood(files: Commands, base: Path, first: map<Path, bool>, f: Path)
    requires ReadWell(files, base, first) && NoShadow(files, base) && Reachable(files, base, f)
    ensures Good(files, f)
  {
    var fs :| Chain(files, fs) && fs[0] == base && fs[|fs| - 1] == f;
    var k := ChainRead(files, base, first, fs);
  }

  /** What a shadowed file grants, the base file does. */
  lemma {:induction false} ShadowGrants(files: Commands, base: Path, g: Path, n: Path)
    requires IsCommandFile(files, base, g) && Granted(files, g, n)
    ensures Granted(files, base, n)
  {
    var f :| Reachable(files, base, f) && Includes(files, f, g);
    var h :| Reachable(files, g, h) && Lists(files, h, n);
    ReachThrough(files, f, g, h);
    ReachFrom(files, base, f, h);
  }

  lemma {:induction false} ReachFrom(files: Commands, base: Path, f: Path, h: Path)
    requires Reachable(files, base, f) && Reachable(files, f, h)
    ensures Reachable(files, base, h)
  {
    var fs :| Chain(files, fs) && fs[0] == base && fs[|fs| - 1] == f;
    var hs :| Chain(files, hs) && hs[0] == f && hs[|hs| - 1] == h;
    var all := fs + hs[1..];
    forall i | 0 < i < |all|
      ensures Includes(files, all[i - 1], all[i])
    {
      if i >= |fs| {
        assert all[i] == hs[i - |fs| + 1] && all[i - 1] == hs[i - |fs|];
      }
    }
    assert Chain(files, all) && all[0] == base && all[|all| - 1] == h;
  }

  /** The list read from the base file, starting empty, holds only names that belong there;
      and all of them exactly if it holds what the shadowed command files would have added.
      Reading fails only over a file that can be reached and is missing or wrong, and then,
      if no file is shadowed, over any. */
  lemma {:induction false} AccessListIsClosure(files: Commands, base: Path)
    ensures var (ok, access) := Read(files, base, 0, {});
            && (ok ==> forall n :: n in access ==> Granted(files, base, n))
            && (ok ==> ((forall n :: Granted(files, base, n) ==> n in access) <==> ShadowsListed(files, base, access)))
            && (!ok ==> exists f :: Reachable(files, base, f) && !Good(files, f))
            && (NoShadow(files, base) ==> (ok <==> forall f :: Reachable(files, base, f) ==> Good(files, f)))
  {
    ReachStart(files, base);
    FirstAsReads(files, base);
    ReadAdds(files, base, base, 0, UNREAD);
    var (ok, first) := FirstAs(files, base, 0, UNREAD);
    if ok {
      ClosureIff(files, base, first);
      if NoShadow(files, base) {
        forall f | Reachable(files, base, f)
          ensures Good(files, f)
        {
          ReachableGood(files, base, first, f);
        }
      }
    }
  }

  lemma {:induction false} ClosureIff(files: Commands, base: Path, first: map<Path, bool>)
    requires ReadWell(files, base, first)
    ensures (forall n :: Granted(files, base, n) ==> n in first.Keys) <==> ShadowsListed(files, base, first.Keys)
  {
    if ShadowsListed(files, base, first.Keys) {
      forall n | Granted(files, base, n)
        ensures n in first.Keys
      {
        GrantedListed(files, base, first, n);
      }
    }
    if forall n :: Granted(files, base, n) ==> n in first.Keys {
      forall g, n | Shadowed(files, base, g) && Granted(files, g, n)
        ensures n in first.Keys
      {
        ShadowGrants(files, base, g, n);
      }
    }
  }

  /** No file is shadowed where no name is both a command file and a transcript. */
  lemma {:induction false} NoClashNoShadow(files: Commands, base: Path)
    requires Read(files, base, 0, {}).0 && NoClash(files, base)
    ensures NoShadow(files, base)
  {
    ReachStart(files, base);
    FirstAsReads(files, base);
    ReadAdds(files, base, base, 0, UNREAD);
    var (_, first) := FirstAs(files, base, 0, UNREAD);
    forall g | g in first && !first[g]
      ensures IsTranscript(files, base, g)
    {
      assert FirstOk(files, base, g, first);
    }
  }

  /* ---- a name that is both ---- */

  const BASE: Path := ['b']
  const BOTH: Path := ['x']
  const LOST: Path := ['y']

  /** "p x" and "k x" in the base file, "p y" in x. */
  function Clashing(): Commands {
    map[BASE := [[['p'], BOTH], [['k'], BOTH]], BOTH := [[['p'], LOST]]]
  }

  /** A name listed first as a transcript is not read as a command file later. */
  lemma {:induction false} ClashLosesNames()
    ensures Read(Clashing(), BASE, 0, {}) == (true, {BOTH})
    ensures Granted(Clashing(), BASE, LOST)
  {
    var files := Clashing();
    assert BASE[0] != BOTH[0] && LOST[0] != BOTH[0];
    assert Meant(files[BASE][0]) == Names(BOTH) && Meant(files[BASE][1]) == Include(BOTH);
    assert Read(files, BASE, 2, {BOTH}) == (true, {BOTH});
    assert Read(files, BASE, 1, {BOTH}) == (true, {BOTH});
    assert {} + {BOTH} == {BOTH};
    assert Includes(files, BASE, BOTH);
    ReachStart(files, BOTH);
    ReachThrough(files, BASE, BOTH, BOTH);
    assert Meant(files[BOTH][0]) == Names(LOST);
    assert Lists(files, BOTH, LOST);
  }

  class Access {
    const files: Commands
    var access: set<Path>         // access_list

    constructor (files: Commands)
      ensures this.files == files && access == {}
    {
      this.files := files;
      access := {};
    }

    /** read_kfile. */
    method ReadKfile(kfile: Path) returns (ok: bool)
      modifies this
      ensures (ok, access) == Read(files, kfile, 0, old(access))
      decreases Universe(files) - access
    {
      if kfile !in files {
        return false;
      }
      var lines := files[kfile];
      var i := 0;
      while i < |lines|
        invariant 0 <= i <= |lines| && old(access) <= access
        invariant Read(files, kfile, i, access) == Read(files, kfile, 0, old(access))
      {
        var av := lines[i];
        if |av| == 0 || (|av[0]| > 0 && (av[0][0] == '#' || av[0][0] == '-')) {
          i := i + 1;
          continue;
        }
        if |av| != 2 || |av[0]| == 0 {
          return false;
        }
        var name := av[1];
        match av[0][0] {
          case 'k' =>
            if name !in access {
              assert name in Universe(files);
              access := access + {name};
              ok := ReadKfile(name);
              if !ok {
                return;
              }
            }
          case 'p' | 'n' =>
            assert name in access ==> access + {name} == access;
            if name !in access {
              access := access + {name};
            }
          case 's' | 'x' =>
          case _ =>
            return false;
        }
        i := i + 1;
      }
      ok := true;
    }
  }
}
