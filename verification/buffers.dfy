/** What lapply's one stat buffer and its last header hold when the line that a removed
    directory carries is done: told from the filesystem and the view alone. */
module Buffers {
  import opened Paths
  import opened Entries
  import opened Trees
  import opened Journal
  import opened WalkRules
  import opened Updates
  import opened Lapplies
  import opened Landings

  /* ---- the inputs of a diff and an apply ---- */

  predicate DirInView(c: Input, p: Path) {
    p in c.view && c.view[p].obj.kind == Dir
  }

  function ViewTree(c: Input): Fs {
    map p | p in c.view :: c.view[p].obj
  }

  /** A directory of the filesystem that the view has as something else. */
  predicate Replaced(c: Input, p: Path) {
    p in c.fs && c.fs[p].kind == Dir && p in c.view && c.view[p].obj.kind != Dir
  }

  predicate ToldApart(c: Input, p: Path, q: Path)
    requires p in c.view && q in c.view
  {
    c.view[p].src.num == c.view[q].src.num ==> c.view[p].src == c.view[q].src
  }

  /** Transcripts are told apart by number. */
  predicate SourcesOk(c: Input) {
    forall p, q {:trigger ToldApart(c, p, q)} :: p in c.view && q in c.view ==> ToldApart(c, p, q)
  }

  /** A positive transcript or the special one, told apart by name. */
  predicate SourceOk(s: Source) {
    && s.name != "" && (s.kind == Positive || s.kind == Special)
    && (s.kind == Special <==> s.name == "special.T")
  }

  /** What is asked for at `p` can be made and served. */
  predicate CanBring(c: Input, h: Host, p: Path) {
    && p in c.view && SourceOk(c.view[p].src) && Installable(c.view[p].obj.kind)
    && (c.view[p].obj.kind == File ==> Serves(h, p, c.view[p]))
  }

  /** Two trees with the same root; what the view asks for can be made and served. */
  predicate Servable(c: Input, h: Host) {
    && c.cfg == h.cfg && c.cfg.editPath == Applicable
    && TreeShaped(c.fs, c.scope.prefix) && c.fs[c.scope.prefix].kind == Dir
    && TreeShaped(ViewTree(c), c.scope.prefix) && DirInView(c, c.scope.prefix)
    && (forall p :: p in c.fs ==> c.fs[p].kind != Absent)
    && SourcesOk(c)
    && (forall p :: p in c.view ==> CanBring(c, h, p))
  }

  /* ---- the lines of the diff ---- */

  predicate AlreadySame(c: Input, p: Path) {
    p in c.fs && p in c.view && TCompare(c.cfg, c.fs[p], c.view[p]) == Same
  }

  /** The diff prints a line for `p`. */
  predicate HasLine(c: Input, p: Path) {
    Known(c, p) && !AlreadySame(c, p)
  }

  /** And names the transcript it is from, if that was not the one named last. */
  predicate AnnouncedAt(c: Input, p: Path) {
    p in c.view && (p in c.fs ==> TCompare(c.cfg, c.fs[p], c.view[p]) == Download)
  }

  /** The first line after that of `d` which is not for something inside `d`. */
  ghost predicate IsNext(c: Input, d: Path, p: Path) {
    && HasLine(c, p) && Lt(d, p) && !Under(p, d)
    && forall q {:trigger HasLine(c, q)} :: HasLine(c, q) && Lt(d, q) && Lt(q, p) ==> Under(q, d)
  }

  ghost predicate IsLast(c: Input, p: Path) {
    HasLine(c, p) && forall q {:trigger HasLine(c, q)} :: HasLine(c, q) ==> Le(q, p)
  }

  lemma {:induction false} ReplacedHasLine(c: Input, d: Path)
    requires Replaced(c, d)
    ensures HasLine(c, d) && AnnouncedAt(c, d)
  {
  }

  /** The view has nothing below what is no directory in it. */
  lemma {:induction false} NothingBelow(c: Input, d: Path, q: Path)
    requires TreeShaped(ViewTree(c), c.scope.prefix) && Under(d, c.scope.prefix)
    requires !DirInView(c, d) && q in c.view && Under(q, d)
    ensures q == d
  {
    TreeAncestor(ViewTree(c), c.scope.prefix, q, d);
  }

  /* ---- the stat buffer ---- */

  /** The stat data of an object that is made, not a link, for the line of `t`. */
  function NewStat(h: Host, t: Obj): Stat {
    Stat(h.uid, h.gid, h.created(if t.kind == File then 0x180 else Masked(t.mode)), h.now,
         if t.kind == Block || t.kind == Character then t.rdev else (0, 0))
  }

  /** `d` is replaced, and not by a link, when the line of `p` is read. */
  ghost predicate Remade(c: Input, d: Path, p: Path) {
    Replaced(c, d) && c.view[d].obj.kind != SymLink && IsNext(c, d, p)
  }

  /** The buffer when the line of `p` is acted on: what lstat said of `p`, or of a new object
      if a directory was replaced first. */
  ghost function BufferAt(c: Input, h: Host, p: Path): Stat {
    if exists d :: Remade(c, d, p) then var d :| Remade(c, d, p); NewStat(h, c.view[d].obj)
    else StatAt(c.fs, p)
  }

  /** The buffer when the link of the view at `p` is made: for a directory that makes way, the
      buffer of the line at which it does, or of the last line. */
  ghost function BufferFor(c: Input, h: Host, p: Path): Stat {
    if p in c.fs && c.fs[p].kind == SymLink then StatAt(c.fs, p)
    else if !Replaced(c, p) then BufferAt(c, h, p)
    else if exists n :: IsNext(c, p, n) then var n :| IsNext(c, p, n); StatAt(c.fs, n)
    else if exists x :: IsLast(c, x) then var x :| IsLast(c, x); BufferAt(c, h, x)
    else NOSTAT
  }

  lemma {:induction false} NextUnique(c: Input, d: Path, m: Path, n: Path)
    requires IsNext(c, d, m) && IsNext(c, d, n)
    ensures m == n
  {
    LtTotal(m, n);
  }

  lemma {:induction false} LastUnique(c: Input, m: Path, n: Path)
    requires IsLast(c, m) && IsLast(c, n)
    ensures m == n
  {
    if m != n {
      LtAsymmetric(m, n);
    }
  }

  /** Of two directories to be replaced the second ends the wait of the first. */
  lemma {:induction false} NotBothRemade(c: Input, d: Path, e: Path, p: Path)
    requires TreeShaped(c.fs, c.scope.prefix) && TreeShaped(ViewTree(c), c.scope.prefix)
    requires Remade(c, d, p) && Remade(c, e, p)
    ensures !Lt(d, e)
  {
    if Lt(d, e) {
      ReplacedHasLine(c, e);
      TreeCanonical(c.fs, c.scope.prefix, d);
      NothingBelow(c, d, e);
      LtIrreflexive(d);
    }
  }

  lemma {:induction false} BufferAtRemade(c: Input, h: Host, d: Path, p: Path)
    requires TreeShaped(c.fs, c.scope.prefix) && TreeShaped(ViewTree(c), c.scope.prefix)
    requires Remade(c, d, p)
    ensures BufferAt(c, h, p) == NewStat(h, c.view[d].obj)
  {
    forall e | Remade(c, e, p)
      ensures e == d
    {
      NotBothRemade(c, d, e, p);
      NotBothRemade(c, e, d, p);
      LtTotal(d, e);
    }
  }

  lemma {:induction false} BufferForNext(c: Input, h: Host, p: Path, n: Path)
    requires Replaced(c, p) && IsNext(c, p, n)
    ensures BufferFor(c, h, p) == StatAt(c.fs, n)
  {
    forall m | IsNext(c, p, m)
      ensures m == n
    {
      NextUnique(c, p, m, n);
    }
  }

  lemma {:induction false} BufferForLast(c: Input, h: Host, p: Path, x: Path)
    requires Replaced(c, p) && IsLast(c, x) && forall n :: !IsNext(c, p, n)
    ensures BufferFor(c, h, p) == BufferAt(c, h, x)
  {
    forall y | IsLast(c, y)
      ensures y == x
    {
      LastUnique(c, x, y);
    }
  }

  /* ---- the requests ---- */

  /** When the line of `p` ends the wait of `d`, the last header is of the special transcript
      if the one of `p` is, or, where `p` has none, if the one of `d` is. */
  predicate SpecialAt(c: Input, d: Path, p: Path)
    requires d in c.view
  {
    if AnnouncedAt(c, p) then c.view[p].src.kind == Special else c.view[d].src.kind == Special
  }

  /** The file of `d`, asked for under such a header, is what the line says. */
  predicate FetchedUnder(c: Input, h: Host, d: Path, special: bool)
    requires d in c.view
  {
    Retrieve(h, special, c.view[d].src.name, d, Shown(c.view[d].obj)).Some?
  }

  /** The directories that make way for a file when the line of `p` is read get it. */
  ghost predicate FetchesAt(c: Input, h: Host, p: Path) {
    forall d {:trigger IsNext(c, d, p)} :: Replaced(c, d) && c.view[d].obj.kind == File && IsNext(c, d, p) ==>
                                             FetchedUnder(c, h, d, SpecialAt(c, d, p))
  }

  /** Every directory that makes way for a file gets it: no later line names the special
      transcript where the file is not from it or the other way round, or the server's answer
      to that request will do as well. */
  ghost predicate RequestsMet(c: Input, h: Host) {
    forall p {:trigger FetchesAt(c, h, p)} :: FetchesAt(c, h, p)
  }

  /** The answer to its own request will do. */
  lemma {:induction false} OwnRequest(c: Input, h: Host, d: Path)
    requires CanBring(c, h, d) && c.view[d].obj.kind == File
    ensures FetchedUnder(c, h, d, c.view[d].src.kind == Special)
  {
  }

  /** No harm is done where all the transcripts are of one sort. */
  lemma {:induction false} OneSortIsMet(c: Input, h: Host)
    requires Servable(c, h)
    requires (forall p :: p in c.view ==> c.view[p].src.kind == Special) ||
             (forall p :: p in c.view ==> c.view[p].src.kind != Special)
    ensures RequestsMet(c, h)
  {
    forall d, p | Replaced(c, d) && c.view[d].obj.kind == File && IsNext(c, d, p)
      ensures FetchedUnder(c, h, d, SpecialAt(c, d, p))
    {
      OwnRequest(c, h, d);
    }
  }
}
