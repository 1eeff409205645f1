/** A diff followed by an apply converges: the state lapply is in after each prefix of what
    the diff met, and what the filesystem is at the end. */
module Convergence {
  import opened Options
  import opened Paths
  import opened Entries
  import opened Trees
  import opened Journal
  import opened WalkRules
  import opened Updates
  import opened Lapplies
  import opened RemoveLists
  import opened Landings
  import opened Buffers

  /* ---- what holds of one path ---- */

  function SignOf(t: Obj): Sign {
    if IsFile(t.kind) then Plus else Plain
  }

  /** A link as the run leaves it. */
  ghost predicate LinkSettled(c: Input, h: Host, q: Path, o: Obj)
    requires q in c.view
  {
    o == if AlreadySame(c, q) then c.fs[q] else LinkMade(h, BufferFor(c, h, q), c.view[q].obj)
  }

  ghost predicate Settled(c: Input, h: Host, q: Path, o: Obj)
    requires q in c.view
  {
    var e := c.view[q];
    && o.kind == e.obj.kind
    && if o.kind == SymLink then LinkSettled(c, h, q, o) else Alike(c.cfg, o, e)
  }

  /** Before its turn a path is as it was; then it is as the view has it, or, if it was a
      directory and is to be something else or nothing, it waits on the remove list. */
  ghost predicate PathOk(c: Input, h: Host, evs: seq<Event>, m: Fs, ns: Nodes, q: Path) {
    if After(evs, q) then (q in m <==> q in c.fs) && (q in m ==> m[q] == c.fs[q])
    else if Listed(ns, q) then q in m && q in c.fs && m[q] == c.fs[q]
    else (q in m <==> q in c.view) && (q in m ==> Settled(c, h, q, m[q]))
  }

  function RedoFor(c: Input, p: Path): Option<Redo> {
    if p in c.view then Some(Redo(SignOf(c.view[p].obj), Shown(c.view[p].obj), c.view[p].src.name))
    else None
  }

  /** Each directory of the list was met, is none in the view, and carries the view's line. */
  predicate NodesOk(c: Input, evs: seq<Event>, ns: Nodes) {
    ns.Node? ==>
      && ns.path in c.fs && c.fs[ns.path].kind == Dir && !DirInView(c, ns.path)
      && !After(evs, ns.path) && ns.redo == RedoFor(c, ns.path)
      && NodesOk(c, evs, ns.next)
  }

  ghost predicate AllPathsOk(c: Input, h: Host, evs: seq<Event>, m: Fs, ns: Nodes) {
    forall q :: PathOk(c, h, evs, m, ns, q)
  }

  /** The filesystem and the remove list, after the names `evs`. */
  ghost predicate Core(c: Input, h: Host, evs: seq<Event>, m: Fs, ns: Nodes) {
    AllPathsOk(c, h, evs, m, ns) && Nested(ns) && NodesOk(c, evs, ns)
  }

  /** All known names before `p` have been met. */
  predicate MetBefore(c: Input, evs: seq<Event>, p: Path) {
    && (forall q :: q in c.fs && Lt(q, p) ==> !After(evs, q))
    && (forall q :: q in c.view && Lt(q, p) ==> !After(evs, q))
  }

  predicate MetInside(c: Input, evs: seq<Event>, d: Path) {
    && (forall q :: q in c.fs && Under(q, d) ==> !After(evs, q))
    && (forall q :: q in c.view && Under(q, d) ==> !After(evs, q))
  }

  /* ---- lists ---- */

  lemma {:induction false} ListedOk(c: Input, evs: seq<Event>, ns: Nodes, q: Path)
    requires NodesOk(c, evs, ns) && Listed(ns, q)
    ensures q in c.fs && c.fs[q].kind == Dir && !DirInView(c, q) && !After(evs, q)
    decreases ns
  {
    if ns.path != q {
      ListedOk(c, evs, ns.next, q);
    }
  }

  lemma {:induction false} AroundListed(p: Path, ns: Nodes, q: Path)
    requires Around(p, ns) && Listed(ns, q)
    ensures Lt(q, p) && Under(p, q) && p != q
    decreases ns
  {
    if ns.path != q {
      AroundListed(p, ns.next, q);
    }
    LtIrreflexive(p);
  }

  lemma {:induction false} NodesOkStays(c: Input, evs: seq<Event>, e: Event, ns: Nodes)
    requires NodesOk(c, evs, ns) && After(evs, e.path)
    ensures NodesOk(c, evs + [e], ns)
    decreases ns
  {
    if ns.Node? {
      if After(evs + [e], ns.path) && |evs| > 0 {
        LtTransitive(evs[|evs| - 1].path, e.path, ns.path);
      }
      NodesOkStays(c, evs, e, ns.next);
    }
  }

  /* ---- directories that are there ---- */

  /** The directory of a path of the view, once it has been met, is in place. */
  lemma {:induction false} ParentInPlace(c: Input, h: Host, evs: seq<Event>, m: Fs, ns: Nodes, p: Path)
    requires Servable(c, h) && Core(c, h, evs, m, ns)
    requires p in c.view && p != c.scope.prefix && MetBefore(c, evs, p)
    ensures HasDir(m, p)
  {
    assert HasDir(ViewTree(c), p);
    var d :| d in ViewTree(c) && EntryOf(p, d) && ViewTree(c)[d].kind == Dir;
    TreeCanonical(ViewTree(c), c.scope.prefix, d);
    EntryUnder(p, d);
    assert PathOk(c, h, evs, m, ns, d);
    if Listed(ns, d) {
      ListedOk(c, evs, ns, d);
    }
  }

  lemma {:induction false} MetBeforeMet(c: Input, evs: seq<Event>, p: Path)
    requires !After(evs, p)
    ensures MetBefore(c, evs, p)
  {
    forall q | Lt(q, p)
      ensures !After(evs, q)
    {
      if After(evs, q) && |evs| > 0 {
        LtTransitive(evs[|evs| - 1].path, q, p);
      }
    }
  }

  /** Nothing is left inside the first directory of the list once all inside was met. */
  lemma {:induction false} HeadIsEmpty(c: Input, h: Host, evs: seq<Event>, m: Fs, ns: Nodes, q: Path)
    requires Servable(c, h) && Core(c, h, evs, m, ns) && ns.Node? && MetInside(c, evs, ns.path)
    ensures !(q in m && EntryOf(q, ns.path))
  {
    if q in m && EntryOf(q, ns.path) {
      var d := ns.path;
      TreeCanonical(c.fs, c.scope.prefix, d);
      EntryUnder(q, d);
      assert PathOk(c, h, evs, m, ns, q);
      if Listed(ns, q) {
        AroundListed(d, ns.next, q);
        UnderAntisymmetric(q, d);
      } else {
        EntryInView(c, q, d);
      }
    }
  }

  /** An entry of a path, if the view has it, has that path for its directory there. */
  lemma {:induction false} EntryInView(c: Input, q: Path, d: Path)
    requires TreeShaped(ViewTree(c), c.scope.prefix) && Canonical(d) && Under(d, c.scope.prefix)
    requires q in c.view && EntryOf(q, d)
    ensures DirInView(c, d)
  {
    EntryUnder(q, d);
    if q == c.scope.prefix {
      UnderAntisymmetric(q, d);
    }
    assert HasDir(ViewTree(c), q);
    var e :| e in ViewTree(c) && EntryOf(q, e) && ViewTree(c)[e].kind == Dir;
    TreeCanonical(ViewTree(c), c.scope.prefix, e);
    EntryDirUnique(q, d, e);
  }

  /** No object above a path of the view stands in its way. */
  lemma {:induction false} NothingAbove(c: Input, h: Host, evs: seq<Event>, m: Fs, ns: Nodes, p: Path)
    requires Servable(c, h) && Core(c, h, evs, m, ns) && p in c.view && MetBefore(c, evs, p)
    ensures !NotDirAbove(m, p)
  {
    if NotDirAbove(m, p) {
      var x :| x in m && x != p && Under(p, x) && m[x].kind != Dir;
      UnderAfter(p, x);
      assert PathOk(c, h, evs, m, ns, x);
      if Listed(ns, x) {
        ListedOk(c, evs, ns, x);
      } else {
        var _ := TreeEntryAbove(ViewTree(c), c.scope.prefix, p, x);
      }
    }
  }

  /* ---- removing a directory of the list ---- */

  lemma {:induction false} HeadWithout(c: Input, h: Host, evs: seq<Event>, m: Fs, ns: Nodes)
    requires Core(c, h, evs, m, ns) && ns.Node? && ns.path !in c.view
    ensures Core(c, h, evs, m - {ns.path}, ns.next)
  {
    forall q
      ensures PathOk(c, h, evs, m - {ns.path}, ns.next, q)
    {
      assert PathOk(c, h, evs, m, ns, q);
      if Listed(ns.next, q) {
        AroundListed(ns.path, ns.next, q);
      }
    }
  }

  lemma {:induction false} HeadSettled(c: Input, h: Host, evs: seq<Event>, m: Fs, ns: Nodes, o: Obj)
    requires Core(c, h, evs, m, ns) && ns.Node? && ns.path in c.view && Settled(c, h, ns.path, o)
    ensures Core(c, h, evs, (m - {ns.path})[ns.path := o], ns.next)
  {
    var m' := (m - {ns.path})[ns.path := o];
    forall q
      ensures PathOk(c, h, evs, m', ns.next, q)
    {
      assert PathOk(c, h, evs, m, ns, q);
      if Listed(ns.next, q) {
        AroundListed(ns.path, ns.next, q);
      }
    }
  }

  /** Where a line's doing leaves a path that the filesystem had otherwise or not at all. */
  lemma {:induction false} LandedIsSettled(c: Input, h: Host, p: Path, st: Stat, o: Obj)
    requires c.cfg == h.cfg && p in c.view && Landed(h, c.view[p], st, o) && HasLine(c, p)
    requires o.kind == SymLink ==> st == BufferFor(c, h, p)
    ensures Settled(c, h, p, o)
  {
  }

  /** What the buffer and the last header must be for the line that `d` carries. */
  ghost predicate PoppedOk(c: Input, h: Host, st: Stat, special: bool, d: Path) {
    d in c.view ==>
      && (c.view[d].obj.kind == SymLink ==> st == BufferFor(c, h, d))
      && (c.view[d].obj.kind == File ==> FetchedUnder(c, h, d, special))
  }

  /** The buffer once the directory `d` has been removed and its line done. */
  function StatAfter(c: Input, h: Host, d: Path, st: Stat): Stat {
    if d in c.view && c.view[d].obj.kind != SymLink then NewStat(h, c.view[d].obj) else st
  }

  /** rmdir and the carried line succeed, and the path is then as the view has it. */
  lemma {:induction false} RemoveHeadCore(c: Input, h: Host, evs: seq<Event>, s: State)
    requires Servable(c, h) && Core(c, h, evs, s.fs, s.head)
    requires s.head.Node? && MetInside(c, evs, s.head.path) && PoppedOk(c, h, s.st, s.special, s.head.path)
    ensures RemoveHead(h, s).Some?
    ensures var s' := RemoveHead(h, s).value;
            Core(c, h, evs, s'.fs, s'.head) && s'.st == StatAfter(c, h, s.head.path, s.st)
  {
    var n := s.head;
    var m := s.fs - {n.path};
    assert PathOk(c, h, evs, s.fs, s.head, n.path);
    forall q | q in s.fs
      ensures !EntryOf(q, n.path)
    {
      HeadIsEmpty(c, h, evs, s.fs, s.head, q);
    }
    assert Rmdir(s.fs, n.path) == Some(m);
    if n.path in c.view {
      RedoLands(c, h, evs, s);
    } else {
      HeadWithout(c, h, evs, s.fs, s.head);
    }
  }

  lemma {:induction false} RedoLands(c: Input, h: Host, evs: seq<Event>, s: State)
    requires Servable(c, h) && Core(c, h, evs, s.fs, s.head)
    requires s.head.Node? && s.head.path in c.view && PoppedOk(c, h, s.st, s.special, s.head.path)
    requires Rmdir(s.fs, s.head.path) == Some(s.fs - {s.head.path})
    ensures RemoveHead(h, s).Some? && RemoveHead(h, s).value.st == StatAfter(c, h, s.head.path, s.st)
    ensures Core(c, h, evs, RemoveHead(h, s).value.fs, s.head.next)
  {
    var p := s.head.path;
    assert Replaced(c, p);
    ReplacedHasLine(c, p);
    MetBeforeMet(c, evs, p);
    ParentInPlace(c, h, evs, s.fs, s.head, p);
    EntryNotItself(s.fs, p);
    var s1 := s.(fs := s.fs - {p}, head := s.head.next, log := s.log + [Act(p, true, true, true)]);
    assert CanBring(c, h, p);
    CarriedLands(c, h, s1, p);
    var s2 := DoLine(h, s1, SignOf(c.view[p].obj), p, Shown(c.view[p].obj), c.view[p].src.name, false).value;
    LandedIsSettled(c, h, p, s.st, s2.fs[p]);
    HeadSettled(c, h, evs, s.fs, s.head, s2.fs[p]);
  }

  /** The carried line itself, and the buffer it leaves. */
  lemma {:induction false} CarriedLands(c: Input, h: Host, s: State, p: Path)
    requires CanBring(c, h, p) && p !in s.fs && HasDir(s.fs, p) && c.view[p].obj.kind != Dir
    requires c.view[p].obj.kind == File ==> FetchedUnder(c, h, p, s.special)
    ensures var e := c.view[p];
            var r := DoLine(h, s, SignOf(e.obj), p, Shown(e.obj), e.src.name, false);
            LandsAt(h, s, r, p, e, s.st) && r.value.st == StatAfter(c, h, p, s.st)
  {
    var e := c.view[p];
    if e.obj.kind == File {
      DownloadLands(h, s, p, e, false);
    } else {
      MakeLands(h, s, p, e, e.src.name);
    }
  }

  lemma {:induction false} EntryNotItself(m: Fs, p: Path)
    requires HasDir(m, p)
    ensures HasDir(m - {p}, p)
  {
    var d :| d in m && EntryOf(p, d) && m[d].kind == Dir;
    assert d in m - {p};
  }

  /** The directories that hold `p`: the list is cut back to them. */
  function ListAround(ns: Nodes, p: Path): Nodes {
    if ns.Empty? || Under(p, ns.path) then ns else ListAround(ns.next, p)
  }

  function StatAfterAll(c: Input, h: Host, ns: Nodes, p: Path, st: Stat): Stat {
    if ns.Empty? || Under(p, ns.path) then st else StatAfterAll(c, h, ns.next, p, StatAfter(c, h, ns.path, st))
  }

  lemma {:induction false} ListedAround(ns: Nodes, p: Path, d: Path)
    requires Nested(ns)
    ensures Listed(ListAround(ns, p), d) <==> Listed(ns, d) && Under(p, d)
    decreases ns
  {
    if ns.Node? && Under(p, ns.path) {
      if Listed(ns.next, d) {
        AroundListed(ns.path, ns.next, d);
        UnderTransitive(p, ns.path, d);
      }
    } else if ns.Node? {
      ListedAround(ns.next, p, d);
    }
  }

  /** At most the outermost directory of the list carries a line: the view has nothing below
      a directory of the list. */
  lemma {:induction false} RedoIsLast(c: Input, h: Host, evs: seq<Event>, ns: Nodes)
    requires Servable(c, h) && NodesOk(c, evs, ns) && Nested(ns) && ns.Node? && ns.path in c.view
    ensures ns.next.Empty?
  {
    if ns.next.Node? {
      TreeCanonical(c.fs, c.scope.prefix, ns.next.path);
      NothingBelow(c, ns.next.path, ns.path);
      LtIrreflexive(ns.path);
    }
  }

  ghost predicate AllPoppedOk(c: Input, h: Host, st: Stat, special: bool, ns: Nodes, p: Path) {
    forall d :: Listed(ns, d) && !Under(p, d) ==> PoppedOk(c, h, st, special, d)
  }

  lemma {:induction false} PopOutsideCore(c: Input, h: Host, evs: seq<Event>, s: State, p: Path)
    requires Servable(c, h) && Core(c, h, evs, s.fs, s.head)
    requires After(evs, p) && MetBefore(c, evs, p) && AllPoppedOk(c, h, s.st, s.special, s.head, p)
    ensures PopOutside(h, s, p).Some?
    ensures var s' := PopOutside(h, s, p).value;
            && Core(c, h, evs, s'.fs, s'.head) && s'.head == ListAround(s.head, p)
            && s'.st == StatAfterAll(c, h, s.head, p, s.st)
    decreases s.head
  {
    if s.head.Node? && !Under(p, s.head.path) {
      OutsideMet(c, evs, s.head.path, p);
      assert Listed(s.head, s.head.path);
      RemoveHeadCore(c, h, evs, s);
      if s.head.path in c.view {
        RedoIsLast(c, h, evs, s.head);
      }
      PopOutsideCore(c, h, evs, RemoveHead(h, s).value, p);
    }
  }

  /** Where one of the directories that go does not get its file, the run ends. */
  lemma {:induction false} PopOutsideFails(c: Input, h: Host, evs: seq<Event>, s: State, p: Path, d: Path)
    requires Servable(c, h) && NodesOk(c, evs, s.head) && Nested(s.head)
    requires Listed(s.head, d) && !Under(p, d) && d in c.view && c.view[d].obj.kind == File
    requires !FetchedUnder(c, h, d, s.special)
    ensures PopOutside(h, s, p) == None
    decreases s.head
  {
    if s.head.path == d {
      assert RemoveHead(h, s) == None;
    } else {
      AroundListed(s.head.path, s.head.next, d);
      if Under(p, s.head.path) {
        UnderTransitive(p, s.head.path, d);
      }
      if RemoveHead(h, s).Some? {
        PopOutsideFails(c, h, evs, RemoveHead(h, s).value, p, d);
      }
    }
  }

  lemma {:induction false} BufferKept(c: Input, h: Host, ns: Nodes, p: Path, st: Stat)
    requires forall d :: Listed(ns, d) && !Under(p, d) && d in c.view ==> c.view[d].obj.kind == SymLink
    ensures StatAfterAll(c, h, ns, p, st) == st
    decreases ns
  {
    if ns.Node? && !Under(p, ns.path) {
      assert Listed(ns, ns.path);
      BufferKept(c, h, ns.next, p, st);
    }
  }

  lemma {:induction false} BufferRemade(c: Input, h: Host, evs: seq<Event>, ns: Nodes, p: Path, st: Stat, d: Path)
    requires Servable(c, h) && NodesOk(c, evs, ns) && Nested(ns)
    requires Listed(ns, d) && !Under(p, d) && d in c.view && c.view[d].obj.kind != SymLink
    ensures StatAfterAll(c, h, ns, p, st) == NewStat(h, c.view[d].obj)
    decreases ns
  {
    if ns.path in c.view {
      RedoIsLast(c, h, evs, ns);
    } else {
      AroundListed(ns.path, ns.next, d);
      if Under(p, ns.path) {
        UnderTransitive(p, ns.path, d);
      }
      BufferRemade(c, h, evs, ns.next, p, st, d);
    }
  }

  /** A met directory that does not hold the next path has been met throughout. */
  lemma {:induction false} OutsideMet(c: Input, evs: seq<Event>, d: Path, p: Path)
    requires !After(evs, d) && After(evs, p) && MetBefore(c, evs, p) && !Under(p, d)
    ensures MetInside(c, evs, d)
  {
    LtTotal(d, p);
    if Lt(p, d) && |evs| > 0 {
      LtTransitive(evs[|evs| - 1].path, p, d);
    }
    forall q | Under(q, d)
      ensures Lt(q, p)
    {
      AfterSubtree(d, q, p);
    }
  }

  lemma {:induction false} PopAllCore(c: Input, h: Host, evs: seq<Event>, s: State)
    requires Servable(c, h) && Core(c, h, evs, s.fs, s.head)
    requires (forall q :: q in c.fs ==> !After(evs, q)) && (forall q :: q in c.view ==> !After(evs, q))
    requires forall d :: Listed(s.head, d) ==> PoppedOk(c, h, s.st, s.special, d)
    ensures PopAll(h, s).Some? && Core(c, h, evs, PopAll(h, s).value.fs, Empty)
    decreases s.head
  {
    if s.head.Node? {
      assert Listed(s.head, s.head.path);
      RemoveHeadCore(c, h, evs, s);
      if s.head.path in c.view {
        RedoIsLast(c, h, evs, s.head);
      }
      PopAllCore(c, h, evs, RemoveHead(h, s).value);
    }
  }

  /* ---- who waits ---- */

  /** The directory `d` has been met, and no line since was for anything outside it. */
  ghost predicate Waits(c: Input, evs: seq<Event>, d: Path) {
    && !After(evs, d)
    && forall q {:trigger HasLine(c, q)} :: HasLine(c, q) && !After(evs, q) && Lt(d, q) ==> Under(q, d)
  }

  /** Who is on the list waits, and who waits to be replaced is on the list. */
  ghost predicate WaitingListed(c: Input, evs: seq<Event>, ns: Nodes) {
    && (forall d :: Listed(ns, d) ==> Waits(c, evs, d))
    && (forall d {:trigger Waits(c, evs, d)} :: Replaced(c, d) && Waits(c, evs, d) ==> Listed(ns, d))
  }

  lemma {:induction false} MetThenBefore(evs: seq<Event>, d: Path, p: Path)
    requires !After(evs, d) && After(evs, p)
    ensures Lt(d, p)
  {
    var last := evs[|evs| - 1].path;
    LtTotal(last, d);
    if d != last {
      LtTransitive(d, last, p);
    }
  }

  /** The line that ends the wait is the next one. */
  lemma {:induction false} WaitsForNext(c: Input, evs: seq<Event>, d: Path, p: Path)
    requires HasLine(c, p) && After(evs, p) && MetBefore(c, evs, p) && Known(c, d)
    ensures Waits(c, evs, d) && !Under(p, d) <==> IsNext(c, d, p)
  {
    if Waits(c, evs, d) {
      MetThenBefore(evs, d, p);
    }
    if IsNext(c, d, p) {
      forall q | HasLine(c, q) && !After(evs, q) && Lt(d, q)
        ensures Under(q, d)
      {
        MetThenBefore(evs, q, p);
      }
    }
  }

  /* ---- one more name ---- */

  /** `e` is what the merge meets after `evs`. */
  predicate NextMet(c: Input, evs: seq<Event>, e: Event) {
    && Known(c, e.path) && e == EventFor(c, e.path)
    && After(evs, e.path) && MetBefore(c, evs, e.path)
  }

  ghost predicate Elsewhere(m: Fs, m': Fs, p: Path) {
    forall q :: q != p ==> (q in m' <==> q in m) && (q in m ==> m'[q] == m[q])
  }

  /** `p` at the head of the list, or the list as it was. */
  predicate Pushed(c: Input, ns: Nodes, ns': Nodes, p: Path) {
    ns' == ns || (ns' == Node(p, RedoFor(c, p), ns) && p in c.fs && c.fs[p].kind == Dir && !DirInView(c, p))
  }

  lemma {:induction false} AfterNext(evs: seq<Event>, e: Event, q: Path)
    requires After(evs, e.path)
    ensures After(evs + [e], q) <==> Lt(e.path, q)
    ensures Lt(e.path, q) ==> After(evs, q) && !Lt(q, e.path) && q != e.path
  {
    if Lt(e.path, q) {
      LtAsymmetric(e.path, q);
      if |evs| > 0 {
        LtTransitive(evs[|evs| - 1].path, e.path, q);
      }
    }
  }

  /** After one more name, if its own path is as it should be then everything is. */
  lemma {:induction false} CoreNext(c: Input, h: Host, evs: seq<Event>, e: Event, m: Fs, ns: Nodes, m': Fs, ns': Nodes)
    requires Core(c, h, evs, m, ns) && NextMet(c, evs, e)
    requires Elsewhere(m, m', e.path)
    requires ns' == ns || (Pushed(c, ns, ns', e.path) && Around(e.path, ns))
    requires PathOk(c, h, evs + [e], m', ns', e.path)
    ensures Core(c, h, evs + [e], m', ns')
  {
    forall q
      ensures PathOk(c, h, evs + [e], m', ns', q)
    {
      if q != e.path {
        assert PathOk(c, h, evs, m, ns, q);
        if Listed(ns, q) {
          ListedOk(c, evs, ns, q);
        }
        LtTotal(q, e.path);
        AfterNext(evs, e, q);
      }
    }
    AfterNext(evs, e, e.path);
    LtIrreflexive(e.path);
    NodesOkStays(c, evs, e, ns);
  }

  /** A name that turns out the same: nothing is done. */
  lemma {:induction false} SameCore(c: Input, h: Host, evs: seq<Event>, e: Event, m: Fs, ns: Nodes)
    requires Core(c, h, evs, m, ns) && NextMet(c, evs, e) && Servable(c, h)
    requires e.Compared? && TCompare(c.cfg, e.obj, e.entry) == Same
    ensures Core(c, h, evs + [e], m, ns)
  {
    var p := e.path;
    assert PathOk(c, h, evs, m, ns, p);
    AfterNext(evs, e, p);
    LtIrreflexive(p);
    if Listed(ns, p) {
      ListedOk(c, evs, ns, p);
    }
    CoreNext(c, h, evs, e, m, ns, m, ns);
  }

  /* ---- the line of one name ---- */

  /** The line printed for `e`, when one is. */
  predicate LineFor(c: Input, e: Event, sign: Sign, t: Obj) {
    match e
    case FsOnly(_, o) => sign == Minus && t.kind == o.kind
    case TranOnly(_, en) => sign == SignOf(en.obj) && t == Shown(en.obj)
    case Compared(_, o, en) =>
      && t == Shown(en.obj)
      && match TCompare(c.cfg, o, en)
         case Download => sign == SignOf(en.obj)
         case Status => sign == Plain
         case _ => false
  }

  /** The last header read names the transcript the line is from, where that matters. */
  predicate HeaderRead(c: Input, s: State, e: Event) {
    e.TranOnly? || (e.Compared? && TCompare(c.cfg, e.obj, e.entry) == Download) ==>
      s.tran == e.entry.src.name && s.special == (e.entry.src.kind == Special)
  }

  /** The list after a line for `p`. */
  function NextList(c: Input, ns: Nodes, p: Path): Nodes {
    if p in c.fs && c.fs[p].kind == Dir && !DirInView(c, p) then Node(p, RedoFor(c, p), ns) else ns
  }

  ghost predicate EditDone(c: Input, h: Host, evs: seq<Event>, e: Event, s: State, r: Option<State>) {
    && r.Some? && Core(c, h, evs + [e], r.value.fs, r.value.head)
    && r.value.head == NextList(c, s.head, e.path)
    && r.value.tran == s.tran && r.value.special == s.special && r.value.prepath == e.path
    && (e.path !in c.view || Replaced(c, e.path) ==> r.value.st == s.st)
  }

  /** The state ActOn starts from: looked at, and cut back to the directories around `p`. */
  ghost predicate CutBack(c: Input, h: Host, evs: seq<Event>, e: Event, s: State) {
    && Core(c, h, evs, s.fs, s.head) && Around(e.path, s.head) && s.prepath == e.path
    && s.st == BufferAt(c, h, e.path)
    && HeaderRead(c, s, e)
  }

  lemma {:induction false} ActRemoves(c: Input, h: Host, evs: seq<Event>, e: Event, s: State, t: Obj)
    requires c.cfg == h.cfg && NextMet(c, evs, e) && CutBack(c, h, evs, e, s)
    requires e.FsOnly? && t.kind == e.obj.kind
    ensures EditDone(c, h, evs, e, s, ActOn(h, s, Minus, e.path, t, KindAt(c.fs, e.path)))
  {
    var p := e.path;
    assert PathOk(c, h, evs, s.fs, s.head, p);
    AfterNext(evs, e, p);
    LtIrreflexive(p);
    if e.obj.kind == Dir {
      CoreNext(c, h, evs, e, s.fs, s.head, s.fs, Node(p, RedoFor(c, p), s.head));
    } else {
      if Listed(s.head, p) {
        ListedOk(c, evs, s.head, p);
      }
      CoreNext(c, h, evs, e, s.fs, s.head, s.fs - {p}, s.head);
    }
  }

  /** A directory to be replaced is put on the list with its line. */
  lemma {:induction false} ActDefers(c: Input, h: Host, evs: seq<Event>, e: Event, s: State, t: Obj)
    requires c.cfg == h.cfg && NextMet(c, evs, e) && CutBack(c, h, evs, e, s)
    requires e.Compared? && e.obj.kind == Dir && e.entry.obj.kind != Dir && t == Shown(e.entry.obj)
    ensures EditDone(c, h, evs, e, s, ActOn(h, s, SignOf(e.entry.obj), e.path, t, Dir))
  {
    var p := e.path;
    assert PathOk(c, h, evs, s.fs, s.head, p);
    AfterNext(evs, e, p);
    LtIrreflexive(p);
    CoreNext(c, h, evs, e, s.fs, s.head, s.fs, Node(p, RedoFor(c, p), s.head));
  }

  /** A line that is done at once leaves its path settled. */
  lemma {:induction false} DoneIsCore(c: Input, h: Host, evs: seq<Event>, e: Event, s: State, m': Fs, st: Stat)
    requires c.cfg == h.cfg && NextMet(c, evs, e) && CutBack(c, h, evs, e, s)
    requires e.path in c.view && e.path in m' && Elsewhere(s.fs, m', e.path)
    requires Landed(h, c.view[e.path], st, m'[e.path])
    requires HasLine(c, e.path) && (c.view[e.path].obj.kind == SymLink ==> st == BufferFor(c, h, e.path))
    ensures Core(c, h, evs + [e], m', s.head)
  {
    var p := e.path;
    AfterNext(evs, e, p);
    LtIrreflexive(p);
    if Listed(s.head, p) {
      ListedOk(c, evs, s.head, p);
    }
    LandedIsSettled(c, h, p, st, m'[p]);
    CoreNext(c, h, evs, e, s.fs, s.head, m', s.head);
  }

  /** The line of a name brought in, after whatever was there is gone. */
  lemma {:induction false} BringLands(c: Input, h: Host, s: State, p: Path, present: bool)
    requires CanBring(c, h, p) && HasDir(s.fs, p)
    requires s.tran == c.view[p].src.name && s.special == (c.view[p].src.kind == Special)
    requires if p in s.fs then c.view[p].obj.kind == File && s.fs[p].kind == File else !present
    ensures var e := c.view[p];
            LandsAt(h, s, DoLine(h, s, SignOf(e.obj), p, Shown(e.obj), s.tran, present), p, e,
                    if e.obj.kind == File then NOSTAT else s.st)
  {
    var e := c.view[p];
    if e.obj.kind == File {
      DownloadLands(h, s, p, e, present);
    } else {
      MakeLands(h, s, p, e, s.tran);
    }
  }

  lemma {:induction false} ActCreates(c: Input, h: Host, evs: seq<Event>, e: Event, s: State)
    requires c.cfg == h.cfg && NextMet(c, evs, e) && CutBack(c, h, evs, e, s)
    requires CanBring(c, h, e.path) && HasDir(s.fs, e.path)
    requires e.TranOnly?
    ensures EditDone(c, h, evs, e, s, ActOn(h, s, SignOf(e.entry.obj), e.path, Shown(e.entry.obj), Absent))
  {
    var p, en := e.path, e.entry;
    assert PathOk(c, h, evs, s.fs, s.head, p);
    BringLands(c, h, s, p, false);
    var s1 := DoLine(h, s, SignOf(en.obj), p, Shown(en.obj), s.tran, false).value;
    DoneIsCore(c, h, evs, e, s, s1.fs, if en.obj.kind == File then NOSTAT else s.st);
  }

  /** Unlinking what is there and doing the line touches nothing else. */
  lemma {:induction false} ReplaceLands(c: Input, h: Host, s: State, p: Path)
    requires CanBring(c, h, p) && HasDir(s.fs, p) && p in s.fs && s.fs[p].kind != Dir
    requires s.tran == c.view[p].src.name && s.special == (c.view[p].src.kind == Special)
    ensures var e := c.view[p];
            var r := RemoveThenDo(h, s, SignOf(e.obj), p, Shown(e.obj));
            && r.Some?
            && r.value == s.(fs := r.value.fs, st := r.value.st, change := r.value.change, log := r.value.log)
            && p in r.value.fs && Elsewhere(s.fs, r.value.fs, p)
            && Landed(h, e, if e.obj.kind == File then NOSTAT else s.st, r.value.fs[p])
  {
    EntryNotItself(s.fs, p);
    BringLands(c, h, s.(fs := s.fs - {p}), p, false);
  }

  lemma {:induction false} ActReplaces(c: Input, h: Host, evs: seq<Event>, e: Event, s: State)
    requires c.cfg == h.cfg && NextMet(c, evs, e) && CutBack(c, h, evs, e, s)
    requires CanBring(c, h, e.path) && HasDir(s.fs, e.path)
    requires e.Compared? && e.obj.kind != Dir && e.obj.kind != e.entry.obj.kind
    ensures EditDone(c, h, evs, e, s, RemoveThenDo(h, s, SignOf(e.entry.obj), e.path, Shown(e.entry.obj)))
  {
    assert PathOk(c, h, evs, s.fs, s.head, e.path);
    ReplaceLands(c, h, s, e.path);
    var s2 := RemoveThenDo(h, s, SignOf(e.entry.obj), e.path, Shown(e.entry.obj)).value;
    DoneIsCore(c, h, evs, e, s, s2.fs, if e.entry.obj.kind == File then NOSTAT else s.st);
  }

  lemma {:induction false} ActDownloads(c: Input, h: Host, evs: seq<Event>, e: Event, s: State)
    requires c.cfg == h.cfg && NextMet(c, evs, e) && CutBack(c, h, evs, e, s)
    requires CanBring(c, h, e.path) && HasDir(s.fs, e.path)
    requires e.Compared? && e.obj.kind == e.entry.obj.kind && TCompare(c.cfg, e.obj, e.entry) == Download
    ensures EditDone(c, h, evs, e, s, ActOn(h, s, Plus, e.path, Shown(e.entry.obj), File))
  {
    var p, en := e.path, e.entry;
    assert PathOk(c, h, evs, s.fs, s.head, p);
    BringLands(c, h, s, p, true);
    var s1 := DoLine(h, s, Plus, p, Shown(en.obj), s.tran, true).value;
    DoneIsCore(c, h, evs, e, s, s1.fs, NOSTAT);
  }

  lemma {:induction false} ActUpdates(c: Input, h: Host, evs: seq<Event>, e: Event, s: State)
    requires c.cfg == h.cfg && NextMet(c, evs, e) && CutBack(c, h, evs, e, s)
    requires CanBring(c, h, e.path) && (e.entry.obj.kind != Dir ==> HasDir(s.fs, e.path))
    requires e.Compared? && TCompare(c.cfg, e.obj, e.entry) == Status
    ensures EditDone(c, h, evs, e, s, ActOn(h, s, Plain, e.path, Shown(e.entry.obj), e.obj.kind))
  {
    var p, en := e.path, e.entry;
    assert PathOk(c, h, evs, s.fs, s.head, p);
    StatusLands(h, s, p, en, s.tran);
    var s1 := DoLine(h, s, Plain, p, Shown(en.obj), s.tran, true).value;
    DoneIsCore(c, h, evs, e, s, s1.fs, StatOf(s.fs[p]));
  }

  lemma {:induction false} ActIsRight(c: Input, h: Host, evs: seq<Event>, e: Event, s: State, sign: Sign, t: Obj)
    requires Servable(c, h) && NextMet(c, evs, e) && CutBack(c, h, evs, e, s) && LineFor(c, e, sign, t)
    ensures EditDone(c, h, evs, e, s, ActOn(h, s, sign, e.path, t, KindAt(c.fs, e.path)))
  {
    var p := e.path;
    if p in c.view && p != c.scope.prefix {
      ParentInPlace(c, h, evs, s.fs, s.head, p);
    }
    BringIsRight(c, h, evs, e, s, sign, t);
  }

  lemma {:induction false} BringIsRight(c: Input, h: Host, evs: seq<Event>, e: Event, s: State, sign: Sign, t: Obj)
    requires c.cfg == h.cfg && NextMet(c, evs, e) && CutBack(c, h, evs, e, s) && LineFor(c, e, sign, t)
    requires e.path in c.view ==> CanBring(c, h, e.path)
    requires e.path in c.fs ==> c.fs[e.path].kind != Absent
    requires e.path in c.view && (e.entry.obj.kind != Dir || !e.Compared? || e.obj.kind != Dir) ==> HasDir(s.fs, e.path)
    ensures EditDone(c, h, evs, e, s, ActOn(h, s, sign, e.path, t, KindAt(c.fs, e.path)))
  {
    match e
    case FsOnly(_, _) => ActRemoves(c, h, evs, e, s, t);
    case TranOnly(_, _) => ActCreates(c, h, evs, e, s);
    case Compared(_, o, en) =>
      if TCompare(c.cfg, o, en) == Status {
        ActUpdates(c, h, evs, e, s);
      } else if o.kind == Dir {
        ActDefers(c, h, evs, e, s, t);
      } else if o.kind != en.obj.kind {
        ActReplaces(c, h, evs, e, s);
      } else {
        ActDownloads(c, h, evs, e, s);
      }
  }

  /* ---- a line from where the last one ended ---- */

  /** The path last read is that of the last line. */
  ghost predicate PrepathOk(c: Input, evs: seq<Event>, prepath: Path) {
    && (prepath != [] ==> HasLine(c, prepath) && !After(evs, prepath))
    && forall q {:trigger HasLine(c, q)} :: HasLine(c, q) && !After(evs, q) ==> prepath != [] && Le(q, prepath)
  }

  /** The line of `p` being read, its header included: what was read of the special transcript
      is as each waiting directory would have it. */
  ghost predicate HeadersRead(c: Input, ns: Nodes, special: bool, p: Path) {
    forall d :: Listed(ns, d) && d in c.view ==> special == SpecialAt(c, d, p)
  }

  lemma {:induction false} LineIsAcceptable(c: Input, h: Host, evs: seq<Event>, e: Event, s: State, sign: Sign, t: Obj)
    requires Servable(c, h) && NextMet(c, evs, e) && Core(c, h, evs, s.fs, s.head) && PrepathOk(c, evs, s.prepath)
    requires HeaderRead(c, s, e) && LineFor(c, e, sign, t)
    ensures Acceptable(s, sign, e.path) && KindAt(s.fs, e.path) == KindAt(c.fs, e.path)
    ensures StatAt(s.fs, e.path) == StatAt(c.fs, e.path)
  {
    var p := e.path;
    if s.prepath != [] {
      MetThenBefore(evs, s.prepath, p);
    }
    assert PathOk(c, h, evs, s.fs, s.head, p);
    if p in c.view {
      NothingAbove(c, h, evs, s.fs, s.head, p);
    }
  }

  /** What is to go gets its line done rightly. */
  lemma {:induction false} PopsAreOk(c: Input, h: Host, evs: seq<Event>, ns: Nodes, special: bool, p: Path)
    requires NodesOk(c, evs, ns) && WaitingListed(c, evs, ns) && HeadersRead(c, ns, special, p)
    requires HasLine(c, p) && After(evs, p) && MetBefore(c, evs, p) && FetchesAt(c, h, p)
    ensures AllPoppedOk(c, h, StatAt(c.fs, p), special, ns, p)
  {
    forall d | Listed(ns, d) && !Under(p, d)
      ensures PoppedOk(c, h, StatAt(c.fs, p), special, d)
    {
      ListedOk(c, evs, ns, d);
      WaitsForNext(c, evs, d, p);
      if d in c.view {
        BufferForNext(c, h, d, p);
      }
    }
  }

  /** The buffer is then as the line of `p` will find it. */
  lemma {:induction false} PopsLeaveBuffer(c: Input, h: Host, evs: seq<Event>, ns: Nodes, p: Path)
    requires Servable(c, h) && NodesOk(c, evs, ns) && Nested(ns) && WaitingListed(c, evs, ns)
    requires HasLine(c, p) && After(evs, p) && MetBefore(c, evs, p)
    ensures StatAfterAll(c, h, ns, p, StatAt(c.fs, p)) == BufferAt(c, h, p)
  {
    if d :| Remade(c, d, p) {
      WaitsForNext(c, evs, d, p);
      BufferAtRemade(c, h, d, p);
      BufferRemade(c, h, evs, ns, p, StatAt(c.fs, p), d);
    } else {
      forall d | Listed(ns, d) && !Under(p, d) && d in c.view
        ensures c.view[d].obj.kind == SymLink
      {
        ListedOk(c, evs, ns, d);
        WaitsForNext(c, evs, d, p);
        assert !Remade(c, d, p);
      }
      BufferKept(c, h, ns, p, StatAt(c.fs, p));
    }
  }

  lemma {:induction false} ListIsCutBack(c: Input, h: Host, evs: seq<Event>, e: Event, s: State)
    requires Servable(c, h) && NextMet(c, evs, e) && Core(c, h, evs, s.fs, s.head) && WaitingListed(c, evs, s.head)
    requires HasLine(c, e.path) && FetchesAt(c, h, e.path) && HeadersRead(c, s.head, s.special, e.path)
    requires HeaderRead(c, s, e) && s.prepath == e.path && s.st == StatAt(c.fs, e.path)
    ensures PopOutside(h, s, e.path).Some? && CutBack(c, h, evs, e, PopOutside(h, s, e.path).value)
    ensures PopOutside(h, s, e.path).value.head == ListAround(s.head, e.path)
  {
    PopsAreOk(c, h, evs, s.head, s.special, e.path);
    PopOutsideCore(c, h, evs, s, e.path);
    PopsLeaveBuffer(c, h, evs, s.head, e.path);
    var s1 := PopOutside(h, s, e.path).value;
    AroundIsInside(s.head, e.path);
    ListBefore(c, evs, s1.head, e.path);
    InsideIsAround(e.path, s1.head);
  }

  lemma {:induction false} AroundIsInside(ns: Nodes, p: Path)
    ensures ListAround(ns, p).Node? ==> Under(p, ListAround(ns, p).path)
    decreases ns
  {
    if ns.Node? && !Under(p, ns.path) {
      AroundIsInside(ns.next, p);
    }
  }

  /** The line is acceptable, the list is cut back, and then the line is acted on. */
  lemma {:induction false} EditStarts(c: Input, h: Host, evs: seq<Event>, e: Event, s: State, sign: Sign, t: Obj)
    requires Servable(c, h) && NextMet(c, evs, e) && Core(c, h, evs, s.fs, s.head) && PrepathOk(c, evs, s.prepath)
    requires WaitingListed(c, evs, s.head) && HeadersRead(c, s.head, s.special, e.path)
    requires HasLine(c, e.path) && FetchesAt(c, h, e.path) && HeaderRead(c, s, e) && LineFor(c, e, sign, t)
    ensures var s1 := PopOutside(h, Looked(s, e.path), e.path);
            && s1.Some? && CutBack(c, h, evs, e, s1.value) && s1.value.head == ListAround(s.head, e.path)
            && s1.value.tran == s.tran && s1.value.special == s.special
            && StepEdit(h, s, sign, e.path, t) == ActOn(h, s1.value, sign, e.path, t, KindAt(c.fs, e.path))
  {
    LineIsAcceptable(c, h, evs, e, s, sign, t);
    ListIsCutBack(c, h, evs, e, Looked(s, e.path));
  }

  lemma {:induction false} EditIsRight(c: Input, h: Host, evs: seq<Event>, e: Event, s: State, sign: Sign, t: Obj)
    requires Servable(c, h) && NextMet(c, evs, e) && Core(c, h, evs, s.fs, s.head) && PrepathOk(c, evs, s.prepath)
    requires WaitingListed(c, evs, s.head) && HeadersRead(c, s.head, s.special, e.path)
    requires HasLine(c, e.path) && FetchesAt(c, h, e.path) && HeaderRead(c, s, e) && LineFor(c, e, sign, t)
    ensures var r := StepEdit(h, s, sign, e.path, t);
            && r.Some? && Core(c, h, evs + [e], r.value.fs, r.value.head)
            && r.value.head == NextList(c, ListAround(s.head, e.path), e.path)
            && r.value.tran == s.tran && r.value.special == s.special && r.value.prepath == e.path
            && (e.path !in c.view || Replaced(c, e.path) ==> r.value.st == BufferAt(c, h, e.path))
  {
    EditStarts(c, h, evs, e, s, sign, t);
    ActIsRight(c, h, evs, e, PopOutside(h, Looked(s, e.path), e.path).value, sign, t);
  }

  /** Where a directory that goes does not get its file, the line is not acted on. */
  lemma {:induction false} EditFails(c: Input, h: Host, evs: seq<Event>, e: Event, s: State, sign: Sign, t: Obj)
    requires Servable(c, h) && NextMet(c, evs, e) && NodesOk(c, evs, s.head) && Nested(s.head)
    requires WaitingListed(c, evs, s.head) && HeadersRead(c, s.head, s.special, e.path)
    requires HasLine(c, e.path) && !FetchesAt(c, h, e.path)
    ensures StepEdit(h, s, sign, e.path, t) == None
  {
    var p := e.path;
    var d :| Replaced(c, d) && c.view[d].obj.kind == File && IsNext(c, d, p) &&
             !FetchedUnder(c, h, d, SpecialAt(c, d, p));
    WaitsForNext(c, evs, d, p);
    PopOutsideFails(c, h, evs, Looked(s, p), p, d);
  }

  lemma {:induction false} ListBefore(c: Input, evs: seq<Event>, ns: Nodes, p: Path)
    requires NodesOk(c, evs, ns) && After(evs, p)
    ensures AllBefore(ns, p)
    decreases ns
  {
    if ns.Node? {
      LtTotal(ns.path, p);
      if Lt(p, ns.path) && |evs| > 0 {
        LtTransitive(evs[|evs| - 1].path, p, ns.path);
      }
      ListBefore(c, evs, ns.next, p);
    }
  }

  /* ---- who waits after one more name ---- */

  lemma {:induction false} WaitingNext(c: Input, h: Host, evs: seq<Event>, e: Event, ns: Nodes)
    requires NextMet(c, evs, e) && HasLine(c, e.path)
    requires NodesOk(c, evs, ns) && Nested(ns) && WaitingListed(c, evs, ns)
    ensures WaitingListed(c, evs + [e], NextList(c, ListAround(ns, e.path), e.path))
  {
    var p := e.path;
    var ns' := NextList(c, ListAround(ns, p), p);
    forall d
      ensures Listed(ns', d) ==> Waits(c, evs + [e], d)
      ensures Replaced(c, d) && Waits(c, evs + [e], d) ==> Listed(ns', d)
    {
      ListedAround(ns, p, d);
      if d == p {
        WaitsAtOnce(c, evs, e);
      } else {
        if Listed(ns, d) {
          ListedOk(c, evs, ns, d);
        }
        if Known(c, d) {
          WaitsOn(c, evs, e, d);
        }
      }
    }
  }

  lemma {:induction false} WaitsAtOnce(c: Input, evs: seq<Event>, e: Event)
    requires NextMet(c, evs, e)
    ensures Waits(c, evs + [e], e.path)
  {
    LtIrreflexive(e.path);
    forall q | Lt(e.path, q)
      ensures After(evs + [e], q)
    {
      AfterNext(evs, e, q);
    }
    AfterNext(evs, e, e.path);
  }

  /** Another directory waits on exactly if the line is for something in it. */
  lemma {:induction false} WaitsOn(c: Input, evs: seq<Event>, e: Event, d: Path)
    requires NextMet(c, evs, e) && HasLine(c, e.path) && d != e.path && Known(c, d)
    ensures Waits(c, evs + [e], d) <==> Waits(c, evs, d) && Under(e.path, d)
  {
    var p := e.path;
    LtTotal(d, p);
    AfterNext(evs, e, d);
    AfterNext(evs, e, p);
    LtIrreflexive(p);
    forall q | Known(c, q) && q != p
      ensures After(evs + [e], q) <==> After(evs, q)
    {
      LtTotal(q, p);
      AfterNext(evs, e, q);
      if Lt(q, p) {
        LtAsymmetric(q, p);
      }
    }
    if Waits(c, evs, d) {
      MetThenBefore(evs, d, p);
    }
  }

  /** A name without a line ends nobody's wait. */
  lemma {:induction false} WaitingSame(c: Input, evs: seq<Event>, e: Event, ns: Nodes)
    requires NextMet(c, evs, e) && AlreadySame(c, e.path) && NodesOk(c, evs, ns) && WaitingListed(c, evs, ns)
    ensures WaitingListed(c, evs + [e], ns)
  {
    forall d | Known(c, d) && d != e.path
      ensures Waits(c, evs + [e], d) <==> Waits(c, evs, d)
    {
      SameForOthers(c, evs, e);
    }
    forall d | Listed(ns, d)
      ensures Known(c, d) && d != e.path
    {
      ListedOk(c, evs, ns, d);
    }
  }

  lemma {:induction false} SameForOthers(c: Input, evs: seq<Event>, e: Event)
    requires NextMet(c, evs, e)
    ensures forall q :: Known(c, q) && q != e.path ==> (After(evs + [e], q) <==> After(evs, q))
  {
    forall q | Known(c, q) && q != e.path
      ensures After(evs + [e], q) <==> After(evs, q)
    {
      LtTotal(q, e.path);
      AfterNext(evs, e, q);
      if Lt(q, e.path) {
        LtAsymmetric(q, e.path);
      }
    }
  }

  /** Between lines the buffer and what was read of the special transcript are as the line of
      a waiting directory left them. */
  ghost predicate RedoTied(c: Input, h: Host, s: State) {
    forall d :: Listed(s.head, d) && d in c.view ==>
                  s.special == (c.view[d].src.kind == Special) && s.st == BufferAt(c, h, s.prepath)
  }

  lemma {:induction false} RedoTiedNext(c: Input, h: Host, evs: seq<Event>, e: Event, s: State, s': State)
    requires Servable(c, h) && NextMet(c, evs, e) && NodesOk(c, evs, s.head) && Nested(s.head)
    requires s'.head == NextList(c, ListAround(s.head, e.path), e.path)
    requires s'.special == s.special && s'.prepath == e.path
    requires e.path !in c.view || Replaced(c, e.path) ==> s'.st == BufferAt(c, h, e.path)
    requires HeadersRead(c, s.head, s.special, e.path)
    requires AnnouncedAt(c, e.path) ==> s.special == (c.view[e.path].src.kind == Special)
    ensures RedoTied(c, h, s')
  {
    var p := e.path;
    forall d | Listed(s'.head, d) && d in c.view
      ensures s'.special == (c.view[d].src.kind == Special) && s'.st == BufferAt(c, h, p)
    {
      ListedAround(s.head, p, d);
      if !Listed(s.head, d) {
        ReplacedHasLine(c, d);
      } else {
        ListedOk(c, evs, s.head, d);
        TreeCanonical(c.fs, c.scope.prefix, d);
        if p in c.view {
          NothingBelow(c, d, p);
        }
      }
    }
  }

  /* ---- the run on what the diff printed ---- */

  /** Where the printer has already named a transcript, lapply has read that name. */
  predicate TranTied(c: Input, pr: Printer, s: State) {
    forall p :: p in c.view && pr.prev == Some(c.view[p].src.num) ==>
                  s.tran == c.view[p].src.name && s.special == (c.view[p].src.kind == Special)
  }

  function Applied(c: Input, h: Host, evs: seq<Event>): Option<State> {
    RunLines(h, c.fs, Printed(c.cfg, evs).out)
  }

  ghost predicate StateOk(c: Input, h: Host, evs: seq<Event>, s: State) {
    && Core(c, h, evs, s.fs, s.head) && PrepathOk(c, evs, s.prepath)
    && WaitingListed(c, evs, s.head) && RedoTied(c, h, s)
  }

  ghost predicate Agrees(c: Input, h: Host, evs: seq<Event>) {
    var r := Applied(c, h, evs);
    r.Some? && StateOk(c, h, evs, r.value) && TranTied(c, Printed(c.cfg, evs), r.value)
  }

  lemma {:induction false} RunLinesSnoc(h: Host, m: Fs, ls: seq<OutLine>, l: OutLine)
    requires RunLines(h, m, ls).Some?
    ensures RunLines(h, m, ls + [l]) == Step(h, RunLines(h, m, ls).value, l)
  {
    assert (ls + [l])[..|ls|] == ls;
  }

  /** The transcript an event's line is announced under, if it is announced. */
  predicate Announced(c: Input, e: Event) {
    e.TranOnly? || (e.Compared? && TCompare(c.cfg, e.obj, e.entry) == Download)
  }

  function Announcing(c: Input, pr: Printer, e: Event): Printer {
    if Announced(c, e) then WithHeader(pr, e.entry.src) else pr
  }

  /** What is printed for a name that is not the same: perhaps a header, and one line. */
  lemma {:induction false} PrintsOneLine(c: Input, pr: Printer, e: Event) returns (sign: Sign, t: Obj)
    requires c.cfg.editPath == Applicable
    requires !e.FsOnly? ==> e.entry.src.kind != Negative
    requires e.Compared? ==> TCompare(c.cfg, e.obj, e.entry) != Same
    ensures LineFor(c, e, sign, t)
    ensures PrintEvent(c.cfg, pr, e) ==
            var pr1 := Announcing(c, pr, e); pr1.(out := pr1.out + [Edit(sign, e.path, t)])
  {
    match e
    case FsOnly(_, o) =>
      sign, t := Minus, Shown(o).(cksum := NOCKSUM);
    case TranOnly(_, en) =>
      sign, t := SignOf(en.obj), Shown(en.obj);
    case Compared(_, o, en) =>
      sign, t := if TCompare(c.cfg, o, en) == Download then SignOf(en.obj) else Plain, Shown(en.obj);
  }

  /** Reading the header, if there is one. */
  lemma {:induction false} HeaderRuns(c: Input, h: Host, pr: Printer, e: Event)
    requires SourcesOk(c) && RunLines(h, c.fs, pr.out).Some?
    requires Announced(c, e) ==> e.path in c.view && e.entry == c.view[e.path] && CanBring(c, h, e.path)
    requires TranTied(c, pr, RunLines(h, c.fs, pr.out).value)
    ensures var pr1 := Announcing(c, pr, e);
            var s, r1 := RunLines(h, c.fs, pr.out).value, RunLines(h, c.fs, pr1.out);
            && r1.Some? && r1.value == s.(tran := r1.value.tran, special := r1.value.special)
            && TranTied(c, pr1, r1.value) && HeaderRead(c, r1.value, e)
            && (!Announced(c, e) ==> r1.value.special == s.special)
  {
    if Announced(c, e) && pr.prev != Some(e.entry.src.num) {
      RunLinesSnoc(h, c.fs, pr.out, Header(e.entry.src.name));
      forall p | p in c.view
        ensures ToldApart(c, p, e.path)
      {
      }
    }
  }

  /** After the header of `e` every waiting directory that carries a line finds it read. */
  lemma {:induction false} HeadersAreRead(c: Input, h: Host, e: Event, s: State, s1: State)
    requires Known(c, e.path) && e == EventFor(c, e.path) && HasLine(c, e.path) && RedoTied(c, h, s)
    requires s1 == s.(tran := s1.tran, special := s1.special)
    requires HeaderRead(c, s1, e) && (!Announced(c, e) ==> s1.special == s.special)
    ensures HeadersRead(c, s1.head, s1.special, e.path)
    ensures AnnouncedAt(c, e.path) ==> s1.special == (c.view[e.path].src.kind == Special)
    ensures Announced(c, e) <==> AnnouncedAt(c, e.path)
  {
  }

  /** The line of one more name, the header having been read. */
  lemma {:induction false} LineRuns(c: Input, h: Host, evs: seq<Event>, e: Event, s: State, sign: Sign, t: Obj)
    requires Servable(c, h) && NextMet(c, evs, e) && HasLine(c, e.path) && LineFor(c, e, sign, t)
    requires Core(c, h, evs, s.fs, s.head) && PrepathOk(c, evs, s.prepath) && WaitingListed(c, evs, s.head)
    requires HeaderRead(c, s, e) && HeadersRead(c, s.head, s.special, e.path)
    requires AnnouncedAt(c, e.path) ==> s.special == (c.view[e.path].src.kind == Special)
    ensures var r := StepEdit(h, s, sign, e.path, t);
            if FetchesAt(c, h, e.path) then
              r.Some? && StateOk(c, h, evs + [e], r.value) && r.value.tran == s.tran && r.value.special == s.special
            else r == None
  {
    if FetchesAt(c, h, e.path) {
      EditIsRight(c, h, evs, e, s, sign, t);
      var s' := StepEdit(h, s, sign, e.path, t).value;
      WaitingNext(c, h, evs, e, s.head);
      RedoTiedNext(c, h, evs, e, s, s');
      PrepathNext(c, h, evs, e);
    } else {
      EditFails(c, h, evs, e, s, sign, t);
    }
  }

  lemma {:induction false} PrepathNext(c: Input, h: Host, evs: seq<Event>, e: Event)
    requires Servable(c, h) && NextMet(c, evs, e) && HasLine(c, e.path)
    ensures PrepathOk(c, evs + [e], e.path)
  {
    TreeCanonical(if e.path in c.fs then c.fs else ViewTree(c), c.scope.prefix, e.path);
    AfterNext(evs, e, e.path);
    LtIrreflexive(e.path);
    forall q | !After(evs + [e], q)
      ensures Le(q, e.path)
    {
      AfterNext(evs, e, q);
      LtTotal(q, e.path);
    }
  }

  /** A name that is the same prints nothing. */
  lemma {:induction false} SameRuns(c: Input, h: Host, evs: seq<Event>, e: Event, s: State)
    requires Servable(c, h) && NextMet(c, evs, e) && StateOk(c, h, evs, s) && AlreadySame(c, e.path)
    ensures StateOk(c, h, evs + [e], s)
  {
    SameCore(c, h, evs, e, s.fs, s.head);
    WaitingSame(c, evs, e, s.head);
    SameForOthers(c, evs, e);
  }

  lemma {:induction false} LineAndHeaderRun(c: Input, h: Host, evs: seq<Event>, e: Event)
    requires Servable(c, h) && NextMet(c, evs, e) && Agrees(c, h, evs) && HasLine(c, e.path)
    ensures if FetchesAt(c, h, e.path) then Agrees(c, h, evs + [e]) else Applied(c, h, evs + [e]) == None
  {
    var pr, s := Printed(c.cfg, evs), Applied(c, h, evs).value;
    PrintedSnoc(c.cfg, evs, e);
    assert e.path in c.view ==> CanBring(c, h, e.path);
    var sign, t := PrintsOneLine(c, pr, e);
    var pr1 := Announcing(c, pr, e);
    HeaderRuns(c, h, pr, e);
    var s1 := RunLines(h, c.fs, pr1.out).value;
    HeadersAreRead(c, h, e, s, s1);
    RunLinesSnoc(h, c.fs, pr1.out, Edit(sign, e.path, t));
    LineRuns(c, h, evs, e, s1, sign, t);
  }

  /** One more name: the run goes on as it should or, over the wrong answer to a request, ends. */
  lemma {:induction false} EventRuns(c: Input, h: Host, evs: seq<Event>, e: Event)
    requires Servable(c, h) && NextMet(c, evs, e) && Agrees(c, h, evs)
    ensures if HasLine(c, e.path) ==> FetchesAt(c, h, e.path) then Agrees(c, h, evs + [e])
            else Applied(c, h, evs + [e]) == None
  {
    if AlreadySame(c, e.path) {
      PrintedSnoc(c.cfg, evs, e);
      SameRuns(c, h, evs, e, Applied(c, h, evs).value);
    } else {
      LineAndHeaderRun(c, h, evs, e);
    }
  }

  lemma {:induction false} MergeNext(c: Input, evs: seq<Event>, k: nat)
    requires IsMerge(c, evs) && k < |evs|
    ensures NextMet(c, evs[..k], evs[k])
  {
    var p := evs[k].path;
    if k > 0 {
      IndexBefore(evs, k - 1, k);
    }
    forall q | Known(c, q) && Lt(q, p)
      ensures !After(evs[..k], q)
    {
      assert Has(evs, q);
      var j :| 0 <= j < |evs| && evs[j].path == q;
      IndexBefore(evs, j, k);
      NotAfterMet(evs[..k], evs, j);
    }
  }

  /** A name that has been met is not to come. */
  lemma {:induction false} NotAfterMet(front: seq<Event>, evs: seq<Event>, j: nat)
    requires front <= evs && InPathOrder(evs) && j < |front|
    ensures !After(front, evs[j].path)
  {
    var n := |front| - 1;
    IndexBefore(evs, n, j);
  }

  lemma {:induction false} NothingMetYet(c: Input, h: Host)
    ensures Agrees(c, h, [])
  {
    forall q
      ensures PathOk(c, h, [], c.fs, Empty, q)
    {
    }
  }

  /** The lines of the first names can all be acted on. */
  ghost predicate FetchesUpTo(c: Input, h: Host, evs: seq<Event>, k: nat)
    requires k <= |evs|
  {
    forall j :: 0 <= j < k && HasLine(c, evs[j].path) ==> FetchesAt(c, h, evs[j].path)
  }

  lemma {:induction false} AppliedStays(c: Input, h: Host, evs: seq<Event>, e: Event)
    requires Applied(c, h, evs) == None
    ensures Applied(c, h, evs + [e]) == None
  {
    PrintedSnoc(c.cfg, evs, e);
    var before, after := Printed(c.cfg, evs).out, Printed(c.cfg, evs + [e]).out;
    assert after[..|before|] == before;
    RunLinesFail(h, c.fs, after, |before|);
  }

  /** The state after the first `k` names, or None. */
  ghost predicate AgreesAt(c: Input, h: Host, evs: seq<Event>, k: nat, front: seq<Event>)
    requires k <= |evs|
  {
    if FetchesUpTo(c, h, evs, k) then Agrees(c, h, front) else Applied(c, h, front) == None
  }

  lemma {:induction false} FetchesOneMore(c: Input, h: Host, evs: seq<Event>, k: nat)
    requires k < |evs|
    ensures FetchesUpTo(c, h, evs, k + 1) <==>
            FetchesUpTo(c, h, evs, k) && (HasLine(c, evs[k].path) ==> FetchesAt(c, h, evs[k].path))
  {
  }

  lemma {:induction false} AgreesNext(c: Input, h: Host, evs: seq<Event>, k: nat, front: seq<Event>, all: seq<Event>)
    requires Servable(c, h) && k < |evs| && NextMet(c, front, evs[k]) && all == front + [evs[k]]
    requires AgreesAt(c, h, evs, k, front)
    ensures AgreesAt(c, h, evs, k + 1, all)
  {
    FetchesOneMore(c, h, evs, k);
    if FetchesUpTo(c, h, evs, k) {
      EventRuns(c, h, front, evs[k]);
    } else {
      AppliedStays(c, h, front, evs[k]);
    }
  }

  lemma {:induction false} AgreesUpTo(c: Input, h: Host, evs: seq<Event>, k: nat, front: seq<Event>)
    requires Servable(c, h) && IsMerge(c, evs) && k <= |evs| && front == evs[..k]
    ensures AgreesAt(c, h, evs, k, front)
    decreases k
  {
    if k == 0 {
      NothingMetYet(c, h);
    } else {
      var before := evs[..k - 1];
      AgreesUpTo(c, h, evs, k - 1, before);
      MergeNext(c, evs, k - 1);
      NamesUpTo(evs, k - 1);
      AgreesNext(c, h, evs, k - 1, before, front);
    }
  }

  /** The invariant holds after every name the diff met, as long as the requests are met; and
      from the first that is not, the run has ended. */
  lemma {:induction false} AlwaysAgrees(c: Input, h: Host, evs: seq<Event>)
    requires Servable(c, h) && IsMerge(c, evs)
    ensures if FetchesUpTo(c, h, evs, |evs|) then Agrees(c, h, evs) else Applied(c, h, evs) == None
  {
    AgreesUpTo(c, h, evs, |evs|, evs);
  }

  /* ---- the main results ---- */

  /** A diff and an apply for which every request is answered well. */
  ghost predicate Good(c: Input, h: Host) {
    Servable(c, h) && RequestsMet(c, h)
  }

  lemma {:induction false} MetIffFetches(c: Input, h: Host, evs: seq<Event>)
    requires IsMerge(c, evs)
    ensures RequestsMet(c, h) <==> FetchesUpTo(c, h, evs, |evs|)
  {
    if FetchesUpTo(c, h, evs, |evs|) {
      forall p
        ensures FetchesAt(c, h, p)
      {
        if HasLine(c, p) {
          assert Has(evs, p);
        }
      }
    } else {
      var j :| 0 <= j < |evs| && !FetchesAt(c, h, evs[j].path);
    }
  }

  /** At the end everything has been met. */
  lemma {:induction false} AllIsMet(c: Input, evs: seq<Event>)
    requires IsMerge(c, evs)
    ensures forall q :: Known(c, q) ==> !After(evs, q)
  {
    forall q | Known(c, q)
      ensures !After(evs, q)
    {
      assert Has(evs, q);
      var j :| 0 <= j < |evs| && evs[j].path == q;
      NotAfterMet(evs, evs, j);
    }
  }

  /** The directories that are still on the list get their lines done rightly too. */
  lemma {:induction false} LastPopsAreOk(c: Input, h: Host, evs: seq<Event>, s: State, d: Path)
    requires Servable(c, h) && StateOk(c, h, evs, s) && Listed(s.head, d)
    requires forall q :: Known(c, q) ==> !After(evs, q)
    ensures PoppedOk(c, h, s.st, s.special, d)
  {
    ListedOk(c, evs, s.head, d);
    if d in c.view {
      ReplacedHasLine(c, d);
      assert IsLast(c, s.prepath);
      forall n
        ensures !IsNext(c, d, n)
      {
        assert Waits(c, evs, d);
      }
      BufferForLast(c, h, d, s.prepath);
      assert CanBring(c, h, d);
      if c.view[d].obj.kind == File {
        OwnRequest(c, h, d);
      }
    }
  }

  lemma {:induction false} ListIsEmptied(c: Input, h: Host, evs: seq<Event>)
    requires Servable(c, h) && IsMerge(c, evs) && Agrees(c, h, evs)
    ensures var r := Lapply(h, c.fs, Printed(c.cfg, evs).out);
            r.Some? && Core(c, h, evs, r.value.fs, Empty)
  {
    var s := Applied(c, h, evs).value;
    AllIsMet(c, evs);
    forall d | Listed(s.head, d)
      ensures PoppedOk(c, h, s.st, s.special, d)
    {
      LastPopsAreOk(c, h, evs, s, d);
    }
    PopAllCore(c, h, evs, s);
  }

  /** Applying the diff takes no error step exactly when every directory that makes way for a
      file gets that file. */
  lemma {:induction false} ApplySucceedsIff(c: Input, h: Host, evs: seq<Event>)
    requires Servable(c, h) && IsMerge(c, evs)
    ensures Lapply(h, c.fs, Printed(c.cfg, evs).out).Some? <==> RequestsMet(c, h)
  {
    MetIffFetches(c, h, evs);
    AlwaysAgrees(c, h, evs);
    if RequestsMet(c, h) {
      ListIsEmptied(c, h, evs);
    }
  }

  /** It then leaves exactly the names of the view, each as the view has it but for links;
      those are as they were, or made with the buffer that can be told from the inputs. */
  lemma {:induction false} ApplyConverges(c: Input, h: Host, evs: seq<Event>)
    requires Good(c, h) && IsMerge(c, evs)
    ensures var r := Lapply(h, c.fs, Printed(c.cfg, evs).out);
            && r.Some?
            && (forall p :: p in r.value.fs <==> p in c.view)
            && forall p :: p in c.view ==> Settled(c, h, p, r.value.fs[p])
  {
    MetIffFetches(c, h, evs);
    AlwaysAgrees(c, h, evs);
    ListIsEmptied(c, h, evs);
    AllIsMet(c, evs);
    var m := Lapply(h, c.fs, Printed(c.cfg, evs).out).value.fs;
    forall q
      ensures q in m <==> q in c.view
      ensures q in c.view ==> Settled(c, h, q, m[q])
    {
      assert PathOk(c, h, evs, m, Empty, q);
    }
  }

  /** What is left is a tree again, so that it can be walked again. */
  lemma {:induction false} AppliedIsTree(c: Input, h: Host, m: Fs)
    requires TreeShaped(ViewTree(c), c.scope.prefix) && (forall p :: p in c.view ==> CanBring(c, h, p))
    requires (forall p :: p in m <==> p in c.view)
    requires forall p :: p in c.view ==> Settled(c, h, p, m[p])
    ensures TreeShaped(m, c.scope.prefix) && forall p :: p in m ==> m[p].kind != Absent
  {
    forall p | p in m && p != c.scope.prefix
      ensures HasDir(m, p)
    {
      assert HasDir(ViewTree(c), p);
      var d :| d in ViewTree(c) && EntryOf(p, d) && ViewTree(c)[d].kind == Dir;
      assert d in m && m[d].kind == Dir;
    }
    forall p | p in m
      ensures m[p].kind != Absent
    {
      assert CanBring(c, h, p);
    }
  }

  predicate SameAsView(c: Input, m: Fs) {
    m.Keys == c.view.Keys && forall p :: p in m ==> Alike(c.cfg, m[p], c.view[p])
  }

  /** A full merge prints nothing exactly when the filesystem is as the view has it, in
      content and attributes. */
  lemma {:induction false} SilentIffSame(c: Input, evs: seq<Event>)
    requires IsMerge(c, evs)
    ensures Printed(c.cfg, evs).out == [] <==> SameAsView(c, c.fs)
  {
    SilentIffAllAlike(c.cfg, evs);
    if Printed(c.cfg, evs).out == [] {
      forall p | Known(c, p)
        ensures p in c.fs && p in c.view && Alike(c.cfg, c.fs[p], c.view[p])
      {
        assert Has(evs, p);
        var i :| 0 <= i < |evs| && evs[i].path == p;
        assert evs[i] == EventFor(c, p);
      }
    }
    if SameAsView(c, c.fs) {
      forall i | 0 <= i < |evs|
        ensures evs[i].Compared? && Alike(c.cfg, evs[i].obj, evs[i].entry)
      {
        assert Known(c, evs[i].path) && evs[i] == EventFor(c, evs[i].path);
      }
    }
  }

  /** A link of the view is already the same, or the one made in its place, with what the
      buffer then holds, gets the right owner and mode. */
  ghost predicate LinkKeptAt(c: Input, h: Host, p: Path)
    requires p in c.view
  {
    c.view[p].obj.kind == SymLink ==> AlreadySame(c, p) || LinkKept(h, BufferFor(c, h, p), c.view[p].obj)
  }

  ghost predicate LinksKept(c: Input, h: Host) {
    forall p :: p in c.view ==> LinkKeptAt(c, h, p)
  }

  /** So it is when new links come out right by themselves. */
  lemma {:induction false} SafeLinksAreKept(c: Input, h: Host)
    requires forall p :: p in c.view && c.view[p].obj.kind == SymLink ==>
                           AlreadySame(c, p) || LinkSafe(h, c.view[p].obj)
    ensures LinksKept(c, h)
  {
  }

  lemma {:induction false} SettledIsSameIff(c: Input, h: Host, p: Path, o: Obj)
    requires c.cfg == h.cfg && CanBring(c, h, p) && Settled(c, h, p, o)
    ensures Alike(c.cfg, o, c.view[p]) <==> LinkKeptAt(c, h, p)
  {
    SameIffAlike(c.cfg, o, c.view[p]);
    if c.view[p].obj.kind == SymLink {
      MadeLinkIsSameIff(h, BufferFor(c, h, p), c.view[p]);
    }
  }

  lemma {:induction false} AllSameIffKept(c: Input, h: Host, m: Fs)
    requires c.cfg == h.cfg && forall p :: p in c.view ==> CanBring(c, h, p)
    requires (forall p :: p in m <==> p in c.view) && forall p :: p in c.view ==> Settled(c, h, p, m[p])
    ensures SameAsView(c, m) <==> LinksKept(c, h)
  {
    assert m.Keys == c.view.Keys;
    forall p | p in c.view
      ensures Alike(c.cfg, m[p], c.view[p]) <==> LinkKeptAt(c, h, p)
    {
      SettledIsSameIff(c, h, p, m[p]);
    }
  }

  lemma {:induction false} OutcomeIsSameIff(c: Input, h: Host, evs: seq<Event>, r: Option<State>)
    requires Good(c, h) && IsMerge(c, evs) && r == Lapply(h, c.fs, Printed(c.cfg, evs).out)
    ensures r.Some? && (SameAsView(c, r.value.fs) <==> LinksKept(c, h))
  {
    ApplyConverges(c, h, evs);
    AllSameIffKept(c, h, r.value.fs);
  }

  /** The second diff is silent exactly when the owners and modes of links are kept: lchown is
      left out when the buffer has the right owner, whoever owns the new link, and the buffer
      may be that of another object. */
  lemma {:induction false} SecondDiffIsSilentIff(c: Input, h: Host, evs: seq<Event>, m: Fs, evs2: seq<Event>)
    requires Good(c, h) && IsMerge(c, evs)
    requires Lapply(h, c.fs, Printed(c.cfg, evs).out).Some?
    requires m == Lapply(h, c.fs, Printed(c.cfg, evs).out).value.fs && IsMerge(c.(fs := m), evs2)
    ensures Printed(c.cfg, evs2).out == [] <==> LinksKept(c, h)
    ensures Printed(c.cfg, evs2).out == [] <==> SameAsView(c, m)
  {
    OutcomeIsSameIff(c, h, evs, Lapply(h, c.fs, Printed(c.cfg, evs).out));
    SilentIffSame(c.(fs := m), evs2);
  }
}
