/** The discipline of lapply's remove list, for every input: the directories on it are
    nested, and each is removed once, after everything inside it and before anything else. */
module RemoveLists {
  import opened Options
  import opened Paths
  import opened Entries
  import opened Updates
  import opened Lapplies

  /** Every directory of the list is above `p`. */
  predicate Around(p: Path, ns: Nodes) {
    ns.Node? ==> Lt(ns.path, p) && Under(p, ns.path) && Around(p, ns.next)
  }

  /** Each directory of the list lies inside all the ones after it. */
  predicate Nested(ns: Nodes) {
    ns.Node? ==> Around(ns.path, ns.next) && Nested(ns.next)
  }

  predicate AllBefore(ns: Nodes, p: Path) {
    ns.Node? ==> Lt(ns.path, p) && AllBefore(ns.next, p)
  }

  predicate Listed(ns: Nodes, p: Path) {
    ns.Node? && (ns.path == p || Listed(ns.next, p))
  }

  /** `a` may be acted on before `b`: in path order, except that a directory waiting for its
      removal comes after what is inside it and before what is not. */
  predicate Follows(a: Act, b: Act) {
    || (Lt(a.path, b.path) && (a.late ==> !Under(b.path, a.path)))
    || (Lt(b.path, a.path) && b.late && Under(a.path, b.path))
  }

  predicate LogOrdered(log: seq<Act>) {
    forall i, j :: 0 <= i < j < |log| ==> Follows(log[i], log[j])
  }

  predicate LogBefore(log: seq<Act>, b: Act) {
    forall i :: 0 <= i < |log| ==> Follows(log[i], b)
  }

  function Waiting(p: Path): Act {
    Act(p, true, true, false)
  }

  /** What is done so far may all come before the removals still to do. */
  predicate LogBeforeAll(log: seq<Act>, ns: Nodes) {
    ns.Node? ==> LogBefore(log, Waiting(ns.path)) && LogBeforeAll(log, ns.next)
  }

  /** Everything done was about paths before `p`, and no removed directory holds `p`. */
  predicate LogPast(log: seq<Act>, p: Path) {
    forall i :: 0 <= i < |log| ==> Lt(log[i].path, p) && (log[i].late ==> !Under(p, log[i].path))
  }

  predicate InLog(log: seq<Act>, p: Path) {
    exists i :: 0 <= i < |log| && log[i].path == p
  }

  /* ---- while a line at `p` is at work ---- */

  predicate Orderly(s: State, p: Path) {
    && Nested(s.head) && AllBefore(s.head, p)
    && LogOrdered(s.log) && LogBeforeAll(s.log, s.head) && LogPast(s.log, p)
  }

  lemma {:induction false} BeforeAllSnoc(log: seq<Act>, ns: Nodes, a: Act)
    requires LogBeforeAll(log, ns) && Around(a.path, ns)
    ensures LogBeforeAll(log + [a], ns)
    decreases ns
  {
    if ns.Node? {
      BeforeAllSnoc(log, ns.next, a);
    }
  }

  lemma {:induction false} RemoveHeadOrderly(h: Host, s: State, p: Path)
    requires Orderly(s, p) && s.head.Node? && !Under(p, s.head.path) && RemoveHead(h, s).Some?
    ensures Orderly(RemoveHead(h, s).value, p)
  {
    BeforeAllSnoc(s.log, s.head.next, Act(s.head.path, true, true, s.head.redo.Some?));
  }

  lemma {:induction false} PopOutsideOrderly(h: Host, s: State, p: Path)
    requires Orderly(s, p) && PopOutside(h, s, p).Some?
    ensures var s' := PopOutside(h, s, p).value;
            && Orderly(s', p) && Around(p, s'.head)
            && forall q :: InLog(s'.log, q) || Listed(s'.head, q) <==> InLog(s.log, q) || Listed(s.head, q)
    decreases s.head
  {
    if s.head.Empty? {
    } else if Under(p, s.head.path) {
      InsideIsAround(p, s.head);
    } else {
      var s1 := RemoveHead(h, s).value;
      RemoveHeadOrderly(h, s, p);
      PopOutsideOrderly(h, s1, p);
      LoggedGrows(s.log, s1.log, s.head.path);
    }
  }

  lemma {:induction false} InsideIsAround(p: Path, ns: Nodes)
    requires Nested(ns) && AllBefore(ns, p) && (ns.Node? ==> Under(p, ns.path))
    ensures Around(p, ns)
    decreases ns
  {
    if ns.Node? && ns.next.Node? {
      UnderTransitive(p, ns.path, ns.next.path);
      InsideIsAround(p, ns.next);
    }
  }

  lemma {:induction false} LoggedGrows(log: seq<Act>, log': seq<Act>, p: Path)
    requires |log'| == |log| + 1 && log <= log' && log'[|log|].path == p
    ensures forall q :: InLog(log', q) <==> InLog(log, q) || q == p
  {
    forall q
      ensures InLog(log', q) <==> InLog(log, q) || q == p
    {
      if InLog(log, q) {
        var i :| 0 <= i < |log| && log[i].path == q;
        assert log'[i].path == q;
      }
      assert log'[|log|].path == p;
    }
  }

  /* ---- between lines ---- */

  /** The list surrounds the last path read, and all else is done. */
  predicate Disciplined(s: State) {
    && Nested(s.head) && LogOrdered(s.log) && LogBeforeAll(s.log, s.head)
    && (s.head.Node? ==> Under(s.prepath, s.head.path))
    && AllUpTo(s.head, s.prepath)
    && forall i :: 0 <= i < |s.log| ==>
                     Le(s.log[i].path, s.prepath) && (s.log[i].late ==> !Under(s.prepath, s.log[i].path))
  }

  predicate AllUpTo(ns: Nodes, p: Path) {
    ns.Node? ==> Le(ns.path, p) && AllUpTo(ns.next, p)
  }

  lemma {:induction false} AllUpToThenBefore(ns: Nodes, p: Path, q: Path)
    requires AllUpTo(ns, p) && Lt(p, q)
    ensures AllBefore(ns, q)
    decreases ns
  {
    if ns.Node? {
      LeLtTransitive(ns.path, p, q);
      AllUpToThenBefore(ns.next, p, q);
    }
  }

  lemma {:induction false} AroundUpTo(p: Path, ns: Nodes)
    requires Around(p, ns)
    ensures AllUpTo(ns, p)
    decreases ns
  {
    if ns.Node? {
      AroundUpTo(p, ns.next);
    }
  }

  /** A line further on finds the list orderly. */
  lemma {:induction false} NextIsOrderly(s: State, p: Path)
    requires Disciplined(s) && (s.prepath == [] ==> s.head.Empty? && s.log == [])
    requires s.prepath != [] ==> Lt(s.prepath, p)
    ensures Orderly(s, p)
  {
    if s.prepath != [] {
      AllUpToThenBefore(s.head, s.prepath, p);
      forall i | 0 <= i < |s.log|
        ensures Lt(s.log[i].path, p) && (s.log[i].late ==> !Under(p, s.log[i].path))
      {
        LeLtTransitive(s.log[i].path, s.prepath, p);
        if s.log[i].late && Under(p, s.log[i].path) {
          SubtreeContiguous(s.log[i].path, s.prepath, p);
        }
      }
    }
  }

  /** What acting on a line at `p` adds: one report, or one directory on the list. */
  predicate OneMore(s: State, s': State, p: Path) {
    && s'.prepath == s.prepath
    && if s'.head == s.head then
         && |s'.log| == |s.log| + 1 && s'.log == s.log + [s'.log[|s.log|]]
         && s'.log[|s.log|].path == p && !s'.log[|s.log|].late
       else s'.log == s.log && s'.head.Node? && s'.head.path == p && s'.head.next == s.head
  }

  lemma {:induction false} RemovalAddsOne(h: Host, s: State, sign: Sign, p: Path, t: Obj)
    requires RemoveThenDo(h, s, sign, p, t).Some?
    ensures OneMore(s, RemoveThenDo(h, s, sign, p, t).value, p)
  {
  }

  lemma {:induction false} ActOnAddsOne(h: Host, s: State, sign: Sign, p: Path, t: Obj, found: Kind)
    requires ActOn(h, s, sign, p, t, found).Some?
    ensures OneMore(s, ActOn(h, s, sign, p, t, found).value, p)
  {
    if (sign == Minus || Differs(found, t)) && found != Dir {
      RemovalAddsOne(h, s, sign, p, t);
    }
  }

  lemma {:induction false} OneMoreDisciplined(s: State, s': State, p: Path)
    requires Orderly(s, p) && Around(p, s.head) && s.prepath == p && OneMore(s, s', p)
    ensures Disciplined(s')
    ensures forall q :: InLog(s'.log, q) || Listed(s'.head, q) <==> InLog(s.log, q) || Listed(s.head, q) || q == p
  {
    UnderReflexive(p);
    AroundUpTo(p, s.head);
    if s'.head == s.head {
      BeforeAllSnoc(s.log, s.head, s'.log[|s.log|]);
      LoggedGrows(s.log, s'.log, p);
    }
  }

  /* ---- whole runs ---- */

  predicate EditOf(l: OutLine, p: Path) {
    l.Edit? && l.path == p
  }

  predicate InEdits(ls: seq<OutLine>, p: Path) {
    exists i :: 0 <= i < |ls| && EditOf(ls[i], p)
  }

  /** decode gives a path to every line. */
  predicate NamesGiven(ls: seq<OutLine>) {
    forall i :: 0 <= i < |ls| && ls[i].Edit? ==> ls[i].path != []
  }

  /** At every step of every run: the list is nested around the last path, every line read
      is reported or waits on the list, and the reports come in order. */
  lemma {:induction false} AlwaysDisciplined(h: Host, m: Fs, ls: seq<OutLine>)
    requires NamesGiven(ls) && RunLines(h, m, ls).Some?
    ensures var s := RunLines(h, m, ls).value;
            && Disciplined(s) && (s.prepath == [] ==> s.head.Empty? && s.log == [])
            && forall p :: InEdits(ls, p) <==> InLog(s.log, p) || Listed(s.head, p)
    decreases |ls|
  {
    if |ls| > 0 {
      var n := |ls| - 1;
      var front := ls[..n];
      AlwaysDisciplined(h, m, front);
      EditsGrow(ls);
      var s := RunLines(h, m, front).value;
      if ls[n].Edit? {
        var p := ls[n].path;
        assert Acceptable(s, ls[n].sign, p);
        NextIsOrderly(s, p);
        var s0 := Looked(s, p);
        PopOutsideOrderly(h, s0, p);
        var s1 := PopOutside(h, s0, p).value;
        ActOnAddsOne(h, s1, ls[n].sign, p, ls[n].obj, KindAt(s.fs, p));
        OneMoreDisciplined(s1, RunLines(h, m, ls).value, p);
      }
    }
  }

  /** A directory in the way of a line, or under a "-", goes to the head of the list, and
      carries the line, "-" and all, if that is for another type. */
  lemma {:induction false} DirectoryWaits(h: Host, s: State, sign: Sign, p: Path, t: Obj)
    requires sign == Minus || t.kind != Dir
    ensures ActOn(h, s, sign, p, t, Dir) ==
            Some(s.(head := Node(p, if t.kind != Dir then Some(Redo(sign, t, s.tran)) else None, s.head)))
  {
  }

  /** What is reported at once of a line: "deleted" when something was in its way or it has a
      "-", and an update when it has none. */
  lemma {:induction false} ReportedAs(h: Host, s: State, sign: Sign, p: Path, t: Obj, found: Kind)
    requires ActOn(h, s, sign, p, t, found).Some? && found != Dir
    ensures var a := ActOn(h, s, sign, p, t, found).value.log;
            && |a| == |s.log| + 1 && a[|s.log|].path == p && (a[|s.log|].updated <==> sign != Minus)
            && (a[|s.log|].deleted <==> sign == Minus || (found != Absent && found != t.kind))
  {
  }

  /** `change` is set exactly when some line was applied; removals alone do not set it. */
  predicate ChangeTold(s: State) {
    s.change <==> exists i :: 0 <= i < |s.log| && s.log[i].updated
  }

  lemma {:induction false} ToldAgain(s: State, s': State, a: Act)
    requires ChangeTold(s) && s'.log == s.log + [a] && s'.change == (s.change || a.updated)
    ensures ChangeTold(s')
  {
    var n := |s.log|;
    assert s'.log[n] == a && forall i :: 0 <= i < n ==> s'.log[i] == s.log[i];
    if s.change {
      var i :| 0 <= i < n && s.log[i].updated;
      assert s'.log[i].updated;
    }
  }

  lemma {:induction false} RemoveHeadTold(h: Host, s: State)
    requires s.head.Node? && ChangeTold(s) && RemoveHead(h, s).Some?
    ensures ChangeTold(RemoveHead(h, s).value)
  {
    ToldAgain(s, RemoveHead(h, s).value, Act(s.head.path, true, true, s.head.redo.Some?));
  }

  lemma {:induction false} PopOutsideTold(h: Host, s: State, p: Path)
    requires ChangeTold(s) && PopOutside(h, s, p).Some?
    ensures ChangeTold(PopOutside(h, s, p).value)
    decreases s.head
  {
    if s.head.Node? && !Under(p, s.head.path) {
      RemoveHeadTold(h, s);
      PopOutsideTold(h, RemoveHead(h, s).value, p);
    }
  }

  lemma {:induction false} ActOnTold(h: Host, s: State, sign: Sign, p: Path, t: Obj, found: Kind)
    requires ChangeTold(s) && ActOn(h, s, sign, p, t, found).Some?
    ensures ChangeTold(ActOn(h, s, sign, p, t, found).value)
  {
    var s' := ActOn(h, s, sign, p, t, found).value;
    if s'.log != s.log {
      var gone := sign == Minus || Differs(found, t);
      ToldAgain(s, s', Act(p, false, gone, sign != Minus));
    }
  }

  /** At every step of every run. */
  lemma {:induction false} ChangeIffUpdated(h: Host, m: Fs, ls: seq<OutLine>)
    requires RunLines(h, m, ls).Some?
    ensures ChangeTold(RunLines(h, m, ls).value)
    decreases |ls|
  {
    if |ls| > 0 {
      var n := |ls| - 1;
      ChangeIffUpdated(h, m, ls[..n]);
      var s := RunLines(h, m, ls[..n]).value;
      if ls[n].Edit? {
        var s0 := Looked(s, ls[n].path);
        assert ChangeTold(s0);
        PopOutsideTold(h, s0, ls[n].path);
        ActOnTold(h, PopOutside(h, s0, ls[n].path).value, ls[n].sign, ls[n].path, ls[n].obj, KindAt(s.fs, ls[n].path));
      }
    }
  }

  lemma {:induction false} EditsGrow(ls: seq<OutLine>)
    requires |ls| > 0
    ensures forall p :: InEdits(ls, p) <==> InEdits(ls[..|ls| - 1], p) || EditOf(ls[|ls| - 1], p)
  {
    var n := |ls| - 1;
    forall p
      ensures InEdits(ls, p) <==> InEdits(ls[..n], p) || EditOf(ls[n], p)
    {
      if InEdits(ls[..n], p) {
        var i :| 0 <= i < n && EditOf(ls[..n][i], p);
        assert EditOf(ls[i], p);
      }
      if InEdits(ls, p) {
        var i :| 0 <= i < |ls| && EditOf(ls[i], p);
        if i < n {
          assert EditOf(ls[..n][i], p);
        }
      }
    }
  }

  lemma {:induction false} PopAllOrderly(h: Host, s: State)
    requires Nested(s.head) && LogOrdered(s.log) && LogBeforeAll(s.log, s.head) && PopAll(h, s).Some?
    ensures var s' := PopAll(h, s).value;
            && s'.head.Empty? && LogOrdered(s'.log)
            && forall q :: InLog(s'.log, q) <==> InLog(s.log, q) || Listed(s.head, q)
    decreases s.head
  {
    if s.head.Node? {
      var s1 := RemoveHead(h, s).value;
      BeforeAllSnoc(s.log, s.head.next, Act(s.head.path, true, true, s.head.redo.Some?));
      PopAllOrderly(h, s1);
      LoggedGrows(s.log, s1.log, s.head.path);
    }
  }

  /* ---- which directories wait ---- */

  /** Line `i` finds a directory that it removes or replaces. */
  predicate Deferred(h: Host, m: Fs, ls: seq<OutLine>, i: nat)
    requires i < |ls|
  {
    && RunLines(h, m, ls[..i]).Some? && ls[i].Edit?
    && KindAt(RunLines(h, m, ls[..i]).value.fs, ls[i].path) == Dir
    && (ls[i].sign == Minus || ls[i].obj.kind != Dir)
  }

  function DeferredPaths(h: Host, m: Fs, ls: seq<OutLine>): set<Path> {
    if |ls| == 0 then {}
    else
      DeferredPaths(h, m, ls[..|ls| - 1]) +
      (if Deferred(h, m, ls, |ls| - 1) then {ls[|ls| - 1].path} else {})
  }

  predicate AllListed(ns: Nodes, ps: set<Path>) {
    ns.Node? ==> ns.path in ps && AllListed(ns.next, ps)
  }

  predicate LateAre(log: seq<Act>, ps: set<Path>) {
    forall i :: 0 <= i < |log| ==> (log[i].late <==> log[i].path in ps)
  }

  lemma {:induction false} PopOutsideLate(h: Host, s: State, p: Path, ps: set<Path>)
    requires AllListed(s.head, ps) && LateAre(s.log, ps) && PopOutside(h, s, p).Some?
    ensures AllListed(PopOutside(h, s, p).value.head, ps) && LateAre(PopOutside(h, s, p).value.log, ps)
    decreases s.head
  {
    if s.head.Node? && !Under(p, s.head.path) {
      PopOutsideLate(h, RemoveHead(h, s).value, p, ps);
    }
  }

  lemma {:induction false} PopAllLate(h: Host, s: State, ps: set<Path>)
    requires AllListed(s.head, ps) && LateAre(s.log, ps) && PopAll(h, s).Some?
    ensures LateAre(PopAll(h, s).value.log, ps)
    decreases s.head
  {
    if s.head.Node? {
      PopAllLate(h, RemoveHead(h, s).value, ps);
    }
  }

  lemma {:induction false} AllListedMore(ns: Nodes, ps: set<Path>, p: Path)
    requires AllListed(ns, ps)
    ensures AllListed(ns, ps + {p})
    decreases ns
  {
    if ns.Node? {
      AllListedMore(ns.next, ps, p);
    }
  }

  lemma {:induction false} ActOnLate(h: Host, s: State, sign: Sign, p: Path, t: Obj, found: Kind, ps: set<Path>)
    requires AllListed(s.head, ps) && LateAre(s.log, ps) && LogPast(s.log, p) && p !in ps
    requires ActOn(h, s, sign, p, t, found).Some?
    ensures var s' := ActOn(h, s, sign, p, t, found).value;
            var ps' := ps + (if found == Dir && (sign == Minus || t.kind != Dir) then {p} else {});
            && AllListed(s'.head, ps') && LateAre(s'.log, ps')
  {
    LtIrreflexive(p);
    AllListedMore(s.head, ps, p);
    assert ps + {} == ps;
  }

  lemma {:induction false} StepLate(h: Host, s: State, sign: Sign, p: Path, t: Obj, ps: set<Path>)
    requires Orderly(s, p) && AllListed(s.head, ps) && LateAre(s.log, ps) && p !in ps
    requires StepEdit(h, s, sign, p, t).Some?
    ensures var s' := StepEdit(h, s, sign, p, t).value;
            var ps' := ps + (if KindAt(s.fs, p) == Dir && (sign == Minus || t.kind != Dir) then {p} else {});
            && AllListed(s'.head, ps') && LateAre(s'.log, ps')
  {
    var s0 := Looked(s, p);
    PopOutsideLate(h, s0, p, ps);
    PopOutsideOrderly(h, s0, p);
    ActOnLate(h, PopOutside(h, s0, p).value, sign, p, t, KindAt(s.fs, p), ps);
  }

  lemma {:induction false} DeferredAreRead(h: Host, m: Fs, ls: seq<OutLine>, p: Path)
    requires p in DeferredPaths(h, m, ls)
    ensures InEdits(ls, p)
    decreases |ls|
  {
    EditsGrow(ls);
    if p in DeferredPaths(h, m, ls[..|ls| - 1]) {
      DeferredAreRead(h, m, ls[..|ls| - 1], p);
    }
  }

  lemma {:induction false} DeferredAreOld(h: Host, m: Fs, ls: seq<OutLine>, p: Path)
    requires NamesGiven(ls) && RunLines(h, m, ls).Some?
    requires RunLines(h, m, ls).value.prepath != [] ==> Lt(RunLines(h, m, ls).value.prepath, p)
    ensures p !in DeferredPaths(h, m, ls)
  {
    LastIsNew(h, m, ls, p);
    if p in DeferredPaths(h, m, ls) {
      DeferredAreRead(h, m, ls, p);
    }
  }

  /** The reports that came late are those of the directories removed or replaced. */
  lemma {:induction false} LateAreDeferred(h: Host, m: Fs, ls: seq<OutLine>)
    requires NamesGiven(ls) && RunLines(h, m, ls).Some?
    ensures var s := RunLines(h, m, ls).value;
            AllListed(s.head, DeferredPaths(h, m, ls)) && LateAre(s.log, DeferredPaths(h, m, ls))
    decreases |ls|
  {
    if |ls| > 0 {
      var n := |ls| - 1;
      var front := ls[..n];
      LateAreDeferred(h, m, front);
      var s, ps := RunLines(h, m, front).value, DeferredPaths(h, m, front);
      assert ps + {} == ps;
      if ls[n].Edit? {
        AlwaysDisciplined(h, m, front);
        NextIsOrderly(s, ls[n].path);
        DeferredAreOld(h, m, front, ls[n].path);
        StepLate(h, s, ls[n].sign, ls[n].path, ls[n].obj, ps);
      }
    }
  }

  /** A path further on has not been read yet. */
  lemma {:induction false} LastIsNew(h: Host, m: Fs, ls: seq<OutLine>, p: Path)
    requires NamesGiven(ls) && RunLines(h, m, ls).Some?
    requires RunLines(h, m, ls).value.prepath != [] ==> Lt(RunLines(h, m, ls).value.prepath, p)
    ensures !InEdits(ls, p)
  {
    var s := RunLines(h, m, ls).value;
    AlwaysDisciplined(h, m, ls);
    NextIsOrderly(s, p);
    if InLog(s.log, p) || Listed(s.head, p) {
      LtIrreflexive(p);
      if Listed(s.head, p) {
        ListedBefore(s.head, p, p);
      }
    }
  }

  lemma {:induction false} ListedBefore(ns: Nodes, q: Path, p: Path)
    requires AllBefore(ns, p) && Listed(ns, q)
    ensures Lt(q, p)
    decreases ns
  {
    if ns.path != q {
      ListedBefore(ns.next, q, p);
    }
  }

  /** A successful run reports exactly the paths of its input, each once, in path order but
      for the directories on the list: each is removed after everything in its subtree and
      before anything outside that comes later. */
  lemma {:induction false} RemovalsInOrder(h: Host, m: Fs, ls: seq<OutLine>)
    requires NamesGiven(ls) && Lapply(h, m, ls).Some?
    ensures var s := Lapply(h, m, ls).value;
            && s.head.Empty? && LogOrdered(s.log)
            && (forall p :: InEdits(ls, p) <==> InLog(s.log, p))
            && LateAre(s.log, DeferredPaths(h, m, ls))
            && forall i, j :: 0 <= i < j < |s.log| ==> s.log[i].path != s.log[j].path
  {
    AlwaysDisciplined(h, m, ls);
    LateAreDeferred(h, m, ls);
    PopAllLate(h, RunLines(h, m, ls).value, DeferredPaths(h, m, ls));
    PopAllOrderly(h, RunLines(h, m, ls).value);
    var log := Lapply(h, m, ls).value.log;
    forall i, j | 0 <= i < j < |log|
      ensures log[i].path != log[j].path
    {
      assert Follows(log[i], log[j]);
      LtIrreflexive(log[i].path);
    }
  }
}
