/** What the calls of fs_walk add to the names met, as facts about values. */
module WalkRules {
  import opened Options
  import opened Paths
  import opened Entries
  import opened Trees
  import opened Views
  import opened FsLists
  import opened Journal

  /* ---- growth within a subtree ---- */

  predicate Within(e: Event, path: Path) {
    Under(e.path, path) || (e.TranOnly? && Lt(e.path, path))
  }

  /** `evs1` adds to `evs0` names in the subtree of `path`, and names before it that only the
      transcripts have. */
  predicate GrewWithin(evs0: seq<Event>, evs1: seq<Event>, path: Path)
    decreases |evs1|
  {
    evs1 == evs0 ||
    (|evs1| > |evs0| && Within(evs1[|evs1| - 1], path) && GrewWithin(evs0, evs1[..|evs1| - 1], path))
  }

  lemma {:induction false} GrewMeans(evs0: seq<Event>, evs1: seq<Event>, path: Path)
    requires GrewWithin(evs0, evs1, path)
    ensures evs0 <= evs1
    ensures forall i :: |evs0| <= i < |evs1| ==> Within(evs1[i], path)
    decreases |evs1|
  {
    if evs1 != evs0 {
      var front := evs1[..|evs1| - 1];
      GrewMeans(evs0, front, path);
      assert forall i :: |evs0| <= i < |front| ==> front[i] == evs1[i];
    }
  }

  lemma {:induction false} GrewIntro(evs0: seq<Event>, evs1: seq<Event>, path: Path)
    requires evs0 <= evs1 && forall i :: |evs0| <= i < |evs1| ==> Within(evs1[i], path)
    ensures GrewWithin(evs0, evs1, path)
    decreases |evs1|
  {
    if evs1 != evs0 {
      assert |evs1| > |evs0|;
      var front := evs1[..|evs1| - 1];
      assert forall i :: |evs0| <= i < |front| ==> front[i] == evs1[i];
      GrewIntro(evs0, front, path);
    }
  }

  lemma {:induction false} GrewTransitive(evs0: seq<Event>, evs1: seq<Event>, evs2: seq<Event>, path: Path)
    requires GrewWithin(evs0, evs1, path) && GrewWithin(evs1, evs2, path)
    ensures GrewWithin(evs0, evs2, path)
  {
    GrewMeans(evs0, evs1, path);
    GrewMeans(evs1, evs2, path);
    GrewIntro(evs0, evs2, path);
  }

  lemma {:induction false} GrewWider(evs0: seq<Event>, evs1: seq<Event>, child: Path, path: Path)
    requires GrewWithin(evs0, evs1, child) && Under(child, path)
    ensures GrewWithin(evs0, evs1, path)
  {
    GrewMeans(evs0, evs1, child);
    forall i | |evs0| <= i < |evs1|
      ensures Within(evs1[i], path)
    {
      var p := evs1[i].path;
      if Under(p, child) {
        UnderTransitive(p, child, path);
      } else {
        LtTotal(p, path);
        if !Lt(p, path) {
          SubtreeContiguous(path, p, child);
        }
      }
    }
    GrewIntro(evs0, evs1, path);
  }

  lemma {:induction false} MetGrew(c: Input, evs0: seq<Event>, evs1: seq<Event>, path: Path)
    requires (path in c.fs || path in c.view) && Met(c, evs0, evs1, path)
    ensures GrewWithin(evs0, evs1, path) && !After(evs1, path)
  {
    LtIrreflexive(path);
    OnlyTranMeans(evs0, evs1[..|evs1| - 1], Some(path));
    GrewIntro(evs0, evs1[..|evs1| - 1], path);
    OnlyTranMeans(evs0, evs1[..|evs1| - 1], Some(path));
  }

  lemma {:induction false} AfterGrowth(c: Input, evs0: seq<Event>, evs1: seq<Event>, p: Path)
    requires Kept(c, evs1) && evs0 <= evs1 && After(evs1, p)
    ensures After(evs0, p)
  {
    if 0 < |evs0| < |evs1| {
      KeptInPathOrder(c, evs1);
      assert Precedes(evs1, |evs0| - 1, |evs1| - 1);
      LtTransitive(evs0[|evs0| - 1].path, evs1[|evs1| - 1].path, p);
    }
  }

  /** After one entry of a directory has been walked, the next one is still to come. */
  lemma {:induction false} NextEntryComes(evs0: seq<Event>, evs1: seq<Event>, d: Path, m: Path, n: Path)
    requires |d| > 0 && IsName(m) && IsName(n) && Lt(m, n)
    requires After(evs0, Join(d, m)) && GrewWithin(evs0, evs1, Join(d, m))
    ensures After(evs1, Join(d, n))
  {
    GrewMeans(evs0, evs1, Join(d, m));
    SiblingSubtrees(d, m, n, Join(d, m), Join(d, n));
    if |evs1| > 0 {
      var p := evs1[|evs1| - 1].path;
      if |evs1| == |evs0| || Lt(p, Join(d, m)) {
        LtTransitive(p, Join(d, m), Join(d, n));
      } else {
        SiblingSubtrees(d, m, n, p, Join(d, n));
      }
    }
  }

  /* ---- what the rule for a name depends on ---- */

  predicate IsLater(e: Event, q: Path) {
    e.TranOnly? || !Lt(e.path, q)
  }

  /** `evs1` adds to `evs0` no object before `q`. */
  predicate Later(evs0: seq<Event>, evs1: seq<Event>, q: Path) {
    evs0 <= evs1 && InPathOrder(evs1) && forall i :: |evs0| <= i < |evs1| ==> IsLater(evs1[i], q)
  }

  lemma {:induction false} VisitedStays(evs0: seq<Event>, evs1: seq<Event>, q: Path)
    requires HasVisited(evs0, q) && evs0 <= evs1
    ensures HasVisited(evs1, q)
  {
    var i :| 0 <= i < |evs0| && evs0[i].path == q && Visited(evs0[i]);
    assert evs1[i] == evs0[i];
  }

  lemma {:induction false} VisitedSame(evs0: seq<Event>, evs1: seq<Event>, q: Path, x: Path)
    requires Later(evs0, evs1, q) && Lt(x, q)
    ensures HasVisited(evs0, x) <==> HasVisited(evs1, x)
  {
    if HasVisited(evs0, x) {
      VisitedStays(evs0, evs1, x);
    }
    if HasVisited(evs1, x) {
      var i :| 0 <= i < |evs1| && evs1[i].path == x && Visited(evs1[i]);
      assert !IsLater(evs1[i], q);
      assert evs0[i] == evs1[i];
    }
  }

  /** What holds a name strictly comes before it. */
  lemma {:induction false} HolderBefore(p: Path, x: Path, q: Path)
    requires Under(p, x) && p != x && Le(p, q)
    ensures Lt(x, q)
  {
    UnderAfter(p, x);
    LeLtTransitive(x, p, q);
  }

  lemma {:induction false} InNegSame(c: Input, evs0: seq<Event>, evs1: seq<Event>, q: Path, p: Path, n: Path)
    requires Later(evs0, evs1, q) && Le(p, q)
    ensures InNeg(c, evs0, p, n) <==> InNeg(c, evs1, p, n)
  {
    if Under(p, n) && p != n {
      HolderBefore(p, n, q);
      VisitedSame(evs0, evs1, q, n);
    }
  }

  lemma {:induction false} LedSame(c: Input, evs0: seq<Event>, evs1: seq<Event>, q: Path, p: Path)
    requires TreeShaped(c.fs, c.scope.prefix) && Later(evs0, evs1, q) && Le(p, q)
    ensures Led(c, evs0, p) <==> Led(c, evs1, p)
  {
    forall d | d in c.fs && EntryOf(p, d)
      ensures Entered(c, evs0, d) <==> Entered(c, evs1, d)
    {
      TreeCanonical(c.fs, c.scope.prefix, d);
      EntryUnder(p, d);
      HolderBefore(p, d, q);
      VisitedSame(evs0, evs1, q, d);
    }
  }

  lemma {:induction false} AfterTranSame(c: Input, evs0: seq<Event>, evs1: seq<Event>, q: Path, j: nat)
    requires Later(evs0, evs1, q) && 0 < j < |evs0| && Le(evs0[j].path, q)
    ensures AfterTranOnly(c, evs0, j) <==> AfterTranOnly(c, evs1, j)
  {
    assert evs1[j] == evs0[j] && evs1[j - 1] == evs0[j - 1];
    assert Precedes(evs1, j - 1, j);
    LeLtTransitive(evs0[j - 1].path, evs0[j].path, q);
    var p := evs0[j - 1].path;
    forall n
      ensures InNeg(c, evs0, p, n) <==> InNeg(c, evs1, p, n)
    {
      InNegSame(c, evs0, evs1, q, p, n);
    }
  }

  lemma {:induction false} SparesSame(c: Input, evs0: seq<Event>, evs1: seq<Event>, q: Path, d: Path)
    requires TreeShaped(c.fs, c.scope.prefix) && Later(evs0, evs1, q)
    requires Lt(d, q) || (d == q && HasVisited(evs0, d))
    ensures Spares(c, evs0, d) <==> Spares(c, evs1, d)
  {
    LedSame(c, evs0, evs1, q, d);
    if MinusBefore(c, evs0, d) {
      var j :| 0 < j < |evs0| && evs0[j].path == d && Visited(evs0[j]) && AfterTranOnly(c, evs0, j);
      AfterTranSame(c, evs0, evs1, q, j);
      assert evs1[j] == evs0[j];
    }
    if MinusBefore(c, evs1, d) {
      var j :| 0 < j < |evs1| && evs1[j].path == d && Visited(evs1[j]) && AfterTranOnly(c, evs1, j);
      if Lt(d, q) {
        assert !IsLater(evs1[j], q);
      } else {
        var i :| 0 <= i < |evs0| && evs0[i].path == d && Visited(evs0[i]);
        assert evs1[i] == evs0[i];
        IndexBefore(evs1, i, j);
      }
      AfterTranSame(c, evs0, evs1, q, j);
      assert evs1[j] == evs0[j];
    }
  }

  lemma {:induction false} DueSame(c: Input, evs0: seq<Event>, evs1: seq<Event>, q: Path, p: Path)
    requires TreeShaped(c.fs, c.scope.prefix) && Later(evs0, evs1, q) && Le(p, q)
    ensures Due(c, evs0, p) <==> Due(c, evs1, p)
  {
    LedSame(c, evs0, evs1, q, p);
    forall d | d in c.fs && EntryOf(p, d)
      ensures Spares(c, evs0, d) <==> Spares(c, evs1, d)
    {
      TreeCanonical(c.fs, c.scope.prefix, d);
      EntryUnder(p, d);
      HolderBefore(p, d, q);
      SparesSame(c, evs0, evs1, q, d);
    }
  }

  lemma {:induction false} LookedUpForSame(c: Input, evs0: seq<Event>, evs1: seq<Event>, q: Path, n: Path)
    requires TreeShaped(c.fs, c.scope.prefix) && Later(evs0, evs1, q)
    ensures LookedUpFor(c, evs0, q, n) <==> LookedUpFor(c, evs1, q, n)
  {
    InNegSame(c, evs0, evs1, q, q, n);
    forall d | Under(q, d) && d != q
      ensures Entered(c, evs0, d) <==> Entered(c, evs1, d)
      ensures GoesOn(c, evs0, d, q) <==> GoesOn(c, evs1, d, q)
    {
      HolderBefore(q, d, q);
      VisitedSame(evs0, evs1, q, d);
      SparesSame(c, evs0, evs1, q, d);
    }
  }

  /** What has been met before a name decides whether the walk finds it. */
  lemma {:induction false} MayVisitSame(c: Input, evs0: seq<Event>, evs1: seq<Event>, q: Path)
    requires TreeShaped(c.fs, c.scope.prefix) && Later(evs0, evs1, q)
    ensures Due(c, evs0, q) <==> Due(c, evs1, q)
    ensures LookedUp(c, evs0, q) <==> LookedUp(c, evs1, q)
    ensures MayVisit(c, evs0, q) <==> MayVisit(c, evs1, q)
  {
    DueSame(c, evs0, evs1, q, q);
    forall n
      ensures LookedUpFor(c, evs0, q, n) <==> LookedUpFor(c, evs1, q, n)
    {
      LookedUpForSame(c, evs0, evs1, q, n);
    }
  }

  /* ---- one call of fs_walk ---- */

  predicate Admitted(c: Input, p: Path) {
    !Skippable(c, p) && Under(p, c.scope.prefix)
  }

  /** A tree, and entries of the view that lie in it and are not excluded. */
  predicate InputOk(c: Input) {
    TreeShaped(c.fs, c.scope.prefix) && forall p {:trigger p in c.view} :: p in c.view ==> Admitted(c, p)
  }

  /** The directory of a name strictly below `p` lies there too. */
  lemma {:induction false} LedBelow(c: Input, evs: seq<Event>, y: Path, p: Path) returns (d: Path)
    requires TreeShaped(c.fs, c.scope.prefix) && Led(c, evs, y) && Under(y, p) && y != p
    ensures Entered(c, evs, d) && EntryOf(y, d) && Under(d, p) && Under(y, d) && Lt(d, y)
  {
    d :| Entered(c, evs, d) && EntryOf(y, d);
    TreeCanonical(c.fs, c.scope.prefix, d);
    EntryUnder(y, d);
    EntryParentUnder(y, d, p);
  }

  lemma {:induction false} VisitedMet(evs: seq<Event>, x: Path)
    requires InPathOrder(evs) && HasVisited(evs, x)
    ensures !After(evs, x) && Le(x, evs[|evs| - 1].path)
  {
    var i :| 0 <= i < |evs| && evs[i].path == x && Visited(evs[i]);
    var n := |evs| - 1;
    LtIrreflexive(x);
    if i < n {
      assert Precedes(evs, i, n);
      LtAsymmetric(x, evs[n].path);
    }
  }

  /** Nothing strictly below a name that is still to come has been led to. */
  lemma {:induction false} NoneBelowNext(c: Input, evs: seq<Event>, y: Path, p: Path)
    requires TreeShaped(c.fs, c.scope.prefix) && InPathOrder(evs) && After(evs, p)
    requires Under(y, p) && y != p
    ensures !Led(c, evs, y)
  {
    if Led(c, evs, y) {
      var d := LedBelow(c, evs, y, p);
      VisitedMet(evs, d);
      UnderAfter(d, p);
      LeLtTransitive(evs[|evs| - 1].path, p, d);
    }
  }

  /** The patterns are off for an entry exactly when its directory says so. */
  lemma {:induction false} SparedByDir(c: Input, evs: seq<Event>, d: Path, e: Path)
    requires TreeShaped(c.fs, c.scope.prefix) && d in c.fs && EntryOf(e, d)
    ensures Spared(c, evs, e) <==> Spares(c, evs, d)
  {
    forall x | x in c.fs && EntryOf(e, x)
      ensures x == d
    {
      OneTreeDir(c.fs, c.scope.prefix, e, d, x);
    }
  }

  /** A call that does not pass the name over finds an object there. */
  lemma {:induction false} CalledIsFound(c: Input, evs: seq<Event>, p: Path, parentMinus: bool)
    requires MayReach(c, evs, p, parentMinus) && !PassedOver(c, p, parentMinus) && p in c.fs
    ensures MayVisit(c, evs, p)
  {
  }

  /* ---- the names only the transcripts have ---- */

  /** What is left before `upTo` the walk does not find. */
  ghost predicate NotFoundBefore(c: Input, evs: seq<Event>, upTo: Option<Path>) {
    forall q {:trigger Left(c, evs, q)} ::
      Left(c, evs, q).Some? && q in c.fs && (upTo.Some? ==> Lt(q, upTo.value)) ==> !MayVisit(c, evs, q)
  }

  lemma {:induction false} TranIsNext(c: Input, evs: seq<Event>, stack: seq<Src>, b: nat, upTo: Option<Path>)
    requires NotFoundBefore(c, evs, upTo) && NextIs(c, evs, stack, b) && More(stack[b])
    requires upTo.Some? ==> Lt(Head(stack[b]), upTo.value)
    ensures MayMeet(c, evs, TranOnly(Head(stack[b]), Current(stack[b])))
  {
    TranMayBeMet(c, evs, stack, b);
  }

  lemma {:induction false} NotFoundStays(c: Input, evs: seq<Event>, e: Event, upTo: Option<Path>)
    requires TreeShaped(c.fs, c.scope.prefix) && Kept(c, evs + [e]) && MayMeet(c, evs, e) && e.TranOnly?
    requires NotFoundBefore(c, evs, upTo)
    ensures NotFoundBefore(c, evs + [e], upTo)
  {
    KeptInPathOrder(c, evs + [e]);
    LeftAfter(c, evs, e);
    forall q | Left(c, evs + [e], q).Some? && q in c.fs && (upTo.Some? ==> Lt(q, upTo.value))
      ensures !MayVisit(c, evs + [e], q)
    {
      MayVisitSame(c, evs, evs + [e], q);
      assert Left(c, evs, q).Some?;
    }
  }

  /** A listed name before `p`, an entry of the directory `d`, is not found: no negative
      directory below `d` is still being read, and `d` goes on with `p`. */
  lemma {:induction false} EntryIsLater(c: Input, evs: seq<Event>, d: Path, p: Path, q: Path, n: Path)
    requires TreeShaped(c.fs, c.scope.prefix) && InPathOrder(evs) && After(evs, p)
    requires Entered(c, evs, d) && EntryOf(p, d) && p in c.fs && (Skippable(c, p) ==> Spares(c, evs, d))
    requires PendingAbove(c, evs, p) && Left(c, evs, q).Some? && Lt(q, p)
    ensures !LookedUpFor(c, evs, q, n)
  {
    if LookedUpFor(c, evs, q, n) {
      assert Pending(c, evs, q, n);
      TreeCanonical(c.fs, c.scope.prefix, d);
      EntryUnder(p, d);
      VisitedMet(evs, n);
      EntryParentUnder(p, d, n);
      VisitedMet(evs, d);
      LeLtTransitive(d, evs[|evs| - 1].path, q);
      SubtreeContiguous(d, q, p);
      LtIrreflexive(q);
      assert ComesAfter(c, d, q, p);
    }
  }

  lemma {:induction false} CallNotFound(c: Input, evs: seq<Event>, p: Path, parentMinus: bool)
    requires InputOk(c) && InPathOrder(evs) && MayReach(c, evs, p, parentMinus) && !PassedOver(c, p, parentMinus)
    ensures NotFoundBefore(c, evs, Some(p))
  {
    forall q | Left(c, evs, q).Some? && q in c.fs && Lt(q, p)
      ensures !MayVisit(c, evs, q)
    {
      LtAsymmetric(q, p);
      assert Admitted(c, q);
      if HasVisited(evs, q) {
        VisitedMet(evs, q);
      }
      assert !Awaited(c, evs, q);
      if p == c.scope.prefix {
        UnderAfter(q, p);
      }
      var d :| Entered(c, evs, d) && EntryOf(p, d);
      SparedByDir(c, evs, d, p);
      forall n
        ensures !LookedUpFor(c, evs, q, n)
      {
        EntryIsLater(c, evs, d, p, q, n);
      }
    }
  }

  /** The name of the call is met after those between. */
  lemma {:induction false} ReachThenMeet(c: Input, evs: seq<Event>, mid: seq<Event>, stack: seq<Src>, b: nat, p: Path,
                                         parentMinus: bool)
    requires TreeShaped(c.fs, c.scope.prefix) && Kept(c, mid)
    requires MayReach(c, evs, p, parentMinus) && !PassedOver(c, p, parentMinus)
    requires OnlyTran(evs, mid, Some(p)) && After(mid, p)
    requires NextIs(c, mid, stack, b) && (More(stack[b]) ==> Le(p, Head(stack[b])))
    ensures p in c.fs || p in c.view
    ensures p in c.view <==> More(stack[b]) && Head(stack[b]) == p
    ensures p in c.view ==> c.view[p] == Current(stack[b])
    ensures p !in c.view ==> Left(c, mid, p) == None
    ensures MayMeet(c, mid, EventFor(c, p))
  {
    if p in c.fs {
      KeptInPathOrder(c, mid);
      OnlyTranMeans(evs, mid, Some(p));
      CalledIsFound(c, evs, p, parentMinus);
      MayVisitSame(c, evs, mid, p);
    }
    MeetNext(c, mid, stack, b, p);
  }

  /* ---- after the name itself ---- */

  lemma {:induction false} MetLater(c: Input, evs0: seq<Event>, evs1: seq<Event>, p: Path)
    requires (p in c.fs || p in c.view) && Met(c, evs0, evs1, p) && Kept(c, evs1)
    ensures InPathOrder(evs1) && Later(evs0, evs1, p)
    ensures HasVisited(evs1, p) <==> p in c.fs
    ensures forall x :: x != p ==> (HasVisited(evs1, x) <==> HasVisited(evs0, x))
  {
    var n := |evs1| - 1;
    KeptInPathOrder(c, evs1);
    OnlyTranMeans(evs0, evs1[..n], Some(p));
    LtIrreflexive(p);
    assert forall i :: |evs0| <= i < n ==> evs1[i] == evs1[..n][i];
    forall x | x != p
      ensures HasVisited(evs1, x) <==> HasVisited(evs0, x)
    {
      if HasVisited(evs0, x) {
        VisitedStays(evs0, evs1, x);
      }
    }
    if p !in c.fs && HasVisited(evs1, p) {
      var i :| 0 <= i <= n && evs1[i].path == p && Visited(evs1[i]);
      IndexBefore(evs1, i, n);
    }
    assert p in c.fs ==> Visited(evs1[n]);
  }

  /** Nothing up to `p` is then awaited, and what is left is left above it. */
  lemma {:induction false} MetLeaves(c: Input, evs0: seq<Event>, evs1: seq<Event>, p: Path, parentMinus: bool)
    requires TreeShaped(c.fs, c.scope.prefix) && Kept(c, evs1) && MayReach(c, evs0, p, parentMinus)
    requires (p in c.fs || p in c.view) && Met(c, evs0, evs1, p)
    ensures !After(evs1, p) && PendingAbove(c, evs1, p)
    ensures forall y :: Awaited(c, evs1, y) ==> Lt(p, y)
  {
    MetLater(c, evs0, evs1, p);
    MetGrew(c, evs0, evs1, p);
    forall y | Awaited(c, evs1, y)
      ensures Lt(p, y)
    {
      LtTotal(p, y);
      if !Lt(p, y) {
        DueSame(c, evs0, evs1, p, y);
        assert Awaited(c, evs0, y);
        LtAsymmetric(y, p);
      }
    }
    forall q, n | Pending(c, evs1, q, n)
      ensures Under(p, n)
    {
      UnderReflexive(p);
      AfterGrowth(c, evs0, evs1, q);
      assert n != p ==> Pending(c, evs0, q, n);
    }
  }

  /* ---- after the whole call ---- */

  ghost predicate AwaitedAfter(c: Input, evs: seq<Event>, p: Path) {
    forall y :: Awaited(c, evs, y) ==> Lt(p, y) && !Under(y, p)
  }

  ghost predicate PendingOutside(c: Input, evs: seq<Event>, p: Path) {
    forall q, n :: Pending(c, evs, q, n) ==> Under(p, n) && n != p
  }

  /** The last name met, if only the transcripts have it, was met in a call of its own, for
      a negative directory that does not strictly hold `p`. */
  ghost predicate LastBelow(c: Input, evs: seq<Event>, p: Path) {
    |evs| > 0 && evs[|evs| - 1].TranOnly? ==>
      exists n :: InNeg(c, evs, evs[|evs| - 1].path, n) && (Under(p, n) ==> n == p)
  }

  /** What a whole call of fs_walk for `p` does: nothing in its tree is awaited any more, and
      nothing is left to a negative directory in it. */
  ghost predicate Walked(c: Input, evs0: seq<Event>, evs1: seq<Event>, p: Path) {
    && GrewWithin(evs0, evs1, p)
    && AwaitedAfter(c, evs1, p) && PendingOutside(c, evs1, p) && (p in c.fs ==> LastBelow(c, evs1, p))
  }

  lemma {:induction false} WalkedWhole(c: Input, evs0: seq<Event>, evs1: seq<Event>, evs2: seq<Event>, p: Path)
    requires (p in c.fs || p in c.view) && Met(c, evs0, evs1, p) && Walked(c, evs1, evs2, p)
    ensures Walked(c, evs0, evs2, p)
  {
    MetGrew(c, evs0, evs1, p);
    GrewTransitive(evs0, evs1, evs2, p);
  }

  /** What no call enters has nothing below it. */
  lemma {:induction false} NoneBelowLeaf(c: Input, evs: seq<Event>, y: Path, p: Path)
    requires TreeShaped(c.fs, c.scope.prefix) && Under(p, c.scope.prefix) && (p in c.fs ==> c.fs[p].kind != Dir)
    requires Under(y, p) && y != p
    ensures !Led(c, evs, y)
  {
    if Led(c, evs, y) {
      var d := LedBelow(c, evs, y, p);
      TreeAncestor(c.fs, c.scope.prefix, d, p);
    }
  }

  lemma {:induction false} WalkedOver(c: Input, evs: seq<Event>, p: Path, parentMinus: bool)
    requires InputOk(c) && InPathOrder(evs) && MayReach(c, evs, p, parentMinus) && PassedOver(c, p, parentMinus)
    ensures Walked(c, evs, evs, p)
  {
    assert p in c.view ==> Admitted(c, p);
    forall y | Awaited(c, evs, y)
      ensures Lt(p, y) && !Under(y, p)
    {
      if y != p && Under(y, p) {
        NoneBelowNext(c, evs, y, p);
        TreeCanonical(c.fs, c.scope.prefix, p);
        TreeCanonical(c.fs, c.scope.prefix, y);
        UnderAntisymmetric(y, p);
      }
    }
    forall q, n | Pending(c, evs, q, n)
      ensures n != p
    {
      VisitedMet(evs, n);
    }
    var n := |evs| - 1;
    if |evs| > 0 && evs[n].TranOnly? {
      var x :| InNeg(c, evs, evs[n].path, x) && !Under(p, x);
      assert InNeg(c, evs, evs[n].path, x) && (Under(p, x) ==> x == p);
    }
  }

  /** A call that enters nothing: the name is passed over, or it is no directory. */
  lemma {:induction false} NotEntered(c: Input, evs0: seq<Event>, evs: seq<Event>, p: Path, parentMinus: bool)
    requires InputOk(c) && Kept(c, evs) && MayReach(c, evs0, p, parentMinus)
    requires if PassedOver(c, p, parentMinus) then evs == evs0
             else (p in c.fs || p in c.view) && Met(c, evs0, evs, p) && EnterFor(c, p) == 0
    ensures Walked(c, evs0, evs, p) && (!PassedOver(c, p, parentMinus) ==> !After(evs, p))
  {
    KeptInPathOrder(c, evs);
    if PassedOver(c, p, parentMinus) {
      WalkedOver(c, evs, p, parentMinus);
    } else {
      MetGrew(c, evs0, evs, p);
      MetLeaves(c, evs0, evs, p, parentMinus);
      NameInTree(c, p);
      forall y | Awaited(c, evs, y)
        ensures !Under(y, p)
      {
        LtIrreflexive(p);
        if Under(y, p) {
          NoneBelowLeaf(c, evs, y, p);
          TreeCanonical(c.fs, c.scope.prefix, y);
          UnderAfter(y, c.scope.prefix);
          UnderAfter(p, c.scope.prefix);
          LeLtTransitive(c.scope.prefix, p, y);
        }
      }
    }
  }

  lemma {:induction false} NameInTree(c: Input, p: Path)
    requires InputOk(c) && (p in c.fs || p in c.view)
    ensures Under(p, c.scope.prefix) && |p| > 0
  {
    TreeCanonical(c.fs, c.scope.prefix, c.scope.prefix);
    if p in c.fs {
      TreeCanonical(c.fs, c.scope.prefix, p);
    } else {
      assert Admitted(c, p);
    }
  }

  /* ---- the entries of a directory, one after the other ---- */

  /** `list` holds the names of the entries of `d`, strictly sorted. */
  predicate Listing(fs: map<Path, Obj>, d: Path, list: seq<Path>) {
    && (forall i :: 0 <= i < |list| ==> IsName(list[i]) && Join(d, list[i]) in fs)
    && (forall i :: 0 < i < |list| ==> Lt(list[i - 1], list[i]))
    && (forall e :: e in fs && EntryOf(e, d) ==> e[|Slashed(d)|..] in list)
  }

  predicate Names(entries: set<Path>, d: Path, list: seq<Path>)
    requires forall e :: e in entries ==> |e| > |Slashed(d)|
  {
    && (forall i :: 0 <= i < |list| ==> IsName(list[i]) && Join(d, list[i]) in entries)
    && (forall e :: e in entries ==> e[|Slashed(d)|..] in list)
  }

  /** opendir, readdir in whatever order, and fs_insert. */
  method ReadDir(fs: map<Path, Obj>, d: Path) returns (list: seq<Path>)
    requires |d| > 0
    ensures Listing(fs, d, list)
  {
    var entries := set q | q in fs && EntryOf(q, d);
    var todo := entries;
    var last: Option<nat> := None;
    list := [];
    while todo != {}
      invariant todo <= entries && Ordered(list, 0) && (last.Some? ==> last.value < |list|)
      invariant forall e :: e in entries ==> |e| > |Slashed(d)|
      invariant Names(entries - todo, d, list)
      invariant Strict(list, 0)
    {
      var q :| q in todo;
      var name := q[|Slashed(d)|..];
      EntryIsJoin(q, d);
      ghost var before, done := list, entries - todo;
      assert name !in list by {
        NamesMember(done, d, list, name);
      }
      var at;
      list, at := FsInsert(list, last, name);
      NamesGrow(done, d, before, list, q);
      last := Some(at);
      todo := todo - {q};
      assert entries - todo == done + {q};
    }
    forall i | 0 < i < |list|
      ensures Lt(list[i - 1], list[i])
    {
      StrictAt(list, 0, i);
    }
    assert entries - todo == entries;
  }

  lemma {:induction false} NamesGrow(entries: set<Path>, d: Path, list: seq<Path>, list': seq<Path>, q: Path)
    requires forall e :: e in entries ==> |e| > |Slashed(d)|
    requires Names(entries, d, list) && |d| > 0 && EntryOf(q, d)
    requires forall n :: n in list' <==> n in list || n == q[|Slashed(d)|..]
    ensures Names(entries + {q}, d, list')
  {
    EntryIsJoin(q, d);
    forall i | 0 <= i < |list'|
      ensures IsName(list'[i]) && Join(d, list'[i]) in entries + {q}
    {
      assert list'[i] in list';
      NamesMember(entries, d, list, list'[i]);
    }
  }

  lemma {:induction false} NamesMember(entries: set<Path>, d: Path, list: seq<Path>, n: Path)
    requires forall e :: e in entries ==> |e| > |Slashed(d)|
    requires Names(entries, d, list)
    ensures n in list ==> IsName(n) && Join(d, n) in entries
  {
  }

  lemma {:induction false} ListingOrder(fs: map<Path, Obj>, d: Path, list: seq<Path>, i: nat, k: nat)
    requires Listing(fs, d, list) && i < k < |list|
    ensures Lt(list[i], list[k])
    decreases k
  {
    if i + 1 < k {
      ListingOrder(fs, d, list, i, k - 1);
      LtTransitive(list[i], list[k - 1], list[k]);
    }
  }

  lemma {:induction false} HoldingEntry(c: Input, d: Path, list: seq<Path>, y: Path) returns (k: nat)
    requires TreeShaped(c.fs, c.scope.prefix) && d in c.fs && Listing(c.fs, d, list)
    requires y in c.fs && Under(y, d) && y != d
    ensures k < |list| && Under(y, Join(d, list[k]))
  {
    var e := TreeEntryAbove(c.fs, c.scope.prefix, y, d);
    EntryIsJoin(e, d);
    k :| 0 <= k < |list| && list[k] == e[|Slashed(d)|..];
  }

  /** What lies in none of the first `i` entries comes with the next or later, or elsewhere. */
  lemma {:induction false} NextInListing(c: Input, d: Path, list: seq<Path>, i: nat, y: Path)
    requires TreeShaped(c.fs, c.scope.prefix) && d in c.fs && Listing(c.fs, d, list) && i <= |list|
    requires y in c.fs && Lt(d, y) && forall k :: 0 <= k < i ==> !Under(y, Join(d, list[k]))
    ensures if i < |list| then Le(Join(d, list[i]), y) else !Under(y, d)
  {
    LtIrreflexive(d);
    if i == |list| {
      if Under(y, d) {
        var k := HoldingEntry(c, d, list, y);
      }
    } else {
      var e := Join(d, list[i]);
      LtTotal(y, e);
      if Lt(y, e) {
        TreeCanonical(c.fs, c.scope.prefix, d);
        JoinIsEntry(d, list[i]);
        EntryUnder(e, d);
        SubtreeContiguous(d, y, e);
        var k := HoldingEntry(c, d, list, y);
        if i < k {
          ListingOrder(c.fs, d, list, i, k);
          UnderReflexive(e);
          SiblingSubtrees(d, list[i], list[k], e, y);
        } else {
          UnderAfter(y, e);
        }
        LtAsymmetric(y, e);
      }
    }
  }

  /** What comes after entry `i` does not lie in an earlier one. */
  lemma {:induction false} NotInEarlier(c: Input, d: Path, list: seq<Path>, i: nat, k: nat, y: Path)
    requires |d| > 0 && Listing(c.fs, d, list) && k < i < |list| && Lt(Join(d, list[i]), y)
    ensures !Under(y, Join(d, list[k]))
  {
    ListingOrder(c.fs, d, list, k, i);
    UnderReflexive(Join(d, list[i]));
    if Under(y, Join(d, list[k])) {
      SiblingSubtrees(d, list[k], list[i], y, Join(d, list[i]));
      LtAsymmetric(y, Join(d, list[i]));
    }
  }

  lemma {:induction false} AfterEntry(c: Input, d: Path, list: seq<Path>, i: nat, y: Path)
    requires TreeShaped(c.fs, c.scope.prefix) && d in c.fs && Listing(c.fs, d, list) && i < |list|
    requires y in c.fs && Lt(Join(d, list[i]), y) && !Under(y, Join(d, list[i]))
    ensures Lt(d, y) && if i + 1 < |list| then Le(Join(d, list[i + 1]), y) else !Under(y, d)
  {
    TreeCanonical(c.fs, c.scope.prefix, d);
    forall k | 0 <= k < i + 1
      ensures !Under(y, Join(d, list[k]))
    {
      if k < i {
        NotInEarlier(c, d, list, i, k, y);
      }
    }
    DirBeforeEntry(d, list[i], y);
    NextInListing(c, d, list, i + 1, y);
  }

  lemma {:induction false} DirBeforeEntry(d: Path, n: Path, y: Path)
    requires Canonical(d) && IsName(n) && Lt(Join(d, n), y)
    ensures Lt(d, y)
  {
    JoinIsEntry(d, n);
    EntryUnder(Join(d, n), d);
    LtTransitive(d, Join(d, n), y);
  }

  /** What is awaited after entry `i` is awaited with the next or later, or elsewhere. */
  lemma {:induction false} AwaitedNext(c: Input, evs: seq<Event>, d: Path, list: seq<Path>, i: nat)
    requires TreeShaped(c.fs, c.scope.prefix) && d in c.fs && Listing(c.fs, d, list) && i < |list|
    requires AwaitedAfter(c, evs, Join(d, list[i]))
    ensures if i + 1 < |list| then forall y :: Awaited(c, evs, y) ==> Le(Join(d, list[i + 1]), y)
            else AwaitedAfter(c, evs, d)
  {
    forall y | Awaited(c, evs, y)
      ensures Lt(d, y) && if i + 1 < |list| then Le(Join(d, list[i + 1]), y) else !Under(y, d)
    {
      AfterEntry(c, d, list, i, y);
    }
  }

  /** An entry of a directory being read may be reached, in its turn. */
  lemma {:induction false} EntryReached(c: Input, evs: seq<Event>, d: Path, e: Path, parentMinus: bool)
    requires TreeShaped(c.fs, c.scope.prefix) && Entered(c, evs, d) && e in c.fs && EntryOf(e, d) && After(evs, e)
    requires parentMinus <==> Spares(c, evs, d)
    requires LastCalled(c, evs, e) && PendingAbove(c, evs, e) && forall y :: Awaited(c, evs, y) ==> Le(e, y)
    ensures MayReach(c, evs, e, parentMinus)
  {
    SparedByDir(c, evs, d, e);
  }

  /** What holds once the name `p` of a call has been met. */
  ghost predicate JustMet(c: Input, evs: seq<Event>, p: Path) {
    && |evs| > 0 && evs[|evs| - 1].path == p && (p in c.fs ==> Visited(evs[|evs| - 1]))
    && PendingAbove(c, evs, p) && forall y :: Awaited(c, evs, y) ==> Lt(p, y)
  }

  lemma {:induction false} MetIsJustMet(c: Input, evs0: seq<Event>, evs1: seq<Event>, p: Path, parentMinus: bool)
    requires TreeShaped(c.fs, c.scope.prefix) && Kept(c, evs1) && MayReach(c, evs0, p, parentMinus)
    requires (p in c.fs || p in c.view) && Met(c, evs0, evs1, p)
    ensures JustMet(c, evs1, p)
  {
    MetLeaves(c, evs0, evs1, p, parentMinus);
  }

  /** fs_minus for a directory is settled when the directory is met. */
  lemma {:induction false} GrownSpares(c: Input, evs0: seq<Event>, evs: seq<Event>, d: Path)
    requires TreeShaped(c.fs, c.scope.prefix) && InPathOrder(evs) && GrewWithin(evs0, evs, d) && Entered(c, evs0, d)
    ensures Entered(c, evs, d) && (Spares(c, evs0, d) <==> Spares(c, evs, d))
  {
    GrewMeans(evs0, evs, d);
    VisitedStays(evs0, evs, d);
    forall i | |evs0| <= i < |evs|
      ensures IsLater(evs[i], d)
    {
      if Under(evs[i].path, d) {
        UnderAfter(evs[i].path, d);
        LtIrreflexive(d);
        if evs[i].path != d {
          LtAsymmetric(d, evs[i].path);
        }
      }
    }
    SparesSame(c, evs0, evs, d, d);
  }

  /** What holds before the walk of entry `i` of the directory `d`, entered at `evs0`. */
  ghost predicate DirTurn(c: Input, evs0: seq<Event>, evs: seq<Event>, d: Path, list: seq<Path>, i: nat,
                          parentMinus: bool)
  {
    && i <= |list| && GrewWithin(evs0, evs, d)
    && if i < |list| then MayReach(c, evs, Join(d, list[i]), parentMinus)
       else AwaitedAfter(c, evs, d) && PendingOutside(c, evs, d) && LastBelow(c, evs, d)
  }

  lemma {:induction false} DirTurnFirst(c: Input, evs0: seq<Event>, d: Path, list: seq<Path>, parentMinus: bool)
    requires TreeShaped(c.fs, c.scope.prefix) && Entered(c, evs0, d) && JustMet(c, evs0, d)
    requires Listing(c.fs, d, list) && (parentMinus <==> Spares(c, evs0, d))
    ensures DirTurn(c, evs0, evs0, d, list, 0, parentMinus)
  {
    TreeCanonical(c.fs, c.scope.prefix, d);
    forall y | Awaited(c, evs0, y)
      ensures if |list| > 0 then Le(Join(d, list[0]), y) else !Under(y, d)
    {
      NextInListing(c, d, list, 0, y);
    }
    if |list| > 0 {
      var e := Join(d, list[0]);
      JoinIsEntry(d, list[0]);
      EntryUnder(e, d);
      forall q, n | Pending(c, evs0, q, n)
        ensures Under(e, n)
      {
        UnderTransitive(e, d, n);
      }
      EntryReached(c, evs0, d, e, parentMinus);
    }
  }

  /** What strictly holds an entry of `d` holds `d`. */
  lemma {:induction false} HoldsDir(c: Input, d: Path, e: Path, n: Path)
    requires TreeShaped(c.fs, c.scope.prefix) && d in c.fs && EntryOf(e, d)
    ensures Under(e, n) && n != e <==> Under(d, n)
  {
    TreeCanonical(c.fs, c.scope.prefix, d);
    EntryUnder(e, d);
    if Under(d, n) {
      UnderTransitive(e, d, n);
      if n == e {
        UnderAntisymmetric(d, e);
      }
    } else if Under(e, n) && n != e {
      EntryParentUnder(e, d, n);
    }
  }

  /** What is left and what was met last, from one entry to the next. */
  lemma {:induction false} SiblingTurn(c: Input, evs: seq<Event>, d: Path, e: Path, e': Path)
    requires TreeShaped(c.fs, c.scope.prefix) && InPathOrder(evs) && d in c.fs && EntryOf(e, d) && EntryOf(e', d)
    requires PendingOutside(c, evs, e) && LastBelow(c, evs, e) && After(evs, e')
    ensures PendingAbove(c, evs, e') && LastCalled(c, evs, e')
  {
    forall q, n | Pending(c, evs, q, n)
      ensures Under(e', n)
    {
      HoldsDir(c, d, e, n);
      HoldsDir(c, d, e', n);
    }
    var k := |evs| - 1;
    if |evs| > 0 && evs[k].TranOnly? {
      var n :| InNeg(c, evs, evs[k].path, n) && (Under(e, n) ==> n == e);
      HoldsDir(c, d, e, n);
      HoldsDir(c, d, e', n);
      VisitedMet(evs, n);
      assert InNeg(c, evs, evs[k].path, n) && !Under(e', n);
    }
  }

  /** And from the last entry to the directory. */
  lemma {:induction false} LastTurn(c: Input, evs: seq<Event>, d: Path, e: Path)
    requires TreeShaped(c.fs, c.scope.prefix) && d in c.fs && !NegDir(c, d) && EntryOf(e, d)
    requires PendingOutside(c, evs, e) && LastBelow(c, evs, e)
    ensures PendingOutside(c, evs, d) && LastBelow(c, evs, d)
  {
    forall q, n | Pending(c, evs, q, n)
      ensures Under(d, n) && n != d
    {
      HoldsDir(c, d, e, n);
    }
    var k := |evs| - 1;
    if |evs| > 0 && evs[k].TranOnly? {
      var n :| InNeg(c, evs, evs[k].path, n) && (Under(e, n) ==> n == e);
      HoldsDir(c, d, e, n);
      assert InNeg(c, evs, evs[k].path, n) && (Under(d, n) ==> n == d);
    }
  }

  lemma {:induction false} DirTurnNext(c: Input, evs0: seq<Event>, evs: seq<Event>, evs': seq<Event>, d: Path,
                                       list: seq<Path>, i: nat, parentMinus: bool)
    requires TreeShaped(c.fs, c.scope.prefix) && Kept(c, evs') && Entered(c, evs0, d)
    requires i < |list| && Listing(c.fs, d, list) && DirTurn(c, evs0, evs, d, list, i, parentMinus)
    requires Walked(c, evs, evs', Join(d, list[i]))
    requires parentMinus <==> Spares(c, evs0, d)
    ensures DirTurn(c, evs0, evs', d, list, i + 1, parentMinus)
  {
    var e := Join(d, list[i]);
    TreeCanonical(c.fs, c.scope.prefix, d);
    JoinIsEntry(d, list[i]);
    EntryUnder(e, d);
    GrewWider(evs, evs', e, d);
    GrewTransitive(evs0, evs, evs', d);
    KeptInPathOrder(c, evs');
    AwaitedNext(c, evs', d, list, i);
    if i + 1 < |list| {
      var e' := Join(d, list[i + 1]);
      JoinIsEntry(d, list[i + 1]);
      NextEntryComes(evs, evs', d, list[i], list[i + 1]);
      SiblingTurn(c, evs', d, e, e');
      GrownSpares(c, evs0, evs', d);
      EntryReached(c, evs', d, e', parentMinus);
    } else {
      LastTurn(c, evs', d, e);
    }
  }

  lemma {:induction false} DirWalked(c: Input, evs0: seq<Event>, evs: seq<Event>, d: Path, list: seq<Path>,
                                     parentMinus: bool)
    requires Kept(c, evs) && |evs0| > 0 && evs0[|evs0| - 1].path == d
    requires DirTurn(c, evs0, evs, d, list, |list|, parentMinus)
    ensures Walked(c, evs0, evs, d) && !After(evs, d)
  {
    GrewMeans(evs0, evs, d);
    LtIrreflexive(d);
    StillMet(c, evs0, evs, d);
  }

  /* ---- the names listed below a negative directory, one after the other ---- */

  /** What holds between two walks below the negative directory `n`, entered at `evs0`. */
  ghost predicate NegTurn(c: Input, evs0: seq<Event>, evs: seq<Event>, n: Path) {
    && GrewWithin(evs0, evs, n) && !After(evs, n) && (n in c.fs ==> HasVisited(evs, n))
    && AwaitedAfter(c, evs, n) && PendingAbove(c, evs, n)
  }

  lemma {:induction false} NegTurnFirst(c: Input, evs0: seq<Event>, n: Path)
    requires TreeShaped(c.fs, c.scope.prefix) && InPathOrder(evs0) && Under(n, c.scope.prefix)
    requires NegDir(c, n) && JustMet(c, evs0, n)
    ensures NegTurn(c, evs0, evs0, n)
  {
    LtIrreflexive(n);
    UnderAfter(n, c.scope.prefix);
    forall y | Awaited(c, evs0, y)
      ensures !Under(y, n)
    {
      if Under(y, n) {
        LeLtTransitive(c.scope.prefix, n, y);
        LtIrreflexive(y);
        var d := LedBelow(c, evs0, y, n);
        VisitedMet(evs0, d);
        UnderAfter(d, n);
        if d != n {
          LtAsymmetric(n, d);
        }
      }
    }
    assert n in c.fs ==> HasVisited(evs0, n);
  }

  lemma {:induction false} NegEntered(c: Input, evs: seq<Event>, n: Path)
    requires InputOk(c) && Kept(c, evs) && NegDir(c, n) && JustMet(c, evs, n)
    ensures NegTurn(c, evs, evs, n)
  {
    KeptInPathOrder(c, evs);
    NameInTree(c, n);
    NegTurnFirst(c, evs, n);
  }

  /** No directory below `n` goes on after the first name left there. */
  lemma {:induction false} ListedLookedUp(c: Input, evs: seq<Event>, n: Path, t: Path)
    requires TreeShaped(c.fs, c.scope.prefix) && InPathOrder(evs) && NegDir(c, n) && HasVisited(evs, n)
    requires Under(t, n) && t != n && After(evs, t) && AwaitedAfter(c, evs, n)
    ensures LookedUp(c, evs, t)
  {
    forall d | Entered(c, evs, d) && Under(d, n)
      ensures !GoesOn(c, evs, d, t)
    {
      if GoesOn(c, evs, d, t) {
        var y :| ComesAfter(c, d, t, y) && (Skippable(c, y) ==> Spares(c, evs, d));
        if HasVisited(evs, y) {
          VisitedMet(evs, y);
          LeLtTransitive(y, evs[|evs| - 1].path, t);
          LtAsymmetric(y, t);
        }
        assert Awaited(c, evs, y);
        TreeCanonical(c.fs, c.scope.prefix, d);
        EntryUnder(y, d);
        UnderTransitive(y, d, n);
      }
    }
    assert LookedUpFor(c, evs, t, n);
  }

  /** Below a negative directory the first entry left may be reached. */
  lemma {:induction false} ListedReached(c: Input, evs0: seq<Event>, evs: seq<Event>, n: Path, t: Path,
                                         parentMinus: bool)
    requires InputOk(c) && InPathOrder(evs) && NegDir(c, n) && NegTurn(c, evs0, evs, n)
    requires Left(c, evs, t).Some? && FirstLeft(c, evs, t) && Under(t, n)
    ensures MayReach(c, evs, t, parentMinus)
  {
    forall y | Awaited(c, evs, y)
      ensures Lt(t, y)
    {
      AfterSubtree(n, t, y);
    }
    forall q, m | Pending(c, evs, q, m)
      ensures Under(t, m)
    {
      UnderTransitive(t, n, m);
    }
    if t in c.fs {
      NameInTree(c, n);
      TreeAncestor(c.fs, c.scope.prefix, t, n);
      ListedLookedUp(c, evs, n, t);
      assert Admitted(c, t);
      if HasVisited(evs, t) {
        VisitedMet(evs, t);
      }
      assert !Awaited(c, evs, t);
    }
  }

  /** A walk within `t` meets only objects in its tree. */
  lemma {:induction false} GrownVisited(evs0: seq<Event>, evs1: seq<Event>, t: Path, x: Path)
    requires GrewWithin(evs0, evs1, t) && HasVisited(evs1, x) && !Under(x, t)
    ensures HasVisited(evs0, x)
  {
    GrewMeans(evs0, evs1, t);
    var i :| 0 <= i < |evs1| && evs1[i].path == x && Visited(evs1[i]);
    assert evs0[i] == evs1[i];
  }

  lemma {:induction false} GrownLater(evs0: seq<Event>, evs1: seq<Event>, t: Path, q: Path)
    requires InPathOrder(evs1) && GrewWithin(evs0, evs1, t) && Le(q, t)
    ensures Later(evs0, evs1, q)
  {
    GrewMeans(evs0, evs1, t);
    forall i | |evs0| <= i < |evs1|
      ensures IsLater(evs1[i], q)
    {
      var x := evs1[i].path;
      if Under(x, t) && Lt(x, q) {
        UnderAfter(x, t);
        LeLtTransitive(x, q, t);
        LtIrreflexive(t);
        LtAsymmetric(x, t);
      }
    }
  }

  lemma {:induction false} DueBefore(c: Input, evs: seq<Event>, evs': seq<Event>, t: Path, d: Path, y: Path)
    requires TreeShaped(c.fs, c.scope.prefix) && InPathOrder(evs') && After(evs, t) && GrewWithin(evs, evs', t)
    requires Entered(c, evs, d) && EntryOf(y, d) && Due(c, evs', y) && y != c.scope.prefix
    ensures Due(c, evs, y)
  {
    GrewMeans(evs, evs', t);
    assert InPathOrder(evs) by {
      OrderFront(evs', |evs|);
      assert evs'[..|evs|] == evs;
    }
    VisitedMet(evs, d);
    LeLtTransitive(d, evs[|evs| - 1].path, t);
    GrownLater(evs, evs', t, d);
    SparesSame(c, evs, evs', d, d);
    SparedByDir(c, evs, d, y);
    SparedByDir(c, evs', d, y);
  }

  lemma {:induction false} OrderFront(evs: seq<Event>, n: nat)
    requires InPathOrder(evs) && n <= |evs|
    ensures InPathOrder(evs[..n])
  {
    forall i, j | 0 <= i < j < n
      ensures Precedes(evs[..n], i, j)
    {
      assert Precedes(evs, i, j);
    }
  }

  /** What is awaited after the walk of `t` was not below `n`, for it was awaited before. */
  lemma {:induction false} AwaitedOutside(c: Input, evs: seq<Event>, evs': seq<Event>, n: Path, t: Path, y: Path)
    requires InputOk(c) && InPathOrder(evs') && NegDir(c, n) && t in c.view && Under(t, n)
    requires AwaitedAfter(c, evs, n) && After(evs, t) && GrewWithin(evs, evs', t)
    requires AwaitedAfter(c, evs', t) && Awaited(c, evs', y)
    ensures Lt(n, y) && !Under(y, n)
  {
    assert Admitted(c, t);
    UnderAfter(t, n);
    LeLtTransitive(n, t, y);
    if Under(y, n) {
      assert !Awaited(c, evs, y);
      UnderAfter(t, c.scope.prefix);
      LeLtTransitive(c.scope.prefix, t, y);
      LtIrreflexive(y);
      LtIrreflexive(n);
      var d := LedBelow(c, evs', y, n);
      if Under(d, t) {
        UnderTransitive(y, d, t);
      }
      GrownVisited(evs, evs', t, d);
      DueBefore(c, evs, evs', t, d, y);
      GrewMeans(evs, evs', t);
      if HasVisited(evs, y) {
        VisitedStays(evs, evs', y);
      }
    }
  }

  /** Of two names that hold a third, one holds the other. */
  lemma {:induction false} HoldersNested(q: Path, x: Path, y: Path)
    requires Under(q, x) && Under(q, y)
    ensures Under(x, y) || Under(y, x)
  {
    LtTotal(x, y);
    UnderAfter(q, x);
    UnderAfter(q, y);
    UnderReflexive(x);
    if Lt(x, y) {
      SubtreeContiguous(x, y, q);
    } else if Lt(y, x) {
      SubtreeContiguous(y, x, q);
    }
  }

  /** What is left after the walk of `t` is left above `n`, for `t` itself was. */
  lemma {:induction false} PendingStill(c: Input, evs: seq<Event>, evs': seq<Event>, n: Path, t: Path, q: Path, m: Path)
    requires InputOk(c) && NegDir(c, n) && Under(t, n) && Left(c, evs, t).Some?
    requires PendingAbove(c, evs, n) && GrewWithin(evs, evs', t) && PendingOutside(c, evs', t) && Pending(c, evs', q, m)
    ensures Under(n, m)
  {
    HoldersNested(t, n, m);
    if Under(m, n) {
      NameInTree(c, t);
      NameInTree(c, m);
      if Under(m, t) {
        UnderAntisymmetric(m, t);
      }
      GrownVisited(evs, evs', t, m);
      assert Pending(c, evs, t, m);
    }
  }

  lemma {:induction false} NegTurnNext(c: Input, evs0: seq<Event>, evs: seq<Event>, evs': seq<Event>, n: Path, t: Path)
    requires InputOk(c) && Kept(c, evs') && NegDir(c, n) && NegTurn(c, evs0, evs, n) && Under(t, n)
    requires Left(c, evs, t).Some? && !After(evs', t) && Walked(c, evs, evs', t)
    ensures NegTurn(c, evs0, evs', n)
    ensures LeftPaths(c, evs') < LeftPaths(c, evs)
  {
    KeptInPathOrder(c, evs');
    GrewMeans(evs, evs', t);
    forall p | p in LeftPaths(c, evs')
      ensures p in LeftPaths(c, evs)
    {
      AfterGrowth(c, evs, evs', p);
    }
    assert t in LeftPaths(c, evs);
    GrewWider(evs, evs', t, n);
    GrewTransitive(evs0, evs, evs', n);
    StillMet(c, evs, evs', n);
    if n in c.fs {
      VisitedStays(evs, evs', n);
    }
    forall y | Awaited(c, evs', y)
      ensures Lt(n, y) && !Under(y, n)
    {
      AwaitedOutside(c, evs, evs', n, t, y);
    }
    forall q, m | Pending(c, evs', q, m)
      ensures Under(n, m)
    {
      PendingStill(c, evs, evs', n, t, q, m);
    }
  }

  function LeftPaths(c: Input, evs: seq<Event>): set<Path> {
    set p | p in c.view && After(evs, p)
  }

  lemma {:induction false} StillMet(c: Input, evs0: seq<Event>, evs: seq<Event>, p: Path)
    requires Kept(c, evs) && evs0 <= evs && !After(evs0, p)
    ensures !After(evs, p)
  {
    if After(evs, p) {
      AfterGrowth(c, evs0, evs, p);
    }
  }

  /** When the next entry lies elsewhere, none below `n` is left. */
  lemma {:induction false} NoneListedLeft(c: Input, evs: seq<Event>, stack: seq<Src>, b: nat, n: Path, t: Path)
    requires NextIs(c, evs, stack, b) && !After(evs, n) && (More(stack[b]) ==> !Under(Head(stack[b]), n))
    requires Left(c, evs, t).Some?
    ensures !Under(t, n)
  {
    var h := Head(stack[b]);
    LtTotal(n, h);
    if Lt(h, n) && |evs| > 0 {
      LtTransitive(evs[|evs| - 1].path, h, n);
    }
    if Under(t, n) {
      SubtreeContiguous(n, h, t);
    }
  }

  lemma {:induction false} NegWalked(c: Input, evs0: seq<Event>, evs: seq<Event>, stack: seq<Src>, b: nat, n: Path)
    requires InPathOrder(evs) && NegDir(c, n) && NegTurn(c, evs0, evs, n) && |evs0| > 0 && evs0[|evs0| - 1].path == n
    requires NextIs(c, evs, stack, b) && (More(stack[b]) ==> !Under(Head(stack[b]), n))
    ensures Walked(c, evs0, evs, n)
  {
    forall q, m | Pending(c, evs, q, m)
      ensures m != n
    {
      NoneListedLeft(c, evs, stack, b, n, q);
    }
    GrewMeans(evs0, evs, n);
    var k := |evs| - 1;
    UnderReflexive(n);
    if n in c.fs && evs[k].TranOnly? {
      var i :| 0 <= i < |evs| && evs[i].path == n && Visited(evs[i]);
      IndexBefore(evs, i, k);
      assert Under(evs[k].path, n);
      assert InNeg(c, evs, evs[k].path, n) && (Under(n, n) ==> n == n);
    }
  }

  /* ---- fs_minus ---- */

  /** A call that meets something before `p` is for an entry of a directory. */
  lemma {:induction false} EntryIfBetween(c: Input, evs0: seq<Event>, evs1: seq<Event>, p: Path, parentMinus: bool)
    requires InputOk(c) && p in c.fs && Kept(c, evs1) && MayReach(c, evs0, p, parentMinus) && Met(c, evs0, evs1, p)
    requires |evs1| > |evs0| + 1
    ensures Led(c, evs0, p)
  {
    var n := |evs0|;
    var mid := evs1[..|evs1| - 1];
    OnlyTranMeans(evs0, mid, Some(p));
    assert mid[n] == evs1[n] && MetRightly(c, evs1, n) && evs1[..n] == evs0;
    var x := evs1[n].path;
    assert IsTranBefore(mid[n], Some(p)) && Admitted(c, x) && Left(c, evs0, x).Some?;
    LtAsymmetric(x, p);
    if p == c.scope.prefix {
      UnderAfter(x, p);
    }
  }

  /** With -C, fs_minus once an object has been met: a name that only the transcripts have
      has been met in the same call. */
  lemma {:induction false} MinusAfterMet(c: Input, evs0: seq<Event>, evs1: seq<Event>, p: Path, parentMinus: bool)
    requires InputOk(c) && p in c.fs && Kept(c, evs1) && MayReach(c, evs0, p, parentMinus) && Met(c, evs0, evs1, p)
    ensures MinusBefore(c, evs1, p) <==> |evs1| > |evs0| + 1
  {
    var k := |evs1| - 1;
    OnlyTranMeans(evs0, evs1[..k], Some(p));
    MetLater(c, evs0, evs1, p);
    LedSame(c, evs0, evs1, p, p);
    if |evs1| > |evs0| + 1 {
      EntryIfBetween(c, evs0, evs1, p, parentMinus);
      BetweenInCall(c, evs0, evs1, p, parentMinus);
      assert evs1[k].path == p && Visited(evs1[k]) && AfterTranOnly(c, evs1, k);
    }
    if MinusBefore(c, evs1, p) {
      var j :| 0 < j < |evs1| && evs1[j].path == p && Visited(evs1[j]) && AfterTranOnly(c, evs1, j);
      IndexBefore(evs1, j, k);
      if |evs1| == |evs0| + 1 {
        LastNotInCall(c, evs0, evs1, p);
      }
    }
  }

  lemma {:induction false} BetweenInCall(c: Input, evs0: seq<Event>, evs1: seq<Event>, p: Path, parentMinus: bool)
    requires p in c.fs && Kept(c, evs1) && MayReach(c, evs0, p, parentMinus) && Met(c, evs0, evs1, p)
    requires |evs1| > |evs0| + 1
    ensures AfterTranOnly(c, evs1, |evs1| - 1)
  {
    var k := |evs1| - 1;
    var mid := evs1[..k];
    OnlyTranMeans(evs0, mid, Some(p));
    MetLater(c, evs0, evs1, p);
    var x := evs1[k - 1].path;
    assert mid[k - 1] == evs1[k - 1] && IsTranBefore(mid[k - 1], Some(p));
    assert MetRightly(c, evs1, k - 1) && Left(c, evs1[..k - 1], x).Some?;
    KeptFront(c, evs1, k - 1);
    AfterGrowth(c, evs0, evs1[..k - 1], x);
    forall n | InNeg(c, evs1, x, n)
      ensures Under(p, n)
    {
      if n == p {
        UnderAfter(x, p);
        LtAsymmetric(x, p);
      }
      assert Pending(c, evs0, x, n);
    }
  }

  /** What was met before the call was met in one of its own. */
  lemma {:induction false} LastNotInCall(c: Input, evs0: seq<Event>, evs1: seq<Event>, p: Path)
    requires p in c.fs && Kept(c, evs1) && Met(c, evs0, evs1, p) && |evs1| == |evs0| + 1 && |evs0| > 0
    requires LastCalled(c, evs0, p)
    ensures !AfterTranOnly(c, evs1, |evs0|)
  {
    var k := |evs0| - 1;
    OnlyTranMeans(evs0, evs1[..|evs0|], Some(p));
    MetLater(c, evs0, evs1, p);
    assert evs1[k] == evs0[k];
    if evs0[k].TranOnly? {
      var n :| InNeg(c, evs0, evs0[k].path, n) && !Under(p, n);
      UnderReflexive(p);
      assert InNeg(c, evs1, evs1[k].path, n);
    }
  }

  /* ---- a whole run ---- */

  lemma {:induction false} RootReached(c: Input)
    requires TreeShaped(c.fs, c.scope.prefix)
    ensures MayReach(c, [], c.scope.prefix, false)
  {
    var root := c.scope.prefix;
    forall d | d in c.fs
      ensures !EntryOf(root, d)
    {
      NoDirOfRoot(c.fs, root, d);
    }
    assert !Spared(c, [], root);
    forall y | Awaited(c, [], y)
      ensures Le(root, y)
    {
      TreeCanonical(c.fs, root, y);
      UnderAfter(y, root);
    }
  }

  /** After the walk, what is left is not found. */
  lemma {:induction false} EndNotFound(c: Input, evs: seq<Event>)
    requires InputOk(c) && InPathOrder(evs) && Walked(c, [], evs, c.scope.prefix)
    ensures NotFoundBefore(c, evs, None)
  {
    var root := c.scope.prefix;
    forall q | Left(c, evs, q).Some? && q in c.fs
      ensures !MayVisit(c, evs, q)
    {
      assert Admitted(c, q);
      if HasVisited(evs, q) {
        VisitedMet(evs, q);
      }
      assert !Awaited(c, evs, q);
      forall n
        ensures !LookedUpFor(c, evs, q, n)
      {
        if LookedUpFor(c, evs, q, n) {
          assert Pending(c, evs, q, n);
          NameInTree(c, n);
          UnderAntisymmetric(n, root);
        }
      }
    }
  }

  /** What the names met by a whole run are: once each and in path order, each as the
      filesystem and the view have it; every entry of the view; and of the objects exactly
      those the walk finds. */
  ghost predicate Exact(c: Input, evs: seq<Event>) {
    && InPathOrder(evs)
    && (forall i :: 0 <= i < |evs| ==> EventOk(c, evs[i]))
    && (forall p :: p in c.view ==> Has(evs, p))
    && (forall q {:trigger MayVisit(c, evs, q)} :: q in c.fs ==> (HasVisited(evs, q) <==> MayVisit(c, evs, q)))
  }

  /** What was met before a name decides it. */
  lemma {:induction false} FoundAtTurn(c: Input, evs: seq<Event>, j: nat)
    requires TreeShaped(c.fs, c.scope.prefix) && InPathOrder(evs) && j < |evs|
    ensures MayVisit(c, evs[..j], evs[j].path) <==> MayVisit(c, evs, evs[j].path)
  {
    var q := evs[j].path;
    forall i | j <= i < |evs|
      ensures IsLater(evs[i], q)
    {
      LtIrreflexive(q);
      if i > j {
        assert Precedes(evs, j, i);
        LtAsymmetric(q, evs[i].path);
      }
    }
    MayVisitSame(c, evs[..j], evs, q);
  }

  lemma {:induction false} FoundIffVisited(c: Input, evs: seq<Event>, j: nat)
    requires TreeShaped(c.fs, c.scope.prefix) && Kept(c, evs) && j < |evs| && evs[j].path in c.fs
    ensures HasVisited(evs, evs[j].path) <==> MayVisit(c, evs, evs[j].path)
  {
    KeptInPathOrder(c, evs);
    assert MetRightly(c, evs, j);
    FoundAtTurn(c, evs, j);
    if HasVisited(evs, evs[j].path) {
      var i :| 0 <= i < |evs| && evs[i].path == evs[j].path && Visited(evs[i]);
      IndexBefore(evs, i, j);
    }
  }

  /** The names at the end that only the transcripts have change nothing of what was due. */
  lemma {:induction false} DueWasMet(c: Input, evs1: seq<Event>, evs: seq<Event>, q: Path)
    requires InputOk(c) && Kept(c, evs) && Walked(c, [], evs1, c.scope.prefix) && OnlyTran(evs1, evs, None)
    requires q in c.fs && Due(c, evs, q)
    ensures HasVisited(evs, q)
  {
    OnlyTranMeans(evs1, evs, None);
    KeptInPathOrder(c, evs);
    DueSame(c, evs1, evs, q, q);
    TreeCanonical(c.fs, c.scope.prefix, q);
    assert !Awaited(c, evs1, q);
    VisitedStays(evs1, evs, q);
  }

  lemma {:induction false} WholeRunExact(c: Input, evs1: seq<Event>, evs: seq<Event>)
    requires InputOk(c) && Kept(c, evs) && Walked(c, [], evs1, c.scope.prefix) && OnlyTran(evs1, evs, None)
    requires forall p :: p in c.view ==> Has(evs, p)
    ensures Exact(c, evs)
  {
    KeptInPathOrder(c, evs);
    forall i | 0 <= i < |evs|
      ensures EventOk(c, evs[i])
    {
      assert MetRightly(c, evs, i);
    }
    forall q | q in c.fs
      ensures HasVisited(evs, q) <==> MayVisit(c, evs, q)
    {
      if HasVisited(evs, q) || q in c.view {
        var j :| 0 <= j < |evs| && evs[j].path == q;
        FoundIffVisited(c, evs, j);
      } else if MayVisit(c, evs, q) {
        DueWasMet(c, evs1, evs, q);
      }
    }
  }

  /* ---- what a run meets is determined ---- */

  /** Two exact runs that agree so far agree on the next name: it comes first of what is left
      of both, and what has been met decides what it is. */
  lemma {:induction false} NextAgrees(c: Input, a: seq<Event>, b: seq<Event>, k: nat)
    requires InputOk(c) && Exact(c, a) && Exact(c, b) && k < |a| && k <= |b| && a[..k] == b[..k]
    requires k < |b| ==> Le(a[k].path, b[k].path)
    ensures k < |b| && a[k] == b[k]
  {
    var q := a[k].path;
    assert EventOk(c, a[k]);
    FoundAtTurn(c, a, k);
    if k > 0 {
      IndexBefore(a, k - 1, k);
    }
    if k < |b| && b[k].path == q {
      SameName(c, a, b, k);
    } else {
      NotIn(b, k, q);
      if q in c.fs {
        LaterThan(b, k, q);
        MayVisitSame(c, b[..k], b, q);
        TurnIsVisit(c, a, k);
      }
    }
  }

  lemma {:induction false} SameName(c: Input, a: seq<Event>, b: seq<Event>, k: nat)
    requires InputOk(c) && Exact(c, a) && Exact(c, b) && k < |a| && k < |b| && a[..k] == b[..k]
    requires a[k].path == b[k].path
    ensures a[k] == b[k]
  {
    assert EventOk(c, a[k]) && EventOk(c, b[k]);
    if a[k].path in c.fs {
      FoundAtTurn(c, a, k);
      FoundAtTurn(c, b, k);
      TurnIsVisit(c, a, k);
      TurnIsVisit(c, b, k);
    }
  }

  lemma {:induction false} TurnIsVisit(c: Input, evs: seq<Event>, k: nat)
    requires Exact(c, evs) && k < |evs| && evs[k].path in c.fs
    ensures Visited(evs[k]) <==> MayVisit(c, evs, evs[k].path)
  {
    if HasVisited(evs, evs[k].path) {
      var i :| 0 <= i < |evs| && evs[i].path == evs[k].path && Visited(evs[i]);
      IndexBefore(evs, i, k);
    }
  }

  /** A name before the `k`-th that is none of the first `k` is not met. */
  lemma {:induction false} NotIn(evs: seq<Event>, k: nat, q: Path)
    requires InPathOrder(evs) && k <= |evs| && After(evs[..k], q) && (k < |evs| ==> Lt(q, evs[k].path))
    ensures !Has(evs, q)
  {
    LtIrreflexive(q);
    if Has(evs, q) {
      var i :| 0 <= i < |evs| && evs[i].path == q;
      if i < k {
        IndexBefore(evs, i, k - 1);
        LtAsymmetric(evs[k - 1].path, q);
      } else if i > k {
        IndexBefore(evs, k, i);
        LtAsymmetric(q, evs[k].path);
      }
    }
  }

  lemma {:induction false} LaterThan(evs: seq<Event>, k: nat, q: Path)
    requires InPathOrder(evs) && k <= |evs| && (k < |evs| ==> Lt(q, evs[k].path))
    ensures Later(evs[..k], evs, q)
  {
    forall i | k <= i < |evs|
      ensures IsLater(evs[i], q)
    {
      if i > k {
        IndexBefore(evs, k, i);
        LtTransitive(q, evs[k].path, evs[i].path);
      }
      LtAsymmetric(q, evs[i].path);
    }
  }

  lemma {:induction false} SameUpTo(c: Input, a: seq<Event>, b: seq<Event>, n: nat)
    requires InputOk(c) && Exact(c, a) && Exact(c, b) && n <= |a|
    ensures n <= |b| && a[..n] == b[..n]
    decreases n
  {
    if n > 0 {
      var k := n - 1;
      SameUpTo(c, a, b, k);
      if k < |b| && Lt(b[k].path, a[k].path) {
        NextAgrees(c, b, a, k);
      } else {
        if k < |b| {
          LtTotal(a[k].path, b[k].path);
        }
        NextAgrees(c, a, b, k);
      }
      assert a[..n] == a[..k] + [a[k]] && b[..n] == b[..k] + [b[k]];
    }
  }

  /** So the inputs determine what a run meets, whatever the exclude patterns and the negative
      directories. */
  lemma {:induction false} MergeUnique(c: Input, a: seq<Event>, b: seq<Event>)
    requires InputOk(c) && Exact(c, a) && Exact(c, b)
    ensures a == b
  {
    SameUpTo(c, a, b, |a|);
    SameUpTo(c, b, a, |b|);
    assert a[..|a|] == a && b[..|b|] == b;
  }

  /* ---- what that comes to ---- */

  predicate NoExcludes(c: Input) {
    forall p :: p in c.fs ==> !Skippable(c, p)
  }

  /** An object that is the root, or in a transcript, or whose directory is such an object and
      no negative one. */
  predicate Reached(c: Input, q: Path)
    decreases |q|
  {
    q == c.scope.prefix || q in c.view ||
    exists d :: d in c.fs && |d| < |q| && EntryOf(q, d) && !NegDir(c, d) && Reached(c, d)
  }

  lemma {:induction false} VisitedInFs(c: Input, evs: seq<Event>, q: Path)
    requires Exact(c, evs) && HasVisited(evs, q)
    ensures q in c.fs
  {
    var i :| 0 <= i < |evs| && evs[i].path == q && Visited(evs[i]);
    assert EventOk(c, evs[i]);
  }

  lemma {:induction false} VisitedReached(c: Input, evs: seq<Event>, q: Path)
    requires TreeShaped(c.fs, c.scope.prefix) && Exact(c, evs) && q in c.fs && HasVisited(evs, q)
    ensures Reached(c, q)
    decreases |q|
  {
    assert MayVisit(c, evs, q);
    if q != c.scope.prefix && q !in c.view {
      var d :| Entered(c, evs, d) && EntryOf(q, d);
      VisitedReached(c, evs, d);
    }
  }

  /** The nearest object above `q` that was met. */
  lemma {:induction false} NearestMet(c: Input, evs: seq<Event>, q: Path) returns (x: Path)
    requires TreeShaped(c.fs, c.scope.prefix) && q in c.fs && q != c.scope.prefix && HasVisited(evs, c.scope.prefix)
    ensures x in c.fs && c.fs[x].kind == Dir && HasVisited(evs, x) && Under(q, x) && x != q
    ensures forall z :: z in c.fs && Under(q, z) && Under(z, x) && z != x && z != q ==> !HasVisited(evs, z)
    decreases |q|
  {
    var d := TreeDir(c.fs, c.scope.prefix, q);
    x := d;
    if !HasVisited(evs, d) {
      x := NearestMet(c, evs, d);
      UnderTransitive(q, d, x);
      if x == q {
        UnderAntisymmetric(d, q);
      }
    }
    forall z | z in c.fs && Under(q, z) && Under(z, x) && z != x && z != q
      ensures !HasVisited(evs, z)
    {
      TreeCanonical(c.fs, c.scope.prefix, z);
      EntryParentUnder(q, d, z);
      if x == d {
        UnderAntisymmetric(d, z);
      }
    }
  }

  lemma {:induction false} ReachedVisited(c: Input, evs: seq<Event>, q: Path)
    requires InputOk(c) && Exact(c, evs) && NoExcludes(c) && q in c.fs && Reached(c, q)
    ensures HasVisited(evs, q)
    decreases |q|
  {
    var root := c.scope.prefix;
    assert MayVisit(c, evs, root);
    if q != root && q in c.view {
      var x := NearestMet(c, evs, q);
      if NegDir(c, x) {
        ListedFound(c, evs, q, x);
      } else {
        var e := TreeEntryAbove(c.fs, root, q, x);
        TreeCanonical(c.fs, root, x);
        EntryUnder(e, x);
        assert Led(c, evs, e);
        assert MayVisit(c, evs, e);
      }
    } else if q != root {
      var d :| d in c.fs && |d| < |q| && EntryOf(q, d) && !NegDir(c, d) && Reached(c, d);
      ReachedVisited(c, evs, d);
      var d' := TreeDir(c.fs, root, q);
      OneTreeDir(c.fs, root, q, d, d');
      assert Entered(c, evs, d);
      assert MayVisit(c, evs, q);
    }
  }

  lemma {:induction false} ListedFound(c: Input, evs: seq<Event>, q: Path, n: Path)
    requires Exact(c, evs) && q in c.fs && q in c.view && InNeg(c, evs, q, n)
    requires forall z :: z in c.fs && Under(q, z) && Under(z, n) && z != n && z != q ==> !HasVisited(evs, z)
    ensures HasVisited(evs, q)
  {
    assert LookedUpFor(c, evs, q, n);
    assert MayVisit(c, evs, q);
  }

  /** Whatever the inputs, only what the walk gets to is met; without exclude patterns, all of
      it, and so below a negative directory what the transcripts list and what lies in ordinary
      directories they list. */
  lemma {:induction false} MetIffReached(c: Input, evs: seq<Event>, q: Path)
    requires InputOk(c) && Exact(c, evs) && q in c.fs
    ensures HasVisited(evs, q) ==> Reached(c, q)
    ensures NoExcludes(c) ==> (HasVisited(evs, q) <==> Reached(c, q))
  {
    if HasVisited(evs, q) {
      VisitedReached(c, evs, q);
    } else if NoExcludes(c) && Reached(c, q) {
      ReachedVisited(c, evs, q);
    }
  }

  /** An entry the walk comes to is met unless it is excluded and the patterns are on. */
  lemma {:induction false} EntryMetIff(c: Input, evs: seq<Event>, d: Path, q: Path)
    requires InputOk(c) && Exact(c, evs) && Entered(c, evs, d) && q in c.fs && EntryOf(q, d)
    ensures HasVisited(evs, q) <==> (Skippable(c, q) ==> Spares(c, evs, d))
  {
    SparedByDir(c, evs, d, q);
    NoDirOfRoot(c.fs, c.scope.prefix, d);
    assert q in c.view ==> Admitted(c, q);
    assert Led(c, evs, q);
    assert MayVisit(c, evs, q) <==> Due(c, evs, q);
  }

  /** The line of `d` is for a directory, and of a negative transcript. */
  predicate SaidNegative(c: Input, d: Path) {
    d in c.view && c.view[d].src.kind == Negative && c.view[d].obj.kind == Dir
  }

  /** Of the entries of any other directory met, all are met but the excluded ones that are
      not special, and with -A those too if no transcript has the directory. */
  lemma {:induction false} OrdinaryEntry(c: Input, evs: seq<Event>, d: Path, q: Path)
    requires InputOk(c) && Exact(c, evs) && q in c.fs && EntryOf(q, d)
    requires d in c.fs && c.fs[d].kind == Dir && HasVisited(evs, d) && !SaidNegative(c, d)
    ensures !c.scope.excluded(q) || q in c.specials ==> HasVisited(evs, q)
    ensures c.scope.excluded(q) && q !in c.specials && c.cfg.editPath == Applicable ==>
              (HasVisited(evs, q) <==> d !in c.view)
  {
    EntryMetIff(c, evs, d, q);
  }

  /** Of the entries of a negative one exactly those the transcripts list. */
  lemma {:induction false} NegativeEntry(c: Input, evs: seq<Event>, d: Path, q: Path)
    requires InputOk(c) && Exact(c, evs) && q in c.fs && EntryOf(q, d)
    requires d in c.fs && HasVisited(evs, d) && SaidNegative(c, d)
    ensures HasVisited(evs, q) <==> q in c.view
  {
    TreeCanonical(c.fs, c.scope.prefix, d);
    EntryUnder(q, d);
    NoDirOfRoot(c.fs, c.scope.prefix, d);
    if q in c.view {
      forall z | z in c.fs && Under(q, z) && Under(z, d) && z != d
        ensures z == q
      {
        HoldsDir(c, d, q, z);
        TreeCanonical(c.fs, c.scope.prefix, z);
        if z != q {
          UnderAntisymmetric(z, d);
        }
      }
      ListedFound(c, evs, q, d);
    } else if HasVisited(evs, q) {
      assert MayVisit(c, evs, q);
      var x :| Entered(c, evs, x) && EntryOf(q, x);
      OneTreeDir(c.fs, c.scope.prefix, q, d, x);
    }
  }

  /** special_list holds what the special transcript says. */
  ghost predicate SpecialsListed(c: Input, stack: seq<Src>) {
    forall p {:trigger View(c.scope, stack, p)} ::
      View(c.scope, stack, p).Some? && View(c.scope, stack, p).value.src.kind == Special ==> p in c.specials
  }

  lemma {:induction false} ListedInputOk(c: Input, stack: seq<Src>)
    requires TreeShaped(c.fs, c.scope.prefix) && c.view == ViewMap(c.scope, stack)
    requires SpecialsListed(c, stack)
    ensures InputOk(c)
  {
    forall p | p in c.view
      ensures Admitted(c, p)
    {
      assert View(c.scope, stack, p).Some?;
    }
  }

  /** An object that special.T lists first, in an ordinary directory met, is compared with its
      line there, whatever the exclude patterns: it is never taken for one to be removed. */
  lemma {:induction false} SpecialCompared(c: Input, stack: seq<Src>, evs: seq<Event>, k: nat, i: nat, d: Path, q: Path)
    requires TreeShaped(c.fs, c.scope.prefix) && c.view == ViewMap(c.scope, stack)
    requires SpecialsListed(c, stack)
    requires Exact(c, evs) && Entered(c, evs, d) && q in c.fs && EntryOf(q, d)
    requires FirstLists(stack, k, i, q) && stack[k].src.kind == Special && !stack[k].lines[i].minus
    ensures exists j :: 0 <= j < |evs| &&
                        evs[j] == Compared(q, c.fs[q], Entry(stack[k].src, false, stack[k].lines[i].obj))
    ensures forall j :: 0 <= j < |evs| && evs[j].path == q ==> evs[j].Compared?
  {
    ListedInputOk(c, stack);
    TreeCanonical(c.fs, c.scope.prefix, q);
    FirstLineDecides(c.scope, stack, k, i, q);
    assert View(c.scope, stack, q).Some? && Admitted(c, q);
    EntryMetIff(c, evs, d, q);
    var j :| 0 <= j < |evs| && evs[j].path == q && Visited(evs[j]);
    assert EventOk(c, evs[j]);
    forall x | 0 <= x < |evs| && evs[x].path == q
      ensures x == j
    {
      IndexBefore(evs, x, j);
    }
  }

  /** With -C an exclude pattern counts for an entry of a directory that has been met unless
      a "-" line was printed just before that directory and in the call for it; the entries of
      a negative directory are not read. */
  lemma {:induction false} ExcludedWithC(c: Input, evs: seq<Event>, d: Path, q: Path)
    requires InputOk(c) && Exact(c, evs) && c.cfg.editPath == Creatable
    requires d in c.fs && c.fs[d].kind == Dir && HasVisited(evs, d)
    requires q in c.fs && EntryOf(q, d) && Skippable(c, q)
    ensures HasVisited(evs, q) <==> !NegDir(c, d) && MinusBefore(c, evs, d)
  {
    if NegDir(c, d) {
      assert q in c.view ==> Admitted(c, q);
      NegativeEntry(c, evs, d, q);
    } else {
      EntryMetIff(c, evs, d, q);
    }
  }

  /* ---- with -A, from the inputs alone ---- */

  /** An exclude pattern hides `x` from -A unless the directory of `x` is removed. */
  predicate Hidden(c: Input, x: Path) {
    Skippable(c, x) && !exists d :: d in c.fs && EntryOf(x, d) && d !in c.view
  }

  predicate IsRead(c: Input, d: Path) {
    d in c.fs && c.fs[d].kind == Dir && !NegDir(c, d)
  }

  ghost predicate GoesOnSeen(c: Input, d: Path, q: Path) {
    exists y :: ComesAfter(c, d, q, y) && !Hidden(c, y)
  }

  /** The object `q` is found. */
  ghost predicate Found(c: Input, q: Path)
    decreases |q|, 1
  {
    FoundByDir(c, q) || (q in c.view && exists n :: FoundBelow(c, q, n))
  }

  /** From its directory, if that is found and `q` is not hidden. */
  ghost predicate FoundByDir(c: Input, q: Path)
    decreases |q|, 0
  {
    && (q == c.scope.prefix || exists d :: IsRead(c, d) && EntryOf(q, d) && Found(c, d))
    && !Hidden(c, q)
  }

  /** Or because it is listed below the negative directory `n`, if that is found and no
      directory between that is found goes on after it. */
  ghost predicate FoundBelow(c: Input, q: Path, n: Path)
    decreases |q|, 0
  {
    && n in c.fs && NegDir(c, n) && Under(q, n) && |n| < |q| && Found(c, n)
    && forall d :: IsRead(c, d) && Under(d, n) && Under(q, d) && |d| < |q| && Found(c, d) ==> !GoesOnSeen(c, d, q)
  }

  /** What is known of the shorter paths. */
  ghost predicate MetAsFound(c: Input, evs: seq<Event>, q: Path) {
    forall x {:trigger Found(c, x)} :: x in c.fs && |x| < |q| ==> (HasVisited(evs, x) <==> Found(c, x))
  }

  lemma {:induction false} HiddenIff(c: Input, evs: seq<Event>, d: Path, y: Path)
    requires TreeShaped(c.fs, c.scope.prefix) && c.cfg.editPath == Applicable && d in c.fs && EntryOf(y, d)
    ensures Hidden(c, y) <==> Skippable(c, y) && !Spares(c, evs, d)
    ensures Spared(c, evs, y) <==> Spares(c, evs, d)
  {
    SparedByDir(c, evs, d, y);
    assert Hidden(c, y) <==> Skippable(c, y) && !Spared(c, evs, y);
  }

  lemma {:induction false} DueIffFound(c: Input, evs: seq<Event>, q: Path)
    requires TreeShaped(c.fs, c.scope.prefix) && c.cfg.editPath == Applicable && MetAsFound(c, evs, q) && q in c.fs
    ensures Due(c, evs, q) <==> FoundByDir(c, q)
  {
    forall d | IsRead(c, d) && EntryOf(q, d)
      ensures Entered(c, evs, d) <==> Found(c, d)
    {
    }
    assert Hidden(c, q) <==> Skippable(c, q) && !Spared(c, evs, q);
  }

  lemma {:induction false} GoesOnIff(c: Input, evs: seq<Event>, d: Path, q: Path)
    requires TreeShaped(c.fs, c.scope.prefix) && c.cfg.editPath == Applicable && d in c.fs
    ensures GoesOn(c, evs, d, q) <==> GoesOnSeen(c, d, q)
  {
    forall y | ComesAfter(c, d, q, y)
      ensures Hidden(c, y) <==> Skippable(c, y) && !Spares(c, evs, d)
    {
      HiddenIff(c, evs, d, y);
    }
  }

  lemma {:induction false} LookedUpIffFound(c: Input, evs: seq<Event>, q: Path, n: Path)
    requires TreeShaped(c.fs, c.scope.prefix) && Exact(c, evs) && c.cfg.editPath == Applicable
    requires MetAsFound(c, evs, q)
    ensures LookedUpFor(c, evs, q, n) <==> FoundBelow(c, q, n)
  {
    if HasVisited(evs, n) {
      VisitedInFs(c, evs, n);
    }
    forall d | IsRead(c, d) && Under(q, d) && d != q
      ensures Entered(c, evs, d) <==> Found(c, d)
      ensures GoesOn(c, evs, d, q) <==> GoesOnSeen(c, d, q)
    {
      GoesOnIff(c, evs, d, q);
    }
  }

  /** With -A the objects met are told from the inputs. */
  lemma {:induction false} MetIffFound(c: Input, evs: seq<Event>, q: Path)
    requires InputOk(c) && Exact(c, evs) && c.cfg.editPath == Applicable && q in c.fs
    ensures HasVisited(evs, q) <==> Found(c, q)
    decreases |q|
  {
    forall x | x in c.fs && |x| < |q|
      ensures HasVisited(evs, x) <==> Found(c, x)
    {
      MetIffFound(c, evs, x);
    }
    DueIffFound(c, evs, q);
    forall n
      ensures LookedUpFor(c, evs, q, n) <==> FoundBelow(c, q, n)
    {
      LookedUpIffFound(c, evs, q, n);
    }
    assert HasVisited(evs, q) <==> MayVisit(c, evs, q);
  }

  /** No object at or above `q` is hidden. */
  predicate Clear(c: Input, q: Path) {
    forall x :: x in c.fs && Under(q, x) ==> !Hidden(c, x)
  }

  /** In no negative directory: exactly if nothing at or above hides it. */
  lemma {:induction false} MetIffClear(c: Input, evs: seq<Event>, q: Path)
    requires InputOk(c) && Exact(c, evs) && c.cfg.editPath == Applicable && q in c.fs
    requires forall n :: NegDir(c, n) && Under(q, n) ==> n == q
    ensures HasVisited(evs, q) <==> Clear(c, q)
    decreases |q|
  {
    var root := c.scope.prefix;
    TreeCanonical(c.fs, root, q);
    UnderReflexive(q);
    assert HasVisited(evs, q) <==> MayVisit(c, evs, q);
    assert !LookedUp(c, evs, q);
    assert Hidden(c, q) <==> Skippable(c, q) && !Spared(c, evs, q);
    if q == root {
      forall x | x in c.fs && Under(q, x)
        ensures x == q
      {
        TreeCanonical(c.fs, root, x);
        UnderAntisymmetric(x, q);
      }
    } else {
      var d := TreeDir(c.fs, root, q);
      ClearDir(c, q, d);
      MetIffClear(c, evs, d);
      assert Led(c, evs, q) <==> HasVisited(evs, d) by {
        if Led(c, evs, q) {
          var d' :| Entered(c, evs, d') && EntryOf(q, d');
          OneTreeDir(c.fs, root, q, d, d');
        }
        assert HasVisited(evs, d) ==> Entered(c, evs, d);
      }
    }
  }

  lemma {:induction false} ClearDir(c: Input, q: Path, d: Path)
    requires TreeShaped(c.fs, c.scope.prefix) && q in c.fs && d in c.fs && EntryOf(q, d)
    requires forall n :: NegDir(c, n) && Under(q, n) ==> n == q
    ensures Clear(c, q) <==> Clear(c, d) && !Hidden(c, q)
    ensures forall n :: !(NegDir(c, n) && Under(d, n))
  {
    TreeCanonical(c.fs, c.scope.prefix, d);
    EntryUnder(q, d);
    UnderReflexive(q);
    forall x
      ensures Under(d, x) ==> Under(q, x) && x != q
      ensures Under(q, x) && x != q ==> Under(d, x)
    {
      HoldsDir(c, d, q, x);
    }
  }

  /* ---- directories that -A removes ---- */

  /** No entry of the view lies at or below `d`. */
  predicate Barren(c: Input, d: Path) {
    forall p :: p in c.view ==> !Under(p, d)
  }

  predicate AllMet(c: Input, evs: seq<Event>, d: Path) {
    forall q :: q in c.fs && Under(q, d) ==> HasVisited(evs, q)
  }

  /** Excluded names and all: nothing is passed over in a directory that is removed. */
  lemma {:induction false} RemovedAllMet(c: Input, evs: seq<Event>, d: Path)
    requires InputOk(c) && Exact(c, evs) && c.cfg.editPath == Applicable
    requires d in c.fs && Barren(c, d) && HasVisited(evs, d)
    ensures AllMet(c, evs, d)
  {
    forall q | q in c.fs && Under(q, d)
      ensures HasVisited(evs, q)
    {
      RemovedMet(c, evs, d, q);
    }
  }

  lemma {:induction false} RemovedMet(c: Input, evs: seq<Event>, d: Path, q: Path)
    requires InputOk(c) && Exact(c, evs) && c.cfg.editPath == Applicable
    requires d in c.fs && Barren(c, d) && HasVisited(evs, d) && q in c.fs && Under(q, d)
    ensures HasVisited(evs, q)
    decreases |q|
  {
    if q != d {
      TreeCanonical(c.fs, c.scope.prefix, d);
      if q == c.scope.prefix {
        UnderAntisymmetric(q, d);
      }
      var x := TreeDir(c.fs, c.scope.prefix, q);
      EntryParentUnder(q, x, d);
      RemovedMet(c, evs, d, x);
      EntryMetIff(c, evs, x, q);
    }
  }

  /* ---- the merge without exclude patterns and negative directories ---- */

  predicate Known(c: Input, p: Path) {
    p in c.fs || p in c.view
  }

  /** The full merge of the filesystem and the view: every name of either, once, in path
      order, as found in the filesystem only, in the view only, or in both. */
  predicate IsMerge(c: Input, evs: seq<Event>) {
    && InPathOrder(evs)
    && (forall i :: 0 <= i < |evs| ==> Known(c, evs[i].path) && evs[i] == EventFor(c, evs[i].path))
    && (forall p :: p in c.fs ==> Has(evs, p))
    && (forall p :: p in c.view ==> Has(evs, p))
  }

  lemma {:induction false} PlainRunIsMerge(c: Input, evs: seq<Event>)
    requires InputOk(c) && Exact(c, evs) && NoNegDirs(c) && NoExcludes(c)
    ensures IsMerge(c, evs)
  {
    forall p | p in c.fs
      ensures HasVisited(evs, p)
    {
      PlainVisited(c, evs, p);
    }
    forall i | 0 <= i < |evs|
      ensures Known(c, evs[i].path) && evs[i] == EventFor(c, evs[i].path)
    {
      assert EventOk(c, evs[i]);
      if evs[i].TranOnly? && evs[i].path in c.fs {
        var j :| 0 <= j < |evs| && evs[j].path == evs[i].path && Visited(evs[j]);
        IndexBefore(evs, i, j);
      }
    }
  }

  lemma {:induction false} PlainVisited(c: Input, evs: seq<Event>, p: Path)
    requires InputOk(c) && Exact(c, evs) && NoNegDirs(c) && NoExcludes(c) && p in c.fs
    ensures HasVisited(evs, p)
    decreases |p|
  {
    if p == c.scope.prefix {
      assert MayVisit(c, evs, p);
    } else {
      var d := TreeDir(c.fs, c.scope.prefix, p);
      PlainVisited(c, evs, d);
      EntryMetIff(c, evs, d, p);
    }
  }

  /* ---- the lines of a directory that is removed ---- */

  /** The output has a "-" line for `p`. */
  predicate PrintsMinus(out: seq<OutLine>, p: Path) {
    exists i :: 0 <= i < |out| && out[i].Edit? && out[i].sign == Minus && out[i].path == p
  }

  lemma {:induction false} FsOnlyIsMinus(cfg: Config, evs: seq<Event>, i: nat)
    requires cfg.editPath == Applicable && i < |evs| && evs[i].FsOnly?
    ensures PrintsMinus(Printed(cfg, evs).out, evs[i].path)
    decreases |evs|
  {
    var n := |evs| - 1;
    var before, after := Printed(cfg, evs[..n]), Printed(cfg, evs);
    assert before.out <= after.out;
    if i < n {
      FsOnlyIsMinus(cfg, evs[..n], i);
      var k :| 0 <= k < |before.out| && before.out[k].Edit? && before.out[k].sign == Minus &&
               before.out[k].path == evs[i].path;
      assert after.out[k] == before.out[k];
    } else {
      var l := after.out[|before.out|];
      assert l.Edit? && l.sign == Minus && l.path == evs[i].path;
    }
  }

  /** When -A removes a directory below which the transcripts list nothing, it removes
      everything in it, at any depth and whatever the exclude patterns say. */
  lemma {:induction false} RemovedTreePrinted(c: Input, evs: seq<Event>, i: nat, q: Path)
    requires InputOk(c) && Exact(c, evs) && c.cfg.editPath == Applicable
    requires i < |evs| && evs[i].FsOnly? && Barren(c, evs[i].path)
    requires q in c.fs && Under(q, evs[i].path)
    ensures PrintsMinus(Printed(c.cfg, evs).out, q)
  {
    assert EventOk(c, evs[i]);
    RemovedAllMet(c, evs, evs[i].path);
    var j :| 0 <= j < |evs| && evs[j].path == q && Visited(evs[j]);
    assert EventOk(c, evs[j]);
    FsOnlyIsMinus(c.cfg, evs, j);
  }
}
