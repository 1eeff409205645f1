/** What a run of fsdiff must have met by the time it has met some sequence of names:
    the exact merge of the walk with what the transcripts say. */
module Journal {
  import opened Options
  import opened Paths
  import opened Entries
  import opened Views

  /** The inputs of a run: options, scope, special_list, the filesystem and the view. */
  datatype Input = Input(cfg: Config, scope: Scope, specials: set<Path>,
                         fs: map<Path, Obj>, view: map<Path, Entry>)

  /* ---- names met ---- */

  predicate Visited(e: Event) {
    !e.TranOnly?
  }

  predicate Has(evs: seq<Event>, p: Path) {
    exists i :: 0 <= i < |evs| && evs[i].path == p
  }

  predicate HasVisited(evs: seq<Event>, p: Path) {
    exists i :: 0 <= i < |evs| && evs[i].path == p && Visited(evs[i])
  }

  /** Everything met so far comes before `p`. */
  predicate After(evs: seq<Event>, p: Path) {
    |evs| == 0 || Lt(evs[|evs| - 1].path, p)
  }

  /** The event says what the filesystem and the view say about its name. */
  predicate EventOk(c: Input, e: Event) {
    match e
    case FsOnly(p, o) => p in c.fs && o == c.fs[p] && p !in c.view
    case Compared(p, o, en) => p in c.fs && o == c.fs[p] && p in c.view && en == c.view[p]
    case TranOnly(p, en) => p in c.view && en == c.view[p]
  }

  /** What the transcripts still have to say. */
  function Left(c: Input, evs: seq<Event>, p: Path): Option<Entry> {
    if p in c.view && After(evs, p) then Some(c.view[p]) else None
  }

  /** An exclude pattern hides `p`, which is not a special file. */
  predicate Skippable(c: Input, p: Path) {
    c.scope.excluded(p) && p !in c.specials
  }

  /** `p` is a directory of a negative transcript: its entries are not read. */
  predicate NegDir(c: Input, p: Path) {
    p in c.view && c.view[p].src.kind == Negative && c.view[p].obj.kind == Dir
  }

  predicate NoNegDirs(c: Input) {
    forall p :: p in c.view ==> !NegDir(c, p)
  }

  /** The walk has met the directory `d` and reads it. */
  predicate Entered(c: Input, evs: seq<Event>, d: Path) {
    d in c.fs && c.fs[d].kind == Dir && !NegDir(c, d) && HasVisited(evs, d)
  }

  /** `p` is an entry of such a directory. */
  ghost predicate Led(c: Input, evs: seq<Event>, p: Path) {
    exists d :: Entered(c, evs, d) && EntryOf(p, d)
  }

  /** `q` lies below the negative directory `n`, which has been met. */
  predicate InNeg(c: Input, evs: seq<Event>, q: Path, n: Path) {
    NegDir(c, n) && HasVisited(evs, n) && Under(q, n) && q != n
  }

  /** The name before the `j`-th was found in the transcripts only, and in the call for the
      `j`-th: it lies in no negative directory that does not hold both. */
  ghost predicate AfterTranOnly(c: Input, evs: seq<Event>, j: nat)
    requires 0 < j < |evs|
  {
    evs[j - 1].TranOnly? && forall n :: InNeg(c, evs, evs[j - 1].path, n) ==> Under(evs[j].path, n)
  }

  /** A "-" line was printed just before the directory `d`, in the call for it. */
  ghost predicate MinusBefore(c: Input, evs: seq<Event>, d: Path) {
    Led(c, evs, d) &&
    exists j {:trigger evs[j]} :: 0 < j < |evs| && evs[j].path == d && Visited(evs[j]) && AfterTranOnly(c, evs, j)
  }

  /** fs_minus once the directory `d` has been met: with -A, that no transcript has it, and
      with -C, that a "-" line was printed just before it. */
  ghost predicate Spares(c: Input, evs: seq<Event>, d: Path) {
    if c.cfg.editPath == Applicable then d !in c.view else MinusBefore(c, evs, d)
  }

  /** The exclude patterns do not count for `p`, because of its directory. */
  ghost predicate Spared(c: Input, evs: seq<Event>, p: Path) {
    exists d :: d in c.fs && EntryOf(p, d) && Spares(c, evs, d)
  }

  /** The walk comes to the object `p` from its directory and does not pass it over. */
  ghost predicate Due(c: Input, evs: seq<Event>, p: Path) {
    (p == c.scope.prefix || Led(c, evs, p)) && (Skippable(c, p) ==> Spared(c, evs, p))
  }

  /** After `q` the walk comes to an entry of `d` that it does not pass over. */
  predicate ComesAfter(c: Input, d: Path, q: Path, y: Path) {
    y in c.fs && EntryOf(y, d) && Lt(q, y)
  }

  ghost predicate GoesOn(c: Input, evs: seq<Event>, d: Path, q: Path) {
    exists y :: ComesAfter(c, d, q, y) && (Skippable(c, y) ==> Spares(c, evs, d))
  }

  /** Below `n` the listed name `q` is not taken for one that only the transcripts have: that
      happens when a directory between them goes on after it. */
  ghost predicate LookedUpFor(c: Input, evs: seq<Event>, q: Path, n: Path) {
    InNeg(c, evs, q, n) &&
    forall d :: Entered(c, evs, d) && Under(d, n) && Under(q, d) && d != q ==> !GoesOn(c, evs, d, q)
  }

  /** The listed name `q` is looked up, for a negative directory above it. */
  ghost predicate LookedUp(c: Input, evs: seq<Event>, q: Path) {
    exists n :: LookedUpFor(c, evs, q, n)
  }

  /** The walk finds the object `p`: from its directory, or because it is listed. */
  ghost predicate MayVisit(c: Input, evs: seq<Event>, p: Path) {
    Due(c, evs, p) || (p in c.view && LookedUp(c, evs, p))
  }

  /** When `e` may be met after `evs`: it comes next, says what is so, and an object is found
      exactly when the walk gets to it. */
  ghost predicate MayMeet(c: Input, evs: seq<Event>, e: Event) {
    && After(evs, e.path) && EventOk(c, e)
    && (forall p :: Left(c, evs, p).Some? ==> Le(e.path, p))
    && (e.path in c.fs ==> (Visited(e) <==> MayVisit(c, evs, e.path)))
  }

  /** The `j`-th name could be met at its turn. */
  ghost predicate MetRightly(c: Input, evs: seq<Event>, j: nat)
    requires j < |evs|
  {
    MayMeet(c, evs[..j], evs[j])
  }

  /** The invariant of the run: every name was one that could be met at its turn. */
  ghost predicate Kept(c: Input, evs: seq<Event>) {
    forall j {:trigger MetRightly(c, evs, j)} :: 0 <= j < |evs| ==> MetRightly(c, evs, j)
  }

  lemma {:induction false} MeetKeeps(c: Input, evs: seq<Event>, e: Event)
    requires Kept(c, evs) && MayMeet(c, evs, e)
    ensures Kept(c, evs + [e])
  {
    forall j | 0 <= j <= |evs|
      ensures MetRightly(c, evs + [e], j)
    {
      assert (evs + [e])[..j] == evs[..j];
      if j < |evs| {
        assert MetRightly(c, evs, j);
      } else {
        assert evs[..j] == evs;
      }
    }
  }

  lemma {:induction false} KeptFront(c: Input, evs: seq<Event>, n: nat)
    requires Kept(c, evs) && n <= |evs|
    ensures Kept(c, evs[..n])
  {
    forall j | 0 <= j < n
      ensures MetRightly(c, evs[..n], j)
    {
      assert MetRightly(c, evs, j) && evs[..n][..j] == evs[..j];
    }
  }

  lemma {:induction false} LeftAfter(c: Input, evs: seq<Event>, e: Event)
    requires MayMeet(c, evs, e)
    ensures forall p :: Left(c, evs + [e], p) == if p == e.path then None else Left(c, evs, p)
  {
    LtIrreflexive(e.path);
    forall p
      ensures Left(c, evs + [e], p) == if p == e.path then None else Left(c, evs, p)
    {
      if Lt(e.path, p) && |evs| > 0 {
        LtTransitive(evs[|evs| - 1].path, e.path, p);
      }
    }
  }

  /* ---- the invariant and the transcripts' cursors ---- */

  /** The transcripts still say exactly what is left. */
  ghost predicate Tied(c: Input, evs: seq<Event>, stack: seq<Src>) {
    forall p {:trigger View(c.scope, stack, p)} :: View(c.scope, stack, p) == Left(c, evs, p)
  }

  /** Transcript `b` holds the first entry left, or none is left. */
  ghost predicate NextIs(c: Input, evs: seq<Event>, stack: seq<Src>, b: nat) {
    && b < |stack|
    && (forall q :: Left(c, evs, q).Some? ==>
          More(stack[b]) && Left(c, evs, Head(stack[b])) == Some(Current(stack[b])) && Le(Head(stack[b]), q))
    && (More(stack[b]) ==> Left(c, evs, Head(stack[b])).Some?)
  }

  /** The transcripts say what is left but for `h`. */
  ghost predicate TiedWithout(c: Input, evs: seq<Event>, stack: seq<Src>, h: Path) {
    forall p {:trigger View(c.scope, stack, p)} :: View(c.scope, stack, p) == if p == h then None else Left(c, evs, p)
  }

  lemma {:induction false} SelectGivesNext(c: Input, evs: seq<Event>, stack: seq<Src>)
    requires |stack| > 0 && AllSorted(stack) && Tied(c, evs, stack)
    ensures var (stack', b) := Select(c.scope, stack);
            && Tied(c, evs, stack') && NextIs(c, evs, stack', b)
            && (More(stack'[b]) ==> TiedWithout(c, evs, Advance(stack', b), Head(stack'[b])))
  {
    var (stack', b) := Select(c.scope, stack);
    forall p
      ensures View(c.scope, stack', p) == Left(c, evs, p)
      ensures Left(c, evs, p).Some? ==>
                More(stack'[b]) && Left(c, evs, Head(stack'[b])) == Some(Current(stack'[b])) && Le(Head(stack'[b]), p)
      ensures More(stack'[b]) ==> Left(c, evs, Head(stack'[b])).Some?
      ensures More(stack'[b]) ==>
                View(c.scope, Advance(stack', b), p) == if p == Head(stack'[b]) then None else Left(c, evs, p)
    {
      SelectThenConsume(c.scope, stack, p);
      assert View(c.scope, stack, p) == Left(c, evs, p);
      if More(stack'[b]) {
        assert View(c.scope, stack, Head(stack'[b])) == Left(c, evs, Head(stack'[b]));
      }
    }
  }

  /** Meeting the name consumed ties the transcripts to what is then left. */
  lemma {:induction false} TiedAgain(c: Input, evs: seq<Event>, stack: seq<Src>, e: Event)
    requires TiedWithout(c, evs, stack, e.path) && MayMeet(c, evs, e)
    ensures Tied(c, evs + [e], stack)
  {
    LeftAfter(c, evs, e);
  }

  lemma {:induction false} TranMayBeMet(c: Input, evs: seq<Event>, stack: seq<Src>, b: nat)
    requires NextIs(c, evs, stack, b) && More(stack[b])
    requires Head(stack[b]) in c.fs ==> !MayVisit(c, evs, Head(stack[b]))
    ensures MayMeet(c, evs, TranOnly(Head(stack[b]), Current(stack[b])))
  {
  }

  /* ---- what the invariant means ---- */

  predicate Precedes(evs: seq<Event>, i: nat, j: nat)
    requires i < |evs| && j < |evs|
  {
    Lt(evs[i].path, evs[j].path)
  }

  predicate InPathOrder(evs: seq<Event>) {
    forall i, j {:trigger Precedes(evs, i, j)} :: 0 <= i < j < |evs| ==> Precedes(evs, i, j)
  }

  lemma {:induction false} OrderSnoc(front: seq<Event>, e: Event)
    requires InPathOrder(front) && After(front, e.path)
    ensures InPathOrder(front + [e])
  {
    var n := |front|;
    forall i, j | 0 <= i < j <= n
      ensures Precedes(front + [e], i, j)
    {
      if j < n {
        assert Precedes(front, i, j);
      } else if i < n - 1 {
        assert Precedes(front, i, n - 1);
        LtTransitive(front[i].path, front[n - 1].path, e.path);
      }
    }
  }

  lemma {:induction false} KeptInPathOrder(c: Input, evs: seq<Event>)
    requires Kept(c, evs)
    ensures InPathOrder(evs)
  {
    if |evs| > 0 {
      var n := |evs| - 1;
      KeptFront(c, evs, n);
      KeptInPathOrder(c, evs[..n]);
      assert MetRightly(c, evs, n);
      OrderSnoc(evs[..n], evs[n]);
      assert evs[..n] + [evs[n]] == evs;
    }
  }

  /** Of two names met, the one before the other in path order was met before it. */
  lemma {:induction false} IndexBefore(evs: seq<Event>, i: nat, j: nat)
    requires InPathOrder(evs) && i < |evs| && j < |evs|
    ensures i < j <==> Lt(evs[i].path, evs[j].path)
    ensures i == j <==> evs[i].path == evs[j].path
  {
    LtIrreflexive(evs[i].path);
    if i < j {
      assert Precedes(evs, i, j);
      LtAsymmetric(evs[i].path, evs[j].path);
    } else if j < i {
      assert Precedes(evs, j, i);
      LtAsymmetric(evs[j].path, evs[i].path);
    }
  }

  lemma {:induction false} FrontInOrder(evs: seq<Event>)
    requires InPathOrder(evs) && |evs| > 0
    ensures var n := |evs| - 1;
            InPathOrder(evs[..n]) && After(evs[..n], evs[n].path)
  {
    var n := |evs| - 1;
    forall i, j | 0 <= i < j < n
      ensures Precedes(evs[..n], i, j)
    {
      assert Precedes(evs, i, j);
    }
    if n > 0 {
      assert Precedes(evs, n - 1, n);
    }
  }

  lemma {:induction false} NamesUpTo(evs: seq<Event>, k: nat)
    requires k < |evs|
    ensures evs[..k + 1] == evs[..k] + [evs[k]]
  {
  }

  /** An entry of the view that is no longer to come has been met. */
  lemma {:induction false} KeptHas(c: Input, evs: seq<Event>, p: Path)
    requires Kept(c, evs) && p in c.view && Left(c, evs, p).None?
    ensures Has(evs, p)
  {
    if |evs| > 0 {
      var n := |evs| - 1;
      var front := evs[..n];
      if evs[n].path != p {
        KeptFront(c, evs, n);
        assert MetRightly(c, evs, n);
        LeftAfter(c, front, evs[n]);
        assert front + [evs[n]] == evs;
        KeptHas(c, front, p);
        var i :| 0 <= i < |front| && front[i].path == p;
        assert evs[i].path == p;
      }
    }
  }

  /* ---- what one call adds ---- */

  /** `evs1` adds to `evs0` only names of the transcripts before `upTo`. */
  predicate OnlyTran(evs0: seq<Event>, evs1: seq<Event>, upTo: Option<Path>)
    decreases |evs1|
  {
    evs1 == evs0 ||
    (|evs1| > |evs0| && IsTranBefore(evs1[|evs1| - 1], upTo) && OnlyTran(evs0, evs1[..|evs1| - 1], upTo))
  }

  predicate IsTranBefore(e: Event, upTo: Option<Path>) {
    e.TranOnly? && (upTo.Some? ==> Lt(e.path, upTo.value))
  }

  lemma {:induction false} OnlyTranSnoc(evs0: seq<Event>, evs1: seq<Event>, e: Event, upTo: Option<Path>)
    requires OnlyTran(evs0, evs1, upTo) && IsTranBefore(e, upTo)
    ensures OnlyTran(evs0, evs1 + [e], upTo) && |evs1 + [e]| > |evs0|
  {
    OnlyTranMeans(evs0, evs1, upTo);
    assert (evs1 + [e])[..|evs1|] == evs1;
  }

  lemma {:induction false} OnlyTranMeans(evs0: seq<Event>, evs1: seq<Event>, upTo: Option<Path>)
    requires OnlyTran(evs0, evs1, upTo)
    ensures evs0 <= evs1
    ensures forall i :: |evs0| <= i < |evs1| ==> IsTranBefore(evs1[i], upTo)
    decreases |evs1|
  {
    if evs1 != evs0 {
      var front := evs1[..|evs1| - 1];
      OnlyTranMeans(evs0, front, upTo);
      assert forall i :: |evs0| <= i < |front| ==> front[i] == evs1[i];
    }
  }

  /* ---- one call of transcript() ---- */

  /** transcript() passes `p` over at once. */
  predicate PassedOver(c: Input, p: Path, parentMinus: bool) {
    Skippable(c, p) && !parentMinus
  }

  /** The object `y` is to be met and has not been. */
  ghost predicate Awaited(c: Input, evs: seq<Event>, y: Path) {
    y in c.fs && Due(c, evs, y) && !HasVisited(evs, y)
  }

  /** `q` is left to the transcripts below the negative directory `n`. */
  predicate Pending(c: Input, evs: seq<Event>, q: Path, n: Path) {
    Left(c, evs, q).Some? && InNeg(c, evs, q, n)
  }

  /** The negative directories in which something is left hold `p`. */
  ghost predicate PendingAbove(c: Input, evs: seq<Event>, p: Path) {
    forall q, n :: Pending(c, evs, q, n) ==> Under(p, n)
  }

  ghost predicate FirstLeft(c: Input, evs: seq<Event>, p: Path) {
    forall q :: Left(c, evs, q).Some? ==> Le(p, q)
  }

  /** The last name met, if only the transcripts have it, was met in a call of its own: for a
      negative directory that does not hold `p`. */
  ghost predicate LastCalled(c: Input, evs: seq<Event>, p: Path) {
    |evs| > 0 && evs[|evs| - 1].TranOnly? ==> exists n :: InNeg(c, evs, evs[|evs| - 1].path, n) && !Under(p, n)
  }

  /** A call for the root or an entry of a directory being read. */
  ghost predicate EntryCall(c: Input, evs: seq<Event>, p: Path, parentMinus: bool) {
    && p in c.fs && (p == c.scope.prefix || Led(c, evs, p)) && LastCalled(c, evs, p)
    && (Skippable(c, p) ==> (parentMinus <==> Spared(c, evs, p)))
  }

  /** A call for the first listed name left, below a negative directory. */
  ghost predicate ListedCall(c: Input, evs: seq<Event>, p: Path) {
    p in c.view && FirstLeft(c, evs, p) && (p in c.fs ==> LookedUp(c, evs, p) && !Led(c, evs, p))
  }

  /** When the walk may call transcript() for `p`: nothing before it is waiting. */
  ghost predicate MayReach(c: Input, evs: seq<Event>, p: Path, parentMinus: bool) {
    && After(evs, p) && (forall y :: Awaited(c, evs, y) ==> Le(p, y)) && PendingAbove(c, evs, p)
    && (EntryCall(c, evs, p, parentMinus) || ListedCall(c, evs, p))
  }

  /** What meeting `p` means. */
  function EventFor(c: Input, p: Path): Event
    requires p in c.fs || p in c.view
  {
    if p !in c.fs then TranOnly(p, c.view[p])
    else if p in c.view then Compared(p, c.fs[p], c.view[p])
    else FsOnly(p, c.fs[p])
  }

  /** Whether the walk reads the directory `p` (1), asks the transcripts (2), or neither. */
  function EnterFor(c: Input, p: Path): nat {
    if NegDir(c, p) then 2 else if p in c.fs && c.fs[p].kind == Dir then 1 else 0
  }

  /** What a call for `p` adds: names only the transcripts have, and then `p`. */
  predicate Met(c: Input, evs0: seq<Event>, evs1: seq<Event>, p: Path)
    requires p in c.fs || p in c.view
  {
    && |evs1| > 0 && evs1[|evs1| - 1] == EventFor(c, p)
    && OnlyTran(evs0, evs1[..|evs1| - 1], Some(p))
  }

  lemma {:induction false} VisitedStays(evs0: seq<Event>, evs1: seq<Event>, q: Path)
    requires HasVisited(evs0, q) && evs0 <= evs1
    ensures HasVisited(evs1, q)
  {
    var i :| 0 <= i < |evs0| && evs0[i].path == q && Visited(evs0[i]);
    assert evs1[i] == evs0[i];
  }

  lemma {:induction false} MeetNext(c: Input, evs: seq<Event>, stack: seq<Src>, b: nat, p: Path)
    requires NextIs(c, evs, stack, b) && After(evs, p)
    requires More(stack[b]) ==> Le(p, Head(stack[b]))
    requires p in c.fs || p in c.view
    requires p in c.fs ==> MayVisit(c, evs, p)
    ensures p in c.view <==> More(stack[b]) && Head(stack[b]) == p
    ensures p in c.view ==> c.view[p] == Current(stack[b])
    ensures p !in c.view ==> Left(c, evs, p) == None
    ensures MayMeet(c, evs, EventFor(c, p))
  {
    if p in c.view {
      assert Left(c, evs, p).Some?;
      if Head(stack[b]) != p {
        LtAsymmetric(p, Head(stack[b]));
      }
    }
    forall q | Left(c, evs, q).Some?
      ensures Le(p, q)
    {
      if p != Head(stack[b]) && Head(stack[b]) != q {
        LtTransitive(p, Head(stack[b]), q);
      }
    }
  }

  lemma {:induction false} MetBy(c: Input, evs: seq<Event>, mid: seq<Event>, p: Path)
    requires OnlyTran(evs, mid, Some(p)) && (p in c.fs || p in c.view)
    ensures Met(c, evs, mid + [EventFor(c, p)], p)
  {
    assert (mid + [EventFor(c, p)])[..|mid|] == mid;
  }

  lemma {:induction false} FsOnlyTied(c: Input, evs: seq<Event>, stack: seq<Src>, e: Event)
    requires Tied(c, evs, stack) && MayMeet(c, evs, e) && Left(c, evs, e.path) == None
    ensures Tied(c, evs + [e], stack)
  {
    LeftAfter(c, evs, e);
  }
}
