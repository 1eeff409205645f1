/** Which "-" lines lmerge keeps. A line passed over because a better transcript has its path
    counts as a match in whatever round that happens, whose line may be for another path. */
module MergeMinus {
  import opened Options
  import opened Paths
  import opened Entries
  import opened Views
  import opened Lmerges

  /* ---- what the transcripts list ---- */

  predicate Lists(s: Src, p: Path) {
    Find(s, p).Some?
  }

  /** One of the first `n` transcripts lists `p`. */
  predicate ListedBy(stack: seq<Src>, n: nat, p: Path) {
    exists k :: 0 <= k < n && k < |stack| && Lists(stack[k], p)
  }

  /** The first `n` transcripts list nothing from `a` up to `b`. */
  ghost predicate NoneFrom(stack: seq<Src>, n: nat, a: Path, b: Path) {
    forall z {:trigger ListedBy(stack, n, z)} :: ListedBy(stack, n, z) && Lt(z, b) ==> Lt(z, a)
  }

  /** In the round of `p`, if not before, transcript `k` is moved past its line for `q`: one
      before it lists `q` too, and neither it nor any before it has something to come first. */
  ghost predicate PassedBy(stack: seq<Src>, p: Path, k: nat, q: Path) {
    && k < |stack| && Le(p, q) && Lists(stack[k], q) && ListedBy(stack, k, q)
    && NoneFrom(stack, k + 1, p, q)
  }

  /** That happens in the round of `p` and not before: `p` is the first path listed anywhere
      at which it can. */
  ghost predicate PassedAt(stack: seq<Src>, p: Path, k: nat, q: Path) {
    PassedBy(stack, p, k, q) &&
    forall y :: ListedBy(stack, |stack|, y) && Lt(y, p) ==> !PassedBy(stack, y, k, q)
  }

  /** Some line is passed over in the round of `p`. */
  ghost predicate Drops(stack: seq<Src>, p: Path) {
    exists k: nat, q :: PassedAt(stack, p, k, q)
  }

  lemma {:induction false} FirstLister(stack: seq<Src>, n: nat, p: Path) returns (k: nat)
    requires ListedBy(stack, n, p)
    ensures k < n && k < |stack| && Lists(stack[k], p) && !ListedBy(stack, k, p)
  {
    k :| 0 <= k < n && k < |stack| && Lists(stack[k], p);
    if ListedBy(stack, k, p) {
      k := FirstLister(stack, k, p);
    }
  }

  /** What is passed over stays so in later rounds. */
  lemma {:induction false} StaysPassed(stack: seq<Src>, d: Path, p: Path, k: nat, q: Path)
    requires PassedBy(stack, d, k, q) && Le(d, p) && Le(p, q)
    ensures PassedBy(stack, p, k, q)
  {
    forall z | ListedBy(stack, k + 1, z) && Lt(z, q)
      ensures Lt(z, p)
    {
      if d != p {
        LtTransitive(z, d, p);
      }
    }
  }

  /* ---- the cursors between rounds ---- */

  /** The rounds are done up to `d`. */
  predicate Undone(d: Option<Path>, p: Path) {
    d.Some? ==> Lt(d.value, p)
  }

  ghost predicate Passed(stack: seq<Src>, d: Option<Path>, k: nat, q: Path) {
    d.Some? && PassedBy(stack, d.value, k, q)
  }

  /** What transcript `k` still has for `q`, the rounds up to `d` being done and the lines
      passed over by the round of `b`. */
  ghost function Remaining(stack: seq<Src>, d: Option<Path>, b: Option<Path>, k: nat, q: Path): Option<Entry>
    requires k < |stack|
  {
    if Undone(d, q) && !Passed(stack, b, k, q) then Find(stack[k], q) else None
  }

  ghost predicate RemainsAt(stack: seq<Src>, cur: seq<Src>, d: Option<Path>, b: Option<Path>, k: nat, q: Path)
    requires k < |stack| == |cur|
  {
    Find(cur[k], q) == Remaining(stack, d, b, k, q)
  }

  /** `cur` is `stack` after the rounds up to `d`, and the scan of the next round over the
      first `j` transcripts, by which lines were passed over as by the round of `p`. */
  ghost predicate Scanned(stack: seq<Src>, cur: seq<Src>, d: Option<Path>, p: Path, j: nat) {
    && |cur| == |stack| && AllSorted(cur)
    && (forall k, q {:trigger RemainsAt(stack, cur, d, Some(p), k, q)} ::
          0 <= k < j && k < |stack| ==> RemainsAt(stack, cur, d, Some(p), k, q))
    && (forall k, q {:trigger RemainsAt(stack, cur, d, d, k, q)} ::
          j <= k < |stack| ==> RemainsAt(stack, cur, d, d, k, q))
  }

  /** `cur` is `stack` after the rounds up to `d`. */
  ghost predicate Rounds(stack: seq<Src>, cur: seq<Src>, d: Option<Path>) {
    && |cur| == |stack| && AllSorted(cur)
    && (forall k, q {:trigger RemainsAt(stack, cur, d, d, k, q)} ::
          0 <= k < |stack| ==> RemainsAt(stack, cur, d, d, k, q))
  }

  /** `p` is the next path: the least one listed that is not done. */
  ghost predicate Coming(stack: seq<Src>, d: Option<Path>, p: Path) {
    && Undone(d, p) && ListedBy(stack, |stack|, p)
    && forall q :: ListedBy(stack, |stack|, q) && Undone(d, q) ==> Le(p, q)
  }

  /** The first transcript to list an undone path still has it. */
  lemma {:induction false} FirstHasIt(stack: seq<Src>, cur: seq<Src>, d: Option<Path>, p: Path, j: nat, k: nat, q: Path)
    requires Scanned(stack, cur, d, p, j) && Undone(d, q)
    requires k < |stack| && Lists(stack[k], q) && !ListedBy(stack, k, q)
    ensures Lists(cur[k], q) && More(cur[k]) && Le(Head(cur[k]), q)
  {
    assert if k < j then RemainsAt(stack, cur, d, Some(p), k, q) else RemainsAt(stack, cur, d, d, k, q);
    FoundFrom(cur[k], q);
  }

  /** A current line is listed, is not done, and so does not come before the next path. */
  lemma {:induction false} HeadIsComing(stack: seq<Src>, cur: seq<Src>, d: Option<Path>, p: Path, j: nat, k: nat)
    requires Scanned(stack, cur, d, p, j) && Coming(stack, d, p) && k < |stack| && More(cur[k])
    ensures var h := Head(cur[k]);
            Lists(cur[k], h) && Lists(stack[k], h) && Undone(d, h) && Le(p, h)
    ensures k >= j ==> !Passed(stack, d, k, Head(cur[k]))
  {
    var h := Head(cur[k]);
    FindNext(cur[k], h);
    assert if k < j then RemainsAt(stack, cur, d, Some(p), k, h) else RemainsAt(stack, cur, d, d, k, h);
    assert ListedBy(stack, |stack|, h);
  }

  /** The line for `q` is passed over in this round, and was not before. */
  ghost predicate NewlyPassed(stack: seq<Src>, d: Option<Path>, p: Path, k: nat, q: Path) {
    PassedBy(stack, p, k, q) && !Passed(stack, d, k, q)
  }

  /** The scan has come to transcript `j` with candidate `c`. */
  ghost predicate AtTurn(stack: seq<Src>, cur: seq<Src>, d: Option<Path>, p: Path, c: nat, j: nat) {
    && Scanned(stack, cur, d, p, j) && Coming(stack, d, p)
    && c < j <= |stack| && More(cur[c]) && Leading(cur, c, j)
  }

  /** What is newly passed over is the current line of the transcript and of the candidate. */
  lemma {:induction false} NewIsHead(stack: seq<Src>, cur: seq<Src>, d: Option<Path>, p: Path, c: nat, j: nat, q: Path)
    requires AtTurn(stack, cur, d, p, c, j) && j < |stack| && NewlyPassed(stack, d, p, j, q)
    ensures More(cur[j]) && Head(cur[j]) == q == Head(cur[c])
  {
    if d.Some? && p != q {
      LtTransitive(d.value, p, q);
    }
    assert RemainsAt(stack, cur, d, d, j, q);
    FoundFrom(cur[j], q);
    HeadIsComing(stack, cur, d, p, j, j);
    NothingFirst(stack, p, j, q, j, Head(cur[j]));
    var k := FirstLister(stack, j, q);
    FirstHasIt(stack, cur, d, p, j, k, q);
    HeadIsComing(stack, cur, d, p, j, c);
    if Lt(Head(cur[c]), Head(cur[k])) && Head(cur[k]) != q {
      LtTransitive(Head(cur[c]), Head(cur[k]), q);
    }
    NothingFirst(stack, p, j, q, c, Head(cur[c]));
  }

  lemma {:induction false} NothingFirst(stack: seq<Src>, p: Path, j: nat, q: Path, k: nat, h: Path)
    requires PassedBy(stack, p, j, q) && k <= j && Lists(stack[k], h) && Le(p, h) && Le(h, q)
    ensures h == q
  {
    if h != q {
      assert ListedBy(stack, j + 1, h);
      if p == h { LtIrreflexive(p); } else { LtAsymmetric(p, h); }
    }
  }

  /** A transcript whose current line is the candidate's path is newly passed over there. */
  lemma {:induction false} HeadIsNew(stack: seq<Src>, cur: seq<Src>, d: Option<Path>, p: Path, c: nat, j: nat)
    requires AtTurn(stack, cur, d, p, c, j) && j < |stack| && More(cur[j]) && Head(cur[j]) == Head(cur[c])
    ensures NewlyPassed(stack, d, p, j, Head(cur[j]))
  {
    var q := Head(cur[j]);
    HeadIsComing(stack, cur, d, p, j, j);
    HeadIsComing(stack, cur, d, p, j, c);
    assert ListedBy(stack, j, q);
    forall z | ListedBy(stack, j + 1, z) && Lt(z, q)
      ensures Lt(z, p)
    {
      LtTotal(z, p);
      if Le(p, z) {
        if d.Some? && p != z {
          LtTransitive(d.value, p, z);
        }
        var k := FirstLister(stack, j + 1, z);
        FirstHasIt(stack, cur, d, p, j, k, z);
        LeLtTransitive(Head(cur[k]), z, q);
        LtAsymmetric(Head(cur[k]), q);
      }
    }
  }

  ghost predicate SomePassed(stack: seq<Src>, d: Option<Path>, p: Path, n: nat) {
    exists k: nat, q :: k < n && NewlyPassed(stack, d, p, k, q)
  }

  /** The scan reaches the next transcript with nothing new passed over at this one. */
  lemma {:induction false} NothingPassed(stack: seq<Src>, cur: seq<Src>, d: Option<Path>, p: Path, c: nat, j: nat)
    requires AtTurn(stack, cur, d, p, c, j) && j < |stack|
    requires More(cur[j]) ==> Head(cur[j]) != Head(cur[c])
    ensures Scanned(stack, cur, d, p, j + 1) && SomePassed(stack, d, p, j + 1) == SomePassed(stack, d, p, j)
  {
    forall q
      ensures !NewlyPassed(stack, d, p, j, q) && RemainsAt(stack, cur, d, Some(p), j, q)
    {
      if NewlyPassed(stack, d, p, j, q) {
        NewIsHead(stack, cur, d, p, c, j, q);
      }
      assert RemainsAt(stack, cur, d, d, j, q);
      StillRemains(stack, d, p, j, q);
    }
    if SomePassed(stack, d, p, j + 1) {
      var k: nat, q :| k < j + 1 && NewlyPassed(stack, d, p, k, q);
      assert k < j;
    }
  }

  /** Nothing remains differently but what is newly passed over. */
  lemma {:induction false} StillRemains(stack: seq<Src>, d: Option<Path>, p: Path, k: nat, q: Path)
    requires Coming(stack, d, p) && k < |stack|
    ensures Remaining(stack, d, Some(p), k, q) ==
            if NewlyPassed(stack, d, p, k, q) then None else Remaining(stack, d, d, k, q)
  {
    if Lists(stack[k], q) && Undone(d, q) && Passed(stack, d, k, q) {
      assert ListedBy(stack, |stack|, q);
      StaysPassed(stack, d.value, p, k, q);
    }
  }

  lemma {:induction false} OnePassed(stack: seq<Src>, cur: seq<Src>, d: Option<Path>, p: Path, c: nat, j: nat)
    requires AtTurn(stack, cur, d, p, c, j) && j < |stack| && More(cur[j]) && Head(cur[j]) == Head(cur[c])
    ensures Scanned(stack, Advance(cur, j), d, p, j + 1) && SomePassed(stack, d, p, j + 1)
  {
    var next := Advance(cur, j);
    HeadIsNew(stack, cur, d, p, c, j);
    forall q
      ensures RemainsAt(stack, next, d, Some(p), j, q)
    {
      if NewlyPassed(stack, d, p, j, q) {
        NewIsHead(stack, cur, d, p, c, j, q);
      }
      assert RemainsAt(stack, cur, d, d, j, q);
      FindNext(cur[j], q);
      StillRemains(stack, d, p, j, q);
    }
    forall k, q | 0 <= k < |stack| && k != j
      ensures if k < j then RemainsAt(stack, next, d, Some(p), k, q) else RemainsAt(stack, next, d, d, k, q)
    {
      assert if k < j then RemainsAt(stack, cur, d, Some(p), k, q) else RemainsAt(stack, cur, d, d, k, q);
    }
  }

  lemma {:induction false} LeadingNext(cur: seq<Src>, c: nat, j: nat)
    requires c < j < |cur| && More(cur[c]) && Leading(cur, c, j) && AllSorted(cur)
    ensures !More(cur[j]) ==> Leading(cur, c, j + 1)
    ensures More(cur[j]) && Head(cur[j]) == Head(cur[c]) ==> Leading(Advance(cur, j), c, j + 1)
    ensures More(cur[j]) && Lt(Head(cur[j]), Head(cur[c])) ==> Leading(cur, j, j + 1)
    ensures More(cur[j]) && Head(cur[j]) != Head(cur[c]) && !Lt(Head(cur[j]), Head(cur[c])) ==> Leading(cur, c, j + 1)
  {
    if More(cur[j]) {
      LtTotal(Head(cur[c]), Head(cur[j]));
      NextLater(cur[j]);
      if Lt(Head(cur[j]), Head(cur[c])) {
        forall k | 0 <= k < j && More(cur[k])
          ensures Lt(Head(cur[j]), Head(cur[k]))
        {
          if k != c {
            LtTransitive(Head(cur[j]), Head(cur[c]), Head(cur[k]));
          }
        }
      }
    }
  }

  /** One turn of the scan. */
  lemma {:induction false} ScanTurn(stack: seq<Src>, cur: seq<Src>, d: Option<Path>, p: Path, c: nat, matched: bool,
                                    j: nat)
    returns (cur': seq<Src>, c': nat, matched': bool)
    requires AtTurn(stack, cur, d, p, c, j) && j < |stack| && matched == SomePassed(stack, d, p, j)
    ensures AtTurn(stack, cur', d, p, c', j + 1) && matched' == SomePassed(stack, d, p, j + 1)
    ensures Scan(cur, c, matched, j) == Scan(cur', c', matched', j + 1)
  {
    LeadingNext(cur, c, j);
    cur', c', matched' := cur, c, matched;
    if More(cur[j]) && Head(cur[c]) == Head(cur[j]) {
      OnePassed(stack, cur, d, p, c, j);
      cur', matched' := Advance(cur, j), true;
    } else {
      NothingPassed(stack, cur, d, p, c, j);
      if More(cur[j]) && Lt(Head(cur[j]), Head(cur[c])) {
        c' := j;
      }
    }
  }

  /** The scan of the round of `p`: a match is counted exactly when something is passed over. */
  lemma {:induction false} ScanMatches(stack: seq<Src>, cur: seq<Src>, d: Option<Path>, p: Path, c: nat, matched: bool,
                                       j: nat)
    requires AtTurn(stack, cur, d, p, c, j) && matched == SomePassed(stack, d, p, j)
    ensures var (cur', _, matched') := Scan(cur, c, matched, j);
            Scanned(stack, cur', d, p, |stack|) && matched' == SomePassed(stack, d, p, |stack|)
    decreases |stack| - j
  {
    if j < |stack| {
      var next, c', matched' := ScanTurn(stack, cur, d, p, c, matched, j);
      ScanMatches(stack, next, d, p, c', matched', j + 1);
    }
  }

  /** The scan starts at the first transcript that is not at its end. */
  lemma {:induction false} ScanStarts(stack: seq<Src>, cur: seq<Src>, d: Option<Path>, p: Path, i: nat)
    requires Rounds(stack, cur, d) && Coming(stack, d, p)
    requires i < |stack| && More(cur[i]) && ReadBefore(cur, i)
    ensures AtTurn(stack, cur, d, p, i, i + 1) && !SomePassed(stack, d, p, i + 1)
  {
    assert Scanned(stack, cur, d, p, 0);
    forall k, q | 0 <= k <= i
      ensures !NewlyPassed(stack, d, p, k, q) && RemainsAt(stack, cur, d, Some(p), k, q)
    {
      assert RemainsAt(stack, cur, d, d, k, q);
      StillRemains(stack, d, p, k, q);
      if NewlyPassed(stack, d, p, k, q) {
        if d.Some? && p != q {
          LtTransitive(d.value, p, q);
        }
        var f := FirstLister(stack, k, q);
        FirstHasIt(stack, cur, d, p, 0, f, q);
      }
    }
  }

  /* ---- the rounds ---- */

  lemma {:induction false} SomeLister(stack: seq<Src>, i: nat, p: Path)
    ensures ResolveFrom(stack, i, p).Some? <==> exists k :: i <= k < |stack| && Lists(stack[k], p)
    decreases |stack| - i
  {
    if i < |stack| {
      SomeLister(stack, i + 1, p);
    }
  }

  /** What is not done resolves as ever. */
  lemma {:induction false} StillResolves(stack: seq<Src>, cur: seq<Src>, d: Option<Path>, p: Path)
    requires Rounds(stack, cur, d) && Undone(d, p)
    ensures Resolve(cur, p) == Resolve(stack, p)
  {
    SomeLister(stack, 0, p);
    SomeLister(cur, 0, p);
    forall k | 0 <= k < |stack|
      ensures Lists(cur[k], p) ==> Lists(stack[k], p)
    {
      assert RemainsAt(stack, cur, d, d, k, p);
    }
    if Resolve(stack, p).Some? {
      var k := ResolveOwner(stack, 0, p);
      assert RemainsAt(stack, cur, d, d, k, p);
      ResolveLeftmostFrom(cur, 0, k, p);
    }
  }

  /** The line written next is for the next path. */
  lemma {:induction false} NextRound(stack: seq<Src>, cur: seq<Src>, d: Option<Path>, i: nat) returns (h: Path)
    requires Rounds(stack, cur, d) && i < |stack| && More(cur[i]) && ReadBefore(cur, i)
    ensures var (cur', c, _) := Scan(cur, i, false, i + 1);
            h == Head(cur'[c]) && Resolve(stack, h) == Some(Current(cur'[c])) && Coming(stack, d, h)
  {
    var (cur', c, _) := Scan(cur, i, false, i + 1);
    h := Head(cur'[c]);
    RoundResolves(cur, i, h);
    SomeLister(cur, 0, h);
    var k :| 0 <= k < |cur| && Lists(cur[k], h);
    assert RemainsAt(stack, cur, d, d, k, h);
    StillResolves(stack, cur, d, h);
    forall q | ListedBy(stack, |stack|, q) && Undone(d, q)
      ensures Le(h, q)
    {
      SomeLister(stack, 0, q);
      StillResolves(stack, cur, d, q);
      RoundResolves(cur, i, q);
    }
  }

  lemma {:induction false} RoundDone(stack: seq<Src>, cur: seq<Src>, d: Option<Path>, h: Path, c: nat)
    requires Scanned(stack, cur, d, h, |stack|) && Coming(stack, d, h)
    requires c < |stack| && Alone(cur, c) && Head(cur[c]) == h
    ensures Rounds(stack, Advance(cur, c), Some(h))
  {
    var later := Advance(cur, c);
    forall k, q | 0 <= k < |stack|
      ensures RemainsAt(stack, later, Some(h), Some(h), k, q)
    {
      assert RemainsAt(stack, cur, d, Some(h), k, q);
      LtIrreflexive(h);
      if k == c {
        FindNext(cur[k], q);
      } else if q == h {
        FindNothing(cur[k], h);
      }
      if Undone(d, q) && Lists(stack[k], q) {
        assert ListedBy(stack, |stack|, q);
      } else if Lt(h, q) && d.Some? {
        LtTransitive(d.value, h, q);
      }
    }
  }

  /** Matches are those the transcripts as they were show. */
  lemma {:induction false} MatchedIsDrops(stack: seq<Src>, d: Option<Path>, p: Path)
    requires Coming(stack, d, p) && (d.Some? ==> ListedBy(stack, |stack|, d.value))
    ensures SomePassed(stack, d, p, |stack|) <==> Drops(stack, p)
  {
    forall k: nat, q
      ensures NewlyPassed(stack, d, p, k, q) <==> PassedAt(stack, p, k, q)
    {
      if NewlyPassed(stack, d, p, k, q) {
        forall y | ListedBy(stack, |stack|, y) && Lt(y, p)
          ensures !PassedBy(stack, y, k, q)
        {
          EarlierIsDone(stack, d, p, y);
          if PassedBy(stack, y, k, q) {
            LtLeTransitive(d.value, p, q);
            StaysPassed(stack, y, d.value, k, q);
          }
        }
      }
    }
    if SomePassed(stack, d, p, |stack|) {
      var k: nat, q :| k < |stack| && NewlyPassed(stack, d, p, k, q);
      assert PassedAt(stack, p, k, q);
    }
    if Drops(stack, p) {
      var k: nat, q :| PassedAt(stack, p, k, q);
      assert NewlyPassed(stack, d, p, k, q);
    }
  }

  lemma {:induction false} LtLeTransitive(a: Path, b: Path, c: Path)
    requires Lt(a, b) && Le(b, c)
    ensures Lt(a, c)
  {
    if b != c {
      LtTransitive(a, b, c);
    }
  }

  lemma {:induction false} EarlierIsDone(stack: seq<Src>, d: Option<Path>, p: Path, y: Path)
    requires Coming(stack, d, p) && ListedBy(stack, |stack|, y) && Lt(y, p)
    ensures d.Some? && Le(y, d.value)
  {
    LtAsymmetric(y, p);
    LtIrreflexive(p);
    assert !Undone(d, y);
    LtTotal(y, d.value);
  }

  /** What lmerge writes for a path: the line of the first transcript that lists it, unless
      that is a "-" line and some line is passed over in its round. */
  ghost function MergedLine(stack: seq<Src>, p: Path): Option<Line> {
    match Resolve(stack, p)
    case None => None
    case Some(e) => if e.minus && Drops(stack, p) then None else Some(Line(e.minus, p, e.obj))
  }

  lemma {:induction false} MergedFrom(stack: seq<Src>, cur: seq<Src>, d: Option<Path>, i: nat, p: Path)
    requires Rounds(stack, cur, d) && ReadBefore(cur, i) && Undone(d, p)
    requires d.Some? ==> ListedBy(stack, |stack|, d.value)
    ensures LineAt(Merged(cur, i), p) == MergedLine(stack, p)
    decreases Lines(cur), |cur| - i
  {
    if i >= |cur| {
      ReadResolvesNothing(cur, 0, p);
      StillResolves(stack, cur, d, p);
    } else if !More(cur[i]) {
      MergedFrom(stack, cur, d, i + 1, p);
    } else {
      var h := NextRound(stack, cur, d, i);
      ScanStarts(stack, cur, d, h, i);
      ScanMatches(stack, cur, d, h, i, false, i + 1);
      ScanFinds(cur, i, false, i + 1, i, h);
      MatchedIsDrops(stack, d, h);
      var (cur', c, matched) := Scan(cur, i, false, i + 1);
      AdvanceLines(cur', c);
      var later := Advance(cur', c);
      WrittenFirst(cur'[c].lines[cur'[c].at], matched, Merged(later, i), p);
      RoundDone(stack, cur', d, h, c);
      RoundResolves(cur, i, p);
      if p == h {
        MergedKeeps(later, i, p);
      } else if Undone(Some(h), p) {
        MergedFrom(stack, later, Some(h), i, p);
      } else {
        MergedKeeps(later, i, p);
        StillResolves(stack, cur, d, p);
      }
    }
  }

  /** Exactly which lines come out, for any number of transcripts. */
  lemma {:induction false} MergedExactly(stack: seq<Src>, p: Path)
    requires AllSorted(stack)
    ensures LineAt(Merged(stack, 0), p) == MergedLine(stack, p)
  {
    forall k, q | 0 <= k < |stack|
      ensures RemainsAt(stack, stack, None, None, k, q)
    {
    }
    MergedFrom(stack, stack, None, 0, p);
  }

  /** When no path is listed twice no line is lost. */
  lemma {:induction false} NoneListedTwice(stack: seq<Src>, p: Path)
    requires AllSorted(stack)
    requires forall k, q :: 0 <= k < |stack| && Lists(stack[k], q) ==> !ListedBy(stack, k, q)
    ensures LineAt(Merged(stack, 0), p) ==
            match Resolve(stack, p) case None => None case Some(e) => Some(Line(e.minus, p, e.obj))
  {
    MergedExactly(stack, p);
  }

  /** Of two transcripts a "-" line survives exactly when the other does not list its path. */
  lemma {:induction false} TwoKeepMinusIffUnmatched(stack: seq<Src>, p: Path)
    requires |stack| == 2 && AllSorted(stack)
    ensures var a, b := Find(stack[0], p), Find(stack[1], p);
            var l := LineAt(Merged(stack, 0), p);
            l.Some? && l.value.minus <==>
            (a.Some? && a.value.minus && b == None) || (b.Some? && b.value.minus && a == None)
  {
    MergedExactly(stack, p);
    assert ResolveFrom(stack, 2, p) == None;
    assert ResolveFrom(stack, 1, p) == Find(stack[1], p);
    if Resolve(stack, p).Some? {
      TwoDropMatched(stack, p);
    }
  }

  lemma {:induction false} TwoDropMatched(stack: seq<Src>, p: Path)
    requires |stack| == 2 && ListedBy(stack, 2, p)
    ensures Drops(stack, p) <==> Lists(stack[0], p) && Lists(stack[1], p)
  {
    if Drops(stack, p) {
      var k: nat, q :| PassedAt(stack, p, k, q);
      var f := FirstLister(stack, 2, p);
      if p != q {
        assert k == 1;
        LtIrreflexive(p);
      }
    }
    if Lists(stack[0], p) && Lists(stack[1], p) {
      assert ListedBy(stack, 1, p);
      forall y | ListedBy(stack, 2, y) && Lt(y, p)
        ensures !PassedBy(stack, y, 1, p)
      {
        LtIrreflexive(y);
      }
      assert PassedAt(stack, p, 1, p);
    }
  }

  /* ---- three transcripts ---- */

  const A: Path := [SEP, 'a']
  const B: Path := [SEP, 'b']

  /** "- /b" over "d /b" over "- /a". */
  function Three(): seq<Src> {
    var t := n => Source(n, Positive, "");
    [Src(t(0), [Line(true, B, ABSENT)], 0), Src(t(1), [Line(false, B, ABSENT.(kind := Dir))], 0),
     Src(t(2), [Line(true, A, ABSENT)], 0)]
  }

  lemma {:induction false} ThreeAre()
    ensures AllSorted(Three())
    ensures Find(Three()[0], A) == None && Find(Three()[1], A) == None && Find(Three()[2], A).Some?
    ensures Find(Three()[1], B).Some?
  {
    assert A[1] != B[1];
    forall k | 0 <= k < 3
      ensures Sorted(Three()[k].lines)
    {
      assert SortedFrom(Three()[k].lines, 1);
    }
    FindsOne(Three()[0], A);
    FindsOne(Three()[1], A);
    FindsOne(Three()[2], A);
    FindsOne(Three()[1], B);
  }

  lemma {:induction false} FindsOne(s: Src, p: Path)
    requires |s.lines| == 1 && s.at == 0
    ensures Find(s, p).Some? <==> s.lines[0].path == p
  {
    assert FindFrom(s.src, s.lines, 1, p) == None;
  }

  /** A match found for one candidate still counts when another takes its place: of three
      transcripts the unmatched "- /a" is lost and the matched "- /b" is kept. */
  lemma {:induction false} StaleMatch()
    ensures AllSorted(Three()) && Merged(Three(), 0) == [Line(true, B, ABSENT)]
    ensures Find(Three()[0], A) == None && Find(Three()[1], A) == None && Find(Three()[2], A).Some?
    ensures Find(Three()[1], B).Some?
  {
    ThreeAre();
    var s := Three();
    assert LtFrom(A, B, 1);
    LtAsymmetric(A, B);
    var s1 := Advance(s, 1);
    assert Scan(s, 0, false, 1) == (s1, 2, true) by {
      assert Scan(s1, 0, true, 2) == Scan(s1, 2, true, 3);
    }
    var s2 := Advance(s1, 2);
    assert Scan(s2, 0, false, 1) == (s2, 0, false) by {
      assert Scan(s2, 0, false, 2) == Scan(s2, 0, false, 3);
    }
    var s3 := Advance(s2, 0);
    assert Merged(s3, 0) == [] by {
      assert Merged(s3, 1) == Merged(s3, 2) == Merged(s3, 3);
    }
    assert Merged(s2, 0) == [Line(true, B, ABSENT)] + Merged(s3, 0);
  }
}
