/** What a stack of transcripts means: for each path the leftmost line wins, and then
    "-" lines, excluded names and names outside the walk's root are dropped; and what
    transcript_select does to a stack. */
module Views {
  import opened Options
  import opened Paths
  import opened Entries

  /** A transcript as seen from its cursor: `at` is the current line, |lines| at the end. */
  datatype Src = Src(src: Source, lines: seq<Line>, at: nat)

  predicate More(s: Src) {
    s.at < |s.lines|
  }

  function Head(s: Src): Path
    requires More(s)
  {
    s.lines[s.at].path
  }

  function Next(s: Src): Src
    requires More(s)
  {
    s.(at := s.at + 1)
  }

  function ToEntry(src: Source, l: Line): Entry {
    Entry(src, l.minus, l.obj)
  }

  function Current(s: Src): Entry
    requires More(s)
  {
    ToEntry(s.src, s.lines[s.at])
  }

  /* ---- sorted transcripts ---- */

  /** From line `i` on, each line is strictly after the one before it. */
  predicate SortedFrom(ls: seq<Line>, i: nat)
    decreases |ls| - i
  {
    i < |ls| ==>
      && |ls[i].path| > 0
      && (i + 1 < |ls| ==> Lt(ls[i].path, ls[i + 1].path))
      && SortedFrom(ls, i + 1)
  }

  predicate Sorted(ls: seq<Line>) {
    SortedFrom(ls, 0)
  }

  lemma {:induction false} SortedAt(ls: seq<Line>, i: nat, j: nat)
    requires SortedFrom(ls, i) && i <= j < |ls|
    ensures |ls[j].path| > 0 && (j + 1 < |ls| ==> Lt(ls[j].path, ls[j + 1].path))
    ensures SortedFrom(ls, j)
    decreases j - i
  {
    if i < j {
      SortedAt(ls, i + 1, j);
    }
  }

  lemma {:induction false} SortedPairs(ls: seq<Line>, i: nat, j: nat)
    requires Sorted(ls) && i < j < |ls|
    ensures Lt(ls[i].path, ls[j].path)
    decreases j - i
  {
    SortedAt(ls, 0, i);
    if i + 1 < j {
      SortedPairs(ls, i + 1, j);
      LtTransitive(ls[i].path, ls[i + 1].path, ls[j].path);
    }
  }

  predicate AllSorted(stack: seq<Src>) {
    forall k :: 0 <= k < |stack| ==> Sorted(stack[k].lines)
  }

  /* ---- the view ---- */

  function FindFrom(src: Source, ls: seq<Line>, i: nat, p: Path): Option<Entry>
    decreases |ls| - i
  {
    if i >= |ls| then None
    else if ls[i].path == p then Some(ToEntry(src, ls[i]))
    else FindFrom(src, ls, i + 1, p)
  }

  /** The line of a transcript for a path, from its cursor on. */
  function Find(s: Src, p: Path): Option<Entry> {
    FindFrom(s.src, s.lines, s.at, p)
  }

  function ResolveFrom(stack: seq<Src>, k: nat, p: Path): Option<Entry>
    decreases |stack| - k
  {
    if k >= |stack| then None
    else if Find(stack[k], p).Some? then Find(stack[k], p)
    else ResolveFrom(stack, k + 1, p)
  }

  /** The line of highest precedence for a path; the first transcript is highest. */
  function Resolve(stack: seq<Src>, p: Path): Option<Entry> {
    ResolveFrom(stack, 0, p)
  }

  /** Which resolved lines the walk acts on. */
  datatype Scope = Scope(excluded: Path -> bool, prefix: Path)

  predicate Visible(sc: Scope, p: Path, e: Entry) {
    !e.minus && (e.src.kind == Special || !sc.excluded(p)) && Under(p, sc.prefix)
  }

  /** What the stack says about a path. */
  function View(sc: Scope, stack: seq<Src>, p: Path): Option<Entry> {
    match Resolve(stack, p)
    case None => None
    case Some(e) => if Visible(sc, p, e) then Some(e) else None
  }

  /** Transcript `k` is the first one that still lists `p`, on line `i`. */
  predicate FirstLists(stack: seq<Src>, k: nat, i: nat, p: Path) {
    && k < |stack| && stack[k].at <= i < |stack[k].lines| && stack[k].lines[i].path == p
    && (forall x :: stack[k].at <= x < i ==> stack[k].lines[x].path != p)
    && forall j, x :: 0 <= j < k && stack[j].at <= x < |stack[j].lines| ==> stack[j].lines[x].path != p
  }

  lemma {:induction false} FindsFirst(src: Source, ls: seq<Line>, at: nat, i: nat, p: Path)
    requires at <= i < |ls| && ls[i].path == p && forall x :: at <= x < i ==> ls[x].path != p
    ensures FindFrom(src, ls, at, p) == Some(Entry(src, ls[i].minus, ls[i].obj))
    decreases i - at
  {
    if at < i {
      FindsFirst(src, ls, at + 1, i, p);
    }
  }

  lemma {:induction false} FindsNone(src: Source, ls: seq<Line>, at: nat, p: Path)
    requires forall x :: at <= x < |ls| ==> ls[x].path != p
    ensures FindFrom(src, ls, at, p) == None
    decreases |ls| - at
  {
    if at < |ls| {
      FindsNone(src, ls, at + 1, p);
    }
  }

  lemma {:induction false} ResolvesTo(stack: seq<Src>, j: nat, k: nat, i: nat, p: Path)
    requires FirstLists(stack, k, i, p) && j <= k
    ensures ResolveFrom(stack, j, p) == Some(Entry(stack[k].src, stack[k].lines[i].minus, stack[k].lines[i].obj))
    decreases k - j
  {
    if j < k {
      FindsNone(stack[j].src, stack[j].lines, stack[j].at, p);
      ResolvesTo(stack, j + 1, k, i, p);
    } else {
      FindsFirst(stack[k].src, stack[k].lines, stack[k].at, i, p);
    }
  }

  /** The first line for a path decides. Without a "-" and below the prefix it is what the
      stack says, if no pattern excludes the path; and if one does, if the line is special. */
  lemma {:induction false} FirstLineDecides(sc: Scope, stack: seq<Src>, k: nat, i: nat, p: Path)
    requires FirstLists(stack, k, i, p)
    ensures var (src, l) := (stack[k].src, stack[k].lines[i]);
            && (l.minus || !Under(p, sc.prefix) ==> View(sc, stack, p) == None)
            && (src.kind != Special && sc.excluded(p) ==> View(sc, stack, p) == None)
            && (!l.minus && Under(p, sc.prefix) && src.kind == Special ==>
                  View(sc, stack, p) == Some(Entry(src, false, l.obj)))
            && (!l.minus && Under(p, sc.prefix) && !sc.excluded(p) ==>
                  View(sc, stack, p) == Some(Entry(src, false, l.obj)))
  {
    ResolvesTo(stack, 0, k, i, p);
  }

  lemma {:induction false} ResolvesNone(stack: seq<Src>, j: nat, p: Path)
    requires forall k, x :: j <= k < |stack| && stack[k].at <= x < |stack[k].lines| ==> stack[k].lines[x].path != p
    ensures ResolveFrom(stack, j, p) == None
    decreases |stack| - j
  {
    if j < |stack| {
      FindsNone(stack[j].src, stack[j].lines, stack[j].at, p);
      ResolvesNone(stack, j + 1, p);
    }
  }

  /** Of a path that no transcript lists the stack says nothing. */
  lemma {:induction false} UnlistedIsNone(sc: Scope, stack: seq<Src>, p: Path)
    requires forall k, x :: 0 <= k < |stack| && stack[k].at <= x < |stack[k].lines| ==> stack[k].lines[x].path != p
    ensures View(sc, stack, p) == None
  {
    ResolvesNone(stack, 0, p);
  }

  /** The stack after transcript `k` has moved one line ahead. */
  function Advance(stack: seq<Src>, k: nat): seq<Src>
    requires k < |stack| && More(stack[k])
  {
    stack[k := Next(stack[k])]
  }

  function LinesFrom(stack: seq<Src>, k: nat): nat
    decreases |stack| - k
  {
    if k >= |stack| then 0
    else (if More(stack[k]) then |stack[k].lines| - stack[k].at else 0) + LinesFrom(stack, k + 1)
  }

  /** Lines not yet consumed. */
  function Lines(stack: seq<Src>): nat {
    LinesFrom(stack, 0)
  }

  lemma {:induction false} AdvanceLinesFrom(stack: seq<Src>, k: nat, i: nat)
    requires k < |stack| && More(stack[k])
    ensures LinesFrom(Advance(stack, k), i) == LinesFrom(stack, i) - (if i <= k then 1 else 0)
    decreases |stack| - i
  {
    if i < |stack| {
      AdvanceLinesFrom(stack, k, i + 1);
    }
  }

  lemma {:induction false} AdvanceLines(stack: seq<Src>, k: nat)
    requires k < |stack| && More(stack[k])
    ensures Lines(Advance(stack, k)) == Lines(stack) - 1
  {
    AdvanceLinesFrom(stack, k, 0);
  }

  lemma {:induction false} FindFromLists(src: Source, ls: seq<Line>, i: nat, p: Path) returns (j: nat)
    requires FindFrom(src, ls, i, p).Some?
    ensures i <= j < |ls| && ls[j].path == p && FindFrom(src, ls, i, p) == Some(ToEntry(src, ls[j]))
    decreases |ls| - i
  {
    if ls[i].path == p {
      j := i;
    } else {
      j := FindFromLists(src, ls, i + 1, p);
    }
  }

  /** A sorted transcript lists nothing before its current line, and that line once. */
  lemma {:induction false} FoundFrom(s: Src, p: Path)
    requires Sorted(s.lines) && Find(s, p).Some?
    ensures More(s) && Le(Head(s), p)
    ensures p == Head(s) ==> Find(Next(s), p).None?
  {
    var j := FindFromLists(s.src, s.lines, s.at, p);
    if s.at < j {
      SortedPairs(s.lines, s.at, j);
    }
    if p == Head(s) && Find(Next(s), p).Some? {
      var k := FindFromLists(s.src, s.lines, s.at + 1, p);
      SortedPairs(s.lines, s.at, k);
      LtIrreflexive(p);
    }
  }

  lemma {:induction false} ResolveLeftmostFrom(stack: seq<Src>, i: nat, k: nat, p: Path)
    requires i <= k < |stack| && Find(stack[k], p).Some?
    requires forall j :: i <= j < k ==> Find(stack[j], p).None?
    ensures ResolveFrom(stack, i, p) == Find(stack[k], p)
    decreases k - i
  {
    if i < k {
      ResolveLeftmostFrom(stack, i + 1, k, p);
    }
  }

  lemma {:induction false} ResolveOwner(stack: seq<Src>, i: nat, p: Path) returns (k: nat)
    requires ResolveFrom(stack, i, p).Some?
    ensures i <= k < |stack| && Find(stack[k], p) == ResolveFrom(stack, i, p)
    ensures forall j :: i <= j < k ==> Find(stack[j], p).None?
    decreases |stack| - i
  {
    if Find(stack[i], p).Some? {
      k := i;
    } else {
      k := ResolveOwner(stack, i + 1, p);
    }
  }

  /** Moving past a line affects no other path, nor a path an earlier transcript lists. */
  lemma {:induction false} AdvanceKeepsFrom(stack: seq<Src>, i: nat, k: nat, b: nat, p: Path)
    requires k < |stack| && More(stack[k])
    requires p != Head(stack[k]) || (i <= b < k && Find(stack[b], p).Some?)
    ensures ResolveFrom(Advance(stack, k), i, p) == ResolveFrom(stack, i, p)
    decreases |stack| - i
  {
    if i < |stack| && (p != Head(stack[k]) || i < b) {
      AdvanceKeepsFrom(stack, i + 1, k, b, p);
    }
  }

  /* ---- the passes of transcript_select ---- */

  predicate AllRead(stack: seq<Src>, n: nat) {
    forall k :: 0 <= k < |stack| && k < n ==> !More(stack[k])
  }

  /** Among the first `n` transcripts, `b` is the leftmost at the least current path. */
  predicate Least(stack: seq<Src>, b: nat, n: nat)
    requires b < n <= |stack|
  {
    && More(stack[b])
    && (forall j :: 0 <= j < b && More(stack[j]) ==> Lt(Head(stack[b]), Head(stack[j])))
    && (forall j :: b < j < n && More(stack[j]) ==> Le(Head(stack[b]), Head(stack[j])))
  }

  /** The first pass from transcript `next` on, with `b` the best so far. */
  function Begin(stack: seq<Src>, b: nat, next: nat): (r: nat)
    requires b < next && b < |stack|
    ensures r < |stack|
    decreases |stack| - next
  {
    if next >= |stack| then b
    else if !More(stack[b]) then Begin(stack, next, next + 1)
    else if More(stack[next]) && Lt(Head(stack[next]), Head(stack[b])) then Begin(stack, next, next + 1)
    else Begin(stack, b, next + 1)
  }

  lemma {:induction false} LeastStep(stack: seq<Src>, b: nat, next: nat)
    requires b < next < |stack| && Least(stack, b, next) && More(stack[next])
    ensures if Lt(Head(stack[next]), Head(stack[b])) then Least(stack, next, next + 1)
            else Least(stack, b, next + 1)
  {
    var here, there := Head(stack[b]), Head(stack[next]);
    LtTotal(here, there);
    if Lt(there, here) {
      forall j | 0 <= j < next && More(stack[j])
        ensures Lt(there, Head(stack[j]))
      {
        if j != b {
          LeLtTransitive(there, here, Head(stack[j]));
        }
      }
    }
  }

  lemma {:induction false} BeginIsLeast(stack: seq<Src>, b: nat, next: nat)
    requires b < next <= |stack|
    requires if More(stack[b]) then Least(stack, b, next) else b == next - 1 && AllRead(stack, next)
    ensures var r := Begin(stack, b, next);
            if More(stack[r]) then Least(stack, r, |stack|) else r == |stack| - 1 && AllRead(stack, |stack|)
    decreases |stack| - next
  {
    if next < |stack| {
      if !More(stack[b]) {
        BeginIsLeast(stack, next, next + 1);
      } else if More(stack[next]) {
        LeastStep(stack, b, next);
        if Lt(Head(stack[next]), Head(stack[b])) {
          BeginIsLeast(stack, next, next + 1);
        } else {
          BeginIsLeast(stack, b, next + 1);
        }
      } else {
        BeginIsLeast(stack, b, next + 1);
      }
    }
  }

  /** The second pass from transcript `next` on: each one at b's path moves one line. */
  function Skip(stack: seq<Src>, b: nat, next: nat): (r: seq<Src>)
    requires b < |stack| && More(stack[b])
    ensures |r| == |stack| && (b < next ==> r[b] == stack[b]) && Lines(r) <= Lines(stack)
    decreases |stack| - next
  {
    if next >= |stack| || b >= next then stack
    else if More(stack[next]) && Head(stack[next]) == Head(stack[b]) then
      AdvanceLines(stack, next);
      Skip(Advance(stack, next), b, next + 1)
    else Skip(stack, b, next + 1)
  }

  /** Transcript `b` is the only one at its path, and that path is the least. */
  predicate Alone(stack: seq<Src>, b: nat)
    requires b < |stack|
  {
    && More(stack[b])
    && forall j :: 0 <= j < |stack| && j != b && More(stack[j]) ==> Lt(Head(stack[b]), Head(stack[j]))
  }

  lemma {:induction false} NextLater(s: Src)
    requires Sorted(s.lines) && More(s)
    ensures More(Next(s)) ==> Lt(Head(s), Head(Next(s)))
  {
    SortedAt(s.lines, 0, s.at);
  }

  /** The second pass leaves `b` alone at its path. */
  lemma {:induction false} SkipLeavesAlone(stack: seq<Src>, b: nat, next: nat)
    requires b < next <= |stack| && AllSorted(stack) && More(stack[b])
    requires forall j :: next <= j < |stack| && More(stack[j]) ==> Le(Head(stack[b]), Head(stack[j]))
    requires forall j :: 0 <= j < next && j != b && More(stack[j]) ==> Lt(Head(stack[b]), Head(stack[j]))
    ensures AllSorted(Skip(stack, b, next)) && Alone(Skip(stack, b, next), b)
    decreases |stack| - next
  {
    if next < |stack| {
      if More(stack[next]) && Head(stack[next]) == Head(stack[b]) {
        NextLater(stack[next]);
        SkipLeavesAlone(Advance(stack, next), b, next + 1);
      } else {
        SkipLeavesAlone(stack, b, next + 1);
      }
    }
  }

  /** The second pass changes no resolved line. */
  lemma {:induction false} SkipKeeps(stack: seq<Src>, b: nat, next: nat, p: Path)
    requires b < next <= |stack| && More(stack[b])
    ensures Resolve(Skip(stack, b, next), p) == Resolve(stack, p)
    decreases |stack| - next
  {
    if next < |stack| {
      if More(stack[next]) && Head(stack[next]) == Head(stack[b]) {
        AdvanceKeepsFrom(stack, 0, next, b, p);
        SkipKeeps(Advance(stack, next), b, next + 1, p);
      } else {
        SkipKeeps(stack, b, next + 1, p);
      }
    }
  }

  /** When `b` is already alone the second pass does nothing. */
  lemma {:induction false} SkipNothing(stack: seq<Src>, b: nat, next: nat)
    requires b < next <= |stack| && Alone(stack, b)
    ensures Skip(stack, b, next) == stack
    decreases |stack| - next
  {
    if next < |stack| {
      LtIrreflexive(Head(stack[b]));
      SkipNothing(stack, b, next + 1);
    }
  }

  lemma {:induction false} OthersLater(stack: seq<Src>, b: nat, j: nat)
    requires b < |stack| && AllSorted(stack) && Alone(stack, b)
    requires j < |stack| && j != b
    ensures Find(stack[j], Head(stack[b])).None?
  {
    if Find(stack[j], Head(stack[b])).Some? {
      FoundFrom(stack[j], Head(stack[b]));
      LtAsymmetric(Head(stack[b]), Head(stack[j]));
    }
  }

  /** A transcript alone at the least path holds the first resolved line. */
  lemma {:induction false} AloneIsFirst(stack: seq<Src>, b: nat, q: Path)
    requires b < |stack| && AllSorted(stack) && Alone(stack, b)
    ensures Resolve(stack, Head(stack[b])) == Some(Current(stack[b]))
    ensures Resolve(stack, q).Some? ==> Le(Head(stack[b]), q)
  {
    var p := Head(stack[b]);
    forall j | 0 <= j < |stack| && j != b
      ensures Find(stack[j], p).None?
    {
      OthersLater(stack, b, j);
    }
    ResolveLeftmostFrom(stack, 0, b, p);
    if Resolve(stack, q).Some? {
      var k := ResolveOwner(stack, 0, q);
      FoundFrom(stack[k], q);
      if k != b {
        LeLtTransitive(p, Head(stack[k]), q);
      }
    }
  }

  lemma {:induction false} ReadResolvesNothing(stack: seq<Src>, k: nat, p: Path)
    requires AllRead(stack, |stack|)
    ensures ResolveFrom(stack, k, p) == None
    decreases |stack| - k
  {
    if k < |stack| {
      ReadResolvesNothing(stack, k + 1, p);
    }
  }

  /** Consuming the line of a transcript that is alone removes just its path. */
  lemma {:induction false} ConsumeAlone(sc: Scope, stack: seq<Src>, b: nat, q: Path)
    requires b < |stack| && AllSorted(stack) && Alone(stack, b)
    ensures View(sc, Advance(stack, b), q) == if q == Head(stack[b]) then None else View(sc, stack, q)
  {
    var p, s' := Head(stack[b]), Advance(stack, b);
    if q != p {
      AdvanceKeepsFrom(stack, 0, b, b, q);
    } else if Resolve(s', p).Some? {
      var j := ResolveOwner(s', 0, p);
      if j == b {
        FoundFrom(stack[b], p);
      } else {
        OthersLater(stack, b, j);
      }
    }
  }

  /* ---- transcript_select as a whole ---- */

  predicate CurrentVisible(sc: Scope, stack: seq<Src>, b: nat)
    requires b < |stack| && More(stack[b])
  {
    Visible(sc, Head(stack[b]), Current(stack[b]))
  }

  /** One round: both passes, and past the line found unless it is one to act on.
      Gives the stack, the transcript found, and whether the search is over. */
  function RoundOf(sc: Scope, stack: seq<Src>): (r: (seq<Src>, nat, bool))
    requires |stack| > 0
    ensures |r.0| == |stack| && r.1 < |stack|
    ensures if r.2 then Lines(r.0) <= Lines(stack) else Lines(r.0) < Lines(stack)
  {
    var b := Begin(stack, 0, 1);
    if !More(stack[b]) then (stack, b, true)
    else
      var stack1 := Skip(stack, b, b + 1);
      if CurrentVisible(sc, stack1, b) then (stack1, b, true)
      else
        AdvanceLines(stack1, b);
        (Advance(stack1, b), b, false)
  }

  /** Rounds until the line found is one to act on. */
  function Select(sc: Scope, stack: seq<Src>): (r: (seq<Src>, nat))
    requires |stack| > 0
    ensures |r.0| == |stack| && r.1 < |stack| && Lines(r.0) <= Lines(stack)
    decreases Lines(stack)
  {
    var (stack', b, over) := RoundOf(sc, stack);
    if over then (stack', b) else Select(sc, stack')
  }

  /** Transcript `b` is the one to act on: it is alone at the least path and its line is
      visible; or everything has been read and `b` is the last transcript. */
  predicate Selected(sc: Scope, stack: seq<Src>, b: nat) {
    b < |stack| &&
    if More(stack[b]) then Alone(stack, b) && CurrentVisible(sc, stack, b)
    else b == |stack| - 1 && AllRead(stack, |stack|)
  }

  /** What both passes find and leave. */
  lemma {:induction false} PassesFind(stack: seq<Src>)
    requires |stack| > 0 && AllSorted(stack)
    ensures var b := Begin(stack, 0, 1);
            if More(stack[b]) then AllSorted(Skip(stack, b, b + 1)) && Alone(Skip(stack, b, b + 1), b)
            else b == |stack| - 1 && AllRead(stack, |stack|)
  {
    BeginIsLeast(stack, 0, 1);
    var b := Begin(stack, 0, 1);
    if More(stack[b]) {
      SkipLeavesAlone(stack, b, b + 1);
    }
  }

  /** For sorted transcripts transcript_select finds the first visible entry. */
  lemma {:induction false} SelectSelects(sc: Scope, stack: seq<Src>)
    requires |stack| > 0 && AllSorted(stack)
    ensures AllSorted(Select(sc, stack).0) && Selected(sc, Select(sc, stack).0, Select(sc, stack).1)
    decreases Lines(stack)
  {
    PassesFind(stack);
    var (stack', b, over) := RoundOf(sc, stack);
    if !over {
      SelectSelects(sc, stack');
    }
  }

  /** It changes nothing of what the stack says. */
  lemma {:induction false} RoundKeepsView(sc: Scope, stack: seq<Src>, p: Path)
    requires |stack| > 0 && AllSorted(stack)
    ensures View(sc, RoundOf(sc, stack).0, p) == View(sc, stack, p) && AllSorted(RoundOf(sc, stack).0)
  {
    PassesFind(stack);
    var b := Begin(stack, 0, 1);
    if More(stack[b]) {
      var stack1 := Skip(stack, b, b + 1);
      SkipKeeps(stack, b, b + 1, p);
      if !CurrentVisible(sc, stack1, b) {
        AloneIsFirst(stack1, b, p);
        ConsumeAlone(sc, stack1, b, p);
      }
    }
  }

  lemma {:induction false} SelectKeepsView(sc: Scope, stack: seq<Src>, p: Path)
    requires |stack| > 0 && AllSorted(stack)
    ensures View(sc, Select(sc, stack).0, p) == View(sc, stack, p)
    decreases Lines(stack)
  {
    RoundKeepsView(sc, stack, p);
    var (stack', _, over) := RoundOf(sc, stack);
    if !over {
      SelectKeepsView(sc, stack', p);
    }
  }

  /** A second call without consuming the entry returns it again and moves nothing. */
  lemma {:induction false} SelectIsIdempotent(sc: Scope, stack: seq<Src>, b: nat)
    requires |stack| > 0 && Selected(sc, stack, b)
    ensures Select(sc, stack) == (stack, b)
  {
    BeginIsLeast(stack, 0, 1);
    var a := Begin(stack, 0, 1);
    if a != b && More(stack[b]) && More(stack[a]) {
      LtAsymmetric(Head(stack[b]), Head(stack[a]));
    }
    if More(stack[b]) {
      SkipNothing(stack, b, b + 1);
    }
  }

  /** The entry found is the first of those the stack still says; none is left at the end. */
  lemma {:induction false} SelectedIsFirst(sc: Scope, stack: seq<Src>, b: nat, q: Path)
    requires AllSorted(stack) && Selected(sc, stack, b)
    ensures !More(stack[b]) ==> View(sc, stack, q) == None
    ensures More(stack[b]) ==>
              && View(sc, stack, Head(stack[b])) == Some(Current(stack[b]))
              && (View(sc, stack, q).Some? ==> Le(Head(stack[b]), q))
  {
    if More(stack[b]) {
      AloneIsFirst(stack, b, q);
    } else {
      ReadResolvesNothing(stack, 0, q);
    }
  }

  /** What one selection and its consumption do to what the stack says about `p`. */
  lemma {:induction false} SelectThenConsume(sc: Scope, stack: seq<Src>, p: Path)
    requires |stack| > 0 && AllSorted(stack)
    ensures var (stack', b) := Select(sc, stack);
            && AllSorted(stack') && View(sc, stack', p) == View(sc, stack, p)
            && if More(stack'[b]) then
                 var h := Head(stack'[b]);
                 && View(sc, stack, h) == Some(Current(stack'[b]))
                 && (View(sc, stack, p).Some? ==> Le(h, p))
                 && View(sc, Advance(stack', b), p) == if p == h then None else View(sc, stack, p)
               else View(sc, stack, p).None?
  {
    var (stack', b) := Select(sc, stack);
    SelectSelects(sc, stack);
    SelectKeepsView(sc, stack, p);
    SelectedIsFirst(sc, stack', b, p);
    if More(stack'[b]) {
      SelectKeepsView(sc, stack, Head(stack'[b]));
      ConsumeAlone(sc, stack', b, p);
    }
  }

  /* ---- the view as a finite map ---- */

  function ListedPaths(stack: seq<Src>): set<Path> {
    set k, i | 0 <= k < |stack| && 0 <= i < |stack[k].lines| :: stack[k].lines[i].path
  }

  lemma {:induction false} ViewIsListed(sc: Scope, stack: seq<Src>, p: Path)
    requires View(sc, stack, p).Some?
    ensures p in ListedPaths(stack)
  {
    var k := ResolveOwner(stack, 0, p);
    var i := FindFromLists(stack[k].src, stack[k].lines, stack[k].at, p);
    assert stack[k].lines[i].path in ListedPaths(stack);
  }

  function ViewMap(sc: Scope, stack: seq<Src>): (m: map<Path, Entry>)
    ensures forall p :: View(sc, stack, p) == if p in m then Some(m[p]) else None
  {
    assert forall p :: View(sc, stack, p).Some? ==> p in ListedPaths(stack) by {
      forall p | View(sc, stack, p).Some?
        ensures p in ListedPaths(stack)
      {
        ViewIsListed(sc, stack, p);
      }
    }
    map p | p in ListedPaths(stack) && View(sc, stack, p).Some? :: View(sc, stack, p).value
  }

  /* ---- a whole run over the stack ---- */

  /** Select and consume until everything has been read. */
  function Enumerate(sc: Scope, stack: seq<Src>): seq<(Path, Entry)>
    requires |stack| > 0
    decreases Lines(stack)
  {
    var (stack', b) := Select(sc, stack);
    if !More(stack'[b]) then []
    else
      AdvanceLines(stack', b);
      [(Head(stack'[b]), Current(stack'[b]))] + Enumerate(sc, Advance(stack', b))
  }

  /** `es` lists exactly what the stack says, once each and in path order. */
  ghost predicate ListsView(sc: Scope, stack: seq<Src>, es: seq<(Path, Entry)>) {
    && (forall i, j :: 0 <= i < j < |es| ==> Lt(es[i].0, es[j].0))
    && (forall i :: 0 <= i < |es| ==> View(sc, stack, es[i].0) == Some(es[i].1))
    && (forall p :: View(sc, stack, p).Some? ==> exists i :: 0 <= i < |es| && es[i].0 == p)
  }

  lemma {:induction false} ListsViewCons(sc: Scope, stack: seq<Src>, later: seq<Src>, h: Path, e: Entry,
                                         es: seq<(Path, Entry)>)
    requires ListsView(sc, later, es)
    requires View(sc, stack, h) == Some(e)
    requires forall p :: View(sc, later, p) == if p == h then None else View(sc, stack, p)
    requires forall p :: View(sc, stack, p).Some? ==> Le(h, p)
    ensures ListsView(sc, stack, [(h, e)] + es)
  {
    var all := [(h, e)] + es;
    assert forall i :: 0 < i < |all| ==> all[i] == es[i - 1];
    forall i | 0 <= i < |es|
      ensures View(sc, stack, es[i].0) == Some(es[i].1) && Lt(h, es[i].0)
    {
      assert View(sc, later, es[i].0) == Some(es[i].1);
    }
    forall p | View(sc, stack, p).Some?
      ensures exists i :: 0 <= i < |all| && all[i].0 == p
    {
      if p == h {
        assert all[0].0 == p;
      } else {
        assert View(sc, later, p).Some?;
        var i :| 0 <= i < |es| && es[i].0 == p;
        assert all[i + 1].0 == p;
      }
    }
  }

  /** Selecting and consuming to the end enumerates exactly what the stack says. */
  lemma {:induction false} EnumerateIsView(sc: Scope, stack: seq<Src>)
    requires |stack| > 0 && AllSorted(stack)
    ensures ListsView(sc, stack, Enumerate(sc, stack))
    decreases Lines(stack)
  {
    var (stack', b) := Select(sc, stack);
    forall p {
      SelectThenConsume(sc, stack, p);
    }
    SelectThenConsume(sc, stack, []);
    if More(stack'[b]) {
      AdvanceLines(stack', b);
      var later := Advance(stack', b);
      EnumerateIsView(sc, later);
      ListsViewCons(sc, stack, later, Head(stack'[b]), Current(stack'[b]), Enumerate(sc, later));
    }
  }
}
