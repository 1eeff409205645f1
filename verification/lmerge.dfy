/** lmerge.c: the other merge of a stack of transcripts, into one transcript. */
module Lmerges {
  import opened Options
  import opened Paths
  import opened Entries
  import opened Views

  /* ---- what the loops of main() compute ---- */

  /** The loop over the transcripts after the candidate: those at its path move ahead, and
      one at a lesser path becomes the candidate. `match` is never taken back. */
  function Scan(stack: seq<Src>, candidate: nat, matched: bool, j: nat): (r: (seq<Src>, nat, bool))
    requires candidate < |stack| && candidate < j && More(stack[candidate])
    ensures |r.0| == |stack| && r.1 < |stack| && More(r.0[r.1]) && Lines(r.0) <= Lines(stack)
    decreases |stack| - j
  {
    if j >= |stack| then (stack, candidate, matched)
    else if !More(stack[j]) then Scan(stack, candidate, matched, j + 1)
    else if Head(stack[candidate]) == Head(stack[j]) then
      AdvanceLines(stack, j);
      Scan(Advance(stack, j), candidate, true, j + 1)
    else if Lt(Head(stack[j]), Head(stack[candidate])) then Scan(stack, j, matched, j + 1)
    else Scan(stack, candidate, matched, j + 1)
  }

  /** What is written for the candidate: a "-" line only if nothing was found to match. */
  function Written(l: Line, matched: bool): seq<Line> {
    if l.minus && matched then [] else [l]
  }

  /** The loops from transcript `i` on. */
  function Merged(stack: seq<Src>, i: nat): seq<Line>
    decreases Lines(stack), |stack| - i
  {
    if i >= |stack| then []
    else if !More(stack[i]) then Merged(stack, i + 1)
    else
      var (stack', candidate, matched) := Scan(stack, i, false, i + 1);
      AdvanceLines(stack', candidate);
      Written(stack'[candidate].lines[stack'[candidate].at], matched) + Merged(Advance(stack', candidate), i)
  }

  /* ---- the program ---- */

  /** struct tran: t_filepath and t_line are the line at the cursor. */
  class Tran {
    var cur: Src
    var prepath: Path       // t_prepath: the last path that passed the order check

    constructor (src: Source, lines: seq<Line>)
      ensures cur == Src(src, lines, 0) && InStep()
    {
      cur := Src(src, lines, 0);
      prepath := if lines == [] then [] else lines[0].path;
    }

    ghost predicate InStep()
      reads this
    {
      Sorted(cur.lines) && More(cur) ==> prepath == Head(cur)
    }

    /** getnextline: the new line is in place even when its order is bad. */
    method GetNextLine() returns (rc: int)
      requires InStep() && More(cur)
      modifies this
      ensures InStep() && cur == old(Next(cur))
      ensures rc != 0 ==> !Sorted(cur.lines)
    {
      if Sorted(cur.lines) {
        SortedAt(cur.lines, 0, cur.at);
      }
      cur := cur.(at := cur.at + 1);
      if !More(cur) { return 0; }
      var path := cur.lines[cur.at].path;
      if prepath != [] && !Lt(prepath, path) { return 1; }
      prepath := path;
      rc := 0;
    }
  }

  ghost predicate AllInStep(trans: seq<Tran>)
    reads trans
  {
    && (forall k :: 0 <= k < |trans| ==> trans[k].InStep())
    && forall j, k :: 0 <= j < k < |trans| ==> trans[j] != trans[k]
  }

  ghost function Cursors(trans: seq<Tran>): (r: seq<Src>)
    reads trans
    ensures |r| == |trans| && forall k :: 0 <= k < |r| ==> r[k] == trans[k].cur
  {
    seq(|trans|, k requires 0 <= k < |trans| reads trans => trans[k].cur)
  }

  /** One transcript after the candidate. The order of a line that is passed over is not
      looked at: only a negative return of getnextline would end the run here. */
  method CompareOne(trans: seq<Tran>, c: nat, m: bool, j: nat) returns (candidate: nat, matched: bool)
    requires AllInStep(trans) && c < j < |trans| && More(trans[c].cur)
    modifies trans
    ensures AllInStep(trans) && forall k :: 0 <= k < |trans| ==> trans[k].cur.lines == old(trans[k].cur.lines)
    ensures candidate <= j && More(trans[candidate].cur)
    ensures Scan(Cursors(trans), candidate, matched, j + 1) == Scan(old(Cursors(trans)), c, m, j)
  {
    candidate, matched := c, m;
    if !More(trans[j].cur) { return; }
    var path, other := Head(trans[c].cur), Head(trans[j].cur);
    if path == other {
      matched := true;
      var _ := trans[j].GetNextLine();
      assert Cursors(trans) == Advance(old(Cursors(trans)), j);
    } else if Lt(other, path) {
      candidate := j;
    }
  }

  /** "Compare candidate to other transcripts". */
  method CompareOthers(trans: seq<Tran>, i: nat) returns (candidate: nat, matched: bool)
    requires AllInStep(trans) && i < |trans| && More(trans[i].cur)
    modifies trans
    ensures AllInStep(trans) && forall k :: 0 <= k < |trans| ==> trans[k].cur.lines == old(trans[k].cur.lines)
    ensures (Cursors(trans), candidate, matched) == Scan(old(Cursors(trans)), i, false, i + 1)
  {
    candidate, matched := i, false;
    ghost var start := Cursors(trans);
    var j := i + 1;
    while j < |trans|
      invariant candidate < j <= |trans| && More(trans[candidate].cur) && AllInStep(trans)
      invariant forall k :: 0 <= k < |trans| ==> trans[k].cur.lines == start[k].lines
      invariant Scan(Cursors(trans), candidate, matched, j) == Scan(start, i, false, i + 1)
    {
      candidate, matched := CompareOne(trans, candidate, matched, j);
      j := j + 1;
    }
  }

  /** One turn of the loop over the lines of transcript `i`. */
  method MergeOne(trans: seq<Tran>, i: nat) returns (ok: bool, written: seq<Line>)
    requires AllInStep(trans) && i < |trans| && More(trans[i].cur)
    modifies trans
    ensures AllInStep(trans) && forall k :: 0 <= k < |trans| ==> trans[k].cur.lines == old(trans[k].cur.lines)
    ensures Merged(old(Cursors(trans)), i) == written + Merged(Cursors(trans), i)
    ensures Lines(Cursors(trans)) < Lines(old(Cursors(trans)))
    ensures !ok ==> !AllSorted(Cursors(trans))
  {
    var candidate, matched := CompareOthers(trans, i);
    ghost var scanned := Cursors(trans);
    var l := trans[candidate].cur.lines[trans[candidate].cur.at];
    written := [];
    if !l.minus {
      written := [l];
    }
    if l.minus && !matched {
      written := [l];
    }
    AdvanceLines(scanned, candidate);
    var rc := trans[candidate].GetNextLine();
    assert Cursors(trans) == Advance(scanned, candidate);
    ok := rc == 0;
  }

  /** The loop over the lines of transcript `i`. */
  method MergeFrom(trans: seq<Tran>, i: nat) returns (ok: bool, written: seq<Line>)
    requires AllInStep(trans) && i < |trans|
    modifies trans
    ensures AllInStep(trans) && forall k :: 0 <= k < |trans| ==> trans[k].cur.lines == old(trans[k].cur.lines)
    ensures ok ==> Merged(old(Cursors(trans)), i) == written + Merged(Cursors(trans), i + 1)
    ensures !ok ==> !AllSorted(Cursors(trans))
  {
    written := [];
    ghost var start := Cursors(trans);
    while More(trans[i].cur)
      invariant AllInStep(trans)
      invariant forall k :: 0 <= k < |trans| ==> trans[k].cur.lines == start[k].lines
      invariant Merged(start, i) == written + Merged(Cursors(trans), i)
      decreases Lines(Cursors(trans))
    {
      var more;
      ok, more := MergeOne(trans, i);
      if !ok {
        return;
      }
      assert written + (more + Merged(Cursors(trans), i)) == (written + more) + Merged(Cursors(trans), i);
      written := written + more;
    }
    ok := true;
  }

  /** The merge of the open transcripts; `ok` is false where a badly sorted one makes the
      program exit. */
  method Merge(trans: seq<Tran>) returns (ok: bool, out: seq<Line>)
    requires AllInStep(trans)
    modifies trans
    ensures ok ==> out == Merged(old(Cursors(trans)), 0)
    ensures !ok ==> !AllSorted(old(Cursors(trans)))
  {
    out := [];
    ghost var start := Cursors(trans);
    var i := 0;
    while i < |trans|
      invariant i <= |trans| && AllInStep(trans)
      invariant forall k :: 0 <= k < |trans| ==> trans[k].cur.lines == start[k].lines
      invariant out + Merged(Cursors(trans), i) == Merged(start, 0)
    {
      var written;
      ok, written := MergeFrom(trans, i);
      if !ok {
        return;
      }
      assert out + (written + Merged(Cursors(trans), i + 1)) == (out + written) + Merged(Cursors(trans), i + 1);
      out := out + written;
      i := i + 1;
    }
    ok := true;
  }

  /* ---- what the merged transcript says ---- */

  predicate ReadBefore(stack: seq<Src>, i: nat) {
    forall k :: 0 <= k < i && k < |stack| ==> !More(stack[k])
  }

  /** Of the first `j` transcripts the candidate is the one at the least path, alone. */
  predicate Leading(stack: seq<Src>, candidate: nat, j: nat)
    requires candidate < j <= |stack| && More(stack[candidate])
  {
    forall k :: 0 <= k < j && k != candidate && More(stack[k]) ==> Lt(Head(stack[candidate]), Head(stack[k]))
  }

  /** The scan ends with a transcript that is alone at the least path; nothing that a
      transcript of higher precedence does not have has been passed over. */
  lemma {:induction false} ScanFinds(stack: seq<Src>, candidate: nat, matched: bool, j: nat, i: nat, p: Path)
    requires i <= candidate < j <= |stack| && More(stack[candidate])
    requires AllSorted(stack) && Leading(stack, candidate, j) && ReadBefore(stack, i)
    ensures var (stack', c, _) := Scan(stack, candidate, matched, j);
            && AllSorted(stack') && Alone(stack', c) && ReadBefore(stack', i) && i <= c
            && Resolve(stack', p) == Resolve(stack, p)
    decreases |stack| - j
  {
    if j < |stack| && More(stack[j]) {
      var here, there := Head(stack[candidate]), Head(stack[j]);
      LtTotal(here, there);
      if here == there {
        NextLater(stack[j]);
        AdvanceKeepsFrom(stack, 0, j, candidate, p);
        ScanFinds(Advance(stack, j), candidate, true, j + 1, i, p);
      } else if Lt(there, here) {
        LtAsymmetric(there, here);
        forall k | 0 <= k < j && More(stack[k])
          ensures Lt(there, Head(stack[k]))
        {
          if k != candidate {
            LtTransitive(there, here, Head(stack[k]));
          }
        }
        ScanFinds(stack, j, matched, j + 1, i, p);
      } else {
        ScanFinds(stack, candidate, matched, j + 1, i, p);
      }
    } else if j < |stack| {
      ScanFinds(stack, candidate, matched, j + 1, i, p);
    }
  }

  /** The line of a list for a path. */
  function LineAt(ls: seq<Line>, p: Path): Option<Line> {
    if ls == [] then None else if ls[0].path == p then Some(ls[0]) else LineAt(ls[1..], p)
  }

  /** What the merged transcript may have for a path the stack resolves to `e`. */
  predicate Keeps(l: Option<Line>, p: Path, e: Option<Entry>) {
    match e
    case None => l == None
    case Some(e) =>
      if e.minus then l == None || l == Some(Line(true, p, e.obj)) else l == Some(Line(false, p, e.obj))
  }

  /** One round: the line of the candidate, and what is left resolves as before elsewhere. */
  lemma {:induction false} RoundResolves(stack: seq<Src>, i: nat, p: Path)
    requires i < |stack| && More(stack[i]) && AllSorted(stack) && ReadBefore(stack, i)
    ensures var (stack', c, _) := Scan(stack, i, false, i + 1);
            var h, later := Head(stack'[c]), Advance(stack', c);
            && AllSorted(later) && ReadBefore(later, i)
            && Resolve(stack, h) == Some(Current(stack'[c])) && h != []
            && (Resolve(stack, p).Some? ==> Le(h, p))
            && Resolve(later, p) == if p == h then None else Resolve(stack, p)
  {
    ScanFinds(stack, i, false, i + 1, i, p);
    var (stack', c, _) := Scan(stack, i, false, i + 1);
    var h := Head(stack'[c]);
    ScanFinds(stack, i, false, i + 1, i, h);
    AloneIsFirst(stack', c, p);
    SortedAt(stack'[c].lines, 0, stack'[c].at);
    if p != h {
      AdvanceKeepsFrom(stack', 0, c, c, p);
    } else {
      ResolvesNot(stack', c);
    }
  }

  lemma {:induction false} ResolvesNot(stack: seq<Src>, b: nat)
    requires b < |stack| && AllSorted(stack) && Alone(stack, b)
    ensures Resolve(Advance(stack, b), Head(stack[b])) == None
  {
    var p, s' := Head(stack[b]), Advance(stack, b);
    if Resolve(s', p).Some? {
      var j := ResolveOwner(s', 0, p);
      if j == b {
        FoundFrom(stack[b], p);
      } else {
        OthersLater(stack, b, j);
      }
    }
  }

  lemma {:induction false} WrittenFirst(l: Line, matched: bool, rest: seq<Line>, p: Path)
    ensures LineAt(Written(l, matched) + rest, p) ==
            if l.path == p && !(l.minus && matched) then Some(l) else LineAt(rest, p)
  {
    if l.minus && matched {
      assert Written(l, matched) + rest == rest;
    } else {
      assert (Written(l, matched) + rest)[1..] == rest;
    }
  }

  /** The merge keeps what the stack resolves to: a plain line comes from the leftmost
      transcript that lists its path, and a path that is removed there has no plain line. */
  lemma {:induction false} MergedKeeps(stack: seq<Src>, i: nat, p: Path)
    requires AllSorted(stack) && ReadBefore(stack, i)
    ensures Keeps(LineAt(Merged(stack, i), p), p, Resolve(stack, p))
    decreases Lines(stack), |stack| - i
  {
    if i >= |stack| {
      ReadResolvesNothing(stack, 0, p);
    } else if !More(stack[i]) {
      MergedKeeps(stack, i + 1, p);
    } else {
      RoundResolves(stack, i, p);
      var (stack', c, matched) := Scan(stack, i, false, i + 1);
      AdvanceLines(stack', c);
      var l, later := stack'[c].lines[stack'[c].at], Advance(stack', c);
      WrittenFirst(l, matched, Merged(later, i), p);
      MergedKeeps(later, i, p);
    }
  }

  predicate AllLater(stack: seq<Src>, q: Path) {
    forall k :: 0 <= k < |stack| && More(stack[k]) ==> Lt(q, Head(stack[k]))
  }

  predicate StartsAfter(ls: seq<Line>, i: nat, p: Path) {
    i < |ls| ==> Lt(p, ls[i].path)
  }

  /** The merged transcript is strictly sorted, and nothing comes before what is left. */
  lemma {:induction false} MergedSorted(stack: seq<Src>, i: nat, q: Path)
    requires AllSorted(stack) && ReadBefore(stack, i)
    requires AllLater(stack, q)
    ensures Sorted(Merged(stack, i)) && StartsAfter(Merged(stack, i), 0, q)
    decreases Lines(stack), |stack| - i
  {
    if i >= |stack| {
    } else if !More(stack[i]) {
      MergedSorted(stack, i + 1, q);
    } else {
      ScanFinds(stack, i, false, i + 1, i, []);
      ScanStaysAfter(stack, i, false, i + 1, q);
      var (stack', c, matched) := Scan(stack, i, false, i + 1);
      AdvanceLines(stack', c);
      var l, later := stack'[c].lines[stack'[c].at], Advance(stack', c);
      NextLater(stack'[c]);
      SortedAt(stack'[c].lines, 0, stack'[c].at);
      MergedSorted(later, i, l.path);
      SortedCons(l, Merged(later, i));
      if Merged(later, i) != [] {
        LtTransitive(q, l.path, Merged(later, i)[0].path);
      }
      assert [] + Merged(later, i) == Merged(later, i);
    }
  }

  lemma {:induction false} SortedShift(l: Line, ls: seq<Line>, i: nat)
    requires SortedFrom(ls, i)
    ensures SortedFrom([l] + ls, i + 1)
    decreases |ls| - i
  {
    if i < |ls| {
      SortedShift(l, ls, i + 1);
    }
  }

  lemma {:induction false} SortedCons(l: Line, ls: seq<Line>)
    requires Sorted(ls) && l.path != [] && StartsAfter(ls, 0, l.path)
    ensures Sorted([l] + ls)
  {
    SortedShift(l, ls, 0);
  }

  lemma {:induction false} ScanStaysAfter(stack: seq<Src>, candidate: nat, matched: bool, j: nat, q: Path)
    requires candidate < |stack| && candidate < j && More(stack[candidate]) && AllSorted(stack)
    requires AllLater(stack, q)
    ensures AllLater(Scan(stack, candidate, matched, j).0, q)
    decreases |stack| - j
  {
    if j >= |stack| {
    } else if !More(stack[j]) {
      ScanStaysAfter(stack, candidate, matched, j + 1, q);
    } else if Head(stack[candidate]) == Head(stack[j]) {
      NextLater(stack[j]);
      if More(Next(stack[j])) {
        LtTransitive(q, Head(stack[j]), Head(Next(stack[j])));
      }
      ScanStaysAfter(Advance(stack, j), candidate, true, j + 1, q);
    } else if Lt(Head(stack[j]), Head(stack[candidate])) {
      ScanStaysAfter(stack, j, matched, j + 1, q);
    } else {
      ScanStaysAfter(stack, candidate, matched, j + 1, q);
    }
  }

  lemma {:induction false} MergeIsSorted(stack: seq<Src>)
    requires AllSorted(stack)
    ensures Sorted(Merged(stack, 0))
  {
    forall k | 0 <= k < |stack| && More(stack[k])
      ensures Lt([], Head(stack[k]))
    {
      SortedAt(stack[k].lines, 0, stack[k].at);
    }
    MergedSorted(stack, 0, []);
  }

  /* ---- the merged transcript standing alone ---- */

  lemma {:induction false} FindIsLineAt(src: Source, ls: seq<Line>, i: nat, p: Path)
    requires i <= |ls|
    ensures FindFrom(src, ls, i, p) ==
            match LineAt(ls[i..], p) case None => None case Some(l) => Some(ToEntry(src, l))
    decreases |ls| - i
  {
    if i < |ls| {
      assert ls[i..][1..] == ls[i + 1..];
      FindIsLineAt(src, ls, i + 1, p);
    }
  }

  lemma {:induction false} ResolvedIsPositive(stack: seq<Src>, p: Path)
    requires forall k :: 0 <= k < |stack| ==> stack[k].src.kind == Positive
    requires Resolve(stack, p).Some?
    ensures Resolve(stack, p).value.src.kind == Positive
  {
    var k := ResolveOwner(stack, 0, p);
    var _ := FindFromLists(stack[k].src, stack[k].lines, stack[k].at, p);
  }

  lemma {:induction false} AloneResolves(s: Src, p: Path)
    requires s.at == 0
    ensures Resolve([s], p) == match LineAt(s.lines, p) case None => None case Some(l) => Some(ToEntry(s.src, l))
  {
    FindIsLineAt(s.src, s.lines, 0, p);
    assert s.lines[0..] == s.lines;
    assert ResolveFrom([s], 1, p) == None;
  }

  /** Alone, the merged transcript says what the whole stack said. */
  lemma {:induction false} MergedAloneSaysTheSame(sc: Scope, stack: seq<Src>, top: Source, p: Path)
    requires AllSorted(stack) && top.kind == Positive
    requires forall k :: 0 <= k < |stack| ==> stack[k].src.kind == Positive
    ensures View(sc, [Src(top, Merged(stack, 0), 0)], p) ==
            match View(sc, stack, p) case None => None case Some(e) => Some(e.(src := top))
  {
    MergedKeeps(stack, 0, p);
    AloneResolves(Src(top, Merged(stack, 0), 0), p);
    if Resolve(stack, p).Some? {
      ResolvedIsPositive(stack, p);
    }
  }

  /* ---- the line of one transcript ---- */

  lemma {:induction false} FindNext(s: Src, p: Path)
    requires Sorted(s.lines) && More(s)
    ensures Find(Next(s), p) == if p == Head(s) then None else Find(s, p)
    ensures Find(s, Head(s)) == Some(Current(s))
    ensures Find(s, p).Some? ==> Le(Head(s), p)
  {
    if Find(s, p).Some? {
      FoundFrom(s, p);
    }
    if p == Head(s) {
      FoundFrom(s, p);
    }
  }

  lemma {:induction false} FindNothing(s: Src, p: Path)
    requires Sorted(s.lines) && (More(s) ==> Lt(p, Head(s)))
    ensures Find(s, p) == None
  {
    if Find(s, p).Some? {
      FoundFrom(s, p);
      LtAsymmetric(p, Head(s));
    }
  }
}
