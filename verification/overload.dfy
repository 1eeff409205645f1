/** The transcript that fsdiff -C prints, put on top of the stack it was made against,
    describes the filesystem. */
module Overloads {
  import opened Options
  import opened Paths
  import opened Entries
  import opened Trees
  import opened Views
  import opened Transcripts
  import opened Journal
  import opened WalkRules
  import opened Convergence
  import opened Cycles

  function ToLine(l: OutLine): Line
    requires l.Edit?
  {
    Line(l.sign == Minus, l.path, l.obj)
  }

  predicate AllEdits(out: seq<OutLine>) {
    forall i :: 0 <= i < |out| ==> out[i].Edit?
  }

  /** The output as the lines of a transcript. */
  function ToLines(out: seq<OutLine>): (ls: seq<Line>)
    requires AllEdits(out)
    ensures |ls| == |out|
  {
    if out == [] then [] else ToLines(out[..|out| - 1]) + [ToLine(out[|out| - 1])]
  }

  /** Names the -C run prints a line for. */
  predicate Told(cfg: Config, e: Event) {
    e.Compared? ==> TCompare(cfg, e.obj, e.entry) != Same
  }

  function LineOf(cfg: Config, e: Event): Line {
    match e
    case TranOnly(p, en) => Line(true, p, Shown(en.obj))
    case FsOnly(p, o) => Line(false, p, ShownFs(cfg, o))
    case Compared(p, o, _) => Line(false, p, ShownFs(cfg, o))
  }

  /** The transcript as a function of the names met. */
  function Overload(cfg: Config, evs: seq<Event>): seq<Line> {
    if evs == [] then []
    else
      var ls := Overload(cfg, evs[..|evs| - 1]);
      var e := evs[|evs| - 1];
      if Told(cfg, e) then ls + [LineOf(cfg, e)] else ls
  }

  lemma {:induction false} PrintsOne(cfg: Config, pr: Printer, e: Event)
    requires cfg.editPath == Creatable
    ensures var out := PrintEvent(cfg, pr, e).out;
            if Told(cfg, e) then exists l: OutLine :: l.Edit? && ToLine(l) == LineOf(cfg, e) && out == pr.out + [l]
            else out == pr.out
  {
    if Told(cfg, e) {
      var l := LineOf(cfg, e);
      var edit := Edit(if l.minus then Minus else Plain, l.path, l.obj);
      assert ToLine(edit) == l && PrintEvent(cfg, pr, e).out == pr.out + [edit];
    }
  }

  lemma {:induction false} PrintsNext(cfg: Config, pr: Printer, e: Event)
    requires cfg.editPath == Creatable && AllEdits(pr.out)
    ensures var out := PrintEvent(cfg, pr, e).out;
            && AllEdits(out)
            && ToLines(out) == if Told(cfg, e) then ToLines(pr.out) + [LineOf(cfg, e)] else ToLines(pr.out)
  {
    PrintsOne(cfg, pr, e);
    var out := PrintEvent(cfg, pr, e).out;
    if Told(cfg, e) {
      assert out[..|out| - 1] == pr.out;
    }
  }

  /** -C prints no headers, and its lines are those. */
  lemma {:induction false} PrintsOverload(cfg: Config, evs: seq<Event>)
    requires cfg.editPath == Creatable
    ensures AllEdits(Printed(cfg, evs).out) && ToLines(Printed(cfg, evs).out) == Overload(cfg, evs)
  {
    if evs != [] {
      PrintsOverload(cfg, evs[..|evs| - 1]);
      PrintsNext(cfg, Printed(cfg, evs[..|evs| - 1]), evs[|evs| - 1]);
    }
  }

  /* ---- the transcript is sorted ---- */

  predicate AllBefore(ls: seq<Line>, p: Path) {
    forall i :: 0 <= i < |ls| ==> Lt(ls[i].path, p)
  }

  lemma {:induction false} SortedSnoc(ls: seq<Line>, l: Line, i: nat)
    requires SortedFrom(ls, i) && i <= |ls| && AllBefore(ls, l.path) && l.path != []
    ensures SortedFrom(ls + [l], i)
    decreases |ls| - i
  {
    if i < |ls| {
      SortedSnoc(ls, l, i + 1);
    }
  }

  lemma {:induction false} OverloadSorted(cfg: Config, evs: seq<Event>)
    requires InPathOrder(evs) && forall i :: 0 <= i < |evs| ==> evs[i].path != []
    ensures Sorted(Overload(cfg, evs))
    ensures forall p :: After(evs, p) ==> AllBefore(Overload(cfg, evs), p)
  {
    if evs != [] {
      var front, e := evs[..|evs| - 1], evs[|evs| - 1];
      FrontInOrder(evs);
      OverloadSorted(cfg, front);
      var ls := Overload(cfg, front);
      if Told(cfg, e) {
        SortedSnoc(ls, LineOf(cfg, e), 0);
      }
      forall p | After(evs, p)
        ensures AllBefore(Overload(cfg, evs), p)
      {
        if |front| > 0 {
          LtTransitive(front[|front| - 1].path, e.path, p);
        }
        assert AllBefore(ls, p);
      }
    }
  }

  /* ---- what it lists ---- */

  /** The line it has for a path. */
  function Listed(cfg: Config, evs: seq<Event>, p: Path): Option<Line> {
    if evs == [] then None
    else
      var e := evs[|evs| - 1];
      if e.path == p then (if Told(cfg, e) then Some(LineOf(cfg, e)) else None)
      else Listed(cfg, evs[..|evs| - 1], p)
  }

  lemma {:induction false} FindSnoc(src: Source, ls: seq<Line>, l: Line, i: nat, p: Path)
    requires i <= |ls|
    ensures FindFrom(src, ls + [l], i, p) ==
            if FindFrom(src, ls, i, p).Some? then FindFrom(src, ls, i, p)
            else if l.path == p then Some(ToEntry(src, l)) else None
    decreases |ls| - i
  {
    if i < |ls| {
      FindSnoc(src, ls, l, i + 1, p);
    }
  }

  lemma {:induction false} NotFound(src: Source, ls: seq<Line>, i: nat, p: Path)
    requires AllBefore(ls, p)
    ensures FindFrom(src, ls, i, p) == None
    decreases |ls| - i
  {
    LtIrreflexive(p);
    if i < |ls| {
      NotFound(src, ls, i + 1, p);
    }
  }

  lemma {:induction false} OverloadFinds(cfg: Config, evs: seq<Event>, src: Source, p: Path)
    requires InPathOrder(evs) && forall i :: 0 <= i < |evs| ==> evs[i].path != []
    ensures FindFrom(src, Overload(cfg, evs), 0, p) ==
            match Listed(cfg, evs, p) case None => None case Some(l) => Some(ToEntry(src, l))
  {
    if evs != [] {
      var front, e := evs[..|evs| - 1], evs[|evs| - 1];
      FrontInOrder(evs);
      OverloadFinds(cfg, front, src, p);
      OverloadSorted(cfg, front);
      var ls := Overload(cfg, front);
      if e.path == p {
        NotFound(src, ls, 0, p);
      }
      if Told(cfg, e) {
        FindSnoc(src, ls, LineOf(cfg, e), 0, p);
      }
    }
  }

  lemma {:induction false} ListedAt(cfg: Config, evs: seq<Event>, i: nat)
    requires InPathOrder(evs) && i < |evs|
    ensures Listed(cfg, evs, evs[i].path) == if Told(cfg, evs[i]) then Some(LineOf(cfg, evs[i])) else None
  {
    var n := |evs| - 1;
    if i < n {
      IndexBefore(evs, i, n);
      FrontInOrder(evs);
      ListedAt(cfg, evs[..n], i);
    }
  }

  lemma {:induction false} ListedNowhere(cfg: Config, evs: seq<Event>, p: Path)
    requires !Has(evs, p)
    ensures Listed(cfg, evs, p) == None
  {
    if evs != [] {
      var n := |evs| - 1;
      assert evs[n].path != p;
      ListedNowhere(cfg, evs[..n], p);
    }
  }

  /* ---- the stack with the transcript on top ---- */

  function OnTop(top: Source, ls: seq<Line>, stack: seq<Src>): seq<Src> {
    [Src(top, ls, 0)] + stack
  }

  lemma {:induction false} ResolveBelow(s: Src, stack: seq<Src>, k: nat, p: Path)
    requires k <= |stack|
    ensures ResolveFrom([s] + stack, k + 1, p) == ResolveFrom(stack, k, p)
    decreases |stack| - k
  {
    if k < |stack| {
      ResolveBelow(s, stack, k + 1, p);
    }
  }

  lemma {:induction false} ViewOnTop(sc: Scope, top: Source, ls: seq<Line>, stack: seq<Src>, p: Path)
    ensures View(sc, OnTop(top, ls, stack), p) ==
            match FindFrom(top, ls, 0, p)
            case None => View(sc, stack, p)
            case Some(e) => if Visible(sc, p, e) then Some(e) else None
  {
    ResolveBelow(Src(top, ls, 0), stack, 0, p);
  }

  /** A line printed for an object is the same as the object. */
  lemma {:induction false} ShownIsSame(cfg: Config, o: Obj, top: Source)
    requires top.kind == Positive
    ensures Alike(cfg, o, Entry(top, false, ShownFs(cfg, o)))
  {
  }

  /** The inputs of a -C run without exclude patterns and negative directories. */
  ghost predicate Closing(c: Input, stack: seq<Src>, evs: seq<Event>) {
    && c.cfg.editPath == Creatable && TreeShaped(c.fs, c.scope.prefix)
    && (forall p :: !c.scope.excluded(p))
    && c.view == ViewMap(c.scope, stack) && IsMerge(c, evs)
  }

  lemma {:induction false} NamesGiven(c: Input, stack: seq<Src>, evs: seq<Event>, i: nat)
    requires Closing(c, stack, evs) && i < |evs|
    ensures evs[i].path != [] && Under(evs[i].path, c.scope.prefix)
  {
    var p := evs[i].path;
    assert Known(c, p);
    if p in c.fs {
      TreeCanonical(c.fs, c.scope.prefix, p);
    } else {
      assert View(c.scope, stack, p).Some?;
    }
  }

  /** The view with the overload on top: exactly the objects of the filesystem, each the
      same as its line in all that counts. */
  lemma {:induction false} OverloadedView(c: Input, stack: seq<Src>, evs: seq<Event>, top: Source, p: Path)
    requires Closing(c, stack, evs) && top.kind == Positive
    ensures var v := View(c.scope, OnTop(top, Overload(c.cfg, evs), stack), p);
            && (v.Some? <==> p in c.fs)
            && (v.Some? ==> Alike(c.cfg, c.fs[p], v.value))
            && (v.Some? && v.value.src != top ==> v == View(c.scope, stack, p))
  {
    forall i | 0 <= i < |evs|
      ensures evs[i].path != []
    {
      NamesGiven(c, stack, evs, i);
    }
    OverloadFinds(c.cfg, evs, top, p);
    ViewOnTop(c.scope, top, Overload(c.cfg, evs), stack, p);
    if Known(c, p) {
      assert Has(evs, p);
      var i :| 0 <= i < |evs| && evs[i].path == p;
      NamesGiven(c, stack, evs, i);
      ListedAt(c.cfg, evs, i);
      assert evs[i] == EventFor(c, p);
      if p in c.fs {
        ShownIsSame(c.cfg, c.fs[p], top);
        if p in c.view {
          SameIffAlike(c.cfg, c.fs[p], c.view[p]);
        }
      }
    } else {
      ListedNowhere(c.cfg, evs, p);
    }
  }

  lemma {:induction false} OverloadedAt(c: Input, stack: seq<Src>, evs: seq<Event>, top: Source,
                                        v: map<Path, Entry>, p: Path)
    requires Closing(c, stack, evs) && top.kind == Positive
    requires v == ViewMap(c.scope, OnTop(top, Overload(c.cfg, evs), stack))
    ensures (p in v <==> p in c.fs) && (p in c.fs ==> Alike(c.cfg, c.fs[p], v[p]))
  {
    OverloadedView(c, stack, evs, top, p);
    var _ := View(c.scope, OnTop(top, Overload(c.cfg, evs), stack), p);
  }

  lemma {:induction false} OverloadedIsSame(c: Input, stack: seq<Src>, evs: seq<Event>, top: Source,
                                            v: map<Path, Entry>)
    requires Closing(c, stack, evs) && top.kind == Positive
    requires v == ViewMap(c.scope, OnTop(top, Overload(c.cfg, evs), stack))
    ensures SameAsView(c.(view := v), c.fs)
  {
    forall p
      ensures p in v <==> p in c.fs
      ensures p in c.fs ==> Alike(c.cfg, c.fs[p], v[p])
    {
      OverloadedAt(c, stack, evs, top, v, p);
    }
  }

  /** The overload closes the loop: it is strictly sorted, and a -C run against the stack
      with it on top prints nothing. */
  lemma {:induction false} OverloadCloses(c: Input, stack: seq<Src>, evs: seq<Event>, top: Source, c2: Input,
                                          evs2: seq<Event>)
    requires Closing(c, stack, evs) && top.kind == Positive
    requires c2 == c.(view := ViewMap(c.scope, OnTop(top, Overload(c.cfg, evs), stack))) && IsMerge(c2, evs2)
    ensures Sorted(Overload(c.cfg, evs)) && Printed(c2.cfg, evs2).out == []
  {
    OverloadIsSorted(c, stack, evs);
    OverloadedIsSame(c, stack, evs, top, c2.view);
    SilentIffSame(c2, evs2);
  }

  lemma {:induction false} SrcsOnTop(t: Transcript, trans: seq<Transcript>)
    requires AllValid(trans) && t.Valid() && t.Started()
    ensures AllValid([t] + trans) && SrcsOf([t] + trans) == [t.ToSrc()] + SrcsOf(trans)
  {
  }

  /** Nothing negative and nothing new that is special comes of putting the overload on top. */
  lemma {:induction false} OnTopIsReady(c: Input, stack: seq<Src>, evs: seq<Event>, top: Source)
    requires Closing(c, stack, evs) && top.kind == Positive && NoNegDirs(c)
    requires forall p :: p in c.view && c.view[p].src.kind == Special ==> p in c.specials
    ensures var c2 := c.(view := ViewMap(c.scope, OnTop(top, Overload(c.cfg, evs), stack)));
            NoNegDirs(c2) && forall p :: p in c2.view && c2.view[p].src.kind == Special ==> p in c.specials
  {
    var c2 := c.(view := ViewMap(c.scope, OnTop(top, Overload(c.cfg, evs), stack)));
    forall p | p in c2.view
      ensures !NegDir(c2, p) && (c2.view[p].src.kind == Special ==> p in c.specials)
    {
      OverloadedView(c, stack, evs, top, p);
      assert View(c.scope, OnTop(top, Overload(c.cfg, evs), stack), p) == Some(c2.view[p]);
      if c2.view[p].src != top {
        assert !NegDir(c, p);
      }
    }
  }

  lemma {:induction false} OverloadIsSorted(c: Input, stack: seq<Src>, evs: seq<Event>)
    requires Closing(c, stack, evs)
    ensures Sorted(Overload(c.cfg, evs))
  {
    forall i | 0 <= i < |evs|
      ensures evs[i].path != []
    {
      NamesGiven(c, stack, evs, i);
    }
    OverloadSorted(c.cfg, evs);
  }

  lemma {:induction false} AgainIsReady(specials: set<Path>, again: Stack, c2: Input)
    requires again.Valid() && again.InOrder() && c2.view == ViewMap(again.scope, again.Srcs())
    requires forall p :: p in c2.view && c2.view[p].src.kind == Special ==> p in specials
    ensures Ready(specials, again)
  {
    forall p | again.Coming(p).Some? && again.Coming(p).value.src.kind == Special
      ensures p in specials
    {
      assert View(again.scope, again.Srcs(), p) == Some(c2.view[p]);
    }
  }

  /** A transcript from the printed lines, put on top. */
  method StackOnTop(top: Source, lines: seq<Line>, trans: seq<Transcript>, scope: Scope) returns (again: Stack)
    requires top.kind == Positive && Sorted(lines)
    requires |trans| > 0 && trans[|trans| - 1].src.kind == Null && AllValid(trans)
    requires forall i :: 0 <= i < |trans| ==> Sorted(trans[i].lines)
    ensures fresh(again) && again.Valid() && again.InOrder() && again.scope == scope
    ensures again.Srcs() == OnTop(top, lines, SrcsOf(trans))
  {
    var t := TNew(top, lines);
    SrcsOnTop(t.value, trans);
    again := new Stack([t.value] + trans, scope);
  }

  /** fsdiff -C, the result put on top of the same transcripts, and fsdiff -C again. */
  method OverloadThenDiff(cfg: Config, specials: set<Path>, fs: map<Path, Obj>, stack: Stack, top: Source)
    returns (second: seq<OutLine>)
    requires Ready(specials, stack) && TreeShaped(fs, stack.scope.prefix) && cfg.editPath == Creatable
    requires (forall p :: p in fs ==> fs[p].kind != Absent) && NoNegDirs(Given(cfg, specials, fs, stack))
    requires (forall p :: !stack.scope.excluded(p)) && top.kind == Positive
    modifies stack
    ensures second == []
  {
    ghost var c, srcs := Given(cfg, specials, fs, stack), stack.Srcs();
    var trans := stack.trans;
    ReadySpecials(specials, stack, c);
    var out;
    ghost var evs, evs2;
    out, evs := Fsdiff(cfg, specials, fs, stack);
    PrintsOverload(cfg, evs);
    OverloadIsSorted(c, srcs, evs);
    var again := StackOnTop(top, ToLines(out), trans, stack.scope);
    ghost var c2 := c.(view := ViewMap(c.scope, OnTop(top, Overload(cfg, evs), srcs)));
    OnTopIsReady(c, srcs, evs, top);
    AgainIsReady(specials, again, c2);
    second, evs2 := Fsdiff(cfg, specials, fs, again);
    OverloadCloses(c, srcs, evs, top, c2, evs2);
  }

  lemma {:induction false} ReadySpecials(specials: set<Path>, stack: Stack, c: Input)
    requires Ready(specials, stack) && c.view == ViewMap(stack.scope, stack.Srcs())
    ensures forall p :: p in c.view && c.view[p].src.kind == Special ==> p in specials
  {
    forall p | p in c.view
      ensures View(stack.scope, stack.Srcs(), p) == Some(c.view[p])
    {
    }
  }
}
