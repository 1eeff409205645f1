/** fsdiff, lapply, fsdiff: the programs put together, and where the result needs its
    conditions. */
module Cycles {
  import opened Paths
  import opened Entries
  import opened Trees
  import opened Views
  import opened Transcripts
  import opened Journal
  import opened WalkRules
  import opened Fsdiffs
  import opened Updates
  import opened Lapplies
  import opened Buffers
  import opened Convergence

  /** What a run of fsdiff is given: a stack at its start and a filesystem. */
  ghost function Given(cfg: Config, specials: set<Path>, fs: Fs, stack: Stack): Input
    reads stack
    requires stack.Valid()
  {
    Input(cfg, stack.scope, specials, fs, ViewMap(stack.scope, stack.Srcs()))
  }

  ghost predicate Ready(specials: set<Path>, stack: Stack)
    reads stack
  {
    && stack.Valid() && stack.InOrder()
    && forall p :: stack.Coming(p).Some? && stack.Coming(p).value.src.kind == Special ==> p in specials
  }

  lemma {:induction false} NoneNegative(c: Input, h: Host)
    requires Servable(c, h)
    ensures NoNegDirs(c)
  {
    forall p | p in c.view
      ensures !NegDir(c, p)
    {
      assert CanBring(c, h, p);
    }
  }

  /** fsdiff -A without exclude patterns: the output is that of the full merge. */
  method Fsdiff(cfg: Config, specials: set<Path>, fs: Fs, stack: Stack)
    returns (out: seq<OutLine>, ghost evs: seq<Event>)
    requires Ready(specials, stack) && TreeShaped(fs, stack.scope.prefix)
    requires (forall p :: p in fs ==> fs[p].kind != Absent) && NoNegDirs(Given(cfg, specials, fs, stack))
    requires forall p :: !stack.scope.excluded(p)
    modifies stack
    ensures out == Printed(cfg, evs).out && IsMerge(old(Given(cfg, specials, fs, stack)), evs)
  {
    ghost var c := Given(cfg, specials, fs, stack);
    var d := new Fsdiffs.Fsdiff(cfg, specials, fs, stack);
    assert d.In() == c;
    d.Run();
    evs := d.evs;
    PlainRunIsMerge(c, evs);
    out := d.printer.out;
  }

  lemma {:induction false} AppliedCanBeWalked(c: Input, h: Host, evs: seq<Event>, out: seq<OutLine>)
    requires Good(c, h) && IsMerge(c, evs) && out == Printed(c.cfg, evs).out
    ensures Lapply(h, c.fs, out).Some?
    ensures var m := Lapply(h, c.fs, out).value.fs;
            TreeShaped(m, c.scope.prefix) && forall p :: p in m ==> m[p].kind != Absent
  {
    ApplyConverges(c, h, evs);
    AppliedIsTree(c, h, Lapply(h, c.fs, out).value.fs);
  }

  /** What one diff and its apply leave: a tree, on which a diff prints nothing exactly if the
      owners and modes of links have been kept. */
  ghost predicate Converged(c: Input, h: Host, m: Fs) {
    && TreeShaped(m, c.scope.prefix) && (forall p :: p in m ==> m[p].kind != Absent)
    && forall evs2 :: IsMerge(c.(fs := m), evs2) ==> (Printed(c.cfg, evs2).out == [] <==> LinksKept(c, h))
  }

  lemma {:induction false} AppliedConverged(c: Input, h: Host, evs: seq<Event>, out: seq<OutLine>)
    requires Servable(c, h) && IsMerge(c, evs) && out == Printed(c.cfg, evs).out
    ensures Lapply(h, c.fs, out).Some? <==> RequestsMet(c, h)
    ensures RequestsMet(c, h) ==> Converged(c, h, Lapply(h, c.fs, out).value.fs)
  {
    ApplySucceedsIff(c, h, evs);
    if RequestsMet(c, h) {
      AppliedCanBeWalked(c, h, evs, out);
      var m := Lapply(h, c.fs, out).value.fs;
      forall evs2 | IsMerge(c.(fs := m), evs2)
        ensures Printed(c.cfg, evs2).out == [] <==> LinksKept(c, h)
      {
        SecondDiffIsSilentIff(c, h, evs, m, evs2);
      }
    }
  }

  /** The apply succeeds exactly if all requests are met. */
  method DiffApply(cfg: Config, specials: set<Path>, fs: Fs, stack: Stack, h: Host)
    returns (ok: bool, m: Fs)
    requires Ready(specials, stack) && forall p :: !stack.scope.excluded(p)
    requires Servable(Given(cfg, specials, fs, stack), h)
    modifies stack
    ensures ok <==> RequestsMet(old(Given(cfg, specials, fs, stack)), h)
    ensures ok ==> Converged(old(Given(cfg, specials, fs, stack)), h, m)
  {
    ghost var c := Given(cfg, specials, fs, stack);
    NoneNegative(c, h);
    var out;
    ghost var evs;
    out, evs := Fsdiff(cfg, specials, fs, stack);
    AppliedConverged(c, h, evs, out);
    var l := new Lapplier(h, fs);
    ok := l.Run(out);
    m := l.fs;
  }

  /** A diff, an apply and a diff: if the apply succeeds, nothing is left to print exactly if
      the owners and modes of links have been kept. */
  method DiffApplyDiff(cfg: Config, specials: set<Path>, fs: Fs, stack: Stack, again: Stack, h: Host)
    returns (ok: bool, second: seq<OutLine>)
    requires stack != again && Ready(specials, stack) && Ready(specials, again)
    requires Given(cfg, specials, fs, stack) == Given(cfg, specials, fs, again)
    requires Servable(Given(cfg, specials, fs, stack), h)
    requires forall p :: !stack.scope.excluded(p)
    modifies stack, again
    ensures ok <==> RequestsMet(old(Given(cfg, specials, fs, stack)), h)
    ensures ok ==> (second == [] <==> LinksKept(old(Given(cfg, specials, fs, stack)), h))
  {
    ghost var c := Given(cfg, specials, fs, stack);
    NoneNegative(c, h);
    var m;
    ok, m := DiffApply(cfg, specials, fs, stack, h);
    second := [];
    if ok {
      assert Given(cfg, specials, m, again) == c.(fs := m);
      ghost var evs2;
      second, evs2 := Fsdiff(cfg, specials, m, again);
    }
  }
}
