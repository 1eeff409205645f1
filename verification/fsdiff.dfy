/** fsdiff.c and the callers of transcript_select in transcript.c: the recursive walk and
    its merge with the transcripts. */
module Fsdiffs {
  import opened Options
  import opened Paths
  import opened Entries
  import opened Trees
  import opened Views
  import opened Transcripts
  import opened Journal
  import opened WalkRules

  class Fsdiff {
    const cfg: Config
    const specials: set<Path>     // special_list
    const fs: map<Path, Obj>      // what radstat and readdir report
    const stack: Stack
    var printer: Printer          // outtran and prev_tran
    var fsMinus: bool             // fs_minus
    ghost const view: map<Path, Entry>
    ghost var evs: seq<Event>

    ghost function In(): Input {
      Input(cfg, stack.scope, specials, fs, view)
    }

    /** The inputs the walk is made for: a tree, and special.T lists only special files. */
    ghost predicate GoodInput() {
      InputOk(In()) && forall p :: p in fs ==> fs[p].kind != Absent
    }

    /** The output is that of the names met so far, and those are the right ones. */
    ghost predicate Recorded()
      reads this`printer, this`evs
    {
      Kept(In(), evs) && printer == Printed(cfg, evs)
    }

    ghost predicate Valid()
      reads this`printer, this`evs, stack
    {
      && stack.Valid() && stack.InOrder() && GoodInput() && Recorded()
      && Tied(In(), evs, stack.Srcs())
    }

    /** After transcript_init. */
    constructor (cfg: Config, specials: set<Path>, fs: map<Path, Obj>, stack: Stack)
      requires stack.Valid() && stack.InOrder() && TreeShaped(fs, stack.scope.prefix)
      requires forall p :: p in fs ==> fs[p].kind != Absent
      requires forall p :: stack.Coming(p).Some? && stack.Coming(p).value.src.kind == Special ==> p in specials
      ensures Valid() && evs == [] && this.cfg == cfg && this.specials == specials
      ensures this.fs == fs && this.stack == stack
      ensures view == ViewMap(stack.scope, stack.Srcs())
    {
      this.cfg := cfg;
      this.specials := specials;
      this.fs := fs;
      this.stack := stack;
      this.printer := Printer([], None);
      this.fsMinus := false;
      this.view := ViewMap(stack.scope, stack.Srcs());
      this.evs := [];
      new;
      forall p | p in view
        ensures Admitted(In(), p)
      {
        assert stack.Coming(p).Some?;
      }
    }

    /** Transcript `b` has been selected: it holds the next entry, or there is none, and
        consuming it leaves the transcripts tied to what is left. */
    ghost predicate Next(b: nat)
      reads this`printer, this`evs, stack
      requires stack.Valid()
    {
      && NextIs(In(), evs, stack.Srcs(), b)
      && (More(stack.Srcs()[b]) ==>
            TiedWithout(In(), evs, Advance(stack.Srcs(), b), Head(stack.Srcs()[b])))
    }

    /** transcript_select. */
    method Peek() returns (b: nat)
      requires Valid()
      modifies stack
      ensures Valid() && Next(b)
      ensures Lines(stack.Srcs()) <= Lines(old(stack.Srcs()))
    {
      stack.RestsInOrder();
      SelectGivesNext(In(), evs, stack.Srcs());
      var ok;
      ok, b := stack.SelectNext();
      assert ok;
    }

    /** t_print. */
    method Print(ev: Event)
      requires Recorded() && MayMeet(In(), evs, ev)
      modifies this`printer, this`evs
      ensures Recorded() && evs == old(evs) + [ev]
    {
      MeetKeeps(In(), evs, ev);
      PrintedSnoc(cfg, evs, ev);
      printer := PrintEvent(cfg, printer, ev);
      evs := evs + [ev];
    }

    /** t_print and then transcript_parse of the transcript the name is taken from. */
    method MeetTran(b: nat, ev: Event)
      requires Valid() && Next(b) && More(stack.Srcs()[b]) && ev.path == Head(stack.Srcs()[b])
      requires MayMeet(In(), evs, ev)
      modifies this`printer, this`evs, stack
      ensures Valid() && evs == old(evs) + [ev]
      ensures Lines(stack.Srcs()) < Lines(old(stack.Srcs()))
    {
      AdvanceLines(stack.Srcs(), b);
      TiedAgain(In(), evs, Advance(stack.Srcs(), b), ev);
      Print(ev);
      var ok := stack.ParseAt(b);
      assert ok;
    }

    /** The name selected is one that only the transcripts have. */
    method PassTran(b: nat, ghost upTo: Option<Path>) returns (ghost ev: Event)
      requires Valid() && Next(b) && More(stack.Srcs()[b]) && NotFoundBefore(In(), evs, upTo)
      requires upTo.Some? ==> Lt(Head(stack.Srcs()[b]), upTo.value)
      modifies this`printer, this`evs, stack
      ensures Valid() && NotFoundBefore(In(), evs, upTo)
      ensures evs == old(evs) + [ev] && ev.TranOnly? && ev.path == old(Head(stack.Srcs()[b]))
      ensures Lines(stack.Srcs()) < Lines(old(stack.Srcs()))
    {
      var t := stack.trans[b];
      ghost var before := evs;
      TranIsNext(In(), evs, stack.Srcs(), b, upTo);
      ev := TranOnly(t.pinfo.path, ToEntry(t.src, t.pinfo));
      MeetTran(b, TranOnly(t.pinfo.path, ToEntry(t.src, t.pinfo)));
      NotFoundStays(In(), before, ev, upTo);
    }

    /** One turn of transcript()'s loop that returns T_MOVE_TRAN, and the next selection. */
    method MoveTranOnce(b: nat, ghost upTo: Option<Path>) returns (b': nat, ghost ev: Event)
      requires Valid() && Next(b) && More(stack.Srcs()[b]) && NotFoundBefore(In(), evs, upTo)
      requires upTo.Some? ==> Lt(Head(stack.Srcs()[b]), upTo.value)
      modifies this, stack
      ensures Valid() && Next(b') && NotFoundBefore(In(), evs, upTo)
      ensures evs == old(evs) + [ev] && ev.TranOnly? && ev.path == old(Head(stack.Srcs()[b]))
      ensures fsMinus == (old(fsMinus) || cfg.editPath == Creatable)
      ensures Lines(stack.Srcs()) < Lines(old(stack.Srcs()))
    {
      ev := PassTran(b, upTo);
      fsMinus := fsMinus || cfg.editPath == Creatable;
      b' := Peek();
    }

    /** The test on which those turns go on: the name selected comes before `upTo`. */
    method TranFirst(b: nat, upTo: Option<Path>) returns (go: bool)
      requires Valid() && Next(b)
      ensures go ==> More(stack.Srcs()[b]) && (upTo.Some? ==> Lt(Head(stack.Srcs()[b]), upTo.value))
      ensures !go ==> More(stack.Srcs()[b]) ==> upTo.Some? && Le(upTo.value, Head(stack.Srcs()[b]))
    {
      var t := stack.trans[b];
      go := !t.eof && (upTo.None? || Lt(t.pinfo.path, upTo.value));
      if !go && upTo.Some? {
        LtTotal(t.pinfo.path, upTo.value);
      }
    }

    /** All those turns: the names before `upTo` (all, when the filesystem is exhausted)
        that only the transcripts have. */
    method MoveTran(upTo: Option<Path>) returns (b: nat)
      requires Valid() && (upTo.Some? ==> After(evs, upTo.value)) && NotFoundBefore(In(), evs, upTo)
      modifies this, stack
      ensures Valid() && Next(b) && OnlyTran(old(evs), evs, upTo)
      ensures More(stack.Srcs()[b]) ==> upTo.Some? && Le(upTo.value, Head(stack.Srcs()[b]))
      ensures upTo.Some? ==> After(evs, upTo.value)
      ensures fsMinus == (old(fsMinus) || (cfg.editPath == Creatable && |evs| > old(|evs|)))
    {
      b := Peek();
      var go := TranFirst(b, upTo);
      while go
        invariant Valid() && Next(b) && OnlyTran(old(evs), evs, upTo) && NotFoundBefore(In(), evs, upTo)
        invariant upTo.Some? ==> After(evs, upTo.value)
        invariant fsMinus == (old(fsMinus) || (cfg.editPath == Creatable && |evs| > old(|evs|)))
        invariant go ==> More(stack.Srcs()[b]) && (upTo.Some? ==> Lt(Head(stack.Srcs()[b]), upTo.value))
        invariant !go ==> More(stack.Srcs()[b]) ==> upTo.Some? && Le(upTo.value, Head(stack.Srcs()[b]))
        decreases Lines(stack.Srcs())
      {
        ghost var before := evs;
        ghost var ev;
        b, ev := MoveTranOnce(b, upTo);
        OnlyTranSnoc(old(evs), before, ev, upTo);
        go := TranFirst(b, upTo);
      }
    }

    /** The call of transcript() that transcript_free makes after the walk. */
    method TranscriptEnd()
      requires Valid() && NotFoundBefore(In(), evs, None)
      modifies this, stack
      ensures Valid() && OnlyTran(old(evs), evs, None)
      ensures forall p :: p in view ==> Has(evs, p)
    {
      fsMinus := false;
      var b := MoveTran(None);
      forall p | p in view
        ensures Has(evs, p)
      {
        KeptHas(In(), evs, p);
      }
    }

    /** T_MOVE_BOTH: the object, or none, and the line of transcript `b` have the same name. */
    method CompareBoth(b: nat, path: Path, o: Obj) returns (enter: nat)
      requires Valid() && Next(b) && More(stack.Srcs()[b]) && Head(stack.Srcs()[b]) == path
      requires path in view && view[path] == Current(stack.Srcs()[b])
      requires o == if path in fs then fs[path] else ABSENT
      requires MayMeet(In(), evs, EventFor(In(), path))
      modifies this, stack
      ensures Valid() && evs == old(evs) + [EventFor(In(), path)] && enter == EnterFor(In(), path)
      ensures fsMinus == (old(fsMinus) || (cfg.editPath == Creatable && path !in fs))
    {
      enter := if o.kind == Dir then 1 else 0;
      var t := stack.trans[b];
      var e := ToEntry(t.src, t.pinfo);
      if o.kind == Absent && cfg.editPath == Creatable {
        fsMinus := true;
      }
      if t.src.kind == Negative && t.pinfo.obj.kind == Dir {
        enter := 2;
      }
      MeetTran(b, if o.kind == Absent then TranOnly(path, e) else Compared(path, o, e));
    }

    /** The last turn of transcript()'s loop: the object against transcript `b`. */
    method Compare(b: nat, path: Path, o: Obj) returns (enter: nat)
      requires Valid() && Next(b) && (path in fs || path in view)
      requires o == if path in fs then fs[path] else ABSENT
      requires path in view <==> More(stack.Srcs()[b]) && Head(stack.Srcs()[b]) == path
      requires path in view ==> view[path] == Current(stack.Srcs()[b])
      requires path !in view ==> Left(In(), evs, path) == None
      requires MayMeet(In(), evs, EventFor(In(), path))
      modifies this, stack
      ensures Valid() && evs == old(evs) + [EventFor(In(), path)] && enter == EnterFor(In(), path)
      ensures fsMinus == (old(fsMinus) || (if cfg.editPath == Applicable then path !in view else path !in fs))
    {
      if !stack.trans[b].eof && stack.trans[b].pinfo.path == path {
        enter := CompareBoth(b, path, o);
      } else {
        enter := if o.kind == Dir then 1 else 0;
        FsOnlyTied(In(), evs, stack.Srcs(), FsOnly(path, o));
        Print(FsOnly(path, o));
        if cfg.editPath == Applicable {
          fsMinus := true;
        }
      }
    }

    /** transcript()'s loop for an object that is not passed over. */
    method MeetObject(path: Path, o: Obj, parentMinus: bool) returns (enter: nat)
      requires Valid() && MayReach(In(), evs, path, parentMinus) && !PassedOver(In(), path, parentMinus)
      requires o == (if path in fs then fs[path] else ABSENT) && !fsMinus
      modifies this, stack
      ensures Valid() && Met(In(), old(evs), evs, path) && enter == EnterFor(In(), path)
      ensures fsMinus == if cfg.editPath == Applicable then path !in view else |evs| > |old(evs)| + 1 || path !in fs
    {
      ghost var before := evs;
      KeptInPathOrder(In(), evs);
      CallNotFound(In(), evs, path, parentMinus);
      var b := MoveTran(Some(path));
      ghost var mid := evs;
      ReachThenMeet(In(), before, mid, stack.Srcs(), b, path, parentMinus);
      MetBy(In(), before, mid, path);
      enter := Compare(b, path, o);
    }

    /** transcript(): merge one object of the walk, `o`, or one that radstat did not find. */
    method Transcript(path: Path, o: Obj, parentMinus: bool) returns (enter: nat)
      requires Valid() && MayReach(In(), evs, path, parentMinus)
      requires o == if path in fs then fs[path] else ABSENT
      modifies this, stack
      ensures Valid()
      ensures PassedOver(In(), path, parentMinus) ==> evs == old(evs) && enter == 0
      ensures !PassedOver(In(), path, parentMinus) ==>
                Met(In(), old(evs), evs, path) && enter == EnterFor(In(), path)
      ensures !PassedOver(In(), path, parentMinus) ==>
                fsMinus == if cfg.editPath == Applicable then path !in view else |evs| > |old(evs)| + 1 || path !in fs
    {
      fsMinus := false;
      if stack.scope.excluded(path) && !parentMinus && path !in specials {
        var _ := Peek();
        return 0;
      }
      enter := MeetObject(path, o, parentMinus);
    }

    /** Names at or below `path`: what is left to fs_walk there. */
    ghost function Subtree(path: Path): set<Path> {
      set q | q in fs.Keys + view.Keys && Under(q, path)
    }

    /** radstat; a missing object comes back as type 'X'. */
    function Radstat(path: Path): Obj {
      if path in fs then fs[path] else ABSENT
    }

    /** fs_walk. */
    method FsWalk(path: Path, o: Obj, parentMinus: bool)
      requires Valid() && MayReach(In(), evs, path, parentMinus) && o == Radstat(path)
      modifies this, stack
      ensures Valid() && Walked(In(), old(evs), evs, path)
      ensures !PassedOver(In(), path, parentMinus) ==> !After(evs, path)
      decreases Subtree(path), 2
    {
      ghost var evs0 := evs;
      var enter := Transcript(path, o, parentMinus);
      if enter == 0 {
        NotEntered(In(), evs0, evs, path, parentMinus);
      } else if enter == 1 {
        EnterDir(path, parentMinus, evs0);
      } else {
        EnterNegative(path, parentMinus, evs0);
      }
    }

    /** Case 1 of fs_walk: the entries of the directory just met. */
    method EnterDir(path: Path, parentMinus: bool, ghost evs0: seq<Event>)
      requires Valid() && MayReach(In(), evs0, path, parentMinus) && !PassedOver(In(), path, parentMinus)
      requires Met(In(), evs0, evs, path) && EnterFor(In(), path) == 1
      requires fsMinus == if cfg.editPath == Applicable then path !in view else |evs| > |evs0| + 1 || path !in fs
      modifies this, stack
      ensures Valid() && Walked(In(), evs0, evs, path) && !After(evs, path)
      decreases Subtree(path), 1, 1
    {
      ghost var evs1 := evs;
      DirMet(evs0, path, parentMinus);
      WalkEntries(path, fsMinus);
      WalkedWhole(In(), evs0, evs1, evs, path);
    }

    /** Case 2 of fs_walk: what the transcripts list below the negative directory just met. */
    method EnterNegative(path: Path, parentMinus: bool, ghost evs0: seq<Event>)
      requires Valid() && MayReach(In(), evs0, path, parentMinus) && !PassedOver(In(), path, parentMinus)
      requires Met(In(), evs0, evs, path) && EnterFor(In(), path) == 2
      modifies this, stack
      ensures Valid() && Walked(In(), evs0, evs, path) && !After(evs, path)
      decreases Subtree(path), 1, 1
    {
      ghost var evs1 := evs;
      MetIsJustMet(In(), evs0, evs, path, parentMinus);
      WalkListed(path, parentMinus);
      WalkedWhole(In(), evs0, evs1, evs, path);
    }

    /** A directory that is walked next has just been met, and fs_minus is whether the patterns
        are off in it. */
    lemma {:induction false} DirMet(evs0: seq<Event>, path: Path, parentMinus: bool)
      requires Recorded() && GoodInput() && MayReach(In(), evs0, path, parentMinus)
      requires (path in fs || path in view) && Met(In(), evs0, evs, path) && EnterFor(In(), path) == 1
      requires fsMinus == if cfg.editPath == Applicable then path !in view else |evs| > |evs0| + 1 || path !in fs
      ensures Entered(In(), evs, path) && JustMet(In(), evs, path) && (fsMinus <==> Spares(In(), evs, path))
    {
      MetIsJustMet(In(), evs0, evs, path, parentMinus);
      MinusAfterMet(In(), evs0, evs, path, parentMinus);
      assert HasVisited(evs, path);
    }

    /** fs_walk in a directory it reads. */
    method WalkEntries(path: Path, delParent: bool)
      requires Valid() && Entered(In(), evs, path) && JustMet(In(), evs, path)
      requires delParent <==> Spares(In(), evs, path)
      modifies this, stack
      ensures Valid() && Walked(In(), old(evs), evs, path) && !After(evs, path)
      decreases Subtree(path), 1, 0
    {
      TreeCanonical(fs, stack.scope.prefix, path);
      var list := ReadDir(fs, path);
      ghost var evs0 := evs;
      DirTurnFirst(In(), evs0, path, list, delParent);
      WalkNames(path, list, delParent, evs0);
      DirWalked(In(), evs0, evs, path, list, delParent);
    }

    /** Its loop over the names read. */
    method WalkNames(path: Path, list: seq<Path>, delParent: bool, ghost evs0: seq<Event>)
      requires Valid() && Entered(In(), evs0, path) && Listing(fs, path, list)
      requires DirTurn(In(), evs0, evs, path, list, 0, delParent) && (delParent <==> Spares(In(), evs0, path))
      modifies this, stack
      ensures Valid() && DirTurn(In(), evs0, evs, path, list, |list|, delParent)
      decreases Subtree(path), 0, 1
    {
      var i := 0;
      while i < |list|
        invariant Valid() && DirTurn(In(), evs0, evs, path, list, i, delParent)
      {
        WalkEntry(path, list, i, delParent, evs0);
        i := i + 1;
      }
    }

    /** One turn of its loop over the names. */
    method WalkEntry(path: Path, list: seq<Path>, i: nat, delParent: bool, ghost evs0: seq<Event>)
      requires Valid() && Entered(In(), evs0, path) && Listing(fs, path, list) && i < |list|
      requires DirTurn(In(), evs0, evs, path, list, i, delParent) && (delParent <==> Spares(In(), evs0, path))
      modifies this, stack
      ensures Valid() && DirTurn(In(), evs0, evs, path, list, i + 1, delParent)
      decreases Subtree(path), 0, 0
    {
      TreeCanonical(fs, stack.scope.prefix, path);
      var e := Join(path, list[i]);
      ghost var before := evs;
      SmallerSubtree(path, list[i]);
      FsWalk(e, fs[e], delParent);
      DirTurnNext(In(), evs0, before, evs, path, list, i, delParent);
    }

    /** fs_walk in a negative directory: the names the transcripts list, each looked up, and
        no others. Nothing is left there. */
    method WalkListed(path: Path, parentMinus: bool)
      requires Valid() && NegDir(In(), path) && JustMet(In(), evs, path)
      modifies this, stack
      ensures Valid() && Walked(In(), old(evs), evs, path) && !After(evs, path)
      decreases Subtree(path), 1, 0
    {
      ghost var c, evs0 := In(), evs;
      NegEntered(c, evs, path);
      var b := Peek();
      while !stack.trans[b].eof && Under(stack.trans[b].pinfo.path, path)
        invariant Valid() && Next(b) && NegTurn(c, evs0, evs, path)
        decreases LeftPaths(c, evs)
      {
        WalkListedOne(path, b, parentMinus, evs0);
        b := Peek();
      }
      KeptInPathOrder(c, evs);
      NegWalked(c, evs0, evs, stack.Srcs(), b, path);
    }

    /** One turn of its loop. */
    method WalkListedOne(path: Path, b: nat, parentMinus: bool, ghost evs0: seq<Event>)
      requires Valid() && Next(b) && NegDir(In(), path) && NegTurn(In(), evs0, evs, path)
      requires !stack.trans[b].eof && Under(stack.trans[b].pinfo.path, path)
      modifies this, stack
      ensures Valid() && NegTurn(In(), evs0, evs, path)
      ensures LeftPaths(In(), evs) < LeftPaths(In(), old(evs))
      decreases Subtree(path), 0, 0
    {
      var t := stack.trans[b].pinfo.path;
      ghost var before := evs;
      KeptInPathOrder(In(), evs);
      ListedReached(In(), evs0, evs, path, t, parentMinus);
      assert Admitted(In(), t);
      DeeperSubtree(path, t);
      FsWalk(t, Radstat(t), parentMinus);
      NegTurnNext(In(), evs0, before, evs, path, t);
    }

    lemma {:induction false} SmallerSubtree(d: Path, n: Path)
      requires Canonical(d) && IsName(n) && d in fs
      ensures Subtree(Join(d, n)) < Subtree(d)
    {
      JoinIsEntry(d, n);
      EntryUnder(Join(d, n), d);
      DeeperSubtree(d, Join(d, n));
    }

    lemma {:induction false} DeeperSubtree(d: Path, e: Path)
      requires Under(e, d) && e != d && |e| > 0 && (d in fs || d in view)
      ensures Subtree(e) < Subtree(d)
    {
      UnderReflexive(d);
      forall q | q in Subtree(e)
        ensures q in Subtree(d)
      {
        UnderTransitive(q, e, d);
      }
      if d in Subtree(e) && |d| > 0 {
        UnderAntisymmetric(d, e);
      }
      assert d in Subtree(d);
    }

    /** fsdiff(): the walk from the root, and then transcript_free. */
    method Run()
      requires Valid() && evs == []
      modifies this, stack
      ensures Valid() && Exact(In(), evs)
    {
      RootReached(In());
      var root := stack.scope.prefix;
      FsWalk(root, Radstat(root), false);
      ghost var walked := evs;
      KeptInPathOrder(In(), evs);
      EndNotFound(In(), evs);
      TranscriptEnd();
      WholeRunExact(In(), walked, evs);
    }
  }
}
