/** Inputs on which one diff and one apply do not do, and on which a diff reports an object as
    missing that is there: what the conditions of the main results shut out. */
module Limits {
  import opened Options
  import opened Paths
  import opened Entries
  import opened Trees
  import opened Views
  import opened Journal
  import opened WalkRules
  import opened Updates
  import opened Lapplies
  import opened Buffers
  import opened Convergence

  const A: Path := [SEP, 'a']
  const B: Path := [SEP, 'b']

  function Plainly(kind: Kind): Obj {
    Obj(kind, 0x1ED, 0, 0, 0, 0, NOCKSUM, [], (0, 0))
  }

  const DIR := Plainly(Dir)
  const FILE := Plainly(File)

  const NORMAL := Source(1, Positive, "n.T")
  const SPECIAL := Source(0, Special, "special.T")

  const CFG := Config(Applicable, false, false, true, false)

  /** lapply as root: new objects are root's. */
  function RootHost(server: Request -> Option<Content>): Host {
    Host(CFG, 0, 0, 0, 0x1FF, mode => mode, true, server)
  }

  const NOBODY: Request -> Option<Content> := r => None

  lemma {:induction false} ShortTree(m: Fs)
    requires ROOT in m && m[ROOT].kind == Dir && forall p :: p in m ==> p == ROOT || p == A || p == B
    ensures TreeShaped(m, ROOT)
  {
    assert EntryOf(A, ROOT) && EntryOf(B, ROOT);
  }

  lemma {:induction false} Serving(c: Input, h: Host)
    requires c.cfg == h.cfg == CFG && c.scope.prefix == ROOT
    requires ROOT in c.fs && c.fs[ROOT] == DIR && ROOT in c.view && c.view[ROOT].obj == DIR
    requires forall p :: p in c.fs ==> (p == ROOT || p == A || p == B) && c.fs[p].kind != Absent
    requires forall p :: p in c.view ==> p == ROOT || p == A || p == B
    requires forall p :: p in c.view ==> CanBring(c, h, p) && (c.view[p].src == NORMAL || c.view[p].src == SPECIAL)
    ensures Servable(c, h)
  {
    ShortTree(c.fs);
    ShortTree(ViewTree(c));
    forall p, q | p in c.view && q in c.view
      ensures ToldApart(c, p, q)
    {
    }
  }

  function Owned(target: byte): Obj {
    Plainly(SymLink).(uid := 7, gid := 7, link := [target])
  }

  function Inputs(fs: Fs, view: map<Path, Entry>): Input {
    Input(CFG, Scope(p => false, ROOT), {}, fs, view)
  }

  function StaleInput(): Input {
    Inputs(map[ROOT := DIR, A := Owned('x')],
           map[ROOT := Entry(NORMAL, false, DIR), A := Entry(NORMAL, false, Owned('y'))])
  }

  lemma {:induction false} StaleIsGood(c: Input)
    requires c == StaleInput()
    ensures Good(c, RootHost(NOBODY))
  {
    Serving(c, RootHost(NOBODY));
    OneSortIsMet(c, RootHost(NOBODY));
  }

  /** A link whose target is wrong and whose owner is right: lapply makes it anew as root and
      does not call lchown, for the old link's owner was right. */
  lemma {:induction false} StaleOwner() returns (c: Input, h: Host)
    ensures Good(c, h) && !LinksKept(c, h)
  {
    h := RootHost(NOBODY);
    c := StaleInput();
    StaleIsGood(c);
    NotKept(c, h);
  }

  lemma {:induction false} NotKept(c: Input, h: Host)
    requires c.cfg == CFG && h == RootHost(NOBODY)
    requires A in c.fs && c.fs[A] == Owned('x') && A in c.view && c.view[A] == Entry(NORMAL, false, Owned('y'))
    ensures !LinkKeptAt(c, h, A)
  {
    assert Owned('x').link[0] != Owned('y').link[0];
  }

  /** Between "/a" and "/b" there is no other name. */
  lemma {:induction false} ThenB(c: Input)
    requires Known(c, B) && !AlreadySame(c, B) && forall p :: Known(c, p) ==> p == ROOT || p == A || p == B
    ensures IsNext(c, A, B)
  {
    assert A[1] != B[1];
    assert LtFrom(A, B, 1);
    forall q | HasLine(c, q)
      ensures !(Lt(A, q) && Lt(q, B))
    {
      LtIrreflexive(q);
      UnderAfter(A, ROOT);
      LtAsymmetric(ROOT, A);
    }
  }

  function BorrowedInput(): Input {
    Inputs(map[ROOT := DIR, A := DIR, B := FILE.(uid := 7, gid := 7)],
           map[ROOT := Entry(NORMAL, false, DIR), A := Entry(NORMAL, false, Owned('y'))])
  }

  /** A directory that makes way for a link: the link is made when the next line is read, and
      lchown is not called, for the object of that line has the owner the link should have. */
  lemma {:induction false} BorrowedOwner() returns (c: Input, h: Host)
    ensures Good(c, h) && !LinksKept(c, h)
  {
    h := RootHost(NOBODY);
    c := BorrowedInput();
    assert A[1] != B[1];
    Serving(c, h);
    OneSortIsMet(c, h);
    ThenB(c);
    assert Replaced(c, A);
    BufferForNext(c, h, A, B);
    assert !LinkKeptAt(c, h, A);
  }

  /** The server knows the file "/a" of "n.T" and the special file "/b". */
  const SERVES: Request -> Option<Content> :=
    r => if r == FileOf("n.T", A) || r == SpecialOf(B) then Some(Content(0, NOCKSUM)) else None

  const OFA := Entry(NORMAL, false, FILE)
  const OFB := Entry(SPECIAL, false, FILE)

  function WrongInput(): Input {
    Inputs(map[ROOT := DIR, A := DIR], map[ROOT := Entry(NORMAL, false, DIR), A := OFA, B := OFB])
  }

  /** A directory that makes way for a file of one transcript, followed by a line of the
      special one: when the directory is removed the file is asked for as a special file. */
  lemma {:induction false} WrongRequest() returns (c: Input, h: Host, evs: seq<Event>)
    ensures Servable(c, h) && !RequestsMet(c, h) && IsMerge(c, evs)
    ensures Lapply(h, c.fs, Printed(c.cfg, evs).out) == None
  {
    h := RootHost(SERVES);
    c := WrongInput();
    evs := [Compared(ROOT, DIR, Entry(NORMAL, false, DIR)), Compared(A, DIR, OFA), TranOnly(B, OFB)];
    WrongIsNotMet(c, h);
    MergeOfThree(c, evs);
    ApplySucceedsIff(c, h, evs);
  }

  lemma {:induction false} WrongIsNotMet(c: Input, h: Host)
    requires c == WrongInput() && h == RootHost(SERVES)
    ensures Servable(c, h) && !RequestsMet(c, h)
  {
    assert A[1] != B[1];
    Serving(c, h);
    ThenB(c);
    assert Replaced(c, A) && SpecialAt(c, A, B);
    assert !FetchedUnder(c, h, A, true);
    assert !FetchesAt(c, h, B);
  }

  lemma {:induction false} MergeOfThree(c: Input, evs: seq<Event>)
    requires c == WrongInput()
    requires evs == [Compared(ROOT, DIR, Entry(NORMAL, false, DIR)), Compared(A, DIR, OFA), TranOnly(B, OFB)]
    ensures IsMerge(c, evs)
  {
    assert A[1] != B[1];
    assert LtFrom(ROOT, A, 1) && LtFrom(A, B, 1) && LtFrom(ROOT, B, 1);
    assert Has(evs, evs[0].path) && Has(evs, evs[1].path) && Has(evs, evs[2].path);
    forall p | Known(c, p)
      ensures Has(evs, p)
    {
    }
  }

  /* ---- an object that is there and is not looked up ---- */

  const AX: Path := A + [SEP, 'x']
  const AXU: Path := AX + [SEP, 'u']
  const AY: Path := A + [SEP, 'y']

  const NEGATIVE := Source(2, Negative, "neg.T")

  lemma {:induction false} FourEntries()
    ensures EntryOf(A, ROOT) && EntryOf(AX, A) && EntryOf(AXU, AX) && EntryOf(AY, A)
    ensures !EntryOf(AXU, A) && !EntryOf(A, A) && !EntryOf(ROOT, A) && Lt(AX, AXU) && Lt(AXU, AY) && |AXU| == 6
    ensures A != ROOT && AX != A && AXU != AX && AXU != A && AY != AX && AY != AXU && AY != A
  {
    assert AX[|Slashed(A)|..] == ['x'] && AY[|Slashed(A)|..] == ['y'] && AXU[|Slashed(AX)|..] == ['u'];
    assert A[|Slashed(ROOT)|..] == ['a'];
    assert AXU[|Slashed(A)|..][1] == SEP;
    UnderAfter(AXU, AX);
    assert LtFrom(AXU, AY, 3) && LtFrom(AXU, AY, 2) && LtFrom(AXU, AY, 1);
  }

  /** The root is a negative directory and "/a" an ordinary one, in which "/a/x" is excluded
      and "/a/x/u" is listed; with `later` there is also "/a/y". */
  ghost predicate IsBelow(c: Input, later: bool) {
    && c.cfg == CFG && c.specials == {} && c.scope.prefix == ROOT
    && (forall p: Path {:trigger c.scope.excluded(p)} :: c.scope.excluded(p) <==> p == AX)
    && c.fs.Keys == {ROOT, A, AX, AXU} + (if later then {AY} else {})
    && c.fs[ROOT] == c.fs[A] == c.fs[AX] == DIR && c.fs[AXU] == FILE && (later ==> c.fs[AY] == FILE)
    && c.view.Keys == {ROOT, A, AXU}
    && c.view[ROOT] == Entry(NEGATIVE, false, DIR) && c.view[A] == Entry(NORMAL, false, DIR)
  }

  /** There is such an input. */
  lemma {:induction false} BelowInput(later: bool) returns (c: Input)
    ensures IsBelow(c, later)
  {
    FourEntries();
    var fs := map[ROOT := DIR, A := DIR, AX := DIR, AXU := FILE];
    c := Input(CFG, Scope(p => p == AX, ROOT), {}, if later then fs[AY := FILE] else fs,
               map[ROOT := Entry(NEGATIVE, false, DIR), A := Entry(NORMAL, false, DIR),
                   AXU := Entry(NORMAL, false, FILE)]);
  }

  lemma {:induction false} BelowTree(c: Input, later: bool)
    requires IsBelow(c, later)
    ensures InputOk(c)
  {
    FourEntries();
    forall p | p in c.fs && p != ROOT
      ensures HasDir(c.fs, p)
    {
      BelowDir(c, later, p);
    }
  }

  lemma {:induction false} BelowDir(c: Input, later: bool, p: Path)
    requires IsBelow(c, later) && p in c.fs && p != ROOT
    ensures HasDir(c.fs, p)
  {
    FourEntries();
    var d := if p == A then ROOT else if p == AXU then AX else A;
    assert d in c.fs && EntryOf(p, d) && c.fs[d].kind == Dir;
  }

  lemma {:induction false} OnlyA(c: Input, later: bool, evs: seq<Event>, d: Path)
    requires IsBelow(c, later) && Entered(c, evs, d) && !HasVisited(evs, AX)
    ensures d == A
  {
  }

  lemma {:induction false} TopMet(c: Input, later: bool, evs: seq<Event>)
    requires IsBelow(c, later) && Exact(c, evs)
    ensures HasVisited(evs, ROOT) && HasVisited(evs, A)
  {
    FourEntries();
    assert MayVisit(c, evs, ROOT);
    assert InNeg(c, evs, A, ROOT);
    forall d | Under(A, d) && d != A
      ensures !Entered(c, evs, d)
    {
      UnderAfter(A, d);
      UnderAfter(AX, A);
      LtIrreflexive(A);
    }
    assert LookedUpFor(c, evs, A, ROOT);
    assert MayVisit(c, evs, A);
  }

  lemma {:induction false} ExcludedNotMet(c: Input, later: bool, evs: seq<Event>)
    requires IsBelow(c, later) && Exact(c, evs) && HasVisited(evs, A)
    ensures !HasVisited(evs, AX)
  {
    FourEntries();
    BelowTree(c, later);
    assert Entered(c, evs, A) && Skippable(c, AX) && !Spares(c, evs, A);
    EntryMetIff(c, evs, A, AX);
  }

  lemma {:induction false} GoesOnIfLater(c: Input, later: bool, evs: seq<Event>)
    requires IsBelow(c, later)
    ensures GoesOn(c, evs, A, AXU) <==> later
  {
    FourEntries();
    LtAsymmetric(AX, AXU);
    LtIrreflexive(AXU);
    if later {
      assert ComesAfter(c, A, AXU, AY) && !Skippable(c, AY);
    }
  }

  /** "/a/x/u" is there and is listed below a negative directory. It is looked up if nothing
      comes after it in "/a"; if something does, it is reported as missing. */
  lemma {:induction false} MissedBelowExcluded(c: Input, later: bool, evs: seq<Event>)
    requires IsBelow(c, later) && Exact(c, evs)
    ensures AXU in c.fs && Has(evs, AXU) && (HasVisited(evs, AXU) <==> !later)
  {
    FourEntries();
    BelowTree(c, later);
    TopMet(c, later, evs);
    ExcludedNotMet(c, later, evs);
    GoesOnIfLater(c, later, evs);
    assert MayVisit(c, evs, AXU) <==> HasVisited(evs, AXU);
    if Led(c, evs, AXU) {
      var d :| Entered(c, evs, d) && EntryOf(AXU, d);
      OnlyA(c, later, evs, d);
    }
    forall d | Entered(c, evs, d)
      ensures d == A
    {
      OnlyA(c, later, evs, d);
    }
    assert LookedUpFor(c, evs, AXU, ROOT) <==> !later;
  }
}
