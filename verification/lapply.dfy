/** lapply.c: the streaming interpreter of edits, with its stack of directories that
    await rmdir. */
module Lapplies {
  import opened Options
  import opened Paths
  import opened Entries
  import opened Updates

  /** The line and the transcript name a directory carries that is to be replaced. */
  datatype Redo = Redo(sign: Sign, obj: Obj, tran: string)

  /** struct node: the directories to remove, the innermost first. */
  datatype Nodes = Empty | Node(path: Path, redo: Option<Redo>, next: Nodes)

  /** What is reported of one line: when a directory leaves the list (`late`) or at once,
      that the object was deleted, and that it was created or updated. */
  datatype Act = Act(path: Path, late: bool, deleted: bool, updated: bool)

  /** The variables of main(). */
  datatype State = State(fs: Fs, head: Nodes, prepath: Path, tran: string, special: bool, st: Stat,
                         change: bool, log: seq<Act>)

  function Start(m: Fs): State {
    State(m, Empty, [], "", false, NOSTAT, false, [])
  }

  /* ---- do_line ---- */

  function RequestFor(special: bool, tran: string, p: Path): Request {
    if special then SpecialOf(p) else FileOf(tran, p)
  }

  /** The file retr leaves under a temporary name, if the server's answer is acceptable. */
  function Retrieve(h: Host, special: bool, tran: string, p: Path, t: Obj): Option<Obj> {
    if t.kind != File || (h.cfg.cksum && t.cksum == NOCKSUM) then None
    else
      match h.server(RequestFor(special, tran, p))
      case None => None
      case Some(c) =>
        if (t.size >= 0 && c.size != t.size) || (h.cfg.cksum && c.cksum != t.cksum) then None
        else Some(NewObj(h, File, 0x180).(size := c.size, cksum := c.cksum))
  }

  /** The content the line `t` asks for, as far as it is looked at. */
  predicate AsTheLineSays(cfg: Config, content: Content, t: Obj) {
    (t.size >= 0 ==> content.size == t.size) && (cfg.cksum ==> t.cksum != NOCKSUM && content.cksum == t.cksum)
  }

  function DoLine(h: Host, s: State, sign: Sign, p: Path, t: Obj, tran: string, present: bool): (r: Option<State>)
    ensures r.Some? ==> r.value == s.(fs := r.value.fs, st := r.value.st)
  {
    if sign == Plus then
      match Retrieve(h, s.special, tran, p, t)
      case None => None
      case Some(temp) =>
        match Install(s.fs, p, Attributed(h, Dated(temp, StatOf(temp), t), StatOf(temp), t, false))
        case None => None
        case Some(m) => Some(s.(fs := m, st := StatOf(temp)))
    else if present && p !in s.fs then None
    else
      match Update(h, s.fs, p, present, if present then StatOf(s.fs[p]) else s.st, t)
      case None => None
      case Some((m, st)) => Some(s.(fs := m, st := st))
  }

  /* ---- the remove list ---- */

  /** rmdir the first directory of the list, and then do the line it carries. */
  function RemoveHead(h: Host, s: State): (r: Option<State>)
    requires s.head.Node?
    ensures r.Some? ==>
              r.value == s.(fs := r.value.fs, st := r.value.st, change := r.value.change, head := s.head.next,
                            log := s.log + [Act(s.head.path, true, true, s.head.redo.Some?)])
  {
    var n := s.head;
    match Rmdir(s.fs, n.path)
    case None => None
    case Some(m) =>
      var s1 := s.(fs := m, head := n.next, log := s.log + [Act(n.path, true, true, n.redo.Some?)]);
      match n.redo
      case None => Some(s1)
      case Some(d) =>
        match DoLine(h, s1, d.sign, n.path, d.obj, d.tran, false)
        case None => None
        case Some(s2) => Some(s2.(change := true))
  }

  /** Remove directories until `p` lies in the first one. */
  function PopOutside(h: Host, s: State, p: Path): (r: Option<State>)
    ensures r.Some? ==> r.value.prepath == s.prepath && r.value.tran == s.tran && r.value.special == s.special
    decreases s.head
  {
    if s.head.Empty? || Under(p, s.head.path) then Some(s)
    else
      match RemoveHead(h, s)
      case None => None
      case Some(s1) => PopOutside(h, s1, p)
  }

  function PopAll(h: Host, s: State): Option<State>
    decreases s.head
  {
    if s.head.Empty? then Some(s)
    else
      match RemoveHead(h, s)
      case None => None
      case Some(s1) => PopAll(h, s1)
  }

  /* ---- one line ---- */

  /** lstat fails with ENOTDIR: something above `p` is there and is not a directory. */
  predicate NotDirAbove(m: Fs, p: Path) {
    exists x :: x in m && x != p && Under(p, x) && m[x].kind != Dir
  }

  function KindAt(m: Fs, p: Path): Kind {
    if p in m then m[p].kind else Absent
  }

  function StatAt(m: Fs, p: Path): Stat {
    if p in m then StatOf(m[p]) else NOSTAT
  }

  /** The line is for another type of object than the one found there. */
  predicate Differs(found: Kind, t: Obj) {
    found != Absent && found != t.kind
  }

  /** The checks before a line is acted on. */
  predicate Acceptable(s: State, sign: Sign, p: Path) {
    && (sign == Plus ==> s.tran != "")
    && (s.prepath != [] ==> Lt(s.prepath, p))
    && !(p !in s.fs && NotDirAbove(s.fs, p))
  }

  function Push(s: State, p: Path, redo: Option<Redo>): State {
    s.(head := Node(p, redo, s.head))
  }

  function Done(s: State, p: Path, deleted: bool): State {
    s.(change := true, log := s.log + [Act(p, false, deleted, true)])
  }

  /** An object that is not a directory is unlinked, and replaced unless the line has a '-'. */
  function RemoveThenDo(h: Host, s: State, sign: Sign, p: Path, t: Obj): Option<State> {
    match Unlink(s.fs, p)
    case None => None
    case Some(m) =>
      var s1 := s.(fs := m);
      if sign == Minus then Some(s1.(log := s1.log + [Act(p, false, true, false)]))
      else
        match DoLine(h, s1, sign, p, t, s1.tran, false)
        case None => None
        case Some(s2) => Some(Done(s2, p, true))
  }

  /** What a line does once the list has been cut back to the directories around `p`;
      `found` is what was at `p` when the line was read. */
  function ActOn(h: Host, s: State, sign: Sign, p: Path, t: Obj, found: Kind): Option<State> {
    if sign == Minus || Differs(found, t) then
      if found == Dir then Some(Push(s, p, if Differs(found, t) then Some(Redo(sign, t, s.tran)) else None))
      else RemoveThenDo(h, s, sign, p, t)
    else
      match DoLine(h, s, sign, p, t, s.tran, found != Absent)
      case None => None
      case Some(s1) => Some(Done(s1, p, false))
  }

  function Looked(s: State, p: Path): State {
    s.(prepath := p, st := StatAt(s.fs, p))
  }

  function StepEdit(h: Host, s: State, sign: Sign, p: Path, t: Obj): Option<State> {
    if !Acceptable(s, sign, p) then None
    else
      match PopOutside(h, Looked(s, p), p)
      case None => None
      case Some(s1) => ActOn(h, s1, sign, p, t, KindAt(s.fs, p))
  }

  /** Lines at which the program stops: a download before any transcript is named, a path not
      after the one before it, and one below something that is no directory. */
  lemma {:induction false} RefusesLine(h: Host, s: State, sign: Sign, p: Path, t: Obj, x: Path)
    ensures sign == Plus && s.tran == "" ==> StepEdit(h, s, sign, p, t) == None
    ensures s.prepath != [] && (p == s.prepath || Lt(p, s.prepath)) ==> StepEdit(h, s, sign, p, t) == None
    ensures p !in s.fs && x in s.fs && s.fs[x].kind != Dir && Under(p, x) && x != p ==>
              StepEdit(h, s, sign, p, t) == None
  {
    if p == s.prepath {
      LtIrreflexive(p);
    } else if Lt(p, s.prepath) {
      LtAsymmetric(p, s.prepath);
    }
  }

  function Step(h: Host, s: State, line: OutLine): Option<State> {
    match line
    case Header(name) => Some(s.(tran := name, special := name == "special.T"))
    case Edit(sign, p, t) => StepEdit(h, s, sign, p, t)
  }

  /** The lines of the input, one after the other. */
  function RunLines(h: Host, m: Fs, ls: seq<OutLine>): Option<State> {
    if |ls| == 0 then Some(Start(m))
    else
      match RunLines(h, m, ls[..|ls| - 1])
      case None => None
      case Some(s) => Step(h, s, ls[|ls| - 1])
  }

  /** A whole run; None is an error exit. */
  function Lapply(h: Host, m: Fs, ls: seq<OutLine>): Option<State> {
    match RunLines(h, m, ls)
    case None => None
    case Some(s) => PopAll(h, s)
  }

  /* ---- the program itself ---- */

  class Lapplier {
    const host: Host
    var fs: Fs
    var head: Nodes
    var prepath: Path
    var tran: string
    var special: bool
    var st: Stat
    var change: bool
    ghost var log: seq<Act>

    constructor (host: Host, fs: Fs)
      ensures Now() == Start(fs) && this.host == host
    {
      this.host, this.fs, head, prepath, tran := host, fs, Empty, [], "";
      special, st, change, log := false, NOSTAT, false, [];
    }

    ghost function Now(): State
      reads this
    {
      State(fs, head, prepath, tran, special, st, change, log)
    }

    /** retr: the downloaded file, which is as the line says in size and, with -c, in checksum;
        or nothing, when the server has nothing or what it sends is not so. */
    method Retr(lineTran: string, p: Path, t: Obj) returns (r: Option<Obj>)
      requires t.kind == File
      ensures r == Retrieve(host, special, lineTran, p, t)
      ensures r.Some? ==> r.value.kind == File && AsTheLineSays(host.cfg, Content(r.value.size, r.value.cksum), t)
      ensures r.Some? ==> r.value.uid == host.uid && r.value.gid == host.gid && r.value.mode == host.created(0x180)
      ensures var answer := host.server(if special then SpecialOf(p) else FileOf(lineTran, p));
              if r.Some? then answer == Some(Content(r.value.size, r.value.cksum))
              else answer.Some? ==> !AsTheLineSays(host.cfg, answer.value, t)
    {
      if host.cfg.cksum && t.cksum == NOCKSUM { return None; }
      var answer := host.server(if special then SpecialOf(p) else FileOf(lineTran, p));
      if answer.None? { return None; }
      var c := answer.value;
      if t.size >= 0 && c.size != t.size { return None; }
      if host.cfg.cksum && c.cksum != t.cksum { return None; }
      r := Some(NewObj(host, File, 0x180).(size := c.size, cksum := c.cksum));
    }

    /** do_line. */
    method DoIt(sign: Sign, p: Path, t: Obj, lineTran: string, present: bool) returns (ok: bool)
      modifies this`fs, this`st
      ensures ok ==> Some(Now()) == DoLine(host, old(Now()), sign, p, t, lineTran, present)
      ensures !ok ==> DoLine(host, old(Now()), sign, p, t, lineTran, present) == None
    {
      if sign == Plus {
        if t.kind != File { return false; }
        var got := Retr(lineTran, p, t);
        if got.None? { return false; }
        var temp := got.value;
        st := StatOf(temp);
        if t.mtime != st.mtime { temp := temp.(mtime := t.mtime); }
        var installed := Install(fs, p, Attributed(host, temp, st, t, false));
        if installed.None? { return false; }
        fs := installed.value;
      } else {
        if present {
          if p !in fs { return false; }
          st := StatOf(fs[p]);
        }
        var r := UpdateAt(host, fs, p, present, st, t);
        if r.None? { return false; }
        fs, st := r.value.0, r.value.1;
      }
      ok := true;
    }

    /** "remove head". */
    method Remove() returns (ok: bool)
      requires head.Node?
      modifies this`fs, this`head, this`st, this`change, this`log
      ensures head == old(head.next)
      ensures ok ==> Some(Now()) == RemoveHead(host, old(Now()))
      ensures !ok ==> RemoveHead(host, old(Now())) == None
    {
      var node := head;
      head := node.next;
      var removed := Rmdir(fs, node.path);
      if removed.None? { return false; }
      fs := removed.value;
      log := log + [Act(node.path, true, true, node.redo.Some?)];
      if node.redo.Some? {
        ok := DoIt(node.redo.value.sign, node.path, node.redo.value.obj, node.redo.value.tran, false);
        if !ok { return; }
        change := true;
      }
      ok := true;
    }

    /** The loops over the list before a line at `p` is acted on. */
    method CutBack(p: Path) returns (ok: bool)
      modifies this`fs, this`head, this`st, this`change, this`log
      ensures ok ==> Some(Now()) == PopOutside(host, old(Now()), p)
      ensures !ok ==> PopOutside(host, old(Now()), p) == None
    {
      while head.Node? && !Under(p, head.path)
        invariant PopOutside(host, Now(), p) == PopOutside(host, old(Now()), p)
        decreases head
      {
        ok := Remove();
        if !ok { return; }
      }
      ok := true;
    }

    /** unlink, and the line done unless it has a '-'. */
    method Replace(sign: Sign, p: Path, t: Obj) returns (ok: bool)
      modifies this
      ensures ok ==> Some(Now()) == RemoveThenDo(host, old(Now()), sign, p, t)
      ensures !ok ==> RemoveThenDo(host, old(Now()), sign, p, t) == None
    {
      var gone := Unlink(fs, p);
      if gone.None? { return false; }
      fs := gone.value;
      if sign == Minus {
        log := log + [Act(p, false, true, false)];
        return true;
      }
      ok := DoIt(sign, p, t, tran, false);
      if ok {
        change := true;
        log := log + [Act(p, false, true, true)];
      }
    }

    /** The rest of main's loop once the list has been cut back. */
    method Apply(sign: Sign, p: Path, t: Obj, fstype: Kind) returns (ok: bool)
      modifies this
      ensures ok ==> Some(Now()) == ActOn(host, old(Now()), sign, p, t, fstype)
      ensures !ok ==> ActOn(host, old(Now()), sign, p, t, fstype) == None
    {
      var present := fstype != Absent;
      if sign == Minus || (present && fstype != t.kind) {
        if fstype == Dir {
          head := Node(p, if present && fstype != t.kind then Some(Redo(sign, t, tran)) else None, head);
          return true;
        }
        ok := Replace(sign, p, t);
        return;
      }
      ok := DoIt(sign, p, t, tran, present);
      if ok {
        change := true;
        log := log + [Act(p, false, false, true)];
      }
    }

    /** The body of main's loop for a line that is not a transcript's name. */
    method Edits(sign: Sign, p: Path, t: Obj) returns (ok: bool)
      modifies this
      ensures ok ==> Some(Now()) == StepEdit(host, old(Now()), sign, p, t)
      ensures !ok ==> StepEdit(host, old(Now()), sign, p, t) == None
    {
      if sign == Plus && tran == "" { return false; }
      if prepath != [] && !Lt(prepath, p) { return false; }
      if p !in fs && NotDirAbove(fs, p) { return false; }
      var fstype := if p in fs then fs[p].kind else Absent;
      st := if p in fs then StatOf(fs[p]) else NOSTAT;
      prepath := p;
      assert Now() == Looked(old(Now()), p);
      ok := CutBack(p);
      if ok {
        ok := Apply(sign, p, t, fstype);
      }
    }

    method Line(line: OutLine) returns (ok: bool)
      modifies this
      ensures ok ==> Some(Now()) == Step(host, old(Now()), line)
      ensures !ok ==> Step(host, old(Now()), line) == None
    {
      match line
      case Header(name) =>
        tran := name;
        special := name == "special.T";
        ok := true;
      case Edit(sign, p, t) =>
        ok := Edits(sign, p, t);
    }

    /** main(), after its options. */
    method Run(ls: seq<OutLine>) returns (ok: bool)
      requires Now() == Start(fs)
      modifies this
      ensures ok ==> Some(Now()) == Lapply(host, old(fs), ls)
      ensures !ok ==> Lapply(host, old(fs), ls) == None
    {
      var i := 0;
      while i < |ls|
        invariant 0 <= i <= |ls|
        invariant RunLines(host, old(fs), ls[..i]) == Some(Now())
      {
        RunLinesNext(host, old(fs), ls, i);
        ok := Line(ls[i]);
        if !ok {
          RunLinesFail(host, old(fs), ls, i + 1);
          return;
        }
        i := i + 1;
      }
      assert ls[..i] == ls;
      while head.Node?
        invariant PopAll(host, Now()) == Lapply(host, old(fs), ls)
        decreases head
      {
        ok := Remove();
        if !ok { return; }
      }
      ok := true;
    }
  }

  lemma {:induction false} RunLinesNext(h: Host, m: Fs, ls: seq<OutLine>, i: nat)
    requires i < |ls|
    ensures RunLines(h, m, ls[..i + 1]) ==
            match RunLines(h, m, ls[..i]) case None => None case Some(s) => Step(h, s, ls[i])
  {
    assert ls[..i + 1][..i] == ls[..i];
  }

  lemma {:induction false} RunLinesFail(h: Host, m: Fs, ls: seq<OutLine>, i: nat)
    requires i <= |ls| && RunLines(h, m, ls[..i]) == None
    ensures RunLines(h, m, ls) == None
    decreases |ls| - i
  {
    if i < |ls| {
      RunLinesNext(h, m, ls, i);
      RunLinesFail(h, m, ls, i + 1);
    } else {
      assert ls[..i] == ls;
    }
  }
}
