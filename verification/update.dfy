/** update.c: what one applied line does to one object. The system calls are partial
    functions on filesystems: None is an error return. */
module Updates {
  import opened Options
  import opened Paths
  import opened Entries
  import opened Trees

  type Fs = map<Path, Obj>

  /** The fields of struct stat that lapply compares. */
  datatype Stat = Stat(uid: int, gid: int, mode: nat, mtime: int, rdev: (int, int))

  const NOSTAT := Stat(0, 0, 0, 0, (0, 0))

  function StatOf(o: Obj): Stat {
    Stat(o.uid, o.gid, o.mode, o.mtime, o.rdev)
  }

  datatype Request = FileOf(tran: string, path: Path) | SpecialOf(path: Path)

  datatype Content = Content(size: nat, cksum: string)

  /** Where lapply runs: its options and libc, the ids and the mode a new object gets,
      whether chown takes the set-id bits away, and what the server sends. */
  datatype Host = Host(cfg: Config, uid: int, gid: int, now: int, linkMode: nat, created: nat -> nat,
                       clearsIds: bool, server: Request -> Option<Content>)

  /* ---- system calls ---- */

  function Unlink(m: Fs, p: Path): Option<Fs> {
    if p in m && m[p].kind != Dir then Some(m - {p}) else None
  }

  function Rmdir(m: Fs, p: Path): Option<Fs> {
    if p in m && m[p].kind == Dir && forall q :: q in m ==> !EntryOf(q, p) then Some(m - {p}) else None
  }

  /** mkdir, symlink, mkfifo and mknod. */
  function Create(m: Fs, p: Path, o: Obj): Option<Fs> {
    if p !in m && HasDir(m, p) then Some(m[p := o]) else None
  }

  /** Rename a downloaded file over whatever is not a directory. */
  function Install(m: Fs, p: Path, o: Obj): Option<Fs> {
    if HasDir(m, p) && (p in m ==> m[p].kind != Dir) then Some(m[p := o]) else None
  }

  function Link(m: Fs, target: Path, p: Path): Option<Fs> {
    if target in m && m[target].kind != Dir then Create(m, p, m[target]) else None
  }

  /** S_ISUID | S_ISGID. */
  function IdBits(mode: nat): nat {
    mode / 0x400 % 4
  }

  function ChownObj(h: Host, o: Obj, uid: int, gid: int): Obj {
    o.(uid := uid, gid := gid,
       mode := if h.clearsIds && o.kind != Dir then o.mode - o.mode / 0x400 % 4 * 0x400 else o.mode)
  }

  /** The attributes of a directory entry this process makes. */
  function NewObj(h: Host, kind: Kind, mode: nat): Obj {
    Obj(kind, h.created(mode), h.uid, h.gid, h.now, 0, NOCKSUM, [], (0, 0))
  }

  function NewLink(h: Host, target: Path): Obj {
    NewObj(h, SymLink, 0).(mode := h.linkMode, link := target)
  }

  /* ---- attributes ---- */

  predicate OwnerDiffers(st: Stat, t: Obj) {
    t.uid != st.uid || t.gid != st.gid
  }

  /** chmod comes after chown and is also needed when chown took set-id bits away. `typed`
      says that the mode compared carries the file type, so that it never matches. */
  predicate ModeDiffers(st: Stat, t: Obj, typed: bool) {
    typed || t.mode != Masked(st.mode) || (OwnerDiffers(st, t) && IdBits(t.mode) != 0)
  }

  /** The object after the chown and chmod that `st` calls for. */
  function Attributed(h: Host, o: Obj, st: Stat, t: Obj, typed: bool): Obj {
    var o1 := if OwnerDiffers(st, t) then ChownObj(h, o, t.uid, t.gid) else o;
    if ModeDiffers(st, t, typed) then o1.(mode := Masked(t.mode)) else o1
  }

  /** The tail of update(): chown and chmod at a path, where `st` calls for them. */
  function SetAttributes(h: Host, m: Fs, p: Path, st: Stat, t: Obj, typed: bool): Option<Fs> {
    if p in m then Some(m[p := Attributed(h, m[p], st, t, typed)])
    else if OwnerDiffers(st, t) || ModeDiffers(st, t, typed) then None
    else Some(m)
  }

  /** Attributes of a symbolic link: lchown and lchmod, where libc has them. */
  function LinkAttributed(h: Host, o: Obj, st: Stat, t: Obj): Obj {
    var o1 := if h.cfg.haveLchown && OwnerDiffers(st, t) then o.(uid := t.uid, gid := t.gid) else o;
    if h.cfg.haveLchmod && ModeDiffers(st, t, false) then o1.(mode := Masked(t.mode)) else o1
  }

  /** A downloaded file made to look like its line. */
  function Dated(o: Obj, st: Stat, t: Obj): Obj {
    if t.mtime != st.mtime then o.(mtime := t.mtime) else o
  }

  /** A new object at `p`, looked at afresh and given its line's attributes. */
  function Make(h: Host, m: Fs, p: Path, o: Obj, t: Obj, typed: bool): Option<(Fs, Stat)> {
    match Create(m, p, o)
    case None => None
    case Some(m1) => Some((m1[p := Attributed(h, o, StatOf(o), t, typed)], StatOf(o)))
  }

  /** update() for a line at a path: the filesystem and the stat buffer it leaves. The
      buffer is the caller's, and where nothing is created it is taken as it is. */
  function Update(h: Host, m: Fs, p: Path, present: bool, st: Stat, t: Obj): Option<(Fs, Stat)> {
    match t.kind
    case File | AppleFile =>
      if t.mtime != st.mtime && p !in m then None
      else
        var m1 := if p in m then m[p := Dated(m[p], st, t)] else m;
        (match SetAttributes(h, m1, p, st, t, false)
         case None => None
         case Some(m2) => Some((m2, st)))
    case Dir =>
      if !present then Make(h, m, p, NewObj(h, Dir, t.mode), t, false)
      else
        (match SetAttributes(h, m, p, st, t, false)
         case None => None
         case Some(m1) => Some((m1, st)))
    case HardLink =>
      (match Link(m, t.link, p)
       case None => None
       case Some(m1) => Some((m1, st)))
    case SymLink =>
      (match if present then Unlink(m, p) else Some(m)
       case None => None
       case Some(m1) =>
         match Create(m1, p, LinkAttributed(h, NewLink(h, t.link), st, t))
         case None => None
         case Some(m2) => Some((m2, st)))
    case Pipe =>
      if !present then Make(h, m, p, NewObj(h, Pipe, t.mode), t, true)
      else
        (match SetAttributes(h, m, p, st, t, true)
         case None => None
         case Some(m1) => Some((m1, st)))
    case Block | Character =>
      if present && st.rdev == t.rdev then
        (match SetAttributes(h, m, p, st, t, false)
         case None => None
         case Some(m1) => Some((m1, st)))
      else
        (match if present then Unlink(m, p) else Some(m)
         case None => None
         case Some(m1) => Make(h, m1, p, NewObj(h, t.kind, t.mode).(rdev := t.rdev), t, true))
    case Socket | Door =>
      if !present then Some((m, st))
      else
        (match SetAttributes(h, m, p, st, t, false)
         case None => None
         case Some(m1) => Some((m1, st)))
    case Absent => None
  }

  /* ---- the system calls as update() makes them, one after the other ---- */

  method Chown(h: Host, m: Fs, p: Path, uid: int, gid: int) returns (r: Option<Fs>)
    ensures r == if p in m then Some(m[p := ChownObj(h, m[p], uid, gid)]) else None
  {
    r := if p in m then Some(m[p := ChownObj(h, m[p], uid, gid)]) else None;
  }

  method Chmod(m: Fs, p: Path, mode: nat) returns (r: Option<Fs>)
    ensures r == if p in m then Some(m[p := m[p].(mode := Masked(mode))]) else None
  {
    r := if p in m then Some(m[p := m[p].(mode := Masked(mode))]) else None;
  }

  /** "check uid & gid", and the chmod after it. */
  method CheckOwnerAndMode(h: Host, m: Fs, p: Path, st: Stat, t: Obj, typed: bool) returns (r: Option<Fs>)
    ensures r == SetAttributes(h, m, p, st, t, typed)
  {
    r := Some(m);
    if t.uid != st.uid || t.gid != st.gid {
      r := Chown(h, m, p, t.uid, t.gid);
      if r.None? { return; }
    }
    if typed || t.mode != Masked(st.mode) || ((t.uid != st.uid || t.gid != st.gid) && IdBits(t.mode) != 0) {
      r := Chmod(r.value, p, t.mode);
    }
    if p in m && r.Some? {
      assert r.value == m[p := Attributed(h, m[p], st, t, typed)];
    }
  }

  /** update(). */
  method UpdateAt(h: Host, m: Fs, p: Path, here: bool, st0: Stat, t: Obj) returns (r: Option<(Fs, Stat)>)
    ensures r == Update(h, m, p, here, st0, t)
  {
    var fs, st, present, typed := m, st0, here, false;
    match t.kind {
    case File | AppleFile =>
      if t.mtime != st.mtime {
        if p !in fs { return None; }
        fs := fs[p := fs[p].(mtime := t.mtime)];
      }
      assert fs == if p in m then m[p := Dated(m[p], st, t)] else m;
    case Dir | Pipe =>
      typed := t.kind == Pipe;
      if !present {
        var made := Create(fs, p, NewObj(h, t.kind, t.mode));
        if made.None? { return None; }
        fs, st, present := made.value, StatOf(made.value[p]), true;
      }
    case HardLink =>
      var linked := Link(fs, t.link, p);
      return if linked.Some? then Some((linked.value, st)) else None;
    case SymLink =>
      r := MakeLink(h, fs, p, present, st, t);
      return;
    case Block | Character =>
      if present && st.rdev != t.rdev {
        var gone := Unlink(fs, p);
        if gone.None? { return None; }
        fs, present := gone.value, false;
      }
      if !present {
        typed := true;
        var made := Create(fs, p, NewObj(h, t.kind, t.mode).(rdev := t.rdev));
        if made.None? { return None; }
        fs, st, present := made.value, StatOf(made.value[p]), true;
      }
    case Socket | Door =>
      if !present { return Some((fs, st)); }
    case Absent =>
      return None;
    }
    var done := CheckOwnerAndMode(h, fs, p, st, t, typed);
    r := if done.Some? then Some((done.value, st)) else None;
  }

  /** The case 'l' of update(). */
  method MakeLink(h: Host, m: Fs, p: Path, present: bool, st: Stat, t: Obj) returns (r: Option<(Fs, Stat)>)
    requires t.kind == SymLink
    ensures r == Update(h, m, p, present, st, t)
  {
    var fs := m;
    if present {
      var gone := Unlink(fs, p);
      if gone.None? { return None; }
      fs := gone.value;
    }
    var made := Create(fs, p, NewLink(h, t.link));
    if made.None? { return None; }
    ghost var fs1 := fs;
    fs := made.value;
    if h.cfg.haveLchown && (t.uid != st.uid || t.gid != st.gid) {
      fs := fs[p := fs[p].(uid := t.uid, gid := t.gid)];
    }
    if h.cfg.haveLchmod && (t.mode != Masked(st.mode) ||
                            ((t.uid != st.uid || t.gid != st.gid) && IdBits(t.mode) != 0)) {
      fs := fs[p := fs[p].(mode := Masked(t.mode))];
    }
    assert fs == fs1[p := LinkAttributed(h, NewLink(h, t.link), st, t)];
    r := Some((fs, st));
  }

  /* ---- what the attributes come out as ---- */

  lemma {:induction false} MaskedIds(mode: nat)
    ensures IdBits(Masked(mode)) == IdBits(mode) && IdBits(mode) * 0x400 <= mode
    ensures IdBits(mode) == 0 ==> mode - IdBits(mode) * 0x400 == mode
  {
    var k, r := mode / 0x1000, mode % 0x1000;
    assert mode == 0x1000 * k + r;
    assert mode / 0x400 == 4 * k + r / 0x400;
  }

  /** With a fresh stat buffer the object ends up with the line's owner and mode, set-id
      bits included, whether or not chown takes them away. */
  lemma {:induction false} AttributesSettle(h: Host, o: Obj, t: Obj, typed: bool)
    ensures var o' := Attributed(h, o, StatOf(o), t, typed);
            && o'.uid == t.uid && o'.gid == t.gid
            && (Masked(t.mode) == t.mode ==> Masked(o'.mode) == t.mode)
            && o' == o.(uid := t.uid, gid := t.gid, mode := o'.mode)
  {
    MaskedIds(o.mode);
    MaskedIds(t.mode);
  }
}
