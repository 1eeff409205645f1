/** One line of a diff does to its object what the transcript asks for. */
module Landings {
  import opened Options
  import opened Paths
  import opened Entries
  import opened Trees
  import opened Updates
  import opened Lapplies

  /** The types a transcript line can bring about; doors and sockets are never created. */
  predicate Installable(k: Kind) {
    k == Dir || k == File || k == SymLink || k == Pipe || k == Block || k == Character
  }

  /** The server has what the line of `p` promises. */
  predicate Serves(h: Host, p: Path, e: Entry) {
    var answer := h.server(if e.src.kind == Special then SpecialOf(p) else FileOf(e.src.name, p));
    && answer.Some? && answer.value.size == e.obj.size
    && (h.cfg.cksum ==> e.obj.cksum != NOCKSUM && answer.value.cksum == e.obj.cksum)
  }

  /** The link made for a line when the stat buffer holds `st`. */
  function LinkMade(h: Host, st: Stat, t: Obj): Obj {
    LinkAttributed(h, NewLink(h, t.link), st, Shown(t))
  }

  /** What a line leaves: an object the diff calls the same, or a link to the right target. */
  predicate Landed(h: Host, e: Entry, st: Stat, o: Obj) {
    && o.kind == e.obj.kind
    && if o.kind == SymLink then o == LinkMade(h, st, e.obj) else Alike(h.cfg, o, e)
  }

  predicate LandsAt(h: Host, s: State, r: Option<State>, p: Path, e: Entry, st: Stat) {
    && r.Some? && p in r.value.fs
    && r.value.fs == s.fs[p := r.value.fs[p]]
    && Landed(h, e, st, r.value.fs[p])
  }

  lemma {:induction false} MaskedTwice(mode: nat)
    ensures Masked(Masked(mode)) == Masked(mode)
  {
  }

  /** With fresh stat data the owner and the mode come out right. */
  lemma {:induction false} AttributesLand(h: Host, o: Obj, st: Stat, t: Obj, typed: bool)
    requires st.uid == o.uid && st.gid == o.gid && st.mode == o.mode
    ensures var o' := Attributed(h, o, st, Shown(t), typed);
            !OwnerOrModeDiffer(o', t) && o' == o.(uid := t.uid, gid := t.gid, mode := o'.mode)
  {
    MaskedTwice(t.mode);
    AttributesSettle(h, o, Shown(t), typed);
    assert Attributed(h, o, st, Shown(t), typed) == Attributed(h, o, StatOf(o), Shown(t), typed);
  }

  lemma {:induction false} DownloadLands(h: Host, s: State, p: Path, e: Entry, present: bool)
    requires e.obj.kind == File && e.obj.size >= 0
    requires Retrieve(h, s.special, e.src.name, p, Shown(e.obj)).Some?
    requires HasDir(s.fs, p) && (p in s.fs ==> s.fs[p].kind != Dir)
    ensures LandsAt(h, s, DoLine(h, s, Plus, p, Shown(e.obj), e.src.name, present), p, e, NOSTAT)
  {
    var t := Shown(e.obj);
    var temp := Retrieve(h, s.special, e.src.name, p, t).value;
    AttributesLand(h, Dated(temp, StatOf(temp), t), StatOf(temp), e.obj, false);
  }

  /** A line for something that is not there and needs no download. */
  lemma {:induction false} MakeLands(h: Host, s: State, p: Path, e: Entry, tran: string)
    requires Installable(e.obj.kind) && e.obj.kind != File
    requires p !in s.fs && HasDir(s.fs, p)
    ensures LandsAt(h, s, DoLine(h, s, Plain, p, Shown(e.obj), tran, false), p, e, s.st)
  {
    var t := Shown(e.obj);
    if t.kind != SymLink {
      var o := NewObj(h, t.kind, t.mode);
      if t.kind == Block || t.kind == Character {
        o := o.(rdev := t.rdev);
      }
      AttributesLand(h, o, StatOf(o), e.obj, t.kind != Dir);
      assert Create(s.fs, p, o).value == s.fs[p := o];
    }
  }

  lemma {:induction false} HasDirWithout(m: Fs, p: Path, q: Path)
    requires HasDir(m, p) && (q in m ==> m[q].kind != Dir)
    ensures HasDir(m - {q}, p)
  {
    var d :| d in m && EntryOf(p, d) && m[d].kind == Dir;
    assert d in m - {q};
  }

  /** A device whose numbers are wrong is made anew, and one whose owner or mode is wrong set. */
  lemma {:induction false} NodeLands(h: Host, s: State, p: Path, e: Entry, tran: string)
    requires e.obj.kind == Block || e.obj.kind == Character
    requires p in s.fs && HasDir(s.fs, p) && TCompare(h.cfg, s.fs[p], e) == Status
    ensures LandsAt(h, s, DoLine(h, s, Plain, p, Shown(e.obj), tran, true), p, e, StatOf(s.fs[p]))
  {
    var o, t := s.fs[p], Shown(e.obj);
    if o.rdev == t.rdev {
      AttributesLand(h, o, StatOf(o), e.obj, false);
    } else {
      HasDirWithout(s.fs, p, p);
      var made := NewObj(h, t.kind, t.mode).(rdev := t.rdev);
      AttributesLand(h, made, StatOf(made), e.obj, true);
    }
  }

  /** A line for an object that is there and differs in its attributes only. */
  lemma {:induction false} StatusLands(h: Host, s: State, p: Path, e: Entry, tran: string)
    requires e.obj.kind != HardLink
    requires p in s.fs && (e.obj.kind != Dir ==> HasDir(s.fs, p)) && TCompare(h.cfg, s.fs[p], e) == Status
    ensures LandsAt(h, s, DoLine(h, s, Plain, p, Shown(e.obj), tran, true), p, e, StatOf(s.fs[p]))
  {
    var o, t := s.fs[p], Shown(e.obj);
    var st := StatOf(o);
    match t.kind
    case File | AppleFile =>
      AttributesLand(h, Dated(o, st, t), st, e.obj, false);
    case Dir | Pipe | Socket | Door =>
      AttributesLand(h, o, st, e.obj, t.kind == Pipe);
    case SymLink =>
      HasDirWithout(s.fs, p, p);
    case Block | Character =>
      NodeLands(h, s, p, e, tran);
  }

  /** A file of a negative transcript: applying what -A prints for it sets owner and mode, and
      leaves the time, the size and the content as they were. */
  lemma {:induction false} NegativeKeepsTime(h: Host, s: State, pr: Printer, p: Path, o: Obj, e: Entry, tran: string)
    requires h.cfg.editPath == Applicable && e.src.kind == Negative && IsFile(o.kind) && o.kind == e.obj.kind
    requires !Alike(h.cfg, o, e) && p in s.fs && s.fs[p] == o
    ensures var out := PrintEvent(h.cfg, pr, Compared(p, o, e)).out;
            && out != [] && out[|out| - 1].Edit? && out[|out| - 1].sign == Plain && out[|out| - 1].path == p
            && var r := DoLine(h, s, Plain, p, out[|out| - 1].obj, tran, true);
            && r.Some? && p in r.value.fs && r.value.fs == s.fs[p := r.value.fs[p]]
            && var o' := r.value.fs[p];
            && o' == o.(uid := e.obj.uid, gid := e.obj.gid, mode := o'.mode)
            && o'.mode % 0x1000 == e.obj.mode % 0x1000 && Alike(h.cfg, o', e)
  {
    EventPrints(h.cfg, pr, Compared(p, o, e));
    StatusNegIff(h.cfg, o, e);
    var t := Shown(e.obj).(mtime := o.mtime);
    AttributesSettle(h, o, t, false);
    MaskedTwice(e.obj.mode);
  }

  /* ---- what is not made anew ---- */

  /** A hard link is made exactly if its target is there and no directory, and nothing is at
      its own path but a directory for it; it is then the target's object. */
  lemma {:induction false} HardLinkLine(h: Host, s: State, p: Path, t: Obj, tran: string, present: bool)
    requires t.kind == HardLink
    ensures var r := DoLine(h, s, Plain, p, t, tran, present);
            && (r.Some? <==> !present && t.link in s.fs && s.fs[t.link].kind != Dir && p !in s.fs && HasDir(s.fs, p))
            && (r.Some? ==> r.value == s.(fs := s.fs[p := s.fs[t.link]]))
  {
  }

  /** In the place of something else that is no directory it is made too. */
  lemma {:induction false} HardLinkReplaces(h: Host, s: State, p: Path, t: Obj)
    requires t.kind == HardLink && p in s.fs && s.fs[p].kind != Dir && HasDir(s.fs, p)
    requires t.link != p && t.link in s.fs && s.fs[t.link].kind != Dir
    ensures var r := RemoveThenDo(h, s, Plain, p, t); r.Some? && r.value.fs == s.fs[p := s.fs[t.link]]
  {
    HasDirWithout(s.fs, p, p);
    HardLinkLine(h, s.(fs := s.fs - {p}), p, t, s.tran, false);
  }

  /** Sockets and doors are not made. */
  lemma {:induction false} NeverMade(h: Host, s: State, p: Path, t: Obj, tran: string)
    requires t.kind == Socket || t.kind == Door
    ensures DoLine(h, s, Plain, p, t, tran, false) == Some(s)
  {
  }

  /* ---- links ---- */

  /** All that is certain of a link: its target, and an owner and mode that are the line's
      or the ones a new link gets. */
  predicate LinkFits(h: Host, t: Obj, o: Obj) {
    && o.kind == SymLink && o.link == t.link
    && ((o.uid == t.uid && o.gid == t.gid) || (o.uid == h.uid && o.gid == h.gid))
    && (Masked(o.mode) == Masked(t.mode) || o.mode == h.linkMode)
  }

  lemma {:induction false} LinkMadeFits(h: Host, st: Stat, t: Obj)
    ensures LinkFits(h, t, LinkMade(h, st, t))
  {
    MaskedTwice(t.mode);
  }

  /** Exactly when lchown and lchmod are called, and what a link has otherwise. */
  lemma {:induction false} LinkMadeIs(h: Host, st: Stat, t: Obj)
    ensures var (o, other) := (LinkMade(h, st, t), t.uid != st.uid || t.gid != st.gid);
            && o.kind == SymLink && o.link == t.link
            && (o.uid, o.gid) == (if h.cfg.haveLchown && other then (t.uid, t.gid) else (h.uid, h.gid))
            && o.mode == if h.cfg.haveLchmod && (t.mode % 0x1000 != st.mode % 0x1000 || (other && IdBits(t.mode) != 0))
                         then t.mode % 0x1000 else h.linkMode
  {
    MaskedTwice(t.mode);
    MaskedIds(t.mode);
  }

  /** New links already have the owner and the mode the line asks for, where the diff looks. */
  predicate LinkSafe(h: Host, t: Obj) {
    && (h.cfg.haveLchown ==> t.uid == h.uid && t.gid == h.gid)
    && (h.cfg.haveLchmod ==> Masked(t.mode) == Masked(h.linkMode))
  }

  /** The link made is then called the same, whatever the stat buffer holds. */
  lemma {:induction false} SafeLinkIsSame(h: Host, st: Stat, e: Entry)
    requires e.obj.kind == SymLink && e.src.kind != Negative && LinkSafe(h, e.obj)
    ensures Alike(h.cfg, LinkMade(h, st, e.obj), e)
  {
    LinkMadeFits(h, st, e.obj);
  }

  /** The owner is set when the object that was there had another one, and otherwise must be
      the one a new link has anyway; and the same of the mode. */
  predicate LinkKept(h: Host, st: Stat, t: Obj) {
    && (h.cfg.haveLchown ==> OwnerDiffers(st, t) || (t.uid == h.uid && t.gid == h.gid))
    && (h.cfg.haveLchmod ==>
          Masked(t.mode) != Masked(st.mode) || Masked(t.mode) == Masked(h.linkMode) ||
          (OwnerDiffers(st, t) && IdBits(t.mode) != 0))
  }

  lemma {:induction false} MadeLinkIsSameIff(h: Host, st: Stat, e: Entry)
    requires e.obj.kind == SymLink && e.src.kind != Negative
    ensures Alike(h.cfg, LinkMade(h, st, e.obj), e) <==> LinkKept(h, st, e.obj)
  {
    MaskedTwice(e.obj.mode);
    MaskedIds(e.obj.mode);
  }
}
