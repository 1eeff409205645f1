/** Filesystem objects, transcript lines, and what t_compare and t_print make of them. */
module Entries {
  import opened Options
  import opened Paths

  /** pi_type; `Absent` is the 'X' that radstat reports for a missing object. */
  datatype Kind =
    Dir | File | AppleFile | SymLink | HardLink | Pipe | Block | Character | Socket | Door | Absent

  /** The compared attributes. `cksum` stands for the checksum of the content. */
  datatype Obj = Obj(kind: Kind, mode: nat, uid: int, gid: int, mtime: int, size: int,
                     cksum: string, link: Path, rdev: (int, int))

  const ABSENT := Obj(Absent, 0, 0, 0, 0, 0, NOCKSUM, [], (0, 0))

  const NOCKSUM := "-"

  datatype TranKind = Null | Positive | Negative | Special

  /** A transcript of the stack: its position number, its kind and its short name. */
  datatype Source = Source(num: nat, kind: TranKind, name: string)

  datatype Line = Line(minus: bool, path: Path, obj: Obj)

  /** A line together with the transcript it comes from. */
  datatype Entry = Entry(src: Source, minus: bool, obj: Obj)

  datatype EditPath = Applicable | Creatable

  /** The run's options: -A or -C, -c, -t, and what the build's libc offers. */
  datatype Config = Config(editPath: EditPath, cksum: bool, ignoreTimestamps: bool,
                           haveLchown: bool, haveLchmod: bool)

  /** T_MODE is 0x0FFF: masking keeps the remainder modulo 4096. */
  function Masked(mode: nat): nat {
    mode % 0x1000
  }

  datatype Verdict = Same | Download | Status | StatusNeg

  predicate OwnerOrModeDiffer(fs: Obj, tran: Obj) {
    fs.uid != tran.uid || fs.gid != tran.gid || Masked(fs.mode) != Masked(tran.mode)
  }

  predicate IsFile(k: Kind) {
    k == File || k == AppleFile
  }

  /** t_compare for an object and a line of the same name. */
  function TCompare(cfg: Config, fs: Obj, e: Entry): Verdict {
    var tran, negative := e.obj, e.src.kind == Negative;
    if fs.kind != tran.kind then Download
    else
      match fs.kind
      case File | AppleFile =>
        if !negative && fs.size != tran.size then Download
        else if !negative && cfg.cksum && fs.cksum != tran.cksum then Download
        else if !negative && !cfg.cksum && !cfg.ignoreTimestamps && fs.mtime != tran.mtime then Download
        else if !negative && !cfg.ignoreTimestamps && fs.mtime != tran.mtime then Status
        else if OwnerOrModeDiffer(fs, tran) then
          (if negative && cfg.editPath == Applicable then StatusNeg else Status)
        else Same
      case Dir | Door | Pipe | Socket =>
        if OwnerOrModeDiffer(fs, tran) then Status else Same
      case SymLink =>
        if !negative && (fs.link != tran.link ||
                         (cfg.haveLchown && (fs.uid != tran.uid || fs.gid != tran.gid)) ||
                         (cfg.haveLchmod && Masked(fs.mode) != Masked(tran.mode)))
        then Status else Same
      case HardLink =>
        if fs.link != tran.link then Status else Same
      case Character =>
        if fs.rdev != tran.rdev || (!negative && OwnerOrModeDiffer(fs, tran)) then Status else Same
      case Block =>
        if fs.rdev != tran.rdev || OwnerOrModeDiffer(fs, tran) then Status else Same
      case Absent => Same
  }

  /** One name met by the merge of the walk with the transcripts. */
  datatype Event =
    | FsOnly(path: Path, obj: Obj)
    | TranOnly(path: Path, entry: Entry)
    | Compared(path: Path, obj: Obj, entry: Entry)

  datatype Sign = Minus | Plus | Plain

  /** A line of output: the name of the transcript the next lines come from, or an edit. */
  datatype OutLine = Header(name: string) | Edit(sign: Sign, path: Path, obj: Obj)

  /** outtran and prev_tran. */
  datatype Printer = Printer(out: seq<OutLine>, prev: Option<nat>)

  /** The attributes a printed line shows: the mode is masked. */
  function Shown(o: Obj): Obj {
    o.(mode := Masked(o.mode))
  }

  /** An object of the filesystem as -C prints it: no checksum unless -c asks for one. */
  function ShownFs(cfg: Config, o: Obj): Obj {
    if cfg.cksum then Shown(o) else Shown(o).(cksum := NOCKSUM)
  }

  function WithHeader(p: Printer, src: Source): Printer {
    if p.prev == Some(src.num) then p else Printer(p.out + [Header(src.name)], Some(src.num))
  }

  function Put(p: Printer, sign: Sign, path: Path, o: Obj): Printer {
    p.(out := p.out + [Edit(sign, path, o)])
  }

  /** t_print after t_compare's verdict on one event. */
  function PrintEvent(cfg: Config, p: Printer, ev: Event): Printer {
    match (cfg.editPath, ev)
    case (Applicable, FsOnly(path, o)) =>
      Put(p, Minus, path, Shown(o).(cksum := NOCKSUM))
    case (Applicable, TranOnly(path, e)) =>
      Put(WithHeader(p, e.src), if IsFile(e.obj.kind) then Plus else Plain, path, Shown(e.obj))
    case (Applicable, Compared(path, o, e)) =>
      (match TCompare(cfg, o, e)
       case Same => p
       case Download =>
         Put(WithHeader(p, e.src), if IsFile(e.obj.kind) then Plus else Plain, path, Shown(e.obj))
       case Status => Put(p, Plain, path, Shown(e.obj))
       case StatusNeg =>
         Put(WithHeader(p, e.src), Plain, path, Shown(e.obj).(mtime := o.mtime)))
    case (Creatable, FsOnly(path, o)) => Put(p, Plain, path, ShownFs(cfg, o))
    case (Creatable, TranOnly(path, e)) => Put(p, Minus, path, Shown(e.obj))
    case (Creatable, Compared(path, o, e)) =>
      if TCompare(cfg, o, e) == Same then p else Put(p, Plain, path, ShownFs(cfg, o))
  }

  /** The output of a whole run, from its events. */
  function Printed(cfg: Config, evs: seq<Event>): Printer {
    if |evs| == 0 then Printer([], None)
    else PrintEvent(cfg, Printed(cfg, evs[..|evs| - 1]), evs[|evs| - 1])
  }

  lemma {:induction false} PrintedSnoc(cfg: Config, evs: seq<Event>, ev: Event)
    ensures Printed(cfg, evs + [ev]) == PrintEvent(cfg, Printed(cfg, evs), ev)
  {
    assert (evs + [ev])[..|evs|] == evs;
  }

  /** Nothing is printed exactly when every name was compared and found the same. */
  lemma {:induction false} SilentIffAllSame(cfg: Config, evs: seq<Event>)
    ensures Printed(cfg, evs).out == [] <==>
            forall i :: 0 <= i < |evs| ==>
                          evs[i].Compared? && TCompare(cfg, evs[i].obj, evs[i].entry) == Same
  {
    if |evs| > 0 {
      var front := evs[..|evs| - 1];
      SilentIffAllSame(cfg, front);
      assert forall i :: 0 <= i < |front| ==> front[i] == evs[i];
    }
  }

  /* ---- what the verdicts mean, attribute by attribute ---- */

  predicate OwnerCounts(cfg: Config, k: Kind, negative: bool) {
    k != HardLink && k != Absent && !(negative && (k == SymLink || k == Character)) && (k == SymLink ==> cfg.haveLchown)
  }

  predicate ModeCounts(cfg: Config, k: Kind, negative: bool) {
    k != HardLink && k != Absent && !(negative && (k == SymLink || k == Character)) && (k == SymLink ==> cfg.haveLchmod)
  }

  /** The content is the same as far as it is looked at: the size, and with -c the checksum. */
  predicate ContentAlike(cfg: Config, o: Obj, t: Obj) {
    o.size == t.size && (cfg.cksum ==> o.cksum == t.cksum)
  }

  /** An object and a line agree in all that counts for them. */
  predicate Alike(cfg: Config, o: Obj, e: Entry) {
    var t, negative := e.obj, e.src.kind == Negative;
    && o.kind == t.kind
    && (IsFile(o.kind) && !negative ==> ContentAlike(cfg, o, t) && (!cfg.ignoreTimestamps ==> o.mtime == t.mtime))
    && (OwnerCounts(cfg, o.kind, negative) ==> o.uid == t.uid && o.gid == t.gid)
    && (ModeCounts(cfg, o.kind, negative) ==> o.mode % 0x1000 == t.mode % 0x1000)
    && (o.kind == HardLink || (o.kind == SymLink && !negative) ==> o.link == t.link)
    && (o.kind == Block || o.kind == Character ==> o.rdev == t.rdev)
  }

  lemma {:induction false} SameIffAlike(cfg: Config, o: Obj, e: Entry)
    ensures TCompare(cfg, o, e) == Same <==> Alike(cfg, o, e)
  {
    if o.kind == e.obj.kind {
      match o.kind
      case File | AppleFile =>
      case Dir | Door | Pipe | Socket =>
      case SymLink =>
      case HardLink =>
      case Character =>
      case Block =>
      case Absent =>
    }
  }

  /** A line brings a new object of another type, or a new file if the content may differ:
      without -c the time tells. */
  lemma {:induction false} DownloadIff(cfg: Config, o: Obj, e: Entry)
    ensures TCompare(cfg, o, e) == Download <==>
            o.kind != e.obj.kind ||
            (IsFile(o.kind) && e.src.kind != Negative &&
             (!ContentAlike(cfg, o, e.obj) || (!cfg.cksum && !cfg.ignoreTimestamps && o.mtime != e.obj.mtime)))
  {
    SameIffAlike(cfg, o, e);
  }

  /** Files of a negative transcript that are to change keep their time, with -A. */
  lemma {:induction false} StatusNegIff(cfg: Config, o: Obj, e: Entry)
    ensures TCompare(cfg, o, e) == StatusNeg <==>
            o.kind == e.obj.kind && IsFile(o.kind) && e.src.kind == Negative && cfg.editPath == Applicable &&
            !Alike(cfg, o, e)
  {
    SameIffAlike(cfg, o, e);
  }

  /** Nothing is printed exactly when every name was found on both sides, and alike. */
  lemma {:induction false} SilentIffAllAlike(cfg: Config, evs: seq<Event>)
    ensures Printed(cfg, evs).out == [] <==>
            forall i :: 0 <= i < |evs| ==> evs[i].Compared? && Alike(cfg, evs[i].obj, evs[i].entry)
  {
    SilentIffAllSame(cfg, evs);
    forall i | 0 <= i < |evs| && evs[i].Compared?
      ensures TCompare(cfg, evs[i].obj, evs[i].entry) == Same <==> Alike(cfg, evs[i].obj, evs[i].entry)
    {
      SameIffAlike(cfg, evs[i].obj, evs[i].entry);
    }
  }

  /* ---- what is printed, attribute by attribute ---- */

  /** The line shows `o`, but with this time and this checksum; of the mode, 12 bits. */
  predicate Shows(l: OutLine, sign: Sign, path: Path, o: Obj, mtime: int, cksum: string) {
    && l.Edit? && l.sign == sign && l.path == path
    && l.obj.kind == o.kind && l.obj.uid == o.uid && l.obj.gid == o.gid && l.obj.mode == o.mode % 0x1000
    && l.obj.size == o.size && l.obj.link == o.link && l.obj.rdev == o.rdev
    && l.obj.mtime == mtime && l.obj.cksum == cksum
  }

  /** The object is to become what the transcript says, by a line for lapply. */
  predicate FromTranscript(cfg: Config, ev: Event) {
    ev.TranOnly? || (ev.Compared? && cfg.editPath == Applicable)
  }

  /** A new object is asked for from the transcript. */
  predicate Brings(cfg: Config, ev: Event) {
    cfg.editPath == Applicable &&
    (ev.TranOnly? || (ev.Compared? && TCompare(cfg, ev.obj, ev.entry) == Download))
  }

  predicate KeepsTime(cfg: Config, ev: Event) {
    && cfg.editPath == Applicable && ev.Compared? && ev.entry.src.kind == Negative
    && ev.obj.kind == ev.entry.obj.kind && IsFile(ev.obj.kind)
  }

  function SignFor(cfg: Config, ev: Event, k: Kind): Sign {
    if (cfg.editPath == Applicable && ev.FsOnly?) || (cfg.editPath == Creatable && ev.TranOnly?) then Minus
    else if Brings(cfg, ev) && IsFile(k) then Plus
    else Plain
  }

  /** One name that is not the same on both sides: one line, after a header where the
      transcript must be named and was not the last one named. */
  lemma {:induction false} EventPrints(cfg: Config, p: Printer, ev: Event)
    requires ev.Compared? ==> !Alike(cfg, ev.obj, ev.entry)
    ensures var p' := PrintEvent(cfg, p, ev);
            var o := if FromTranscript(cfg, ev) then ev.entry.obj else ev.obj;
            var named := Brings(cfg, ev) || KeepsTime(cfg, ev);
            && |p'.out| > 0
            && Shows(p'.out[|p'.out| - 1], SignFor(cfg, ev, o.kind), ev.path, o,
                     if KeepsTime(cfg, ev) then ev.obj.mtime else o.mtime,
                     if FromTranscript(cfg, ev) || (cfg.editPath == Creatable && cfg.cksum) then o.cksum else NOCKSUM)
            && p'.out[..|p'.out| - 1] ==
               p.out + (if named && p.prev != Some(ev.entry.src.num) then [Header(ev.entry.src.name)] else [])
            && p'.prev == if named then Some(ev.entry.src.num) else p.prev
  {
    if ev.Compared? {
      SameIffAlike(cfg, ev.obj, ev.entry);
      StatusNegIff(cfg, ev.obj, ev.entry);
    }
  }

  /** And otherwise none. */
  lemma {:induction false} AlikePrintsNothing(cfg: Config, p: Printer, path: Path, o: Obj, e: Entry)
    ensures PrintEvent(cfg, p, Compared(path, o, e)) == p <==> Alike(cfg, o, e)
  {
    SameIffAlike(cfg, o, e);
    if !Alike(cfg, o, e) {
      EventPrints(cfg, p, Compared(path, o, e));
      var out := PrintEvent(cfg, p, Compared(path, o, e)).out;
      assert |out| == |out[..|out| - 1]| + 1;
    }
  }
}
