/** transcript.c: the cursor of one transcript (transcript_parse) and the merge of the
    whole stack (transcript_select). */
module Transcripts {
  import opened Options
  import opened Paths
  import opened Entries
  import opened Views

  /** struct transcript; `lines` is the file without its comments and blank lines. */
  datatype Transcript = Transcript(
    src: Source,
    lines: seq<Line>,
    pos: nat,           // lines read so far
    pinfo: Line,        // t_pinfo: the last line read, or an empty name
    eof: bool)          // t_eof
  {
    ghost predicate Valid() {
      && pos <= |lines|
      && (pos > 0 ==> pinfo == lines[pos - 1])
      && (pos == 0 ==> pinfo.path == [])
      && (eof ==> pos == |lines|)
      && (src.kind == Null ==> lines == [] && eof)
    }

    /** t_new has read the first line. */
    predicate Started() {
      pos > 0 || eof
    }

    /** The current line and the ones after it. */
    ghost function ToSrc(): (r: Src)
      requires Valid() && Started()
      ensures eof <==> !More(r)
      ensures !eof ==> r.lines[r.at] == pinfo
    {
      Src(src, lines, if eof then |lines| else pos - 1)
    }
  }

  /** transcript_parse: the next line, or nothing where the C code exits because that line
      is not strictly after the one before it. */
  method Parse(t: Transcript) returns (r: Option<Transcript>)
    requires t.Valid()
    ensures r.None? <==> t.pos < |t.lines| && !Lt(t.pinfo.path, t.lines[t.pos].path)
    ensures r.None? ==> !Sorted(t.lines)
    ensures r.Some? ==> r.value.Valid() && r.value.Started()
    ensures r.Some? ==> r.value.src == t.src && r.value.lines == t.lines
    ensures r.Some? && t.Started() ==>
              r.value.ToSrc() == if t.eof then t.ToSrc() else Next(t.ToSrc())
    ensures r.Some? && !t.Started() ==> r.value.ToSrc() == Src(t.src, t.lines, 0)
  {
    if t.pos == |t.lines| {
      return Some(t.(eof := true));
    }
    if !Lt(t.pinfo.path, t.lines[t.pos].path) {
      if Sorted(t.lines) {
        SortedAt(t.lines, 0, if t.pos == 0 then 0 else t.pos - 1);
      }
      return None;
    }
    r := Some(t.(pinfo := t.lines[t.pos], pos := t.pos + 1));
  }

  /** t_new: open a transcript and read its first line; T_NULL is at its end from the start. */
  method TNew(src: Source, lines: seq<Line>) returns (r: Option<Transcript>)
    requires src.kind == Null ==> lines == []
    ensures r.None? ==> !Sorted(lines)
    ensures r.Some? ==> r.value.Valid() && r.value.Started() && r.value.ToSrc() == Src(src, lines, 0)
  {
    var t := Transcript(src, lines, 0, Line(false, [], ABSENT), src.kind == Null);
    if src.kind == Null {
      return Some(t);
    }
    r := Parse(t);
  }

  ghost predicate AllValid(trans: seq<Transcript>) {
    forall i :: 0 <= i < |trans| ==> trans[i].Valid() && trans[i].Started()
  }

  /** The transcripts as seen from their cursors. */
  ghost function SrcsOf(trans: seq<Transcript>): (r: seq<Src>)
    requires AllValid(trans)
    ensures |r| == |trans|
    ensures forall i :: 0 <= i < |trans| ==> r[i] == trans[i].ToSrc()
  {
    seq(|trans|, i requires 0 <= i < |trans| => trans[i].ToSrc())
  }

  /** The second pass of transcript_select, from transcript `next` on, ends with `skipped`. */
  predicate SkipsTo(stack: seq<Src>, b: nat, next: nat, skipped: seq<Src>) {
    b < |stack| && More(stack[b]) && Skip(stack, b, next) == skipped
  }

  /** The list at tran_head: the transcript of highest precedence first, T_NULL last. */
  class Stack {
    const scope: Scope
    const files: seq<seq<Line>>
    var trans: seq<Transcript>

    ghost predicate Valid()
      reads this
    {
      && |trans| == |files| > 0 && trans[|trans| - 1].src.kind == Null && AllValid(trans)
      && (forall i :: 0 <= i < |trans| ==> trans[i].lines == files[i])
    }

    ghost function Srcs(): (r: seq<Src>)
      reads this
      requires Valid()
    {
      SrcsOf(trans)
    }

    /** Every transcript is strictly sorted by path. */
    ghost predicate InOrder() {
      forall k :: 0 <= k < |files| ==> Sorted(files[k])
    }

    lemma {:induction false} RestsInOrder()
      requires Valid() && InOrder()
      ensures AllSorted(Srcs())
    {
    }

    /** What the transcripts still say about a path. */
    ghost function Coming(p: Path): Option<Entry>
      reads this
      requires Valid()
    {
      View(scope, Srcs(), p)
    }

    constructor (trans: seq<Transcript>, scope: Scope)
      requires |trans| > 0 && trans[|trans| - 1].src.kind == Null && AllValid(trans)
      ensures Valid() && this.trans == trans && this.scope == scope
      ensures forall k :: 0 <= k < |trans| ==> files[k] == trans[k].lines
    {
      this.trans := trans;
      this.scope := scope;
      this.files := seq(|trans|, i requires 0 <= i < |trans| => trans[i].lines);
    }

    /** transcript_parse of transcript `k`. */
    method ParseAt(k: nat) returns (ok: bool)
      requires Valid() && k < |trans|
      modifies this`trans
      ensures Valid()
      ensures |trans| == old(|trans|) && forall j :: 0 <= j < |trans| && j != k ==> trans[j] == old(trans)[j]
      ensures !ok ==> !InOrder()
      ensures ok ==> Srcs() == if !More(old(Srcs())[k]) then old(Srcs()) else Advance(old(Srcs()), k)
    {
      var r := Parse(trans[k]);
      match r {
        case None =>
          ok := false;
        case Some(t) =>
          trans := trans[k := t];
          ok := true;
      }
    }

    /** The first pass of transcript_select: the leftmost transcript at the least path. */
    method FindBegin() returns (b: nat)
      requires Valid()
      ensures b < |trans| && b == Begin(Srcs(), 0, 1)
    {
      ghost var srcs := Srcs();
      b := 0;
      var next := 1;
      while next < |trans|
        invariant b < next <= |trans|
        invariant Begin(srcs, b, next) == Begin(srcs, 0, 1)
      {
        if trans[b].eof {
          b := next;
        } else if !trans[next].eof && Lt(trans[next].pinfo.path, trans[b].pinfo.path) {
          b := next;
        }
        next := next + 1;
      }
    }

    /** The second pass at transcript `next`: move it ahead if it is at the same path. From
        there on the pass ends with `skipped`, before and after. */
    method SkipOne(b: nat, next: nat, ghost skipped: seq<Src>) returns (ok: bool)
      requires Valid() && b < next < |trans| && SkipsTo(Srcs(), b, next, skipped)
      modifies this`trans
      ensures Valid() && |trans| == old(|trans|) && !trans[b].eof
      ensures !ok ==> !InOrder()
      ensures ok ==> SkipsTo(Srcs(), b, next + 1, skipped)
    {
      ok := true;
      if trans[b].pinfo.path == trans[next].pinfo.path {
        ok := ParseAt(next);
      }
    }

    /** The second pass: move ahead every later transcript at the same path. */
    method SkipMatches(b: nat) returns (ok: bool)
      requires Valid() && b < |trans| && !trans[b].eof
      modifies this`trans
      ensures Valid() && !trans[b].eof
      ensures !ok ==> !InOrder()
      ensures ok ==> Srcs() == Skip(old(Srcs()), b, b + 1)
    {
      ghost var skipped := Skip(Srcs(), b, b + 1);
      var next := b + 1;
      while next < |trans|
        invariant Valid() && b < next <= |trans| && SkipsTo(Srcs(), b, next, skipped)
      {
        ok := SkipOne(b, next, skipped);
        if !ok {
          return;
        }
        next := next + 1;
      }
      ok := true;
    }

    /** The test on the line found: not "-", not excluded, inside the walk's root. For a line
        that is alone at the least path, that is whether the stack says anything of its path,
        and then it is this line that says it. */
    method ToActOn(b: nat) returns (act: bool)
      requires Valid() && b < |trans| && !trans[b].eof
      ensures act == CurrentVisible(scope, Srcs(), b)
      ensures InOrder() && Alone(Srcs(), b) ==>
                Coming(trans[b].pinfo.path) == if act then Some(Current(Srcs()[b])) else None
    {
      if InOrder() && Alone(Srcs(), b) {
        RestsInOrder();
        AloneIsFirst(Srcs(), b, trans[b].pinfo.path);
      }
      var t := trans[b];
      act := !t.pinfo.minus && (t.src.kind == Special || !scope.excluded(t.pinfo.path)) &&
             Under(t.pinfo.path, scope.prefix);
    }

    /** One round of transcript_select: both passes, and past the line if it is not to act on. */
    method Round() returns (ok: bool, b: nat, done: bool)
      requires Valid()
      modifies this`trans
      ensures Valid()
      ensures !ok ==> !InOrder()
      ensures ok ==> (Srcs(), b, done) == RoundOf(scope, old(Srcs()))
    {
      b := FindBegin();
      if trans[b].eof {
        return true, b, true;
      }
      done := false;
      ok := SkipMatches(b);
      if ok {
        done := ToActOn(b);
        if !done {
          ok := ParseAt(b);
        }
      }
    }

    /** transcript_select; `ok` is false where a badly sorted transcript makes the C code exit. */
    method SelectNext() returns (ok: bool, b: nat)
      requires Valid()
      modifies this`trans
      ensures Valid()
      ensures !ok ==> !InOrder()
      ensures ok ==> (Srcs(), b) == Select(scope, old(Srcs()))
    {
      while true
        invariant Valid()
        invariant Select(scope, Srcs()) == Select(scope, old(Srcs()))
        decreases Lines(Srcs())
      {
        var done;
        ok, b, done := Round();
        if !ok || done {
          return;
        }
      }
    }
  }
}
