/** How the stack of transcripts and the exclude patterns come about: t_new, t_remove and
    t_exclude of transcript.c. */
module Setups {
  import opened Entries
  import opened Wildcards

  /* ---- the stack ---- */

  /** From entry `i` on positions strictly fall, down to T_NULL, which is last. */
  predicate StackFrom(s: seq<Source>, i: nat)
    decreases |s| - i
  {
    i < |s| &&
    if i == |s| - 1 then s[i].kind == Null && s[i].num == 0
    else s[i].kind != Null && s[i].num > s[i + 1].num && StackFrom(s, i + 1)
  }

  /** The list from tran_head on. */
  predicate StackOk(s: seq<Source>) {
    StackFrom(s, 0)
  }

  /** The list from entry `i` on, without the transcripts of one kind and name. */
  function Remaining(s: seq<Source>, i: nat, kind: TranKind, name: string): seq<Source>
    requires i <= |s|
    decreases |s| - i
  {
    if i == |s| then []
    else if s[i].kind == kind && s[i].name == name then Remaining(s, i + 1, kind, name)
    else [s[i]] + Remaining(s, i + 1, kind, name)
  }

  lemma {:induction false} StackShift(x: Source, s: seq<Source>, i: nat)
    requires StackFrom(s, i)
    ensures StackFrom([x] + s, i + 1)
    decreases |s| - i
  {
    if i < |s| - 1 {
      StackShift(x, s, i + 1);
    }
  }

  lemma {:induction false} StackCons(x: Source, s: seq<Source>)
    requires StackOk(s) && x.kind != Null && x.num > s[0].num
    ensures StackOk([x] + s)
  {
    StackShift(x, s, 0);
  }

  /** Removal keeps the last entry and the falling positions. */
  lemma {:induction false} RemainingOk(s: seq<Source>, i: nat, kind: TranKind, name: string)
    requires StackFrom(s, i) && kind != Null
    ensures var r := Remaining(s, i, kind, name);
            StackOk(r) && r[0].num <= s[i].num
    decreases |s| - i
  {
    if i < |s| - 1 {
      RemainingOk(s, i + 1, kind, name);
      if !(s[i].kind == kind && s[i].name == name) {
        StackCons(s[i], Remaining(s, i + 1, kind, name));
      }
    } else {
      assert Remaining(s, i, kind, name) == [s[i]] + Remaining(s, i + 1, kind, name) == [s[i]];
    }
  }

  /** It keeps exactly the other transcripts. */
  lemma {:induction false} RemainingAre(s: seq<Source>, i: nat, kind: TranKind, name: string, x: Source)
    requires i <= |s|
    ensures x in Remaining(s, i, kind, name) <==> x in s[i..] && !(x.kind == kind && x.name == name)
    decreases |s| - i
  {
    if i < |s| {
      assert s[i..] == [s[i]] + s[i + 1..];
      RemainingAre(s, i + 1, kind, name, x);
    }
  }

  /** The positions tell the transcripts of a stack apart. */
  lemma {:induction false} NumbersTellApart(s: seq<Source>, k: nat, i: nat, j: nat)
    requires StackFrom(s, k) && k <= i < j < |s|
    ensures s[i].num > s[j].num
    decreases j - k
  {
    if k < i {
      NumbersTellApart(s, k + 1, i, j);
    } else if i + 1 < j {
      NumbersTellApart(s, k + 1, i + 1, j);
    }
  }

  class StackSetup {
    var tran: seq<Source>       // from tran_head on

    ghost predicate Valid()
      reads this
    {
      StackOk(tran)
    }

    /** transcript_init begins with T_NULL. */
    constructor ()
      ensures Valid() && tran == [Source(0, Null, "")]
    {
      tran := [Source(0, Null, "")];
    }

    /** t_new puts a transcript at the head. */
    method TNew(kind: TranKind, name: string)
      requires Valid() && kind != Null
      modifies this
      ensures Valid() && tran == [Source(old(tran)[0].num + 1, kind, name)] + old(tran)
    {
      StackCons(Source(tran[0].num + 1, kind, name), tran);
      tran := [Source(tran[0].num + 1, kind, name)] + tran;
    }

    /** t_remove takes out every transcript of this kind and name. */
    method TRemove(kind: TranKind, name: string)
      requires Valid() && kind != Null
      modifies this
      ensures Valid() && tran == Remaining(old(tran), 0, kind, name)
    {
      RemainingOk(tran, 0, kind, name);
      var all, kept, cur := tran, [], 0;
      while cur < |all|
        invariant 0 <= cur <= |all|
        invariant kept + Remaining(all, cur, kind, name) == Remaining(all, 0, kind, name)
      {
        if !(all[cur].kind == kind && all[cur].name == name) {
          assert kept + ([all[cur]] + Remaining(all, cur + 1, kind, name)) ==
                 (kept + [all[cur]]) + Remaining(all, cur + 1, kind, name);
          kept := kept + [all[cur]];
        }
        cur := cur + 1;
      }
      assert kept == kept + Remaining(all, cur, kind, name);
      tran := kept;
    }
  }

  /* ---- exclude patterns ---- */

  predicate AllWellFormed(patterns: seq<seq<Item>>) {
    forall k :: 0 <= k < |patterns| ==> WellFormed(patterns[k])
  }

  /** t_exclude: some pattern of exclude_list takes the path. */
  method TExclude(patterns: seq<seq<Item>>, written: seq<string>, path: string, sensitive: bool) returns (r: bool)
    requires AllWellFormed(patterns) && |written| == |patterns|
    requires forall k :: 0 <= k < |patterns| ==> written[k] == Render(patterns[k])
    ensures r <==> exists k :: 0 <= k < |patterns| && Decides(patterns[k], path, sensitive)
    ensures r ==> exists k :: 0 <= k < |patterns| && Matches(patterns[k], path, sensitive)
  {
    var k := 0;
    while k < |patterns|
      invariant 0 <= k <= |patterns| && forall j :: 0 <= j < k ==> !Decides(patterns[j], path, sensitive)
    {
      r := Wildcard(written[k], path, sensitive, patterns[k]);
      if r {
        DecidesIsSound(patterns[k], path, sensitive);
        return;
      }
      k := k + 1;
    }
    r := false;
  }
}
