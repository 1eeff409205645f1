/** fs_insert of fsdiff.c: a directory's names kept in strcmp order, with the place of the
    last insertion as a hint. The linked list is a sequence; a pointer is an index. */
module FsLists {
  import opened Options
  import opened Paths

  /** strcmp( a, b ) < 0 from index `i` on. */
  predicate StrLtFrom(a: Path, b: Path, i: nat)
    requires i <= |a| && i <= |b|
    decreases |a| - i
  {
    i < |b| && (i == |a| || a[i] < b[i] || (a[i] == b[i] && StrLtFrom(a, b, i + 1)))
  }

  predicate StrLt(a: Path, b: Path) {
    StrLtFrom(a, b, 0)
  }

  lemma {:induction false} StrLtIsLtFrom(a: Path, b: Path, i: nat)
    requires IsName(a) && IsName(b) && i <= |a| && i <= |b|
    ensures StrLtFrom(a, b, i) == LtFrom(a, b, i)
    decreases |a| - i
  {
    if i < |a| && i < |b| {
      assert a[i] in a && b[i] in b;
      StrLtIsLtFrom(a, b, i + 1);
    }
  }

  /** On names, which hold no '/', strcmp order is path order. */
  lemma {:induction false} StrLtIsLt(a: Path, b: Path)
    requires IsName(a) && IsName(b)
    ensures StrLt(a, b) == Lt(a, b)
  {
    StrLtIsLtFrom(a, b, 0);
  }

  /** The names from `i` on are names, each before the next in path order or equal to it. */
  predicate Ordered(list: seq<Path>, i: nat)
    decreases |list| - i
  {
    i < |list| ==>
      && IsName(list[i])
      && (i + 1 < |list| ==> Le(list[i], list[i + 1]))
      && Ordered(list, i + 1)
  }

  /** Where the search from `i` ends: at the first name not before `name`. */
  function Place(list: seq<Path>, i: nat, name: Path): (k: nat)
    requires i <= |list|
    ensures i <= k <= |list|
    ensures k < |list| ==> !StrLt(list[k], name)
    ensures k > i ==> StrLt(list[k - 1], name)
    decreases |list| - i
  {
    if i < |list| && StrLt(list[i], name) then Place(list, i + 1, name) else i
  }

  /** The list after inserting `name` by a search from the head. */
  function Inserted(list: seq<Path>, name: Path): seq<Path> {
    var k := Place(list, 0, name);
    list[..k] + [name] + list[k..]
  }

  lemma {:induction false} OrderedAt(list: seq<Path>, i: nat, j: nat)
    requires Ordered(list, i) && i <= j < |list|
    ensures IsName(list[j]) && Ordered(list, j) && Le(list[i], list[j])
    decreases j - i
  {
    if i < j {
      OrderedAt(list, i + 1, j);
      if list[i] != list[i + 1] && list[i + 1] != list[j] {
        LtTransitive(list[i], list[i + 1], list[j]);
      }
    }
  }

  /** Starting the search behind a name that is before the new one changes nothing. */
  lemma {:induction false} HintIsSound(list: seq<Path>, i: nat, last: nat, name: Path)
    requires Ordered(list, i) && i <= last < |list| && IsName(name) && StrLt(list[last], name)
    ensures Place(list, i, name) == Place(list, last + 1, name)
    decreases last - i
  {
    OrderedAt(list, i, last);
    OrderedAt(list, i, i);
    StrLtIsLt(list[last], name);
    StrLtIsLt(list[i], name);
    LeLtTransitive(list[i], list[last], name);
    if i < last {
      OrderedAt(list, i, i + 1);
      HintIsSound(list, i + 1, last, name);
    }
  }

  lemma {:induction false} InsertKeepsOrdered(list: seq<Path>, i: nat, name: Path)
    requires Ordered(list, i) && IsName(name) && i <= |list|
    requires i > 0 ==> IsName(list[i - 1]) && Le(list[i - 1], name)
    ensures var k := Place(list, i, name);
            Ordered(list[..k] + [name] + list[k..], i)
    decreases |list| - i
  {
    var k := Place(list, i, name);
    var list' := list[..k] + [name] + list[k..];
    if i < |list| {
      StrLtIsLt(list[i], name);
      LtTotal(list[i], name);
    }
    if i < k {
      InsertKeepsOrdered(list, i + 1, name);
      if i + 1 < k {
        assert list'[i + 1] == list[i + 1];
      }
    } else {
      OrderedShift(list, k, name, k);
    }
  }

  /** The part behind the insertion is as before. */
  lemma {:induction false} OrderedShift(list: seq<Path>, k: nat, name: Path, j: nat)
    requires k <= j <= |list| && Ordered(list, j)
    ensures Ordered(list[..k] + [name] + list[k..], j + 1)
    decreases |list| - j
  {
    if j < |list| {
      OrderedShift(list, k, name, j + 1);
    }
  }

  /** fs_insert: the new list and the place of the new name, which is the next hint. */
  method FsInsert(list: seq<Path>, last: Option<nat>, name: Path) returns (list': seq<Path>, at: nat)
    requires Ordered(list, 0) && IsName(name) && (last.Some? ==> last.value < |list|)
    ensures list' == Inserted(list, name) && Ordered(list', 0)
    ensures at < |list'| && list'[at] == name
    ensures forall n :: n in list' <==> n in list || n == name
    ensures Strict(list, 0) && name !in list ==> Strict(list', 0)
  {
    at := 0;
    if last.Some? && StrLt(list[last.value], name) {
      HintIsSound(list, 0, last.value, name);
      at := last.value + 1;
    }
    while at < |list| && StrLt(list[at], name)
      invariant at <= |list| && Place(list, at, name) == Place(list, 0, name)
    {
      at := at + 1;
    }
    list' := list[..at] + [name] + list[at..];
    InsertKeepsOrdered(list, 0, name);
    if Strict(list, 0) && name !in list {
      InsertKeepsStrict(list, 0, name);
    }
    assert list == list[..at] + list[at..];
  }

  /* ---- lists without duplicates, which are what directories give ---- */

  predicate Strict(list: seq<Path>, i: nat)
    decreases |list| - i
  {
    i + 1 < |list| ==> Lt(list[i], list[i + 1]) && Strict(list, i + 1)
  }

  lemma {:induction false} StrictAt(list: seq<Path>, i: nat, j: nat)
    requires Strict(list, i) && i < j < |list|
    ensures Lt(list[j - 1], list[j])
    decreases j - i
  {
    if i + 1 < j {
      StrictAt(list, i + 1, j);
    }
  }

  lemma {:induction false} StrictShift(list: seq<Path>, k: nat, name: Path, j: nat)
    requires k <= j <= |list| && Strict(list, j)
    ensures Strict(list[..k] + [name] + list[k..], j + 1)
    decreases |list| - j
  {
    if j < |list| {
      StrictShift(list, k, name, j + 1);
    }
  }

  /** A new name keeps the order strict. */
  lemma {:induction false} InsertKeepsStrict(list: seq<Path>, i: nat, name: Path)
    requires Ordered(list, i) && Strict(list, i) && IsName(name) && name !in list && i <= |list|
    ensures var k := Place(list, i, name);
            Strict(list[..k] + [name] + list[k..], i)
    decreases |list| - i
  {
    var k := Place(list, i, name);
    var list' := list[..k] + [name] + list[k..];
    if i < |list| {
      StrLtIsLt(list[i], name);
      LtTotal(list[i], name);
    }
    if i < k {
      InsertKeepsStrict(list, i + 1, name);
      if i + 1 < k {
        assert list'[i + 1] == list[i + 1];
      }
    } else {
      StrictShift(list, k, name, k);
    }
  }
}
