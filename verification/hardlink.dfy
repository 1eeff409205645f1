/** hardlink.c: the index of multiply linked files, by device and then by inode. */
module Hardlinks {
  import opened Options
  import opened Paths
  import Entries
  import Journal

  /* ---- sorted lists of keys and values ---- */

  datatype Keyed<T> = Keyed(key: int, value: T)

  predicate Sorted<T>(s: seq<Keyed<T>>) {
    forall i, j :: 0 <= i < j < |s| ==> s[i].key < s[j].key
  }

  function FindFrom<T>(s: seq<Keyed<T>>, i: nat, key: int): Option<T>
    requires i <= |s|
    decreases |s| - i
  {
    if i == |s| then None else if s[i].key == key then Some(s[i].value) else FindFrom(s, i + 1, key)
  }

  function Find<T>(s: seq<Keyed<T>>, key: int): Option<T> {
    FindFrom(s, 0, key)
  }

  lemma {:induction false} FindAt<T>(s: seq<Keyed<T>>, i: nat, k: nat)
    requires Sorted(s) && i <= k < |s|
    ensures FindFrom(s, i, s[k].key) == Some(s[k].value)
    decreases k - i
  {
    if i < k {
      FindAt(s, i + 1, k);
    }
  }

  lemma {:induction false} FindsSome<T>(s: seq<Keyed<T>>, i: nat, key: int) returns (k: nat)
    requires i <= |s| && FindFrom(s, i, key).Some?
    ensures i <= k < |s| && s[k].key == key && FindFrom(s, i, key) == Some(s[k].value)
    decreases |s| - i
  {
    if s[i].key == key {
      k := i;
    } else {
      k := FindsSome(s, i + 1, key);
    }
  }

  /** Where `key` is, or belongs. */
  predicate Place<T>(s: seq<Keyed<T>>, key: int, k: nat) {
    && k <= |s| && (forall j :: 0 <= j < k ==> s[j].key < key)
    && forall j :: k <= j < |s| ==> key <= s[j].key
  }

  function Insert<T>(s: seq<Keyed<T>>, k: nat, e: Keyed<T>): seq<Keyed<T>>
    requires k <= |s|
  {
    s[..k] + [e] + s[k..]
  }

  lemma {:induction false} PlaceFinds<T>(s: seq<Keyed<T>>, key: int, k: nat)
    requires Sorted(s) && Place(s, key, k)
    ensures Find(s, key) == if k < |s| && s[k].key == key then Some(s[k].value) else None
  {
    if k < |s| && s[k].key == key {
      FindAt(s, 0, k);
    } else if Find(s, key).Some? {
      var j := FindsSome(s, 0, key);
    }
  }

  lemma {:induction false} InsertAt<T>(s: seq<Keyed<T>>, k: nat, e: Keyed<T>, j: nat)
    requires k <= |s| && j <= |s|
    ensures Insert(s, k, e)[j] == if j < k then s[j] else if j == k then e else s[j - 1]
  {
  }

  lemma {:induction false} InsertSorted<T>(s: seq<Keyed<T>>, k: nat, e: Keyed<T>)
    requires Sorted(s) && Place(s, e.key, k) && Find(s, e.key) == None
    ensures Sorted(Insert(s, k, e))
  {
    PlaceFinds(s, e.key, k);
    var t := Insert(s, k, e);
    forall i, j | 0 <= i < j < |t|
      ensures t[i].key < t[j].key
    {
      InsertAt(s, k, e, i);
      InsertAt(s, k, e, j);
    }
  }

  lemma {:induction false} InsertFinds<T>(s: seq<Keyed<T>>, k: nat, e: Keyed<T>, key: int)
    requires Sorted(s) && Place(s, e.key, k) && Find(s, e.key) == None
    ensures Sorted(Insert(s, k, e))
    ensures Find(Insert(s, k, e), key) == if key == e.key then Some(e.value) else Find(s, key)
  {
    var t := Insert(s, k, e);
    InsertSorted(s, k, e);
    if key == e.key {
      InsertAt(s, k, e, k);
      FindAt(t, 0, k);
    } else if Find(s, key).Some? {
      var j := FindsSome(s, 0, key);
      var j' := if j < k then j else j + 1;
      InsertAt(s, k, e, j');
      FindAt(t, 0, j');
    } else if Find(t, key).Some? {
      var j := FindsSome(t, 0, key);
      InsertAt(s, k, e, j);
      FindAt(s, 0, if j < k then j else j - 1);
    }
  }

  lemma {:induction false} UpdateFinds<T>(s: seq<Keyed<T>>, k: nat, v: T, key: int)
    requires Sorted(s) && k < |s|
    ensures Sorted(s[k := s[k].(value := v)])
    ensures Find(s[k := s[k].(value := v)], key) == if key == s[k].key then Some(v) else Find(s, key)
  {
    var t := s[k := s[k].(value := v)];
    if key == s[k].key {
      FindAt(t, 0, k);
    } else if Find(s, key).Some? {
      var j := FindsSome(s, 0, key);
      assert t[j] == s[j];
      FindAt(t, 0, j);
    } else if Find(t, key).Some? {
      var j := FindsSome(t, 0, key);
      FindAt(s, 0, j);
    }
  }

  /* ---- the two levels ---- */

  /** What is kept of an inode: the name it was first seen under, and i_flag. */
  datatype Link = Link(name: Path, changed: bool)

  type Inodes = seq<Keyed<Link>>

  type Devices = seq<Keyed<Inodes>>

  predicate WellSorted(ds: Devices) {
    Sorted(ds) && forall i :: 0 <= i < |ds| ==> Sorted(ds[i].value)
  }

  function Lookup(ds: Devices, dev: int, ino: int): Option<Link> {
    match Find(ds, dev)
    case None => None
    case Some(il) => Find(il, ino)
  }

  type Index = map<(int, int), Link>

  /** The lists hold what the map does. */
  ghost predicate Refines(ds: Devices, index: Index) {
    forall dev, ino :: Lookup(ds, dev, ino) == if (dev, ino) in index then Some(index[(dev, ino)]) else None
  }

  /** A first sight enters the name; a further one changes nothing. */
  function AfterSeen(index: Index, dev: int, ino: int, name: Path): Index {
    if (dev, ino) in index then index else index[(dev, ino) := Link(name, false)]
  }

  function AfterChanged(index: Index, dev: int, ino: int, set_: bool): Index {
    if (dev, ino) in index && set_ then index[(dev, ino) := index[(dev, ino)].(changed := true)] else index
  }

  lemma {:induction false} NewInode(ds: Devices, index: Index, d: nat, il: Inodes, k: nat, ino: int, link: Link)
    requires WellSorted(ds) && Refines(ds, index) && d < |ds| && il == ds[d].value
    requires Place(il, ino, k) && Find(il, ino) == None
    ensures var ds' := ds[d := ds[d].(value := Insert(il, k, Keyed(ino, link)))];
            WellSorted(ds') && Refines(ds', index[(ds[d].key, ino) := link])
  {
    var il' := Insert(il, k, Keyed(ino, link));
    var ds' := ds[d := ds[d].(value := il')];
    FindAt(ds, 0, d);
    forall dev, i
      ensures Lookup(ds', dev, i) == if dev == ds[d].key && i == ino then Some(link) else Lookup(ds, dev, i)
    {
      UpdateFinds(ds, d, il', dev);
      InsertFinds(il, k, Keyed(ino, link), i);
    }
    InsertFinds(il, k, Keyed(ino, link), ino);
    UpdateFinds(ds, d, il', 0);
  }

  lemma {:induction false} NewDevice(ds: Devices, index: Index, k: nat, dev: int)
    requires WellSorted(ds) && Refines(ds, index) && Place(ds, dev, k) && Find(ds, dev) == None
    ensures var ds' := Insert(ds, k, Keyed(dev, []));
            WellSorted(ds') && Refines(ds', index)
  {
    var ds' := Insert(ds, k, Keyed(dev, []));
    forall d, i
      ensures Lookup(ds', d, i) == Lookup(ds, d, i)
    {
      InsertFinds(ds, k, Keyed(dev, []), d);
    }
    InsertFinds(ds, k, Keyed(dev, []), dev);
    assert forall j :: 0 <= j < |ds'| ==>
                         ds'[j] == if j < k then ds[j] else if j == k then Keyed(dev, []) else ds[j - 1];
  }

  class HardlinkIndex {
    var devHead: Devices          // dev_head
    ghost var index: Index

    ghost predicate Valid()
      reads this
    {
      WellSorted(devHead) && Refines(devHead, index)
    }

    constructor ()
      ensures Valid() && index == map[]
    {
      devHead, index := [], map[];
    }

    /** The search loops: to the first key that is not less. */
    static method Search<T>(s: seq<Keyed<T>>, key: int) returns (k: nat)
      requires Sorted(s)
      ensures Place(s, key, k)
    {
      k := 0;
      while k < |s| && s[k].key < key
        invariant k <= |s| && forall j :: 0 <= j < k ==> s[j].key < key
      {
        k := k + 1;
      }
    }

    /** d_insert. */
    method DInsert(dev: int) returns (d: nat)
      requires Valid()
      modifies this`devHead
      ensures Valid() && d < |devHead| && devHead[d].key == dev
    {
      d := Search(devHead, dev);
      PlaceFinds(devHead, dev, d);
      if d < |devHead| && devHead[d].key == dev { return; }
      NewDevice(devHead, index, d, dev);
      devHead := devHead[..d] + [Keyed(dev, [])] + devHead[d..];
    }

    /** hardlink: nothing at the first sight of an inode, and later the name of the first. */
    method Hardlink(dev: int, ino: int, name: Path) returns (r: Option<Path>)
      requires Valid()
      modifies this
      ensures Valid() && index == AfterSeen(old(index), dev, ino, name)
      ensures r == if (dev, ino) in old(index) then Some(old(index)[(dev, ino)].name) else None
    {
      var d := DInsert(dev);
      var il := devHead[d].value;
      var k := Search(il, ino);
      FindAt(devHead, 0, d);
      PlaceFinds(il, ino, k);
      assert Lookup(devHead, dev, ino) == Find(il, ino);
      if k < |il| && il[k].key == ino {
        return Some(il[k].value.name);
      }
      NewInode(devHead, index, d, il, k, ino, Link(name, false));
      devHead := devHead[d := devHead[d].(value := il[..k] + [Keyed(ino, Link(name, false))] + il[k..])];
      index := index[(dev, ino) := Link(name, false)];
      r := None;
    }

    /** hardlink_changed; None where the C code exits over an inode it has not seen. */
    method HardlinkChanged(dev: int, ino: int, set_: bool) returns (r: Option<bool>)
      requires Valid()
      modifies this
      ensures Valid() && index == AfterChanged(old(index), dev, ino, set_)
      ensures r == if (dev, ino) in index then Some(index[(dev, ino)].changed) else None
    {
      var d := Search(devHead, dev);
      PlaceFinds(devHead, dev, d);
      assert Lookup(devHead, dev, ino) == if (dev, ino) in index then Some(index[(dev, ino)]) else None;
      if d == |devHead| || devHead[d].key != dev { return None; }
      var il := devHead[d].value;
      var k := Search(il, ino);
      PlaceFinds(il, ino, k);
      if k == |il| || il[k].key != ino { return None; }
      if set_ {
        var link := il[k].value.(changed := true);
        Marked(devHead, index, d, il, k, link);
        devHead := devHead[d := devHead[d].(value := il[k := il[k].(value := link)])];
        index := index[(dev, ino) := link];
        return Some(true);
      }
      r := Some(il[k].value.changed);
    }
  }

  lemma {:induction false} Marked(ds: Devices, index: Index, d: nat, il: Inodes, k: nat, link: Link)
    requires WellSorted(ds) && Refines(ds, index) && d < |ds| && il == ds[d].value && k < |il|
    ensures var ds' := ds[d := ds[d].(value := il[k := il[k].(value := link)])];
            WellSorted(ds') && Refines(ds', index[(ds[d].key, il[k].key) := link])
  {
    var il' := il[k := il[k].(value := link)];
    var ds' := ds[d := ds[d].(value := il')];
    FindAt(ds, 0, d);
    forall dev, i
      ensures Lookup(ds', dev, i) == if dev == ds[d].key && i == il[k].key then Some(link) else Lookup(ds, dev, i)
    {
      UpdateFinds(ds, d, il', dev);
      UpdateFinds(il, k, link, i);
    }
    UpdateFinds(il, k, link, 0);
    UpdateFinds(ds, d, il', 0);
  }

  /* ---- sequences of calls ---- */

  datatype Call = Seen(dev: int, ino: int, name: Path) | Changed(dev: int, ino: int, set_: bool)

  function Key(c: Call): (int, int) {
    (c.dev, c.ino)
  }

  function AfterCall(index: Index, c: Call): Index {
    match c
    case Seen(dev, ino, name) => AfterSeen(index, dev, ino, name)
    case Changed(dev, ino, set_) => AfterChanged(index, dev, ino, set_)
  }

  function After(calls: seq<Call>): Index {
    if calls == [] then map[] else AfterCall(After(calls[..|calls| - 1]), calls[|calls| - 1])
  }

  predicate SightOf(c: Call, key: (int, int)) {
    c.Seen? && Key(c) == key
  }

  predicate WasSeen(calls: seq<Call>, key: (int, int)) {
    exists j :: 0 <= j < |calls| && SightOf(calls[j], key)
  }

  /** The first sight of an inode among some calls. */
  predicate FirstSeen(calls: seq<Call>, i: nat, key: (int, int)) {
    i < |calls| && SightOf(calls[i], key) && forall j :: 0 <= j < i ==> !SightOf(calls[j], key)
  }

  predicate Marks(c: Call, key: (int, int)) {
    c.Changed? && c.set_ && Key(c) == key
  }

  predicate MarkedAfter(calls: seq<Call>, i: nat, key: (int, int)) {
    exists j :: i < j < |calls| && Marks(calls[j], key)
  }

  /** After any calls the index holds exactly the inodes seen. */
  lemma {:induction false} IndexHoldsSeen(calls: seq<Call>, key: (int, int))
    ensures key in After(calls) <==> WasSeen(calls, key)
  {
    if calls != [] {
      var n := |calls| - 1;
      var front := calls[..n];
      IndexHoldsSeen(front, key);
      if WasSeen(front, key) {
        var j :| 0 <= j < n && SightOf(front[j], key);
        assert calls[j] == front[j];
      }
      if WasSeen(calls, key) && !SightOf(calls[n], key) {
        var j :| 0 <= j < |calls| && SightOf(calls[j], key);
        assert front[j] == calls[j];
      }
    }
  }

  /** Each is held under the name of its first sight, and marked exactly if a call has
      marked it since: a mark is never taken back. */
  lemma {:induction false} IndexIsFirstSight(calls: seq<Call>, i: nat, key: (int, int))
    requires FirstSeen(calls, i, key)
    ensures key in After(calls) && After(calls)[key] == Link(calls[i].name, MarkedAfter(calls, i, key))
  {
    var n := |calls| - 1;
    var front := calls[..n];
    IndexHoldsSeen(calls, key);
    if i == n {
      assert forall j :: 0 <= j < n ==> front[j] == calls[j];
      IndexHoldsSeen(front, key);
    } else {
      assert front[i] == calls[i] && forall j :: 0 <= j < i ==> front[j] == calls[j];
      IndexIsFirstSight(front, i, key);
      MarkedSoFar(calls, i, key);
    }
  }

  lemma {:induction false} MarkedSoFar(calls: seq<Call>, i: nat, key: (int, int))
    requires i < |calls| - 1
    ensures MarkedAfter(calls, i, key) <==>
            MarkedAfter(calls[..|calls| - 1], i, key) || Marks(calls[|calls| - 1], key)
  {
    var n := |calls| - 1;
    var front := calls[..n];
    if MarkedAfter(front, i, key) {
      var j :| i < j < n && Marks(front[j], key);
      assert Marks(calls[j], key);
    }
    if MarkedAfter(calls, i, key) && !Marks(calls[n], key) {
      var j :| i < j < |calls| && Marks(calls[j], key);
      assert Marks(front[j], key);
    }
  }

  lemma {:induction false} FirstAmong(calls: seq<Call>, j: nat, key: (int, int)) returns (i: nat)
    requires j < |calls| && SightOf(calls[j], key)
    ensures i <= j && FirstSeen(calls, i, key)
    decreases j
  {
    if k: nat :| k < j && SightOf(calls[k], key) {
      i := FirstAmong(calls, k, key);
    } else {
      i := j;
    }
  }

  /** Where the names come in path order, the name a link is reported to is smaller. */
  lemma {:induction false} LinksPointBack(calls: seq<Call>, c: Call)
    requires c.Seen? && forall j :: 0 <= j < |calls| && calls[j].Seen? ==> Lt(calls[j].name, c.name)
    requires Key(c) in After(calls)
    ensures Lt(After(calls)[Key(c)].name, c.name)
  {
    IndexHoldsSeen(calls, Key(c));
    var j: nat :| j < |calls| && SightOf(calls[j], Key(c));
    var i := FirstAmong(calls, j, Key(c));
    IndexIsFirstSight(calls, i, Key(c));
  }

  /** The calls made in a run so far are for names met before the `k`-th. */
  predicate CallsOf(names: seq<Path>, k: nat, calls: seq<Call>) {
    k <= |names| && forall j :: 0 <= j < |calls| && calls[j].Seen? ==> calls[j].name in names[..k]
  }

  /** In a run of fsdiff a link's target, the name first met of its inode, is strictly before
      the link, whatever marks are set between. */
  lemma {:induction false} RunLinksPointBack(c: Journal.Input, evs: seq<Entries.Event>, k: nat, calls: seq<Call>,
                                             call: Call)
    requires Journal.Kept(c, evs) && k < |evs| && call.Seen? && call.name == evs[k].path
    requires CallsOf(seq(|evs|, i requires 0 <= i < |evs| => evs[i].path), k, calls)
    requires Key(call) in After(calls)
    ensures Lt(After(calls)[Key(call)].name, evs[k].path)
  {
    Journal.KeptInPathOrder(c, evs);
    var names := seq(|evs|, i requires 0 <= i < |evs| => evs[i].path);
    forall j | 0 <= j < |calls| && calls[j].Seen?
      ensures Lt(calls[j].name, call.name)
    {
      var i :| 0 <= i < k && names[..k][i] == calls[j].name;
      Journal.IndexBefore(evs, i, k);
    }
    LinksPointBack(calls, call);
  }
}
