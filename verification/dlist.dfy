/** list.c: the doubly linked list of paths. */
module Lists {
  import opened Paths
  import opened PathCmp

  /* ---- the sequences the operations compute ---- */

  /** Where list_insert_case puts a path: before the first one that sorts after it. */
  function PlaceFor(s: seq<Path>, i: nat, p: Path, cs: bool): (k: nat)
    requires i <= |s|
    ensures i <= k <= |s|
    ensures forall j :: i <= j < k ==> Cmp(s[j], p, cs) <= 0
    ensures k < |s| ==> Cmp(s[k], p, cs) > 0
    decreases |s| - i
  {
    if i == |s| || Cmp(s[i], p, cs) > 0 then i else PlaceFor(s, i + 1, p, cs)
  }

  function InsertAt(s: seq<Path>, k: nat, p: Path): seq<Path>
    requires k <= |s|
  {
    s[..k] + [p] + s[k..]
  }

  function InsertCase(s: seq<Path>, p: Path, cs: bool): seq<Path> {
    InsertAt(s, PlaceFor(s, 0, p, cs), p)
  }

  function Without(s: seq<Path>, p: Path): (r: seq<Path>)
    ensures |r| <= |s|
  {
    if s == [] then []
    else
      var front := Without(s[..|s| - 1], p);
      if s[|s| - 1] == p then front else front + [s[|s| - 1]]
  }

  predicate Ascending(s: seq<Path>, cs: bool) {
    forall i, j :: 0 <= i < j < |s| ==> Cmp(s[i], s[j], cs) <= 0
  }

  /** The order is a total preorder on these paths: with case always, else if ASCII. */
  predicate Comparable(s: seq<Path>, p: Path, cs: bool) {
    cs || (Ascii(p) && forall i :: 0 <= i < |s| ==> Ascii(s[i]))
  }

  lemma {:induction false} CmpTransitive(a: Path, b: Path, c: Path, cs: bool)
    requires cs || (Ascii(a) && Ascii(b) && Ascii(c))
    requires Cmp(a, b, cs) <= 0 && Cmp(b, c, cs) <= 0
    ensures Cmp(a, c, cs) <= 0 && (Cmp(b, a, cs) > 0 ==> Cmp(a, b, cs) <= 0)
  {
    if cs {
      PathCmpIsStrictTotalOrder(a, b, c);
      PathCmpIsStrictTotalOrder(b, c, a);
    } else {
      CaseInsensitiveIsTotalPreorder(a, b, c);
    }
  }

  lemma {:induction false} CmpFlips(a: Path, b: Path, cs: bool)
    requires cs || (Ascii(a) && Ascii(b))
    ensures Cmp(a, b, cs) == -Cmp(b, a, cs)
  {
    if cs {
      PathCmpIsStrictTotalOrder(a, b, a);
    } else {
      CaseInsensitiveIsTotalPreorder(a, b, a);
    }
  }

  /** All from the place on come after the new path. */
  lemma {:induction false} AfterPlace(s: seq<Path>, p: Path, cs: bool, j: nat)
    requires Ascending(s, cs) && Comparable(s, p, cs) && PlaceFor(s, 0, p, cs) <= j < |s|
    ensures Cmp(p, s[j], cs) < 0 && Cmp(s[j], p, cs) > 0
  {
    var k := PlaceFor(s, 0, p, cs);
    CmpFlips(s[k], p, cs);
    CmpReflexive(s[k], cs);
    AfterIsAfter(p, s[k], s[j], cs);
  }

  /** The insertion keeps the list sorted, and is stable: what compares equal to the new
      path stays before it. */
  lemma {:induction false} InsertKeepsAscending(s: seq<Path>, p: Path, cs: bool)
    requires Ascending(s, cs) && Comparable(s, p, cs)
    ensures Ascending(InsertCase(s, p, cs), cs)
    ensures forall j :: 0 <= j < |s| && Cmp(s[j], p, cs) == 0 ==> j < PlaceFor(s, 0, p, cs)
  {
    var k := PlaceFor(s, 0, p, cs);
    var t := InsertAt(s, k, p);
    forall j | k <= j < |s|
      ensures Cmp(p, s[j], cs) < 0 && Cmp(s[j], p, cs) > 0
    {
      AfterPlace(s, p, cs, j);
    }
    forall i, j | 0 <= i < j < |t|
      ensures Cmp(t[i], t[j], cs) <= 0
    {
      assert t[i] == if i < k then s[i] else if i == k then p else s[i - 1];
      assert t[j] == if j < k then s[j] else if j == k then p else s[j - 1];
    }
  }

  lemma {:induction false} CmpReflexive(a: Path, cs: bool)
    ensures Cmp(a, a, cs) == 0
  {
    if |a| > 0 {
      CmpReflexive(a[1..], cs);
    }
  }

  /** What is not before something after `p` is after `p`. */
  lemma {:induction false} AfterIsAfter(p: Path, a: Path, b: Path, cs: bool)
    requires cs || (Ascii(p) && Ascii(a) && Ascii(b))
    requires Cmp(p, a, cs) < 0 && Cmp(a, b, cs) <= 0
    ensures Cmp(p, b, cs) < 0 && Cmp(b, p, cs) > 0
  {
    CmpFlips(p, b, cs);
    if Cmp(p, b, cs) >= 0 {
      CmpTransitive(a, b, p, cs);
      CmpFlips(a, p, cs);
    }
  }

  lemma {:induction false} WithoutCounts(s: seq<Path>, p: Path)
    ensures multiset(Without(s, p)) == multiset(s)[p := 0]
  {
    if s != [] {
      var front := s[..|s| - 1];
      WithoutCounts(front, p);
      assert s == front + [s[|s| - 1]];
    }
  }

  /* ---- the linked list ---- */

  class Node {
    const path: Path      // n_path: set once
    var next: Node?
    var prev: Node?

    constructor (path: Path)
      ensures this.path == path && next == null && prev == null
    {
      this.path := path;
      next, prev := null, null;
    }
  }

  /** The node at `i`, or null outside. */
  function NodeAt(s: seq<Node>, i: int): Node? {
    if 0 <= i < |s| then s[i] else null
  }

  function Nth(s: seq<Node>, i: nat): Node
    requires i < |s|
  {
    s[i]
  }

  predicate Distinct(s: seq<Node>) {
    forall i, j {:trigger Nth(s, i), Nth(s, j)} :: 0 <= i < j < |s| ==> Nth(s, i) != Nth(s, j)
  }

  lemma {:induction false} OthersDiffer(s: seq<Node>, k: nat)
    requires Distinct(s) && k < |s|
    ensures forall i :: 0 <= i < |s| && i != k ==> s[i] != s[k]
  {
    forall i | 0 <= i < |s| && i != k
      ensures s[i] != s[k]
    {
      assert Nth(s, i) == s[i] && Nth(s, k) == s[k];
    }
  }

  lemma {:induction false} DistinctWithNew(s: seq<Node>, k: nat, n: Node)
    requires Distinct(s) && k <= |s| && n !in s
    ensures Distinct(s[..k] + [n] + s[k..])
  {
    var t := s[..k] + [n] + s[k..];
    forall i, j | 0 <= i < j < |t|
      ensures Nth(t, i) != Nth(t, j)
    {
      assert t[i] == if i < k then s[i] else if i == k then n else s[i - 1];
      assert t[j] == if j < k then s[j] else if j == k then n else s[j - 1];
      if i != k && j != k {
        assert Nth(s, if i < k then i else i - 1) != Nth(s, if j < k then j else j - 1);
      }
    }
  }

  lemma {:induction false} DistinctWithout(s: seq<Node>, k: nat)
    requires Distinct(s) && k < |s|
    ensures Distinct(s[..k] + s[k + 1..])
  {
    var t := s[..k] + s[k + 1..];
    forall i, j | 0 <= i < j < |t|
      ensures Nth(t, i) != Nth(t, j)
    {
      assert Nth(s, if i < k then i else i + 1) != Nth(s, if j < k then j else j + 1);
    }
  }

  /** The pointers of the node at `i` lead to its neighbours. */
  ghost predicate LinkOk(s: seq<Node>, i: nat)
    requires i < |s|
    reads s
  {
    s[i].next == NodeAt(s, i + 1) && s[i].prev == NodeAt(s, i - 1)
  }

  /** All pointers lead to the neighbours, and no node occurs twice. */
  ghost predicate Chained(s: seq<Node>)
    reads s
  {
    Distinct(s) && forall i {:trigger LinkOk(s, i)} :: 0 <= i < |s| ==> LinkOk(s, i)
  }

  function PathsOf(s: seq<Node>): (r: seq<Path>)
    ensures |r| == |s| && forall i :: 0 <= i < |r| ==> r[i] == s[i].path
  {
    if s == [] then [] else PathsOf(s[..|s| - 1]) + [s[|s| - 1].path]
  }

  lemma {:induction false} PathsOfInserted(s: seq<Node>, k: nat, n: Node)
    requires k <= |s|
    ensures PathsOf(s[..k] + [n] + s[k..]) == InsertAt(PathsOf(s), k, n.path)
  {
  }

  lemma {:induction false} PathsOfRemoved(s: seq<Node>, k: nat)
    requires k < |s|
    ensures PathsOf(s[..k] + s[k + 1..]) == PathsOf(s)[..k] + PathsOf(s)[k + 1..]
  {
  }

  class List {
    var head: Node?
    var tail: Node?
    var count: int
    ghost var spine: seq<Node>

    ghost predicate Valid()
      reads this, spine
    {
      && Chained(spine) && count == |spine|
      && head == NodeAt(spine, 0) && tail == NodeAt(spine, |spine| - 1)
    }

    ghost function Contents(): seq<Path>
      reads this
    {
      PathsOf(spine)
    }

    /** list_new. */
    constructor ()
      ensures Valid() && Contents() == [] && spine == []
    {
      head, tail, count, spine := null, null, 0, [];
    }

    /** list_insert_head. */
    method InsertHead(path: Path) returns (node: Node)
      requires Valid()
      modifies this, NodeSet(spine)
      ensures fresh(node) && node.path == path && Valid() && spine == [node] + old(spine)
    {
      ghost var s := spine;
      assert s != [] ==> LinkOk(s, 0);
      node := new Node(path);
      if head == null {
        tail := node;
      } else {
        head.prev := node;
        node.next := head;
      }
      head := node;
      count := count + 1;
      spine := [node] + spine;
      assert Distinct(spine) by {
        DistinctWithNew(s, 0, node);
        assert s[..0] + [node] + s[0..] == [node] + s;
      }
      forall i | 0 <= i < |spine|
        ensures LinkOk(spine, i)
      {
        if i > 0 {
          assert old(LinkOk(s, i - 1)) && spine[i] == s[i - 1];
          OthersDiffer(s, 0);
        }
      }
    }

    /** list_insert_tail. */
    method InsertTail(path: Path) returns (node: Node)
      requires Valid()
      modifies this, NodeSet(spine)
      ensures fresh(node) && node.path == path && Valid() && spine == old(spine) + [node]
    {
      ghost var s, n := spine, |spine|;
      assert s != [] ==> LinkOk(s, n - 1);
      node := new Node(path);
      if tail == null {
        head := node;
      } else {
        tail.next := node;
        node.prev := tail;
      }
      tail := node;
      count := count + 1;
      spine := spine + [node];
      assert Distinct(spine) by {
        DistinctWithNew(s, n, node);
        assert s[..n] + [node] + s[n..] == s + [node];
      }
      forall i | 0 <= i < |spine|
        ensures LinkOk(spine, i)
      {
        if i < n {
          assert old(LinkOk(s, i)) && spine[i] == s[i];
          OthersDiffer(s, n - 1);
        }
      }
    }

    /** The middle case of list_insert_case: before the node `cur`. */
    method InsertBefore(cur: Node, path: Path, ghost k: nat) returns (node: Node)
      requires Valid() && 0 < k < |spine| && cur == spine[k]
      modifies this, NodeSet(spine)
      ensures fresh(node) && node.path == path && Valid()
      ensures spine == old(spine)[..k] + [node] + old(spine)[k..]
    {
      ghost var s := spine;
      assert LinkOk(s, k) && LinkOk(s, k - 1);
      assert s[k - 1] != s[k] by { OthersDiffer(s, k); }
      node := new Node(path);
      node.next := cur;
      cur.prev.next := node;
      node.prev := cur.prev;
      cur.prev := node;
      count := count + 1;
      spine := spine[..k] + [node] + spine[k..];
      DistinctWithNew(s, k, node);
      forall i | 0 <= i < |spine|
        ensures LinkOk(spine, i)
      {
        if i != k {
          ghost var j := if i < k then i else i - 1;
          assert old(LinkOk(s, j)) && spine[i] == s[j];
          OthersDiffer(s, k);
          OthersDiffer(s, k - 1);
        }
      }
    }

    /** The search loop of list_insert_case. */
    method Search(path: Path, caseSensitive: bool) returns (cur: Node?, ghost k: nat)
      requires Valid()
      ensures k == PlaceFor(Contents(), 0, path, caseSensitive) && cur == NodeAt(spine, k)
    {
      cur, k := head, 0;
      while cur != null
        invariant 0 <= k <= |spine| && cur == NodeAt(spine, k)
        invariant PlaceFor(PathsOf(spine), k, path, caseSensitive) == PlaceFor(PathsOf(spine), 0, path, caseSensitive)
        decreases |spine| - k
      {
        var cmp := PathCaseCmp(cur.path, path, caseSensitive);
        if cmp > 0 {
          break;
        }
        assert LinkOk(spine, k);
        cur := cur.next;
        k := k + 1;
      }
    }

    /** The three cases of list_insert_case: at the tail, at the head, in the middle. */
    method InsertAtNode(cur: Node?, path: Path, ghost k: nat) returns (node: Node)
      requires Valid() && k <= |spine| && cur == NodeAt(spine, k)
      modifies this, NodeSet(spine)
      ensures fresh(node) && node.path == path && Valid()
      ensures spine == old(spine)[..k] + [node] + old(spine)[k..]
    {
      if cur == null {
        node := InsertTail(path);
      } else {
        assert LinkOk(spine, k);
        if cur.prev == null {
          node := InsertHead(path);
        } else {
          node := InsertBefore(cur, path, k);
        }
      }
    }

    /** list_insert_case. */
    method InsertSorted(path: Path, caseSensitive: bool) returns (node: Node)
      requires Valid()
      modifies this, NodeSet(spine)
      ensures Valid() && Contents() == InsertCase(old(Contents()), path, caseSensitive)
      ensures fresh(node) && NodeSet(spine) == old(NodeSet(spine)) + {node}
    {
      var cur;
      ghost var k;
      cur, k := Search(path, caseSensitive);
      node := InsertAtNode(cur, path, k);
      PathsOfInserted(old(spine), k, node);
      NodesOfInserted(old(spine), k, node);
    }

    /** list_pop_tail. */
    method PopTail() returns (node: Node?)
      requires Valid()
      modifies this, NodeSet(spine)
      ensures Valid() && node == old(tail)
      ensures spine == if old(spine) == [] then [] else old(spine)[..|old(spine)| - 1]
      ensures node != null ==> node.next == null
    {
      if tail == null {
        return null;
      }
      ghost var s, n := spine, |spine|;
      assert LinkOk(s, n - 1);
      node := tail;
      if count == 1 {
        tail := null;
        head := null;
      } else {
        assert LinkOk(s, n - 2);
        tail := tail.prev;
        tail.next := null;
      }
      count := count - 1;
      spine := spine[..n - 1];
      DistinctWithout(s, n - 1);
      assert s[..n - 1] + s[n..] == spine;
      forall i | 0 <= i < |spine|
        ensures LinkOk(spine, i)
      {
        assert old(LinkOk(s, i)) && spine[i] == s[i];
        OthersDiffer(s, n - 2);
      }
      assert n > 1 ==> s[n - 1] != s[n - 2] by {
        if n > 1 { OthersDiffer(s, n - 1); }
      }
    }

    /** list_pop_head. */
    method PopHead() returns (node: Node?)
      requires Valid()
      modifies this, NodeSet(spine)
      ensures Valid() && node == old(head)
      ensures spine == if old(spine) == [] then [] else old(spine)[1..]
      ensures node != null ==> node.next == old(NodeAt(spine, 1))
    {
      if head == null {
        return null;
      }
      ghost var s, n := spine, |spine|;
      assert LinkOk(s, 0);
      node := head;
      if count == 1 {
        tail := null;
        head := null;
      }
      if head != null {
        assert LinkOk(s, 1);
        head := head.next;
        head.prev := null;
      }
      count := count - 1;
      spine := spine[1..];
      DistinctWithout(s, 0);
      assert s[..0] + s[1..] == spine;
      forall i | 0 <= i < |spine|
        ensures LinkOk(spine, i)
      {
        assert old(LinkOk(s, i + 1)) && spine[i] == s[i + 1];
        OthersDiffer(s, 1);
      }
      assert n > 1 ==> s[0] != s[1] by {
        if n > 1 { OthersDiffer(s, 1); }
      }
    }

    /** The middle case of list_remove. */
    method Unlink(cur: Node, ghost k: nat)
      requires Valid() && 0 < k < |spine| - 1 && cur == spine[k]
      modifies this, NodeSet(spine)
      ensures Valid() && spine == old(spine)[..k] + old(spine)[k + 1..]
      ensures cur.next == old(spine)[k + 1]
    {
      ghost var s := spine;
      assert LinkOk(s, k) && LinkOk(s, k - 1) && LinkOk(s, k + 1);
      assert s[k - 1] != s[k] && s[k] != s[k + 1] by { OthersDiffer(s, k); }
      assert s[k - 1] != s[k + 1] by { OthersDiffer(s, k - 1); }
      cur.prev.next := cur.next;
      cur.next.prev := cur.prev;
      count := count - 1;
      spine := spine[..k] + spine[k + 1..];
      DistinctWithout(s, k);
      forall i | 0 <= i < |spine|
        ensures LinkOk(spine, i)
      {
        ghost var j := if i < k then i else i + 1;
        assert old(LinkOk(s, j)) && spine[i] == s[j];
        OthersDiffer(s, k - 1);
        OthersDiffer(s, k + 1);
      }
    }

    /** Take the node at `k` out, as list_remove does; its own pointer onward is still good. */
    method Drop(cur: Node, ghost k: nat)
      requires Valid() && k < |spine| && cur == spine[k]
      modifies this, NodeSet(spine)
      ensures Valid() && spine == old(spine)[..k] + old(spine)[k + 1..]
      ensures cur.next == NodeAt(spine, k)
    {
      ghost var s := spine;
      assert LinkOk(s, k);
      if head == cur {
        assert k == 0 by { OthersDiffer(s, 0); }
        var _ := PopHead();
        assert s[..k] + s[k + 1..] == s[1..];
      } else if tail == cur {
        assert k == |s| - 1 by { OthersDiffer(s, |s| - 1); }
        var _ := PopTail();
        assert s[..k] + s[k + 1..] == s[..k];
      } else {
        Unlink(cur, k);
      }
    }

    /** One turn of list_remove's loop, the `j`-th, at the node now at `k`. */
    method Visit(cur: Node, path: Path, ghost paths: seq<Path>, ghost k: nat, ghost j: nat)
      returns (gone: bool, next: Node?, ghost k': nat)
      requires Valid() && k < |spine| && cur == spine[k] && Turn(paths, path, spine, k, j)
      modifies this, NodeSet(spine)
      ensures Valid() && NodeSet(spine) <= old(NodeSet(spine))
      ensures j < |paths| && Turn(paths, path, spine, k', j + 1)
      ensures k' == (if gone then k else k + 1) && next == NodeAt(spine, k')
    {
      ghost var s := spine;
      assert LinkOk(s, k);
      gone := cur.path == path;
      if gone {
        Drop(cur, k);
      }
      k' := if gone then k else k + 1;
      NextTurn(paths, path, s, spine, k, j);
      FewerNodes(s, spine, k);
      next := cur.next;
    }

    /** list_remove: every node with this path goes, and their number comes back. */
    method Remove(path: Path) returns (removed: int)
      requires Valid()
      modifies this, NodeSet(spine)
      ensures Valid() && Contents() == Without(old(Contents()), path)
      ensures removed == multiset(old(Contents()))[path]
    {
      ghost var paths, nodes := Contents(), NodeSet(spine);
      removed := 0;
      var cur := head;
      ghost var k: nat, j: nat := 0, 0;
      FirstTurn(path, spine);
      while cur != null
        invariant Valid() && NodeSet(spine) <= nodes
        invariant removed == j - k && cur == NodeAt(spine, k)
        invariant Turn(paths, path, spine, k, j)
        decreases |paths| - j
      {
        var gone, next;
        gone, next, k := Visit(cur, path, paths, k, j);
        if gone {
          removed := removed + 1;
        }
        j := j + 1;
        cur := next;
      }
      LastTurn(paths, path, spine, k, j);
    }

    /** list_check. */
    method Check(path: Path) returns (found: bool)
      requires Valid()
      ensures found <==> path in Contents()
    {
      var cur := head;
      ghost var k := 0;
      while cur != null
        invariant 0 <= k <= |spine| && cur == NodeAt(spine, k) && path !in PathsOf(spine)[..k]
        decreases |spine| - k
      {
        var rc := PathCaseCmp(cur.path, path, true);
        if rc == 0 {
          assert PathsOf(spine)[k] == path;
          return true;
        }
        assert LinkOk(spine, k);
        assert PathsOf(spine)[..k + 1] == PathsOf(spine)[..k] + [cur.path];
        cur := cur.next;
        k := k + 1;
      }
      assert PathsOf(spine)[..k] == PathsOf(spine);
      found := false;
    }

    /** list_clear. */
    method Clear()
      requires Valid()
      modifies this, NodeSet(spine)
      ensures Valid() && Contents() == []
    {
      while tail != null
        invariant Valid() && forall i :: 0 <= i < |spine| ==> spine[i] in old(spine)
        decreases |spine|
      {
        var _ := PopTail();
      }
    }
  }

  lemma {:induction false} NodesOfInserted(s: seq<Node>, k: nat, n: Node)
    requires k <= |s|
    ensures NodeSet(s[..k] + [n] + s[k..]) == NodeSet(s) + {n}
  {
    var t := s[..k] + [n] + s[k..];
    assert t[k] == n;
    forall x | x in s
      ensures x in t
    {
      var i :| 0 <= i < |s| && s[i] == x;
      assert t[if i < k then i else i + 1] == x;
    }
  }

  lemma {:induction false} FewerNodes(s: seq<Node>, s': seq<Node>, k: nat)
    requires k < |s| && (s' == s || s' == s[..k] + s[k + 1..])
    ensures NodeSet(s') <= NodeSet(s)
  {
  }

  ghost function NodeSet(s: seq<Node>): set<Node> {
    set n | n in s
  }

  /** list_remove with the node at `k` next, which was at `j`: what it has passed is what
      should stay of that, and what follows is untouched. */
  predicate Turn(paths: seq<Path>, path: Path, s: seq<Node>, k: nat, j: nat) {
    && k <= j <= |paths| && |s| - k == |paths| - j && k <= |s|
    && PathsOf(s)[..k] == Without(paths[..j], path) && PathsOf(s)[k..] == paths[j..]
  }

  lemma {:induction false} FirstTurn(path: Path, s: seq<Node>)
    ensures Turn(PathsOf(s), path, s, 0, 0)
  {
  }

  /** The node at `k` is what was at `j`. */
  lemma {:induction false} TurnAt(paths: seq<Path>, path: Path, s: seq<Node>, k: nat, j: nat)
    requires Turn(paths, path, s, k, j) && k < |s|
    ensures j < |paths| && s[k].path == paths[j]
    ensures PathsOf(s)[k + 1..] == paths[j + 1..]
  {
    var ps := PathsOf(s);
    assert ps[k] == ps[k..][0] == paths[j..][0];
    assert ps[k + 1..] == ps[k..][1..] == paths[j..][1..];
  }

  lemma {:induction false} WithoutNext(paths: seq<Path>, path: Path, j: nat)
    requires j < |paths|
    ensures Without(paths[..j + 1], path) ==
            if paths[j] == path then Without(paths[..j], path) else Without(paths[..j], path) + [paths[j]]
  {
    assert paths[..j + 1][..j] == paths[..j];
  }

  lemma {:induction false} NextTurn(paths: seq<Path>, path: Path, s: seq<Node>, s': seq<Node>, k: nat, j: nat)
    requires Turn(paths, path, s, k, j) && k < |s|
    requires s' == if s[k].path == path then s[..k] + s[k + 1..] else s
    ensures j < |paths| && Turn(paths, path, s', if s[k].path == path then k else k + 1, j + 1)
  {
    var ps := PathsOf(s);
    TurnAt(paths, path, s, k, j);
    WithoutNext(paths, path, j);
    if s[k].path == path {
      PathsOfRemoved(s, k);
      assert (ps[..k] + ps[k + 1..])[..k] == ps[..k] && (ps[..k] + ps[k + 1..])[k..] == ps[k + 1..];
    } else {
      assert ps[..k + 1] == ps[..k] + [ps[k]];
    }
  }

  lemma {:induction false} LastTurn(paths: seq<Path>, path: Path, s: seq<Node>, k: nat, j: nat)
    requires Turn(paths, path, s, k, j) && k == |s|
    ensures PathsOf(s) == Without(paths, path) && j - k == multiset(paths)[path]
  {
    assert paths[..j] == paths && PathsOf(s)[..k] == PathsOf(s);
    WithoutLength(paths, path);
  }

  /** As many are left out as there are. */
  lemma {:induction false} WithoutLength(s: seq<Path>, p: Path)
    ensures |Without(s, p)| == |s| - multiset(s)[p]
  {
    if s != [] {
      var front := s[..|s| - 1];
      WithoutLength(front, p);
      assert s == front + [s[|s| - 1]];
    }
  }
}
