/** Filesystems: maps from paths to objects in the shape of a tree. */
module Trees {
  import opened Paths
  import opened Entries

  /** A filesystem below `root`: every other object is an entry of a directory in it. */
  predicate TreeShaped(m: map<Path, Obj>, root: Path) {
    && root in m && Canonical(root)
    && forall p {:trigger HasDir(m, p)} :: p in m && p != root ==> HasDir(m, p)
  }

  predicate HasDir(m: map<Path, Obj>, p: Path) {
    exists d :: d in m && EntryOf(p, d) && m[d].kind == Dir
  }

  lemma {:induction false} TreeCanonical(m: map<Path, Obj>, root: Path, p: Path)
    requires TreeShaped(m, root) && p in m
    ensures Canonical(p) && Under(p, root)
    decreases |p|
  {
    if p != root {
      assert HasDir(m, p);
      var d :| d in m && EntryOf(p, d) && m[d].kind == Dir;
      TreeCanonical(m, root, d);
      EntryUnder(p, d);
      UnderTransitive(p, d, root);
    }
  }

  /** Below a directory `d` of the tree, everything lies in the subtree of an entry of `d`. */
  lemma {:induction false} TreeEntryAbove(m: map<Path, Obj>, root: Path, q: Path, d: Path) returns (e: Path)
    requires TreeShaped(m, root) && q in m && d in m && Under(q, d) && q != d
    ensures e in m && EntryOf(e, d) && m[d].kind == Dir && Under(q, e)
    decreases |q|
  {
    TreeCanonical(m, root, q);
    TreeCanonical(m, root, d);
    if q == root {
      UnderAntisymmetric(q, d);
    }
    assert HasDir(m, q);
    var c :| c in m && EntryOf(q, c) && m[c].kind == Dir;
    TreeCanonical(m, root, c);
    if c == d {
      e := q;
    } else {
      EntryParentUnder(q, c, d);
      e := TreeEntryAbove(m, root, c, d);
      EntryUnder(q, c);
      UnderTransitive(q, c, e);
    }
  }

  /** The directory of an object other than the root. */
  lemma {:induction false} TreeDir(m: map<Path, Obj>, root: Path, p: Path) returns (d: Path)
    requires TreeShaped(m, root) && p in m && p != root
    ensures d in m && EntryOf(p, d) && m[d].kind == Dir
    ensures Canonical(d) && Under(d, root) && |d| < |p| && Under(p, d) && Lt(d, p)
  {
    assert HasDir(m, p);
    d :| d in m && EntryOf(p, d) && m[d].kind == Dir;
    TreeCanonical(m, root, d);
    EntryUnder(p, d);
  }

  lemma {:induction false} OneTreeDir(m: map<Path, Obj>, root: Path, p: Path, d: Path, e: Path)
    requires TreeShaped(m, root) && d in m && e in m && EntryOf(p, d) && EntryOf(p, e)
    ensures d == e
  {
    TreeCanonical(m, root, d);
    TreeCanonical(m, root, e);
    EntryDirUnique(p, d, e);
  }

  lemma {:induction false} NoDirOfRoot(m: map<Path, Obj>, root: Path, d: Path)
    requires TreeShaped(m, root) && d in m
    ensures !EntryOf(root, d)
  {
    TreeCanonical(m, root, d);
    if EntryOf(root, d) {
      EntryUnder(root, d);
      UnderAntisymmetric(root, d);
    }
  }

  /** Whatever is above an object and below the root is a directory there. */
  lemma {:induction false} TreeAncestor(m: map<Path, Obj>, root: Path, p: Path, x: Path)
    requires TreeShaped(m, root) && p in m && Under(p, x) && Under(x, root)
    ensures x in m && (x != p ==> m[x].kind == Dir)
    decreases |p|
  {
    if p == root {
      UnderAntisymmetric(x, root);
    } else if p != x {
      var d := TreeDir(m, root, p);
      EntryParentUnder(p, d, x);
      TreeAncestor(m, root, d, x);
    }
  }
}
