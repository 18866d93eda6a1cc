/** The on-disk state the tool works on: a tree of directories and files
    addressed by path segments, with the whole-directory operations
    (rmtree, copytree, makedirs) as functions on that tree. */
module FileTree {

  /** A path is its sequence of segments; [] is the working directory. */
  type Path = seq<string>

  datatype Node = Dir | File(content: string)

  /** A directory tree: absolute for the disk, relative for a copied subtree. */
  type Tree = map<Path, Node>

  function Parent(p: Path): Path
    requires |p| > 0
  {
    p[..|p| - 1]
  }

  predicate IsDir(t: Tree, p: Path) { p in t && t[p] == Dir }

  predicate IsFile(t: Tree, p: Path) { p in t && t[p].File? }

  /** A well-formed tree: its root is a directory and every other entry
      hangs under a directory of the same tree. */
  ghost predicate Rooted(t: Tree) {
    && IsDir(t, [])
    && forall p :: p in t && p != [] ==> IsDir(t, Parent(p))
  }

  /** Nothing is stored at or under `p`. */
  ghost predicate Vacant(t: Tree, p: Path) {
    forall q :: q in t ==> !(p <= q)
  }

  /** No prefix of `p` is a plain file, so makedirs(p) cannot fail. */
  ghost predicate NoFileAlong(t: Tree, p: Path) {
    forall i :: 0 <= i <= |p| && p[..i] in t ==> t[p[..i]] == Dir
  }

  /** Neither path lies under the other. */
  predicate Disjoint(a: Path, b: Path) { !(a <= b) && !(b <= a) }

  /** The tree found at `root`, with paths relative to it. */
  function Subtree(t: Tree, root: Path): (s: Tree)
  {
    RelativeKeysSound(t, root);
    map r | r in RelativeKeys(t, root) :: t[root + r]
  }

  /** The paths under `root`, made relative to it. */
  function RelativeKeys(t: Tree, root: Path): set<Path>
  {
    set q | q in t && root <= q :: q[|root|..]
  }

  /** The paths of `s`, moved under `dst`. */
  function Rebased(dst: Path, s: Tree): set<Path>
  {
    set r | r in s :: dst + r
  }

  /** The tree with everything at or under `root` removed (rmtree). */
  function Prune(t: Tree, root: Path): (s: Tree)
  {
    map q | q in t && !(root <= q) :: t[q]
  }

  /** The tree with `s` placed at `dst`, overriding what was there. */
  function Graft(t: Tree, dst: Path, s: Tree): Tree
  {
    RebasedSound(dst, s);
    map q | q in t.Keys + Rebased(dst, s) ::
      if dst <= q && q[|dst|..] in s then s[q[|dst|..]] else t[q]
  }

  /** Every prefix of `p`, including [] and `p` itself. */
  function Prefixes(p: Path): set<Path>
  {
    set i | 0 <= i <= |p| :: p[..i]
  }

  /** makedirs(p, exist_ok=True): the missing prefixes of `p` become directories. */
  function AddDirs(t: Tree, p: Path): Tree
  {
    t + map q | q in Prefixes(p) && q !in t :: Dir
  }

  /** Where shutil.copy2(src, dst) writes: `dst` itself, or the entry
      named like the source inside `dst` when `dst` is a directory. */
  function CopyTarget(t: Tree, src: Path, dst: Path): Path
    requires src != []
  {
    if IsDir(t, dst) then dst + [src[|src| - 1]] else dst
  }

  lemma RelativeKeysSound(t: Tree, root: Path)
    ensures forall r :: r in RelativeKeys(t, root) ==> root + r in t
  {
    forall r | r in RelativeKeys(t, root) ensures root + r in t {
      var q :| q in t && root <= q && q[|root|..] == r;
      assert q == q[..|root|] + q[|root|..];
      assert q[..|root|] == root;
    }
  }

  lemma RebasedSound(dst: Path, s: Tree)
    ensures forall q :: q in Rebased(dst, s) ==> dst <= q && q[|dst|..] in s
  {
    forall q | q in Rebased(dst, s) ensures dst <= q && q[|dst|..] in s {
      var r :| r in s && q == dst + r;
      assert q[|dst|..] == r;
    }
  }

  lemma SubtreeAt(t: Tree, root: Path, r: Path)
    ensures r in Subtree(t, root) <==> root + r in t
    ensures r in Subtree(t, root) ==> Subtree(t, root)[r] == t[root + r]
  {
    var q := root + r;
    assert root <= q && q[|root|..] == r;
    if q in t {
      assert r in RelativeKeys(t, root);
    }
    RelativeKeysSound(t, root);
  }

  /** The tree under `b` inside the tree at `a` is the tree at `a + b`. */
  lemma SubtreeOfSubtree(t: Tree, a: Path, b: Path)
    ensures Subtree(Subtree(t, a), b) == Subtree(t, a + b)
  {
    var x, y := Subtree(Subtree(t, a), b), Subtree(t, a + b);
    forall r | r in x ensures r in y && x[r] == y[r] {
      NestedAt(t, a, b, r);
    }
    forall r | r in y ensures r in x {
      NestedAt(t, a, b, r);
    }
  }

  lemma NestedAt(t: Tree, a: Path, b: Path, r: Path)
    ensures r in Subtree(Subtree(t, a), b) <==> r in Subtree(t, a + b)
    ensures r in Subtree(t, a + b) ==> Subtree(Subtree(t, a), b)[r] == Subtree(t, a + b)[r]
  {
    SubtreeAt(Subtree(t, a), b, r);
    SubtreeAt(t, a, b + r);
    SubtreeAt(t, a + b, r);
    assert a + (b + r) == (a + b) + r;
  }

  lemma GraftAt(t: Tree, dst: Path, s: Tree, q: Path)
    ensures q in Graft(t, dst, s) <==> q in t || (dst <= q && q[|dst|..] in s)
    ensures dst <= q && q[|dst|..] in s ==> Graft(t, dst, s)[q] == s[q[|dst|..]]
    ensures q in t && !(dst <= q && q[|dst|..] in s) ==> Graft(t, dst, s)[q] == t[q]
  {
    RebasedSound(dst, s);
    if dst <= q && q[|dst|..] in s {
      assert q == dst + q[|dst|..];
      assert q in Rebased(dst, s);
    }
  }

  /** Two prefixes of one path are comparable. */
  lemma PrefixesComparable(a: Path, b: Path, c: Path)
    requires a <= c && b <= c
    ensures a <= b || b <= a
  {
    if |a| <= |b| {
      assert a == c[..|a|] == b[..|a|];
    } else {
      assert b == c[..|b|] == a[..|b|];
    }
  }

  lemma {:induction false} NotUnderAbsent(t: Tree, p: Path, q: Path)
    requires Rooted(t) && p !in t && q in t
    ensures !(p <= q)
    decreases |q|
  {
    if p <= q {
      assert q != p && q != [];
      var up := Parent(q);
      assert p == up[..|p|];
      NotUnderAbsent(t, p, up);
    }
  }

  /** In a well-formed tree, an absent path has nothing under it. */
  lemma AbsentIsVacant(t: Tree, p: Path)
    requires Rooted(t) && p !in t
    ensures Vacant(t, p)
  {
    forall q | q in t ensures !(p <= q) {
      NotUnderAbsent(t, p, q);
    }
  }

  /** Grafting onto a vacant place makes exactly that tree appear there. */
  lemma SubtreeOfGraft(t: Tree, dst: Path, s: Tree)
    requires Vacant(t, dst)
    ensures Subtree(Graft(t, dst, s), dst) == s
  {
    var g := Graft(t, dst, s);
    forall r: Path
      ensures r in Subtree(g, dst) <==> r in s
      ensures r in s ==> Subtree(g, dst)[r] == s[r]
    {
      SubtreeAt(g, dst, r);
      GraftAt(t, dst, s, dst + r);
      assert (dst + r)[|dst|..] == r;
      assert dst <= dst + r;
    }
  }

  /** Grafting somewhere else does not change the tree at `b`. */
  lemma SubtreeOfGraftElsewhere(t: Tree, dst: Path, s: Tree, b: Path)
    requires Disjoint(dst, b)
    ensures Subtree(Graft(t, dst, s), b) == Subtree(t, b)
  {
    var g := Graft(t, dst, s);
    forall r: Path
      ensures r in Subtree(g, b) <==> r in Subtree(t, b)
      ensures r in Subtree(t, b) ==> Subtree(g, b)[r] == Subtree(t, b)[r]
    {
      SubtreeAt(g, b, r);
      SubtreeAt(t, b, r);
      GraftAt(t, dst, s, b + r);
      assert b <= b + r;
      if dst <= b + r {
        PrefixesComparable(dst, b, b + r);
      }
    }
  }

  /** Removing a tree elsewhere does not change the tree at `b`. */
  lemma SubtreeOfPruneElsewhere(t: Tree, root: Path, b: Path)
    requires Disjoint(root, b)
    ensures Subtree(Prune(t, root), b) == Subtree(t, b)
  {
    var u := Prune(t, root);
    forall r: Path
      ensures r in Subtree(u, b) <==> r in Subtree(t, b)
      ensures r in Subtree(t, b) ==> Subtree(u, b)[r] == Subtree(t, b)[r]
    {
      SubtreeAt(u, b, r);
      SubtreeAt(t, b, r);
      assert b <= b + r;
      if root <= b + r {
        PrefixesComparable(root, b, b + r);
      }
    }
  }

  /** Creating the directories along `p` does not change a tree that `p` does not reach into. */
  lemma SubtreeOfAddDirsElsewhere(t: Tree, p: Path, b: Path)
    requires !(b <= p)
    ensures Subtree(AddDirs(t, p), b) == Subtree(t, b)
  {
    var u := AddDirs(t, p);
    forall r: Path
      ensures r in Subtree(u, b) <==> r in Subtree(t, b)
      ensures r in Subtree(t, b) ==> Subtree(u, b)[r] == Subtree(t, b)[r]
    {
      SubtreeAt(u, b, r);
      SubtreeAt(t, b, r);
    }
  }

  /** copytree(src, dst) with its makedirs of `p` does not change a tree
      that lies beside `dst` and that `p` does not reach into. */
  lemma SubtreeOfCopyElsewhere(t: Tree, p: Path, dst: Path, s: Tree, b: Path)
    requires !(b <= p) && Disjoint(dst, b)
    ensures Subtree(Graft(AddDirs(t, p), dst, s), b) == Subtree(t, b)
  {
    SubtreeOfGraftElsewhere(AddDirs(t, p), dst, s, b);
    SubtreeOfAddDirsElsewhere(t, p, b);
  }

  /** copytree(src, dst) onto an absent `dst`, with the makedirs of its
      parent: the tree stays well formed, `dst` holds a copy of `src`, and
      nothing beside `dst` changes. */
  lemma CopyTreeEffect(t: Tree, src: Path, dst: Path)
    requires Rooted(t) && IsDir(t, src) && dst != [] && dst !in t && Disjoint(src, dst)
    requires NoFileAlong(t, Parent(dst))
    ensures var g := Graft(AddDirs(t, Parent(dst)), dst, Subtree(t, src));
      && Rooted(g)
      && Subtree(g, dst) == Subtree(t, src)
      && forall b :: Disjoint(b, dst) ==> Subtree(g, b) == Subtree(t, b)
  {
    var u := AddDirs(t, Parent(dst));
    var s := Subtree(t, src);
    CopyTreeRooted(t, src, dst);
    assert dst !in Prefixes(Parent(dst));
    AbsentIsVacant(u, dst);
    SubtreeOfGraft(u, dst, s);
    forall b | Disjoint(b, dst) ensures Subtree(Graft(u, dst, s), b) == Subtree(t, b) {
      SubtreeOfCopyElsewhere(t, Parent(dst), dst, s, b);
    }
  }

  lemma CopyTreeRooted(t: Tree, src: Path, dst: Path)
    requires Rooted(t) && IsDir(t, src) && dst != [] && dst !in t
    requires NoFileAlong(t, Parent(dst))
    ensures Rooted(Graft(AddDirs(t, Parent(dst)), dst, Subtree(t, src)))
    ensures Vacant(AddDirs(t, Parent(dst)), dst)
  {
    var u := AddDirs(t, Parent(dst));
    AddDirsRooted(t, Parent(dst));
    assert dst !in Prefixes(Parent(dst));
    AbsentIsVacant(u, dst);
    SubtreeRooted(t, src);
    assert Parent(dst)[..|Parent(dst)|] == Parent(dst);
    GraftRooted(u, dst, Subtree(t, src));
  }

  /** rmtree(root): the tree stays well formed, nothing is left at `root`,
      and nothing beside `root` changes. */
  lemma RemoveTreeEffect(t: Tree, root: Path)
    requires Rooted(t) && root != []
    ensures var u := Prune(t, root);
      && Rooted(u)
      && root !in u
      && (forall p :: NoFileAlong(t, p) ==> NoFileAlong(u, p))
      && forall b :: Disjoint(b, root) ==> Subtree(u, b) == Subtree(t, b)
  {
    PruneRooted(t, root);
    forall b | Disjoint(b, root) ensures Subtree(Prune(t, root), b) == Subtree(t, b) {
      SubtreeOfPruneElsewhere(t, root, b);
    }
  }

  /** In a well-formed tree every proper prefix of a stored path is a directory. */
  lemma {:induction false} AncestorsAreDirs(t: Tree, p: Path)
    requires Rooted(t) && p in t
    ensures forall i :: 0 <= i < |p| ==> IsDir(t, p[..i])
    decreases |p|
  {
    if p != [] {
      AncestorsAreDirs(t, Parent(p));
      forall i | 0 <= i < |p| ensures IsDir(t, p[..i]) {
        if i < |p| - 1 {
          assert Parent(p)[..i] == p[..i];
        }
      }
    }
  }

  /** Equal trees at `p` in `t` and at `q` in `u`: both present, with the same entry, or both absent. */
  lemma PresentIff(t: Tree, p: Path, u: Tree, q: Path)
    requires Subtree(t, p) == Subtree(u, q)
    ensures p in t <==> q in u
    ensures p in t ==> t[p] == u[q]
  {
    var empty: Path := [];
    assert p + empty == p && q + empty == q;
    SubtreeAt(t, p, empty);
    SubtreeAt(u, q, empty);
  }

  lemma PruneRooted(t: Tree, root: Path)
    requires Rooted(t) && root != []
    ensures Rooted(Prune(t, root))
  {
    var u := Prune(t, root);
    forall p | p in u && p != [] ensures IsDir(u, Parent(p)) {
    }
  }

  lemma SubtreeRooted(t: Tree, root: Path)
    requires Rooted(t) && IsDir(t, root)
    ensures Rooted(Subtree(t, root))
  {
    var s := Subtree(t, root);
    SubtreeAt(t, root, []);
    assert root + [] == root;
    forall r | r in s && r != [] ensures IsDir(s, Parent(r)) {
      SubtreeAt(t, root, r);
      SubtreeAt(t, root, Parent(r));
      assert Parent(root + r) == root + Parent(r);
    }
  }

  lemma GraftRooted(t: Tree, dst: Path, s: Tree)
    requires Rooted(t) && Rooted(s) && dst != [] && IsDir(t, Parent(dst)) && Vacant(t, dst)
    ensures Rooted(Graft(t, dst, s))
  {
    var g := Graft(t, dst, s);
    GraftAt(t, dst, s, []);
    forall q | q in g && q != [] ensures IsDir(g, Parent(q)) {
      GraftAt(t, dst, s, q);
      GraftAt(t, dst, s, Parent(q));
      if dst <= q && q[|dst|..] in s {
        var r := q[|dst|..];
        if r == [] {
          assert q == dst;
        } else {
          assert q == dst + r;
          assert Parent(q) == dst + Parent(r);
          assert Parent(q)[|dst|..] == Parent(r);
        }
      }
    }
  }

  lemma AddDirsRooted(t: Tree, p: Path)
    requires Rooted(t) && NoFileAlong(t, p)
    ensures Rooted(AddDirs(t, p))
    ensures forall i :: 0 <= i <= |p| ==> IsDir(AddDirs(t, p), p[..i])
  {
    var u := AddDirs(t, p);
    forall i | 0 <= i <= |p| ensures IsDir(u, p[..i]) {
      assert p[..i] in Prefixes(p);
    }
    forall q | q in u && q != [] ensures IsDir(u, Parent(q)) {
      if q !in t {
        var i :| 0 <= i <= |p| && p[..i] == q;
        assert Parent(q) == p[..i - 1];
      }
    }
  }

  lemma WriteRooted(t: Tree, p: Path, c: string)
    requires Rooted(t) && p != [] && IsDir(t, Parent(p)) && !IsDir(t, p)
    ensures Rooted(t[p := File(c)])
  {
  }

  lemma RemoveFileRooted(t: Tree, p: Path)
    requires Rooted(t) && IsFile(t, p)
    ensures Rooted(t - {p})
  {
  }
}
