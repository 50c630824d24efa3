/** The shape of a binary tree whose nodes are numbered in in-order: node `i` heads the nodes lo..hi, its
    left child heads lo..i and its right child i+1..hi. Rotations keep the numbering, so they keep the
    in-order listing; attaching a leaf and taking out a node renumber. The parent of the root is never
    looked at. Everything here is about these numbers; the heap nodes that carry them are in SplayTree. */
module SplayShape {

  const NONE := -1

  datatype Place = Place(lo: int, hi: int, left: int, right: int, parent: int)

  type Shape = seq<Place>

  predicate InRange(s: Shape, i: int) { 0 <= i < |s| }

  /** Node `i` with the parts of the numbering its children head. */
  predicate Node(s: Shape, i: int)
    requires InRange(s, i)
  {
    && 0 <= s[i].lo <= i < s[i].hi <= |s|
    && (if s[i].left == NONE then s[i].lo == i else Heads(s, s[i].left, s[i].lo, i, i))
    && (if s[i].right == NONE then s[i].hi == i + 1 else Heads(s, s[i].right, i + 1, s[i].hi, i))
  }

  predicate Heads(s: Shape, c: int, lo: int, hi: int, parent: int) {
    InRange(s, c) && s[c].lo == lo && s[c].hi == hi && s[c].parent == parent && lo <= c < hi
  }

  /** `j` is `i` or below it. */
  predicate Covers(s: Shape, i: int, j: int) { InRange(s, i) && s[i].lo <= j < s[i].hi }

  predicate Child(s: Shape, i: int)
    requires InRange(s, i)
  {
    var p := s[i].parent;
    InRange(s, p) && (s[p].left == i || s[p].right == i)
  }

  predicate Rooted(s: Shape, root: int) {
    InRange(s, root) && s[root].lo == 0 && s[root].hi == |s|
  }

  predicate Tree(s: Shape, root: int) {
    && (s != [] ==> Rooted(s, root))
    && (forall i :: 0 <= i < |s| ==> Node(s, i))
    && (forall i :: 0 <= i < |s| && i != root ==> Child(s, i))
  }

  /** Number of nodes a node heads. */
  function Size(s: Shape, i: int): int
    requires InRange(s, i)
  {
    s[i].hi - s[i].lo
  }

  /** What a node within the part of `k` heads lies within that part. */
  lemma {:induction false} Nested(s: Shape, root: int, k: int, j: int)
    requires Tree(s, root) && InRange(s, k) && s[k].lo <= j < s[k].hi
    ensures InRange(s, j) && s[k].lo <= s[j].lo && s[j].hi <= s[k].hi
    decreases Size(s, k)
  {
    assert Node(s, k);
    if j < k {
      Nested(s, root, s[k].left, j);
    } else if j > k {
      Nested(s, root, s[k].right, j);
    }
  }

  /** Of two nodes at most one heads the other. */
  lemma NotBothHead(s: Shape, root: int, k: int, j: int)
    requires Tree(s, root) && InRange(s, k) && InRange(s, j) && k != j
    requires s[k].lo <= j < s[k].hi
    ensures !(s[j].lo <= k < s[j].hi)
  {
    assert Node(s, k);
    Nested(s, root, if j < k then s[k].left else s[k].right, j);
  }

  /** Left part, node, right part. */
  function InOrder(s: Shape, root: int, i: int): seq<int>
    requires Tree(s, root) && (i == NONE || InRange(s, i))
    decreases if i == NONE then 0 else Size(s, i)
  {
    if i == NONE then [] else
      assert Node(s, i) && (s[i].left != NONE ==> Node(s, s[i].left)) && (s[i].right != NONE ==> Node(s, s[i].right));
      InOrder(s, root, s[i].left) + [i] + InOrder(s, root, s[i].right)
  }

  function Numbers(lo: int, hi: int): (r: seq<int>)
    requires lo <= hi
  {
    seq(hi - lo, k => lo + k)
  }

  /** The numbering is the in-order listing: each node lists exactly the numbers it heads, in order. */
  lemma {:induction false} InOrderIsNumbering(s: Shape, root: int, i: int)
    requires Tree(s, root) && InRange(s, i)
    ensures Node(s, i) && InOrder(s, root, i) == Numbers(s[i].lo, s[i].hi)
    decreases Size(s, i)
  {
    assert Node(s, i);
    var l, r := s[i].left, s[i].right;
    if l != NONE { InOrderIsNumbering(s, root, l); }
    if r != NONE { InOrderIsNumbering(s, root, r); }
    assert Numbers(s[i].lo, s[i].hi) == Numbers(s[i].lo, i) + [i] + Numbers(i + 1, s[i].hi);
  }

  lemma OnlyRootHeadsAll(s: Shape, root: int, i: int)
    requires Tree(s, root) && InRange(s, i)
    ensures i == root <==> Size(s, i) == |s|
    ensures i != root ==> Child(s, i) && Size(s, i) < Size(s, s[i].parent)
  {
    assert Node(s, i);
    if i != root {
      assert Child(s, i) && Node(s, s[i].parent);
    }
  }

  lemma ParentOutside(s: Shape, root: int, x: int)
    requires Tree(s, root) && InRange(s, x) && x != root
    ensures Child(s, x) && !(s[x].lo <= s[x].parent < s[x].hi)
  {
    assert Child(s, x) && Node(s, s[x].parent);
  }

  // ----- rotations -----

  /** A node other than `x` and the child `y` that takes its place, `c` being handed from `y` to `x`. */
  function Beside(q: Place, i: int, x: int, y: int, c: int): Place {
    q.(left := if q.left == x then y else q.left,
       right := if q.right == x then y else q.right,
       parent := if i == c then x else q.parent)
  }

  function RotateRight(s: Shape, x: int): (s': Shape)
    requires InRange(s, x) && InRange(s, s[x].left)
    ensures |s'| == |s|
  {
    var l := s[x].left;
    seq(|s|, i requires 0 <= i < |s| =>
      if i == x then s[x].(lo := l + 1, left := s[l].right, parent := l)
      else if i == l then s[l].(hi := s[x].hi, right := x, parent := s[x].parent)
      else Beside(s[i], i, x, l, s[l].right))
  }

  function RotateLeft(s: Shape, x: int): (s': Shape)
    requires InRange(s, x) && InRange(s, s[x].right)
    ensures |s'| == |s|
  {
    var r := s[x].right;
    seq(|s|, i requires 0 <= i < |s| =>
      if i == x then s[x].(hi := r, right := s[r].left, parent := r)
      else if i == r then s[r].(lo := s[x].lo, left := x, parent := s[x].parent)
      else Beside(s[i], i, x, r, s[r].left))
  }

  lemma RotateRightNode(s: Shape, x: int, i: int)
    requires InRange(s, x) && Node(s, x) && s[x].left != NONE && Node(s, s[x].left) && InRange(s, i) && Node(s, i)
    ensures Node(RotateRight(s, x), i)
  {
    var y := s[x].left;
    var c := s[y].right;
    var s' := RotateRight(s, x);
    if i != x && i != y {
      assert s[i].left != y && s[i].right != y;
      assert s[i].left != NONE ==> s[i].left != c;
      assert s[i].right != NONE ==> s[i].right != c;
      assert s[i].left == x ==> Heads(s', y, s[i].lo, i, i);
      assert s[i].right == x ==> Heads(s', y, i + 1, s[i].hi, i);
    }
  }

  lemma RotateRightChild(s: Shape, root: int, x: int, i: int)
    requires Tree(s, root) && InRange(s, x) && s[x].left != NONE
    requires InRange(s, i) && i != if x == root then s[x].left else root
    ensures Node(s, x) && Child(RotateRight(s, x), i)
  {
    assert Node(s, x);
    assert Node(s, s[x].left);
    assert i != root ==> Child(s, i);
    assert x != root ==> Child(s, x);
  }

  lemma RotateRightTree(s: Shape, root: int, x: int)
    requires Tree(s, root) && InRange(s, x) && s[x].left != NONE
    ensures Node(s, x) && Tree(RotateRight(s, x), if x == root then s[x].left else root)
  {
    assert Node(s, x) && Node(s, s[x].left);
    forall i | 0 <= i < |s| ensures Node(RotateRight(s, x), i) { RotateRightNode(s, x, i); }
    forall i | 0 <= i < |s| && i != (if x == root then s[x].left else root) ensures Child(RotateRight(s, x), i) {
      RotateRightChild(s, root, x, i);
    }
  }

  lemma RotateLeftNode(s: Shape, x: int, i: int)
    requires InRange(s, x) && Node(s, x) && s[x].right != NONE && Node(s, s[x].right) && InRange(s, i) && Node(s, i)
    ensures Node(RotateLeft(s, x), i)
  {
    var y := s[x].right;
    var c := s[y].left;
    var s' := RotateLeft(s, x);
    if i != x && i != y {
      assert s[i].left != y && s[i].right != y;
      assert s[i].left != NONE ==> s[i].left != c;
      assert s[i].right != NONE ==> s[i].right != c;
      assert s[i].left == x ==> Heads(s', y, s[i].lo, i, i);
      assert s[i].right == x ==> Heads(s', y, i + 1, s[i].hi, i);
    }
  }

  lemma RotateLeftChild(s: Shape, root: int, x: int, i: int)
    requires Tree(s, root) && InRange(s, x) && s[x].right != NONE
    requires InRange(s, i) && i != if x == root then s[x].right else root
    ensures Node(s, x) && Child(RotateLeft(s, x), i)
  {
    assert Node(s, x);
    assert Node(s, s[x].right);
    assert i != root ==> Child(s, i);
    assert x != root ==> Child(s, x);
  }

  lemma RotateLeftTree(s: Shape, root: int, x: int)
    requires Tree(s, root) && InRange(s, x) && s[x].right != NONE
    ensures Node(s, x) && Tree(RotateLeft(s, x), if x == root then s[x].right else root)
  {
    assert Node(s, x) && Node(s, s[x].right);
    forall i | 0 <= i < |s| ensures Node(RotateLeft(s, x), i) { RotateLeftNode(s, x, i); }
    forall i | 0 <= i < |s| && i != (if x == root then s[x].right else root) ensures Child(RotateLeft(s, x), i) {
      RotateLeftChild(s, root, x, i);
    }
  }

  /** The nodes a rotation touches are different nodes. */
  lemma RotateRightSite(s: Shape, root: int, x: int)
    requires Tree(s, root) && InRange(s, x)
    ensures s[x].left == NONE || InRange(s, s[x].left)
    ensures s[x].left != NONE ==>
              var y := s[x].left;
              var c := s[y].right;
              && y != x && c != x && c != y && (c == NONE || InRange(s, c))
              && (x != root ==> InRange(s, s[x].parent) && s[x].parent != x && s[x].parent != y && s[x].parent != c)
  {
    assert Node(s, x);
    if s[x].left != NONE { assert Node(s, s[x].left); }
    if x != root { ParentOutside(s, root, x); }
  }

  /** What the rotation leaves alone: everything but `x`, its child, the child handed over and the parent. */
  lemma RotateRightElsewhere(s: Shape, root: int, x: int, i: int)
    requires Tree(s, root) && InRange(s, x) && InRange(s, s[x].left) && InRange(s, i)
    requires i != x && i != s[x].left
    ensures var s', y := RotateRight(s, x), s[x].left;
            && (i != root ==> s'[i].parent == if i == s[y].right then x else s[i].parent)
            && s'[i].left == (if x != root && i == s[x].parent && s[i].left == x then y else s[i].left)
            && s'[i].right == (if x != root && i == s[x].parent && s[i].left != x then y else s[i].right)
  {
    assert Node(s, i) && (x != root ==> Child(s, x));
  }

  /** The nodes a rotation touches are different nodes. */
  lemma RotateLeftSite(s: Shape, root: int, x: int)
    requires Tree(s, root) && InRange(s, x)
    ensures s[x].right == NONE || InRange(s, s[x].right)
    ensures s[x].right != NONE ==>
              var y := s[x].right;
              var c := s[y].left;
              && y != x && c != x && c != y && (c == NONE || InRange(s, c))
              && (x != root ==> InRange(s, s[x].parent) && s[x].parent != x && s[x].parent != y && s[x].parent != c)
  {
    assert Node(s, x);
    if s[x].right != NONE { assert Node(s, s[x].right); }
    if x != root { ParentOutside(s, root, x); }
  }

  /** What the rotation leaves alone: everything but `x`, its child, the child handed over and the parent. */
  lemma RotateLeftElsewhere(s: Shape, root: int, x: int, i: int)
    requires Tree(s, root) && InRange(s, x) && InRange(s, s[x].right) && InRange(s, i)
    requires i != x && i != s[x].right
    ensures var s', y := RotateLeft(s, x), s[x].right;
            && (i != root ==> s'[i].parent == if i == s[y].left then x else s[i].parent)
            && s'[i].left == (if x != root && i == s[x].parent && s[i].left == x then y else s[i].left)
            && s'[i].right == (if x != root && i == s[x].parent && s[i].left != x then y else s[i].right)
  {
    assert Node(s, i) && (x != root ==> Child(s, x));
  }

  // ----- rising to the root -----

  predicate Spans(s: Shape, i: int, lo: int, hi: int) {
    InRange(s, i) && s[i].lo == lo && s[i].hi == hi
  }

  /** All nodes but `x`, `p` and `g` head what they headed. */
  predicate OthersSpan(s: Shape, s': Shape, x: int, p: int, g: int) {
    |s'| == |s| && forall i :: 0 <= i < |s| && i != x && i != p && i != g ==> Spans(s', i, s[i].lo, s[i].hi)
  }

  /** `x` heads what its parent `p` headed, and `p` the part of it on its own side of `x`. */
  predicate RoseOnce(s: Shape, s': Shape, x: int) {
    InRange(s, x) && InRange(s, s[x].parent) &&
    var p := s[x].parent;
    && OthersSpan(s, s', x, p, p)
    && Spans(s', x, s[p].lo, s[p].hi)
    && (if p < x then Spans(s', p, s[p].lo, x) else Spans(s', p, x + 1, s[p].hi))
  }

  /** `x` heads what its grandparent `g` headed; its parent `p` heads the part of that on its own side of `x`,
      and `g` the part on its own side, as far as it lies beyond `p`. */
  predicate RoseTwice(s: Shape, s': Shape, x: int) {
    InRange(s, x) && InRange(s, s[x].parent) && InRange(s, s[s[x].parent].parent) &&
    var p := s[x].parent;
    var g := s[p].parent;
    && OthersSpan(s, s', x, p, g)
    && Spans(s', x, s[g].lo, s[g].hi)
    && (if p < x then Spans(s', p, s[g].lo, x) else Spans(s', p, x + 1, s[g].hi))
    && (if g < x then Spans(s', g, s[g].lo, if g < p < x then p else x)
        else Spans(s', g, if x < p < g then p + 1 else x + 1, s[g].hi))
  }

  /** One round of splaying: a single step below the root, otherwise a double one. */
  predicate Rises(s: Shape, s': Shape, x: int) {
    && InRange(s, x) && !Rooted(s, x) && InRange(s, s[x].parent)
    && if Rooted(s, s[x].parent) then RoseOnce(s, s', x) else RoseTwice(s, s', x)
  }

  /** The trees splaying `x` goes through, each made of the one before by a round, until `x` is the root. */
  ghost predicate Trail(t: seq<Shape>, s: Shape, s': Shape, x: int) {
    Way(t, s, s', x) && Rooted(s', x)
  }

  ghost predicate Way(t: seq<Shape>, s: Shape, s': Shape, x: int) {
    && t != [] && t[0] == s && t[|t| - 1] == s'
    && (forall k :: 0 <= k < |t| ==> AnyTree(t[k]))
    && (forall k :: 0 <= k < |t| - 1 ==> Rises(t[k], t[k + 1], x))
  }

  ghost predicate AnyTree(s: Shape) { exists root :: Tree(s, root) }

  lemma Further(t: seq<Shape>, s: Shape, s': Shape, root: int, x: int) returns (t': seq<Shape>)
    requires t != [] && Way(t, s, t[|t| - 1], x) && Rises(t[|t| - 1], s', x) && Tree(s', root)
    ensures Way(t', s, s', x)
  {
    t' := t + [s'];
  }

  ghost predicate Splayed(s: Shape, s': Shape, x: int) { exists t :: Trail(t, s, s', x) }

  /** The root need not rise. */
  lemma SplayedAlready(s: Shape, root: int)
    requires Tree(s, root) && s != []
    ensures Splayed(s, s, root)
  {
    assert Trail([s], s, s, root);
  }

  lemma ZigZigRight(s: Shape, x: int, p: int, g: int)
    requires InRange(s, p) && InRange(s, g) && Node(s, p) && Node(s, g) && s[p].left == x != NONE && s[g].left == p
    ensures InRange(s, x) && RotateRight(s, g)[p].left == x
    ensures RoseTwice(s, RotateRight(RotateRight(s, g), p), x)
  {
  }

  lemma ZigZigLeft(s: Shape, x: int, p: int, g: int)
    requires InRange(s, p) && InRange(s, g) && Node(s, p) && Node(s, g) && s[p].right == x != NONE && s[g].right == p
    ensures InRange(s, x) && RotateLeft(s, g)[p].right == x
    ensures RoseTwice(s, RotateLeft(RotateLeft(s, g), p), x)
  {
  }

  lemma ZigZagRight(s: Shape, x: int, p: int, g: int)
    requires InRange(s, p) && InRange(s, g) && Node(s, p) && Node(s, g) && s[p].left == x != NONE && s[g].right == p
    ensures InRange(s, x) && RotateRight(s, p)[g].right == x
    ensures RoseTwice(s, RotateLeft(RotateRight(s, p), g), x)
  {
  }

  lemma ZigZagLeft(s: Shape, x: int, p: int, g: int)
    requires InRange(s, p) && InRange(s, g) && Node(s, p) && Node(s, g) && s[p].right == x != NONE && s[g].left == p
    ensures InRange(s, x) && RotateLeft(s, p)[g].left == x
    ensures RoseTwice(s, RotateRight(RotateLeft(s, p), g), x)
  {
  }

  /** What the nodes head fixes the tree. */
  predicate SameSpans(a: Shape, b: Shape) {
    |a| == |b| && forall i :: 0 <= i < |a| ==> Spans(b, i, a[i].lo, a[i].hi)
  }

  lemma SameLinks(a: Shape, ra: int, b: Shape, rb: int, i: int)
    requires Tree(a, ra) && Tree(b, rb) && SameSpans(a, b) && InRange(a, i)
    ensures a[i].left == b[i].left && a[i].right == b[i].right
  {
    assert Node(a, i) && Node(b, i);
    var l, r := a[i].left, a[i].right;
    if l != NONE && l != b[i].left { NotBothHead(b, rb, l, b[i].left); }
    if r != NONE && r != b[i].right { NotBothHead(b, rb, r, b[i].right); }
  }

  lemma SameParents(a: Shape, ra: int, b: Shape, rb: int, i: int)
    requires Tree(a, ra) && Tree(b, rb) && SameSpans(a, b) && InRange(a, i) && i != ra
    ensures a[i].parent == b[i].parent
  {
    assert Child(a, i);
    SameLinks(a, ra, b, rb, a[i].parent);
    assert Node(b, a[i].parent) && Node(a, a[i].parent);
  }

  lemma RoseAlike(a: Shape, a': Shape, b: Shape, b': Shape, x: int, p: int, g: int)
    requires SameSpans(a, b) && OthersSpan(a, a', x, p, g) && OthersSpan(b, b', x, p, g)
    requires forall i :: i in {x, p, g} ==> InRange(a', i) && Spans(b', i, a'[i].lo, a'[i].hi)
    ensures SameSpans(a', b')
  {
    forall i | 0 <= i < |a'| ensures Spans(b', i, a'[i].lo, a'[i].hi) {
      if i != x && i != p && i != g { assert Spans(a', i, a[i].lo, a[i].hi) && Spans(b', i, b[i].lo, b[i].hi); }
    }
  }

  lemma RisesAlike(a: Shape, a': Shape, b: Shape, b': Shape, x: int)
    requires AnyTree(a) && AnyTree(b) && SameSpans(a, b) && Rises(a, a', x) && Rises(b, b', x)
    ensures SameSpans(a', b')
  {
    var ra :| Tree(a, ra);
    var rb :| Tree(b, rb);
    SameParents(a, ra, b, rb, x);
    var p := a[x].parent;
    assert Spans(b, p, a[p].lo, a[p].hi);
    if Rooted(a, p) {
      RoseAlike(a, a', b, b', x, p, p);
    } else {
      SameParents(a, ra, b, rb, p);
      assert Spans(b, a[p].parent, a[a[p].parent].lo, a[a[p].parent].hi);
      RoseAlike(a, a', b, b', x, p, a[p].parent);
    }
  }

  /** SPLAYING IS ONE THING. Two trails from the same tree end in trees whose nodes head the same, hence have
      the same children (SameLinks). */
  lemma {:induction false} SplayedUnique(t: seq<Shape>, a: Shape, a': Shape, u: seq<Shape>, b: Shape, b': Shape, x: int)
    requires Trail(t, a, a', x) && Trail(u, b, b', x) && SameSpans(a, b)
    ensures |t| == |u| && SameSpans(a', b')
    decreases |t|
  {
    assert AnyTree(t[0]) && AnyTree(u[0]);
    assert Rooted(a, x) <==> Rooted(b, x);
    assert |t| > 1 ==> Rises(t[0], t[1], x);
    assert |u| > 1 ==> Rises(u[0], u[1], x);
    if |t| > 1 {
      RisesAlike(a, t[1], b, u[1], x);
      TrailRest(t, a, a', x);
      TrailRest(u, b, b', x);
      SplayedUnique(t[1..], t[1], a', u[1..], u[1], b', x);
    }
  }

  lemma TrailRest(t: seq<Shape>, s: Shape, s': Shape, x: int)
    requires Trail(t, s, s', x) && |t| > 1
    ensures Trail(t[1..], t[1], s', x)
  {
    forall k | 0 <= k < |t| - 2 ensures Rises(t[1..][k], t[1..][k + 1], x) { assert Rises(t[k + 1], t[k + 2], x); }
  }

  // ----- attaching a leaf -----

  /** Renumbering around a new node `p`. */
  function Up(k: int, p: int): int { if k >= p then k + 1 else k }

  /** The inverse of Up, for numbers other than `p`. */
  function Before(i: int, p: int): int { if i < p then i else i - 1 }

  function BesideLeftLeaf(o: Place, j: int, q: int): Place {
    Place(if o.lo > q then o.lo + 1 else o.lo, if o.hi > q then o.hi + 1 else o.hi,
          if j == q then q else Up(o.left, q), Up(o.right, q), Up(o.parent, q))
  }

  /** A leaf becomes the left child of `q`: it takes over q's number. */
  function AttachLeft(s: Shape, q: int): (s': Shape)
    requires InRange(s, q)
    ensures |s'| == |s| + 1
  {
    seq(|s| + 1, i requires 0 <= i < |s| + 1 =>
      if i == q then Place(q, q + 1, NONE, NONE, q + 1) else BesideLeftLeaf(s[Before(i, q)], Before(i, q), q))
  }

  function BesideRightLeaf(o: Place, j: int, q: int): Place {
    var p := q + 1;
    Place(if o.lo >= p then o.lo + 1 else o.lo, if o.hi >= p then o.hi + 1 else o.hi,
          Up(o.left, p), if j == q then p else Up(o.right, p), Up(o.parent, p))
  }

  /** A leaf becomes the right child of `q`: it gets the next number. */
  function AttachRight(s: Shape, q: int): (s': Shape)
    requires InRange(s, q)
    ensures |s'| == |s| + 1
  {
    seq(|s| + 1, i requires 0 <= i < |s| + 1 =>
      if i == q + 1 then Place(q + 1, q + 2, NONE, NONE, q)
      else BesideRightLeaf(s[Before(i, q + 1)], Before(i, q + 1), q))
  }

  /** A leaf with the number `p` has been attached. */
  ghost predicate Leafed(s: Shape, s': Shape, p: int) {
    || (InRange(s, p) && s[p].left == NONE && s' == AttachLeft(s, p))
    || (InRange(s, p - 1) && s[p - 1].right == NONE && s' == AttachRight(s, p - 1))
  }

  /** ... and has then risen to the root. */
  ghost predicate Inserted(s: Shape, s': Shape, p: int) { exists s1 :: Leafed(s, s1, p) && Splayed(s1, s', p) }

  lemma AttachLeftTree(s: Shape, root: int, q: int)
    requires Tree(s, root) && InRange(s, q) && s[q].left == NONE
    ensures Tree(AttachLeft(s, q), Up(root, q))
  {
    var s' := AttachLeft(s, q);
    forall i | 0 <= i < |s'| ensures Node(s', i) { AttachLeftNode(s, root, q, i); }
    forall i | 0 <= i < |s'| && i != Up(root, q) ensures Child(s', i) {
      if i != q {
        var j := Before(i, q);
        assert Child(s, j);
        var p := s[j].parent;
        assert s'[Up(p, q)] == BesideLeftLeaf(s[p], p, q);
      }
    }
  }

  lemma LeftLeafHeads(s: Shape, q: int, c: int, lo: int, hi: int, j: int)
    requires InRange(s, q) && Heads(s, c, lo, hi, j)
    ensures Heads(AttachLeft(s, q), Up(c, q), if lo > q then lo + 1 else lo, if hi > q then hi + 1 else hi, Up(j, q))
  {
    assert AttachLeft(s, q)[Up(c, q)] == BesideLeftLeaf(s[c], c, q);
  }

  lemma AttachLeftNode(s: Shape, root: int, q: int, i: int)
    requires Tree(s, root) && InRange(s, q) && s[q].left == NONE && 0 <= i <= |s|
    ensures Node(AttachLeft(s, q), i)
  {
    assert Node(s, q);
    if i != q {
      var j := Before(i, q);
      assert Node(s, j);
      assert AttachLeft(s, q)[i] == BesideLeftLeaf(s[j], j, q);
      if s[j].left != NONE { LeftLeafHeads(s, q, s[j].left, s[j].lo, j, j); }
      if s[j].right != NONE { LeftLeafHeads(s, q, s[j].right, j + 1, s[j].hi, j); }
    }
  }

  lemma AttachRightTree(s: Shape, root: int, q: int)
    requires Tree(s, root) && InRange(s, q) && s[q].right == NONE
    ensures Tree(AttachRight(s, q), Up(root, q + 1))
  {
    var s' := AttachRight(s, q);
    forall i | 0 <= i < |s'| ensures Node(s', i) { AttachRightNode(s, root, q, i); }
    forall i | 0 <= i < |s'| && i != Up(root, q + 1) ensures Child(s', i) {
      if i != q + 1 {
        var j := Before(i, q + 1);
        assert Child(s, j);
        var p := s[j].parent;
        assert s'[Up(p, q + 1)] == BesideRightLeaf(s[p], p, q);
      }
    }
  }

  lemma RightLeafHeads(s: Shape, q: int, c: int, lo: int, hi: int, j: int)
    requires InRange(s, q) && Heads(s, c, lo, hi, j)
    ensures var p := q + 1;
            Heads(AttachRight(s, q), Up(c, p), if lo >= p then lo + 1 else lo, if hi >= p then hi + 1 else hi, Up(j, p))
  {
    assert AttachRight(s, q)[Up(c, q + 1)] == BesideRightLeaf(s[c], c, q);
  }

  lemma AttachRightNode(s: Shape, root: int, q: int, i: int)
    requires Tree(s, root) && InRange(s, q) && s[q].right == NONE && 0 <= i <= |s|
    ensures Node(AttachRight(s, q), i)
  {
    assert Node(s, q);
    if i != q + 1 {
      var j := Before(i, q + 1);
      assert Node(s, j);
      assert AttachRight(s, q)[i] == BesideRightLeaf(s[j], j, q);
      if s[j].left != NONE { RightLeafHeads(s, q, s[j].left, s[j].lo, j, j); }
      if s[j].right != NONE { RightLeafHeads(s, q, s[j].right, j + 1, s[j].hi, j); }
    }
  }

  /** The others head each other as before, and the leaf is below the node it was attached to. */
  lemma LeafBelow(s: Shape, root: int, s': Shape, p: int, i: int, j: int)
    requires Tree(s, root) && Leafed(s, s', p) && InRange(s, i) && InRange(s, j)
    ensures |s'| == |s| + 1 && Spans(s', p, p, p + 1)
    ensures Covers(s', Up(i, p), Up(j, p)) <==> Covers(s, i, j)
    ensures Covers(s', Up(i, p), p) <==>
              Covers(s, i, if InRange(s, p) && s[p].left == NONE && s' == AttachLeft(s, p) then p else p - 1)
  {
    assert Node(s, i);
    if InRange(s, p) && s[p].left == NONE && s' == AttachLeft(s, p) {
      assert s'[Up(i, p)] == BesideLeftLeaf(s[i], i, p);
    } else {
      assert s'[Up(i, p)] == BesideRightLeaf(s[i], i, p - 1);
    }
  }

  // ----- taking a node out -----

  /** Renumbering after node `k` is gone. */
  function Down(j: int, k: int): int { if j > k then j - 1 else j }

  /** What lies left of the root is headed by nodes left of it, and the same on the right. */
  lemma {:induction false} BesideRoot(s: Shape, k: int, i: int)
    requires Tree(s, k) && InRange(s, i) && i != k
    ensures i < k ==> s[i].hi <= k
    ensures i > k ==> s[i].lo > k
    decreases |s| - Size(s, i)
  {
    OnlyRootHeadsAll(s, k, i);
    var p := s[i].parent;
    assert Node(s, i) && Child(s, i) && Node(s, p);
    if p != k { BesideRoot(s, k, p); }
  }

  function WithoutRoot(s: Shape, k: int, j: int): Place
    requires InRange(s, k) && InRange(s, j)
  {
    var o := s[j];
    Place(Down(o.lo, k), if j < k && o.hi == k then |s| - 1 else Down(o.hi, k),
          Down(o.left, k), Down(if j == k - 1 then s[k].right else o.right, k),
          Down(if j == s[k].right && k > 0 then k - 1 else o.parent, k))
  }

  /** The root `k` goes; the right part hangs below the last node of the left part. */
  function DropRoot(s: Shape, k: int): (s': Shape)
    requires InRange(s, k)
    ensures |s'| == |s| - 1
  {
    seq(|s| - 1, i requires 0 <= i < |s| - 1 => WithoutRoot(s, k, if i < k then i else i + 1))
  }

  /** Node `k` has risen to the root and been taken out there. */
  ghost predicate Deleted(s: Shape, s': Shape, k: int) {
    exists s1 :: Splayed(s, s1, k) && InRange(s1, k) && s' == DropRoot(s1, k)
  }

  function NewRoot(s: Shape, k: int): int
    requires InRange(s, k)
  {
    if s[k].left != NONE then s[k].left else Down(s[k].right, k)
  }

  lemma LastOfLeft(s: Shape, k: int)
    requires Tree(s, k) && 0 < k < |s|
    ensures s[k - 1].right == NONE
  {
    BesideRoot(s, k, k - 1);
    assert Node(s, k - 1);
  }

  lemma DropRootNode(s: Shape, k: int, i: int)
    requires Tree(s, k) && InRange(s, k) && 0 <= i < |s| - 1
    ensures Node(DropRoot(s, k), i)
  {
    var s' := DropRoot(s, k);
    var j := if i < k then i else i + 1;
    BesideRoot(s, k, j);
    assert Node(s, j) && Node(s, k);
    if k > 0 { BesideRoot(s, k, k - 1); }
    var l, r := s[j].left, if j == k - 1 then s[k].right else s[j].right;
    assert s'[i] == WithoutRoot(s, k, j);
    assert l != NONE ==> s'[Down(l, k)] == WithoutRoot(s, k, l);
    assert r != NONE ==> s'[Down(r, k)] == WithoutRoot(s, k, r);
  }

  lemma DropRootChild(s: Shape, k: int, i: int)
    requires Tree(s, k) && InRange(s, k) && 0 <= i < |s| - 1 && i != NewRoot(s, k)
    ensures Child(DropRoot(s, k), i)
  {
    var s' := DropRoot(s, k);
    var j := if i < k then i else i + 1;
    assert Child(s, j) && Node(s, k) && Node(s, s[j].parent);
    if k > 0 { LastOfLeft(s, k); }
    var p := if s[j].parent == k then k - 1 else s[j].parent;
    assert s'[i] == WithoutRoot(s, k, j);
    assert s'[Down(p, k)] == WithoutRoot(s, k, p);
  }

  lemma DropRootRooted(s: Shape, k: int)
    requires Tree(s, k) && InRange(s, k) && |s| > 1
    ensures Rooted(DropRoot(s, k), NewRoot(s, k))
  {
    assert Node(s, k);
    var r := if s[k].left != NONE then s[k].left else s[k].right;
    assert DropRoot(s, k)[NewRoot(s, k)] == WithoutRoot(s, k, r);
  }

  lemma DropRootTree(s: Shape, k: int)
    requires Tree(s, k) && InRange(s, k)
    ensures Tree(DropRoot(s, k), NewRoot(s, k))
  {
    var s' := DropRoot(s, k);
    if |s| > 1 { DropRootRooted(s, k); }
    forall i | 0 <= i < |s'| ensures Node(s', i) { DropRootNode(s, k, i); }
    forall i | 0 <= i < |s'| && i != NewRoot(s, k) ensures Child(s', i) { DropRootChild(s, k, i); }
  }

  /** The others head each other as before, and in addition the last node of the left part and whatever is above
      it head the right part. */
  lemma HungBelowLast(s: Shape, k: int, i: int, j: int)
    requires Tree(s, k) && InRange(s, k) && InRange(s, i) && InRange(s, j) && i != k && j != k
    ensures Covers(DropRoot(s, k), Down(i, k), Down(j, k)) <==> Covers(s, i, j) || (i < k < j && Covers(s, i, k - 1))
  {
    assert DropRoot(s, k)[Down(i, k)] == WithoutRoot(s, k, i);
    BesideRoot(s, k, i);
    assert Node(s, i);
  }

  /** The first node, not the root, goes; its right part takes its place. */
  function DropFirst(s: Shape): (s': Shape)
    requires s != []
    ensures |s'| == |s| - 1
  {
    seq(|s| - 1, i requires 0 <= i < |s| - 1 =>
      var o := s[i + 1];
      Place(Down(o.lo, 0), Down(o.hi, 0),
            Down(if o.left == 0 then s[0].right else o.left, 0), Down(o.right, 0),
            Down(if i + 1 == s[0].right then s[0].parent else o.parent, 0)))
  }

  lemma DropFirstNode(s: Shape, root: int, i: int)
    requires Tree(s, root) && s != [] && root != 0 && 0 <= i < |s| - 1
    ensures Node(DropFirst(s), i)
  {
    assert Node(s, 0) && Child(s, 0) && Node(s, i + 1);
  }

  lemma DropFirstTree(s: Shape, root: int)
    requires Tree(s, root) && s != [] && root != 0
    ensures Tree(DropFirst(s), Down(root, 0))
  {
    var s' := DropFirst(s);
    assert Node(s, 0) && Child(s, 0);
    forall i | 0 <= i < |s'| ensures Node(s', i) { DropFirstNode(s, root, i); }
    forall i | 0 <= i < |s'| && i != Down(root, 0) ensures Child(s', i) { DropFirstChild(s, root, i); }
  }

  /** The others head each other as before. */
  lemma FirstBypassed(s: Shape, root: int, i: int, j: int)
    requires Tree(s, root) && root != 0 && 0 < i < |s| && 0 < j < |s|
    ensures Covers(DropFirst(s), i - 1, j - 1) <==> Covers(s, i, j)
  {
    assert Node(s, i);
  }

  lemma DropFirstChild(s: Shape, root: int, i: int)
    requires Tree(s, root) && s != [] && root != 0 && 0 <= i < |s| - 1 && i + 1 != root
    ensures Child(DropFirst(s), i)
  {
    assert Child(s, i + 1) && Node(s, s[i + 1].parent) && Node(s, 0) && Child(s, 0);
    assert Node(s, i + 1) && Node(s, s[0].parent);
    var p := if i + 1 == s[0].right then s[0].parent else s[i + 1].parent;
    assert p > 0 && DropFirst(s)[p - 1].left == Down(if s[p].left == 0 then s[0].right else s[p].left, 0);
  }

  /** Only the parent of the first node and its right child notice. */
  lemma DropFirstLinks(s: Shape, root: int, j: int)
    requires Tree(s, root) && s != [] && root != 0 && 0 < j < |s|
    ensures s[j].left == 0 <==> j == s[0].parent
    ensures s[j].right != 0
    ensures j != root ==> (s[j].parent == 0 <==> j == s[0].right)
  {
    assert Node(s, j) && Node(s, 0) && Child(s, 0) && (j != root ==> Child(s, j));
  }

  lemma FirstParent(s: Shape, root: int)
    requires Tree(s, root) && s != [] && root != 0
    ensures var p := s[0].parent;
            && 0 < p < |s| && s[p].left == 0 && s[0].right != p && s[0].right != 0
            && (s[0].right == NONE || InRange(s, s[0].right))
            && DropFirst(s)[p - 1].lo == 0
  {
    assert Node(s, 0) && Child(s, 0) && Node(s, s[0].parent);
  }
}
