/** The splay tree event set: heap nodes with left, right and parent pointers, a cached pointer to the
    least node and a splay loop with a budget, proved against a sorted sequence of events. */
module SplayTree {
  import opened Wrappers
  import opened SplayShape

  datatype Event = Event(receiveTime: int, receiver: nat, id: nat)

  function CompareEvent(a: Event, b: Event): int {
    if a.receiveTime == b.receiveTime then
      if a.receiver > b.receiver then 1 else if a.receiver == b.receiver then 0 else -1
    else if a.receiveTime > b.receiveTime then 1 else -1
  }

  /** Receive time, then receiver; the event id plays no part. */
  lemma CompareEventIs(a: Event, b: Event)
    ensures CompareEvent(a, b) < 0 <==> a.receiveTime < b.receiveTime
                                        || (a.receiveTime == b.receiveTime && a.receiver < b.receiver)
    ensures CompareEvent(a, b) == 0 <==> a.receiveTime == b.receiveTime && a.receiver == b.receiver
    ensures CompareEvent(a, b) > 0 <==> CompareEvent(b, a) < 0
  {
  }

  predicate Sorted(s: seq<Event>) {
    forall i, j :: 0 <= i < j < |s| ==> CompareEvent(s[i], s[j]) <= 0
  }

  /** An event goes just before its equals. */
  function InsertBefore(s: seq<Event>, e: Event): seq<Event> {
    if s == [] || CompareEvent(e, s[0]) <= 0 then [e] + s else [s[0]] + InsertBefore(s[1..], e)
  }

  lemma {:induction false} InsertBeforeAt(s: seq<Event>, e: Event, p: nat)
    requires p <= |s| && (forall i :: 0 <= i < p ==> CompareEvent(e, s[i]) > 0)
    requires p < |s| ==> CompareEvent(e, s[p]) <= 0
    ensures InsertBefore(s, e) == s[..p] + [e] + s[p..]
  {
    if p > 0 {
      InsertBeforeAt(s[1..], e, p - 1);
      PutLater(s, e, p);
    } else {
      assert s[..0] + [e] + s[0..] == [e] + s;
    }
  }

  lemma PutLater(s: seq<Event>, e: Event, p: nat)
    requires 0 < p <= |s|
    ensures [s[0]] + (s[1..][..p - 1] + [e] + s[1..][p - 1..]) == s[..p] + [e] + s[p..]
  {
    assert s[1..][..p - 1] == s[1..p] && s[1..][p - 1..] == s[p..];
    assert s[..p] == [s[0]] + s[1..p];
  }

  lemma SortedCons(x: Event, t: seq<Event>)
    requires Sorted(t) && forall i :: 0 <= i < |t| ==> CompareEvent(x, t[i]) <= 0
    ensures Sorted([x] + t)
  {
    var r := [x] + t;
    assert forall i :: 1 <= i < |r| ==> r[i] == t[i - 1];
  }

  lemma {:induction false} InsertBeforeAdds(s: seq<Event>, e: Event)
    ensures multiset(InsertBefore(s, e)) == multiset(s) + multiset{e}
  {
    if s != [] && CompareEvent(e, s[0]) > 0 {
      InsertBeforeAdds(s[1..], e);
      assert s == [s[0]] + s[1..];
    }
  }

  /** The list stays sorted. */
  lemma {:induction false} InsertBeforeSorts(s: seq<Event>, e: Event)
    requires Sorted(s)
    ensures Sorted(InsertBefore(s, e))
  {
    if s == [] || CompareEvent(e, s[0]) <= 0 {
      SortedCons(e, s);
    } else {
      var t := s[1..];
      var r := InsertBefore(t, e);
      InsertBeforeSorts(t, e);
      InsertBeforeAdds(t, e);
      forall i | 0 <= i < |r| ensures CompareEvent(s[0], r[i]) <= 0 {
        assert r[i] in multiset(r);
        assert r[i] == e || r[i] in t;
      }
      SortedCons(s[0], r);
    }
  }

  class TreeElement {
    var left: TreeElement?
    var right: TreeElement?
    var parent: TreeElement?
    const event: Event

    constructor (e: Event)
      ensures left == null && right == null && parent == null && event == e
    {
      left, right, parent, event := null, null, null, e;
    }
  }

  ghost function EventsOf(ns: seq<TreeElement>): (s: seq<Event>)
    ensures |s| == |ns|
  {
    seq(|ns|, i requires 0 <= i < |ns| => ns[i].event)
  }

  ghost predicate Distinct(ns: seq<TreeElement>) {
    forall i, j :: 0 <= i < j < |ns| ==> ns[i] != ns[j]
  }

  ghost function Ref(ns: seq<TreeElement>, k: int): TreeElement? {
    if 0 <= k < |ns| then ns[k] else null
  }

  ghost function WithNode(ns: seq<TreeElement>, p: int, e: TreeElement): (ns': seq<TreeElement>)
    requires 0 <= p <= |ns|
    ensures |ns'| == |ns| + 1 && ns'[p] == e
  {
    ns[..p] + [e] + ns[p..]
  }

  lemma WithNodeDistinct(ns: seq<TreeElement>, p: int, e: TreeElement)
    requires 0 <= p <= |ns| && Distinct(ns) && e !in ns
    ensures Distinct(WithNode(ns, p, e))
  {
    var ns' := WithNode(ns, p, e);
    forall i, j | 0 <= i < j < |ns'| ensures ns'[i] != ns'[j] {
      assert i != p ==> ns'[i] == ns[Before(i, p)];
      assert j != p ==> ns'[j] == ns[Before(j, p)];
    }
  }

  lemma WithNodeEvents(ns: seq<TreeElement>, p: int, e: TreeElement)
    requires 0 <= p <= |ns|
    requires forall i :: 0 <= i < p ==> CompareEvent(e.event, EventsOf(ns)[i]) > 0
    requires p < |ns| ==> CompareEvent(e.event, EventsOf(ns)[p]) <= 0
    ensures EventsOf(WithNode(ns, p, e)) == InsertBefore(EventsOf(ns), e.event)
  {
    var s := EventsOf(ns);
    InsertBeforeAt(s, e.event, p);
    assert EventsOf(WithNode(ns, p, e)) == s[..p] + [e.event] + s[p..];
  }

  /** Links of old nodes mean the same nodes after renumbering. */
  lemma WithNodeRef(ns: seq<TreeElement>, p: int, e: TreeElement, k: int)
    requires 0 <= p <= |ns| && (k == NONE || 0 <= k < |ns|)
    ensures Ref(WithNode(ns, p, e), Up(k, p)) == Ref(ns, k)
  {
  }

  lemma WithoutNodeDistinct(ns: seq<TreeElement>, k: int)
    requires 0 <= k < |ns| && Distinct(ns)
    ensures Distinct(Without(ns, k))
  {
  }

  lemma WithoutNodeEvents(ns: seq<TreeElement>, k: int)
    requires 0 <= k < |ns|
    ensures EventsOf(Without(ns, k)) == Without(EventsOf(ns), k)
    ensures forall n :: n in Without(ns, k) ==> n in ns
    ensures Sorted(EventsOf(ns)) ==> Sorted(EventsOf(Without(ns, k)))
  {
    var s := EventsOf(ns);
    assert EventsOf(Without(ns, k)) == Without(s, k);
  }

  lemma WithoutNodeRef(ns: seq<TreeElement>, k: int, j: int)
    requires 0 <= k < |ns| && j != k && (j == NONE || 0 <= j < |ns|)
    ensures Ref(Without(ns, k), Down(j, k)) == Ref(ns, j)
  {
  }

  /** The three links of a node. */
  datatype Links = Links(left: TreeElement?, right: TreeElement?, parent: TreeElement?)

  /** They refer to the nodes that the shape says. */
  ghost predicate Agree(ns: seq<TreeElement>, s: Shape, root: int, i: int, l: Links)
    requires InRange(s, i)
  {
    l.left == Ref(ns, s[i].left) && l.right == Ref(ns, s[i].right) && (i != root ==> l.parent == Ref(ns, s[i].parent))
  }

  /** The links of an old node after a leaf was attached on the left of `q`. */
  lemma LeftLeafAgree(ns: seq<TreeElement>, s: Shape, root: int, q: int, e: TreeElement, j: int, l: Links, l': Links)
    requires |s| == |ns| && Tree(s, root) && InRange(s, q) && InRange(s, j) && Agree(ns, s, root, j, l)
    requires l'.left == (if j == q then e else l.left) && l'.right == l.right && l'.parent == l.parent
    ensures InRange(AttachLeft(s, q), Up(j, q)) && WithNode(ns, q, e)[Up(j, q)] == ns[j]
    ensures Agree(WithNode(ns, q, e), AttachLeft(s, q), Up(root, q), Up(j, q), l')
  {
    assert Node(s, j) && (j != root ==> Child(s, j));
    assert AttachLeft(s, q)[Up(j, q)] == BesideLeftLeaf(s[j], j, q);
    WithNodeRef(ns, q, e, s[j].left);
    WithNodeRef(ns, q, e, s[j].right);
    if j != root { WithNodeRef(ns, q, e, s[j].parent); }
  }

  /** And on the right. */
  lemma RightLeafAgree(ns: seq<TreeElement>, s: Shape, root: int, q: int, e: TreeElement, j: int, l: Links, l': Links)
    requires |s| == |ns| && Tree(s, root) && InRange(s, q) && InRange(s, j) && Agree(ns, s, root, j, l)
    requires l'.right == (if j == q then e else l.right) && l'.left == l.left && l'.parent == l.parent
    ensures InRange(AttachRight(s, q), Up(j, q + 1)) && WithNode(ns, q + 1, e)[Up(j, q + 1)] == ns[j]
    ensures Agree(WithNode(ns, q + 1, e), AttachRight(s, q), Up(root, q + 1), Up(j, q + 1), l')
  {
    var p := q + 1;
    assert Node(s, j) && (j != root ==> Child(s, j));
    assert AttachRight(s, q)[Up(j, p)] == BesideRightLeaf(s[j], j, q);
    WithNodeRef(ns, p, e, s[j].left);
    WithNodeRef(ns, p, e, s[j].right);
    if j != root { WithNodeRef(ns, p, e, s[j].parent); }
  }

  /** What the links of node `j` refer to once the first node is bypassed. */
  lemma BypassedRefs(ns: seq<TreeElement>, s: Shape, root: int, j: int)
    requires |s| == |ns| && Tree(s, root) && s != [] && root != 0 && 0 < j < |s|
    ensures var ns', s' := Without(ns, 0), DropFirst(s);
            && ns'[j - 1] == ns[j]
            && Ref(ns', s'[j - 1].left) == Ref(ns, if j == s[0].parent then s[0].right else s[j].left)
            && Ref(ns', s'[j - 1].right) == Ref(ns, s[j].right)
            && (j != root ==>
                  Ref(ns', s'[j - 1].parent) == Ref(ns, if j == s[0].right then s[0].parent else s[j].parent))
  {
    assert Node(s, j) && Node(s, 0) && Child(s, 0) && (j != root ==> Child(s, j));
    DropFirstLinks(s, root, j);
    WithoutNodeRef(ns, 0, if j == s[0].parent then s[0].right else s[j].left);
    WithoutNodeRef(ns, 0, s[j].right);
    if j != root { WithoutNodeRef(ns, 0, if j == s[0].right then s[0].parent else s[j].parent); }
  }

  lemma BypassedAgree(ns: seq<TreeElement>, s: Shape, root: int, j: int, l: Links, l': Links)
    requires |s| == |ns| && Tree(s, root) && s != [] && root != 0 && 0 < j < |s| && Agree(ns, s, root, j, l)
    requires l'.left == (if j == s[0].parent then Ref(ns, s[0].right) else l.left) && l'.right == l.right
    requires l'.parent == if j == s[0].right then Ref(ns, s[0].parent) else l.parent
    ensures Agree(Without(ns, 0), DropFirst(s), Down(root, 0), j - 1, l') && Without(ns, 0)[j - 1] == ns[j]
  {
    BypassedRefs(ns, s, root, j);
  }

  /** What the links of node `j` refer to once the root `k` is gone and its two parts are joined. */
  lemma JoinedRefs(ns: seq<TreeElement>, s: Shape, k: int, j: int)
    requires |s| == |ns| && Tree(s, k) && InRange(s, k) && InRange(s, j) && j != k
    ensures var ns', s', i := Without(ns, k), DropRoot(s, k), Down(j, k);
            && ns'[i] == ns[j]
            && Ref(ns', s'[i].left) == Ref(ns, s[j].left)
            && Ref(ns', s'[i].right) == Ref(ns, if j == k - 1 then s[k].right else s[j].right)
            && (i != NewRoot(s, k) ==>
                  Ref(ns', s'[i].parent) == Ref(ns, if j == s[k].right then k - 1 else s[j].parent))
  {
    BesideRoot(s, k, j);
    assert Node(s, j) && Node(s, k) && Child(s, j) && Node(s, s[j].parent);
    assert DropRoot(s, k)[Down(j, k)] == WithoutRoot(s, k, j);
    WithoutNodeRef(ns, k, s[j].left);
    WithoutNodeRef(ns, k, if j == k - 1 then s[k].right else s[j].right);
    if Down(j, k) != NewRoot(s, k) { WithoutNodeRef(ns, k, if j == s[k].right then k - 1 else s[j].parent); }
  }

  lemma JoinedAgree(ns: seq<TreeElement>, s: Shape, k: int, j: int, l: Links, l': Links)
    requires |s| == |ns| && Tree(s, k) && InRange(s, k) && InRange(s, j) && j != k && Agree(ns, s, k, j, l)
    requires l'.left == l.left && l'.right == if j == k - 1 then Ref(ns, s[k].right) else l.right
    requires Down(j, k) != NewRoot(s, k) ==> l'.parent == if j == s[k].right then Ref(ns, k - 1) else l.parent
    ensures InRange(DropRoot(s, k), Down(j, k)) && Without(ns, k)[Down(j, k)] == ns[j]
    ensures Agree(Without(ns, k), DropRoot(s, k), NewRoot(s, k), Down(j, k), l')
  {
    JoinedRefs(ns, s, k, j);
  }

  /** How the links of node `j` change when the first node is bypassed ... */
  twostate predicate Bypassed(ns: seq<TreeElement>, s: Shape, j: int)
    requires 0 < j < |ns| == |s|
    reads ns
  {
    && ns[j].left == (if j == s[0].parent then Ref(ns, s[0].right) else old(ns[j].left))
    && ns[j].right == old(ns[j].right)
    && ns[j].parent == if j == s[0].right then Ref(ns, s[0].parent) else old(ns[j].parent)
  }

  /** ... and when the root `k` goes and its right part is hung below its left part. */
  twostate predicate Hung(ns: seq<TreeElement>, s: Shape, k: int, j: int)
    requires 0 <= j < |ns| == |s| && InRange(s, k)
    reads ns
  {
    && ns[j].left == old(ns[j].left)
    && ns[j].right == (if j == k - 1 then Ref(ns, s[k].right) else old(ns[j].right))
    && (Down(j, k) != NewRoot(s, k) ==>
          ns[j].parent == if j == s[k].right then Ref(ns, k - 1) else old(ns[j].parent))
  }

  /** No node outside lo..hi has the key of `e`. */
  ghost predicate NoneOutside(ns: seq<TreeElement>, e: Event, lo: int, hi: int) {
    forall i :: 0 <= i < |ns| && !(lo <= i < hi) ==> CompareEvent(e, EventsOf(ns)[i]) != 0
  }

  /** The node erase removes for an event with the key of `e`: the first one if it has the key, and otherwise
      the one with the key that heads all others with it. */
  ghost predicate Chosen(s: Shape, es: seq<Event>, e: Event, k: int)
    requires |s| == |es|
  {
    && 0 <= k < |es| && CompareEvent(e, es[k]) == 0
    && (if CompareEvent(e, es[0]) == 0 then k == 0
        else forall i :: 0 <= i < |es| && CompareEvent(e, es[i]) == 0 ==> s[k].lo <= i < s[k].hi)
  }

  /** There is only one such node. */
  lemma ChosenUnique(s: Shape, root: int, es: seq<Event>, e: Event, k: int, k': int)
    requires |s| == |es| && Tree(s, root) && Chosen(s, es, e, k) && Chosen(s, es, e, k')
    ensures k == k'
  {
    if CompareEvent(e, es[0]) != 0 && k != k' { NotBothHead(s, root, k, k'); }
  }

  /** Erase removes the event it is given, and not another one with the key, if and only if that event is at
      the chosen node. */
  lemma RemovesItselfIff(s: Shape, root: int, es: seq<Event>, e: Event, at: int, i: int)
    requires |s| == |es| && Tree(s, root) && Chosen(s, es, e, at)
    requires 0 <= i < |es| && es[i] == e && forall j :: 0 <= j < |es| && es[j] == e ==> j == i
    ensures e !in Without(es, at) <==> Chosen(s, es, e, i)
  {
    if Chosen(s, es, e, i) {
      ChosenUnique(s, root, es, e, at, i);
    } else {
      var j := if i < at then i else i - 1;
      assert Without(es, at)[j] == e;
    }
  }

  /** The pointer work of rotateRight at `item`; `above` is its parent, null at the root. */
  method TurnRight(item: TreeElement, left: TreeElement, above: TreeElement?)
    requires item.left == left && item != left
    requires left.right != item && left.right != left
    requires above != null ==> above != item && above != left && above != left.right
    modifies item, left, left.right, above
    ensures item.left == old(left.right) && item.right == old(item.right) && item.parent == left
    ensures left.left == old(left.left) && left.right == item && left.parent == above
    ensures var c := old(left.right);
            c != null ==> c.left == old(c.left) && c.right == old(c.right) && c.parent == item
    ensures above != null ==>
              && above.parent == old(above.parent)
              && above.left == (if old(above.left) == item then left else old(above.left))
              && above.right == (if old(above.left) == item then old(above.right) else left)
  {
    var right := left.right;
    item.parent := left;
    left.right := item;
    item.left := right;
    if right != null {
      right.parent := item;
    }
    left.parent := above;
    if above != null {
      if above.left == item {
        above.left := left;
      } else {
        above.right := left;
      }
    }
  }

  /** The pointer work of rotateLeft at `item`; `above` is its parent, null at the root. */
  method TurnLeft(item: TreeElement, right: TreeElement, above: TreeElement?)
    requires item.right == right && item != right
    requires right.left != item && right.left != right
    requires above != null ==> above != item && above != right && above != right.left
    modifies item, right, right.left, above
    ensures item.right == old(right.left) && item.left == old(item.left) && item.parent == right
    ensures right.right == old(right.right) && right.left == item && right.parent == above
    ensures var c := old(right.left);
            c != null ==> c.right == old(c.right) && c.left == old(c.left) && c.parent == item
    ensures above != null ==>
              && above.parent == old(above.parent)
              && above.left == (if old(above.left) == item then right else old(above.left))
              && above.right == (if old(above.left) == item then old(above.right) else right)
  {
    var left := right.left;
    item.parent := right;
    right.left := item;
    item.right := left;
    if left != null {
      left.parent := item;
    }
    right.parent := above;
    if above != null {
      if above.left == item {
        above.left := right;
      } else {
        above.right := right;
      }
    }
  }

  /** The right child of `node` takes its place as the left child of `parent`. */
  method Bypass(node: TreeElement, parent: TreeElement)
    requires parent != node && parent != node.right && node != node.right
    modifies parent, node.right
    ensures parent.left == old(node.right) && parent.right == old(parent.right) && parent.parent == old(parent.parent)
    ensures var c := old(node.right);
            c != null ==> c.left == old(c.left) && c.right == old(c.right) && c.parent == parent
  {
    var right := node.right;
    parent.left := right;
    if right != null {
      right.parent := parent;
    }
  }

  class SplayTree {
    var root: TreeElement?
    var current: TreeElement?
    var numberOfElements: int

    /** The nodes in in-order, their links by number, and the number of the root. */
    ghost var nodes: seq<TreeElement>
    ghost var shape: Shape
    ghost var rootAt: int

    ghost predicate LinkedAt(i: int)
      requires |shape| == |nodes| && InRange(shape, i)
      reads this`root, this`nodes, this`shape, this`rootAt, nodes
    {
      Agree(nodes, shape, rootAt, i, Links(nodes[i].left, nodes[i].right, nodes[i].parent))
    }

    ghost predicate Linked()
      reads this`root, this`nodes, this`shape, this`rootAt, nodes
    {
      && |shape| == |nodes| && Tree(shape, rootAt) && Distinct(nodes)
      && root == (if nodes == [] then null else nodes[rootAt])
      && forall i :: 0 <= i < |nodes| ==> LinkedAt(i)
    }

    ghost function Events(): (s: seq<Event>)
      reads this`nodes
    {
      EventsOf(nodes)
    }

    /** `current` means something only when there is a root. */
    ghost predicate Valid()
      reads this, nodes
    {
      && Linked() && numberOfElements == |nodes| && Sorted(Events())
      && (root != null ==> current == nodes[0])
    }

    constructor ()
      ensures Valid() && Events() == [] && fresh(nodes)
    {
      root, current, numberOfElements := null, null, 0;
      nodes, shape, rootAt := [], [], NONE;
    }

    method RotateRight(treeItem: TreeElement?, ghost x: int) returns (up: TreeElement?)
      requires Linked() && treeItem == Ref(nodes, x)
      modifies this`root, this`shape, this`rootAt, nodes
      ensures Linked()
      ensures if treeItem == null || old(shape)[x].left == NONE
              then up == treeItem && root == old(root) && shape == old(shape) && rootAt == old(rootAt)
              else && InRange(old(shape), old(shape)[x].left)
                   && shape == SplayShape.RotateRight(old(shape), x) && up == nodes[old(shape)[x].left]
                   && rootAt == if x == old(rootAt) then old(shape)[x].left else old(rootAt)
    {
      if treeItem == null { return treeItem; }
      RotateRightSite(shape, rootAt, x);
      assert LinkedAt(x);
      var left := treeItem.left;
      if left == null { return treeItem; }
      ghost var l := shape[x].left;
      assert LinkedAt(l);
      RotateRightTree(shape, rootAt, x);
      if treeItem == root {
        TurnRight(treeItem, left, null);
        root := left;
        rootAt := l;
      } else {
        TurnRight(treeItem, left, treeItem.parent);
      }
      shape := SplayShape.RotateRight(shape, x);
      up := left;
      forall i | 0 <= i < |nodes| ensures LinkedAt(i) {
        assert old(LinkedAt(i));
        if i != x && i != l { RotateRightElsewhere(old(shape), old(rootAt), x, i); }
      }
    }

    method RotateLeft(treeItem: TreeElement?, ghost x: int) returns (up: TreeElement?)
      requires Linked() && treeItem == Ref(nodes, x)
      modifies this`root, this`shape, this`rootAt, nodes
      ensures Linked()
      ensures if treeItem == null || old(shape)[x].right == NONE
              then up == treeItem && root == old(root) && shape == old(shape) && rootAt == old(rootAt)
              else && InRange(old(shape), old(shape)[x].right)
                   && shape == SplayShape.RotateLeft(old(shape), x) && up == nodes[old(shape)[x].right]
                   && rootAt == if x == old(rootAt) then old(shape)[x].right else old(rootAt)
    {
      if treeItem == null { return treeItem; }
      RotateLeftSite(shape, rootAt, x);
      assert LinkedAt(x);
      var right := treeItem.right;
      if right == null { return treeItem; }
      ghost var r := shape[x].right;
      assert LinkedAt(r);
      RotateLeftTree(shape, rootAt, x);
      if treeItem == root {
        TurnLeft(treeItem, right, null);
        root := right;
        rootAt := r;
      } else {
        TurnLeft(treeItem, right, treeItem.parent);
      }
      shape := SplayShape.RotateLeft(shape, x);
      up := right;
      forall i | 0 <= i < |nodes| ensures LinkedAt(i) {
        assert old(LinkedAt(i));
        if i != x && i != r { RotateLeftElsewhere(old(shape), old(rootAt), x, i); }
      }
    }

    /** `x`, its parent `p` and grandparent `g`. */
    ghost predicate Below(x: int, p: int, g: int)
      reads this
    {
      && InRange(shape, x) && InRange(shape, p) && InRange(shape, g)
      && (shape[p].left == x || shape[p].right == x) && (shape[g].left == p || shape[g].right == p)
    }

    method ZigZag(parent: TreeElement, grandParent: TreeElement, parentFlag: int, ghost x: int, ghost p: int,
                  ghost g: int)
      requires Linked() && Below(x, p, g) && parent == nodes[p] && grandParent == nodes[g]
      requires if parentFlag == 0 then shape[p].left == x && shape[g].right == p
               else shape[p].right == x && shape[g].left == p
      modifies this`root, this`shape, this`rootAt, nodes
      ensures Linked() && RoseTwice(old(shape), shape, x)
    {
      assert Node(shape, p) && Node(shape, g);
      if parentFlag == 0 {
        ZigZagRight(shape, x, p, g);
        var _ := RotateRight(parent, p);
        var _ := RotateLeft(grandParent, g);
      } else {
        ZigZagLeft(shape, x, p, g);
        var _ := RotateLeft(parent, p);
        var _ := RotateRight(grandParent, g);
      }
    }

    method ZigZig(parent: TreeElement, grandParent: TreeElement, parentFlag: int, ghost x: int, ghost p: int,
                  ghost g: int)
      requires Linked() && Below(x, p, g) && parent == nodes[p] && grandParent == nodes[g]
      requires if parentFlag == 0 then shape[p].left == x && shape[g].left == p
               else shape[p].right == x && shape[g].right == p
      modifies this`root, this`shape, this`rootAt, nodes
      ensures Linked() && RoseTwice(old(shape), shape, x)
    {
      assert Node(shape, p) && Node(shape, g);
      if parentFlag == 0 {
        ZigZigRight(shape, x, p, g);
        var _ := RotateRight(grandParent, g);
        var _ := RotateRight(parent, p);
      } else {
        ZigZigLeft(shape, x, p, g);
        var _ := RotateLeft(grandParent, g);
        var _ := RotateLeft(parent, p);
      }
    }

    /** One round of the loop that does not reach the root by a single rotation: the node takes its
        grandparent's place. */
    method RiseTwice(node: TreeElement, ghost x: int)
      requires Linked() && InRange(shape, x) && node == nodes[x] && x != rootAt && Child(shape, x)
      requires shape[x].parent != rootAt
      modifies this`root, this`shape, this`rootAt, nodes
      ensures Linked() && Rises(old(shape), shape, x) && Size(shape, x) >= old(Size(shape, x)) + 2
    {
      ghost var p := shape[x].parent;
      ghost var g := shape[p].parent;
      OnlyRootHeadsAll(shape, rootAt, x);
      OnlyRootHeadsAll(shape, rootAt, p);
      assert LinkedAt(x) && LinkedAt(p) && LinkedAt(g);
      assert Node(shape, p) && Node(shape, g);
      var parent := node.parent;
      var grandParent := parent.parent;
      var parentFlag := if parent.left == node then 0 else 1;
      var grandFlag := if grandParent.left == parent then 0 else 1;
      if parentFlag + grandFlag == 1 {
        ZigZag(parent, grandParent, parentFlag, x, p, g);
      } else {
        ZigZig(parent, grandParent, parentFlag, x, p, g);
      }
    }

    method RiseOnce(node: TreeElement, parent: TreeElement, ghost x: int)
      requires Linked() && InRange(shape, x) && node == nodes[x] && x != rootAt && Child(shape, x)
      requires parent == root && shape[x].parent == rootAt
      modifies this`root, this`shape, this`rootAt, nodes
      ensures Linked() && root == node && Rises(old(shape), shape, x)
    {
      OnlyRootHeadsAll(shape, rootAt, x);
      assert LinkedAt(rootAt) && Node(shape, rootAt);
      if parent.left == node {
        var _ := RotateRight(parent, rootAt);
      } else {
        var _ := RotateLeft(parent, rootAt);
      }
    }

    /** The budget never runs out: the node reaches the root. */
    method Splay(node: TreeElement, ghost x: int)
      requires Valid() && InRange(shape, x) && node == nodes[x]
      modifies this`root, this`shape, this`rootAt, nodes
      ensures Valid() && root == node && rootAt == x && Splayed(old(shape), shape, x)
    {
      ghost var trail := [shape];
      var nsplay := 0;
      var maxSplay := numberOfElements / 2;
      assert Node(shape, x);
      while node != root
        invariant Linked() && nsplay >= 0
        invariant 1 + 2 * nsplay <= Size(shape, x) <= |nodes|
        invariant Way(trail, old(shape), shape, x)
        decreases |nodes| - Size(shape, x)
      {
        OnlyRootHeadsAll(shape, rootAt, x);
        assert LinkedAt(x);
        var parent := node.parent;
        if parent == root {
          RiseOnce(node, parent, x);
          trail := Further(trail, old(shape), shape, rootAt, x);
          break;
        }
        RiseTwice(node, x);
        trail := Further(trail, old(shape), shape, rootAt, x);
        assert Node(shape, x);
        if nsplay >= maxSplay {
          assert false;
          break;
        }
        nsplay := nsplay + 1;
      }
      assert Trail(trail, old(shape), shape, x);
    }

    method AttachLeftOf(node: TreeElement, e: TreeElement, ghost q: int)
      requires Linked() && InRange(shape, q) && node == nodes[q] && shape[q].left == NONE
      requires e !in nodes && e.left == null && e.right == null
      modifies this`nodes, this`shape, this`rootAt, node, e
      ensures Linked() && nodes == WithNode(old(nodes), q, e) && shape == AttachLeft(old(shape), q)
    {
      ghost var ns, s, r := nodes, shape, rootAt;
      node.left := e;
      e.parent := node;
      nodes := WithNode(ns, q, e);
      rootAt := Up(rootAt, q);
      shape := AttachLeft(s, q);
      forall i | 0 <= i < |nodes| ensures LinkedAt(i) {
        if i != q {
          ghost var j := Before(i, q);
          ghost var n := ns[j];
          assert old(LinkedAt(j));
          LeftLeafAgree(ns, s, old(rootAt), q, e, j, old(Links(n.left, n.right, n.parent)),
                        Links(n.left, n.right, n.parent));
        } else {
          WithNodeRef(ns, q, e, q);
        }
      }
      assert Tree(shape, rootAt) by { AttachLeftTree(s, r, q); }
      assert Distinct(nodes) by { WithNodeDistinct(ns, q, e); }
    }

    method AttachRightOf(node: TreeElement, e: TreeElement, ghost q: int)
      requires Linked() && InRange(shape, q) && node == nodes[q] && shape[q].right == NONE
      requires e !in nodes && e.left == null && e.right == null
      modifies this`nodes, this`shape, this`rootAt, node, e
      ensures Linked() && nodes == WithNode(old(nodes), q + 1, e) && shape == AttachRight(old(shape), q)
    {
      ghost var p := q + 1;
      ghost var ns, s, r := nodes, shape, rootAt;
      node.right := e;
      e.parent := node;
      nodes := WithNode(ns, p, e);
      rootAt := Up(rootAt, p);
      shape := AttachRight(s, q);
      forall i | 0 <= i < |nodes| ensures LinkedAt(i) {
        if i != p {
          ghost var j := Before(i, p);
          ghost var n := ns[j];
          assert old(LinkedAt(j));
          RightLeafAgree(ns, s, old(rootAt), q, e, j, old(Links(n.left, n.right, n.parent)),
                         Links(n.left, n.right, n.parent));
        } else {
          WithNodeRef(ns, p, e, q);
        }
      }
      assert Tree(shape, rootAt) by { AttachRightTree(s, r, q); }
      assert Distinct(nodes) by { WithNodeDistinct(ns, p, e); }
    }

    /** The search for the place of a new event. */
    method FindSpot(e: Event) returns (node: TreeElement, goLeft: bool, ghost q: int)
      requires Linked() && Sorted(Events()) && root != null
      ensures InRange(shape, q) && node == nodes[q]
      ensures if goLeft then shape[q].left == NONE else shape[q].right == NONE
      ensures forall i :: 0 <= i < (if goLeft then q else q + 1) ==> CompareEvent(e, EventsOf(nodes)[i]) > 0
      ensures forall i :: (if goLeft then q else q + 1) <= i < |nodes| ==> CompareEvent(e, EventsOf(nodes)[i]) <= 0
    {
      node := root;
      q := rootAt;
      assert Node(shape, q);
      while true
        invariant InRange(shape, q) && node == nodes[q] && Node(shape, q)
        invariant forall i :: 0 <= i < shape[q].lo ==> CompareEvent(e, EventsOf(nodes)[i]) > 0
        invariant forall i :: q < shape[q].hi <= i < |nodes| ==> CompareEvent(e, EventsOf(nodes)[i]) <= 0
        decreases Size(shape, q)
      {
        assert LinkedAt(q);
        assert node.event == EventsOf(nodes)[q];
        if CompareEvent(e, node.event) <= 0 {
          if node.left == null { return node, true, q; }
          node, q := node.left, shape[q].left;
        } else {
          if node.right == null { return node, false, q; }
          node, q := node.right, shape[q].right;
        }
      }
    }

    method Leftmost(start: TreeElement, ghost from: int) returns (node: TreeElement)
      requires Linked() && InRange(shape, from) && start == nodes[from] && shape[from].lo == 0
      ensures node == nodes[0]
    {
      node := start;
      ghost var q := from;
      assert Node(shape, q);
      while node.left != null
        invariant InRange(shape, q) && node == nodes[q] && shape[q].lo == 0 && Node(shape, q)
        decreases q
      {
        assert LinkedAt(q) && Node(shape, shape[q].left);
        node, q := node.left, shape[q].left;
      }
      assert LinkedAt(q);
    }

    /** The new node becomes a leaf at its place in the order. */
    method Attach(e: TreeElement) returns (ghost p: int)
      requires Linked() && Sorted(Events()) && root != null && current == nodes[0]
      requires e !in nodes && e.left == null && e.right == null
      modifies this`current, this`nodes, this`shape, this`rootAt, nodes, e
      ensures Linked() && 0 <= p <= |old(nodes)| && nodes == WithNode(old(nodes), p, e) && current == nodes[0]
      ensures Events() == InsertBefore(old(Events()), e.event) && Leafed(old(shape), shape, p)
    {
      p := 0;
      assert EventsOf(nodes)[0] == current.event;
      if CompareEvent(e.event, current.event) <= 0 {
        WithNodeEvents(nodes, 0, e);
        assert Node(shape, 0);
        AttachLeftOf(current, e, 0);
        current := e;
      } else {
        var node, goLeft, q := FindSpot(e.event);
        p := if goLeft then q else q + 1;
        WithNodeEvents(nodes, p, e);
        if goLeft {
          AttachLeftOf(node, e, q);
        } else {
          AttachRightOf(node, e, q);
        }
      }
    }

    /** The event goes just before the first event it does not exceed. */
    method Insert(newElement: Event)
      requires Valid()
      modifies this, nodes
      ensures Valid() && Events() == InsertBefore(old(Events()), newElement)
      ensures old(root) != null ==> Inserted(old(shape), shape, rootAt)
      ensures forall n :: n in nodes ==> n in old(nodes) || fresh(n)
    {
      InsertBeforeSorts(Events(), newElement);
      var e := new TreeElement(newElement);
      numberOfElements := numberOfElements + 1;
      if root == null {
        root, current := e, e;
        nodes, shape, rootAt := [e], [Place(0, 1, NONE, NONE, NONE)], 0;
        assert Node(shape, 0) && LinkedAt(0);
        assert Events() == [newElement];
        return;
      }
      ghost var p := Attach(e);
      Splay(e, p);
    }

    /** The pointer work of bypassing the first node, which is not the root. */
    method UnlinkFirst(node: TreeElement) returns (parent: TreeElement)
      requires Linked() && nodes != [] && node == nodes[0] && rootAt != 0
      modifies nodes
      ensures 0 < shape[0].parent < |nodes| && parent == nodes[shape[0].parent]
      ensures DropFirst(shape)[shape[0].parent - 1].lo == 0
      ensures forall j :: 0 < j < |nodes| ==> Bypassed(nodes, shape, j)
    {
      FirstParent(shape, rootAt);
      assert LinkedAt(0) && LinkedAt(shape[0].parent);
      parent := node.parent;
      Bypass(node, parent);
    }

    /** The first node, which is not the root, is bypassed. */
    method BypassFirst(node: TreeElement) returns (parent: TreeElement, ghost at: int)
      requires Linked() && nodes != [] && node == nodes[0] && rootAt != 0
      modifies this`nodes, this`shape, this`rootAt, nodes
      ensures Linked() && nodes == Without(old(nodes), 0) && nodes != [] && shape == DropFirst(old(shape))
      ensures InRange(shape, at) && parent == nodes[at] && shape[at].lo == 0
    {
      ghost var ns, s, r := nodes, shape, rootAt;
      parent := UnlinkFirst(node);
      nodes, shape, rootAt, at := Without(ns, 0), DropFirst(s), Down(r, 0), s[0].parent - 1;
      assert 0 < r < |ns| && nodes[rootAt] == ns[r] && nodes[at] == parent;
      forall i | 0 <= i < |nodes| ensures LinkedAt(i) {
        ghost var n := ns[i + 1];
        assert old(LinkedAt(i + 1)) && Bypassed(ns, s, i + 1);
        BypassedAgree(ns, s, r, i + 1, old(Links(n.left, n.right, n.parent)), Links(n.left, n.right, n.parent));
      }
      assert Tree(shape, rootAt) by { DropFirstTree(s, r); }
      assert Distinct(nodes) by { WithoutNodeDistinct(ns, 0); }
    }

    /** The first node is the root: its right part remains, whose root keeps its parent pointer. */
    method DropFirstRoot()
      requires Linked() && nodes != [] && rootAt == 0
      modifies this`root, this`nodes, this`shape, this`rootAt
      ensures Linked() && nodes == Without(old(nodes), 0) && shape == DropRoot(old(shape), 0)
    {
      ghost var ns, s := nodes, shape;
      DropRootTree(s, 0);
      WithoutNodeDistinct(ns, 0);
      assert LinkedAt(0) && Node(s, 0);
      WithoutNodeRef(ns, 0, s[0].right);
      root := root.right;
      nodes, shape, rootAt := Without(ns, 0), DropRoot(s, 0), NewRoot(s, 0);
      forall i | 0 <= i < |nodes| ensures LinkedAt(i) {
        ghost var n := ns[i + 1];
        assert old(LinkedAt(i + 1));
        JoinedAgree(ns, s, 0, i + 1, Links(n.left, n.right, n.parent), Links(n.left, n.right, n.parent));
      }
    }

    /** Takes the least event out. */
    method GetEvent() returns (event: Option<Event>)
      requires Valid()
      modifies this, nodes
      ensures Valid()
      ensures if old(Events()) == [] then event == None && Events() == []
              else event == Some(old(Events()[0])) && Events() == old(Events()[1..])
                   && shape == if old(rootAt) == 0 then DropRoot(old(shape), 0) else DropFirst(old(shape))
      ensures forall n :: n in nodes ==> n in old(nodes)
    {
      if root == null { return None; }
      var node := current;
      ghost var at := 0;
      if node == root {
        DropFirstRoot();
        current := root;
        at := rootAt;
      } else {
        current, at := BypassFirst(node);
      }
      if current != null {
        current := Leftmost(current, at);
      }
      numberOfElements := numberOfElements - 1;
      event := Some(node.event);
      assert Events() == old(Events())[1..];
    }

    method PeekEvent() returns (event: Option<Event>)
      requires Valid()
      modifies this
      ensures Valid() && nodes == old(nodes)
      ensures event == if Events() == [] then None else Some(Events()[0])
    {
      if root == null || numberOfElements == 0 {
        root, current, numberOfElements := null, null, 0;
        return None;
      }
      return Some(current.event);
    }

    /** The last node of the left part. */
    method Rightmost(start: TreeElement, ghost from: int) returns (node: TreeElement)
      requires Linked() && InRange(shape, from) && start == nodes[from] && shape[from].hi == rootAt
      ensures rootAt > 0 && node == nodes[rootAt - 1] && node.right == null
    {
      node := start;
      ghost var q := from;
      assert Node(shape, q);
      while node.right != null
        invariant InRange(shape, q) && node == nodes[q] && shape[q].hi == rootAt && Node(shape, q)
        decreases |nodes| - q
      {
        assert LinkedAt(q) && Node(shape, shape[q].right);
        node, q := node.right, shape[q].right;
      }
      assert LinkedAt(q);
    }

    /** The root is taken out and the two parts below it become one tree. */
    method JoinHalves()
      requires Linked() && root != null
      modifies this`root, this`nodes, this`shape, this`rootAt, nodes
      ensures Linked() && nodes == Without(old(nodes), old(rootAt)) && shape == DropRoot(old(shape), old(rootAt))
    {
      assert LinkedAt(rootAt) && Node(shape, rootAt);
      if root.left != null {
        HangRight(root.left, root.right);
      } else {
        assert rootAt == 0;
        DropFirstRoot();
        if root != null {
          ClearRootParent();
        }
      }
    }

    /** The pointer work of hanging the right part of the root below the last node of its left part. */
    method HangPointers(left: TreeElement, right: TreeElement?)
      requires Linked() && root != null && left == root.left && right == root.right
      modifies nodes
      ensures 0 < rootAt && InRange(shape, shape[rootAt].left) && left == nodes[shape[rootAt].left]
      ensures forall j :: 0 <= j < |nodes| && j != rootAt ==> Hung(nodes, shape, rootAt, j)
    {
      assert LinkedAt(rootAt) && Node(shape, rootAt);
      LastOfLeft(shape, rootAt);
      assert LinkedAt(rootAt - 1);
      if right != null {
        var last := Rightmost(left, shape[rootAt].left);
        last.right := right;
        right.parent := last;
      }
      left.parent := null;
    }

    /** The root goes, and its left part takes over. */
    method HangRight(left: TreeElement, right: TreeElement?)
      requires Linked() && root != null && left == root.left && right == root.right
      modifies this`root, this`nodes, this`shape, this`rootAt, nodes
      ensures Linked() && nodes == Without(old(nodes), old(rootAt)) && shape == DropRoot(old(shape), old(rootAt))
    {
      ghost var ns, s, k := nodes, shape, rootAt;
      assert LinkedAt(k) && Node(s, k);
      HangPointers(left, right);
      root := left;
      nodes, shape, rootAt := Without(ns, k), DropRoot(s, k), NewRoot(s, k);
      assert rootAt < k && nodes[rootAt] == left;
      forall i | 0 <= i < |nodes| ensures LinkedAt(i) {
        ghost var j := if i < k then i else i + 1;
        ghost var n := ns[j];
        assert old(LinkedAt(j)) && Hung(ns, s, k, j);
        JoinedAgree(ns, s, k, j, old(Links(n.left, n.right, n.parent)), Links(n.left, n.right, n.parent));
      }
      assert Tree(shape, rootAt) by { DropRootTree(s, k); }
      assert Distinct(nodes) by { WithoutNodeDistinct(ns, k); }
    }

    method ClearRootParent()
      requires Linked() && root != null
      modifies nodes
      ensures Linked()
    {
      assert Rooted(shape, rootAt);
      root.parent := null;
      forall i | 0 <= i < |nodes| ensures LinkedAt(i) { assert old(LinkedAt(i)); }
    }

    /** The search for an event with the same key. */
    method Find(start: TreeElement, delEvent: Event, ghost from: int) returns (node: TreeElement?, ghost at: int)
      requires Linked() && Sorted(Events()) && InRange(shape, from) && start == nodes[from]
      requires CompareEvent(delEvent, start.event) == 0 || NoneOutside(nodes, delEvent, shape[from].lo, shape[from].hi)
      ensures node == null ==> at == NONE && NoneOutside(nodes, delEvent, 0, 0)
      ensures node != null ==>
                InRange(shape, at) && node == nodes[at] && CompareEvent(delEvent, EventsOf(nodes)[at]) == 0
      ensures if CompareEvent(delEvent, start.event) == 0 then at == from
              else node != null ==> NoneOutside(nodes, delEvent, shape[at].lo, shape[at].hi)
    {
      node, at := start, from;
      ghost var lo, hi := shape[from].lo, shape[from].hi;
      while node != null
        invariant node != null ==> InRange(shape, at) && node == nodes[at] && lo == shape[at].lo && hi == shape[at].hi
        invariant node == null ==> lo == hi && at == NONE
        invariant if CompareEvent(delEvent, start.event) == 0 then node == start && at == from
                  else NoneOutside(nodes, delEvent, lo, hi)
        decreases hi - lo, node != null
      {
        assert LinkedAt(at) && Node(shape, at) && EventsOf(nodes)[at] == node.event;
        if CompareEvent(delEvent, node.event) < 0 {
          lo, hi := lo, at;
          node, at := node.left, shape[at].left;
        } else if CompareEvent(delEvent, node.event) == 0 {
          break;
        } else {
          lo, hi := at + 1, hi;
          node, at := node.right, shape[at].right;
        }
      }
    }

    /** The node to delete; the search starts at the least node if the event does not exceed it. */
    method Locate(e: Event) returns (node: TreeElement?, ghost at: int)
      requires Valid() && root != null
      ensures node == null ==> at == NONE && NoneOutside(nodes, e, 0, 0)
      ensures node != null ==> InRange(shape, at) && node == nodes[at] && Chosen(shape, EventsOf(nodes), e, at)
    {
      assert Node(shape, 0) && EventsOf(nodes)[0] == current.event;
      if CompareEvent(e, current.event) <= 0 {
        node, at := Find(current, e, 0);
      } else {
        node, at := Find(root, e, rootAt);
      }
    }

    /** Deletes the root and finds the least node again. */
    method RemoveRoot()
      requires Valid() && root != null
      modifies this, nodes
      ensures Valid() && nodes == Without(old(nodes), old(rootAt)) && shape == DropRoot(old(shape), old(rootAt))
    {
      WithoutNodeEvents(nodes, rootAt);
      JoinHalves();
      numberOfElements := numberOfElements - 1;
      if root != null {
        current := Leftmost(root, rootAt);
      }
    }

    /** Splays the node to the root and deletes it there; the splay never falls short. */
    method RemoveNode(node: TreeElement, ghost at: int)
      requires Valid() && InRange(shape, at) && node == nodes[at]
      modifies this, nodes
      ensures Valid() && nodes == Without(old(nodes), at) && Deleted(old(shape), shape, at)
    {
      SplayedAlready(shape, rootAt);
      if node != root {
        Splay(node, at);
        if node != root {
          assert false;
          return;
        }
      }
      assert rootAt == at;
      RemoveRoot();
    }

    /** Removes one event with the same key, if there is one: the one at the chosen node. */
    method Erase(delEvent: Option<Event>) returns (ghost at: int)
      requires Valid()
      modifies this, nodes
      ensures Valid()
      ensures at == NONE ==> Events() == old(Events()) && shape == old(shape)
      ensures at == NONE && delEvent.Some? ==> NoneOutside(nodes, delEvent.value, 0, 0)
      ensures at != NONE ==>
                && delEvent.Some? && 0 <= at < |old(Events())|
                && Chosen(old(shape), old(Events()), delEvent.value, at)
                && Events() == Without(old(Events()), at) && Deleted(old(shape), shape, at)
      ensures forall n :: n in nodes ==> n in old(nodes)
    {
      at := NONE;
      if delEvent == None { return; }
      if root == null {
        current := null;
        return;
      }
      var node;
      node, at := Locate(delEvent.value);
      if node != null {
        RemoveLocated(node, at);
      }
    }

    method RemoveLocated(node: TreeElement, ghost at: int)
      requires Valid() && InRange(shape, at) && node == nodes[at]
      modifies this, nodes
      ensures Valid() && 0 <= at < |old(Events())| && Events() == Without(old(Events()), at)
      ensures Deleted(old(shape), shape, at)
      ensures forall n :: n in nodes ==> n in old(nodes)
    {
      WithoutNodeEvents(nodes, at);
      RemoveNode(node, at);
    }
  }

  const OLDER := Event(5, 1, 0)
  const NEWER := Event(5, 1, 1)

  /** The least event has the key: it goes. */
  lemma LeastGoes(s: Shape, es: seq<Event>, at: int)
    requires es == [NEWER, OLDER]
    ensures |s| == |es| && Chosen(s, es, OLDER, at) ==> at == 0
    ensures Without(es, 0) == [OLDER]
  {
  }

  lemma KeyPresent(ns: seq<TreeElement>)
    ensures EventsOf(ns) == [NEWER, OLDER] ==> !NoneOutside(ns, OLDER, 0, 0)
  {
    if EventsOf(ns) == [NEWER, OLDER] { assert CompareEvent(OLDER, EventsOf(ns)[0]) == 0; }
  }

  method TwoAlike() returns (tree: SplayTree)
    ensures fresh(tree) && fresh(tree.nodes) && tree.Valid() && tree.Events() == [NEWER, OLDER]
  {
    tree := new SplayTree();
    assert tree.nodes == [];
    tree.Insert(OLDER);
    assert tree.Events() == [OLDER];
    forall i | 0 <= i < |tree.nodes| ensures fresh(tree.nodes[i]) { assert tree.nodes[i] in tree.nodes; }
    tree.Insert(NEWER);
    forall i | 0 <= i < |tree.nodes| ensures fresh(tree.nodes[i]) { assert tree.nodes[i] in tree.nodes; }
  }

  /** Erasing can take another event with the key: the older of two is erased and the newer one goes. */
  method EraseTakesAnother() returns (tree: SplayTree)
    ensures tree.Valid() && tree.Events() == [OLDER]
  {
    tree := TwoAlike();
    ghost var s, es := tree.shape, tree.Events();
    ghost var at := tree.Erase(Some(OLDER));
    KeyPresent(tree.nodes);
    assert at != NONE;
    LeastGoes(s, es, at);
  }
}
