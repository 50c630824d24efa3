/** The unsorted lock-free list, used by one thread: a chain of heap nodes in which erased nodes are marked
    and unlinked later. It is proved against the sequence of its live keys, latest insertion first. */
module LockFreeList {
  import opened Wrappers

  datatype State = INS | REM | DAT | INV

  /** Keys are addresses; zero is NULL. */
  type Key = nat

  const NULL: Key := 0

  class ListNode {
    const key: Key
    var state: State
    var next: ListNode?

    constructor (k: Key, s: State)
      ensures key == k && state == s && next == null
    {
      key, state, next := k, s, null;
    }
  }

  // ----- the chain on values -----

  datatype Cell = Cell(key: Key, state: State)

  /** Keys of the DAT nodes, in list order. */
  ghost function Live(cells: seq<Cell>): seq<Key> {
    if cells == [] then [] else (if cells[0].state == DAT then [cells[0].key] else []) + Live(cells[1..])
  }

  /** Only live and erased nodes, no live key twice, none NULL. */
  ghost predicate Settled(cells: seq<Cell>) {
    && (forall i :: 0 <= i < |cells| ==> cells[i].state == DAT || cells[i].state == INV)
    && (forall i :: 0 <= i < |cells| && cells[i].state == DAT ==> cells[i].key != NULL)
    && (forall i, j :: 0 <= i < j < |cells| && cells[i].state == DAT && cells[j].state == DAT ==>
          cells[i].key != cells[j].key)
  }

  lemma {:induction false} LiveConcat(a: seq<Cell>, b: seq<Cell>)
    ensures Live(a + b) == Live(a) + Live(b)
  {
    if a == [] {
      assert a + b == b;
      assert Live(a) + Live(b) == Live(b);
    } else {
      LiveConcat(a[1..], b);
      assert a + b == [a[0]] + (a[1..] + b) && a == [a[0]] + a[1..];
      LiveCons(a[0], a[1..] + b);
      LiveCons(a[0], a[1..]);
      Regroup(if a[0].state == DAT then [a[0].key] else [], Live(a[1..]), Live(b));
    }
  }

  lemma LiveCons(c: Cell, rest: seq<Cell>)
    ensures Live([c] + rest) == (if c.state == DAT then [c.key] else []) + Live(rest)
  {
    assert ([c] + rest)[1..] == rest;
  }

  lemma LiveSplit(cells: seq<Cell>, k: int)
    requires 0 <= k < |cells|
    ensures Live(cells) == Live(cells[..k])
                           + ((if cells[k].state == DAT then [cells[k].key] else []) + Live(cells[k + 1..]))
  {
    Around(cells, k);
    LiveParts(cells[..k], cells[k], cells[k + 1..]);
  }

  lemma Around(cells: seq<Cell>, k: int)
    requires 0 <= k < |cells|
    ensures cells == cells[..k] + ([cells[k]] + cells[k + 1..])
  {
  }

  lemma LiveParts(a: seq<Cell>, c: Cell, b: seq<Cell>)
    ensures Live(a + ([c] + b)) == Live(a) + ((if c.state == DAT then [c.key] else []) + Live(b))
  {
    LiveConcat(a, [c] + b);
    LiveCons(c, b);
  }

  /** Unlinking an erased node changes nothing that is live. */
  lemma UnlinkKeepsLive(cells: seq<Cell>, k: int)
    requires 0 <= k < |cells| && cells[k].state != DAT
    ensures Live(Without(cells, k)) == Live(cells)
  {
    LiveSplit(cells, k);
    LiveConcat(cells[..k], cells[k + 1..]);
  }

  lemma {:induction false} LiveHas(cells: seq<Cell>, key: Key)
    ensures key in Live(cells) <==> exists i :: 0 <= i < |cells| && cells[i].state == DAT && cells[i].key == key
  {
    if cells != [] {
      LiveHas(cells[1..], key);
      if exists i :: 0 <= i < |cells| && cells[i].state == DAT && cells[i].key == key {
        var i :| 0 <= i < |cells| && cells[i].state == DAT && cells[i].key == key;
        assert i > 0 ==> cells[1..][i - 1] == cells[i];
      }
    }
  }

  /** Marking a live node takes exactly its key out. */
  lemma EraseLive(cells: seq<Cell>, k: int) returns (at: int)
    requires 0 <= k < |cells| && cells[k].state == DAT
    ensures 0 <= at < |Live(cells)| && Live(cells)[at] == cells[k].key
    ensures Live(cells[k := Cell(cells[k].key, INV)]) == Without(Live(cells), at)
  {
    var a, b := Live(cells[..k]), Live(cells[k + 1..]);
    var cells' := cells[k := Cell(cells[k].key, INV)];
    at := |a|;
    LiveSplit(cells, k);
    LiveSplit(cells', k);
    assert cells'[..k] == cells[..k] && cells'[k + 1..] == cells[k + 1..];
    assert Without(a + ([cells[k].key] + b), at) == a + b;
    assert a + ([] + b) == a + b;
  }

  lemma SettledWithout(cells: seq<Cell>, k: int)
    requires Settled(cells) && 0 <= k < |cells|
    ensures Settled(Without(cells, k))
  {
    var t := Without(cells, k);
    assert forall i :: 0 <= i < |t| ==> t[i] == cells[if i < k then i else i + 1];
  }

  lemma SettledMark(cells: seq<Cell>, k: int)
    requires 1 <= k < |cells| && Settled(cells[1..])
    ensures Settled(cells[k := Cell(cells[k].key, INV)][1..])
  {
    var a, b := cells[1..], cells[k := Cell(cells[k].key, INV)][1..];
    assert forall i :: 0 <= i < |b| ==> b[i] == if i == k - 1 then Cell(cells[k].key, INV) else a[i];
  }

  lemma HeadSettled(c: Cell, rest: seq<Cell>)
    requires Settled(rest) && (c.state == INV || (c.state == DAT && c.key != NULL && c.key !in Live(rest)))
    ensures Settled([c] + rest)
    ensures Live([c] + rest) == (if c.state == DAT then [c.key] else []) + Live(rest)
  {
    var t := [c] + rest;
    assert t[1..] == rest;
    LiveHas(rest, c.key);
    assert forall i :: 1 <= i < |t| ==> t[i] == rest[i - 1];
  }

  lemma {:induction false} LiveDistinct(cells: seq<Cell>)
    requires Settled(cells)
    ensures forall i, j :: 0 <= i < j < |Live(cells)| ==> Live(cells)[i] != Live(cells)[j]
  {
    if cells != [] {
      var rest := cells[1..];
      LiveDistinct(rest);
      LiveHas(rest, cells[0].key);
    }
  }

  lemma NullNotLive(cells: seq<Cell>)
    requires Settled(cells)
    ensures NULL !in Live(cells)
  {
    LiveHas(cells, NULL);
  }

  /** A search for `k` that came to position `at`, or to the end: no erased node is left between the first node and
      there, and beyond nothing has changed. */
  ghost predicate Swept(c: seq<Cell>, c': seq<Cell>, k: Key, at: int) {
    SweptTo(c, c', k, at) && (at < |c'| ==> c'[at] == Cell(k, DAT))
  }

  ghost predicate SweptTo(c: seq<Cell>, c': seq<Cell>, k: Key, at: int) {
    && 1 <= at <= |c'| <= |c|
    && (forall i :: 1 <= i < at ==> c'[i].state == DAT && c'[i].key != k)
    && c'[at..] == c[|c| - (|c'| - at)..]
  }

  /** What the loop of a search keeps. */
  ghost predicate Sweeping(c: seq<Cell>, c': seq<Cell>, k: Key, at: int) {
    SweptTo(c, c', k, at) && c'[0] == c[0] && c[0].state != DAT && Settled(c'[1..]) && Live(c') == Live(c)
  }

  lemma SweepUnlinks(c: seq<Cell>, c': seq<Cell>, k: Key, at: int)
    requires Sweeping(c, c', k, at) && at < |c'| && c'[at].state != DAT
    ensures Sweeping(c, Without(c', at), k, at)
  {
    var t := Without(c', at);
    assert t[at..] == c'[at..][1..];
    SettledWithout(c'[1..], at - 1);
    assert Without(c'[1..], at - 1) == t[1..];
    UnlinkKeepsLive(c', at);
  }

  lemma SweepPasses(c: seq<Cell>, c': seq<Cell>, k: Key, at: int)
    requires Sweeping(c, c', k, at) && at < |c'| && c'[at].state != INV && c'[at].key != k
    ensures Sweeping(c, c', k, at + 1)
  {
    assert c'[1..][at - 1] == c'[at];
    assert c'[at + 1..] == c'[at..][1..];
  }

  lemma SweepHits(c: seq<Cell>, c': seq<Cell>, k: Key, at: int)
    requires Sweeping(c, c', k, at) && at < |c'| && c'[at].state != INV && c'[at].key == k
    ensures Swept(c, c', k, at)
  {
    assert c'[1..][at - 1] == c'[at];
  }

  lemma SweepMisses(c: seq<Cell>, c': seq<Cell>, k: Key)
    requires Sweeping(c, c', k, |c'|)
    ensures Swept(c, c', k, |c'|) && k !in Live(c')
  {
    NotMet(c', k);
  }

  lemma NotMet(c: seq<Cell>, k: Key)
    requires c != [] && c[0].state != DAT && forall i :: 1 <= i < |c| ==> c[i].key != k
    ensures k !in Live(c)
  {
    assert forall i :: 0 <= i < |c| ==> !(c[i].state == DAT && c[i].key == k);
    LiveHas(c, k);
  }

  /** The sweep leaves exactly the live nodes up to there, in order. */
  lemma SweptIs(c: seq<Cell>, c': seq<Cell>, k: Key, at: int)
    requires Swept(c, c', k, at) && Live(c') == Live(c) && c'[0] == c[0] && c[0].state != DAT
    ensures Live(c'[..at]) == Live(c[..|c| - (|c'| - at)]) && |Live(c'[..at])| == at - 1
  {
    var n := |c| - (|c'| - at);
    assert c == c[..n] + c[n..] && c' == c'[..at] + c'[at..];
    LiveConcat(c[..n], c[n..]);
    LiveConcat(c'[..at], c'[at..]);
    CutBack(Live(c[..n]), Live(c'[..at]), Live(c[n..]));
    assert c'[..at] == [c'[0]] + c'[1..at];
    LiveCons(c'[0], c'[1..at]);
    AllLive(c'[1..at]);
  }

  lemma CutBack(a: seq<Key>, b: seq<Key>, c: seq<Key>)
    requires a + c == b + c
    ensures a == b
  {
    assert |a + c| == |b + c|;
    assert a == (a + c)[..|a|] && b == (b + c)[..|b|];
  }

  lemma {:induction false} AllLive(c: seq<Cell>)
    requires forall i :: 0 <= i < |c| ==> c[i].state == DAT
    ensures |Live(c)| == |c|
  {
    if c != [] { AllLive(c[1..]); }
  }

  // ----- the list -----

  ghost predicate Chained(ns: seq<ListNode>)
    reads ns
  {
    && (forall i, j :: 0 <= i < j < |ns| ==> ns[i] != ns[j])
    && (forall i :: 0 <= i < |ns| ==> SuccAt(ns, i))
  }

  ghost function Succ(ns: seq<ListNode>, i: int): ListNode? {
    if 0 <= i + 1 < |ns| then ns[i + 1] else null
  }

  ghost predicate SuccAt(ns: seq<ListNode>, i: int)
    requires 0 <= i < |ns|
    reads ns
  {
    ns[i].next == Succ(ns, i)
  }

  ghost predicate Shows(ns: seq<ListNode>, cells: seq<Cell>)
    reads ns
  {
    |ns| == |cells| && forall i :: 0 <= i < |ns| ==> cells[i] == Cell(ns[i].key, ns[i].state)
  }

  lemma DropSucc(ns: seq<ListNode>, k: int, i: int)
    requires 1 <= k < |ns| && 0 <= i < |ns| - 1
    ensures Succ(Without(ns, k), i) == Succ(ns, if i < k - 1 then i else i + 1)
  {
  }

  class List {
    var head: ListNode?
    var listSize: int
    ghost var nodes: seq<ListNode>
    ghost var cells: seq<Cell>

    /** A chain without cycles, starting at `head`. */
    ghost predicate Linked()
      reads this`head, this`nodes, this`cells, nodes
    {
      && Chained(nodes) && Shows(nodes, cells)
      && head == (if nodes == [] then null else nodes[0])
    }

    ghost predicate Valid()
      reads this, nodes
    {
      Linked() && Settled(cells) && listSize == |Live(cells)|
    }

    /** What the list holds. */
    ghost function Keys(): seq<Key>
      reads this
    {
      Live(cells)
    }

    constructor ()
      ensures Valid() && Keys() == [] && fresh(nodes)
    {
      head, listSize := null, 0;
      nodes, cells := [], [];
    }

    /** The new node becomes the head; the compare-and-swap succeeds at once. */
    method Enlist(h: ListNode)
      requires Linked() && h !in nodes
      modifies this`head, this`nodes, this`cells, h
      ensures Linked() && nodes == [h] + old(nodes) && cells == [Cell(h.key, h.state)] + old(cells)
              && h.state == old(h.state)
    {
      ghost var ns := nodes;
      h.next := head;
      head := h;
      nodes, cells := [h] + nodes, [Cell(h.key, h.state)] + cells;
      forall i | 0 <= i < |nodes| ensures SuccAt(nodes, i) {
        if i > 0 { assert old(SuccAt(ns, i - 1)) && nodes[i] == ns[i - 1]; }
      }
    }

    /** pred.next := succ around an erased node. */
    method Unlink(pred: ListNode, curr: ListNode, ghost p: int)
      requires Linked() && 0 <= p && p + 1 < |nodes| && pred == nodes[p] && curr == nodes[p + 1] && curr.state == INV
      modifies this`nodes, this`cells, pred
      ensures Linked() && nodes == Without(old(nodes), p + 1) && cells == Without(old(cells), p + 1)
              && Live(cells) == Live(old(cells))
      ensures pred.next == old(curr.next)
    {
      UnlinkKeepsLive(cells, p + 1);
      ghost var ns := nodes;
      assert SuccAt(ns, p + 1);
      pred.next := curr.next;
      nodes, cells := Without(ns, p + 1), Without(cells, p + 1);
      forall i | 0 <= i < |nodes| ensures SuccAt(nodes, i) {
        ghost var j := if i <= p then i else i + 1;
        DropSucc(ns, p + 1, i);
        assert old(SuccAt(ns, j)) && nodes[i] == ns[j];
      }
    }

    method Mark(node: ListNode, s: State, ghost at: int)
      requires Linked() && 0 <= at < |nodes| && node == nodes[at]
      modifies this`cells, node`state
      ensures Linked() && cells == old(cells)[at := Cell(node.key, s)] && node.state == s
    {
      node.state := s;
      cells := cells[at := Cell(node.key, s)];
      forall i | 0 <= i < |nodes| ensures SuccAt(nodes, i) { assert old(SuccAt(nodes, i)); }
    }

    /** The search meets an erased node. */
    method Skip(pred: ListNode, curr: ListNode, ghost c: seq<Cell>, ghost k: Key, ghost at: int)
      returns (succ: ListNode?)
      requires Linked() && 1 <= at < |nodes| && pred == nodes[at - 1] && curr == nodes[at] && curr.state == INV
      requires Sweeping(c, cells, k, at)
      modifies this`nodes, this`cells, pred
      ensures Linked() && nodes == Without(old(nodes), at) && Sweeping(c, cells, k, at) && succ == pred.next
    {
      SweepUnlinks(c, cells, k, at);
      succ := curr.next;
      Unlink(pred, curr, at - 1);
    }

    /** The part of the search common to helpInsert and helpRemove: erased nodes met on the way are
        unlinked; the search ends at a node with the key or at the end. */
    method Search(h: ListNode, k: Key) returns (curr: ListNode?, ghost at: int)
      requires Linked() && nodes != [] && h == nodes[0] && cells[0].state != DAT && Settled(cells[1..])
      modifies this`nodes, this`cells, nodes
      ensures Linked() && nodes != [] && h == nodes[0] && cells[0] == old(cells[0]) && Settled(cells[1..])
      ensures Live(cells) == Live(old(cells))
      ensures Swept(old(cells), cells, k, at)
      ensures curr == null ==> at == |cells| && k !in Live(cells)
      ensures curr != null ==> 1 <= at < |nodes| && curr == nodes[at] && cells[at] == Cell(k, DAT)
      ensures forall n :: n in nodes ==> n in old(nodes)
    {
      var pred := h;
      curr := pred.next;
      at := 1;
      while curr != null
        invariant Linked() && 1 <= at <= |nodes| && pred == nodes[at - 1] && curr == pred.next
        invariant h == nodes[0] && Sweeping(old(cells), cells, k, at)
        invariant forall n :: n in nodes ==> n in old(nodes)
        decreases |nodes| - at
      {
        assert SuccAt(nodes, at - 1);
        if curr.state == INV {
          assert pred in nodes;
          curr := Skip(pred, curr, old(cells), k, at);
        } else if curr.key != k {
          SweepPasses(old(cells), cells, k, at);
          pred := curr;
          curr := curr.next;
          at := at + 1;
        } else {
          SweepHits(old(cells), cells, k, at);
          return;
        }
      }
      assert SuccAt(nodes, at - 1);
      SweepMisses(old(cells), cells, k);
    }

    method HelpInsert(h: ListNode, k: Key) returns (b: bool, ghost at: int)
      requires Linked() && nodes != [] && h == nodes[0] && cells[0].state != DAT && Settled(cells[1..])
      modifies this`nodes, this`cells, nodes
      ensures Linked() && nodes != [] && h == nodes[0] && cells[0] == old(cells[0]) && Settled(cells[1..])
      ensures Live(cells) == Live(old(cells)) && (b <==> k !in Live(cells))
      ensures Swept(old(cells), cells, k, at) && (b <==> at == |cells|)
      ensures forall n :: n in nodes ==> n in old(nodes)
    {
      var curr;
      curr, at := Search(h, k);
      LiveHas(cells, k);
      b := curr == null || curr.state == REM;
    }

    /** A live node with the key is marked; nodes in the states INS and REM belong to operations of other
        threads. */
    method HelpRemove(h: ListNode, k: Key) returns (b: bool, ghost gone: int, ghost at: int)
      requires Linked() && nodes != [] && h == nodes[0] && cells[0].state != DAT && Settled(cells[1..])
      modifies this`nodes, this`cells, nodes
      ensures Linked() && nodes != [] && h == nodes[0] && cells[0] == old(cells[0]) && Settled(cells[1..])
      ensures b <==> k in Live(old(cells))
      ensures !b ==> Live(cells) == Live(old(cells))
      ensures b <==> 1 <= at < |cells|
      ensures if b then cells[at] == Cell(k, INV) && Swept(old(cells), cells[at := Cell(k, DAT)], k, at)
              else Swept(old(cells), cells, k, at)
      ensures b ==> && 0 <= gone < |Live(old(cells))| && Live(old(cells))[gone] == k
                    && Live(cells) == Without(Live(old(cells)), gone)
      ensures forall n :: n in nodes ==> n in old(nodes)
    {
      gone := 0;
      var curr;
      curr, at := Search(h, k);
      LiveHas(cells, k);
      if curr == null || curr.state != DAT { return false, gone, at; }
      gone := EraseLive(cells, at);
      SettledMark(cells, at);
      assert curr in nodes;
      ghost var swept := cells;
      Mark(curr, INV, at);
      assert cells[at := Cell(k, DAT)] == swept;
      b := true;
    }

    method NewHead(k: Key, s: State) returns (h: ListNode)
      requires Valid() && s != DAT
      modifies this`head, this`nodes, this`cells
      ensures Linked() && fresh(h) && nodes == [h] + old(nodes) && h.state == s && cells[0] == Cell(k, s)
      ensures Settled(cells[1..]) && Live(cells) == Live(old(cells))
    {
      h := new ListNode(k, s);
      Enlist(h);
      assert cells[1..] == old(cells);
    }

    /** The operation's own node gets its final state. */
    method Settle(h: ListNode, s: State)
      requires Linked() && nodes != [] && h == nodes[0] && Settled(cells[1..]) && cells[0].state != DAT
      requires s == INV || (s == DAT && h.key != NULL && h.key !in Live(cells))
      modifies this`cells, h`state
      ensures Linked() && Settled(cells) && Live(cells) == (if s == DAT then [h.key] else []) + Live(old(cells))
    {
      ghost var rest := cells[1..];
      assert Live(cells) == Live(rest);
      Mark(h, s, 0);
      assert cells == [Cell(h.key, s)] + rest;
      HeadSettled(Cell(h.key, s), rest);
    }

    /** The head goes live if its key is absent. */
    method InsertHead(h: ListNode) returns (b: bool)
      requires Linked() && nodes != [] && h == nodes[0] && cells[0].state != DAT && Settled(cells[1..]) && h.key != NULL
      modifies this`nodes, this`cells, nodes
      ensures Linked() && Settled(cells) && (b <==> h.key !in Live(old(cells)))
      ensures Live(cells) == if b then [h.key] + Live(old(cells)) else Live(old(cells))
      ensures forall n :: n in nodes ==> n in old(nodes)
    {
      ghost var at;
      b, at := HelpInsert(h, h.key);
      Settle(h, if b then DAT else INV);
    }

    /** True exactly when the key was absent; it is then the first of the live keys. */
    method Insert(k: Key) returns (b: bool)
      requires Valid()
      modifies this, nodes
      ensures Valid() && (b <==> k != NULL && k !in old(Keys()))
      ensures Keys() == if b then [k] + old(Keys()) else old(Keys())
      ensures forall n :: n in nodes ==> n in old(nodes) || fresh(n)
    {
      if k == NULL { return false; }
      var h := NewHead(k, INS);
      b := InsertHead(h);
      listSize := listSize + (if b then 1 else 0);
    }

    /** The head is erased at once, and a live node with its key before it. */
    method EraseBehind(h: ListNode) returns (b: bool, ghost gone: int)
      requires Linked() && nodes != [] && h == nodes[0] && cells[0].state != DAT && Settled(cells[1..])
      modifies this`nodes, this`cells, nodes
      ensures Linked() && Settled(cells) && (b <==> h.key in Live(old(cells)))
      ensures !b ==> Live(cells) == Live(old(cells))
      ensures b ==> && 0 <= gone < |Live(old(cells))| && Live(old(cells))[gone] == h.key
                    && Live(cells) == Without(Live(old(cells)), gone)
      ensures forall n :: n in nodes ==> n in old(nodes)
    {
      ghost var at;
      b, gone, at := HelpRemove(h, h.key);
      Settle(h, INV);
    }

    /** True exactly when the key was present; exactly that key is gone. */
    method Erase(k: Key) returns (b: bool, ghost gone: int)
      requires Valid()
      modifies this, nodes
      ensures Valid() && (b <==> k in old(Keys()))
      ensures !b ==> Keys() == old(Keys())
      ensures b ==> 0 <= gone < |old(Keys())| && old(Keys())[gone] == k && Keys() == Without(old(Keys()), gone)
      ensures forall n :: n in nodes ==> n in old(nodes) || fresh(n)
    {
      if k == NULL {
        NullNotLive(cells);
        return false, 0;
      }
      var h := NewHead(k, REM);
      b, gone := EraseBehind(h);
      listSize := listSize - (if b then 1 else 0);
    }

    /** The first live key, NULL if there is none. */
    method Begin() returns (k: Key)
      requires Valid()
      ensures k == if Keys() == [] then NULL else Keys()[0]
    {
      var curr := head;
      ghost var i := 0;
      assert cells[0..] == cells;
      while curr != null && curr.state != DAT
        invariant 0 <= i <= |nodes| && curr == (if i < |nodes| then nodes[i] else null)
        invariant Live(cells[i..]) == Live(cells)
        decreases |nodes| - i
      {
        assert SuccAt(nodes, i);
        assert cells[i..][1..] == cells[i + 1..];
        curr := curr.next;
        i := i + 1;
      }
      k := if curr != null then curr.key else NULL;
    }

    /** Terminates and returns a member, the latest inserted, whenever there is one. */
    method PopFront() returns (k: Key)
      requires Valid()
      modifies this, nodes
      ensures Valid() && (old(Keys()) == [] ==> k == NULL && Keys() == [])
      ensures old(Keys()) != [] ==> k == old(Keys())[0] && Keys() == old(Keys())[1..]
    {
      LiveDistinct(cells);
      var done := false;
      k := NULL;
      while !done && listSize != 0
        invariant Valid() && (!done ==> k == NULL && nodes == old(nodes) && Keys() == old(Keys()))
        invariant done ==> old(Keys()) != [] && k == old(Keys())[0] && Keys() == old(Keys())[1..]
        decreases if done then 0 else 1
      {
        k := Begin();
        ghost var gone;
        done, gone := Erase(k);
        assert done && gone == 0;
      }
    }

    method Clear()
      modifies this
      ensures Valid() && Keys() == []
    {
      head, listSize := null, 0;
      nodes, cells := [], [];
    }
  }
}
