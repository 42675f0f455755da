/** The doubly linked list that ranks work groups by effect, highest first
    (`WorkNode` and `LinkedList` in grade_data.py). */
module RankedList {
  import opened Groups

  /** Effects ordered from highest to lowest. */
  ghost predicate NonIncreasing(s: seq<real>)
  {
    forall i, j :: 0 <= i < j < |s| ==> s[i] >= s[j]
  }

  /** Where an element of effect `e` goes: before the first element strictly below `e`,
      or at the end when there is none. */
  function FirstBelow(s: seq<real>, e: real): (k: nat)
    ensures k <= |s|
    ensures forall i :: 0 <= i < k ==> s[i] >= e
    ensures k < |s| ==> s[k] < e
  {
    if s == [] || s[0] < e then 0 else 1 + FirstBelow(s[1..], e)
  }

  /** The insertion position is the only one with elements >= e before it and a smaller one at it. */
  lemma FirstBelowUnique(s: seq<real>, e: real, k: nat)
    requires k <= |s|
    requires forall i :: 0 <= i < k ==> s[i] >= e
    requires k < |s| ==> s[k] < e
    ensures FirstBelow(s, e) == k
  {
  }

  /** `s` with `x` inserted at position `k`. */
  function InsertAt<T>(s: seq<T>, k: nat, x: T): (r: seq<T>)
    requires k <= |s|
  {
    s[..k] + [x] + s[k..]
  }

  /** Inserting before the first strictly smaller element keeps the order highest-first,
      and every element equal to `e` stays ahead of it. */
  lemma InsertKeepsOrder(s: seq<real>, e: real)
    requires NonIncreasing(s)
    ensures NonIncreasing(InsertAt(s, FirstBelow(s, e), e))
  {
    var k := FirstBelow(s, e);
    var r := InsertAt(s, k, e);
    forall i, j | 0 <= i < j < |r|
      ensures r[i] >= r[j]
    {
      if j < k {
        assert r[i] == s[i] && r[j] == s[j];
      } else if j == k {
        assert r[i] == s[i] && r[j] == e;
      } else if i < k {
        assert r[i] == s[i] && r[j] == s[j - 1];
      } else if i == k {
        assert r[j] == s[j - 1] && s[k] < e;
        assert s[j - 1] <= s[k];
      } else {
        assert r[i] == s[i - 1] && r[j] == s[j - 1];
      }
    }
  }

  class WorkNode {
    const data: Work
    var next: WorkNode?
    var prev: WorkNode?

    constructor (data: Work)
      ensures this.data == data && next == null && prev == null
    {
      this.data := data;
      next := null;
      prev := null;
    }
  }

  /** The effects of the groups held by `ns`, in order. */
  ghost function EffectsOf(ns: seq<WorkNode>): (s: seq<real>)
    reads set x | x in ns :: x.data
    ensures |s| == |ns| && forall i :: 0 <= i < |ns| ==> s[i] == ns[i].data.effect
  {
    seq(|ns|, i requires 0 <= i < |ns| reads set x | x in ns :: x.data => ns[i].data.effect)
  }

  /** The groups held by `ns`, in order (a node's group is fixed when the node is made). */
  function DataOf(ns: seq<WorkNode>): (ws: seq<Work>)
    ensures |ws| == |ns| && forall i :: 0 <= i < |ns| ==> ws[i] == ns[i].data
  {
    seq(|ns|, i requires 0 <= i < |ns| => ns[i].data)
  }

  /** No group occurs twice. */
  ghost predicate DistinctGroups(rs: seq<Work>)
  {
    forall i, j :: 0 <= i < j < |rs| ==> rs[i] != rs[j]
  }

  /** A sequence of groups with no repeats has as many members as positions. */
  lemma {:induction false} DistinctGroupsCount(rs: seq<Work>)
    requires DistinctGroups(rs)
    ensures |set x | x in rs| == |rs|
  {
    if rs != [] {
      var init, last := rs[..|rs| - 1], rs[|rs| - 1];
      DistinctGroupsCount(init);
      assert (set x | x in rs) == (set x | x in init) + {last} by {
        assert rs == init + [last];
      }
      assert last !in init;
    }
  }

  /** No node occurs twice. */
  ghost predicate Distinct(ns: seq<WorkNode>)
  {
    forall i, j :: 0 <= i < j < |ns| ==> ns[i] != ns[j]
  }

  /** The next and prev fields of the nodes spell out the sequence `ns`. */
  ghost predicate Linked(ns: seq<WorkNode>)
    reads set x | x in ns
  {
    && (forall i :: 0 <= i < |ns| - 1 ==> ns[i].next == ns[i + 1])
    && (forall i :: 0 < i < |ns| ==> ns[i].prev == ns[i - 1])
    && (ns != [] ==> ns[0].prev == null && ns[|ns| - 1].next == null)
  }

  /** `h` and `t` are the ends of the distinct, doubly linked nodes `ns`. */
  ghost predicate Chain(h: WorkNode?, t: WorkNode?, ns: seq<WorkNode>)
    reads set x | x in ns
  {
    && Distinct(ns)
    && (ns == [] ==> h == null && t == null)
    && (ns != [] ==> h == ns[0] && t == ns[|ns| - 1])
    && Linked(ns)
  }

  lemma EffectsOfInsert(ns: seq<WorkNode>, k: nat, n: WorkNode)
    requires k <= |ns|
    ensures EffectsOf(ns[..k] + [n] + ns[k..]) == InsertAt(EffectsOf(ns), k, n.data.effect)
  {
  }

  lemma DataOfInsert(ns: seq<WorkNode>, k: nat, n: WorkNode)
    requires k <= |ns|
    ensures DataOf(ns[..k] + [n] + ns[k..]) == InsertAt(DataOf(ns), k, n.data)
  {
  }

  lemma InsertedMembers<T>(s: seq<T>, k: nat, x: T)
    requires k <= |s|
    ensures forall y :: y in s[..k] + [x] + s[k..] <==> y in s || y == x
  {
    assert s == s[..k] + s[k..];
  }

  class LinkedList {
    var head: WorkNode?
    var tail: WorkNode?
    var size: nat
    /** The nodes from head to tail. */
    ghost var nodes: seq<WorkNode>

    ghost function Works(): set<Work>
      reads this
    {
      set x | x in nodes :: x.data
    }

    /** The groups held are those of the node sequence; with no group held twice, one per node. */
    lemma WorksCount()
      requires DistinctGroups(DataOf(nodes))
      ensures Works() == set x | x in DataOf(nodes)
      ensures |Works()| == |nodes|
    {
      assert forall x :: x in DataOf(nodes) <==> x in Works() by {
        forall x
          ensures x in DataOf(nodes) <==> x in Works()
        {
          if x in Works() {
            var y :| y in nodes && y.data == x;
            var i :| 0 <= i < |nodes| && nodes[i] == y;
            assert DataOf(nodes)[i] == x;
          }
        }
      }
      DistinctGroupsCount(DataOf(nodes));
    }

    ghost function Effects(): seq<real>
      reads this, Works()
    {
      EffectsOf(nodes)
    }

    /** head, tail and the next/prev links spell out `nodes`. */
    ghost predicate Shape()
      reads this, set x | x in nodes
    {
      Chain(head, tail, nodes)
    }

    /** The shape holds, size counts the nodes, and the effects never increase from head to tail. */
    ghost predicate Valid()
      reads this, (set x | x in nodes), Works()
    {
      Shape() && size == |nodes| && NonIncreasing(Effects())
    }

    constructor ()
      ensures Valid() && nodes == [] && head == null && tail == null
    {
      head := null;
      tail := null;
      size := 0;
      nodes := [];
    }

    /** Places `n` immediately before the first node whose effect is strictly smaller,
        or at the tail; nodes of equal effect stay ahead of it. */
    method Add(n: WorkNode)
      requires Valid()
      requires n !in nodes && n.next == null && n.prev == null
      modifies this, (set x | x in nodes), n
      ensures Valid()
      ensures var k := FirstBelow(old(Effects()), n.data.effect);
              nodes == old(nodes)[..k] + [n] + old(nodes)[k..]
              && Effects() == InsertAt(old(Effects()), k, n.data.effect)
              && DataOf(nodes) == InsertAt(DataOf(old(nodes)), k, n.data)
      ensures size == old(size) + 1
      ensures old(nodes) == [] ==> head == n && tail == n
      ensures forall x :: x in nodes <==> x in old(nodes) || x == n
      ensures Works() == old(Works()) + {n.data}
    {
      ghost var e := n.data.effect;
      ghost var was := Effects();
      ghost var ns := nodes;
      ghost var k := Place(n);
      size := size + 1;
      Placed(ns, was, n, k);
      InsertedMembers(ns, k, n);
      WorksAfterInsert(ns, n);
      DataOfInsert(ns, k, n);
    }

    lemma WorksAfterInsert(ns: seq<WorkNode>, n: WorkNode)
      requires forall x :: x in nodes <==> x in ns || x == n
      ensures Works() == (set x | x in ns :: x.data) + {n.data}
    {
    }

    /** After Place: the list is valid again and holds the effects with `e` inserted at
        its FirstBelow position. */
    lemma Placed(ns: seq<WorkNode>, was: seq<real>, n: WorkNode, k: nat)
      requires Shape() && size == |nodes|
      requires k <= |ns| && nodes == ns[..k] + [n] + ns[k..]
      requires |was| == |ns| && forall j :: 0 <= j < |ns| ==> ns[j].data.effect == was[j]
      requires NonIncreasing(was)
      requires forall j :: 0 <= j < k ==> was[j] >= n.data.effect
      requires k < |was| ==> was[k] < n.data.effect
      ensures Valid()
      ensures FirstBelow(was, n.data.effect) == k && Effects() == InsertAt(was, k, n.data.effect)
    {
      var e := n.data.effect;
      assert EffectsOf(ns) == was;
      FirstBelowUnique(was, e, k);
      EffectsOfInsert(ns, k, n);
      InsertKeepsOrder(was, e);
    }

    /** The linking part of Add: `n` goes in at position `k`, after every node whose
        effect is at least its own and before the first one whose effect is smaller. */
    method Place(n: WorkNode) returns (ghost k: nat)
      requires Shape() && size == |nodes|
      requires n !in nodes && n.next == null && n.prev == null
      modifies this, (set x | x in nodes), n
      ensures Shape() && size == old(size)
      ensures k <= |old(nodes)| && nodes == old(nodes)[..k] + [n] + old(nodes)[k..]
      ensures forall j :: 0 <= j < k ==> old(nodes)[j].data.effect >= n.data.effect
      ensures k < |old(nodes)| ==> old(nodes)[k].data.effect < n.data.effect
      ensures old(nodes) == [] ==> head == n && tail == n
    {
      ghost var ns := nodes;
      if head == null {
        head := n;
        tail := n;
        nodes := [n];
        k := 0;
      } else if head.data.effect < n.data.effect {
        LinkFront(n);
        k := 0;
      } else if size == 1 {
        LinkBack(n);
        k := 1;
        assert ns[..1] == ns;
      } else {
        k := Search(n);
      }
    }

    /** The search loop of Add for a list of two or more nodes whose head is not below `n`. */
    method Search(n: WorkNode) returns (ghost k: nat)
      requires Shape() && |nodes| > 1 && head.data.effect >= n.data.effect
      requires n !in nodes && n.next == null && n.prev == null
      modifies this, (set x | x in nodes), n
      ensures Shape() && size == old(size)
      ensures k <= |old(nodes)| && nodes == old(nodes)[..k] + [n] + old(nodes)[k..]
      ensures forall j :: 0 <= j < k ==> old(nodes)[j].data.effect >= n.data.effect
      ensures k < |old(nodes)| ==> old(nodes)[k].data.effect < n.data.effect
    {
      ghost var ns := nodes;
      var cur := head;
      ghost var i := 0;
      while cur != null
        invariant 0 <= i <= |nodes| && nodes == ns && size == old(size)
        invariant cur == if i < |nodes| then nodes[i] else null
        invariant forall j :: 0 <= j < i ==> ns[j].data.effect >= n.data.effect
        invariant Shape() && n.next == null && n.prev == null
        decreases |nodes| - i
      {
        if cur.data.effect < n.data.effect {
          LinkBefore(cur, n, i);
          k := i;
          return;
        }
        cur := cur.next;
        i := i + 1;
      }
      LinkBack(n);
      k := |ns|;
      assert ns[..k] == ns;
    }

    /** `n` becomes the new head, linked in front of the old head. */
    method LinkFront(n: WorkNode)
      requires Shape() && nodes != []
      requires n !in nodes && n.next == null && n.prev == null
      modifies this, (set x | x in nodes), n
      ensures Shape() && nodes == [n] + old(nodes)
      ensures size == old(size)
    {
      ghost var ns := nodes;
      var first := head;
      first.prev := n;
      n.next := first;
      head := n;
      nodes := [n] + nodes;
      forall j | 0 <= j < |nodes| - 1
        ensures nodes[j].next == nodes[j + 1]
      {
        if j > 0 {
          assert nodes[j] == ns[j - 1] && nodes[j] != n;
        }
      }
      forall j | 0 < j < |nodes|
        ensures nodes[j].prev == nodes[j - 1]
      {
        if j > 1 {
          assert nodes[j] == ns[j - 1] && nodes[j] != n && nodes[j] != first;
        }
      }
      assert nodes[|nodes| - 1] == ns[|ns| - 1];
    }

    /** `n` becomes the new tail, linked after the old tail. */
    method LinkBack(n: WorkNode)
      requires Shape() && nodes != []
      requires n !in nodes && n.next == null && n.prev == null
      modifies this, (set x | x in nodes), n
      ensures Shape() && nodes == old(nodes) + [n]
      ensures size == old(size)
    {
      ghost var ns := nodes;
      var last := tail;
      n.prev := last;
      last.next := n;
      tail := n;
      nodes := nodes + [n];
      forall j | 0 <= j < |nodes| - 1
        ensures nodes[j].next == nodes[j + 1]
      {
        if j < |ns| - 1 {
          assert nodes[j] == ns[j] && nodes[j] != n && nodes[j] != last;
        }
      }
      forall j | 0 < j < |nodes|
        ensures nodes[j].prev == nodes[j - 1]
      {
        if j < |ns| {
          assert nodes[j] == ns[j] && nodes[j] != n;
        }
      }
      assert nodes[0] == ns[0];
    }

    /** The splice of the search loop: `n` is linked in between `cur` and the node before it. */
    method LinkBefore(cur: WorkNode, n: WorkNode, ghost i: nat)
      requires Shape() && 0 < i < |nodes| && cur == nodes[i]
      requires n !in nodes && n.next == null && n.prev == null
      modifies this, (set x | x in nodes), n
      ensures Shape() && nodes == old(nodes)[..i] + [n] + old(nodes)[i..]
      ensures size == old(size)
    {
      ghost var ns := nodes;
      var before := cur.prev;
      assert before == ns[i - 1];
      before.next := n;
      n.prev := before;
      n.next := cur;
      cur.prev := n;
      nodes := nodes[..i] + [n] + nodes[i..];
      forall j | 0 <= j < |nodes| - 1
        ensures nodes[j].next == nodes[j + 1]
      {
        if j < i - 1 {
          assert nodes[j] == ns[j] && nodes[j + 1] == ns[j + 1];
          assert nodes[j] != before && nodes[j] != n;
        } else if j > i {
          assert nodes[j] == ns[j - 1] && nodes[j + 1] == ns[j];
          assert nodes[j] != before && nodes[j] != n;
        }
      }
      forall j | 0 < j < |nodes|
        ensures nodes[j].prev == nodes[j - 1]
      {
        if j < i {
          assert nodes[j] == ns[j] && nodes[j - 1] == ns[j - 1];
          assert nodes[j] != cur && nodes[j] != n;
        } else if j > i + 1 {
          assert nodes[j] == ns[j - 1] && nodes[j - 1] == ns[j - 2];
          assert nodes[j] != cur && nodes[j] != n;
        }
      }
      assert nodes[0] == ns[0] && nodes[|nodes| - 1] == ns[|ns| - 1];
    }
  }
}
