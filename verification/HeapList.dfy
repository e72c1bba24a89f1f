/**
 * The singly linked list of StringArray.h: nodes on the heap, relinked in place.  Valid ties the chain
 * of next pointers to the sequence of its nodes, so the chain is acyclic and ends.
 */
module HeapList {
  import opened Basics

  // ---------- what the operations mean ----------

  // The position of the first element that satisfies p, or the length.
  function FirstMatch<T>(s: seq<T>, p: T -> bool): (n: nat)
    ensures n <= |s|
    ensures forall i :: 0 <= i < n ==> !p(s[i])
    ensures n < |s| ==> p(s[n])
  {
    if s == [] || p(s[0]) then 0
    else
      var n := FirstMatch(s[1..], p);
      assert forall i :: 0 < i < n + 1 ==> s[i] == s[1..][i - 1];
      n + 1
  }

  function WithoutAt<T>(s: seq<T>, n: nat): (r: seq<T>)
    ensures n < |s| ==>
              |r| == |s| - 1 && forall i :: 0 <= i < |r| ==> r[i] == if i < n then s[i] else s[i + 1]
    ensures n >= |s| ==> r == s
  {
    if n < |s| then s[..n] + s[n + 1..] else s
  }

  function Count<T>(s: seq<T>, p: T -> bool): nat {
    if s == [] then 0 else Count(s[..|s| - 1], p) + if p(s[|s| - 1]) then 1 else 0
  }

  lemma FirstMatchIs<T>(s: seq<T>, p: T -> bool, n: nat)
    requires n < |s| && p(s[n]) && forall i :: 0 <= i < n ==> !p(s[i])
    ensures FirstMatch(s, p) == n
  {
  }

  lemma WithoutAtIsPart<T>(s: seq<T>, k: nat)
    ensures forall x <- WithoutAt(s, k) :: x in s
  {
  }

  lemma NoMatchThere<T>(s: seq<T>, p: T -> bool)
    requires forall i :: 0 <= i < |s| ==> !p(s[i])
    ensures FirstMatch(s, p) == |s| && WithoutAt(s, |s|) == s
  {
  }

  // Removing the first match leaves all the others: one match fewer, and one copy of that element fewer.
  lemma RemoveTakesOne<T>(s: seq<T>, p: T -> bool)
    ensures var n := FirstMatch(s, p); var r := WithoutAt(s, n);
            && (n < |s| <==> Count(s, p) > 0)
            && (n < |s| ==> Count(r, p) == Count(s, p) - 1 && multiset(r) == multiset(s) - multiset{s[n]})
            && (n == |s| ==> r == s)
  {
    hide Count, FirstMatch, WithoutAt;
    var n := FirstMatch(s, p);
    if n < |s| {
      WithoutSplit(s, n);
      CountInsert(s[..n], s[n], s[n + 1..], p);
    } else {
      NoneMatch(s, p);
    }
  }

  lemma WithoutSplit<T>(s: seq<T>, n: nat)
    requires n < |s|
    ensures WithoutAt(s, n) == s[..n] + s[n + 1..] && s[..n] + ([s[n]] + s[n + 1..]) == s
  {
  }

  lemma CountInsert<T>(a: seq<T>, x: T, b: seq<T>, p: T -> bool)
    requires p(x)
    ensures Count(a + ([x] + b), p) == Count(a + b, p) + 1
    ensures multiset(a + b) == multiset(a + ([x] + b)) - multiset{x}
  {
    CountOne(x, p);
    hide Count;
    CountAppend(a, [x] + b, p);
    CountAppend([x], b, p);
    CountAppend(a, b, p);
  }

  lemma CountOne<T>(x: T, p: T -> bool)
    ensures Count([x], p) == if p(x) then 1 else 0
  {
    assert [x][..0] == [];
  }

  lemma {:induction false} CountAppend<T>(a: seq<T>, b: seq<T>, p: T -> bool)
    ensures Count(a + b, p) == Count(a, p) + Count(b, p)
  {
    if b == [] {
      assert a + b == a;
    } else {
      CountAppend(a, b[..|b| - 1], p);
      assert (a + b)[..|a + b| - 1] == a + b[..|b| - 1];
    }
  }

  lemma {:induction false} NoneMatch<T>(s: seq<T>, p: T -> bool)
    requires forall i :: 0 <= i < |s| ==> !p(s[i])
    ensures Count(s, p) == 0
  {
    if s != [] {
      NoneMatch(s[..|s| - 1], p);
    }
  }

  // ---------- the list ----------

  class Node<T> {
    const value: T
    var next: Node?<T>

    constructor (value: T)
      ensures this.value == value && next == null
    {
      this.value, next := value, null;
    }
  }

  ghost function ValuesOf<T>(nodes: seq<Node<T>>): (s: seq<T>)
    ensures |s| == |nodes| && forall i :: 0 <= i < |nodes| ==> s[i] == nodes[i].value
  {
    seq(|nodes|, i requires 0 <= i < |nodes| => nodes[i].value)
  }

  lemma ValuesWithoutAt<T>(nodes: seq<Node<T>>, k: nat)
    requires k < |nodes|
    ensures ValuesOf(WithoutAt(nodes, k)) == WithoutAt(ValuesOf(nodes), k)
  {
    var r, s := WithoutAt(nodes, k), ValuesOf(nodes);
    forall i | 0 <= i < |r| ensures ValuesOf(r)[i] == WithoutAt(s, k)[i] {
    }
  }

  class LinkedList<T(==)> {
    var root: Node?<T>
    // the nodes of the chain, in order
    ghost var nodes: seq<Node<T>>
    // the values handed to onRemove, in order
    var removed: seq<T>

    ghost predicate Valid()
      reads `root, `nodes, nodes
    {
      && root == At(0)
      && (forall i :: 0 <= i < |nodes| ==> nodes[i].next == At(i + 1))
      && (forall i, j :: 0 <= i < j < |nodes| ==> nodes[i] != nodes[j])
    }

    ghost function At(i: nat): Node?<T>
      reads `nodes
    {
      if i < |nodes| then nodes[i] else null
    }

    ghost function Values(): seq<T>
      reads `nodes
    {
      ValuesOf(nodes)
    }

    constructor ()
      ensures Valid() && Values() == [] && removed == [] && nodes == []
    {
      root, nodes, removed := null, [], [];
    }

    method Add(t: T)
      requires Valid()
      modifies this, nodes
      ensures Valid() && fresh(set n <- nodes | n !in old(nodes))
      ensures Values() == old(Values()) + [t] && removed == old(removed)
    {
      var it := new Node(t);
      if root == null {
        root := it;
        nodes := [it];
      } else {
        var i := root;
        ghost var k := 0;
        while i.next != null
          invariant k < |nodes| && i == nodes[k]
          decreases |nodes| - k
        {
          i := i.next;
          k := k + 1;
        }
        i.next := it;
        nodes := nodes + [it];
      }
    }

    method Length() returns (n: nat)
      requires Valid()
      ensures n == |Values()|
    {
      n := 0;
      var it := root;
      while it != null
        invariant n <= |nodes| && it == At(n)
        decreases |nodes| - n
      {
        n := n + 1;
        it := it.next;
      }
    }

    method Nth(n: nat) returns (r: Option<T>)
      requires Valid()
      ensures r == if n < |Values()| then Some(Values()[n]) else None
    {
      var i := 0;
      var it := root;
      while it != null
        invariant i <= |nodes| && i <= n && it == At(i)
        decreases |nodes| - i
      {
        if i == n {
          return Some(it.value);
        }
        i := i + 1;
        it := it.next;
      }
      return None;
    }

    // Without a predicate every element counts.
    method CountIf(p: Option<T -> bool>) returns (n: nat)
      requires Valid()
      ensures n == if p.Some? then Count(Values(), p.value) else |Values()|
    {
      n := 0;
      var it := root;
      ghost var k := 0;
      while it != null
        invariant k <= |nodes| && it == At(k)
        invariant n == if p.Some? then Count(Values()[..k], p.value) else k
        decreases |nodes| - k
      {
        assert Values()[..k + 1][..k] == Values()[..k];
        if p.None? || p.value(it.value) {
          n := n + 1;
        }
        it := it.next;
        k := k + 1;
      }
      assert Values()[..k] == Values();
    }

    // remove and remove_first: the first element that satisfies p leaves, through onRemove.
    method RemoveFirst(p: T -> bool) returns (found: bool)
      requires Valid()
      modifies this, nodes
      ensures Valid() && forall n <- nodes :: n in old(nodes)
      ensures var s, k := old(Values()), FirstMatch(old(Values()), p);
              && (found <==> k < |s|)
              && Values() == WithoutAt(s, k)
              && removed == old(removed) + if found then [s[k]] else []
    {
      hide Valid, WithoutAt, FirstMatch, ValuesOf;
      ghost var s := Values();
      var it, pit := root, root;
      ghost var k := 0;
      RootIsFirst();
      while it != null
        invariant k <= |nodes| == |s| && it == At(k) && root == At(0)
        invariant pit == if k > 0 then nodes[k - 1] else root
        invariant forall i :: 0 <= i < k ==> !p(s[i])
        invariant Valid() && nodes == old(nodes) && removed == old(removed)
        decreases |nodes| - k
      {
        if p(it.value) {
          FirstMatchIs(s, p, k);
          ValuesWithoutAt(nodes, k);
          WithoutAtIsPart(nodes, k);
          Unlink(it, pit, k);
          return true;
        }
        NextIsNext(k);
        pit := it;
        it := it.next;
        k := k + 1;
      }
      NoMatchThere(s, p);
      return false;
    }

    // Relinks around node k.
    method Unlink(it: Node<T>, pit: Node<T>, ghost k: nat)
      requires Valid() && k < |nodes| && it == nodes[k] && (k > 0 ==> pit == nodes[k - 1])
      modifies this, nodes
      ensures Valid() && nodes == WithoutAt(old(nodes), k)
      ensures removed == old(removed) + [it.value]
    {
      if it == root {
        assert k == 0 && WithoutAt(nodes, 0) == nodes[1..];
        hide Valid, WithoutAt;
        UnlinkRoot();
      } else {
        assert k > 0 && WithoutAt(nodes, k) == nodes[..k] + nodes[k + 1..];
        hide Valid, WithoutAt;
        UnlinkAfter(it, pit, k);
      }
      removed := removed + [it.value];
    }

    lemma RootIsFirst()
      requires Valid()
      ensures root == At(0)
    {
    }

    lemma NextIsNext(k: nat)
      requires Valid() && k < |nodes|
      ensures nodes[k].next == At(k + 1)
    {
    }

    method UnlinkRoot()
      requires Valid() && root != null
      modifies `root, `nodes
      ensures Valid() && nodes == old(nodes)[1..]
    {
      root, nodes := root.next, nodes[1..];
    }

    method UnlinkAfter(it: Node<T>, pit: Node<T>, ghost k: nat)
      requires Valid() && 0 < k < |nodes| && it == nodes[k] && pit == nodes[k - 1]
      modifies `nodes, pit`next
      ensures Valid() && nodes == old(nodes)[..k] + old(nodes)[k + 1..]
    {
      pit.next := it.next;
      ghost var ns := nodes;
      nodes := ns[..k] + ns[k + 1..];
      forall i | 0 <= i < |nodes|
        ensures nodes[i].next == At(i + 1)
      {
        if i < k {
          assert nodes[i] == ns[i];
        } else {
          assert nodes[i] == ns[i + 1] && ns[i + 1] != pit;
        }
      }
    }

    method Remove(t: T) returns (found: bool)
      requires Valid()
      modifies this, nodes
      ensures Valid()
      ensures var s, k := old(Values()), FirstMatch(old(Values()), (x: T) => x == t);
              && (found <==> t in s)
              && Values() == WithoutAt(s, k)
              && removed == old(removed) + if found then [t] else []
    {
      found := RemoveFirst((x: T) => x == t);
    }

    // Every element leaves once, front first.
    method Free()
      requires Valid()
      modifies this, nodes
      ensures Valid() && Values() == [] && root == null
      ensures removed == old(removed) + old(Values())
    {
      hide Valid, ValuesOf;
      ghost var s, r, k := Values(), removed, 0;
      RootIsFirst();
      while root != null
        invariant Valid() && root == At(0) && k <= |s| && nodes == old(nodes)[k..]
        invariant removed == r + s[..k]
        decreases |nodes|
      {
        var it := root;
        UnlinkRoot();
        RootIsFirst();
        removed := removed + [it.value];
        assert s[..k + 1] == s[..k] + [s[k]];
        k := k + 1;
      }
      assert s[..k] == s;
    }
  }
}
