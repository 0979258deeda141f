/** The doubly linked ring behind the cache's recency list: a root link and, in order, its elements. */
module ContainerList {
  import opened Sequences

  class Element<T(0)> {
    var value: T
    var next: Element?<T>
    var prev: Element?<T>

    constructor (v: T)
      ensures value == v && next == null && prev == null
    {
      value := v;
      next, prev := null, null;
    }

    constructor Root()
      ensures next == this && prev == this
    {
      next, prev := this, this;
    }
  }

  lemma OmitFromLoop<T>(r: T, s: seq<T>, i: nat)
    requires i < |s|
    ensures [r] + Omit(s, i) + [r] == ([r] + s + [r])[..i + 1] + ([r] + s + [r])[i + 2..]
  {
  }

  lemma OmitIsDistinct<T>(s: seq<T>, i: nat)
    requires i < |s| && forall j, k :: 0 <= j < k < |s| ==> s[j] != s[k]
    ensures forall j, k :: 0 <= j < k < |s| - 1 ==> Omit(s, i)[j] != Omit(s, i)[k]
    ensures forall x :: x in Omit(s, i) ==> x in s && x != s[i]
  {
    OmitAt(s, i);
    forall x | x in Omit(s, i) ensures x in s && x != s[i] {
      var j :| 0 <= j < |s| - 1 && Omit(s, i)[j] == x;
      assert x == s[if j < i then j else j + 1];
    }
  }

  lemma LoopIsInjective<T>(r: T, s: seq<T>)
    requires r !in s && forall j, k :: 0 <= j < k < |s| ==> s[j] != s[k]
    ensures forall j, k :: 0 <= j < k <= |s| ==> ([r] + s + [r])[j] != ([r] + s + [r])[k]
    ensures forall j, k :: 0 < j < k <= |s| + 1 ==> ([r] + s + [r])[j] != ([r] + s + [r])[k]
  {
  }

  class List<T(0)> {
    const root: Element<T>
    var len: nat
    /** The elements, front to back. */
    ghost var elements: seq<Element<T>>

    /** Once around the ring, from the root back to the root. */
    ghost function Loop(): seq<Element<T>>
      reads this
    {
      [root] + elements + [root]
    }

    ghost predicate Valid()
      reads this, Loop()`next, Loop()`prev
    {
      && |elements| == len && root !in elements
      && (forall i, j :: 0 <= i < j < len ==> elements[i] != elements[j])
      && (forall i {:trigger Loop()[i].next} :: 0 <= i <= len ==> Loop()[i].next == Loop()[i + 1])
      && (forall i {:trigger Loop()[i].prev} :: 0 < i <= len + 1 ==> Loop()[i].prev == Loop()[i - 1])
    }

    constructor ()
      ensures Valid() && fresh(root) && elements == []
    {
      var r := new Element<T>.Root();
      root := r;
      len := 0;
      elements := [];
    }

    /** Links `e` in just behind the root. */
    method InsertFront(e: Element<T>)
      requires Valid() && e != root && e !in elements
      modifies this, Loop()`next, Loop()`prev, e`next, e`prev
      ensures Valid() && elements == [e] + old(elements)
    {
      ghost var was := Loop();
      assert root.next == was[1] && was[1].prev == root by { assert was[0].next == was[1]; }
      e.prev := root;
      e.next := root.next;
      e.prev.next := e;
      e.next.prev := e;
      len := len + 1;
      elements := [e] + elements;
      assert Loop() == [root, e] + was[1..];
    }

    method PushFront(v: T) returns (e: Element<T>)
      requires Valid()
      modifies this, Loop()`next, Loop()`prev
      ensures Valid() && fresh(e) && e.value == v && elements == [e] + old(elements)
    {
      e := new Element(v);
      InsertFront(e);
    }

    /** If every link of `was` is right but those around place `i + 1`, which is skipped, the shorter loop is linked. */
    lemma Shortcut(was: seq<Element<T>>, i: nat)
      requires i + 2 < |was| && Loop() == was[..i + 1] + was[i + 2..]
      requires forall j {:trigger was[j].next} :: 0 <= j < |was| - 1 && j != i && j != i + 1 ==> was[j].next == was[j + 1]
      requires forall j {:trigger was[j].prev} :: 0 < j < |was| && j != i + 1 && j != i + 2 ==> was[j].prev == was[j - 1]
      requires was[i].next == was[i + 2] && was[i + 2].prev == was[i]
      ensures forall j {:trigger Loop()[j].next} :: 0 <= j < |was| - 2 ==> Loop()[j].next == Loop()[j + 1]
      ensures forall j {:trigger Loop()[j].prev} :: 0 < j < |was| - 1 ==> Loop()[j].prev == Loop()[j - 1]
    {
      forall j {:trigger Loop()[j].next} | 0 <= j < |was| - 2 ensures Loop()[j].next == Loop()[j + 1] {
        assert Loop()[j] == was[if j <= i then j else j + 1];
      }
      forall j {:trigger Loop()[j].prev} | 0 < j < |was| - 1 ensures Loop()[j].prev == Loop()[j - 1] {
        assert Loop()[j] == was[if j <= i then j else j + 1];
      }
    }

    /** Links the neighbours of the element at place `i + 1` of the ring to each other. */
    method Bypass(e: Element<T>, ghost p: Element<T>, ghost q: Element<T>, ghost was: seq<Element<T>>, ghost i: nat)
      requires i + 2 < |was| && was[i] == p && was[i + 1] == e && was[i + 2] == q
      requires forall j, k :: 0 <= j < k < |was| - 1 ==> was[j] != was[k]
      requires forall j, k :: 0 < j < k < |was| ==> was[j] != was[k]
      requires forall j {:trigger was[j].next} :: 0 <= j < |was| - 1 ==> was[j].next == was[j + 1]
      requires forall j {:trigger was[j].prev} :: 0 < j < |was| ==> was[j].prev == was[j - 1]
      modifies p`next, q`prev, e`next, e`prev
      ensures forall j {:trigger was[j].next} :: 0 <= j < |was| - 1 && j != i && j != i + 1 ==> was[j].next == was[j + 1]
      ensures forall j {:trigger was[j].prev} :: 0 < j < |was| && j != i + 1 && j != i + 2 ==> was[j].prev == was[j - 1]
      ensures p.next == q && q.prev == p && e.next == null && e.prev == null
    {
      assert e.prev == p by { assert was[i + 1].prev == was[i]; }
      assert e.next == q by { assert was[i + 1].next == was[i + 2]; }
      e.prev.next := e.next;
      e.next.prev := e.prev;
      e.next, e.prev := null, null;
    }

    /** Takes the element at place `i` out. */
    method Remove(e: Element<T>, ghost i: nat)
      requires Valid() && i < len && elements[i] == e
      modifies this, Loop()`next, Loop()`prev
      ensures Valid() && elements == Omit(old(elements), i) && e !in elements
      ensures e.next == null && e.prev == null
    {
      ghost var was := Loop();
      OmitFromLoop(root, elements, i);
      OmitIsDistinct(elements, i);
      LoopIsInjective(root, elements);
      assert was[i] in was && was[i + 1] in was && was[i + 2] in was;
      Bypass(e, was[i], was[i + 2], was, i);
      len := len - 1;
      elements := Omit(elements, i);
      Shortcut(was, i);
    }

    method MoveToFront(e: Element<T>, ghost i: nat)
      requires Valid() && i < len && elements[i] == e
      modifies this, Loop()`next, Loop()`prev
      ensures Valid() && elements == [e] + Omit(old(elements), i)
    {
      if root.next == e {
        assert i == 0 by { assert Loop()[0].next == Loop()[1]; }
        return;
      }
      assert Loop()[i + 1] in Loop() && Loop()[i + 1] == e;
      OmitFromLoop(root, elements, i);
      Remove(e, i);
      InsertFront(e);
    }

    method Back() returns (e: Element?<T>)
      requires Valid()
      ensures if len == 0 then e == null else e == elements[len - 1]
    {
      if len == 0 {
        return null;
      }
      assert Loop()[len + 1].prev == Loop()[len];
      e := root.prev;
    }

    /** The element in front of the one at place `i`, or null when there is none. */
    method Prev(e: Element<T>, ghost i: nat) returns (p: Element?<T>)
      requires Valid() && i < len && elements[i] == e
      ensures if i == 0 then p == null else p == elements[i - 1]
    {
      assert Loop()[i + 1].prev == Loop()[i];
      p := e.prev;
      if p == root {
        p := null;
      }
    }
  }
}
