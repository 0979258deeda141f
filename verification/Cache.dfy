/** The token cache itself: a map from keys to elements of a doubly linked recency list. */
module Cache {
  import opened Wrappers
  import opened ContainerList
  import opened Sequences
  import R = Recency

  const DEFAULT_SIZE: nat := 512

  /** The map holds exactly the keys of the entries, each with the element at its place. */
  ghost predicate Indexed<K, V, E>(es: seq<E>, s: seq<R.Entry<K, V>>, items: map<K, E>) {
    && |es| == |s| && R.Distinct(s)
    && (forall i :: 0 <= i < |s| ==> s[i].key in items && items[s[i].key] == es[i])
    && (forall k :: k in items ==> R.Has(s, k))
  }

  /** Element by element, the list holds these entries. */
  ghost predicate Holds<T(0)>(es: seq<Element<T>>, s: seq<T>)
    reads es`value
  {
    |es| == |s| && forall i :: 0 <= i < |s| ==> es[i].value == s[i]
  }

  lemma OmitIsWithout<K, V>(s: seq<R.Entry<K, V>>, i: nat)
    requires R.Distinct(s) && i < |s|
    ensures R.Without(s, s[i].key) == Omit(s, i) && R.Find(s, s[i].key) == Some(s[i]) && R.Distinct(Omit(s, i))
  {
    R.FindAt(s, i);
    OmitAt(s, i);
  }

  lemma OmitHas<K, V>(s: seq<R.Entry<K, V>>, i: nat, k: K)
    requires R.Distinct(s) && i < |s| && R.Has(s, k) && k != s[i].key
    ensures R.Has(Omit(s, i), k)
  {
    OmitIsWithout(s, i);
    R.FindAfterRemove(s, s[i].key, k);
  }

  lemma IndexedOmit<K, V, E>(es: seq<E>, s: seq<R.Entry<K, V>>, items: map<K, E>, i: nat)
    requires Indexed(es, s, items) && i < |s|
    ensures Indexed(Omit(es, i), Omit(s, i), items - {s[i].key})
    ensures R.Without(s, s[i].key) == Omit(s, i) && R.Find(s, s[i].key) == Some(s[i])
  {
    OmitIsWithout(s, i);
    OmitAt(s, i);
    OmitAt(es, i);
    forall k | k in items - {s[i].key} ensures R.Has(Omit(s, i), k) {
      OmitHas(s, i, k);
    }
  }

  lemma IndexedPush<K, V, E>(es: seq<E>, s: seq<R.Entry<K, V>>, items: map<K, E>, e: E, x: R.Entry<K, V>)
    requires Indexed(es, s, items) && x.key !in items
    ensures Indexed([e] + es, [x] + s, items[x.key := e])
  {
    assert ([x] + s)[1..] == s;
  }

  lemma IndexedMove<K, V, E>(es: seq<E>, s: seq<R.Entry<K, V>>, items: map<K, E>, i: nat)
    requires Indexed(es, s, items) && i < |s|
    ensures Indexed([es[i]] + Omit(es, i), R.Pushed(s, s[i]), items)
    ensures R.Pushed(s, s[i]) == [s[i]] + Omit(s, i)
  {
    IndexedOmit(es, s, items, i);
    IndexedPush(Omit(es, i), Omit(s, i), items - {s[i].key}, es[i], s[i]);
    assert (items - {s[i].key})[s[i].key := es[i]] == items;
  }

  lemma IndexedRenew<K, V, E>(es: seq<E>, s: seq<R.Entry<K, V>>, items: map<K, E>, x: R.Entry<K, V>)
    requires Indexed(es, s, items) && 0 < |s| && x.key == s[0].key
    ensures Indexed(es, [x] + s[1..], items)
  {
    assert s == [s[0]] + s[1..];
    forall k | k in items ensures R.Has([x] + s[1..], k) {
      assert R.Has(s, k) && ([x] + s[1..])[1..] == s[1..];
    }
  }

  class Cache<K(==, 0), V(0)> {
    const size: nat
    const defaultExpiry: int
    var evictList: List<R.Entry<K, V>>
    var items: map<K, Element<R.Entry<K, V>>>

    /** The entries, most recently used first. */
    ghost var Model: seq<R.Entry<K, V>>
    /** Everything the cache may write. */
    ghost var Repr: set<object>

    /** Map and list are in bijection. */
    ghost predicate Consistent()
      reads this, Repr
    {
      && this in Repr && evictList in Repr && (forall x :: x in evictList.Loop() ==> x in Repr)
      && 0 < size && evictList.Valid()
      && Indexed(evictList.elements, Model, items)
      && Holds(evictList.elements, Model)
    }

    /** Between operations the list is also no longer than `size`. */
    ghost predicate Valid()
      reads this, Repr
    {
      Consistent() && evictList.len <= size
    }

    constructor (size: int, defaultExpiry: int)
      ensures Valid() && Model == [] && fresh(Repr)
      ensures this.size == if size <= 0 then 512 else size
      ensures this.defaultExpiry == defaultExpiry
    {
      this.size := if size <= 0 then DEFAULT_SIZE else size;
      this.defaultExpiry := defaultExpiry;
      var l := new List<R.Entry<K, V>>();
      evictList := l;
      items := map[];
      Model := [];
      Repr := {this, l, l.root};
    }

    /** The place in the list of a key that is present. */
    lemma Locate(k: K) returns (i: nat)
      requires Consistent() && k in items
      ensures i < evictList.len && Model[i].key == k && items[k] == evictList.elements[i]
      ensures R.Find(Model, k) == Some(Model[i])
    {
      assert R.Has(Model, k);
      R.FindIsMember(Model, k);
      i :| 0 <= i < evictList.len && Model[i] == R.Find(Model, k).value;
      assert Model[i].key in items;
    }

    lemma Absent(k: K)
      requires Consistent() && k !in items
      ensures R.Find(Model, k) == None && R.Without(Model, k) == Model
    {
      R.FindIsMember(Model, k);
      R.WithoutAbsent(Model, k);
    }

    /** Takes the element at place `i` of the list out. */
    method RemoveElement(e: Element<R.Entry<K, V>>, ghost i: nat)
      requires Consistent() && i < evictList.len && evictList.elements[i] == e
      modifies Repr
      ensures Consistent() && fresh(Repr - old(Repr)) && evictList.len == old(evictList.len) - 1
      ensures Model == Omit(old(Model), i) == R.Without(old(Model), old(Model)[i].key)
    {
      ghost var es, s := evictList.elements, Model;
      IndexedOmit(es, s, items, i);
      evictList.Remove(e, i);
      items := items - {e.value.key};
      Model := Omit(s, i);
    }

    /** Moves the element at place `i` to the front. */
    method MoveToFront(e: Element<R.Entry<K, V>>, ghost i: nat)
      requires Consistent() && i < evictList.len && evictList.elements[i] == e
      modifies Repr
      ensures Consistent() && fresh(Repr - old(Repr)) && evictList.len == old(evictList.len)
      ensures evictList.elements[0] == e && Model == R.Pushed(old(Model), old(Model)[i])
    {
      IndexedMove(evictList.elements, Model, items, i);
      evictList.MoveToFront(e, i);
      Model := R.Pushed(Model, Model[i]);
    }

    /** Moves the element at place `i` to the front and gives its entry a value and a deadline. */
    method Renew(e: Element<R.Entry<K, V>>, v: V, expireAt: int, ghost i: nat)
      requires Valid() && i < evictList.len && evictList.elements[i] == e
      modifies Repr
      ensures Valid() && fresh(Repr - old(Repr))
      ensures Model == R.Pushed(old(Model), R.Entry(old(Model)[i].key, v, expireAt))
    {
      MoveToFront(e, i);
      ghost var x := R.Entry(Model[0].key, v, expireAt);
      IndexedRenew(evictList.elements, Model, items, x);
      e.value := R.Entry(e.value.key, v, expireAt);
      Model := [x] + Model[1..];
    }

    /** Takes the oldest entry out, if there is one. */
    method RemoveBack()
      requires Consistent()
      modifies Repr
      ensures Consistent() && fresh(Repr - old(Repr))
      ensures Model == DropLast(old(Model)) && evictList.len == |Model|
    {
      var last := evictList.Back();
      if last != null {
        RemoveElement(last, evictList.len - 1);
      }
    }

    /** Puts a new entry in front, whatever the length. */
    method PushFront(key: K, value: V, expireAt: int)
      requires Consistent() && key !in items
      modifies Repr
      ensures Consistent() && fresh(Repr - old(Repr)) && evictList.len == |Model|
      ensures Model == [R.Entry(key, value, expireAt)] + old(Model)
    {
      ghost var x := R.Entry(key, value, expireAt);
      var ent := evictList.PushFront(R.Entry(key, value, expireAt));
      IndexedPush(old(evictList.elements), Model, items, ent, x);
      items := items[key := ent];
      Model := [x] + Model;
      Repr := Repr + {ent};
    }

    /** Stores a value for `secs` seconds (for good when not positive); tells whether another entry was evicted. */
    method AddWithExpiresInSecs(key: K, value: V, secs: int, now: int) returns (evict: bool)
      requires Valid()
      modifies Repr
      ensures Valid() && fresh(Repr - old(Repr))
      ensures Model == R.AddTo(old(Model), size, R.Entry(key, value, R.Deadline(now, secs)))
      ensures evict == (key !in old(items) && old(|Model|) == size)
    {
      var expireAt := R.Deadline(now, secs);
      if key in items {
        ghost var i := Locate(key);
        Renew(items[key], value, expireAt, i);
        return false;
      }
      Absent(key);
      PushFront(key, value, expireAt);
      evict := evictList.len > size;
      if evict {
        RemoveBack();
      }
    }

    method Add(key: K, value: V, now: int) returns (evict: bool)
      requires Valid()
      modifies Repr
      ensures Valid() && fresh(Repr - old(Repr))
      ensures Model == R.AddTo(old(Model), size, R.Entry(key, value, 0))
    {
      evict := AddWithExpiresInSecs(key, value, 0, now);
    }

    /** The value of a key that is present and not stale; the entry is moved to the front, or dropped when stale. */
    method Get(key: K, now: int) returns (value: Option<V>)
      requires Valid()
      modifies Repr
      ensures Valid() && fresh(Repr - old(Repr))
      ensures value == R.Answer(old(Model), key, now)
      ensures Model == R.GetFrom(old(Model), key, now)
    {
      if key !in items {
        Absent(key);
        return None;
      }
      ghost var i := Locate(key);
      var ent := items[key];
      if ent.value.expireAt > 0 && now > ent.value.expireAt {
        RemoveElement(ent, i);
        return None;
      }
      value := Some(ent.value.value);
      Renew(ent, ent.value.value, ent.value.expireAt, i);
    }

    method Remove(key: K)
      requires Valid()
      modifies Repr
      ensures Valid() && fresh(Repr - old(Repr))
      ensures Model == R.Without(old(Model), key)
    {
      if key in items {
        ghost var i := Locate(key);
        RemoveElement(items[key], i);
      } else {
        Absent(key);
      }
    }

    method RemoveOldest()
      requires Valid()
      modifies Repr
      ensures Valid() && fresh(Repr - old(Repr))
      ensures Model == DropLast(old(Model))
    {
      RemoveBack();
    }

    method Purge()
      requires Valid()
      modifies Repr
      ensures Valid() && fresh(Repr - old(Repr))
      ensures Model == []
    {
      evictList := new List();
      items := map[];
      Model := [];
      Repr := {this, evictList, evictList.root};
    }

    method Len() returns (n: nat)
      requires Valid()
      ensures n == |Model| <= size
    {
      n := evictList.len;
    }

    /** Performs one event of a trace. */
    method Perform(ev: R.Event<K, V>)
      requires Valid()
      modifies Repr
      ensures Valid() && fresh(Repr - old(Repr))
      ensures Model == R.Step(old(Model), size, ev)
    {
      match ev.op
      case Add(k, v, secs) => var _ := AddWithExpiresInSecs(k, v, secs, ev.now);
      case Get(k) => var _ := Get(k, ev.now);
      case Remove(k) => Remove(k);
      case RemoveOldest => RemoveOldest();
      case Purge => Purge();
    }

    /** From an empty cache, any trace of operations leaves what the trace semantics says. */
    method Replay(t: R.Trace<K, V>)
      requires Valid() && Model == []
      modifies Repr
      ensures Valid() && fresh(Repr - old(Repr))
      ensures Model == R.Run(size, t)
    {
      for i := 0 to |t|
        invariant Valid() && fresh(Repr - old(Repr))
        invariant Model == R.Run(size, t[..i])
      {
        assert DropLast(t[..i + 1]) == t[..i];
        Perform(t[i]);
      }
      assert t[..|t|] == t;
    }

    /** There are exactly as many keys in the map as elements in the list. */
    lemma SameSize()
      requires Valid()
      ensures |items| == evictList.len
    {
      R.DistinctKeysFill(Model, items.Keys);
    }

    /** The keys, oldest first: the reverse of recency order. */
    method Keys() returns (r: seq<K>)
      requires Valid()
      ensures |r| == |Model|
      ensures forall i :: 0 <= i < |r| ==> r[i] == Model[|r| - 1 - i].key
    {
      SameSize();
      var keys := new K[|items|];
      var ent := evictList.Back();
      var i := 0;
      while ent != null
        invariant 0 <= i <= keys.Length == evictList.len == |Model|
        invariant if i == keys.Length then ent == null else ent == evictList.elements[evictList.len - 1 - i]
        invariant forall j :: 0 <= j < i ==> keys[j] == Model[keys.Length - 1 - j].key
        decreases keys.Length - i
      {
        keys[i] := ent.value.key;
        ent := evictList.Prev(ent, evictList.len - 1 - i);
        i := i + 1;
      }
      return keys[..];
    }
  }
}
