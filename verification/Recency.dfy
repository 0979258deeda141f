/**
 The token cache as a sequence of entries, most recently used first, and what
 holds of it over every trace of operations.
 */
module Recency {
  import opened Wrappers
  import Int64
  import opened Sequences


  datatype Entry<K, V> = Entry(key: K, value: V, expireAt: int)

  function Find<K(==), V>(s: seq<Entry<K, V>>, k: K): Option<Entry<K, V>> {
    if s == [] then None
    else if s[0].key == k then Some(s[0])
    else Find(s[1..], k)
  }

  predicate Has<K(==), V>(s: seq<Entry<K, V>>, k: K) {
    Find(s, k).Some?
  }

  /** The entries other than the (first) one of key `k`, in order. */
  function Without<K(==), V>(s: seq<Entry<K, V>>, k: K): (r: seq<Entry<K, V>>)
    ensures |r| == if Has(s, k) then |s| - 1 else |s|
  {
    if s == [] then []
    else if s[0].key == k then s[1..]
    else [s[0]] + Without(s[1..], k)
  }

  ghost predicate Distinct<K, V>(s: seq<Entry<K, V>>) {
    forall i, j :: 0 <= i < j < |s| ==> s[i].key != s[j].key
  }

  /** An entry with a positive deadline is stale once the clock has passed it. */
  predicate Stale<K, V>(e: Entry<K, V>, now: int) {
    e.expireAt > 0 && now > e.expireAt
  }

  /** A positive lifetime becomes a deadline, in 64-bit arithmetic; any other one is stored as it is. */
  function Deadline(now: int, secs: int): int {
    if secs > 0 then Int64.Wrap(now + secs) else secs
  }

  // ----- one step of each operation

  datatype Op<K, V> = Add(key: K, value: V, secs: int) | Get(key: K) | Remove(key: K) | RemoveOldest | Purge

  /** An operation and the clock reading it takes, in seconds. */
  datatype Event<K, V> = Event(op: Op<K, V>, now: int)

  /** `e` at the front, in place of any entry of its key. */
  function Pushed<K(==), V>(s: seq<Entry<K, V>>, e: Entry<K, V>): seq<Entry<K, V>> {
    [e] + Without(s, e.key)
  }

  function AddTo<K(==), V>(s: seq<Entry<K, V>>, size: nat, e: Entry<K, V>): seq<Entry<K, V>> {
    var pushed := Pushed(s, e);
    if Has(s, e.key) || |pushed| <= size then pushed else DropLast(pushed)
  }

  function GetFrom<K(==), V>(s: seq<Entry<K, V>>, k: K, now: int): seq<Entry<K, V>> {
    match Find(s, k)
    case None => s
    case Some(e) => if Stale(e, now) then Without(s, k) else Pushed(s, e)
  }

  function Answer<K(==), V>(s: seq<Entry<K, V>>, k: K, now: int): Option<V> {
    match Find(s, k)
    case None => None
    case Some(e) => if Stale(e, now) then None else Some(e.value)
  }

  function Step<K(==), V>(s: seq<Entry<K, V>>, size: nat, ev: Event<K, V>): seq<Entry<K, V>> {
    match ev.op
    case Add(k, v, secs) => AddTo(s, size, Entry(k, v, Deadline(ev.now, secs)))
    case Get(k) => GetFrom(s, k, ev.now)
    case Remove(k) => Without(s, k)
    case RemoveOldest => DropLast(s)
    case Purge => []
  }

  type Trace<K, V> = seq<Event<K, V>>

  function Run<K(==), V>(size: nat, t: Trace<K, V>): seq<Entry<K, V>> {
    if t == [] then [] else Step(Run(size, DropLast(t)), size, t[|t| - 1])
  }

  // ----- facts about Find and Without

  lemma FindIsMember<K, V>(s: seq<Entry<K, V>>, k: K)
    ensures Find(s, k).Some? ==> Find(s, k).value in s && Find(s, k).value.key == k
    ensures Find(s, k).None? ==> forall e :: e in s ==> e.key != k
  {
    if s != [] {
      FindIsMember(s[1..], k);
      assert s == [s[0]] + s[1..];
    }
  }

  lemma {:induction false} FindAt<K, V>(s: seq<Entry<K, V>>, i: nat)
    requires Distinct(s) && i < |s|
    ensures Find(s, s[i].key) == Some(s[i])
    ensures Without(s, s[i].key) == s[..i] + s[i + 1..]
  {
    if i > 0 {
      assert s[1..][i - 1] == s[i];
      FindAt(s[1..], i - 1);
      assert s[0].key != s[i].key;
      assert [s[0]] + (s[1..][..i - 1] + s[1..][i..]) == s[..i] + s[i + 1..];
    }
  }

  lemma WithoutAbsent<K, V>(s: seq<Entry<K, V>>, k: K)
    requires !Has(s, k)
    ensures Without(s, k) == s
  {
  }

  lemma OmittedMembers<K, V>(s: seq<Entry<K, V>>, i: nat, w: seq<Entry<K, V>>)
    requires Distinct(s) && i < |s| && w == s[..i] + s[i + 1..]
    ensures Distinct(w)
    ensures forall j :: 0 <= j < |w| ==> w[j] in s && w[j].key != s[i].key
    ensures forall e :: e in s && e.key != s[i].key ==> e in w
  {
    assert forall j :: 0 <= j < |w| ==> w[j] == s[if j < i then j else j + 1];
    forall e | e in s && e.key != s[i].key ensures e in w {
      var j :| 0 <= j < |s| && s[j] == e;
      assert w[if j < i then j else j - 1] == e;
    }
  }

  lemma WithoutMembers<K, V>(s: seq<Entry<K, V>>, k: K)
    requires Distinct(s)
    ensures Distinct(Without(s, k))
    ensures forall e :: e in Without(s, k) <==> e in s && e.key != k
    ensures forall i :: 0 <= i < |Without(s, k)| ==> Without(s, k)[i] in s && Without(s, k)[i].key != k
  {
    FindIsMember(s, k);
    if Has(s, k) {
      var i :| 0 <= i < |s| && s[i] == Find(s, k).value;
      FindAt(s, i);
      OmittedMembers(s, i, Without(s, k));
    } else {
      WithoutAbsent(s, k);
    }
  }

  lemma WithoutTwice<K, V>(s: seq<Entry<K, V>>, k: K)
    requires Distinct(s)
    ensures Without(Without(s, k), k) == Without(s, k)
  {
    WithoutMembers(s, k);
    FindIsMember(Without(s, k), k);
    WithoutAbsent(Without(s, k), k);
  }

  lemma PushedMembers<K, V>(s: seq<Entry<K, V>>, e: Entry<K, V>)
    requires Distinct(s)
    ensures Distinct(Pushed(s, e))
    ensures forall x :: x in Pushed(s, e) ==> x == e || (x in s && x.key != e.key)
    ensures e in Pushed(s, e)
    ensures forall x :: x in s && x.key != e.key ==> x in Pushed(s, e)
  {
    WithoutMembers(s, e.key);
  }

  lemma DropLastMembers<K, V>(s: seq<Entry<K, V>>)
    requires Distinct(s)
    ensures Distinct(DropLast(s))
    ensures forall x :: x in DropLast(s) ==> x in s && x != s[|s| - 1]
    ensures forall x :: x in s && x != s[|s| - 1] ==> x in DropLast(s)
  {
    if s != [] {
      var d, last := DropLast(s), s[|s| - 1];
      assert s == d + [last];
      forall x | x in d ensures x in s && x != last {
        var i :| 0 <= i < |d| && d[i] == x;
        assert s[i].key != s[|s| - 1].key;
      }
      forall x | x in s && x != last ensures x in d {
        var i :| 0 <= i < |s| && s[i] == x;
        assert d[i] == x;
      }
    }
  }

  lemma GetMembers<K, V>(s: seq<Entry<K, V>>, k: K, now: int)
    requires Distinct(s)
    ensures Distinct(GetFrom(s, k, now)) && |GetFrom(s, k, now)| <= |s|
    ensures forall x :: x in GetFrom(s, k, now) ==> x in s && (x.key == k ==> !Stale(x, now))
    ensures forall x :: x in s && (x.key == k ==> !Stale(x, now)) ==> x in GetFrom(s, k, now)
  {
    FindIsMember(s, k);
    if Has(s, k) {
      var e := Find(s, k).value;
      assert forall x :: x in s && x.key == k ==> x == e;
      WithoutMembers(s, k);
      PushedMembers(s, e);
    }
  }

  /** Where the entries of a step's result come from. */
  ghost predicate Origin<K, V>(s: seq<Entry<K, V>>, ev: Event<K, V>, x: Entry<K, V>) {
    match ev.op
    case Add(k, v, secs) => x == Entry(k, v, Deadline(ev.now, secs)) || (x in s && x.key != k)
    case Remove(k) => x in s && x.key != k
    case Purge => false
    case _ => x in s
  }

  lemma StepMembers<K, V>(s: seq<Entry<K, V>>, size: nat, ev: Event<K, V>)
    requires Distinct(s)
    ensures forall x :: x in Step(s, size, ev) ==> Origin(s, ev, x)
  {
    match ev.op
    case Add(k, v, secs) =>
      var e := Entry(k, v, Deadline(ev.now, secs));
      PushedMembers(s, e);
      DropLastMembers(Pushed(s, e));
    case Get(k) => GetMembers(s, k, ev.now);
    case Remove(k) => WithoutMembers(s, k);
    case RemoveOldest => DropLastMembers(s);
    case _ =>
  }

  lemma StepKeepsShape<K, V>(s: seq<Entry<K, V>>, size: nat, ev: Event<K, V>)
    requires 0 < size && Distinct(s) && |s| <= size
    ensures Distinct(Step(s, size, ev)) && |Step(s, size, ev)| <= size
  {
    match ev.op
    case Add(k, v, secs) =>
      var e := Entry(k, v, Deadline(ev.now, secs));
      PushedMembers(s, e);
      DropLastMembers(Pushed(s, e));
    case Get(k) => GetMembers(s, k, ev.now);
    case Remove(k) => WithoutMembers(s, k);
    case _ =>
  }

  /** In every reachable state no key occurs twice and the capacity is respected. */
  lemma {:induction false} RunKeepsShape<K, V>(size: nat, t: Trace<K, V>)
    requires 0 < size
    ensures Distinct(Run(size, t)) && |Run(size, t)| <= size
  {
    if t != [] {
      RunKeepsShape(size, DropLast(t));
      StepKeepsShape(Run(size, DropLast(t)), size, t[|t| - 1]);
    }
  }

  // ----- inclusion: a smaller cache holds a subsequence of a larger one

  predicate Subsequence<T(==)>(s: seq<T>, l: seq<T>) {
    s == [] ||
    (l != [] && if s[0] == l[0] then Subsequence(s[1..], l[1..]) else Subsequence(s, l[1..]))
  }

  lemma {:induction false} SubsequenceMembers<T>(s: seq<T>, l: seq<T>)
    requires Subsequence(s, l)
    ensures forall x :: x in s ==> x in l
    ensures |s| <= |l|
  {
    if s != [] {
      assert s == [s[0]] + s[1..] && l == [l[0]] + l[1..];
      if s[0] == l[0] {
        SubsequenceMembers(s[1..], l[1..]);
      } else {
        SubsequenceMembers(s, l[1..]);
      }
    }
  }

  lemma {:induction false} SubsequenceIsDistinct<K, V>(s: seq<Entry<K, V>>, l: seq<Entry<K, V>>)
    requires Subsequence(s, l) && Distinct(l)
    ensures Distinct(s)
  {
    if s != [] {
      if s[0] == l[0] {
        SubsequenceIsDistinct(s[1..], l[1..]);
        SubsequenceMembers(s[1..], l[1..]);
        forall i | 1 <= i < |s| ensures s[0].key != s[i].key {
          assert s[1..][i - 1] in l[1..];
        }
      } else {
        SubsequenceIsDistinct(s, l[1..]);
      }
    }
  }

  lemma {:induction false} SubsequenceDropLast<T>(s: seq<T>, l: seq<T>)
    requires Subsequence(s, l)
    ensures Subsequence(DropLast(s), DropLast(l))
  {
    if |s| > 1 {
      SubsequenceMembers(s, l);
      assert DropLast(l)[1..] == DropLast(l[1..]);
      if s[0] == l[0] {
        assert DropLast(s)[1..] == DropLast(s[1..]);
        SubsequenceDropLast(s[1..], l[1..]);
      } else {
        SubsequenceMembers(s, l[1..]);
        SubsequenceDropLast(s, l[1..]);
      }
    }
  }

  lemma {:induction false} SubsequenceWithout<K, V>(s: seq<Entry<K, V>>, l: seq<Entry<K, V>>, k: K)
    requires Subsequence(s, l) && Distinct(l)
    ensures Subsequence(Without(s, k), Without(l, k))
    ensures Has(s, k) ==> Find(l, k) == Find(s, k)
  {
    if s == [] {
    } else if s[0] == l[0] {
      SubsequenceWithout(s[1..], l[1..], k);
    } else {
      SubsequenceMembers(s, l[1..]);
      SubsequenceWithout(s, l[1..], k);
      WithoutIsPart(s, k);
      if l[0].key == k {
        FindIsMember(s, k);
        WithoutAbsent(s, k);
      } else {
        PushLarger(Without(s, k), Without(l[1..], k), l[0]);
      }
    }
  }

  lemma WithoutIsPart<K, V>(s: seq<Entry<K, V>>, k: K)
    ensures forall e :: e in Without(s, k) ==> e in s
  {
    if s != [] {
      WithoutIsPart(s[1..], k);
      assert s == [s[0]] + s[1..];
    }
  }

  /** `s` is a smaller cache's list, `l` a larger one's: the relation every event keeps. */
  ghost predicate Included<K, V>(s: seq<Entry<K, V>>, n: nat, l: seq<Entry<K, V>>, m: nat) {
    && Distinct(s) && Distinct(l) && |s| <= n && |l| <= m
    && Subsequence(s, l)
    && n - |s| <= m - |l|
  }

  lemma PushBoth<K, V>(s: seq<Entry<K, V>>, l: seq<Entry<K, V>>, e: Entry<K, V>)
    requires Subsequence(s, l)
    ensures Subsequence([e] + s, [e] + l)
  {
    assert ([e] + s)[1..] == s && ([e] + l)[1..] == l;
  }

  lemma {:induction false} SubsequenceOfTail<T>(s: seq<T>, l: seq<T>, x: T)
    requires Subsequence(s, l)
    ensures Subsequence(s, [x] + l)
    decreases |l|, 1
  {
    assert ([x] + l)[1..] == l;
    if s != [] && s[0] == x {
      SubsequenceTail(s, l);
    }
  }

  lemma {:induction false} SubsequenceTail<T>(s: seq<T>, l: seq<T>)
    requires Subsequence(s, l) && s != []
    ensures Subsequence(s[1..], l)
    decreases |l|, 0
  {
    if s[0] == l[0] {
      if |s| > 1 {
        SubsequenceOfTail(s[1..], l[1..], l[0]);
        assert [l[0]] + l[1..] == l;
      }
    } else {
      SubsequenceTail(s, l[1..]);
      if |s| > 1 {
        SubsequenceOfTail(s[1..], l[1..], l[0]);
        assert [l[0]] + l[1..] == l;
      }
    }
  }

  lemma PushLarger<K, V>(s: seq<Entry<K, V>>, l: seq<Entry<K, V>>, e: Entry<K, V>)
    requires Subsequence(s, l) && e !in s
    ensures Subsequence(s, [e] + l)
  {
    assert ([e] + l)[1..] == l;
  }

  lemma {:induction false} AddKeepsInclusion<K, V>(s: seq<Entry<K, V>>, n: nat, l: seq<Entry<K, V>>, m: nat,
        e: Entry<K, V>)
    requires 0 < n <= m && Included(s, n, l, m)
    ensures Included(AddTo(s, n, e), n, AddTo(l, m, e), m)
  {
    PushedMembers(s, e);
    PushedMembers(l, e);
    SubsequenceWithout(s, l, e.key);
    var s1, l1 := Pushed(s, e), Pushed(l, e);
    PushBoth(Without(s, e.key), Without(l, e.key), e);
    DropLastMembers(s1);
    DropLastMembers(l1);
    SubsequenceDropLast(s1, l1);
    SubsequenceOfDropLast(s1, l1);
  }

  lemma {:induction false} SubsequenceOfDropLast<T>(s: seq<T>, l: seq<T>)
    requires Subsequence(s, l)
    ensures Subsequence(DropLast(s), l)
  {
    if |s| > 1 {
      if s[0] == l[0] {
        assert DropLast(s)[1..] == DropLast(s[1..]);
        SubsequenceOfDropLast(s[1..], l[1..]);
      } else {
        SubsequenceOfDropLast(s, l[1..]);
      }
    }
  }

  lemma GetKeepsSubsequence<K, V>(s: seq<Entry<K, V>>, l: seq<Entry<K, V>>, k: K, now: int)
    requires Subsequence(s, l) && Distinct(l)
    ensures Subsequence(GetFrom(s, k, now), GetFrom(l, k, now))
    ensures Has(s, k) ==> |l| - |GetFrom(l, k, now)| == |s| - |GetFrom(s, k, now)|
  {
    SubsequenceWithout(s, l, k);
    FindIsMember(s, k);
    FindIsMember(l, k);
    if Has(s, k) {
      PushBoth(Without(s, k), Without(l, k), Find(s, k).value);
    } else {
      WithoutAbsent(s, k);
      if Has(l, k) {
        PushLarger(s, Without(l, k), Find(l, k).value);
      }
    }
  }

  lemma GetKeepsInclusion<K, V>(s: seq<Entry<K, V>>, n: nat, l: seq<Entry<K, V>>, m: nat, k: K, now: int)
    requires 0 < n <= m && Included(s, n, l, m)
    ensures Included(GetFrom(s, k, now), n, GetFrom(l, k, now), m)
  {
    GetMembers(s, k, now);
    GetMembers(l, k, now);
    GetKeepsSubsequence(s, l, k, now);
  }

  lemma {:induction false} StepKeepsInclusion<K, V>(s: seq<Entry<K, V>>, n: nat, l: seq<Entry<K, V>>, m: nat,
        ev: Event<K, V>)
    requires 0 < n <= m && Included(s, n, l, m)
    ensures Included(Step(s, n, ev), n, Step(l, m, ev), m)
  {
    match ev.op
    case Add(k, v, secs) => AddKeepsInclusion(s, n, l, m, Entry(k, v, Deadline(ev.now, secs)));
    case Get(k) => GetKeepsInclusion(s, n, l, m, k, ev.now);
    case Remove(k) =>
      WithoutMembers(s, k);
      WithoutMembers(l, k);
      SubsequenceWithout(s, l, k);
      FindIsMember(s, k);
    case RemoveOldest =>
      SubsequenceMembers(s, l);
      SubsequenceDropLast(s, l);
    case Purge =>
  }

  /**
   Inclusion over whole runs: on one trace and one clock, a cache of capacity `n`
   always holds a subsequence of what a cache of capacity `m >= n` holds, with
   equal values and deadlines, and never has more free slots.
   */
  lemma {:induction false} Inclusion<K, V>(n: nat, m: nat, t: Trace<K, V>)
    requires 0 < n <= m
    ensures Subsequence(Run(n, t), Run(m, t))
    ensures n - |Run(n, t)| <= m - |Run(m, t)|
    ensures Included(Run(n, t), n, Run(m, t), m)
  {
    if t != [] {
      Inclusion(n, m, DropLast(t));
      StepKeepsInclusion(Run(n, DropLast(t)), n, Run(m, DropLast(t)), m, t[|t| - 1]);
    }
  }

  /** So enlarging a cache never turns a hit into a miss, nor changes its answer. */
  lemma LargerCacheAnswersToo<K, V>(n: nat, m: nat, t: Trace<K, V>, k: K, now: int)
    requires 0 < n <= m
    ensures Answer(Run(n, t), k, now).Some? ==> Answer(Run(m, t), k, now) == Answer(Run(n, t), k, now)
  {
    Inclusion(n, m, t);
    SubsequenceWithout(Run(n, t), Run(m, t), k);
  }

  // ----- what a hit returns

  /** What an unbounded cache that forgets only on Remove and Purge would hold for `k`. */
  function LastAdd<K(==), V>(t: Trace<K, V>, k: K): Option<Entry<K, V>> {
    if t == [] then None else
    var ev := t[|t| - 1];
    match ev.op
    case Add(key, v, secs) => if key == k then Some(Entry(k, v, Deadline(ev.now, secs))) else LastAdd(DropLast(t), k)
    case Remove(key) => if key == k then None else LastAdd(DropLast(t), k)
    case Purge => None
    case _ => LastAdd(DropLast(t), k)
  }

  lemma {:induction false} EntriesAreLastAdds<K, V>(size: nat, t: Trace<K, V>)
    requires 0 < size
    ensures forall e :: e in Run(size, t) ==> LastAdd(t, e.key) == Some(e)
  {
    if t != [] {
      var s := Run(size, DropLast(t));
      EntriesAreLastAdds(size, DropLast(t));
      RunKeepsShape(size, DropLast(t));
      StepMembers(s, size, t[|t| - 1]);
    }
  }

  /** A hit returns the value last added with no later Remove or Purge, and that value is not past its deadline. */
  lemma HitIsLastAdd<K, V>(size: nat, t: Trace<K, V>, k: K, now: int)
    requires 0 < size
    ensures var a := Answer(Run(size, t), k, now);
      a.Some? ==> LastAdd(t, k).Some? && LastAdd(t, k).value.value == a.value && !Stale(LastAdd(t, k).value, now)
  {
    EntriesAreLastAdds(size, t);
    FindIsMember(Run(size, t), k);
  }

  function KeysAdded<K(==), V>(t: Trace<K, V>): set<K> {
    if t == [] then {} else
    KeysAdded(DropLast(t)) + if t[|t| - 1].op.Add? then {t[|t| - 1].op.key} else {}
  }

  /** Clock readings never go backwards, and none is later than `now`. */
  ghost predicate ClockUpTo<K, V>(t: Trace<K, V>, now: int) {
    && (forall i, j :: 0 <= i < j < |t| ==> t[i].now <= t[j].now)
    && (forall i :: 0 <= i < |t| ==> t[i].now <= now)
  }

  lemma {:induction false} KeysAreAdded<K, V>(size: nat, t: Trace<K, V>)
    requires 0 < size
    ensures forall e :: e in Run(size, t) ==> e.key in KeysAdded(t)
    ensures |Run(size, t)| <= |KeysAdded(t)|
  {
    if t != [] {
      var s := Run(size, DropLast(t));
      KeysAreAdded(size, DropLast(t));
      RunKeepsShape(size, DropLast(t));
      StepMembers(s, size, t[|t| - 1]);
    }
    RunKeepsShape(size, t);
    DistinctKeysFit(Run(size, t), KeysAdded(t));
  }

  lemma {:induction false} DistinctKeysFit<K, V>(s: seq<Entry<K, V>>, keys: set<K>)
    requires Distinct(s)
    requires forall e :: e in s ==> e.key in keys
    ensures |s| <= |keys|
  {
    if s != [] {
      assert forall e :: e in s[1..] ==> e.key != s[0].key;
      DistinctKeysFit(s[1..], keys - {s[0].key});
    }
  }

  lemma {:induction false} DistinctKeysFill<K, V>(s: seq<Entry<K, V>>, keys: set<K>)
    requires Distinct(s)
    requires forall i :: 0 <= i < |s| ==> s[i].key in keys
    requires forall k :: k in keys ==> Has(s, k)
    ensures |s| == |keys|
  {
    if s != [] {
      FindIsMember(s[1..], s[0].key);
      assert s[0].key in keys;
      DistinctKeysFill(s[1..], keys - {s[0].key});
    }
  }

  /**
   While no more keys were added than fit and RemoveOldest is not used, on a clock
   that never goes back, the cache loses nothing: it answers exactly the live adds.
   */
  lemma {:induction false} ExactUntilFull<K, V>(size: nat, t: Trace<K, V>, k: K, now: int)
    requires 0 < size && |KeysAdded(t)| <= size
    requires forall i :: 0 <= i < |t| ==> !t[i].op.RemoveOldest?
    requires ClockUpTo(t, now)
    ensures Answer(Run(size, t), k, now) ==
      if LastAdd(t, k).Some? && !Stale(LastAdd(t, k).value, now) then Some(LastAdd(t, k).value.value) else None
  {
    LiveAddsStay(size, t, k, now);
    HitIsLastAdd(size, t, k, now);
  }

  lemma {:induction false} LiveAddsStay<K, V>(size: nat, t: Trace<K, V>, k: K, now: int)
    requires 0 < size && |KeysAdded(t)| <= size
    requires forall i :: 0 <= i < |t| ==> !t[i].op.RemoveOldest?
    requires ClockUpTo(t, now)
    ensures LastAdd(t, k).Some? && !Stale(LastAdd(t, k).value, now) ==> Find(Run(size, t), k) == LastAdd(t, k)
  {
    if t != [] {
      var t', ev := DropLast(t), t[|t| - 1];
      var s := Run(size, t');
      assert KeysAdded(t') <= KeysAdded(t);
      SubsetIsSmaller(KeysAdded(t'), KeysAdded(t));
      assert ClockUpTo(t', ev.now);
      LiveAddsStay(size, t', k, ev.now);
      RunKeepsShape(size, t');
      KeysAreAdded(size, t');
      assert t[|t| - 1].now <= now;
      assert LastAdd(t, k).Some? && !Stale(LastAdd(t, k).value, now) && LastAdd(t', k) == LastAdd(t, k) ==> !Stale(LastAdd(t', k).value, ev.now);
      match ev.op
      case Add(key, v, secs) =>
        var e := Entry(key, v, Deadline(ev.now, secs));
        AddNeverEvictsBelow(s, size, e, KeysAdded(t'), KeysAdded(t));
        FindAfterMove(s, key, k, e);
      case Get(key) => FindAfterGet(s, key, k, ev.now);
      case Remove(key) => FindAfterRemove(s, key, k);
      case _ =>
    }
  }

  lemma SubsetIsSmaller<T>(a: set<T>, b: set<T>)
    requires a <= b
    ensures |a| <= |b|
  {
    assert |b| == |b - a| + |a| by { assert b == (b - a) + a; }
  }

  lemma AddNeverEvictsBelow<K, V>(s: seq<Entry<K, V>>, size: nat, e: Entry<K, V>, before: set<K>, after: set<K>)
    requires Distinct(s) && |after| <= size && after == before + {e.key}
    requires forall x :: x in s ==> x.key in before
    ensures AddTo(s, size, e) == Pushed(s, e)
  {
    var pushed := Pushed(s, e);
    PushedMembers(s, e);
    assert forall x :: x in pushed ==> x == e || x in s;
    DistinctKeysFit(pushed, after);
  }

  lemma {:induction false} FindAfterRemove<K, V>(s: seq<Entry<K, V>>, key: K, k: K)
    requires Distinct(s)
    ensures Find(Without(s, key), k) == if key == k then None else Find(s, k)
  {
    if s != [] {
      FindAfterRemove(s[1..], key, k);
      FindIsMember(s[1..], key);
      if s[0].key != key {
        assert ([s[0]] + Without(s[1..], key))[1..] == Without(s[1..], key);
      }
    }
  }

  lemma FindAfterMove<K, V>(s: seq<Entry<K, V>>, key: K, k: K, e: Entry<K, V>)
    requires Distinct(s) && e.key == key
    ensures Find(Pushed(s, e), k) == if key == k then Some(e) else Find(s, k)
  {
    FindAfterRemove(s, key, k);
    assert ([e] + Without(s, key))[1..] == Without(s, key);
  }

  lemma FindAfterGet<K, V>(s: seq<Entry<K, V>>, key: K, k: K, now: int)
    requires Distinct(s)
    ensures Find(GetFrom(s, key, now), k) == if key == k && Has(s, k) && Stale(Find(s, k).value, now) then None else Find(s, k)
  {
    FindAfterRemove(s, key, k);
    if Has(s, key) {
      FindIsMember(s, key);
      FindAfterMove(s, key, k, Find(s, key).value);
    }
  }

  // ----- recency, and which entry is evicted

  /** The number of the last event that added `k` or answered a Get of it; 0 if there is none. */
  function LastTouch<K(==), V>(size: nat, t: Trace<K, V>, k: K): nat {
    if t == [] then 0 else
    var t', ev := DropLast(t), t[|t| - 1];
    match ev.op
    case Add(key, _, _) => if key == k then |t| else LastTouch(size, t', k)
    case Get(key) => if key == k && Answer(Run(size, t'), k, ev.now).Some? then |t| else LastTouch(size, t', k)
    case _ => LastTouch(size, t', k)
  }

  lemma {:induction false} TouchedBefore<K, V>(size: nat, t: Trace<K, V>, k: K)
    ensures LastTouch(size, t, k) <= |t|
  {
    if t != [] {
      TouchedBefore(size, DropLast(t), k);
    }
  }

  ghost predicate Newer<K, V>(size: nat, t: Trace<K, V>, s: seq<Entry<K, V>>) {
    forall i, j :: 0 <= i < j < |s| ==> LastTouch(size, t, s[i].key) > LastTouch(size, t, s[j].key)
  }

  /** The list is ordered by last use, most recent first. */
  lemma {:induction false} RecencyOrder<K, V>(size: nat, t: Trace<K, V>)
    requires 0 < size
    ensures Newer(size, t, Run(size, t))
  {
    if t != [] {
      var t', ev := DropLast(t), t[|t| - 1];
      var s := Run(size, t');
      RecencyOrder(size, t');
      RunKeepsShape(size, t');
      match ev.op
      case Add(k, v, secs) => PushedIsNewest(size, t, k, Entry(k, v, Deadline(ev.now, secs)));
      case Get(k) =>
        FindIsMember(s, k);
        if Has(s, k) {
          if Stale(Find(s, k).value, ev.now) {
            OrderWithout(size, t', s, k);
          } else {
            PushedIsNewest(size, t, k, Find(s, k).value);
          }
        }
      case Remove(k) => OrderWithout(size, t', s, k);
      case _ =>
    }
  }

  lemma OrderWithout<K, V>(size: nat, t: Trace<K, V>, s: seq<Entry<K, V>>, k: K)
    requires Distinct(s) && Newer(size, t, s)
    ensures Newer(size, t, Without(s, k))
  {
    if Has(s, k) {
      FindIsMember(s, k);
      var i :| 0 <= i < |s| && s[i] == Find(s, k).value;
      FindAt(s, i);
    } else {
      WithoutAbsent(s, k);
    }
  }

  lemma PushedIsNewest<K, V>(size: nat, t: Trace<K, V>, k: K, e: Entry<K, V>)
    requires 0 < size && t != [] && e.key == k && LastTouch(size, t, k) == |t|
    requires t[|t| - 1].op.Add? || t[|t| - 1].op.Get?
    requires t[|t| - 1].op.key == k
    requires Newer(size, DropLast(t), Run(size, DropLast(t)))
    ensures Newer(size, t, Pushed(Run(size, DropLast(t)), e))
  {
    var t' := DropLast(t);
    var s := Run(size, t');
    RunKeepsShape(size, t');
    OrderWithout(size, t', s, k);
    WithoutMembers(s, k);
    var r := Without(s, k);
    forall i | 0 <= i < |r| ensures LastTouch(size, t, r[i].key) == LastTouch(size, t', r[i].key) < |t| {
      TouchedBefore(size, t', r[i].key);
    }
  }

  /** Adding a new key to a full cache evicts exactly one entry, the one used longest ago, and never the one just added. */
  lemma EvictsLeastRecentlyUsed<K, V>(size: nat, t: Trace<K, V>, k: K, v: V, secs: int, now: int)
    requires 0 < size
    requires !Has(Run(size, t), k) && |Run(size, t)| == size
    ensures Run(size, t + [Event(Add(k, v, secs), now)]) == [Entry(k, v, Deadline(now, secs))] + Run(size, t)[..size - 1]
    ensures forall i :: 0 <= i < size - 1 ==>
      LastTouch(size, t, Run(size, t)[size - 1].key) < LastTouch(size, t, Run(size, t)[i].key)
  {
    assert DropLast(t + [Event(Add(k, v, secs), now)]) == t;
    WithoutAbsent(Run(size, t), k);
    RecencyOrder(size, t);
  }

  /** Adding a key that is present, or to a cache with a free slot, evicts nothing. */
  lemma AddKeepsTheRest<K, V>(size: nat, t: Trace<K, V>, k: K, v: V, secs: int, now: int)
    requires 0 < size
    requires Has(Run(size, t), k) || |Run(size, t)| < size
    ensures Find(Run(size, t + [Event(Add(k, v, secs), now)]), k) == Some(Entry(k, v, Deadline(now, secs)))
    ensures forall x :: x in Run(size, t) && x.key != k ==> x in Run(size, t + [Event(Add(k, v, secs), now)])
  {
    assert DropLast(t + [Event(Add(k, v, secs), now)]) == t;
    RunKeepsShape(size, t);
    PushedMembers(Run(size, t), Entry(k, v, Deadline(now, secs)));
  }
}
