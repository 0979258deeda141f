/** What the cache answers, in terms of the adds and clock readings of a trace alone. */
module CacheLaws {
  import opened Wrappers
  import opened Sequences
  import Int64
  import R = Recency

  /** A positive lifetime, added to the clock, is a positive 64-bit number. */
  predicate Sane(secs: int, at: int) {
    secs > 0 ==> 0 < at + secs <= 0x7FFF_FFFF_FFFF_FFFF
  }

  /** Whatever happened before, an added value is answered until its lifetime has passed, and for ever when that is not positive. */
  lemma AddedIsAnswered<K, V>(size: nat, t: R.Trace<K, V>, k: K, v: V, secs: int, at: int, now: int)
    requires 0 < size && Sane(secs, at)
    ensures R.Answer(R.Run(size, t + [R.Event(R.Add(k, v, secs), at)]), k, now) == if secs <= 0 || now <= at + secs then Some(v) else None
  {
    var ev := R.Event(R.Add(k, v, secs), at);
    assert DropLast(t + [ev]) == t;
    var s := R.Run(size, t);
    var e := R.Entry(k, v, R.Deadline(at, secs));
    R.RunKeepsShape(size, t);
    assert R.Pushed(s, e)[0] == e && R.AddTo(s, size, e)[0] == e;
  }

  /** The event adds the key's value, or takes the key out. */
  predicate Concerns<K(==), V>(ev: R.Event<K, V>, k: K) {
    match ev.op
    case Add(key, _, _) => key == k
    case Remove(key) => key == k
    case Purge => true
    case _ => false
  }

  /** The event is the last one that concerns the key. */
  ghost predicate IsLast<K, V>(t: R.Trace<K, V>, k: K, i: int) {
    0 <= i < |t| && Concerns(t[i], k) && forall j :: i < j < |t| ==> !Concerns(t[j], k)
  }

  lemma {:induction false} LastAddIs<K, V>(t: R.Trace<K, V>, k: K)
    ensures R.LastAdd(t, k).Some? ==>
      exists i :: IsLast(t, k, i) && t[i].op.Add? && R.LastAdd(t, k).value == R.Entry(k, t[i].op.value, R.Deadline(t[i].now, t[i].op.secs))
    ensures R.LastAdd(t, k).None? ==> forall i :: IsLast(t, k, i) ==> !t[i].op.Add?
  {
    if t != [] {
      var n := |t| - 1;
      LastAddIs(DropLast(t), k);
      assert forall i :: 0 <= i < n ==> DropLast(t)[i] == t[i];
      if Concerns(t[n], k) {
        assert IsLast(t, k, n);
        assert forall i :: IsLast(t, k, i) ==> i == n;
      } else {
        assert forall i :: IsLast(t, k, i) <==> IsLast(DropLast(t), k, i);
      }
    }
  }

  /** The value of an add, and whether its lifetime has passed. */
  ghost predicate Gives<K, V>(t: R.Trace<K, V>, k: K, v: V, now: int, i: int) {
    IsLast(t, k, i) && t[i].op.Add? && t[i].op.value == v && (t[i].op.secs <= 0 || now <= t[i].now + t[i].op.secs)
  }

  ghost predicate AllSane<K, V>(t: R.Trace<K, V>) {
    forall i :: 0 <= i < |t| && t[i].op.Add? ==> Sane(t[i].op.secs, t[i].now)
  }

  /**
   In every trace a hit is the value of the last add of its key, which was neither removed nor purged since, and its
   lifetime has not passed.
   */
  lemma HitWasAdded<K, V>(size: nat, t: R.Trace<K, V>, k: K, now: int)
    requires 0 < size && AllSane(t)
    ensures var a := R.Answer(R.Run(size, t), k, now); a.Some? ==> exists i :: Gives(t, k, a.value, now, i)
  {
    R.HitIsLastAdd(size, t, k, now);
    LastAddIs(t, k);
    var a := R.Answer(R.Run(size, t), k, now);
    if a.Some? {
      var i :| IsLast(t, k, i) && t[i].op.Add? && R.LastAdd(t, k).value == R.Entry(k, t[i].op.value, R.Deadline(t[i].now, t[i].op.secs));
      assert Gives(t, k, a.value, now, i);
    }
  }

  /** On a clock that never goes back, and while all keys added fit, every such add is answered. */
  lemma AddedIsHit<K, V>(size: nat, t: R.Trace<K, V>, k: K, v: V, now: int, i: int)
    requires 0 < size && AllSane(t) && |R.KeysAdded(t)| <= size && R.ClockUpTo(t, now)
    requires (forall j :: 0 <= j < |t| ==> !t[j].op.RemoveOldest?) && Gives(t, k, v, now, i)
    ensures R.Answer(R.Run(size, t), k, now) == Some(v)
  {
    R.ExactUntilFull(size, t, k, now);
    LastAddIs(t, k);
    assert forall j :: IsLast(t, k, j) ==> j == i;
  }

  /** A key that was hit is the last to be evicted: the next key added to a full cache, or the next eviction, leaves it. */
  lemma HitIsKept<K, V>(size: nat, t: R.Trace<K, V>, k: K, at: int, k2: K, v2: V, secs: int, later: int)
    requires 1 < size && R.Answer(R.Run(size, t), k, at).Some?
    ensures var hit := t + [R.Event(R.Get(k), at)];
      && R.Run(size, hit) != [] && R.Run(size, hit)[0].key == k
      && (exists e :: e in R.Run(size, hit + [R.Event(R.Add(k2, v2, secs), later)]) && e.key == k)
      && (|R.Run(size, hit)| > 1 ==> exists e :: e in R.Run(size, hit + [R.Event(R.RemoveOldest, later)]) && e.key == k)
  {
    var hit, s := t + [R.Event(R.Get(k), at)], R.Run(size, t);
    assert DropLast(hit) == t;
    R.FindIsMember(s, k);
    var h := R.Run(size, hit);
    var add, oldest := R.Event(R.Add(k2, v2, secs), later), R.Event(R.RemoveOldest, later);
    assert DropLast(hit + [add]) == hit && DropLast(hit + [oldest]) == hit;
    var pushed := R.Pushed(h, R.Entry(k2, v2, R.Deadline(later, secs)));
    if k2 != k {
      assert pushed[1] == h[0] && |pushed| >= 2;
    }
    var after := R.Run(size, hit + [add]);
    assert after[if k2 == k then 0 else 1].key == k;
    if |h| > 1 {
      assert R.Run(size, hit + [oldest])[0] == h[0];
    }
  }

  /** Removing the oldest leaves all entries but the last, and nothing of an empty cache. */
  lemma OldestGoes<K, V>(size: nat, t: R.Trace<K, V>, at: int)
    ensures var s, left := R.Run(size, t), R.Run(size, t + [R.Event(R.RemoveOldest, at)]);
      |left| == (if s == [] then 0 else |s| - 1) && forall i :: 0 <= i < |left| ==> left[i] == s[i]
  {
    assert DropLast(t + [R.Event(R.RemoveOldest, at)]) == t;
  }
}
