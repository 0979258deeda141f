/** The authorization client: token verification through the cache, and the invalidation notices. */
module AuthClient {
  import opened Wrappers
  import opened Int64
  import opened Sequences
  import Decimal
  import C = Cache
  import R = Recency

  datatype Userinfo = Userinfo(dc: int, userId: int, expiresAt: int)

  /** Cache keys and values are untyped; tokens and credentials are the ones in use. */
  datatype Key = Token(text: string) | OtherKey(id: int)
  datatype Cached = Creds(info: Userinfo) | Other(id: int)

  type Entries = seq<R.Entry<Key, Cached>>

  // ----- the invalidation walk

  /** Whose credentials a notice withdraws. */
  datatype Owner = Domain(oid: int) | User(oid: int)

  predicate Owned(who: Owner, c: Cached) {
    c.Creds? && match who case Domain(oid) => c.info.dc == oid case User(oid) => c.info.userId == oid
  }

  /**
   What is left of `s` when its entries are visited oldest first, the j-th at clock
   reading `clock(j)`: those neither stale then nor owned.
   */
  function Survivors(s: Entries, clock: nat -> int, who: Owner): Entries {
    if s == [] then [] else
    Kept(s[0], clock(|s| - 1), who) + Survivors(s[1..], clock, who)
  }

  predicate Survives(s: Entries, clock: nat -> int, who: Owner, i: nat)
    requires i < |s|
  {
    !R.Stale(s[i], clock(|s| - 1 - i)) && !Owned(who, s[i].value)
  }

  /** The survivors keep the recency order they had. */
  lemma {:induction false} SurvivorsInOrder(s: Entries, clock: nat -> int, who: Owner)
    ensures R.Subsequence(Survivors(s, clock, who), s)
    ensures forall e :: e in Survivors(s, clock, who) ==> e in s && !Owned(who, e.value)
  {
    if s != [] {
      var r := Survivors(s[1..], clock, who);
      SurvivorsInOrder(s[1..], clock, who);
      assert s == [s[0]] + s[1..];
      if Survives(s, clock, who, 0) {
        R.PushBoth(r, s[1..], s[0]);
      } else {
        assert Survivors(s, clock, who) == r;
        R.SubsequenceOfTail(r, s[1..], s[0]);
      }
    }
  }

  /** Exactly the entries of other owners that were live when visited survive. */
  lemma {:induction false} SurvivorsExactly(s: Entries, clock: nat -> int, who: Owner)
    requires R.Distinct(s)
    ensures forall i :: 0 <= i < |s| ==> (Survives(s, clock, who, i) <==> s[i] in Survivors(s, clock, who))
  {
    if s != [] {
      var t := s[1..];
      SurvivorsExactly(t, clock, who);
      SurvivorsInOrder(t, clock, who);
      forall i | 0 <= i < |s| ensures Survives(s, clock, who, i) <==> s[i] in Survivors(s, clock, who) {
        if i == 0 {
          assert s[0] !in t;
        } else {
          assert t[i - 1] == s[i] && s[i] != s[0];
          assert Survives(t, clock, who, i - 1) <==> Survives(s, clock, who, i);
        }
      }
    }
  }

  /** A cache after one key was looked up and, if its credentials are owned, removed. */
  function Visited(s: Entries, k: Key, now: int, who: Owner): Entries {
    var looked := R.GetFrom(s, k, now);
    var answer := R.Answer(s, k, now);
    if answer.Some? && Owned(who, answer.value) then R.Without(looked, k) else looked
  }

  lemma VisitLast(s: Entries, now: int, who: Owner)
    requires R.Distinct(s) && s != []
    ensures var e := s[|s| - 1];
      Visited(s, e.key, now, who) == Kept(e, now, who) + DropLast(s)
  {
    var e := s[|s| - 1];
    R.FindAt(s, |s| - 1);
    assert R.Without(s, e.key) == DropLast(s);
    assert R.Pushed(s, e)[1..] == DropLast(s);
  }

  /** After `j` visits: the survivors among the `j` oldest, then the entries not visited yet. */
  function Progress(s: Entries, clock: nat -> int, who: Owner, j: nat): Entries
    requires j <= |s|
  {
    Survivors(s[|s| - j..], clock, who) + s[..|s| - j]
  }

  lemma ProgressEnds(s: Entries, clock: nat -> int, who: Owner)
    ensures Progress(s, clock, who, 0) == s
    ensures Progress(s, clock, who, |s|) == Survivors(s, clock, who)
  {
    assert s[|s| - |s|..] == s && s[..0] == [] && s[..|s|] == s;
  }

  lemma ProgressDistinct(s: Entries, clock: nat -> int, who: Owner, j: nat)
    requires R.Distinct(s) && j <= |s|
    ensures R.Distinct(Progress(s, clock, who, j))
  {
    var t := s[|s| - j..];
    SurvivorsInOrder(t, clock, who);
    R.SubsequenceIsDistinct(Survivors(t, clock, who), t);
    AppendIsDistinct(Survivors(t, clock, who), s, |s| - j);
  }

  function Kept(e: R.Entry<Key, Cached>, now: int, who: Owner): Entries {
    if R.Stale(e, now) || Owned(who, e.value) then [] else [e]
  }

  lemma ProgressStep(s: Entries, clock: nat -> int, who: Owner, j: nat)
    requires j < |s|
    ensures var now, e := Progress(s, clock, who, j), s[|s| - 1 - j];
      now != [] && now[|now| - 1] == e && Progress(s, clock, who, j + 1) == Kept(e, clock(j), who) + DropLast(now)
  {
    var i := |s| - 1 - j;
    assert s[..i + 1] == s[..i] + [s[i]] && s[i..] == [s[i]] + s[i + 1..];
    SplitStep(s[..i], s[i], s[i + 1..], clock, who);
  }

  lemma SplitStep(p: Entries, e: R.Entry<Key, Cached>, q: Entries, clock: nat -> int, who: Owner)
    ensures DropLast(Survivors(q, clock, who) + (p + [e])) == Survivors(q, clock, who) + p
    ensures Survivors([e] + q, clock, who) + p == Kept(e, clock(|q|), who) + (Survivors(q, clock, who) + p)
  {
    assert ([e] + q)[1..] == q;
  }

  lemma WalkStep(s: Entries, clock: nat -> int, who: Owner, j: nat)
    requires R.Distinct(s) && j < |s|
    ensures Visited(Progress(s, clock, who, j), s[|s| - 1 - j].key, clock(j), who) == Progress(s, clock, who, j + 1)
  {
    ProgressDistinct(s, clock, who, j);
    ProgressStep(s, clock, who, j);
    VisitLast(Progress(s, clock, who, j), clock(j), who);
  }

  function WalkAt(s: Entries, clock: nat -> int, who: Owner, j: nat): Entries {
    if j <= |s| then Progress(s, clock, who, j) else s
  }

  lemma WalkAtStep(s: Entries, clock: nat -> int, who: Owner, j: nat)
    requires R.Distinct(s) && j < |s|
    ensures WalkAt(s, clock, who, j + 1) == Visited(WalkAt(s, clock, who, j), s[|s| - 1 - j].key, clock(j), who)
  {
    WalkStep(s, clock, who, j);
  }

  /** The caches of a walk over all keys, the oldest first. */
  lemma WalkStates(s: Entries, keys: seq<Key>, clock: nat -> int, who: Owner) returns (states: nat -> Entries)
    requires R.Distinct(s) && |keys| == |s| && forall i :: 0 <= i < |keys| ==> keys[i] == s[|s| - 1 - i].key
    ensures states(0) == s && states(|keys|) == Survivors(s, clock, who)
    ensures forall j: nat :: j < |keys| ==> states(j + 1) == Visited(states(j), keys[j], clock(j), who)
  {
    states := (j: nat) => WalkAt(s, clock, who, j);
    ProgressEnds(s, clock, who);
    forall j: nat | j < |keys| ensures WalkAt(s, clock, who, j + 1) == Visited(WalkAt(s, clock, who, j), keys[j], clock(j), who) {
      WalkAtStep(s, clock, who, j);
    }
  }

  lemma AppendIsDistinct(a: Entries, s: Entries, i: nat)
    requires R.Distinct(s) && i <= |s| && R.Distinct(a) && forall e :: e in a ==> e in s[i..]
    ensures R.Distinct(a + s[..i])
  {
    forall j, k | 0 <= j < |a| && 0 <= k < i ensures a[j].key != s[k].key {
      assert a[j] in s[i..];
    }
  }

  // ----- token verification

  const NANOS_PER_MILLI: int := 1_000_000
  const MILLIS_PER_SEC: int := 1_000

  /** Integer division of the program: the quotient is truncated toward zero. */
  function Quo(a: int, b: int): (q: int)
    requires b > 0
    ensures a >= 0 ==> q * b <= a < q * b + b
    ensures a <= 0 ==> q * b - b < a <= q * b
  {
    if a >= 0 then a / b else -(-a / b)
  }

  /** A positive expiry, in milliseconds, is reached. */
  predicate IsExpired(expiresAt: int, nowNanos: int) {
    expiresAt > 0 && expiresAt <= Quo(nowNanos, NANOS_PER_MILLI)
  }

  function LeftSecs(expiresAt: int, nowNanos: int): int {
    Quo(Wrap(expiresAt - Quo(nowNanos, NANOS_PER_MILLI)), MILLIS_PER_SEC)
  }

  datatype Verdict = Verified(creds: Userinfo) | Expired(creds: Userinfo) | Failed

  function Min(a: int, b: int): int {
    if a < b then a else b
  }

  /** The credentials the cache answers with, expired or not. */
  function Hit(s: Entries, token: string, now: int): Option<Userinfo> {
    var answer := R.Answer(s, Token(token), now);
    if answer.Some? && answer.value.Creds? then Some(answer.value.info) else None
  }

  function VerdictOf(s: Entries, token: string, nowNanos: int, now: int, answer: Option<Userinfo>): Verdict {
    var hit := Hit(s, token, now);
    if hit.Some? && !IsExpired(hit.value.expiresAt, nowNanos) then Verified(hit.value)
    else if answer.None? then Failed
    else if answer.value.expiresAt > 0 && LeftSecs(answer.value.expiresAt, nowNanos) <= 0 then Expired(answer.value)
    else Verified(answer.value)
  }

  /** The lookup moves or drops the entry; expired credentials are removed; fresh ones are stored for the time they have left. */
  function AfterVerify(s: Entries, size: nat, defaultExpiry: int, token: string, nowNanos: int, clock: nat -> int,
                       answer: Option<Userinfo>): Entries {
    var hit := Hit(s, token, clock(0));
    var looked := R.GetFrom(s, Token(token), clock(0));
    if hit.Some? && !IsExpired(hit.value.expiresAt, nowNanos) then looked else
    var left := if hit.Some? then R.Without(looked, Token(token)) else looked;
    if answer.None? || answer.value.expiresAt <= 0 || LeftSecs(answer.value.expiresAt, nowNanos) <= 0 then left
    else
      var lifetime := Min(LeftSecs(answer.value.expiresAt, nowNanos), defaultExpiry);
      R.AddTo(left, size, R.Entry(Token(token), Creds(answer.value), R.Deadline(clock(1), lifetime)))
  }

  /**
   No credentials are ever returned as verified past their own expiry, however old
   the cached copy is and whatever the authorization service answers.
   */
  lemma VerifiedIsNotExpired(s: Entries, token: string, nowNanos: int, now: int, answer: Option<Userinfo>)
    requires Fits(nowNanos) && (answer.Some? ==> Fits(answer.value.expiresAt))
    ensures VerdictOf(s, token, nowNanos, now, answer).Verified? ==>
      !IsExpired(VerdictOf(s, token, nowNanos, now, answer).creds.expiresAt, nowNanos)
  {
    if answer.Some? && answer.value.expiresAt > 0 {
      LeftSecsBound(answer.value.expiresAt, nowNanos);
    }
  }

  lemma LeftSecsBound(expiresAt: int, nowNanos: int)
    requires Fits(nowNanos) && Fits(expiresAt) && expiresAt > 0
    ensures LeftSecs(expiresAt, nowNanos) > 0 ==>
      LeftSecs(expiresAt, nowNanos) * MILLIS_PER_SEC <= expiresAt - Quo(nowNanos, NANOS_PER_MILLI)
  {
    var ms := Quo(nowNanos, NANOS_PER_MILLI);
    if nowNanos < 0 && expiresAt - ms > MAX {
      assert expiresAt - ms - SPAN < 0;
    }
  }

  /**
   With a positive default lifetime the cache itself drops an entry no later than its
   credentials expire, or later by as much as passes between the two readings of the
   clock: the one the lifetime is computed with, and the one it is added to.
   */
  lemma EntryDoesNotOutliveCreds(creds: Userinfo, defaultExpiry: int, nowNanos: int, thenNanos: int)
    requires 0 <= nowNanos <= thenNanos <= MAX && Fits(creds.expiresAt) && 0 < defaultExpiry
    requires creds.expiresAt > 0 && LeftSecs(creds.expiresAt, nowNanos) > 0
    ensures var added := Quo(thenNanos, NANOS_PER_MILLI * MILLIS_PER_SEC);
      var passed := Quo(thenNanos, NANOS_PER_MILLI) - Quo(nowNanos, NANOS_PER_MILLI);
      0 < R.Deadline(added, Min(LeftSecs(creds.expiresAt, nowNanos), defaultExpiry)) * MILLIS_PER_SEC <= creds.expiresAt + passed
  {
    LeftSecsBound(creds.expiresAt, nowNanos);
  }

  // ----- the client

  class Client {
    const cache: C.Cache<Key, Cached>

    constructor (cache: C.Cache<Key, Cached>)
      ensures this.cache == cache
    {
      this.cache := cache;
    }

    /** The cached credentials that are not expired; expired ones are removed. */
    method Lookup(token: string, nowNanos: int, now: int) returns (r: Option<Userinfo>)
      requires cache.Valid()
      modifies cache.Repr
      ensures cache.Valid() && fresh(cache.Repr - old(cache.Repr))
      ensures var s := old(cache.Model);
        var hit := Hit(s, token, now);
        var looked := R.GetFrom(s, Token(token), now);
        if hit.Some? && IsExpired(hit.value.expiresAt, nowNanos)
          then r == None && cache.Model == R.Without(looked, Token(token))
          else r == hit && cache.Model == looked
    {
      var cached := cache.Get(Token(token), now);
      if cached.Some? && cached.value.Creds? {
        if !IsExpired(cached.value.info.expiresAt, nowNanos) {
          return Some(cached.value.info);
        }
        cache.Remove(Token(token));
      }
      return None;
    }

    /** Verifies a token: from the cache, or by asking the authorization service, whose answer is `answer`. */
    method VerifyToken(token: string, nowNanos: int, clock: nat -> int, answer: Option<Userinfo>) returns (r: Verdict)
      requires cache.Valid()
      modifies cache.Repr
      ensures cache.Valid() && fresh(cache.Repr - old(cache.Repr))
      ensures r == VerdictOf(old(cache.Model), token, nowNanos, clock(0), answer)
      ensures cache.Model == AfterVerify(old(cache.Model), cache.size, cache.defaultExpiry, token, nowNanos, clock, answer)
    {
      var hit := Lookup(token, nowNanos, clock(0));
      if hit.Some? {
        return Verified(hit.value);
      }
      if answer.None? {
        return Failed;
      }
      var creds := answer.value;
      var exp := cache.defaultExpiry;
      if creds.expiresAt > 0 {
        var leftSecs := LeftSecs(creds.expiresAt, nowNanos);
        if leftSecs <= 0 {
          return Expired(creds);
        }
        if leftSecs < exp {
          exp := leftSecs;
        }
        var _ := cache.AddWithExpiresInSecs(Token(token), Creds(creds), exp, clock(1));
      }
      return Verified(creds);
    }

    method Visit(key: Key, now: int, who: Owner)
      requires cache.Valid()
      modifies cache.Repr
      ensures cache.Valid() && fresh(cache.Repr - old(cache.Repr))
      ensures cache.Model == Visited(old(cache.Model), key, now, who)
    {
      var cached := cache.Get(key, now);
      if cached.Some? && Owned(who, cached.value) {
        cache.Remove(key);
      }
    }

    /** Visits the keys one after another; `states` are the caches in between. */
    method VisitAll(keys: seq<Key>, clock: nat -> int, who: Owner, ghost states: nat -> Entries)
      requires cache.Valid() && cache.Model == states(0)
      requires forall j: nat :: j < |keys| ==> states(j + 1) == Visited(states(j), keys[j], clock(j), who)
      modifies cache.Repr
      ensures cache.Valid() && fresh(cache.Repr - old(cache.Repr)) && cache.Model == states(|keys|)
    {
      for j := 0 to |keys|
        invariant cache.Valid() && fresh(cache.Repr - old(cache.Repr)) && cache.Model == states(j)
      {
        Visit(keys[j], clock(j), who);
      }
    }

    /** Visits every key, oldest first, and removes the entries whose credentials are owned. */
    method RemoveOwned(clock: nat -> int, who: Owner)
      requires cache.Valid()
      modifies cache.Repr
      ensures cache.Valid() && fresh(cache.Repr - old(cache.Repr))
      ensures cache.Model == Survivors(old(cache.Model), clock, who)
    {
      ghost var s := cache.Model;
      var keys := cache.Keys();
      ghost var states := WalkStates(s, keys, clock, who);
      VisitAll(keys, clock, who, states);
    }

    /** Visits every key and removes the one that is the given token. */
    method RemoveSession(token: string)
      requires cache.Valid()
      modifies cache.Repr
      ensures cache.Valid() && fresh(cache.Repr - old(cache.Repr))
      ensures cache.Model == R.Without(old(cache.Model), Token(token))
    {
      ghost var s := cache.Model;
      var keys := cache.Keys();
      if Token(token) !in keys {
        TokenIsListed(s, keys, Token(token));
      }
      for j := 0 to |keys|
        invariant cache.Valid() && fresh(cache.Repr - old(cache.Repr))
        invariant cache.Model == s || cache.Model == R.Without(s, Token(token))
        invariant forall i :: 0 <= i < j && keys[i] == Token(token) ==> cache.Model == R.Without(s, Token(token))
      {
        if keys[j] == Token(token) {
          cache.Remove(keys[j]);
          R.WithoutTwice(s, Token(token));
        }
      }
    }

    /** Acts on an invalidation notice for an object of a class. */
    method InvalidateCache(objclass: string, objectId: string, clock: nat -> int)
      requires cache.Valid()
      modifies cache.Repr
      ensures cache.Valid() && fresh(cache.Repr - old(cache.Repr))
      ensures cache.Model == Invalidated(old(cache.Model), objclass, objectId, clock)
    {
      if objclass == "customer" {
        cache.Purge();
      } else if objclass == "session" {
        RemoveSession(objectId);
      } else if objclass == "domain" {
        var (oid, err) := Decimal.ParseInt(objectId);
        if err.NoError? {
          RemoveOwned(clock, Domain(oid));
        }
      } else if objclass == "user" {
        var (oid, err) := Decimal.ParseInt(objectId);
        if err.NoError? {
          RemoveOwned(clock, User(oid));
        }
      }
    }
  }

  /** If no key, listed from the oldest, is `k`, there is no such entry. */
  lemma TokenIsListed(s: Entries, keys: seq<Key>, k: Key)
    requires |keys| == |s| && forall i :: 0 <= i < |s| ==> keys[i] == s[|s| - 1 - i].key
    requires k !in keys
    ensures R.Without(s, k) == s
  {
    forall j | 0 <= j < |s| ensures s[j].key != k {
      assert keys[|s| - 1 - j] == s[j].key;
    }
    R.FindIsMember(s, k);
    R.WithoutAbsent(s, k);
  }

  /** What a notice leaves of the cache; one with an unreadable number, or of another class, leaves all of it. */
  function Invalidated(s: Entries, objclass: string, objectId: string, clock: nat -> int): Entries {
    var (oid, err) := Decimal.ParseInt(objectId);
    if objclass == "customer" then []
    else if objclass == "session" then R.Without(s, Token(objectId))
    else if objclass == "domain" && err.NoError? then Survivors(s, clock, Domain(oid))
    else if objclass == "user" && err.NoError? then Survivors(s, clock, User(oid))
    else s
  }
}
