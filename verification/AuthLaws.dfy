/** What a notice leaves of the token cache, and what a token is answered with, entry by entry. */
module AuthLaws {
  import opened Wrappers
  import opened Int64
  import opened Sequences
  import Decimal
  import R = Recency
  import opened AuthClient

  // ----- invalidation

  /** The entry has no deadline, or its deadline has not passed. */
  predicate Live(e: R.Entry<Key, Cached>, now: int) {
    e.expireAt <= 0 || now <= e.expireAt
  }

  lemma SurvivorsAre(s: Entries, clock: nat -> int, who: Owner, i: nat)
    requires R.Distinct(s) && i < |s|
    ensures s[i] in Survivors(s, clock, who) <==> Survives(s, clock, who, i)
  {
    SurvivorsExactly(s, clock, who);
  }

  /** A notice of a domain leaves exactly the live entries that are not credentials of this domain. */
  lemma DomainNotice(s: Entries, objectId: string, clock: nat -> int, i: nat)
    requires R.Distinct(s) && i < |s| && Decimal.IsNumber(objectId) && Fits(Decimal.Denotes(objectId))
    ensures s[i] in Invalidated(s, "domain", objectId, clock) <==>
      !(s[i].value.Creds? && s[i].value.info.dc == Decimal.Denotes(objectId)) && Live(s[i], clock(|s| - 1 - i))
  {
    Decimal.ParseIs(objectId);
    SurvivorsAre(s, clock, Domain(Decimal.Denotes(objectId)), i);
  }

  /** A notice of a user leaves exactly the live entries that are not credentials of this user. */
  lemma UserNotice(s: Entries, objectId: string, clock: nat -> int, i: nat)
    requires R.Distinct(s) && i < |s| && Decimal.IsNumber(objectId) && Fits(Decimal.Denotes(objectId))
    ensures s[i] in Invalidated(s, "user", objectId, clock) <==>
      !(s[i].value.Creds? && s[i].value.info.userId == Decimal.Denotes(objectId)) && Live(s[i], clock(|s| - 1 - i))
  {
    Decimal.ParseIs(objectId);
    SurvivorsAre(s, clock, User(Decimal.Denotes(objectId)), i);
  }

  /**
   A notice of a session takes out exactly the entry of its token, one of a customer all, and any other, or an
   unreadable id, none.
   */
  lemma OtherNotices(s: Entries, objclass: string, objectId: string, clock: nat -> int)
    requires R.Distinct(s)
    ensures objclass == "session" ==>
      forall e :: e in Invalidated(s, objclass, objectId, clock) <==> e in s && e.key != Token(objectId)
    ensures objclass == "customer" ==> Invalidated(s, objclass, objectId, clock) == []
    ensures objclass !in {"customer", "session", "domain", "user"} ==> Invalidated(s, objclass, objectId, clock) == s
    ensures objclass in {"domain", "user"} && !(Decimal.IsNumber(objectId) && Fits(Decimal.Denotes(objectId))) ==>
      Invalidated(s, objclass, objectId, clock) == s
  {
    Decimal.ParseIs(objectId);
    R.WithoutMembers(s, Token(objectId));
  }

  /** Whatever the notice, nothing is added, and what is left keeps its order. */
  lemma NoticeKeepsOrder(s: Entries, objclass: string, objectId: string, clock: nat -> int)
    requires R.Distinct(s)
    ensures R.Subsequence(Invalidated(s, objclass, objectId, clock), s)
  {
    var (oid, err) := Decimal.ParseInt(objectId);
    SurvivorsInOrder(s, clock, Domain(oid));
    SurvivorsInOrder(s, clock, User(oid));
    WithoutIsSub(s, Token(objectId));
    SelfIsSub(s);
  }

  lemma {:induction false} SelfIsSub(s: Entries)
    ensures R.Subsequence(s, s)
  {
    if s != [] {
      SelfIsSub(s[1..]);
    }
  }

  lemma {:induction false} WithoutIsSub(s: Entries, k: Key)
    ensures R.Subsequence(R.Without(s, k), s)
  {
    SelfIsSub(s);
    if s != [] {
      SelfIsSub(s[1..]);
      WithoutIsSub(s[1..], k);
      R.PushBoth(R.Without(s[1..], k), s[1..], s[0]);
      R.SubsequenceOfTail(s[1..], s[1..], s[0]);
      assert s == [s[0]] + s[1..];
    }
  }

  // ----- verification

  /** The cache holds these credentials for the token, and the entry has not passed its deadline. */
  ghost predicate Cached?(s: Entries, token: string, c: Userinfo, now: int) {
    exists i :: 0 <= i < |s| && s[i].key == Token(token) && s[i].value == Creds(c) && Live(s[i], now)
  }

  /** Credentials expire at their time, in milliseconds; with none, never. */
  predicate Alive(c: Userinfo, nowNanos: int) {
    c.expiresAt <= 0 || nowNanos < c.expiresAt * 1_000_000
  }

  lemma CachedIsHit(s: Entries, token: string, now: int)
    requires R.Distinct(s)
    ensures forall c :: Cached?(s, token, c, now) <==> Hit(s, token, now) == Some(c)
  {
    R.FindIsMember(s, Token(token));
    forall c | Cached?(s, token, c, now) ensures Hit(s, token, now) == Some(c) {
      var i :| 0 <= i < |s| && s[i].key == Token(token) && s[i].value == Creds(c) && Live(s[i], now);
      R.FindAt(s, i);
    }
    if Hit(s, token, now).Some? {
      var e := R.Find(s, Token(token)).value;
      var i :| 0 <= i < |s| && s[i] == e;
      assert Cached?(s, token, Hit(s, token, now).value, now);
    }
  }

  lemma AliveIs(c: Userinfo, nowNanos: int)
    requires 0 <= nowNanos
    ensures Alive(c, nowNanos) <==> !IsExpired(c.expiresAt, nowNanos)
  {
  }

  /** Cached credentials that are alive are the answer, whatever the service would say. */
  lemma CachedIsVerified(s: Entries, token: string, c: Userinfo, nowNanos: int, now: int, answer: Option<Userinfo>)
    requires R.Distinct(s) && 0 <= nowNanos && Cached?(s, token, c, now) && Alive(c, nowNanos)
    ensures VerdictOf(s, token, nowNanos, now, answer) == Verified(c)
  {
    CachedIsHit(s, token, now);
    AliveIs(c, nowNanos);
  }

  /** The whole seconds that are left, of a time in milliseconds. */
  lemma LeftIs(expiresAt: int, nowNanos: int)
    requires 0 <= nowNanos <= MAX && 0 < expiresAt <= MAX
    ensures LeftSecs(expiresAt, nowNanos) > 0 <==> expiresAt - nowNanos / 1_000_000 >= 1000
    ensures LeftSecs(expiresAt, nowNanos) > 0 ==> LeftSecs(expiresAt, nowNanos) == (expiresAt - nowNanos / 1_000_000) / 1000
  {
  }

  /**
   Without such credentials the service decides: no answer fails, credentials with less than a second left have
   expired, all others are verified.
   */
  lemma OthersAreAsked(s: Entries, token: string, nowNanos: int, now: int, answer: Option<Userinfo>)
    requires R.Distinct(s) && 0 <= nowNanos <= MAX && (answer.Some? ==> answer.value.expiresAt <= MAX)
    requires forall c :: Cached?(s, token, c, now) ==> !Alive(c, nowNanos)
    ensures VerdictOf(s, token, nowNanos, now, answer) ==
      if answer.None? then Failed
      else if answer.value.expiresAt > 0 && answer.value.expiresAt - nowNanos / 1_000_000 < 1000 then Expired(answer.value)
      else Verified(answer.value)
  {
    CachedIsHit(s, token, now);
    var hit := Hit(s, token, now);
    if hit.Some? {
      AliveIs(hit.value, nowNanos);
    }
    if answer.Some? && answer.value.expiresAt > 0 {
      LeftIs(answer.value.expiresAt, nowNanos);
    }
  }

  /** No alive credentials are cached for the token. */
  ghost predicate Missed(s: Entries, token: string, nowNanos: int, now: int) {
    forall c :: Cached?(s, token, c, now) ==> !Alive(c, nowNanos)
  }

  /** A hit leaves all entries, with the one of the token in front. */
  lemma CachedMovesToFront(s: Entries, size: nat, defaultExpiry: int, token: string, c: Userinfo, nowNanos: int, clock: nat -> int,
                           answer: Option<Userinfo>)
    requires R.Distinct(s) && 0 <= nowNanos && Cached?(s, token, c, clock(0)) && Alive(c, nowNanos)
    ensures var after := AfterVerify(s, size, defaultExpiry, token, nowNanos, clock, answer);
      && after != [] && after[0].key == Token(token) && after[0].value == Creds(c)
      && forall e :: e in after <==> e in s
  {
    CachedIsHit(s, token, clock(0));
    AliveIs(c, nowNanos);
    R.FindIsMember(s, Token(token));
    R.GetMembers(s, Token(token), clock(0));
    var found := R.Find(s, Token(token)).value;
    forall e | e in s ensures e in R.GetFrom(s, Token(token), clock(0)) {
      var i :| 0 <= i < |s| && s[i] == e;
      R.FindAt(s, i);
    }
  }

  /** The cache after a miss, before anything is stored: no credentials for the token are left, and no other entry is touched. */
  lemma MissLeaves(s: Entries, token: string, nowNanos: int, now: int)
    requires R.Distinct(s) && 0 <= nowNanos && Missed(s, token, nowNanos, now)
    ensures var got := R.GetFrom(s, Token(token), now);
      var left := if Hit(s, token, now).Some? then R.Without(got, Token(token)) else got;
      && R.Distinct(left) && |left| <= |s|
      && (forall e :: e in left && e.key == Token(token) ==> !e.value.Creds?)
      && (forall e: R.Entry<Key, Cached> :: e.key != Token(token) ==> (e in left <==> e in s))
  {
    CachedIsHit(s, token, now);
    R.GetMembers(s, Token(token), now);
    var got := R.GetFrom(s, Token(token), now);
    R.WithoutMembers(got, Token(token));
    forall e | e in got && e.key == Token(token) && Hit(s, token, now).None? ensures !e.value.Creds? {
      var i :| 0 <= i < |s| && s[i] == e;
      R.FindAt(s, i);
    }
  }

  /**
   Unless the answer is credentials with a time and at least a second left, nothing is stored, and no credentials for
   the token are left.
   */
  lemma NothingStored(s: Entries, size: nat, defaultExpiry: int, token: string, nowNanos: int, clock: nat -> int, answer: Option<Userinfo>)
    requires R.Distinct(s) && 0 <= nowNanos <= MAX && Missed(s, token, nowNanos, clock(0))
    requires answer.Some? && answer.value.expiresAt > 0 ==>
      answer.value.expiresAt <= MAX && answer.value.expiresAt - nowNanos / 1_000_000 < 1000
    ensures var after := AfterVerify(s, size, defaultExpiry, token, nowNanos, clock, answer);
      && (forall e :: e in after && e.key == Token(token) ==> !e.value.Creds?)
      && (forall e: R.Entry<Key, Cached> :: e.key != Token(token) ==> (e in after <==> e in s))
  {
    MissLeaves(s, token, nowNanos, clock(0));
    CachedIsHit(s, token, clock(0));
    if Hit(s, token, clock(0)).Some? {
      AliveIs(Hit(s, token, clock(0)).value, nowNanos);
    }
    if answer.Some? && answer.value.expiresAt > 0 {
      LeftIs(answer.value.expiresAt, nowNanos);
    }
  }

  /** Other credentials are stored for the seconds they have left, but for no longer than the default; with no default, for ever. */
  lemma StoredForItsTime(s: Entries, size: nat, defaultExpiry: int, token: string, nowNanos: int, clock: nat -> int, a: Userinfo, later: int)
    requires R.Distinct(s) && 0 < size && 0 <= nowNanos <= MAX && Missed(s, token, nowNanos, clock(0))
    requires 0 < a.expiresAt <= MAX && a.expiresAt - nowNanos / 1_000_000 >= 1000
    requires var left := (a.expiresAt - nowNanos / 1_000_000) / 1000;
      0 < clock(1) && clock(1) + left <= MAX
    ensures var left := (a.expiresAt - nowNanos / 1_000_000) / 1000;
      var lifetime := if left < defaultExpiry then left else defaultExpiry;
      var after := AfterVerify(s, size, defaultExpiry, token, nowNanos, clock, Some(a));
      && R.Answer(after, Token(token), later) == (if lifetime <= 0 || later <= clock(1) + lifetime then Some(Creds(a)) else None)
      && (forall e :: e in after && e.key != Token(token) ==> e in s)
      && (|s| < size ==> forall e :: e in s && e.key != Token(token) ==> e in after)
  {
    MissLeaves(s, token, nowNanos, clock(0));
    CachedIsHit(s, token, clock(0));
    if Hit(s, token, clock(0)).Some? {
      AliveIs(Hit(s, token, clock(0)).value, nowNanos);
    }
    LeftIs(a.expiresAt, nowNanos);
    var lifetime := Min(LeftSecs(a.expiresAt, nowNanos), defaultExpiry);
    var left := if Hit(s, token, clock(0)).Some? then R.Without(R.GetFrom(s, Token(token), clock(0)), Token(token))
      else R.GetFrom(s, Token(token), clock(0));
    AddLeaves(left, size, R.Entry(Token(token), Creds(a), R.Deadline(clock(1), lifetime)));
  }

  lemma AddLeaves(s: Entries, size: nat, e: R.Entry<Key, Cached>)
    requires R.Distinct(s) && 0 < size
    ensures var after := R.AddTo(s, size, e);
      && after != [] && after[0] == e
      && (forall x :: x in after && x.key != e.key ==> x in s)
      && (|s| < size ==> forall x :: x in s && x.key != e.key ==> x in after)
  {
    R.PushedMembers(s, e);
    R.DropLastMembers(R.Pushed(s, e));
  }
}
