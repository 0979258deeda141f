/** The list of users' access grants of a page, most recently granted first. */
module Grants {
  import opened Sequences

  /** A page access token and the user who granted it. */
  datatype Grant = Grant(psid: string, token: string) {
    /** The same token, or the same user. */
    predicate Equal(that: Grant) {
      token == that.token || psid == that.psid
    }
  }

  /** The place of the first grant equal to `t`, or the length. */
  function FirstEqual(a: seq<Grant>, t: Grant): (i: nat)
    ensures i <= |a|
    ensures i < |a| ==> a[i].Equal(t)
    ensures forall j :: 0 <= j < i ==> !a[j].Equal(t)
  {
    if a == [] || a[0].Equal(t) then 0 else 1 + FirstEqual(a[1..], t)
  }

  function FirstOf(a: seq<Grant>, psid: string): (i: nat)
    ensures i <= |a|
    ensures i < |a| ==> a[i].psid == psid
    ensures forall j :: 0 <= j < i ==> a[j].psid != psid
  {
    if a == [] || a[0].psid == psid then 0 else 1 + FirstOf(a[1..], psid)
  }

  /** `t` in front, in place of the first grant equal to it. */
  function Authorized(a: seq<Grant>, t: Grant): seq<Grant> {
    [t] + Omit(a, FirstEqual(a, t))
  }

  /** Without the user's grant; without any grant when no user is named. */
  function Deauthorized(a: seq<Grant>, psid: string): seq<Grant> {
    if psid == "" then [] else Omit(a, FirstOf(a, psid))
  }

  /** The token in use: that of the first grant. */
  function ActiveToken(a: seq<Grant>): string {
    if a == [] then "" else a[0].token
  }

  // ----- distinct users

  ghost predicate DistinctUsers(a: seq<Grant>) {
    forall i, j :: 0 <= i < j < |a| ==> a[i].psid != a[j].psid
  }

  ghost predicate Unequal(a: seq<Grant>) {
    forall i, j :: 0 <= i < j < |a| ==> !a[i].Equal(a[j])
  }

  /**
   Authorizing keeps the users of a page distinct exactly when the grant it replaces
   is this user's own, or this user had none: a token that another user holds
   replaces that user's grant, and this user's older one stays behind.
   */
  lemma AuthorizeKeepsUsersDistinct(a: seq<Grant>, t: Grant)
    requires DistinctUsers(a)
    ensures DistinctUsers(Authorized(a, t)) <==> (FirstOf(a, t.psid) == |a| || FirstOf(a, t.psid) == FirstEqual(a, t))
  {
    var i, u, r := FirstEqual(a, t), FirstOf(a, t.psid), Omit(a, FirstEqual(a, t));
    OmitIsPart(a, i);
    if u < |a| && u != i {
      assert i < u && r[u - 1].psid == t.psid;
      DistinctCons(t, r);
    } else {
      assert forall j :: 0 <= j < |r| ==> r[j].psid != t.psid;
      DistinctCons(t, r);
    }
  }

  lemma DistinctCons(t: Grant, r: seq<Grant>)
    requires DistinctUsers(r)
    ensures DistinctUsers([t] + r) <==> forall j :: 0 <= j < |r| ==> r[j].psid != t.psid
  {
    assert forall j :: 0 <= j < |r| ==> ([t] + r)[j + 1] == r[j];
    if DistinctUsers([t] + r) {
      forall j | 0 <= j < |r| ensures r[j].psid != t.psid {
        assert ([t] + r)[0].psid != ([t] + r)[j + 1].psid;
      }
    }
  }

  /** Two users presenting one token leave a page with two grants of the second. */
  lemma SharedTokenDuplicatesUser()
    ensures var a := [Grant("bob", "t1"), Grant("ann", "t2")];
      DistinctUsers(a) && !DistinctUsers(Authorized(a, Grant("ann", "t1")))
  {
    AuthorizeKeepsUsersDistinct([Grant("bob", "t1"), Grant("ann", "t2")], Grant("ann", "t1"));
  }

  /** Every access token belongs to one user. */
  ghost predicate OwnedBy(owner: string -> string, a: seq<Grant>) {
    forall i :: 0 <= i < |a| ==> a[i].token != "" && owner(a[i].token) == a[i].psid
  }

  ghost predicate Sound(owner: string -> string, a: seq<Grant>) {
    OwnedBy(owner, a) && DistinctUsers(a)
  }

  lemma {:induction false} FirstEqualIsFirstOf(owner: string -> string, a: seq<Grant>, t: Grant)
    requires OwnedBy(owner, a) && owner(t.token) == t.psid
    ensures FirstEqual(a, t) == FirstOf(a, t.psid)
  {
    if a != [] {
      assert a[0].Equal(t) <==> a[0].psid == t.psid;
      FirstEqualIsFirstOf(owner, a[1..], t);
    }
  }

  lemma AuthorizeKeepsSound(owner: string -> string, a: seq<Grant>, t: Grant)
    requires Sound(owner, a) && t.token != "" && owner(t.token) == t.psid
    ensures Sound(owner, Authorized(a, t))
    ensures OthersOf(Authorized(a, t), t.psid) == OthersOf(a, t.psid)
  {
    FirstEqualIsFirstOf(owner, a, t);
    AuthorizeKeepsUsersDistinct(a, t);
    OmitKeepsOthers(a, t.psid);
  }

  lemma DeauthorizeKeepsSound(owner: string -> string, a: seq<Grant>, psid: string)
    requires Sound(owner, a)
    ensures Sound(owner, Deauthorized(a, psid))
    ensures psid != "" ==> forall i :: 0 <= i < |Deauthorized(a, psid)| ==> Deauthorized(a, psid)[i].psid != psid
    ensures psid != "" ==> Deauthorized(a, psid) == OthersOf(a, psid)
  {
    var i := FirstOf(a, psid);
    var r := Omit(a, i);
    OmitIsPart(a, i);
    if psid != "" {
      assert forall j :: i < j < |a| ==> a[j].psid != psid;
      OmitKeepsOthers(a, psid);
      OthersOfNone(r, psid);
    }
  }

  lemma OmitIsPart(a: seq<Grant>, i: nat)
    ensures DistinctUsers(a) ==> DistinctUsers(Omit(a, i))
    ensures forall j :: 0 <= j < |Omit(a, i)| ==> Omit(a, i)[j] == a[if j < i then j else j + 1]
  {
  }

  /** The grants of the other users, in order. */
  function OthersOf(a: seq<Grant>, psid: string): seq<Grant> {
    if a == [] then [] else (if a[0].psid == psid then [] else [a[0]]) + OthersOf(a[1..], psid)
  }

  lemma OthersOfNone(a: seq<Grant>, psid: string)
    requires forall i :: 0 <= i < |a| ==> a[i].psid != psid
    ensures OthersOf(a, psid) == a
  {
  }

  lemma {:induction false} OmitKeepsOthers(a: seq<Grant>, psid: string)
    ensures OthersOf(Omit(a, FirstOf(a, psid)), psid) == OthersOf(a, psid)
  {
    if a != [] {
      var i := FirstOf(a, psid);
      if i == 0 {
        assert Omit(a, 0) == a[1..];
      } else {
        OmitKeepsOthers(a[1..], psid);
        OmitCons(a[0], a[1..], i - 1);
        assert a == [a[0]] + a[1..];
        OthersCons(a[0], Omit(a[1..], i - 1), psid);
      }
    }
  }

  lemma OmitCons<T>(x: T, a: seq<T>, i: nat)
    ensures Omit([x] + a, i + 1) == [x] + Omit(a, i)
  {
  }

  lemma OthersCons(x: Grant, a: seq<Grant>, psid: string)
    ensures OthersOf([x] + a, psid) == (if x.psid == psid then [] else [x]) + OthersOf(a, psid)
  {
    assert ([x] + a)[1..] == a;
  }

  // ----- replaying a saved list

  /** A page's grants after the saved ones are authorized again, the last first. */
  function Replayed(a: seq<Grant>, saved: seq<Grant>): seq<Grant> {
    if saved == [] then a else Authorized(Replayed(a, saved[1..]), saved[0])
  }

  lemma AuthorizedIs(now: seq<Grant>, t: Grant, r: seq<Grant>)
    requires |now| <= |r|
    ensures Authorized(now, t) == [t] + r <==> now == r && FirstEqual(r, t) == |r|
  {
    if Authorized(now, t) == [t] + r {
      assert Omit(now, FirstEqual(now, t)) == Authorized(now, t)[1..] == ([t] + r)[1..] == r;
    }
  }

  lemma {:induction false} ReplayUnequal(saved: seq<Grant>)
    ensures |Replayed([], saved)| <= |saved|
    ensures Replayed([], saved) == saved <==> Unequal(saved)
  {
    if saved != [] {
      var r, t := saved[1..], saved[0];
      ReplayUnequal(r);
      assert saved == [t] + r;
      UnequalCons(t, r);
      AuthorizedIs(Replayed([], r), t, r);
    }
  }

  lemma UnequalCons(t: Grant, r: seq<Grant>)
    ensures Unequal([t] + r) <==> Unequal(r) && FirstEqual(r, t) == |r|
  {
    var s := [t] + r;
    if Unequal(s) {
      assert forall i :: 0 <= i < |r| ==> s[i + 1] == r[i] && !s[0].Equal(s[i + 1]);
    }
    if Unequal(r) && FirstEqual(r, t) == |r| {
      assert forall i :: 0 <= i < |r| ==> !r[i].Equal(t);
    }
  }

  /** Replaying a list of pairwise unequal grants on top of itself changes nothing. */
  lemma ReplayAgain(saved: seq<Grant>)
    requires Unequal(saved)
    ensures Replayed(saved, saved) == saved
  {
    ReplayOnto([], saved);
    assert [] + saved == saved && saved + [] == saved;
  }

  /** Replaying the tail of a list, one grant after another comes to the front. */
  lemma {:induction false} ReplayOnto(pre: seq<Grant>, saved: seq<Grant>)
    requires Unequal(pre + saved)
    ensures Replayed(pre + saved, saved) == saved + pre
    decreases |saved|
  {
    if saved == [] {
      assert pre + saved == pre;
    } else {
      var t, rest := saved[0], saved[1..];
      TailIsUnequal(pre, saved);
      Rotate(pre, t, rest);
      assert saved == [t] + rest;
      ReplayOnto(pre + [t], rest);
      ReplayLast(pre + saved, saved, rest + pre);
    }
  }

  lemma ReplayLast(all: seq<Grant>, saved: seq<Grant>, r: seq<Grant>)
    requires saved != [] && forall i :: 0 <= i < |r| ==> !r[i].Equal(saved[0])
    requires Replayed(all, saved[1..]) == r + [saved[0]]
    ensures Replayed(all, saved) == [saved[0]] + r
  {
    AuthorizeLast(r, saved[0]);
  }

  lemma Rotate<T>(a: seq<T>, x: T, b: seq<T>)
    ensures (a + [x]) + b == a + ([x] + b)
    ensures b + (a + [x]) == (b + a) + [x]
    ensures ([x] + b) + a == [x] + (b + a)
  {
  }

  lemma TailIsUnequal(pre: seq<Grant>, saved: seq<Grant>)
    requires Unequal(pre + saved) && saved != []
    ensures forall i :: 0 <= i < |saved[1..] + pre| ==> !(saved[1..] + pre)[i].Equal(saved[0])
  {
    var all, r := pre + saved, saved[1..] + pre;
    assert all[|pre|] == saved[0];
    forall i | 0 <= i < |r| ensures !r[i].Equal(saved[0]) {
      assert r[i] == all[if i < |saved| - 1 then |pre| + 1 + i else i - (|saved| - 1)];
    }
  }

  lemma AuthorizeLast(a: seq<Grant>, t: Grant)
    requires forall i :: 0 <= i < |a| ==> !a[i].Equal(t)
    ensures Authorized(a + [t], t) == [t] + a
  {
    assert (a + [t])[|a|].Equal(t) && forall i :: 0 <= i < |a| ==> (a + [t])[i] == a[i];
  }

  lemma SoundIsUnequal(owner: string -> string, a: seq<Grant>)
    requires Sound(owner, a)
    ensures Unequal(a)
  {
  }
}
