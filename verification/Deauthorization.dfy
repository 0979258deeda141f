/** A user, or all users, withdraw from pages, and pages that nobody grants access to are removed by their ids. */
module Deauthorization {
  import opened Wrappers
  import opened Sequences
  import opened Grants
  import opened PageStore
  import opened InstagramIndex
  import opened PageFates

  /** One page: the user's grant goes, or all of them, and then the key that is the page's id, when no grant is left. */
  function DeauthorizeOne<R(==)>(s: Store<R>, r: R, user: string): Store<R> {
    if r !in s.states then s
    else
      var p := Withdrawn(s.states[r], user);
      Store(if p.Authorized?() then s.index else s.index - {p.id}, s.states[r := p])
  }

  /** Some pages, one after another. */
  function DeauthorizeAll<R(==)>(s: Store<R>, rs: seq<R>, user: string): Store<R> {
    if rs == [] then s else DeauthorizeOne(DeauthorizeAll(s, DropLast(rs), user), rs[|rs| - 1], user)
  }

  /** The page loses its last grant. */
  predicate Goes<R>(s: Store<R>, r: R, user: string) {
    r in s.states && !Withdrawn(s.states[r], user).Authorized?()
  }

  ghost predicate Apiece<R>(rs: seq<R>) {
    forall i, j :: 0 <= i < j < |rs| ==> rs[i] != rs[j]
  }

  /** The key is the id of a page that goes. */
  ghost predicate Deleted<R>(s: Store<R>, rs: seq<R>, user: string, k: string) {
    exists i :: 0 <= i < |rs| && Goes(s, rs[i], user) && s.states[rs[i]].id == k
  }

  lemma DeletedNext<R>(s: Store<R>, rs: seq<R>, user: string, k: string)
    requires rs != []
    ensures var r := rs[|rs| - 1];
      Deleted(s, rs, user, k) <==> (Deleted(s, DropLast(rs), user, k) || (Goes(s, r, user) && s.states[r].id == k))
  {
    var n := |rs| - 1;
    assert forall i :: 0 <= i < n ==> DropLast(rs)[i] == rs[i];
    if Deleted(s, DropLast(rs), user, k) {
      var i :| 0 <= i < n && Goes(s, DropLast(rs)[i], user) && s.states[DropLast(rs)[i]].id == k;
      assert Goes(s, rs[i], user);
    }
  }

  /** Each page named loses the user's grant, all others stay as they are, and exactly the ids of the pages that go are removed. */
  lemma {:induction false} DeauthorizedIs<R>(s: Store<R>, rs: seq<R>, user: string)
    requires Apiece(rs) && forall i :: 0 <= i < |rs| ==> rs[i] in s.states
    ensures var z := DeauthorizeAll(s, rs, user);
      && z.states.Keys == s.states.Keys
      && (forall r :: r in s.states ==> z.states[r] == if r in rs then Withdrawn(s.states[r], user) else s.states[r])
      && (forall k :: k in z.index <==> k in s.index && !Deleted(s, rs, user, k))
      && (forall k :: k in z.index ==> z.index[k] == s.index[k])
  {
    if rs != [] {
      var o, r := DropLast(rs), rs[|rs| - 1];
      DeauthorizedIs(s, o, user);
      LastSplits(rs);
      assert r !in o;
      var v, z := DeauthorizeAll(s, o, user), DeauthorizeAll(s, rs, user);
      assert v.states[r] == s.states[r];
      forall k ensures k in z.index <==> k in s.index && !Deleted(s, rs, user, k) {
        DeletedNext(s, rs, user, k);
      }
    }
  }

  /** The page is indexed by its account. */
  predicate ByAccount<R(==)>(s: Store<R>, r: R)
    requires r in s.states
  {
    var x := s.states[r].Igsid();
    x != "" && x in s.index && s.index[x] == r
  }

  /**
   A page that loses its last grant is not indexed by its id any more, and is reached by
   a key exactly when its Instagram account leads to it: that key is left behind.
   */
  lemma GoesLeavesAccount<R>(s: Store<R>, rs: seq<R>, user: string, ids: set<string>, r: R)
    requires s.Keyed() && Apart(s, [], ids) && Apiece(rs) && (forall i :: 0 <= i < |rs| ==> rs[i] in s.states)
    requires r in rs && Goes(s, r, user)
    ensures var z := DeauthorizeAll(s, rs, user);
      && s.states[r].id !in z.index && r in z.states && z.states[r] == Withdrawn(s.states[r], user)
      && (Reached(z, r) <==> ByAccount(s, r))
  {
    var z, x := DeauthorizeAll(s, rs, user), s.states[r].Igsid();
    DeauthorizedIs(s, rs, user);
    var n :| 0 <= n < |rs| && rs[n] == r;
    assert Goes(s, rs[n], user) && Deleted(s, rs, user, s.states[r].id);
    if ByAccount(s, r) {
      assert !Deleted(s, rs, user, x);
      assert x in z.index && z.index[x] == r;
    }
    if Reached(z, r) {
      var k :| k in z.index && z.index[k] == r;
      assert KeyOf(k, s.states[s.index[k]]);
    }
  }

  /** A page that keeps a grant, or is not named, keeps all its keys. */
  lemma StaysReached<R>(s: Store<R>, rs: seq<R>, user: string, ids: set<string>, k: string)
    requires s.Keyed() && Apart(s, [], ids) && Coherent(s) && Apiece(rs) && (forall i :: 0 <= i < |rs| ==> rs[i] in s.states)
    requires forall i :: 0 <= i < |rs| ==> s.states[rs[i]].id in s.index && s.index[s.states[rs[i]].id] == rs[i]
    requires k in s.index && !(s.index[k] in rs && Goes(s, s.index[k], user))
    ensures k in DeauthorizeAll(s, rs, user).index
  {
    DeauthorizedIs(s, rs, user);
    forall i | 0 <= i < |rs| && Goes(s, rs[i], user) ensures s.states[rs[i]].id != k {
      assert s.index[s.states[rs[i]].id] == rs[i] && rs[i] in rs;
    }
  }

  /** All that a withdrawal relies on: keys are right, ids told apart, and every indexed page, and each page named, is indexed by its id. */
  ghost predicate Withdrawable<R>(s: Store<R>, rs: seq<R>, ids: set<string>) {
    && s.Keyed() && Apart(s, [], ids) && Coherent(s) && Apiece(rs)
    && forall i :: 0 <= i < |rs| ==> rs[i] in s.states && s.states[rs[i]].id in s.index && s.index[s.states[rs[i]].id] == rs[i]
  }

  lemma CoherentAfter<R>(s: Store<R>, rs: seq<R>, user: string, ids: set<string>, k: string)
    requires Withdrawable(s, rs, ids) && (forall r :: r in rs && Goes(s, r, user) ==> !ByAccount(s, r))
    requires k in DeauthorizeAll(s, rs, user).index
    ensures var z := DeauthorizeAll(s, rs, user);
      && z.index[k] in z.states
      && z.states[z.index[k]].id in z.index && z.index[z.states[z.index[k]].id] == z.index[k]
  {
    DeauthorizedIs(s, rs, user);
    var z, r := DeauthorizeAll(s, rs, user), s.index[k];
    assert Reached(z, r);
    if r in rs && Goes(s, r, user) {
      GoesLeavesAccount(s, rs, user, ids, r);
    }
    assert r in s.states && s.index[s.states[r].id] == r;
    StaysReached(s, rs, user, ids, s.states[r].id);
  }

  /**
   Withdrawing from pages that are indexed by their ids leaves every page indexed by its
   own id, as listings need, exactly when no page that goes is indexed by its account.
   */
  lemma DeauthorizedIsCoherent<R>(s: Store<R>, rs: seq<R>, user: string, ids: set<string>)
    requires Withdrawable(s, rs, ids)
    ensures Coherent(DeauthorizeAll(s, rs, user)) <==> forall r :: r in rs && Goes(s, r, user) ==> !ByAccount(s, r)
  {
    var z := DeauthorizeAll(s, rs, user);
    if Coherent(z) {
      DeauthorizedIs(s, rs, user);
      forall r | r in rs && Goes(s, r, user) ensures !ByAccount(s, r) {
        GoesLeavesAccount(s, rs, user, ids, r);
        assert forall k :: k in z.index ==> z.index[k] != r;
      }
    }
    if forall r :: r in rs && Goes(s, r, user) ==> !ByAccount(s, r) {
      forall k | k in z.index
        ensures z.index[k] in z.states && z.states[z.index[k]].id in z.index && z.index[z.states[z.index[k]].id] == z.index[k]
      {
        CoherentAfter(s, rs, user, ids, k);
      }
    }
  }

  lemma WithdrawnKeeps<R>(s: Store<R>, r: R, user: string)
    requires s.Keyed() && s.Active() && r in s.states
    ensures var z := Store(s.index, s.states[r := Withdrawn(s.states[r], user)]); z.Keyed() && z.Active()
  {
    WithdrawnIsActive(s.states[r], user);
  }

  /** Keys and tokens in use stay right. */
  lemma {:induction false} DeauthorizedKeeps<R>(s: Store<R>, rs: seq<R>, user: string)
    requires s.Keyed() && s.Active()
    ensures DeauthorizeAll(s, rs, user).Keyed() && DeauthorizeAll(s, rs, user).Active()
  {
    if rs != [] {
      var v, r := DeauthorizeAll(s, DropLast(rs), user), rs[|rs| - 1];
      DeauthorizedKeeps(s, DropLast(rs), user);
      if r in v.states {
        WithdrawnIsActive(v.states[r], user);
      }
    }
  }

  /** The pages a withdrawal is about: the one named, if it is indexed, or all that are indexed by their ids, each once. */
  ghost predicate Chosen<R>(s: Store<R>, id: string, rs: seq<R>) {
    && Apiece(rs)
    && if id == "" then
         && (forall r :: r in rs ==> r in s.states && s.states[r].id in s.index && s.index[s.states[r].id] == r)
         && (forall k :: IsPage(s, k) ==> s.index[k] in rs)
       else rs == if id in s.index then [s.index[id]] else []
  }
}
