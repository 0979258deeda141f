/** What a listing makes of every page that any key leads to, not only of those indexed by their own ids. */
module PageFates {
  import opened Wrappers
  import opened Sequences
  import opened Grants
  import opened PageStore
  import opened InstagramIndex

  ghost predicate Reached<R>(s: Store<R>, r: R) {
    exists k :: k in s.index && s.index[k] == r
  }

  /** A page lost or renewed this user's grant, and is reached by some key exactly when it is listed or another grant is left. */
  ghost predicate Fated<R>(s: Store<R>, listed: seq<Listed>, user: string, z: Store<R>, r: R) {
    && r in s.states && r in z.states && z.states[r] == Visited(s.states[r], listed, user)
    && (Reached(z, r) <==> Stays(s.states[r], listed, user))
  }

  /** Every page that was reached has its fate; no key leads to a page that neither was reached nor is listed. */
  ghost predicate AllFated<R>(s: Store<R>, listed: seq<Listed>, user: string, z: Store<R>) {
    && (forall k :: k in s.index ==> Fated(s, listed, user, z, s.index[k]))
    && (forall k :: k in z.index ==> Reached(s, z.index[k]) || (z.index[k] in z.states && z.states[z.index[k]].id in IdsOf(listed)))
  }

  // ----- coherent stores

  /** No key leads to a page that goes, its Instagram key included. */
  lemma GoneIsNotReached<R>(s: Store<R>, order: seq<string>, listed: seq<Listed>, user: string, spare: seq<R>, ids: set<string>,
                            m: string, k: string)
    requires Given(s, order, listed, user, spare, ids) && IsPage(s, m) && !Stays(s.At(m), listed, user)
    requires k in SetPages(s, order, listed, user, spare).index
    ensures SetPages(s, order, listed, user, spare).index[k] != s.index[m]
  {
    var x := s.At(m).Igsid();
    OldPageOutcome(s, order, listed, user, spare, ids, m);
    SetPagesOutcome(s, order, listed, user, spare, ids);
    assert KeyOf(k, SetPages(s, order, listed, user, spare).states[SetPages(s, order, listed, user, spare).index[k]]);
    if k == x != "" {
      GoneAccount(s, order, listed, user, spare, ids, m, x);
    }
  }

  /** The account of a page that goes does not lead to it any more. */
  lemma GoneAccount<R>(s: Store<R>, order: seq<string>, listed: seq<Listed>, user: string, spare: seq<R>, ids: set<string>,
                       m: string, x: string)
    requires Given(s, order, listed, user, spare, ids) && IsPage(s, m) && !Stays(s.At(m), listed, user) && x == s.At(m).Igsid() != ""
    ensures Look(SetPages(s, order, listed, user, spare).index, x) != Some(s.index[m])
  {
    var v, rest, z := VisitAll(s, order, listed, user), Remaining(listed, order), SetPages(s, order, listed, user, spare);
    assert m in ids && x !in ids;
    AfterWalk(s, order, listed, user, spare, ids);
    RestAccounts(s, order, listed, user, spare, ids);
    ClearedIsNotHeld(s, order, listed, user, m, x);
    WalkHolder(s, order, listed, user, ids, x);
    InstallLatest(v, rest, user, spare, ids, x);
    LatestIs(rest, spare, x, Look(v.index, x));
    OldPageOutcome(s, order, listed, user, spare, ids, m);
    assert forall i :: 0 <= i < |rest| ==> z.states[spare[i]].id != m;
  }

  lemma ClearedIsNotHeld<R>(s: Store<R>, order: seq<string>, listed: seq<Listed>, user: string, m: string, x: string)
    requires Pages(s, order) && IsPage(s, m) && m in order && !Stays(s.At(m), listed, user) && x == s.At(m).Igsid() != ""
    ensures Holder(s, order, listed, user, x) != Some(s.index[m])
  {
    HolderIs(s, order, listed, user, x, m);
    var i :| 0 <= i < |order| && order[i] == m;
    assert ActOn(s.At(order[i]), listed, user, x) == Clears;
  }

  /** The keys of `z` lead to pages that were reached in `s`, or to new ones. */
  ghost predicate LeadsTo<R>(s: Store<R>, z: Store<R>, more: set<R>) {
    forall k :: k in z.index ==> z.index[k] in s.index.Values + more
  }

  lemma VisitRefs<R>(s: Store<R>, v: Store<R>, k: string, listed: seq<Listed>, user: string)
    requires LeadsTo(s, v, {})
    ensures LeadsTo(s, Visit(v, k, listed, user), {})
  {
  }

  lemma {:induction false} WalkRefs<R>(s: Store<R>, order: seq<string>, listed: seq<Listed>, user: string)
    ensures LeadsTo(s, VisitAll(s, order, listed, user), {})
  {
    if order != [] {
      WalkRefs(s, DropLast(order), listed, user);
      VisitRefs(s, VisitAll(s, DropLast(order), listed, user), order[|order| - 1], listed, user);
    }
  }

  lemma InstallRef<R>(s: Store<R>, z: Store<R>, info: Listed, user: string, r: R, more: set<R>)
    requires LeadsTo(s, z, more)
    ensures LeadsTo(s, Install(z, info, user, r), more + {r})
  {
  }

  lemma {:induction false} InstallRefs<R>(s: Store<R>, v: Store<R>, rest: seq<Listed>, user: string, spare: seq<R>)
    requires |spare| == |rest| && LeadsTo(s, v, {})
    ensures LeadsTo(s, InstallAll(v, rest, user, spare), RefsIn(spare))
  {
    if rest != [] {
      var n := |rest| - 1;
      InstallRefs(s, v, DropLast(rest), user, DropLast(spare));
      InstallRef(s, InstallAll(v, DropLast(rest), user, DropLast(spare)), rest[n], user, spare[n], RefsIn(DropLast(spare)));
      LastSplits(spare);
      assert RefsIn(spare) == RefsIn(DropLast(spare)) + {spare[n]};
    }
  }

  lemma KeysLead<R>(s: Store<R>, order: seq<string>, listed: seq<Listed>, user: string, spare: seq<R>, ids: set<string>, k: string)
    requires Given(s, order, listed, user, spare, ids) && k in SetPages(s, order, listed, user, spare).index
    ensures var z := SetPages(s, order, listed, user, spare);
      Reached(s, z.index[k]) || (z.index[k] in z.states && z.states[z.index[k]].id in IdsOf(listed))
  {
    var rest, z := Remaining(listed, order), SetPages(s, order, listed, user, spare);
    WalkRefs(s, order, listed, user);
    InstallRefs(s, VisitAll(s, order, listed, user), rest, user, spare);
    if z.index[k] in s.index.Values {
      var x :| x in s.index && s.index[x] == z.index[k];
    } else {
      var i :| 0 <= i < |spare| && spare[i] == z.index[k];
      RestAccounts(s, order, listed, user, spare, ids);
      assert rest[i] in listed;
    }
  }

  /** When every indexed page is indexed by its own id, a listing has its outcome for every page that any key leads to. */
  lemma CoherentIsFated<R>(s: Store<R>, order: seq<string>, listed: seq<Listed>, user: string, spare: seq<R>, ids: set<string>)
    requires Given(s, order, listed, user, spare, ids) && Coherent(s)
    ensures AllFated(s, listed, user, SetPages(s, order, listed, user, spare))
  {
    var z := SetPages(s, order, listed, user, spare);
    forall k | k in s.index ensures Fated(s, listed, user, z, s.index[k]) {
      var m := s.states[s.index[k]].id;
      assert IsPage(s, m) && s.index[m] == s.index[k];
      OldPageOutcome(s, order, listed, user, spare, ids, m);
      if !Stays(s.At(m), listed, user) {
        forall k2 | k2 in z.index ensures z.index[k2] != s.index[m] {
          GoneIsNotReached(s, order, listed, user, spare, ids, m, k2);
        }
      }
    }
    forall k | k in z.index
      ensures Reached(s, z.index[k]) || (z.index[k] in z.states && z.states[z.index[k]].id in IdsOf(listed))
    {
      KeysLead(s, order, listed, user, spare, ids, k);
    }
  }

  // ----- other stores

  /** No page's account leads to another page; it may lead nowhere. */
  ghost predicate NoneTaken<R>(s: Store<R>) {
    forall k :: IsPage(s, k) && s.At(k).Igsid() != "" && s.At(k).Igsid() in s.index ==> Indexed(s, k)
  }

  /** A page that is reached only by its account is passed over: it keeps its grants, and its key. */
  lemma StrayIsPassedOver<R>(s: Store<R>, order: seq<string>, user: string, ids: set<string>, k: string)
    requires Given(s, order, [], user, [], ids) && NoneTaken(s) && k in s.index && !s.Main(k)
    requires var m := s.At(k).id; m !in s.index || s.index[m] != s.index[k]
    ensures var z := VisitAll(s, order, [], user);
      k in z.index && z.index[k] == s.index[k] && s.index[k] in z.states && z.states[s.index[k]] == s.At(k)
  {
    WalkStates(s, order, [], user, ids, s.index[k]);
    assert k == s.At(k).Igsid() && k !in ids;
    WalkHolder(s, order, [], user, ids, k);
    forall i | 0 <= i < |order| ensures ActOn(s.At(order[i]), [], user, k) == Keeps {
      assert s.At(order[i]).Igsid() == k ==> Indexed(s, order[i]);
    }
    KeptIsHeld(s, order, [], user, k);
  }

  lemma {:induction false} KeptIsHeld<R>(s: Store<R>, order: seq<string>, listed: seq<Listed>, user: string, x: string)
    requires Pages(s, order) && AllKeep(s, order, listed, user, x)
    ensures Holder(s, order, listed, user, x) == Look(s.index, x)
  {
    if order != [] {
      assert forall i :: 0 <= i < |order| - 1 ==> DropLast(order)[i] == order[i];
      KeptIsHeld(s, DropLast(order), listed, user, x);
    }
  }

  lemma {:induction false} WalkStates<R>(s: Store<R>, order: seq<string>, listed: seq<Listed>, user: string, ids: set<string>, r: R)
    requires s.Keyed() && s.Active() && Apart(s, listed, ids) && Walks(s, order) && r in s.states
    requires forall i :: 0 <= i < |order| ==> s.index[order[i]] != r
    ensures var v := VisitAll(s, order, listed, user); r in v.states && v.states[r] == s.states[r]
  {
    if order != [] {
      var o, k := DropLast(order), order[|order| - 1];
      LastSplits(order);
      assert k !in o;
      WalkStates(s, o, listed, user, ids, r);
      WalkProgress(s, o, listed, user, ids, k);
    }
  }

  lemma StrayHasNoFate<R>(s: Store<R>, order: seq<string>, ids: set<string>, k: string) returns (user: string)
    requires s.Keyed() && s.Active() && Apart(s, [], ids) && CompleteWalk(s, order) && NoneTaken(s) && k in s.index
    requires !(s.At(k).id in s.index && s.index[s.At(k).id] == s.index[k])
    ensures !Fated(s, [], user, VisitAll(s, order, [], user), s.index[k])
  {
    var p := s.At(k);
    user := if p.accounts == [] then "" else p.accounts[0].psid;
    NothingLeft(order);
    StrayIsPassedOver(s, order, user, ids, k);
    assert Reached(VisitAll(s, order, [], user), s.index[k]);
    if p.accounts == [] {
      assert !Stays(p, [], user);
    } else {
      assert |Withdrawn(p, user).accounts| < |p.accounts|;
    }
  }

  /**
   When no page's account leads to another page: an empty listing has its outcome for
   every page that a key leads to, whoever the user, exactly when every indexed page is
   indexed by its own id.
   */
  lemma FatedWhenCoherent<R>(s: Store<R>, order: seq<string>, ids: set<string>)
    requires s.Keyed() && s.Active() && Apart(s, [], ids) && CompleteWalk(s, order) && NoneTaken(s)
    ensures Coherent(s) <==> forall user :: AllFated(s, [], user, VisitAll(s, order, [], user))
  {
    NothingLeft(order);
    if Coherent(s) {
      forall user: string ensures AllFated(s, [], user, VisitAll(s, order, [], user)) {
        CoherentIsFated(s, order, [], user, [], ids);
      }
    } else {
      var k :| k in s.index && s.index[k] in s.states &&
        !(s.At(k).id in s.index && s.index[s.At(k).id] == s.index[k]);
      var user := StrayHasNoFate(s, order, ids, k);
    }
  }

  lemma {:induction false} NothingLeft(order: seq<string>)
    ensures Remaining([], order) == []
  {
    if order != [] {
      NothingLeft(DropLast(order));
    }
  }

  /** A page that was removed by its own id, and not by its account, keeps the grant of a user who lists no page any more. */
  lemma StrayKeepsGrant()
    ensures var s := Store(map["x" := 0], map[0 := Installed(One("p", "x"), "user")]);
      SetPages(s, [], [], "user", []) == s && s.states[0].accounts == [Grant("user", "token")] && Given(s, [], [], "user", [], {"p"})
  {
  }

  function Bare(id: string, account: string): PageState {
    PageState(id, "", Some(Instagram(account, "", "", "")), [], "", [])
  }

  const TAKEN: Store<int> := Store(map["q" := 1, "x" := 0], map[0 := Bare("p", "x"), 1 := Bare("q", "x")])

  lemma TakenIsGiven(user: string)
    ensures Given(TAKEN, ["q"], [], user, [], {"p", "q"}) && !Coherent(TAKEN)
  {
    NothingLeft(["q"]);
    assert !("p" in TAKEN.index) && TAKEN.states[TAKEN.index["x"]].id == "p";
  }

  /** A page without grants, under the account of another without grants: no user's empty listing leaves either, though the store is not coherent. */
  lemma TakenGoesToo(user: string)
    ensures Given(TAKEN, ["q"], [], user, [], {"p", "q"}) && !Coherent(TAKEN)
    ensures var z := SetPages(TAKEN, ["q"], [], user, []); z == Store(map[], TAKEN.states) && AllFated(TAKEN, [], user, z)
  {
    TakenIsGiven(user);
    assert DropLast(["q"]) == [];
    assert VisitAll(TAKEN, ["q"], [], user) == Visit(TAKEN, "q", [], user);
    assert Withdrawn(Bare("q", "x"), user) == Bare("q", "x");
    assert Visit(TAKEN, "q", [], user) == Store(map[], TAKEN.states);
    NothingLeft(["q"]);
    TakenIsFated(user);
  }

  lemma TakenIsFated(user: string)
    ensures AllFated(TAKEN, [], user, Store(map[], TAKEN.states))
  {
    assert Withdrawn(Bare("q", "x"), user) == Bare("q", "x") && Withdrawn(Bare("p", "x"), user) == Bare("p", "x");
  }
}
