/** What the operations on pages leave of each page, in terms of its grants and of what was listed or saved. */
module PageLaws {
  import opened Wrappers
  import opened Sequences
  import opened Grants
  import opened PageStore
  import opened InstagramIndex
  import opened PageBackup

  // ----- grants

  /** The first grant of this token, or of this user, is at `i`; it is nowhere when `i` is the length. */
  ghost predicate FirstAt(a: seq<Grant>, user: string, token: string, i: nat) {
    && i <= |a| && (i < |a| ==> a[i].token == token || a[i].psid == user)
    && forall j :: 0 <= j < i ==> a[j].token != token && a[j].psid != user
  }

  /** The first grant of this user is at `i`. */
  ghost predicate FirstOfAt(a: seq<Grant>, user: string, i: nat) {
    i <= |a| && (i < |a| ==> a[i].psid == user) && forall j :: 0 <= j < i ==> a[j].psid != user
  }

  /** A granted token comes first, in place of the first grant with this token or of this user. */
  lemma AuthorizedIs(a: seq<Grant>, user: string, token: string, i: nat)
    requires FirstAt(a, user, token, i)
    ensures Authorized(a, Grant(user, token)) == [Grant(user, token)] + if i < |a| then a[..i] + a[i + 1..] else a
  {
    assert FirstEqual(a, Grant(user, token)) == i;
  }

  /**
   A user's withdrawal takes the first grant of this user, and no user's takes all; the token in use goes with its
   grant, and the next one's is used.
   */
  lemma WithdrawnIs(p: PageState, user: string, i: nat)
    requires FirstOfAt(p.accounts, user, i)
    ensures var q := Withdrawn(p, user);
      && q.id == p.id && q.name == p.name && q.instagram == p.instagram && q.fields == p.fields
      && (user == "" ==> q.accounts == [] && q.accessToken == "")
      && (user != "" && i == |p.accounts| ==> q == p)
      && (user != "" && i < |p.accounts| ==>
          && q.accounts == p.accounts[..i] + p.accounts[i + 1..]
          && q.accessToken == if i > 0 then p.accessToken else if |p.accounts| > 1 then p.accounts[1].token else "")
  {
    assert FirstOf(p.accounts, user) == i;
  }

  // ----- a user lists the pages it manages

  /** Every listed page, old or new, is as it is listed, with the listed token granted first and in use. */
  lemma ListedPageIs<R>(s: Store<R>, order: seq<string>, listed: seq<Listed>, user: string, spare: seq<R>, ids: set<string>, i: nat)
    requires Given(s, order, listed, user, spare, ids) && i < |listed|
    ensures var z, l := SetPages(s, order, listed, user, spare), listed[i];
      && l.id in z.index && z.index[l.id] in z.states
      && var p := z.states[z.index[l.id]];
         && p.id == l.id && p.name == l.name && p.instagram == l.instagram && p.fields == l.fields && p.accessToken == l.token
         && p.accounts != [] && p.accounts[0] == Grant(user, l.token)
         && (l.id !in s.index ==> p.accounts == [Grant(user, l.token)])
  {
    ListedPageOutcome(s, order, listed, user, spare, ids, i);
    AfterWalk(s, order, listed, user, spare, ids);
  }

  /** A listed page that was there keeps the other grants, in order. */
  lemma ListedPageKeeps<R>(s: Store<R>, order: seq<string>, listed: seq<Listed>, user: string, spare: seq<R>, ids: set<string>, i: nat, j: nat)
    requires Given(s, order, listed, user, spare, ids) && i < |listed| && listed[i].id in s.index && s.index[listed[i].id] in s.states
    requires FirstAt(s.states[s.index[listed[i].id]].accounts, user, listed[i].token, j)
    ensures var z, k := SetPages(s, order, listed, user, spare), listed[i].id;
      var a := s.states[s.index[k]].accounts;
      && k in z.index && z.index[k] == s.index[k] && z.index[k] in z.states
      && z.states[z.index[k]].accounts == [Grant(user, listed[i].token)] + if j < |a| then a[..j] + a[j + 1..] else a
  {
    var k, a := listed[i].id, s.states[s.index[listed[i].id]].accounts;
    AuthorizedIs(a, user, listed[i].token, j);
    AfterWalk(s, order, listed, user, spare, ids);
    FindDistinct(listed, i);
    OldPageOutcome(s, order, listed, user, spare, ids, k);
  }

  /** A page that is not listed keeps what it is, and its other grants; it is indexed by its id as long as a token is in use. */
  lemma UnlistedPageIs<R>(s: Store<R>, order: seq<string>, listed: seq<Listed>, user: string, spare: seq<R>, ids: set<string>, k: string, j: nat)
    requires Given(s, order, listed, user, spare, ids) && k in s.index && s.Main(k) && forall i :: 0 <= i < |listed| ==> listed[i].id != k
    requires user != "" && FirstOfAt(s.At(k).accounts, user, j)
    ensures var z, p := SetPages(s, order, listed, user, spare), s.At(k);
      && s.index[k] in z.states
      && var q := z.states[s.index[k]];
         && q.id == p.id && q.name == p.name && q.instagram == p.instagram && q.fields == p.fields
         && q.accounts == (if j < |p.accounts| then p.accounts[..j] + p.accounts[j + 1..] else p.accounts)
         && (k in z.index <==> q.accessToken != "") && q.accessToken == if q.accounts == [] then "" else q.accounts[0].token
  {
    OldPageOutcome(s, order, listed, user, spare, ids, k);
    WithdrawnIs(s.At(k), user, j);
    WithdrawnIsActive(s.At(k), user);
    if Find(listed, k).Some? {
      var i := FindIs(listed, k);
    }
  }

  /** A page id that is listed again is granted to again, and nothing else of the page changes. */
  lemma InstalledAgain<R>(s: Store<R>, info: Listed, user: string, r: R, j: nat)
    requires info.id in s.index && s.index[info.id] in s.states
    requires FirstAt(s.states[s.index[info.id]].accounts, user, info.token, j)
    ensures var z, p := Install(s, info, user, r), s.states[s.index[info.id]];
      && info.id in z.index && z.index[info.id] == s.index[info.id]
      && z.states == s.states[s.index[info.id] :=
           PageState(p.id, p.name, p.instagram,
                     [Grant(user, info.token)] + if j < |p.accounts| then p.accounts[..j] + p.accounts[j + 1..] else p.accounts,
                     info.token, p.fields)]
  {
    AuthorizedIs(s.states[s.index[info.id]].accounts, user, info.token, j);
  }

  // ----- saved pages

  /** A record put back on a page that is there: its Instagram account, without picture, and its grants; name and fields stay. */
  lemma PutBackOnOld<R>(s: Store<R>, b: Record, spare: R)
    requires b.id in s.index && s.index[b.id] in s.states
    ensures var z, r, p := Restore(s, b, spare), s.index[b.id], s.states[s.index[b.id]];
      && b.id in z.index && z.index[b.id] == r && z.states.Keys == s.states.Keys
      && var q := z.states[r];
         && q.id == p.id && q.name == p.name && q.fields == p.fields
         && (b.instagram.None? ==> q.instagram == p.instagram)
         && (b.instagram.Some? ==>
             q.instagram == Some(Instagram(b.instagram.value.id, b.instagram.value.name, b.instagram.value.username, "")))
         && (b.accounts == [] ==> q.accounts == p.accounts && q.accessToken == p.accessToken)
         && (b.accounts != [] ==> q.accounts != [] && q.accounts[0] == b.accounts[0] && q.accessToken == b.accounts[0].token)
  {
    if b.accounts != [] {
      assert Replayed(s.states[s.index[b.id]].accounts, b.accounts)[0] == b.accounts[0];
    }
  }

  /** A record put at a new page makes it what was saved, but for the picture. */
  lemma PutBackAsNew<R>(s: Store<R>, b: Record, spare: R)
    requires b.id !in s.index && Unequal(b.accounts)
    ensures var z := Restore(s, b, spare);
      && b.id in z.index && spare in z.states
      && var q := z.states[spare];
         && q.id == b.id && q.name == b.name && q.fields == b.fields && q.accounts == b.accounts
         && q.accessToken == (if b.accounts == [] then "" else b.accounts[0].token)
         && (b.instagram.None? ==> q.instagram == None)
         && (b.instagram.Some? ==>
             q.instagram == Some(Instagram(b.instagram.value.id, b.instagram.value.name, b.instagram.value.username, "")))
  {
    ReplayUnequal(b.accounts);
  }

  /**
   Saved and put back into an empty store, an authorized page has its id, name, fields, grants and token in use
   again, and its account without the picture.
   */
  lemma SavedPageIs<R, S>(owner: string -> string, s: Store<R>, order: seq<string>, data: seq<Record>, spare: seq<S>, ids: set<string>, k: string)
    requires Restorable(owner, s, ids) && (forall k :: k in s.index ==> k in order) && data == SaveAll(s, order)
    requires |spare| == |data| && FreshRefs(Store(map[], map[]), data, spare)
    requires k in s.index && s.index[k] in s.states && s.states[s.index[k]].accessToken != ""
    ensures var z, p := RestoreAll(Store(map[], map[]), data, spare), s.states[s.index[k]];
      && p.id in z.index && z.index[p.id] in z.states
      && var q := z.states[z.index[p.id]];
         && q.id == p.id && q.name == p.name && q.fields == p.fields && q.accounts == p.accounts && q.accessToken == p.accessToken
         && (p.instagram.None? ==> q.instagram == None)
         && (p.instagram.Some? ==>
             && q.instagram == Some(Instagram(p.instagram.value.id, p.instagram.value.name, p.instagram.value.username, ""))
             && (p.instagram.value.id != "" ==> p.instagram.value.id in z.index && z.index[p.instagram.value.id] == z.index[p.id]))
  {
    BackupRestores(owner, s, order, data, spare, ids);
    assert Saved(s, k);
    assert Recovered(RestoreAll(Store(map[], map[]), data, spare), s.At(k));
  }
}
