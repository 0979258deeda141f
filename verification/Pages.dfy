/** The page store: pages as objects that users' grants are added to and taken from, and a map that indexes them. */
module Pages {
  import opened Wrappers
  import opened Sequences
  import opened Grants
  import opened PageStore
  import opened PageBackup
  import opened Deauthorization

  class Page {
    const id: string
    var name: string
    var instagram: Option<Instagram>
    var accounts: seq<Grant>
    var accessToken: string
    var fields: seq<string>

    ghost function State(): PageState
      reads this
    {
      PageState(id, name, instagram, accounts, accessToken, fields)
    }

    constructor (id: string, name: string, instagram: Option<Instagram>, fields: seq<string>)
      ensures State() == PageState(id, name, instagram, [], "", fields)
    {
      this.id, this.name, this.instagram, this.fields := id, name, instagram, fields;
      accounts, accessToken := [], "";
    }

    function Igsid(): string
      reads this
    {
      IdOf(instagram)
    }

    predicate IsAuthorized()
      reads this
    {
      accessToken != ""
    }

    /** Puts a grant to use: in front, in place of an equal one. */
    method Authorize(t: Grant)
      modifies this
      ensures State() == old(State()).(accounts := Authorized(old(accounts), t), accessToken := t.token)
    {
      var n := |accounts|;
      var i := 0;
      while i < n && !accounts[i].Equal(t)
        invariant 0 <= i <= n
        invariant forall j :: 0 <= j < i ==> !accounts[j].Equal(t)
      {
        i := i + 1;
      }
      assert i == FirstEqual(accounts, t);
      if i == n {
        accounts := [t] + accounts;
      } else {
        accounts := [t] + accounts[..i] + accounts[i + 1..];
      }
      accessToken := t.token;
    }

    /** Takes a user's grant away, or all grants when no user is named; returns what was taken. */
    method Deauthorize(psid: string) returns (removed: seq<Grant>)
      modifies this
      ensures State() == Withdrawn(old(State()), psid)
      ensures psid == "" ==> removed == old(accounts)
      ensures psid != "" ==> |removed| <= 1 && (removed == [] <==> FirstOf(old(accounts), psid) == |old(accounts)|)
      ensures psid != "" && removed != [] ==> removed[0] == old(accounts)[FirstOf(old(accounts), psid)]
    {
      if psid == "" {
        removed := accounts;
        accounts, accessToken := [], "";
        return;
      }
      removed := [];
      var n := |accounts|;
      var i := 0;
      while i < n && accounts[i].psid != psid
        invariant 0 <= i <= n
        invariant forall j :: 0 <= j < i ==> accounts[j].psid != psid
      {
        i := i + 1;
      }
      assert i == FirstOf(accounts, psid);
      if i < n {
        removed := [accounts[i]];
        accounts := accounts[..i] + accounts[i + 1..];
        if i == 0 {
          accessToken := "";
          if |accounts| != 0 {
            accessToken := accounts[0].token;
          }
        }
      }
    }
  }

  lemma {:induction false} FindAt(listed: seq<Listed>, id: string, n: nat)
    requires n < |listed| && listed[n].id == id && forall i :: 0 <= i < n ==> listed[i].id != id
    ensures Find(listed, id) == Some(listed[n]) && TakeOut(listed, id) == listed[..n] + listed[n + 1..]
  {
    if n > 0 {
      FindAt(listed[1..], id, n - 1);
      assert listed[..n] + listed[n + 1..] == [listed[0]] + (listed[1..][..n - 1] + listed[1..][n..]);
    }
  }

  lemma FindNothing(listed: seq<Listed>, id: string)
    requires forall i :: 0 <= i < |listed| ==> listed[i].id != id
    ensures Find(listed, id) == None && TakeOut(listed, id) == listed
  {
  }

  class MessengerPages {
    var pages: map<string, Page>

    /** The store as a value, for a set of pages. */
    ghost function Snapshot(objects: set<Page>): Store<Page>
      reads this, objects
    {
      Store(pages, map p | p in objects :: p.State())
    }

    ghost predicate Valid()
      reads this, pages.Values
    {
      Snapshot(pages.Values).Keyed() && Snapshot(pages.Values).Active()
    }

    constructor ()
      ensures pages == map[] && Valid()
    {
      pages := map[];
    }

    /** Takes the first listed page of this id out of the work left. */
    static method TakeListed(progress: seq<Listed>, id: string) returns (page: Option<Listed>, rest: seq<Listed>)
      ensures page == Find(progress, id) && rest == TakeOut(progress, id)
    {
      var n := 0;
      while n < |progress|
        invariant 0 <= n <= |progress|
        invariant forall i :: 0 <= i < n ==> progress[i].id != id
      {
        if progress[n].id == id {
          FindAt(progress, id, n);
          return Some(progress[n]), progress[..n] + progress[n + 1..];
        }
        n := n + 1;
      }
      FindNothing(progress, id);
      return None, progress;
    }

    /** Brings a page up to date with its listing, and its Instagram key with its account. */
    method Refresh(that: Page, page: Listed, user: string)
      modifies this, that
      ensures pages == Reindexed(old(pages), that, old(that.Igsid()), IdOf(page.instagram))
      ensures that.State() == Refreshed(old(that.State()), page, user)
    {
      that.name := page.name;
      var now, was := IdOf(page.instagram), that.Igsid();
      if now != "" {
        if was != "" {
          if was != now {
            pages := pages - {was};
          }
        } else {
          pages := pages[now := that];
        }
      } else if was != "" {
        pages := pages - {was};
      }
      that.instagram := page.instagram;
      that.fields := page.fields;
      that.Authorize(Grant(user, page.token));
    }

    /** Withdraws a user's grant from a page that is not listed, and deletes the page when none is left. */
    method Withdraw(asid: string, that: Page, user: string)
      modifies this, that
      ensures that.State() == Withdrawn(old(that.State()), user)
      ensures pages == if that.IsAuthorized() then old(pages) else Drop(old(pages) - {asid}, old(that.Igsid()))
    {
      var _ := that.Deauthorize(user);
      if !that.IsAuthorized() {
        pages := pages - {asid};
        if that.Igsid() != "" {
          pages := pages - {that.Igsid()};
        }
      }
    }

    /** Processes one main key met by the walk. */
    method VisitPage(asid: string, user: string, progress: seq<Listed>, ghost listed: seq<Listed>,
          ghost objects: set<Page>)
      returns (rest: seq<Listed>)
      requires asid in pages && pages[asid].id == asid && pages[asid] in objects
      requires Find(progress, asid) == Find(listed, asid)
      modifies this, pages[asid]
      ensures Snapshot(objects) == Visit(old(Snapshot(objects)), asid, listed, user)
      ensures rest == TakeOut(progress, asid)
    {
      var that := pages[asid];
      ghost var s := Snapshot(objects);
      var page;
      page, rest := TakeListed(progress, asid);
      if page.Some? {
        Refresh(that, page.value, user);
      } else {
        Withdraw(asid, that, user);
      }
      assert that.State() == Visited(s.states[that], listed, user);
      ChangedAt(objects, s.states, that);
      assert objects + {that} == objects;
    }

    /** Visits the page whose page id the walk has met. */
    method VisitNext(asid: string, user: string, progress: seq<Listed>, ghost s: Store<Page>, ghost order: seq<string>,
                     ghost listed: seq<Listed>, ghost ids: set<string>, ghost produced: set<string>, ghost must: set<string>,
                     ghost objects: set<Page>)
      returns (rest: seq<Listed>)
      requires asid in pages && pages[asid].id == asid && pages[asid] in objects && asid !in produced
      requires Walking(s, order, Snapshot(objects), listed, user, ids, produced, must) && progress == Remaining(listed, order)
      modifies this, pages[asid]
      ensures Walking(s, order + [asid], Snapshot(objects), listed, user, ids,
                      (produced + {asid}) * pages.Keys, (must - {asid}) * pages.Keys)
      ensures Pending(Snapshot(objects), (produced + {asid}) * pages.Keys) < old(Pending(Snapshot(objects), produced))
      ensures rest == Remaining(listed, order + [asid])
    {
      WalkingStep(s, order, Snapshot(objects), listed, user, ids, produced, must, asid);
      FindRemaining(listed, order, asid);
      rest := VisitPage(asid, user, progress, listed, objects);
      assert DropLast(order + [asid]) == order;
    }

    /** Walks the index in any order the runtime may choose: a key removed is not met any more, one added may be. */
    method Walk(user: string, listed: seq<Listed>, ghost ids: set<string>, ghost objects: set<Page>)
      returns (rest: seq<Listed>, ghost order: seq<string>)
      requires pages.Values <= objects && Snapshot(objects).Keyed() && Snapshot(objects).Active()
      modifies this, objects
      ensures Walks(old(Snapshot(objects)), order)
      ensures Snapshot(objects) == VisitAll(old(Snapshot(objects)), order, listed, user)
      ensures rest == Remaining(listed, order)
      ensures Apart(old(Snapshot(objects)), listed, ids) ==> CompleteWalk(old(Snapshot(objects)), order)
    {
      ghost var s := Snapshot(objects);
      rest, order := listed, [];
      var produced: set<string> := {};
      var must := pages.Keys;
      while true
        invariant rest == Remaining(listed, order)
        invariant Walking(s, order, Snapshot(objects), listed, user, ids, produced, must)
        decreases Pending(Snapshot(objects), produced), pages.Keys - produced
      {
        var more: bool := *;
        if must == {} && (!more || pages.Keys - produced == {}) {
          break;
        }
        var asid :| asid in pages.Keys - produced;
        if pages[asid].id == asid {
          rest := VisitNext(asid, user, rest, s, order, listed, ids, produced, must, objects);
          order := order + [asid];
        } else {
          WalkingPass(s, order, Snapshot(objects), listed, user, ids, produced, must, asid);
        }
        produced := (produced + {asid}) * pages.Keys;
        must := (must - {asid}) * pages.Keys;
      }
    }

    /** When one page changed, or is new, the snapshot changed there. */
    lemma ChangedAt(objects: set<Page>, states: map<Page, PageState>, page: Page)
      requires states.Keys == objects && forall p :: p in objects && p != page ==> p.State() == states[p]
      ensures Snapshot(objects + {page}).states == states[page := page.State()]
    {
    }

    /** Indexes a page by an id and by its Instagram id. */
    method Index(id: string, page: Page, ghost objects: set<Page>, ghost states: map<Page, PageState>)
      requires states.Keys == objects && forall p :: p in objects && p != page ==> p.State() == states[p]
      modifies this
      ensures pages == IndexedBy(old(pages), id, page, page.State())
      ensures Snapshot(objects + {page}) == Store(IndexedBy(old(pages), id, page, page.State()), states[page := page.State()])
    {
      pages := pages[id := page];
      if page.Igsid() != "" {
        pages := pages[page.Igsid() := page];
      }
      ChangedAt(objects, states, page);
    }

    /** Installs one page, or authorizes the one its id is indexed by. */
    method InstallPage(add: Listed, user: string, ghost objects: set<Page>) returns (page: Page)
      requires pages.Values <= objects
      modifies this, pages.Values
      ensures if add.id in old(pages) then page == old(pages)[add.id] else fresh(page)
      ensures pages.Values <= old(pages.Values) + {page}
      ensures Snapshot(objects + {page}) == Install(old(Snapshot(objects)), add, user, page)
    {
      ghost var s := Snapshot(objects);
      if add.id in pages {
        page := pages[add.id];
        assert page in pages.Values;
      } else {
        page := new Page(add.id, add.name, add.instagram, add.fields);
      }
      page.Authorize(Grant(user, add.token));
      assert Authorized([], Grant(user, add.token)) == [Grant(user, add.token)];
      assert page.State() == Granted(if add.id in s.index then Some(s.states[page]) else None, add, user);
      Index(add.id, page, objects, s.states);
    }

    /** The pages of `done` are installed, at the references of `spare`. */
    ghost predicate Installing(s: Store<Page>, done: seq<Listed>, user: string, spare: seq<Page>, all: set<Page>)
      reads this, all
    {
      && pages.Values <= all && |spare| == |done| && NewRefs(s, done, user, spare)
      && Snapshot(all) == InstallAll(s, done, user, spare)
    }

    /** Installs the next page the walk did not meet. */
    method InstallNext(ghost s: Store<Page>, rest: seq<Listed>, i: nat, user: string, ghost spare: seq<Page>, ghost all: set<Page>)
      returns (page: Page)
      requires i < |rest| && Installing(s, rest[..i], user, spare, all)
      modifies this, all
      ensures (page in all || fresh(page)) && Installing(s, rest[..i + 1], user, spare + [page], all + {page})
    {
      page := InstallPage(rest[i], user, all);
      InstallAppend(s, rest[..i], user, spare, rest[i], page);
      TakeNext(rest, i);
    }

    /** Installs what the walk did not meet. */
    method InstallRest(rest: seq<Listed>, user: string, ghost objects: set<Page>) returns (ghost spare: seq<Page>,
          ghost all: set<Page>)
      requires pages.Values <= objects
      modifies this, objects
      ensures |spare| == |rest| && NewRefs(old(Snapshot(objects)), rest, user, spare)
      ensures pages.Values <= all && objects <= all && fresh(all - objects)
      ensures Snapshot(all) == InstallAll(old(Snapshot(objects)), rest, user, spare)
    {
      ghost var s := Snapshot(objects);
      spare, all := [], objects;
      for i := 0 to |rest|
        invariant objects <= all && fresh(all - objects) && Installing(s, rest[..i], user, spare, all)
      {
        var page := InstallNext(s, rest, i, user, spare, all);
        spare, all := spare + [page], all + {page};
      }
      TakeAll(rest);
    }

    /** Installs the pages one user manages, with the tokens granted for them, and withdraws the user's other grants. */
    method SetPages(user: string, listed: seq<Listed>, ghost ids: set<string>, ghost objects: set<Page>)
      returns (ghost order: seq<string>, ghost spare: seq<Page>, ghost all: set<Page>)
      requires pages.Values <= objects && Snapshot(objects).Keyed() && Snapshot(objects).Active()
      modifies this, objects
      ensures pages.Values <= all && objects <= all && fresh(all - objects)
      ensures Valid() && Snapshot(all).Keyed() && Snapshot(all).Active()
      ensures Walks(old(Snapshot(objects)), order) && |spare| == |Remaining(listed, order)|
      ensures NewRefs(VisitAll(old(Snapshot(objects)), order, listed, user), Remaining(listed, order), user, spare)
      ensures Snapshot(all) == PageStore.SetPages(old(Snapshot(objects)), order, listed, user, spare)
      ensures Apart(old(Snapshot(objects)), listed, ids) && DistinctIds(listed) ==>
        Given(old(Snapshot(objects)), order, listed, user, spare, ids)
    {
      ghost var s := Snapshot(objects);
      var rest;
      rest, order := Walk(user, listed, ids, objects);
      ghost var v := Snapshot(objects);
      VisitAllKeeps(s, order, listed, user);
      assert pages.Values <= objects by { assert forall k :: k in v.index ==> v.index[k] in v.states; }
      spare, all := InstallRest(rest, user, objects);
      SetPagesKeeps(s, order, listed, user, spare);
      SmallerSnapshot(all);
    }

    /** All pages, by their page ids. */
    method AllPages() returns (res: seq<Page>)
      requires Valid()
      ensures forall p :: p in res ==> p.id in pages && pages[p.id] == p
      ensures forall k :: k in pages && pages[k].id == k ==> pages[k] in res
      ensures Once(res)
    {
      res := [];
      var left := pages.Keys;
      while left != {}
        invariant left <= pages.Keys
        invariant forall p :: p in res ==> p.id in pages && pages[p.id] == p && p.id !in left
        invariant forall k :: k in pages && k !in left && pages[k].id == k ==> pages[k] in res
        invariant Once(res)
        decreases left
      {
        var asid :| asid in left;
        var page := pages[asid];
        if page.id == asid {
          assert page !in res;
          res := res + [page];
        }
        left := left - {asid};
      }
    }

    /** The pages of these ids, each where it is first named; an id that is not indexed is an error. No ids: all pages. */
    method GetPages(pageIds: seq<string>) returns (r: Option<seq<Page>>)
      requires Valid()
      ensures r.Some? ==> Once(r.value)
      ensures if pageIds == [] then
          && r.Some? && (forall p :: p in r.value ==> p.id in pages && pages[p.id] == p)
          && (forall k :: k in pages && pages[k].id == k ==> pages[k] in r.value)
        else if forall k :: k in pageIds ==> k in pages then r == Some(Named(pageIds, pages))
        else r.None?
    {
      if pageIds == [] {
        var all := AllPages();
        return Some(all);
      }
      var res: seq<Page> := [];
      for i := 0 to |pageIds|
        invariant (forall k :: k in pageIds[..i] ==> k in pages) && res == Named(pageIds[..i], pages)
      {
        var asid := pageIds[i];
        TakeNext(pageIds, i);
        if asid !in pages {
          assert pageIds[i] in pageIds;
          return None;
        }
        assert DropLast(pageIds[..i + 1]) == pageIds[..i];
        if pages[asid] !in res {
          res := res + [pages[asid]];
        }
      }
      assert pageIds[..|pageIds|] == pageIds;
      NamedOnce(pageIds, pages);
      return Some(res);
    }

    /** One page is withdrawn from. */
    method WithdrawFrom(page: Page, user: string, ghost objects: set<Page>)
      requires pages.Values <= objects && page in objects
      modifies page
      ensures Snapshot(objects) == Store(pages, old(Snapshot(objects)).states[page := Withdrawn(old(page.State()), user)])
    {
      ghost var s := Snapshot(objects);
      var _ := page.Deauthorize(user);
      assert Snapshot(objects).states == s.states[page := Withdrawn(s.states[page], user)];
    }

    /** One page is withdrawn from, and removed by its id when no grant is left. */
    method DeauthorizePage(page: Page, user: string, ghost objects: set<Page>)
      requires pages.Values <= objects && page in objects && Snapshot(objects).Keyed() && Snapshot(objects).Active()
      modifies this, page
      ensures pages.Values <= objects && Snapshot(objects) == DeauthorizeOne(old(Snapshot(objects)), page, user)
    {
      WithdrawnKeeps(Snapshot(objects), page, user);
      WithdrawFrom(page, user, objects);
      if !page.IsAuthorized() {
        SmallerSnapshot(objects);
        var _ := DelPage(page.id);
      }
    }

    /** The next of some pages is withdrawn from. */
    method DeauthorizeNext(ghost s: Store<Page>, list: seq<Page>, i: nat, user: string, ghost objects: set<Page>)
      requires s.Keyed() && s.Active() && i < |list| && list[i] in objects
      requires pages.Values <= objects && Snapshot(objects) == DeauthorizeAll(s, list[..i], user)
      modifies this, objects
      ensures pages.Values <= objects && Snapshot(objects) == DeauthorizeAll(s, list[..i + 1], user)
    {
      DeauthorizedKeeps(s, list[..i], user);
      DeauthorizePage(list[i], user, objects);
      assert list[..i + 1] == list[..i] + [list[i]];
      assert DropLast(list[..i + 1]) == list[..i];
    }

    /** All of some pages are withdrawn from. */
    method DeauthorizeList(list: seq<Page>, user: string, ghost objects: set<Page>)
      requires pages.Values <= objects && Snapshot(objects).Keyed() && Snapshot(objects).Active()
      requires forall i :: 0 <= i < |list| ==> list[i] in objects
      modifies this, objects
      ensures pages.Values <= objects && Snapshot(objects) == DeauthorizeAll(old(Snapshot(objects)), list, user)
    {
      ghost var s := Snapshot(objects);
      for i := 0 to |list|
        invariant pages.Values <= objects && Snapshot(objects) == DeauthorizeAll(s, list[..i], user)
      {
        DeauthorizeNext(s, list, i, user, objects);
      }
      TakeAll(list);
    }

    /** A user withdraws from one page, or from all; with no user named, all users do. A page that is not indexed is an error. */
    method Deauthorize(pageId: string, user: string, ghost objects: set<Page>) returns (ok: bool, ghost named: seq<Page>)
      requires pages.Values <= objects && Snapshot(objects).Keyed() && Snapshot(objects).Active()
      modifies this, objects
      ensures pages.Values <= objects && Snapshot(objects).Keyed() && Snapshot(objects).Active()
      ensures ok <==> pageId == "" || pageId in old(pages)
      ensures Chosen(old(Snapshot(objects)), pageId, named)
      ensures Snapshot(objects) == DeauthorizeAll(old(Snapshot(objects)), named, user)
    {
      ghost var s := Snapshot(objects);
      SmallerSnapshot(objects);
      var found := GetPages(if pageId == "" then [] else [pageId]);
      if found.None? {
        return false, [];
      }
      ok, named := true, found.value;
      ChosenIs(s, pageId, pages, found.value);
      DeauthorizedKeeps(s, found.value, user);
      DeauthorizeList(found.value, user, objects);
    }

    /** Removes one index key. */
    method DelPage(id: string) returns (r: Option<Page>)
      requires Valid()
      modifies this
      ensures Valid() && pages == old(pages) - {id}
      ensures r == if id in old(pages) then Some(old(pages)[id]) else None
    {
      if id in pages {
        r := Some(pages[id]);
        ghost var was := pages;
        pages := pages - {id};
        StillValid(was);
      } else {
        r := None;
      }
    }

    twostate lemma StillValid(was: map<string, Page>)
      requires old(pages) == was && pages.Keys <= was.Keys && forall k :: k in pages ==> pages[k] == was[k]
      requires old(Valid()) && forall k :: k in pages ==> pages[k].State() == old(was[k].State())
      ensures Valid()
    {
    }

    /** The record of a page. */
    static method RecordPage(def: Page) returns (page: Record)
      ensures page == RecordOf(def.State())
    {
      var accounts := [];
      for i := 0 to |def.accounts|
        invariant accounts == def.accounts[..i]
      {
        accounts := accounts + [def.accounts[i]];
      }
      return Record(def.id, def.name, def.instagram, accounts, def.fields);
    }

    /** Saves the authorized pages, walking the index in any order. */
    method Backup() returns (data: seq<Record>, ghost order: seq<string>)
      ensures data == SaveAll(Snapshot(pages.Values), order)
      ensures (forall k :: k in pages <==> k in order) && forall i, j :: 0 <= i < j < |order| ==> order[i] != order[j]
    {
      data, order := [], [];
      ghost var s := Snapshot(pages.Values);
      var left := pages.Keys;
      while left != {}
        invariant left <= pages.Keys && (forall k :: k in order <==> k in pages && k !in left)
        invariant data == SaveAll(s, order) && forall i, j :: 0 <= i < j < |order| ==> order[i] != order[j]
        decreases left
      {
        var k :| k in left;
        var def := pages[k];
        SaveAppend(s, order, k);
        if def.IsAuthorized() {
          var page := RecordPage(def);
          data := data + [page];
        }
        order := order + [k];
        left := left - {k};
      }
    }

    /** Authorizes the saved grants of a page again, the last first. */
    method Reauthorize(page: Page, saved: seq<Grant>)
      modifies page
      ensures page.State() == old(page.State()).(accounts := Replayed(old(page.accounts), saved),
        accessToken := if saved == [] then old(page.accessToken) else saved[0].token)
    {
      var i := |saved|;
      assert saved[i..] == [];
      while i > 0
        invariant 0 <= i <= |saved|
        invariant page.State() == old(page.State()).(accounts := Replayed(old(page.accounts), saved[i..]),
          accessToken := if i == |saved| then old(page.accessToken) else saved[i].token)
      {
        i := i - 1;
        assert saved[i..][1..] == saved[i + 1..];
        page.Authorize(Grant(saved[i].psid, saved[i].token));
      }
      assert saved[0..] == saved;
    }

    /** Brings a page back to what was saved. */
    method PutBackOn(page: Page, bak: Record)
      modifies page
      ensures page.State() == PutBack(old(page.State()), bak)
    {
      if bak.instagram.Some? {
        page.instagram := Some(bak.instagram.value.(picture := ""));
      }
      Reauthorize(page, bak.accounts);
    }

    /** Puts one saved page back. */
    method RestorePage(bak: Record, ghost objects: set<Page>) returns (page: Page)
      requires pages.Values <= objects
      modifies this, pages.Values
      ensures if bak.id in old(pages) then page == old(pages)[bak.id] else fresh(page)
      ensures pages.Values <= old(pages.Values) + {page}
      ensures Snapshot(objects + {page}) == Restore(old(Snapshot(objects)), bak, page)
    {
      ghost var s := Snapshot(objects);
      if bak.id in pages {
        page := pages[bak.id];
        assert page in pages.Values;
      } else {
        page := new Page(bak.id, bak.name, None, bak.fields);
      }
      assert page.State() == Base(s, bak);
      PutBackOn(page, bak);
      Index(bak.id, page, objects, s.states);
    }

    /** The records of `done` are put back, at the pages of `spare`. */
    ghost predicate Restoring(s: Store<Page>, done: seq<Record>, spare: seq<Page>, all: set<Page>)
      reads this, all
    {
      pages.Values <= all && |spare| == |done| && FreshRefs(s, done, spare) && Snapshot(all) == RestoreAll(s, done, spare)
    }

    /** Puts the next record of a data set back. */
    method RestoreNext(ghost s: Store<Page>, data: seq<Record>, i: nat, ghost spare: seq<Page>, ghost all: set<Page>)
      returns (page: Page)
      requires i < |data| && Restoring(s, data[..i], spare, all)
      modifies this, all
      ensures (page in all || fresh(page)) && Restoring(s, data[..i + 1], spare + [page], all + {page})
    {
      page := RestorePage(data[i], all);
      RestoreAppend(s, data[..i], spare, data[i], page);
      TakeNext(data, i);
    }

    /** Puts a saved data set back. */
    method RestorePages(data: seq<Record>, ghost objects: set<Page>) returns (ghost spare: seq<Page>,
          ghost all: set<Page>)
      requires pages.Values <= objects
      modifies this, objects
      ensures |spare| == |data| && FreshRefs(old(Snapshot(objects)), data, spare)
      ensures pages.Values <= all && objects <= all && fresh(all - objects)
      ensures Snapshot(all) == RestoreAll(old(Snapshot(objects)), data, spare)
    {
      ghost var s := Snapshot(objects);
      spare, all := [], objects;
      for i := 0 to |data|
        invariant objects <= all && fresh(all - objects) && Restoring(s, data[..i], spare, all)
      {
        var page := RestoreNext(s, data, i, spare, all);
        spare, all := spare + [page], all + {page};
      }
      TakeAll(data);
    }

    /** Dropping pages that are not indexed from the snapshot keeps the store valid. */
    lemma SmallerSnapshot(objects: set<Page>)
      requires pages.Values <= objects && Snapshot(objects).Keyed() && Snapshot(objects).Active()
      ensures Valid()
    {
      assert forall p :: p in objects ==> Snapshot(objects).states[p] == p.State();
    }
  }

  lemma ChosenIs(s: Store<Page>, pageId: string, pages: map<string, Page>, list: seq<Page>)
    requires s.index == pages && (forall k :: k in pages ==> pages[k] in s.states && s.states[pages[k]].id == pages[k].id)
    requires Once(list)
    requires if pageId == "" then
        && (forall p :: p in list ==> p.id in pages && pages[p.id] == p)
        && (forall k :: k in pages && pages[k].id == k ==> pages[k] in list)
      else pageId in pages && list == Named([pageId], pages)
    ensures Chosen(s, pageId, list) && forall i :: 0 <= i < |list| ==> list[i] in s.states
  {
    if pageId != "" {
      assert DropLast([pageId]) == [] && list == [pages[pageId]];
    }
    forall i | 0 <= i < |list| ensures list[i] in s.states {
      assert list[i] in list;
    }
  }

  /** The pages that ids lead to, each where it is first named. */
  function Named(ids: seq<string>, pages: map<string, Page>): seq<Page>
    requires forall k :: k in ids ==> k in pages
  {
    if ids == [] then [] else
    var before := Named(DropLast(ids), pages);
    var page := pages[ids[|ids| - 1]];
    if page in before then before else before + [page]
  }

  ghost predicate Once(ps: seq<Page>) {
    forall i, j :: 0 <= i < j < |ps| ==> ps[i] != ps[j]
  }

  lemma {:induction false} NamedOnce(ids: seq<string>, pages: map<string, Page>)
    requires forall k :: k in ids ==> k in pages
    ensures Once(Named(ids, pages))
  {
    if ids != [] {
      NamedOnce(DropLast(ids), pages);
    }
  }

  lemma {:induction false} NamedHas(ids: seq<string>, pages: map<string, Page>, page: Page)
    requires forall k :: k in ids ==> k in pages
    ensures page in Named(ids, pages) <==> exists k :: k in ids && pages[k] == page
  {
    if ids != [] {
      NamedHas(DropLast(ids), pages, page);
      LastSplits(ids);
      assert ids[|ids| - 1] in ids;
    }
  }

  /** A page named by an earlier id comes before one that only later ids name. */
  lemma {:induction false} NamedInOrder(ids: seq<string>, pages: map<string, Page>, n: nat)
    requires (forall k :: k in ids ==> k in pages) && n <= |ids|
    ensures Named(ids[..n], pages) <= Named(ids, pages)
  {
    if n == |ids| {
      assert ids[..n] == ids;
    } else {
      assert DropLast(ids)[..n] == ids[..n];
      NamedInOrder(DropLast(ids), pages, n);
    }
  }

  /** Saving a store and restoring it into a new one brings every authorized page back, and nothing else. */
  method Reload(c: MessengerPages, ghost owner: string -> string, ghost ids: set<string>)
    returns (d: MessengerPages, ghost all: set<Page>)
    requires Restorable(owner, c.Snapshot(c.pages.Values), ids)
    ensures fresh(d) && fresh(all) && d.pages.Values <= all
    ensures Reproduces(d.Snapshot(all), old(c.Snapshot(c.pages.Values)))
  {
    var data;
    ghost var order, spare;
    data, order := c.Backup();
    ghost var s := c.Snapshot(c.pages.Values);
    d, spare, all := Load(data);
    BackupRestores(owner, s, order, data, spare, ids);
  }

  /** A new store, filled from a saved data set. */
  method Load(data: seq<Record>) returns (d: MessengerPages, ghost spare: seq<Page>, ghost all: set<Page>)
    ensures fresh(d) && fresh(all) && d.pages.Values <= all
    ensures |spare| == |data| && FreshRefs(Store(map[], map[]), data, spare)
    ensures d.Snapshot(all) == RestoreAll(Store(map[], map[]), data, spare)
  {
    d := new MessengerPages();
    assert d.Snapshot({}) == Store(map[], map[]);
    spare, all := d.RestorePages(data, {});
  }

  lemma TakeAll<T>(s: seq<T>)
    ensures s[..|s|] == s
  {
  }

  lemma TakeNext<T>(s: seq<T>, i: nat)
    requires i < |s|
    ensures s[..i + 1] == s[..i] + [s[i]]
  {
  }

  lemma SaveAppend(s: Store<Page>, order: seq<string>, k: string)
    ensures SaveAll(s, order + [k]) == SaveAll(s, order) +
      (if k in s.index && s.index[k] in s.states && s.At(k).Authorized?() then [RecordOf(s.At(k))] else [])
  {
    assert DropLast(order + [k]) == order;
  }

  lemma RestoreAppend(s: Store<Page>, data: seq<Record>, spare: seq<Page>, b: Record, r: Page)
    requires |spare| == |data| && FreshRefs(s, data, spare)
    requires var z := RestoreAll(s, data, spare); b.id !in z.index ==> r !in z.states
    ensures RestoreAll(s, data + [b], spare + [r]) == Restore(RestoreAll(s, data, spare), b, r)
    ensures FreshRefs(s, data + [b], spare + [r])
  {
    assert DropLast(data + [b]) == data && DropLast(spare + [r]) == spare;
  }

  lemma InstallAppend(s: Store<Page>, rest: seq<Listed>, user: string, spare: seq<Page>, info: Listed, r: Page)
    requires |spare| == |rest| && NewRefs(s, rest, user, spare)
    requires var z := InstallAll(s, rest, user, spare); info.id !in z.index ==> r !in z.states
    ensures InstallAll(s, rest + [info], user, spare + [r]) == Install(InstallAll(s, rest, user, spare), info, user, r)
    ensures NewRefs(s, rest + [info], user, spare + [r])
  {
    assert DropLast(rest + [info]) == rest && DropLast(spare + [r]) == spare;
  }

  /** The state of a walk: what was met, what the runtime has produced and what it still must produce. */
  ghost predicate Walking(s: Store<Page>, order: seq<string>, v: Store<Page>, listed: seq<Listed>, user: string,
        ids: set<string>,
                          produced: set<string>, must: set<string>)
  {
    && s.Keyed() && s.Active() && v.Keyed() && v.Active() && v.states.Keys == s.states.Keys
    && Walks(s, order) && v == VisitAll(s, order, listed, user)
    && must <= v.index.Keys - produced && (forall r :: r in v.states ==> v.states[r].id == s.states[r].id)
    && (forall k :: k in v.index && v.Main(k) && k !in produced ==> k in s.index && s.index[k] == v.index[k] && k !in order)
    && (Apart(s, listed, ids) ==> forall k :: k in s.index && s.Main(k) ==> k in order || k in must)
  }

  ghost function Pending(v: Store<Page>, produced: set<string>): set<string> {
    set k | k in v.index && k !in produced && v.index[k] in v.states && v.Main(k)
  }

  /** A visit never makes a page id a key. */
  lemma NoNewMains(v: Store<Page>, asid: string, listed: seq<Listed>, user: string, k: string)
    requires v.Keyed() && asid in v.index && v.Main(asid)
    requires var w := Visit(v, asid, listed, user); k in w.index && w.index[k] in w.states && w.Main(k)
    ensures k in v.index && v.Main(k) && Visit(v, asid, listed, user).index[k] == v.index[k]
  {
    var info := Find(listed, asid);
    if info.Some? {
      ReindexedKeys(v.index, v.index[asid], v.At(asid).Igsid(), IdOf(info.value.instagram), k);
    }
  }

  /** Passing over an Instagram key. */
  lemma WalkingPass(s: Store<Page>, order: seq<string>, v: Store<Page>, listed: seq<Listed>, user: string,
        ids: set<string>,
                    produced: set<string>, must: set<string>, asid: string)
    requires Walking(s, order, v, listed, user, ids, produced, must) && asid in v.index && asid !in produced && !v.Main(asid)
    ensures var produced' := (produced + {asid}) * v.index.Keys;
      && Walking(s, order, v, listed, user, ids, produced', (must - {asid}) * v.index.Keys)
      && Pending(v, produced') == Pending(v, produced) && v.index.Keys - produced' < v.index.Keys - produced
  {
    if Apart(s, listed, ids) {
      forall k | k in s.index && s.Main(k) ensures k in order || k in (must - {asid}) * v.index.Keys {
        if k !in order {
          WalkProgress(s, order, listed, user, ids, k);
          assert v.Main(k);
        }
      }
    }
    assert asid in v.index.Keys - produced;
  }

  /** Visiting a page id. */
  lemma WalkingStep(s: Store<Page>, order: seq<string>, v: Store<Page>, listed: seq<Listed>, user: string,
        ids: set<string>,
                    produced: set<string>, must: set<string>, asid: string)
    requires Walking(s, order, v, listed, user, ids, produced, must) && asid in v.index && asid !in produced && v.Main(asid)
    ensures var w := Visit(v, asid, listed, user);
      var produced' := (produced + {asid}) * w.index.Keys;
      && Walking(s, order + [asid], w, listed, user, ids, produced', (must - {asid}) * w.index.Keys)
      && Pending(w, produced') < Pending(v, produced)
  {
    var w := Visit(v, asid, listed, user);
    VisitKeeps(v, asid, listed, user);
    WalksAppend(s, order, asid);
    assert DropLast(order + [asid]) == order;
    StepMains(s, order, v, listed, user, ids, produced, must, asid);
    StepMust(s, order, v, listed, user, ids, produced, must, asid);
  }

  /** Every page id is met, or must still be. */
  lemma StepMust(s: Store<Page>, order: seq<string>, v: Store<Page>, listed: seq<Listed>, user: string, ids: set<string>,
                 produced: set<string>, must: set<string>, asid: string)
    requires Walking(s, order, v, listed, user, ids, produced, must) && asid in v.index && asid !in produced && v.Main(asid)
    ensures Apart(s, listed, ids) ==> forall k :: k in s.index && s.Main(k) ==>
      k in order + [asid] || k in (must - {asid}) * Visit(v, asid, listed, user).index.Keys
  {
    if Apart(s, listed, ids) {
      WalksAppend(s, order, asid);
      assert DropLast(order + [asid]) == order;
      forall k | k in s.index && s.Main(k) ensures k in order + [asid] || k in (must - {asid}) * Visit(v, asid, listed, user).index.Keys {
        StillToMeet(s, order + [asid], Visit(v, asid, listed, user), listed, user, ids, k);
      }
    }
  }

  /** The page ids still to be met are among those that were, without this one. */
  lemma StepMains(s: Store<Page>, order: seq<string>, v: Store<Page>, listed: seq<Listed>, user: string, ids: set<string>,
                  produced: set<string>, must: set<string>, asid: string)
    requires Walking(s, order, v, listed, user, ids, produced, must) && asid in v.index && asid !in produced && v.Main(asid)
    ensures var w := Visit(v, asid, listed, user);
      var produced' := (produced + {asid}) * w.index.Keys;
      && (forall k :: k in w.index && w.index[k] in w.states && w.Main(k) && k !in produced' ==>
            k in s.index && s.index[k] == w.index[k] && k !in order + [asid])
      && Pending(w, produced') < Pending(v, produced)
  {
    var w := Visit(v, asid, listed, user);
    var produced' := (produced + {asid}) * w.index.Keys;
    VisitKeeps(v, asid, listed, user);
    forall k | k in w.index && w.Main(k) && k !in produced'
      ensures k in s.index && s.index[k] == w.index[k] && k !in order + [asid] && k in Pending(v, produced)
    {
      NoNewMains(v, asid, listed, user, k);
    }
    assert asid in Pending(v, produced) && asid !in Pending(w, produced');
  }

  lemma WalksAppend(s: Store<Page>, order: seq<string>, asid: string)
    requires Walks(s, order) && asid in s.index && s.index[asid] in s.states && s.Main(asid) && asid !in order
    ensures Walks(s, order + [asid])
  {
  }

  lemma StillToMeet(s: Store<Page>, order: seq<string>, v: Store<Page>, listed: seq<Listed>, user: string,
        ids: set<string>, k: string)
    requires s.Keyed() && s.Active() && Apart(s, listed, ids) && Walks(s, order) && v == VisitAll(s, order, listed, user)
    requires k in s.index && s.Main(k)
    ensures k in order || k in v.index
  {
    WalkProgress(s, order, listed, user, ids, k);
  }
}
