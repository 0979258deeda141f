/**
 The page store on values: an index from Facebook and Instagram ids to pages, and
 the state of every page. `R` stands for references, so that one page can be
 indexed twice.
 */
module PageStore {
  import opened Wrappers
  import opened Sequences
  import opened Grants

  datatype Instagram = Instagram(id: string, name: string, username: string, picture: string)

  function IdOf(ig: Option<Instagram>): string {
    if ig.Some? then ig.value.id else ""
  }

  /** A page as a user's account lists it, with the token granted for it. */
  datatype Listed = Listed(id: string, name: string, instagram: Option<Instagram>, token: string, fields: seq<string>)

  datatype PageState = PageState(id: string, name: string, instagram: Option<Instagram>, accounts: seq<Grant>,
                                 accessToken: string, fields: seq<string>)
  {
    function Igsid(): string {
      IdOf(instagram)
    }

    predicate Authorized?() {
      accessToken != ""
    }

    /** The token in use is that of the first grant. */
    predicate Active() {
      accessToken == ActiveToken(accounts)
    }
  }

  datatype Store<R> = Store(index: map<string, R>, states: map<R, PageState>) {
    /** Every index key leads to a known page and is its page id or its Instagram id. */
    ghost predicate Keyed() {
      forall k :: k in index ==> index[k] in states && KeyOf(k, states[index[k]])
    }

    ghost predicate Active() {
      forall r :: r in states ==> states[r].Active()
    }

    /** `k` is the page id of the page it leads to. */
    predicate Main(k: string)
      requires k in index ==> index[k] in states
    {
      k in index && states[index[k]].id == k
    }

    /** The page a main key leads to. */
    function At(k: string): PageState
      requires k in index && index[k] in states
    {
      states[index[k]]
    }
  }

  predicate KeyOf(k: string, p: PageState) {
    k == p.id || (k != "" && k == p.Igsid())
  }

  function Find(listed: seq<Listed>, id: string): (r: Option<Listed>)
    ensures r.Some? ==> r.value in listed && r.value.id == id
    ensures r.None? ==> forall i :: 0 <= i < |listed| ==> listed[i].id != id
  {
    if listed == [] then None
    else if listed[0].id == id then Some(listed[0])
    else Find(listed[1..], id)
  }

  ghost predicate DistinctIds(listed: seq<Listed>) {
    forall i, j :: 0 <= i < j < |listed| ==> listed[i].id != listed[j].id
  }

  // ----- one user lists the pages it manages

  function Refreshed(p: PageState, info: Listed, user: string): PageState {
    PageState(p.id, info.name, info.instagram, Authorized(p.accounts, Grant(user, info.token)), info.token, info.fields)
  }

  /** Without the user's grant; the token changes only when the grant in use goes. */
  function Withdrawn(p: PageState, user: string): PageState {
    var left := Deauthorized(p.accounts, user);
    p.(accounts := left,
       accessToken := if user == "" || (|left| < |p.accounts| && FirstOf(p.accounts, user) == 0) then ActiveToken(left) else p.accessToken)
  }

  function Installed(info: Listed, user: string): PageState {
    PageState(info.id, info.name, info.instagram, [Grant(user, info.token)], info.token, info.fields)
  }

  function Drop<R>(m: map<string, R>, k: string): map<string, R> {
    if k == "" then m else m - {k}
  }

  /** How a listed page's Instagram key follows its Instagram account: a new account that replaces another is not indexed. */
  function Reindexed<R>(m: map<string, R>, r: R, was: string, now: string): map<string, R> {
    if now == "" then Drop(m, was)
    else if was == "" then m[now := r]
    else if was != now then m - {was}
    else m
  }

  /** What a walk does to a page it visits. */
  function Visited(p: PageState, listed: seq<Listed>, user: string): PageState {
    match Find(listed, p.id)
    case Some(info) => Refreshed(p, info, user)
    case None => Withdrawn(p, user)
  }

  /** The page stays: it is listed, or another user's grant is left. */
  predicate Stays(p: PageState, listed: seq<Listed>, user: string) {
    Find(listed, p.id).Some? || Withdrawn(p, user).Authorized?()
  }

  /** One iteration of the walk over the index; Instagram keys are passed over. */
  function Visit<R(==)>(s: Store<R>, k: string, listed: seq<Listed>, user: string): Store<R> {
    if !(k in s.index && s.index[k] in s.states && s.states[s.index[k]].id == k) then s else
    var r := s.index[k];
    var p := s.states[r];
    var index := match Find(listed, k)
      case Some(info) => Reindexed(s.index, r, p.Igsid(), IdOf(info.instagram))
      case None => if Stays(p, listed, user) then s.index else Drop(s.index - {k}, p.Igsid());
    Store(index, s.states[r := Visited(p, listed, user)])
  }

  /** The walk over the keys of `order`, first to last. */
  function VisitAll<R(==)>(s: Store<R>, order: seq<string>, listed: seq<Listed>, user: string): Store<R> {
    if order == [] then s else Visit(VisitAll(s, DropLast(order), listed, user), order[|order| - 1], listed, user)
  }

  lemma WithdrawnIsActive(p: PageState, user: string)
    requires p.Active()
    ensures Withdrawn(p, user).Active()
  {
  }

  lemma ReindexedKeys<R>(m: map<string, R>, r: R, was: string, now: string, k: string)
    requires k in Reindexed(m, r, was, now)
    ensures (k == now && now != "" && Reindexed(m, r, was, now)[k] == r)
         || (k in m && Reindexed(m, r, was, now)[k] == m[k] && (k == was ==> was == now || was == ""))
  {
  }

  lemma VisitKeeps<R>(s: Store<R>, k: string, listed: seq<Listed>, user: string)
    requires s.Keyed() && s.Active()
    ensures Visit(s, k, listed, user).Keyed() && Visit(s, k, listed, user).Active()
    ensures Visit(s, k, listed, user).states.Keys == s.states.Keys
  {
    if k in s.index {
      var r, v := s.index[k], Visit(s, k, listed, user);
      var p := s.states[r];
      WithdrawnIsActive(p, user);
      forall k2 | k2 in v.index ensures v.index[k2] in v.states && KeyOf(k2, v.states[v.index[k2]]) {
        var info := Find(listed, k);
        if p.id == k && info.Some? {
          ReindexedKeys(s.index, r, p.Igsid(), IdOf(info.value.instagram), k2);
        }
        if k2 in s.index {
          assert KeyOf(k2, s.states[s.index[k2]]);
        }
      }
    }
  }

  /** Page ids and Instagram ids are told apart: `ids` holds every page id and no Instagram id. */
  ghost predicate Apart<R>(s: Store<R>, listed: seq<Listed>, ids: set<string>) {
    && (forall r :: r in s.states ==> s.states[r].id in ids && s.states[r].Igsid() !in ids)
    && (forall i :: 0 <= i < |listed| ==> listed[i].id in ids && IdOf(listed[i].instagram) !in ids)
  }

  /** The keys of `order` are page ids of `s`, each once. */
  ghost predicate Walks<R>(s: Store<R>, order: seq<string>) {
    && (forall i, j :: 0 <= i < j < |order| ==> order[i] != order[j])
    && (forall i :: 0 <= i < |order| ==> order[i] in s.index && s.index[order[i]] in s.states && s.Main(order[i]))
  }

  /** What has become of the page at main key `k` once the keys of `order` are visited. */
  ghost predicate Progress<R>(s: Store<R>, order: seq<string>, v: Store<R>, listed: seq<Listed>, user: string,
        k: string)
    requires k in s.index && s.index[k] in s.states
  {
    && s.index[k] in v.states
    && v.states[s.index[k]] == (if k in order then Visited(s.At(k), listed, user) else s.At(k))
    && (k in v.index <==> k !in order || Stays(s.At(k), listed, user))
    && (k in v.index ==> v.index[k] == s.index[k])
  }

  lemma VisitApart<R>(s: Store<R>, k: string, listed: seq<Listed>, user: string, ids: set<string>)
    requires Apart(s, listed, ids)
    ensures Apart(Visit(s, k, listed, user), listed, ids)
    ensures forall k2 :: k2 in Visit(s, k, listed, user).index && k2 in ids ==> k2 in s.index
  {
    var info := Find(listed, k);
    if info.Some? {
      var i :| 0 <= i < |listed| && listed[i] == info.value;
    }
  }

  lemma VisitOther<R>(s: Store<R>, v: Store<R>, order: seq<string>, k: string, listed: seq<Listed>, user: string,
        ids: set<string>, k2: string)
    requires Apart(s, listed, ids) && Apart(v, listed, ids)
    requires k in s.index && s.index[k] in s.states && s.Main(k) && k !in order
    requires k2 in s.index && s.index[k2] in s.states && s.Main(k2)
    requires Progress(s, order, v, listed, user, k) && Progress(s, order, v, listed, user, k2)
    ensures Progress(s, order + [k], Visit(v, k, listed, user), listed, user, k2)
  {
    assert s.At(k).id in ids && s.At(k2).id in ids;
    assert v.states[s.index[k]].Igsid() !in ids;
    var info := Find(listed, k);
    if info.Some? {
      var i :| 0 <= i < |listed| && listed[i] == info.value;
    }
  }

  lemma {:induction false} WalkKeeps<R>(s: Store<R>, order: seq<string>, listed: seq<Listed>, user: string,
        ids: set<string>)
    requires s.Keyed() && s.Active() && Apart(s, listed, ids)
    ensures var v := VisitAll(s, order, listed, user);
      && v.Keyed() && v.Active() && Apart(v, listed, ids) && v.states.Keys == s.states.Keys
      && (forall k :: k in v.index && k in ids ==> k in s.index)
  {
    if order != [] {
      var o, k := DropLast(order), order[|order| - 1];
      WalkKeeps(s, o, listed, user, ids);
      VisitKeeps(VisitAll(s, o, listed, user), k, listed, user);
      VisitApart(VisitAll(s, o, listed, user), k, listed, user, ids);
    }
  }

  /** However the walk is ordered, each page's fate depends on that page alone. */
  lemma {:induction false} WalkProgress<R>(s: Store<R>, order: seq<string>, listed: seq<Listed>, user: string,
        ids: set<string>, k: string)
    requires s.Keyed() && s.Active() && Apart(s, listed, ids) && Walks(s, order)
    requires k in s.index && s.Main(k)
    ensures Progress(s, order, VisitAll(s, order, listed, user), listed, user, k)
  {
    if order != [] {
      var o, last := DropLast(order), order[|order| - 1];
      WalkProgress(s, o, listed, user, ids, k);
      WalkProgress(s, o, listed, user, ids, last);
      WalkKeeps(s, o, listed, user, ids);
      LastSplits(order);
      assert last !in o;
      VisitOther(s, VisitAll(s, o, listed, user), o, last, listed, user, ids, k);
    }
  }

  // ----- installing the pages not seen in the walk

  /** Without the first listed page of this id. */
  function TakeOut(listed: seq<Listed>, id: string): seq<Listed> {
    if listed == [] then []
    else if listed[0].id == id then listed[1..]
    else [listed[0]] + TakeOut(listed[1..], id)
  }

  /** The listed pages left after the walk took out those it met. */
  function Remaining(listed: seq<Listed>, order: seq<string>): seq<Listed> {
    if order == [] then listed else TakeOut(Remaining(listed, DropLast(order)), order[|order| - 1])
  }

  /** A page indexed by an id and by its Instagram id. */
  function IndexedBy<R>(m: map<string, R>, id: string, r: R, p: PageState): map<string, R> {
    if p.Igsid() != "" then m[id := r][p.Igsid() := r] else m[id := r]
  }

  function Granted(s: Option<PageState>, info: Listed, user: string): PageState {
    match s
    case Some(p) => p.(accounts := Authorized(p.accounts, Grant(user, info.token)), accessToken := info.token)
    case None => Installed(info, user)
  }

  /** Installs a page, as a new one at `spare` unless its id is indexed. */
  function Install<R(==)>(s: Store<R>, info: Listed, user: string, spare: R): Store<R> {
    var known := info.id in s.index && s.index[info.id] in s.states;
    var r := if known then s.index[info.id] else spare;
    var p := Granted(if known then Some(s.states[r]) else None, info, user);
    Store(IndexedBy(s.index, info.id, r, p), s.states[r := p])
  }

  function InstallAll<R(==)>(s: Store<R>, rest: seq<Listed>, user: string, spare: seq<R>): Store<R>
    requires |spare| == |rest|
  {
    if rest == [] then s
    else Install(InstallAll(s, DropLast(rest), user, DropLast(spare)), rest[|rest| - 1], user, spare[|rest| - 1])
  }

  /** The whole operation: the walk, then the installation of what it did not meet. */
  function SetPages<R(==)>(s: Store<R>, order: seq<string>, listed: seq<Listed>, user: string, spare: seq<R>): Store<R>
    requires |spare| == |Remaining(listed, order)|
  {
    InstallAll(VisitAll(s, order, listed, user), Remaining(listed, order), user, spare)
  }

  lemma HeadSplits<T>(s: seq<T>)
    requires s != []
    ensures s == [s[0]] + s[1..]
  {
  }

  lemma DistinctTail(listed: seq<Listed>)
    requires DistinctIds(listed) && listed != []
    ensures DistinctIds(listed[1..]) && forall x :: x in listed[1..] ==> x.id != listed[0].id
  {
  }

  lemma DistinctCons(x: Listed, listed: seq<Listed>)
    requires DistinctIds(listed) && forall y :: y in listed ==> y.id != x.id
    ensures DistinctIds([x] + listed)
  {
    assert forall i :: 0 <= i < |listed| ==> listed[i] in listed;
  }

  lemma {:induction false} TakeOutMembers(listed: seq<Listed>, id: string)
    requires DistinctIds(listed)
    ensures DistinctIds(TakeOut(listed, id))
    ensures forall x :: x in TakeOut(listed, id) <==> x in listed && x.id != id
  {
    if listed != [] {
      HeadSplits(listed);
      DistinctTail(listed);
      if listed[0].id != id {
        TakeOutMembers(listed[1..], id);
        DistinctCons(listed[0], TakeOut(listed[1..], id));
      }
    }
  }

  lemma {:induction false} RemainingMembers(listed: seq<Listed>, order: seq<string>)
    requires DistinctIds(listed)
    ensures DistinctIds(Remaining(listed, order))
    ensures forall x :: x in Remaining(listed, order) <==> x in listed && x.id !in order
    ensures forall i :: 0 <= i < |Remaining(listed, order)| ==> Remaining(listed, order)[i] in listed
  {
    if order != [] {
      RemainingMembers(listed, DropLast(order));
      TakeOutMembers(Remaining(listed, DropLast(order)), order[|order| - 1]);
      LastSplits(order);
    }
    var r := Remaining(listed, order);
    assert forall i :: 0 <= i < |r| ==> r[i] in r;
  }

  /** Every new page is put at a reference not in use. */
  ghost predicate NewRefs<R>(v: Store<R>, rest: seq<Listed>, user: string, spare: seq<R>)
    requires |spare| == |rest|
  {
    rest != [] ==>
      var z := InstallAll(v, DropLast(rest), user, DropLast(spare));
      NewRefs(v, DropLast(rest), user, DropLast(spare)) &&
      (rest[|rest| - 1].id !in z.index ==> spare[|rest| - 1] !in z.states)
  }

  /** New pages can be installed at `spare`: their ids are neither indexed nor repeated. */
  ghost predicate Installable<R>(v: Store<R>, rest: seq<Listed>, user: string, spare: seq<R>, ids: set<string>) {
    && |spare| == |rest| && v.Keyed() && v.Active() && Apart(v, rest, ids) && DistinctIds(rest) && NewRefs(v, rest, user, spare)
    && (forall i :: 0 <= i < |rest| ==> rest[i].id !in v.index)
  }

  ghost predicate Placed<R>(z: Store<R>, info: Listed, user: string, r: R) {
    info.id in z.index && z.index[info.id] == r && r in z.states && z.states[r] == Installed(info, user)
  }

  /** `z` has every page of `v`. */
  ghost predicate Contains<R>(v: Store<R>, ids: set<string>, z: Store<R>) {
    && (forall k :: k in v.index && k in ids ==> k in z.index && z.index[k] == v.index[k])
    && (forall r :: r in v.states ==> r in z.states && z.states[r] == v.states[r])
  }

  /** `z` has the pages of `v` and, at `spare`, those of `rest`; no other page id is indexed. */
  ghost predicate Extends<R>(v: Store<R>, rest: seq<Listed>, user: string, spare: seq<R>, ids: set<string>, z: Store<R>)
    requires |spare| == |rest|
  {
    && z.Keyed() && z.Active() && Contains(v, ids, z)
    && (forall r :: r in z.states ==> z.states[r].id in ids && z.states[r].Igsid() !in ids)
    && (forall i :: 0 <= i < |rest| ==> Placed(z, rest[i], user, spare[i]))
    && (forall k :: k in z.index && k in ids && k !in v.index ==> k in IdsOf(rest))
  }

  ghost function IdsOf(listed: seq<Listed>): set<string> {
    set i | 0 <= i < |listed| :: listed[i].id
  }

  /** What installing one more page changes. */
  ghost predicate Added<R>(z: Store<R>, info: Listed, user: string, r: R, ids: set<string>, z': Store<R>) {
    && z'.Keyed() && z'.Active() && Contains(z, ids, z') && Placed(z', info, user, r)
    && (forall k :: k in z'.index && k in ids ==> k in z.index || k == info.id)
    && (forall q :: q in z'.states ==> q in z.states || q == r)
  }

  lemma InstallAdds<R>(z: Store<R>, info: Listed, user: string, r: R, ids: set<string>)
    requires z.Keyed() && z.Active() && info.id !in z.index && r !in z.states
    requires info.id in ids && IdOf(info.instagram) !in ids
    requires forall q :: q in z.states ==> z.states[q].id in ids && z.states[q].Igsid() !in ids
    ensures Added(z, info, user, r, ids, Install(z, info, user, r))
  {
  }

  lemma AddedExtends<R>(v: Store<R>, rest: seq<Listed>, user: string, spare: seq<R>, ids: set<string>, z: Store<R>,
        info: Listed, r: R, z': Store<R>)
    requires |spare| == |rest| && Extends(v, rest, user, spare, ids, z) && Added(z, info, user, r, ids, z')
    requires info.id in ids && IdOf(info.instagram) !in ids
    requires forall i :: 0 <= i < |rest| ==> rest[i].id in ids
    ensures Extends(v, rest + [info], user, spare + [r], ids, z')
  {
    IdsOfAppend(rest, info);
    PlacedAppend(rest, user, spare, ids, z, info, r, z');
    forall q | q in z'.states
      ensures z'.states[q].id in ids && z'.states[q].Igsid() !in ids
    {
      if q in z.states {
        assert z'.states[q] == z.states[q];
      }
    }
    forall k | k in z'.index && k in ids && k !in v.index ensures k in IdsOf(rest + [info]) {
      assert k in z.index || k == info.id;
    }
  }

  lemma IdsOfAppend(rest: seq<Listed>, info: Listed)
    ensures IdsOf(rest + [info]) == IdsOf(rest) + {info.id}
  {
    var all := rest + [info];
    assert all[|rest|] == info && forall i :: 0 <= i < |rest| ==> all[i] == rest[i];
  }

  lemma PlacedAppend<R>(rest: seq<Listed>, user: string, spare: seq<R>, ids: set<string>, z: Store<R>, info: Listed,
        r: R, z': Store<R>)
    requires |spare| == |rest| && Contains(z, ids, z') && Placed(z', info, user, r)
    requires forall i :: 0 <= i < |rest| ==> rest[i].id in ids && Placed(z, rest[i], user, spare[i])
    ensures forall i :: 0 <= i < |rest| + 1 ==> Placed(z', (rest + [info])[i], user, (spare + [r])[i])
  {
  }

  lemma InstallableDropLast<R>(v: Store<R>, rest: seq<Listed>, user: string, spare: seq<R>, ids: set<string>)
    requires Installable(v, rest, user, spare, ids) && rest != []
    ensures Installable(v, DropLast(rest), user, DropLast(spare), ids)
    ensures var info := rest[|rest| - 1];
      info.id !in v.index && info.id !in IdsOf(DropLast(rest)) && info.id in ids && IdOf(info.instagram) !in ids
  {
  }

  lemma InstallNext<R>(v: Store<R>, rest: seq<Listed>, user: string, spare: seq<R>, ids: set<string>, z: Store<R>,
        info: Listed, r: R)
    requires |spare| == |rest| && Extends(v, rest, user, spare, ids, z)
    requires info.id !in v.index && info.id !in IdsOf(rest) && info.id in ids && IdOf(info.instagram) !in ids
    requires info.id !in z.index ==> r !in z.states
    requires forall i :: 0 <= i < |rest| ==> rest[i].id in ids
    ensures Extends(v, rest + [info], user, spare + [r], ids, Install(z, info, user, r))
  {
    InstallAdds(z, info, user, r, ids);
    AddedExtends(v, rest, user, spare, ids, z, info, r, Install(z, info, user, r));
  }

  lemma {:induction false} InstallAllExtends<R>(v: Store<R>, rest: seq<Listed>, user: string, spare: seq<R>,
        ids: set<string>)
    requires Installable(v, rest, user, spare, ids)
    ensures Extends(v, rest, user, spare, ids, InstallAll(v, rest, user, spare))
  {
    if rest != [] {
      var rest', spare', info, r := DropLast(rest), DropLast(spare), rest[|rest| - 1], spare[|rest| - 1];
      InstallableDropLast(v, rest, user, spare, ids);
      InstallAllExtends(v, rest', user, spare', ids);
      InstallNext(v, rest', user, spare', ids, InstallAll(v, rest', user, spare'), info, r);
      LastSplits(rest);
      LastSplits(spare);
    }
  }

  // ----- what every operation keeps

  lemma {:induction false} VisitAllKeeps<R>(s: Store<R>, order: seq<string>, listed: seq<Listed>, user: string)
    requires s.Keyed() && s.Active()
    ensures var v := VisitAll(s, order, listed, user); v.Keyed() && v.Active() && v.states.Keys == s.states.Keys
  {
    if order != [] {
      VisitAllKeeps(s, DropLast(order), listed, user);
      VisitKeeps(VisitAll(s, DropLast(order), listed, user), order[|order| - 1], listed, user);
    }
  }

  lemma {:induction false} InstallAllKeeps<R>(s: Store<R>, rest: seq<Listed>, user: string, spare: seq<R>)
    requires |spare| == |rest| && s.Keyed() && s.Active() && NewRefs(s, rest, user, spare)
    ensures InstallAll(s, rest, user, spare).Keyed() && InstallAll(s, rest, user, spare).Active()
  {
    if rest != [] {
      InstallAllKeeps(s, DropLast(rest), user, DropLast(spare));
      InstallKeeps(InstallAll(s, DropLast(rest), user, DropLast(spare)), rest[|rest| - 1], user, spare[|rest| - 1]);
    }
  }

  lemma InstallKeeps<R>(s: Store<R>, info: Listed, user: string, r: R)
    requires s.Keyed() && s.Active() && (info.id !in s.index ==> r !in s.states)
    ensures Install(s, info, user, r).Keyed() && Install(s, info, user, r).Active()
  {
  }

  /** Whatever ids collide, every index key stays its page's id or Instagram id, and every token in use the first grant's. */
  lemma SetPagesKeeps<R>(s: Store<R>, order: seq<string>, listed: seq<Listed>, user: string, spare: seq<R>)
    requires s.Keyed() && s.Active() && |spare| == |Remaining(listed, order)|
    requires NewRefs(VisitAll(s, order, listed, user), Remaining(listed, order), user, spare)
    ensures SetPages(s, order, listed, user, spare).Keyed() && SetPages(s, order, listed, user, spare).Active()
  {
    VisitAllKeeps(s, order, listed, user);
    InstallAllKeeps(VisitAll(s, order, listed, user), Remaining(listed, order), user, spare);
  }

  lemma {:induction false} FindOther(listed: seq<Listed>, id: string, k: string)
    requires k != id
    ensures Find(TakeOut(listed, id), k) == Find(listed, k)
  {
    if listed != [] {
      FindOther(listed[1..], id, k);
      if listed[0].id != id {
        assert ([listed[0]] + TakeOut(listed[1..], id))[1..] == TakeOut(listed[1..], id);
      }
    }
  }

  lemma {:induction false} FindRemaining(listed: seq<Listed>, order: seq<string>, k: string)
    requires k !in order
    ensures Find(Remaining(listed, order), k) == Find(listed, k)
  {
    if order != [] {
      FindRemaining(listed, DropLast(order), k);
      FindOther(Remaining(listed, DropLast(order)), order[|order| - 1], k);
    }
  }

  // ----- the outcome, for every order of the walk

  /** A walk that meets every page id. */
  ghost predicate CompleteWalk<R>(s: Store<R>, order: seq<string>) {
    Walks(s, order) && forall k :: k in s.index && s.index[k] in s.states && s.Main(k) ==> k in order
  }

  /** What a listed page is after the operation. */
  function ListedState<R>(s: Store<R>, info: Listed, user: string): PageState
    requires info.id in s.index ==> s.index[info.id] in s.states
  {
    if info.id in s.index then Refreshed(s.At(info.id), info, user) else Installed(info, user)
  }

  lemma KeysMet<R>(s: Store<R>, order: seq<string>, listed: seq<Listed>, ids: set<string>)
    requires s.Keyed() && Apart(s, listed, ids) && CompleteWalk(s, order)
    ensures forall k :: k in s.index && k in ids ==> s.Main(k) && k in order
    ensures forall info :: info in listed ==> (info.id in order <==> info.id in s.index)
  {
    forall k | k in s.index && k in ids ensures s.Main(k) && k in order {
      assert KeyOf(k, s.states[s.index[k]]);
    }
    forall info | info in listed ensures info.id in order <==> info.id in s.index {
      var i :| 0 <= i < |listed| && listed[i] == info;
      if info.id in order {
        var j :| 0 <= j < |order| && order[j] == info.id;
      }
    }
  }

  lemma AfterWalk<R>(s: Store<R>, order: seq<string>, listed: seq<Listed>, user: string, spare: seq<R>,
        ids: set<string>)
    requires s.Keyed() && s.Active() && Apart(s, listed, ids) && CompleteWalk(s, order) && DistinctIds(listed)
    requires |spare| == |Remaining(listed, order)| && NewRefs(VisitAll(s, order, listed, user), Remaining(listed, order), user, spare)
    ensures Installable(VisitAll(s, order, listed, user), Remaining(listed, order), user, spare, ids)
    ensures forall k :: k in s.index && k in ids ==> s.Main(k) && k in order
    ensures forall info :: info in Remaining(listed, order) <==> info in listed && info.id !in s.index
  {
    WalkKeeps(s, order, listed, user, ids);
    RemainingMembers(listed, order);
    KeysMet(s, order, listed, ids);
  }

  /** A page that was there: it lost or renewed this user's grant, and stays exactly when it is listed or another grant is left. */
  ghost predicate OldPage<R>(s: Store<R>, listed: seq<Listed>, user: string, z: Store<R>, k: string)
    requires k in s.index && s.index[k] in s.states
  {
    && s.index[k] in z.states && z.states[s.index[k]] == Visited(s.At(k), listed, user)
    && (k in z.index <==> Stays(s.At(k), listed, user))
    && (k in z.index ==> z.index[k] == s.index[k])
  }

  /** The operation's hypotheses: one page per listed id, ids told apart, every page id met by the walk. */
  ghost predicate Given<R>(s: Store<R>, order: seq<string>, listed: seq<Listed>, user: string, spare: seq<R>,
        ids: set<string>) {
    && s.Keyed() && s.Active() && Apart(s, listed, ids) && CompleteWalk(s, order) && DistinctIds(listed)
    && |spare| == |Remaining(listed, order)| && NewRefs(VisitAll(s, order, listed, user), Remaining(listed, order), user, spare)
  }

  lemma OldPageOutcome<R>(s: Store<R>, order: seq<string>, listed: seq<Listed>, user: string, spare: seq<R>,
        ids: set<string>, k: string)
    requires Given(s, order, listed, user, spare, ids) && k in s.index && s.Main(k)
    ensures OldPage(s, listed, user, SetPages(s, order, listed, user, spare), k)
  {
    var v, rest := VisitAll(s, order, listed, user), Remaining(listed, order);
    AfterWalk(s, order, listed, user, spare, ids);
    WalkKeeps(s, order, listed, user, ids);
    InstallAllExtends(v, rest, user, spare, ids);
    WalkProgress(s, order, listed, user, ids, k);
    assert k in ids && k in order;
    assert k !in IdsOf(rest);
  }

  lemma ListedPageOutcome<R>(s: Store<R>, order: seq<string>, listed: seq<Listed>, user: string, spare: seq<R>,
        ids: set<string>, i: nat)
    requires Given(s, order, listed, user, spare, ids) && i < |listed|
    ensures var z := SetPages(s, order, listed, user, spare);
      listed[i].id in z.index && z.index[listed[i].id] in z.states && z.At(listed[i].id) == ListedState(s, listed[i], user)
  {
    var v, rest := VisitAll(s, order, listed, user), Remaining(listed, order);
    FindDistinct(listed, i);
    AfterWalk(s, order, listed, user, spare, ids);
    if listed[i].id in s.index {
      assert listed[i].id in ids;
      OldPageOutcome(s, order, listed, user, spare, ids, listed[i].id);
    } else {
      InstallAllExtends(v, rest, user, spare, ids);
      assert listed[i] in rest;
      var j :| 0 <= j < |rest| && rest[j] == listed[i];
      assert Placed(InstallAll(v, rest, user, spare), rest[j], user, spare[j]);
    }
  }

  /**
   For any order of the walk: every listed page is installed, with this user's new
   token first and active; every other page that is indexed by its own id loses this
   user's grant, and stays indexed by it exactly when another grant is left; no further
   page appears.
   */
  lemma SetPagesOutcome<R>(s: Store<R>, order: seq<string>, listed: seq<Listed>, user: string, spare: seq<R>,
        ids: set<string>)
    requires Given(s, order, listed, user, spare, ids)
    ensures var z := SetPages(s, order, listed, user, spare);
      && z.Keyed() && z.Active()
      && (forall i :: 0 <= i < |listed| ==> listed[i].id in z.index && z.At(listed[i].id) == ListedState(s, listed[i], user))
      && (forall k :: k in s.index && s.Main(k) ==> OldPage(s, listed, user, z, k))
      && (forall k :: k in z.index && k in ids && k !in s.index ==> k in IdsOf(listed))
  {
    var v, rest := VisitAll(s, order, listed, user), Remaining(listed, order);
    var z := SetPages(s, order, listed, user, spare);
    AfterWalk(s, order, listed, user, spare, ids);
    WalkKeeps(s, order, listed, user, ids);
    InstallAllExtends(v, rest, user, spare, ids);
    forall k | k in s.index && s.Main(k) ensures OldPage(s, listed, user, z, k) {
      OldPageOutcome(s, order, listed, user, spare, ids, k);
    }
    forall i | 0 <= i < |listed| ensures listed[i].id in z.index && z.At(listed[i].id) == ListedState(s, listed[i], user) {
      ListedPageOutcome(s, order, listed, user, spare, ids, i);
    }
    assert IdsOf(rest) <= IdsOf(listed) by {
      forall i | 0 <= i < |rest| ensures rest[i].id in IdsOf(listed) {
        assert rest[i] in listed;
      }
    }
  }

  lemma {:induction false} FindDistinct(listed: seq<Listed>, i: nat)
    requires DistinctIds(listed) && i < |listed|
    ensures Find(listed, listed[i].id) == Some(listed[i])
  {
    if i > 0 {
      assert listed[0].id != listed[i].id;
      FindDistinct(listed[1..], i - 1);
    }
  }

  /** All grants of the store are sound: one user per token, one grant per user. */
  ghost predicate SoundGrants<R>(owner: string -> string, s: Store<R>) {
    forall r :: r in s.states ==> Sound(owner, s.states[r].accounts)
  }

  ghost predicate TokensOf(owner: string -> string, listed: seq<Listed>, user: string) {
    forall i :: 0 <= i < |listed| ==> listed[i].token != "" && owner(listed[i].token) == user
  }

  ghost predicate SoundListing(owner: string -> string, listed: seq<Listed>, user: string) {
    user != "" && TokensOf(owner, listed, user)
  }

  lemma VisitedGrants(owner: string -> string, p: PageState, listed: seq<Listed>, user: string)
    requires p.Active() && Sound(owner, p.accounts) && SoundListing(owner, listed, user)
    ensures var q := Visited(p, listed, user);
      && q.Active() && Sound(owner, q.accounts)
      && match Find(listed, p.id)
         case Some(info) => q.accounts == [Grant(user, info.token)] + OthersOf(p.accounts, user)
         case None => q.accounts == OthersOf(p.accounts, user) && (Stays(p, listed, user) <==> q.accounts != [])
  {
    WithdrawnIsActive(p, user);
    match Find(listed, p.id) {
      case Some(info) =>
        var i :| 0 <= i < |listed| && listed[i] == info;
        var t := Grant(user, info.token);
        AuthorizeKeepsSound(owner, p.accounts, t);
        FirstEqualIsFirstOf(owner, p.accounts, t);
        DeauthorizeKeepsSound(owner, p.accounts, user);
      case None =>
        DeauthorizeKeepsSound(owner, p.accounts, user);
    }
  }

  /**
   The same in terms of grants: on a listed page this user's new grant comes first
   and the others keep their order; on any other page just this user's grant goes,
   and the page is deleted exactly when nobody else had one.
   */
  lemma SetPagesGrants<R>(owner: string -> string, s: Store<R>, order: seq<string>, listed: seq<Listed>, user: string,
                          spare: seq<R>, ids: set<string>, k: string)
    requires Given(s, order, listed, user, spare, ids) && SoundGrants(owner, s) && SoundListing(owner, listed, user)
    requires k in s.index && s.Main(k)
    ensures var z := SetPages(s, order, listed, user, spare);
      var others := OthersOf(s.At(k).accounts, user);
      && s.index[k] in z.states
      && match Find(listed, k)
         case Some(info) =>
           && k in z.index && z.index[k] == s.index[k]
           && z.At(k).accounts == [Grant(user, info.token)] + others && z.At(k).accessToken == info.token
         case None =>
           && z.states[s.index[k]].accounts == others
           && (k in z.index <==> others != [])
           && (k in z.index ==> z.index[k] == s.index[k])
  {
    OldPageOutcome(s, order, listed, user, spare, ids, k);
    VisitedGrants(owner, s.At(k), listed, user);
  }
}
