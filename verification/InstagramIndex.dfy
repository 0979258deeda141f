/** When every page with an Instagram account is indexed by it. */
module InstagramIndex {
  import opened Wrappers
  import opened Sequences
  import opened Grants
  import opened PageStore

  /** Every indexed page is indexed by its own id. */
  ghost predicate Coherent<R>(s: Store<R>) {
    forall k :: k in s.index && s.index[k] in s.states ==>
      s.states[s.index[k]].id in s.index && s.index[s.states[s.index[k]].id] == s.index[k]
  }

  /** The page at `k` is indexed by its Instagram id. */
  predicate Indexed<R(==)>(s: Store<R>, k: string)
    requires k in s.index && s.index[k] in s.states
  {
    s.At(k).Igsid() in s.index && s.index[s.At(k).Igsid()] == s.index[k]
  }

  /** `k` is the id of an indexed page. */
  predicate IsPage<R>(s: Store<R>, k: string) {
    k in s.index && s.index[k] in s.states && s.Main(k)
  }

  ghost predicate AllIndexed<R>(s: Store<R>) {
    forall k :: IsPage(s, k) && s.At(k).Igsid() != "" ==> Indexed(s, k)
  }

  /** The listing gives a page another Instagram account than the one it has. */
  predicate Swaps(p: PageState, listed: seq<Listed>) {
    var info := Find(listed, p.id);
    info.Some? && p.Igsid() != "" && IdOf(info.value.instagram) != "" && p.Igsid() != IdOf(info.value.instagram)
  }

  /** The listing gives an account to a page that has none. */
  predicate Gains(p: PageState, listed: seq<Listed>) {
    var info := Find(listed, p.id);
    info.Some? && p.Igsid() == "" && IdOf(info.value.instagram) != ""
  }

  // ----- what a walk does to one Instagram key

  datatype Act = Keeps | Sets | Clears

  /** What the visit of a page does to an Instagram key. */
  function ActOn(p: PageState, listed: seq<Listed>, user: string, x: string): Act {
    match Find(listed, p.id)
    case Some(info) =>
      if p.Igsid() == "" then if IdOf(info.instagram) == x then Sets else Keeps
      else if p.Igsid() == x && IdOf(info.instagram) != x then Clears
      else Keeps
    case None => if p.Igsid() == x && !Stays(p, listed, user) then Clears else Keeps
  }

  function Look<R>(m: map<string, R>, x: string): Option<R> {
    if x in m then Some(m[x]) else None
  }

  lemma VisitActs<R>(v: Store<R>, k: string, listed: seq<Listed>, user: string, ids: set<string>, x: string)
    requires Apart(v, listed, ids) && IsPage(v, k) && x != "" && x !in ids
    ensures Look(Visit(v, k, listed, user).index, x) ==
      match ActOn(v.At(k), listed, user, x)
      case Keeps => Look(v.index, x)
      case Sets => Some(v.index[k])
      case Clears => None
  {
    assert v.At(k).id in ids;
  }

  predicate Pages<R>(s: Store<R>, order: seq<string>) {
    forall i :: 0 <= i < |order| ==> order[i] in s.index && s.index[order[i]] in s.states && s.Main(order[i])
  }

  /** The page that a key leads to after a walk: that of the last visit that set it, unless a later one cleared it. */
  function Holder<R>(s: Store<R>, order: seq<string>, listed: seq<Listed>, user: string, x: string): Option<R>
    requires Pages(s, order)
  {
    if order == [] then Look(s.index, x)
    else
      var k := order[|order| - 1];
      match ActOn(s.At(k), listed, user, x)
      case Keeps => Holder(s, DropLast(order), listed, user, x)
      case Sets => Some(s.index[k])
      case Clears => None
  }

  lemma {:induction false} WalkHolder<R>(s: Store<R>, order: seq<string>, listed: seq<Listed>, user: string, ids: set<string>, x: string)
    requires s.Keyed() && s.Active() && Apart(s, listed, ids) && Walks(s, order) && x != "" && x !in ids
    ensures Look(VisitAll(s, order, listed, user).index, x) == Holder(s, order, listed, user, x)
  {
    if order != [] {
      var o, k := DropLast(order), order[|order| - 1];
      var v := VisitAll(s, o, listed, user);
      WalkHolder(s, o, listed, user, ids, x);
      WalkProgress(s, o, listed, user, ids, k);
      WalkKeeps(s, o, listed, user, ids);
      LastSplits(order);
      assert k !in o;
      VisitActs(v, k, listed, user, ids, x);
    }
  }

  ghost predicate AllKeep<R>(s: Store<R>, order: seq<string>, listed: seq<Listed>, user: string, x: string)
    requires Pages(s, order)
  {
    forall i :: 0 <= i < |order| ==> ActOn(s.At(order[i]), listed, user, x) == Keeps
  }

  /** The visit of `k`, at place `i`, is the last to act on the key, and sets it. */
  ghost predicate SetLast<R>(s: Store<R>, order: seq<string>, listed: seq<Listed>, user: string, x: string, k: string, i: int)
    requires Pages(s, order)
  {
    && 0 <= i < |order| && order[i] == k && ActOn(s.At(k), listed, user, x) == Sets
    && forall j :: i < j < |order| ==> ActOn(s.At(order[j]), listed, user, x) == Keeps
  }

  lemma SetLastNext<R>(s: Store<R>, order: seq<string>, listed: seq<Listed>, user: string, x: string, k: string)
    requires Pages(s, order) && order != []
    ensures var n := |order| - 1; var act := ActOn(s.At(order[n]), listed, user, x);
      && (AllKeep(s, order, listed, user, x) <==> AllKeep(s, DropLast(order), listed, user, x) && act == Keeps)
      && forall i :: SetLast(s, order, listed, user, x, k, i) <==>
           if i == n then order[n] == k && act == Sets else SetLast(s, DropLast(order), listed, user, x, k, i) && act == Keeps
  {
    var o, n := DropLast(order), |order| - 1;
    assert forall i :: 0 <= i < n ==> o[i] == order[i];
  }

  /** A walk leaves a key leading to a page exactly when no visit acted on it and it led there, or the page's visit was the last to act. */
  lemma {:induction false} HolderIs<R>(s: Store<R>, order: seq<string>, listed: seq<Listed>, user: string, x: string, k: string)
    requires Pages(s, order) && IsPage(s, k)
    ensures Holder(s, order, listed, user, x) == Some(s.index[k]) <==>
      || (AllKeep(s, order, listed, user, x) && Look(s.index, x) == Some(s.index[k]))
      || exists i :: SetLast(s, order, listed, user, x, k, i)
  {
    if order != [] {
      var n := |order| - 1;
      HolderIs(s, DropLast(order), listed, user, x, k);
      SetLastNext(s, order, listed, user, x, k);
      assert s.index[order[n]] == s.index[k] <==> order[n] == k;
      assert SetLast(s, order, listed, user, x, k, n) <==> order[n] == k && ActOn(s.At(order[n]), listed, user, x) == Sets;
    }
  }

  // ----- what the installation does to one Instagram key

  /** The last page installed with an account is the one that it leads to. */
  function Latest<R>(rest: seq<Listed>, spare: seq<R>, x: string, was: Option<R>): Option<R>
    requires |spare| == |rest|
  {
    if rest == [] then was
    else if IdOf(rest[|rest| - 1].instagram) == x then Some(spare[|rest| - 1])
    else Latest(DropLast(rest), DropLast(spare), x, was)
  }

  /** A page that is installed as a new one sets just its own two keys. */
  lemma InstallLooks<R>(z: Store<R>, info: Listed, user: string, r: R, x: string)
    requires info.id !in z.index && x != info.id && x != ""
    ensures Look(Install(z, info, user, r).index, x) == if IdOf(info.instagram) == x then Some(r) else Look(z.index, x)
  {
  }

  lemma NotYetInstalled<R>(v: Store<R>, rest: seq<Listed>, user: string, spare: seq<R>, ids: set<string>)
    requires Installable(v, rest, user, spare, ids) && rest != []
    ensures rest[|rest| - 1].id !in InstallAll(v, DropLast(rest), user, DropLast(spare)).index && rest[|rest| - 1].id in ids
  {
    InstallableDropLast(v, rest, user, spare, ids);
    InstallAllExtends(v, DropLast(rest), user, DropLast(spare), ids);
  }

  lemma {:induction false} InstallLatest<R>(v: Store<R>, rest: seq<Listed>, user: string, spare: seq<R>, ids: set<string>, x: string)
    requires Installable(v, rest, user, spare, ids) && x != "" && x !in ids
    ensures Look(InstallAll(v, rest, user, spare).index, x) == Latest(rest, spare, x, Look(v.index, x))
  {
    if rest != [] {
      InstallableDropLast(v, rest, user, spare, ids);
      var n := |rest| - 1;
      InstallLatest(v, DropLast(rest), user, DropLast(spare), ids, x);
      NotYetInstalled(v, rest, user, spare, ids);
      InstallLooks(InstallAll(v, DropLast(rest), user, DropLast(spare)), rest[n], user, spare[n], x);
    }
  }

  lemma {:induction false} LatestIs<R>(rest: seq<Listed>, spare: seq<R>, x: string, was: Option<R>)
    requires |spare| == |rest|
    ensures (forall i :: 0 <= i < |rest| ==> IdOf(rest[i].instagram) != x) ==> Latest(rest, spare, x, was) == was
    ensures (exists i :: 0 <= i < |rest| && IdOf(rest[i].instagram) == x) ==>
      exists i :: 0 <= i < |rest| && IdOf(rest[i].instagram) == x && Latest(rest, spare, x, was) == Some(spare[i])
  {
    if rest != [] {
      var n := |rest| - 1;
      LatestIs(DropLast(rest), DropLast(spare), x, was);
      assert forall i :: 0 <= i < n ==> DropLast(rest)[i] == rest[i] && DropLast(spare)[i] == spare[i];
    }
  }

  // ----- after the whole operation

  lemma RestAccounts<R>(s: Store<R>, order: seq<string>, listed: seq<Listed>, user: string, spare: seq<R>, ids: set<string>)
    requires Given(s, order, listed, user, spare, ids)
    ensures var rest := Remaining(listed, order); forall i :: 0 <= i < |rest| ==>
      && rest[i] in listed && rest[i].id in ids && rest[i].id !in s.index && IdOf(rest[i].instagram) !in ids
      && Placed(SetPages(s, order, listed, user, spare), rest[i], user, spare[i])
  {
    var rest := Remaining(listed, order);
    AfterWalk(s, order, listed, user, spare, ids);
    RemainingMembers(listed, order);
    InstallAllExtends(VisitAll(s, order, listed, user), rest, user, spare, ids);
    forall i | 0 <= i < |rest|
      ensures rest[i] in listed && rest[i].id in ids && rest[i].id !in s.index && IdOf(rest[i].instagram) !in ids
    {
      assert rest[i] in rest;
      var j :| 0 <= j < |listed| && listed[j] == rest[i];
    }
  }

  ghost predicate Nobody(rest: seq<Listed>, x: string) {
    forall i :: 0 <= i < |rest| ==> IdOf(rest[i].instagram) != x
  }

  /** A page that was there and stays is indexed by its account exactly when no new page has it, and the walk left the account leading to it. */
  lemma OldIndexed<R>(s: Store<R>, order: seq<string>, listed: seq<Listed>, user: string, spare: seq<R>, ids: set<string>, k: string)
    requires Given(s, order, listed, user, spare, ids) && IsPage(s, k) && Stays(s.At(k), listed, user)
    requires Visited(s.At(k), listed, user).Igsid() != ""
    ensures var z := SetPages(s, order, listed, user, spare);
      var x := Visited(s.At(k), listed, user).Igsid();
      && IsPage(z, k) && z.index[k] == s.index[k] && z.At(k).Igsid() == x && x !in ids
      && (Indexed(z, k) <==> Nobody(Remaining(listed, order), x) && Holder(s, order, listed, user, x) == Some(s.index[k]))
  {
    var v, rest := VisitAll(s, order, listed, user), Remaining(listed, order);
    var z, x := SetPages(s, order, listed, user, spare), Visited(s.At(k), listed, user).Igsid();
    OldPageOutcome(s, order, listed, user, spare, ids, k);
    AfterWalk(s, order, listed, user, spare, ids);
    RestAccounts(s, order, listed, user, spare, ids);
    InstallAllExtends(v, rest, user, spare, ids);
    assert x == z.states[z.index[k]].Igsid() && x !in ids;
    WalkHolder(s, order, listed, user, ids, x);
    InstallLatest(v, rest, user, spare, ids, x);
    LatestIs(rest, spare, x, Look(v.index, x));
    if !Nobody(rest, x) {
      var i :| 0 <= i < |rest| && IdOf(rest[i].instagram) == x && Latest(rest, spare, x, Look(v.index, x)) == Some(spare[i]);
      assert z.states[spare[i]].id == rest[i].id != k;
    }
  }

  lemma NewIndexed<R>(s: Store<R>, order: seq<string>, listed: seq<Listed>, user: string, spare: seq<R>, ids: set<string>, i: nat)
    requires Given(s, order, listed, user, spare, ids) && i < |Remaining(listed, order)|
    requires var rest := Remaining(listed, order); var x := IdOf(rest[i].instagram);
      x != "" && forall j :: 0 <= j < |rest| && j != i ==> IdOf(rest[j].instagram) != x
    ensures var z := SetPages(s, order, listed, user, spare);
      IsPage(z, Remaining(listed, order)[i].id) && Indexed(z, Remaining(listed, order)[i].id)
  {
    var v, rest := VisitAll(s, order, listed, user), Remaining(listed, order);
    var x := IdOf(rest[i].instagram);
    AfterWalk(s, order, listed, user, spare, ids);
    RestAccounts(s, order, listed, user, spare, ids);
    InstallLatest(v, rest, user, spare, ids, x);
    LatestIs(rest, spare, x, Look(v.index, x));
  }

  // ----- when every account is indexed

  /** No two pages have one account after the listing: listed pages, and those that stay though they are not listed. */
  ghost predicate Apiece<R>(s: Store<R>, listed: seq<Listed>, user: string) {
    && (forall i, j :: 0 <= i < j < |listed| && IdOf(listed[i].instagram) != "" ==>
          IdOf(listed[i].instagram) != IdOf(listed[j].instagram))
    && (forall i, o :: 0 <= i < |listed| && IdOf(listed[i].instagram) != "" && IsPage(s, o) && Remains(s.At(o), listed, user) ==>
          IdOf(listed[i].instagram) != s.At(o).Igsid())
  }

  predicate Remains(p: PageState, listed: seq<Listed>, user: string) {
    Find(listed, p.id).None? && Stays(p, listed, user)
  }

  ghost predicate NoSwaps<R>(s: Store<R>, listed: seq<Listed>) {
    forall k :: IsPage(s, k) ==> !Swaps(s.At(k), listed)
  }

  /** Page `k`, which had no account, is given the one of page `o`. */
  predicate Gets<R>(s: Store<R>, k: string, o: string, listed: seq<Listed>, user: string)
    requires IsPage(s, k) && IsPage(s, o)
  {
    Gains(s.At(k), listed) && Visited(s.At(k), listed, user).Igsid() == s.At(o).Igsid()
  }

  /** Nothing is in the way of indexing every account, for this order of the walk: a page that gets the account of another is visited after it. */
  ghost predicate ClearFor<R>(s: Store<R>, order: seq<string>, listed: seq<Listed>, user: string)
    requires Pages(s, order)
  {
    && Apiece(s, listed, user) && NoSwaps(s, listed)
    && forall i, j :: 0 <= i < j < |order| ==> !Gets(s, order[i], order[j], listed, user)
  }

  /** Nothing is in the way for any order: no page that was there gets the account of another. */
  ghost predicate Clear<R>(s: Store<R>, listed: seq<Listed>, user: string) {
    && Apiece(s, listed, user) && NoSwaps(s, listed)
    && forall k, o :: IsPage(s, k) && IsPage(s, o) ==> !Gets(s, k, o, listed, user)
  }

  lemma FindIs(listed: seq<Listed>, id: string) returns (i: nat)
    requires Find(listed, id).Some?
    ensures i < |listed| && Find(listed, id) == Some(listed[i]) && listed[i].id == id
  {
    var info := Find(listed, id).value;
    i :| i < |listed| && listed[i] == info;
  }

  /** Only the page itself sets its account, and only the page that had it clears it. */
  lemma ActsOnAccount<R>(s: Store<R>, listed: seq<Listed>, user: string, k: string, q: string, x: string)
    requires AllIndexed(s) && Apiece(s, listed, user) && IsPage(s, k) && IsPage(s, q) && q != k
    requires Stays(s.At(k), listed, user) && x == Visited(s.At(k), listed, user).Igsid() != ""
    ensures ActOn(s.At(q), listed, user, x) != Sets
    ensures ActOn(s.At(q), listed, user, x) == Clears ==> s.At(q).Igsid() == x && s.At(k).Igsid() != x
  {
    if ActOn(s.At(q), listed, user, x) == Sets {
      var i := FindIs(listed, q);
      if Find(listed, k).Some? {
        var j := FindIs(listed, k);
      }
      assert false;
    }
    assert s.At(k).Igsid() == x ==> Indexed(s, k);
    assert s.At(q).Igsid() == x ==> Indexed(s, q);
  }

  lemma ActsElsewhere<R>(s: Store<R>, order: seq<string>, listed: seq<Listed>, user: string, n: nat, x: string)
    requires Walks(s, order) && n < |order| && AllIndexed(s) && Apiece(s, listed, user)
    requires Stays(s.At(order[n]), listed, user) && x == Visited(s.At(order[n]), listed, user).Igsid() != ""
    ensures forall j :: 0 <= j < |order| && j != n ==>
      var act := ActOn(s.At(order[j]), listed, user, x);
      act != Sets && (act == Clears ==> s.At(order[j]).Igsid() == x && s.At(order[n]).Igsid() != x)
  {
    forall j | 0 <= j < |order| && j != n
      ensures ActOn(s.At(order[j]), listed, user, x) != Sets
      ensures ActOn(s.At(order[j]), listed, user, x) == Clears ==> s.At(order[j]).Igsid() == x && s.At(order[n]).Igsid() != x
    {
      ActsOnAccount(s, listed, user, order[n], order[j], x);
    }
  }

  lemma GainedIsSetLast<R>(s: Store<R>, order: seq<string>, listed: seq<Listed>, user: string, n: nat, x: string)
    requires Walks(s, order) && n < |order| && AllIndexed(s) && ClearFor(s, order, listed, user)
    requires Stays(s.At(order[n]), listed, user) && x == Visited(s.At(order[n]), listed, user).Igsid() != "" && s.At(order[n]).Igsid() != x
    ensures SetLast(s, order, listed, user, x, order[n], n)
  {
    ActsElsewhere(s, order, listed, user, n, x);
    assert !Swaps(s.At(order[n]), listed) && Gains(s.At(order[n]), listed);
    forall j | n < j < |order| ensures ActOn(s.At(order[j]), listed, user, x) == Keeps {
      assert !Gets(s, order[n], order[j], listed, user);
    }
  }

  lemma HoldsOld<R>(s: Store<R>, order: seq<string>, listed: seq<Listed>, user: string, spare: seq<R>, ids: set<string>, k: string)
    requires Given(s, order, listed, user, spare, ids) && AllIndexed(s) && ClearFor(s, order, listed, user)
    requires IsPage(s, k) && Stays(s.At(k), listed, user) && Visited(s.At(k), listed, user).Igsid() != ""
    ensures Holder(s, order, listed, user, Visited(s.At(k), listed, user).Igsid()) == Some(s.index[k])
  {
    var x := Visited(s.At(k), listed, user).Igsid();
    var n :| 0 <= n < |order| && order[n] == k;
    ActsElsewhere(s, order, listed, user, n, x);
    if s.At(k).Igsid() == x {
      assert AllKeep(s, order, listed, user, x) && Indexed(s, k);
    } else {
      GainedIsSetLast(s, order, listed, user, n, x);
    }
    HolderIs(s, order, listed, user, x, k);
  }

  lemma NobodyElse<R>(s: Store<R>, order: seq<string>, listed: seq<Listed>, user: string, spare: seq<R>, ids: set<string>, k: string)
    requires Given(s, order, listed, user, spare, ids) && Apiece(s, listed, user)
    requires IsPage(s, k) && Stays(s.At(k), listed, user) && Visited(s.At(k), listed, user).Igsid() != ""
    ensures Nobody(Remaining(listed, order), Visited(s.At(k), listed, user).Igsid())
  {
    var rest, x := Remaining(listed, order), Visited(s.At(k), listed, user).Igsid();
    RestAccounts(s, order, listed, user, spare, ids);
    forall i | 0 <= i < |rest| ensures IdOf(rest[i].instagram) != x {
      var j :| 0 <= j < |listed| && listed[j] == rest[i];
      if Find(listed, k).Some? {
        var l := FindIs(listed, k);
        assert l != j;
      }
    }
  }

  lemma ClearIndexesOld<R>(s: Store<R>, order: seq<string>, listed: seq<Listed>, user: string, spare: seq<R>, ids: set<string>, k: string)
    requires Given(s, order, listed, user, spare, ids) && AllIndexed(s) && ClearFor(s, order, listed, user)
    requires IsPage(s, k) && Stays(s.At(k), listed, user) && Visited(s.At(k), listed, user).Igsid() != ""
    ensures IsPage(SetPages(s, order, listed, user, spare), k) && Indexed(SetPages(s, order, listed, user, spare), k)
  {
    HoldsOld(s, order, listed, user, spare, ids, k);
    NobodyElse(s, order, listed, user, spare, ids, k);
    OldIndexed(s, order, listed, user, spare, ids, k);
  }

  lemma ClearIndexesNew<R>(s: Store<R>, order: seq<string>, listed: seq<Listed>, user: string, spare: seq<R>, ids: set<string>, i: nat)
    requires Given(s, order, listed, user, spare, ids) && Apiece(s, listed, user)
    requires i < |Remaining(listed, order)| && IdOf(Remaining(listed, order)[i].instagram) != ""
    ensures var z := SetPages(s, order, listed, user, spare);
      IsPage(z, Remaining(listed, order)[i].id) && Indexed(z, Remaining(listed, order)[i].id)
  {
    RestIsApiece(s, order, listed, user);
    NewIndexed(s, order, listed, user, spare, ids, i);
  }

  lemma ClearIndexes<R>(s: Store<R>, order: seq<string>, listed: seq<Listed>, user: string, spare: seq<R>, ids: set<string>)
    requires Given(s, order, listed, user, spare, ids) && AllIndexed(s) && ClearFor(s, order, listed, user)
    ensures AllIndexed(SetPages(s, order, listed, user, spare))
  {
    var z := SetPages(s, order, listed, user, spare);
    forall k | IsPage(z, k) && z.At(k).Igsid() != "" ensures Indexed(z, k) {
      PageAfter(s, order, listed, user, spare, ids, k);
      if k in s.index {
        ClearIndexesOld(s, order, listed, user, spare, ids, k);
      } else {
        var i :| IsNewAt(s, order, listed, user, z, k, i);
        ClearIndexesNew(s, order, listed, user, spare, ids, i);
      }
    }
  }

  ghost predicate IsNewAt<R>(s: Store<R>, order: seq<string>, listed: seq<Listed>, user: string, z: Store<R>, k: string, i: nat)
    requires IsPage(z, k)
  {
    var rest := Remaining(listed, order);
    i < |rest| && rest[i].id == k && z.At(k) == Installed(rest[i], user)
  }

  lemma RestIsApiece<R>(s: Store<R>, order: seq<string>, listed: seq<Listed>, user: string)
    requires Apiece(s, listed, user) && DistinctIds(listed)
    ensures var rest := Remaining(listed, order); forall i, j :: 0 <= i < |rest| && 0 <= j < |rest| && i != j && IdOf(rest[i].instagram) != "" ==>
      IdOf(rest[i].instagram) != IdOf(rest[j].instagram)
  {
    var rest := Remaining(listed, order);
    RemainingMembers(listed, order);
    forall i, j | 0 <= i < |rest| && 0 <= j < |rest| && i != j && IdOf(rest[i].instagram) != ""
      ensures IdOf(rest[i].instagram) != IdOf(rest[j].instagram)
    {
      assert rest[i].id != rest[j].id;
      var a :| 0 <= a < |listed| && listed[a] == rest[i];
      var b :| 0 <= b < |listed| && listed[b] == rest[j];
    }
  }

  /** A page of the result was there and stays, or is new. */
  lemma PageAfter<R>(s: Store<R>, order: seq<string>, listed: seq<Listed>, user: string, spare: seq<R>, ids: set<string>, k: string)
    requires Given(s, order, listed, user, spare, ids) && IsPage(SetPages(s, order, listed, user, spare), k)
    ensures k in ids
    ensures if k in s.index
      then IsPage(s, k) && Stays(s.At(k), listed, user) && SetPages(s, order, listed, user, spare).At(k) == Visited(s.At(k), listed, user)
      else exists i: nat :: IsNewAt(s, order, listed, user, SetPages(s, order, listed, user, spare), k, i)
  {
    var v, rest := VisitAll(s, order, listed, user), Remaining(listed, order);
    AfterWalk(s, order, listed, user, spare, ids);
    WalkKeeps(s, order, listed, user, ids);
    InstallAllExtends(v, rest, user, spare, ids);
    if k in s.index {
      OldPageOutcome(s, order, listed, user, spare, ids, k);
    } else {
      assert k in IdsOf(rest);
      var i :| 0 <= i < |rest| && rest[i].id == k;
      assert Placed(InstallAll(v, rest, user, spare), rest[i], user, spare[i]);
      assert IsNewAt(s, order, listed, user, SetPages(s, order, listed, user, spare), k, i);
    }
  }

  /** Two pages of the result with one account are one page, when all are indexed. */
  lemma SharedIsOne<R>(z: Store<R>, k: string, o: string)
    requires AllIndexed(z) && IsPage(z, k) && IsPage(z, o) && z.At(k).Igsid() == z.At(o).Igsid() != ""
    ensures k == o
  {
    assert Indexed(z, k) && Indexed(z, o);
  }

  lemma IndexedIsApiece<R>(s: Store<R>, order: seq<string>, listed: seq<Listed>, user: string, spare: seq<R>, ids: set<string>)
    requires Given(s, order, listed, user, spare, ids) && AllIndexed(SetPages(s, order, listed, user, spare))
    ensures Apiece(s, listed, user)
  {
    var z := SetPages(s, order, listed, user, spare);
    forall i | 0 <= i < |listed|
      ensures IsPage(z, listed[i].id) && z.At(listed[i].id).Igsid() == IdOf(listed[i].instagram)
    {
      ListedPageOutcome(s, order, listed, user, spare, ids, i);
      AfterWalk(s, order, listed, user, spare, ids);
    }
    forall i, j | 0 <= i < j < |listed| && IdOf(listed[i].instagram) != ""
      ensures IdOf(listed[i].instagram) != IdOf(listed[j].instagram)
    {
      if IdOf(listed[i].instagram) == IdOf(listed[j].instagram) {
        SharedIsOne(z, listed[i].id, listed[j].id);
      }
    }
    forall i, o | 0 <= i < |listed| && IdOf(listed[i].instagram) != "" && IsPage(s, o) && Remains(s.At(o), listed, user)
      ensures IdOf(listed[i].instagram) != s.At(o).Igsid()
    {
      OldPageOutcome(s, order, listed, user, spare, ids, o);
      if IdOf(listed[i].instagram) == s.At(o).Igsid() {
        SharedIsOne(z, listed[i].id, o);
      }
    }
  }

  lemma SwappedIsNotIndexed<R>(s: Store<R>, order: seq<string>, listed: seq<Listed>, user: string, spare: seq<R>, ids: set<string>, k: string)
    requires Given(s, order, listed, user, spare, ids) && IsPage(s, k) && Swaps(s.At(k), listed)
    ensures var z := SetPages(s, order, listed, user, spare); IsPage(z, k) && z.At(k).Igsid() != "" && !Indexed(z, k)
  {
    var x := Visited(s.At(k), listed, user).Igsid();
    OldIndexed(s, order, listed, user, spare, ids, k);
    HolderIs(s, order, listed, user, x, k);
    assert k in ids && x !in ids;
    assert x in s.index ==> KeyOf(x, s.states[s.index[x]]);
  }

  lemma LateIsNotIndexed<R>(s: Store<R>, order: seq<string>, listed: seq<Listed>, user: string, spare: seq<R>, ids: set<string>, i: nat, j: nat)
    requires Given(s, order, listed, user, spare, ids) && i < j < |order| && Gets(s, order[i], order[j], listed, user)
    ensures !AllIndexed(SetPages(s, order, listed, user, spare))
  {
    var k, o, z := order[i], order[j], SetPages(s, order, listed, user, spare);
    var x := s.At(o).Igsid();
    OldIndexed(s, order, listed, user, spare, ids, k);
    HolderIs(s, order, listed, user, x, k);
    assert ActOn(s.At(k), listed, user, x) == Sets;
    if ActOn(s.At(o), listed, user, x) == Keeps && AllIndexed(z) {
      OldPageOutcome(s, order, listed, user, spare, ids, o);
      SharedIsOne(z, k, o);
    }
  }

  /** For each order of the walk: after a listing every account is indexed exactly when the listing was clear for this order. */
  lemma IndexedWhenClear<R>(s: Store<R>, order: seq<string>, listed: seq<Listed>, user: string, spare: seq<R>, ids: set<string>)
    requires Given(s, order, listed, user, spare, ids) && AllIndexed(s)
    ensures AllIndexed(SetPages(s, order, listed, user, spare)) <==> ClearFor(s, order, listed, user)
  {
    if ClearFor(s, order, listed, user) {
      ClearIndexes(s, order, listed, user, spare, ids);
    }
    if AllIndexed(SetPages(s, order, listed, user, spare)) {
      IndexedIsApiece(s, order, listed, user, spare, ids);
      forall k | IsPage(s, k) ensures !Swaps(s.At(k), listed) {
        if Swaps(s.At(k), listed) {
          SwappedIsNotIndexed(s, order, listed, user, spare, ids, k);
        }
      }
      forall i, j | 0 <= i < j < |order| ensures !Gets(s, order[i], order[j], listed, user) {
        if Gets(s, order[i], order[j], listed, user) {
          LateIsNotIndexed(s, order, listed, user, spare, ids, i, j);
        }
      }
    }
  }

  // ----- for every order

  /** The walk with one page moved to its end. */
  function MovedLast(order: seq<string>, j: nat): seq<string>
    requires j < |order|
  {
    order[..j] + order[j + 1..] + [order[j]]
  }

  lemma MovedLastIs(order: seq<string>, j: nat)
    requires j < |order| && forall a, b :: 0 <= a < b < |order| ==> order[a] != order[b]
    ensures var m := MovedLast(order, j);
      && |m| == |order| && m[|m| - 1] == order[j] && (forall a, b :: 0 <= a < b < |m| ==> m[a] != m[b])
      && (forall k :: k in m <==> k in order)
  {
    var m := MovedLast(order, j);
    var n := |order| - 1;
    assert forall a :: 0 <= a < |m| ==> m[a] == order[if a < j then a else if a < n then a + 1 else j];
    forall k | k in order ensures k in m {
      var a :| 0 <= a < |order| && order[a] == k;
      assert m[if a < j then a else if a == j then n else a - 1] == k;
    }
  }

  /** The listed pages whose ids were not seen. */
  function Left(listed: seq<Listed>, seen: set<string>): seq<Listed> {
    if listed == [] then [] else if listed[0].id in seen then Left(listed[1..], seen) else [listed[0]] + Left(listed[1..], seen)
  }

  lemma {:induction false} TakeOutLeft(listed: seq<Listed>, seen: set<string>, k: string)
    requires DistinctIds(listed)
    ensures TakeOut(Left(listed, seen), k) == Left(listed, seen + {k})
  {
    if listed != [] {
      DistinctTail(listed);
      var rest := Left(listed[1..], seen);
      TakeOutLeft(listed[1..], seen, k);
      if listed[0].id !in seen {
        assert ([listed[0]] + rest)[1..] == rest;
        if listed[0].id == k {
          LeftOther(listed[1..], seen, k);
        }
      }
    }
  }

  lemma {:induction false} LeftOther(listed: seq<Listed>, seen: set<string>, k: string)
    requires forall x :: x in listed ==> x.id != k
    ensures Left(listed, seen + {k}) == Left(listed, seen)
  {
    if listed != [] {
      assert listed[0] in listed;
      LeftOther(listed[1..], seen, k);
    }
  }

  function KeysIn(order: seq<string>): set<string> {
    set k | k in order
  }

  lemma {:induction false} LeftAll(listed: seq<Listed>)
    ensures Left(listed, {}) == listed
  {
    if listed != [] {
      LeftAll(listed[1..]);
    }
  }

  lemma {:induction false} RemainingIsLeft(listed: seq<Listed>, order: seq<string>)
    requires DistinctIds(listed)
    ensures Remaining(listed, order) == Left(listed, KeysIn(order))
  {
    if order == [] {
      LeftAll(listed);
      assert KeysIn(order) == {};
    } else {
      var o, k := DropLast(order), order[|order| - 1];
      RemainingIsLeft(listed, o);
      TakeOutLeft(listed, KeysIn(o), k);
      LastSplits(order);
      assert KeysIn(order) == KeysIn(o) + {k};
    }
  }

  ghost predicate Unused<R>(v: Store<R>, spare: seq<R>) {
    (forall i :: 0 <= i < |spare| ==> spare[i] !in v.states) && (forall i, j :: 0 <= i < j < |spare| ==> spare[i] != spare[j])
  }

  ghost function RefsIn<R>(spare: seq<R>): set<R> {
    set r | r in spare
  }

  lemma {:induction false} InstallAllKeys<R>(v: Store<R>, rest: seq<Listed>, user: string, spare: seq<R>, ids: set<string>)
    requires |spare| == |rest| && DistinctIds(rest) && Apart(v, rest, ids)
    requires forall i :: 0 <= i < |rest| ==> rest[i].id !in v.index
    ensures var z := InstallAll(v, rest, user, spare);
      && z.states.Keys == v.states.Keys + RefsIn(spare)
      && forall k :: k in z.index && k in ids ==> k in v.index || k in IdsOf(rest)
  {
    if rest != [] {
      var rest', spare', n := DropLast(rest), DropLast(spare), |rest| - 1;
      InstallAllKeys(v, rest', user, spare', ids);
      RestSplits(rest);
      UnusedNext(v, spare);
      InstallAddsKeys(InstallAll(v, rest', user, spare'), rest[n], user, spare[n], ids);
    }
  }

  /** New references are those that are not in use, and pairwise different. */
  lemma {:induction false} NewIsUnused<R>(v: Store<R>, rest: seq<Listed>, user: string, spare: seq<R>, ids: set<string>)
    requires |spare| == |rest| && DistinctIds(rest) && Apart(v, rest, ids)
    requires forall i :: 0 <= i < |rest| ==> rest[i].id !in v.index
    ensures NewRefs(v, rest, user, spare) <==> Unused(v, spare)
  {
    if rest != [] {
      var rest', spare' := DropLast(rest), DropLast(spare);
      NewIsUnused(v, rest', user, spare', ids);
      InstallAllKeys(v, rest', user, spare', ids);
      RestSplits(rest);
      UnusedNext(v, spare);
    }
  }

  lemma RestSplits(rest: seq<Listed>)
    requires rest != [] && DistinctIds(rest)
    ensures var n := |rest| - 1;
      IdsOf(rest) == IdsOf(DropLast(rest)) + {rest[n].id} && rest[n].id !in IdsOf(DropLast(rest)) && DistinctIds(DropLast(rest))
  {
    LastSplits(rest);
    IdsOfAppend(DropLast(rest), rest[|rest| - 1]);
  }

  lemma InstallAddsKeys<R>(z: Store<R>, info: Listed, user: string, r: R, ids: set<string>)
    requires info.id !in z.index && IdOf(info.instagram) !in ids
    ensures var z' := Install(z, info, user, r);
      z'.states.Keys == z.states.Keys + {r} && forall k :: k in z'.index && k in ids ==> k in z.index || k == info.id
  {
  }

  lemma UnusedNext<R>(v: Store<R>, spare: seq<R>)
    requires spare != []
    ensures Unused(v, spare) <==>
      Unused(v, DropLast(spare)) && spare[|spare| - 1] !in v.states && spare[|spare| - 1] !in RefsIn(DropLast(spare))
    ensures RefsIn(spare) == RefsIn(DropLast(spare)) + {spare[|spare| - 1]}
  {
    var n := |spare| - 1;
    LastSplits(spare);
    assert forall i :: 0 <= i < n ==> DropLast(spare)[i] == spare[i];
    assert Unused(v, spare) ==> forall i :: 0 <= i < n ==> DropLast(spare)[i] != spare[n];
    if Unused(v, DropLast(spare)) && spare[n] !in RefsIn(DropLast(spare)) {
      forall i | 0 <= i < n ensures spare[i] != spare[n] {
        assert DropLast(spare)[i] in DropLast(spare);
      }
    }
  }

  /** The references a listing may use, in whatever order the index is walked. */
  lemma GivenUnused<R>(s: Store<R>, order: seq<string>, listed: seq<Listed>, user: string, spare: seq<R>, ids: set<string>)
    requires s.Keyed() && s.Active() && Apart(s, listed, ids) && CompleteWalk(s, order) && DistinctIds(listed)
    requires |spare| == |Remaining(listed, order)|
    ensures Given(s, order, listed, user, spare, ids) <==> Unused(s, spare)
  {
    var v, rest := VisitAll(s, order, listed, user), Remaining(listed, order);
    WalkKeeps(s, order, listed, user, ids);
    RemainingMembers(listed, order);
    forall i | 0 <= i < |rest|
      ensures rest[i].id in ids && IdOf(rest[i].instagram) !in ids && rest[i].id !in v.index
    {
      assert rest[i] in rest;
      var j :| 0 <= j < |listed| && listed[j] == rest[i];
      assert rest[i].id in s.index ==> KeyOf(rest[i].id, s.states[s.index[rest[i].id]]);
    }
    NewIsUnused(v, rest, user, spare, ids);
    assert Unused(v, spare) <==> Unused(s, spare);
  }

  /** The pages left to install, and where they may be put, do not depend on the order. */
  lemma OtherOrder<R>(s: Store<R>, order: seq<string>, listed: seq<Listed>, user: string, spare: seq<R>, ids: set<string>, order2: seq<string>)
    requires Given(s, order, listed, user, spare, ids) && CompleteWalk(s, order2)
    ensures Given(s, order2, listed, user, spare, ids)
  {
    RemainingIsLeft(listed, order);
    RemainingIsLeft(listed, order2);
    assert KeysIn(order) == KeysIn(order2);
    GivenUnused(s, order, listed, user, spare, ids);
    GivenUnused(s, order2, listed, user, spare, ids);
  }

  /** An order in which a page that gets an account is visited before the page that had it. */
  lemma OrderAgainst<R>(s: Store<R>, order: seq<string>, listed: seq<Listed>, user: string, spare: seq<R>, ids: set<string>, k: string, o: string)
    returns (m: seq<string>)
    requires Given(s, order, listed, user, spare, ids) && IsPage(s, k) && IsPage(s, o) && Gets(s, k, o, listed, user)
    ensures Given(s, m, listed, user, spare, ids) && !ClearFor(s, m, listed, user)
  {
    var j :| 0 <= j < |order| && order[j] == o;
    m := MovedLast(order, j);
    MovedLastIs(order, j);
    assert CompleteWalk(s, m) by {
      assert forall i :: 0 <= i < |m| ==> m[i] in order;
    }
    OtherOrder(s, order, listed, user, spare, ids, m);
    var i :| 0 <= i < |m| && m[i] == k;
    assert Gets(s, m[i], m[|m| - 1], listed, user);
  }

  /** Every account is indexed after this listing, in whatever order the index is walked. */
  ghost predicate AlwaysIndexed<R>(s: Store<R>, listed: seq<Listed>, user: string, spare: seq<R>, ids: set<string>) {
    forall order :: Given(s, order, listed, user, spare, ids) ==> AllIndexed(SetPages(s, order, listed, user, spare))
  }

  /**
   For every order of the walk every account is indexed after a listing exactly when
   no two pages end up with one account, no page swaps one account for another, and no
   page that was there gets an account that a page had.
   */
  lemma AlwaysIndexedWhenClear<R>(s: Store<R>, order: seq<string>, listed: seq<Listed>, user: string, spare: seq<R>, ids: set<string>)
    requires Given(s, order, listed, user, spare, ids) && AllIndexed(s)
    ensures AlwaysIndexed(s, listed, user, spare, ids) <==> Clear(s, listed, user)
  {
    forall o | Given(s, o, listed, user, spare, ids)
      ensures AllIndexed(SetPages(s, o, listed, user, spare)) <==> ClearFor(s, o, listed, user)
    {
      IndexedWhenClear(s, o, listed, user, spare, ids);
    }
    if AlwaysIndexed(s, listed, user, spare, ids) {
      assert ClearFor(s, order, listed, user);
      forall k, o | IsPage(s, k) && IsPage(s, o) ensures !Gets(s, k, o, listed, user) {
        if Gets(s, k, o, listed, user) {
          var m := OrderAgainst(s, order, listed, user, spare, ids, k, o);
        }
      }
    }
  }

  // ----- an account that moves from one page to another

  /** The account of page `o` is listed for page `i`, and for no other page that stays. */
  ghost predicate Moves<R>(s: Store<R>, listed: seq<Listed>, user: string, o: string, i: nat) {
    && i < |listed| && IsPage(s, o) && s.At(o).Igsid() == IdOf(listed[i].instagram) != "" && listed[i].id != o
    && (forall j :: 0 <= j < |listed| && j != i ==> IdOf(listed[j].instagram) != IdOf(listed[i].instagram))
    && !Remains(s.At(o), listed, user)
  }

  /** A page that is new is always indexed by the account it takes over. */
  lemma MovedToNew<R>(s: Store<R>, order: seq<string>, listed: seq<Listed>, user: string, spare: seq<R>, ids: set<string>, o: string, i: nat)
    requires Given(s, order, listed, user, spare, ids) && Moves(s, listed, user, o, i) && listed[i].id !in s.index
    ensures var z := SetPages(s, order, listed, user, spare); IsPage(z, listed[i].id) && Indexed(z, listed[i].id)
  {
    var rest := Remaining(listed, order);
    AfterWalk(s, order, listed, user, spare, ids);
    RestAccounts(s, order, listed, user, spare, ids);
    assert listed[i] in rest;
    var n :| 0 <= n < |rest| && rest[n] == listed[i];
    RemainingMembers(listed, order);
    forall j | 0 <= j < |rest| && j != n ensures IdOf(rest[j].instagram) != IdOf(rest[n].instagram) {
      assert rest[j].id != rest[n].id;
      var a :| 0 <= a < |listed| && listed[a] == rest[j];
    }
    NewIndexed(s, order, listed, user, spare, ids, n);
  }

  /**
   A page that was there without an account is indexed by it exactly when it is visited
   after the page that had it; one that had another account never is.
   */
  lemma MovedToOld<R>(s: Store<R>, order: seq<string>, listed: seq<Listed>, user: string, spare: seq<R>, ids: set<string>, o: string, i: nat,
                      a: nat, b: nat)
    requires Given(s, order, listed, user, spare, ids) && AllIndexed(s) && Moves(s, listed, user, o, i)
    requires a < |order| && order[a] == listed[i].id && b < |order| && order[b] == o
    ensures var z := SetPages(s, order, listed, user, spare);
      && IsPage(z, listed[i].id)
      && (Indexed(z, listed[i].id) <==> s.At(listed[i].id).Igsid() == "" && b < a)
  {
    var k, x := listed[i].id, s.At(o).Igsid();
    FindDistinct(listed, i);
    MovedActs(s, order, listed, user, o, i);
    RestAccounts(s, order, listed, user, spare, ids);
    OldIndexed(s, order, listed, user, spare, ids, k);
    HolderIs(s, order, listed, user, x, k);
    assert ActOn(s.At(order[b]), listed, user, x) == Clears;
    assert forall j :: 0 <= j < |order| && j != a && j != b ==> ActOn(s.At(order[j]), listed, user, x) == Keeps;
    assert SetLast(s, order, listed, user, x, k, a) <==> s.At(k).Igsid() == "" && b < a;
    assert forall j :: SetLast(s, order, listed, user, x, k, j) ==> j == a;
    RestHasNot(s, order, listed, user, spare, ids, i);
  }

  lemma MovedActs<R>(s: Store<R>, order: seq<string>, listed: seq<Listed>, user: string, o: string, i: nat)
    requires Walks(s, order) && AllIndexed(s) && Moves(s, listed, user, o, i) && DistinctIds(listed)
    requires IsPage(s, listed[i].id)
    ensures forall j :: 0 <= j < |order| ==>
      ActOn(s.At(order[j]), listed, user, s.At(o).Igsid()) ==
        if order[j] == o then Clears else if order[j] == listed[i].id && s.At(order[j]).Igsid() == "" then Sets else Keeps
  {
    FindDistinct(listed, i);
    forall j | 0 <= j < |order|
      ensures ActOn(s.At(order[j]), listed, user, s.At(o).Igsid()) ==
        if order[j] == o then Clears else if order[j] == listed[i].id && s.At(order[j]).Igsid() == "" then Sets else Keeps
    {
      var q := order[j];
      assert s.At(q).Igsid() == s.At(o).Igsid() ==> Indexed(s, q) && Indexed(s, o);
      if Find(listed, q).Some? {
        var n := FindIs(listed, q);
      }
    }
  }

  lemma RestHasNot<R>(s: Store<R>, order: seq<string>, listed: seq<Listed>, user: string, spare: seq<R>, ids: set<string>, i: nat)
    requires Given(s, order, listed, user, spare, ids) && i < |listed| && listed[i].id in s.index
    requires forall j :: 0 <= j < |listed| && j != i ==> IdOf(listed[j].instagram) != IdOf(listed[i].instagram)
    ensures Nobody(Remaining(listed, order), IdOf(listed[i].instagram))
  {
    var rest := Remaining(listed, order);
    RestAccounts(s, order, listed, user, spare, ids);
    forall n | 0 <= n < |rest| ensures IdOf(rest[n].instagram) != IdOf(listed[i].instagram) {
      var j :| 0 <= j < |listed| && listed[j] == rest[n];
    }
  }

  function One(id: string, account: string): Listed {
    Listed(id, "", if account == "" then None else Some(Instagram(account, "", "", "")), "token", [])
  }

  /** A page whose account changes from `x` to `y` is indexed by neither afterwards. */
  lemma SwappedAccountIsLost()
    ensures var s := Store(map["p" := 0, "x" := 0], map[0 := Installed(One("p", "x"), "user")]);
      var z := SetPages<int>(s, ["p"], [One("p", "y")], "user", []);
      z.index == map["p" := 0] && z.At("p").Igsid() == "y"
  {
    var s := Store(map["p" := 0, "x" := 0], map[0 := Installed(One("p", "x"), "user")]);
    var listed := [One("p", "y")];
    assert DropLast(["p"]) == [];
    assert Remaining(listed, ["p"]) == TakeOut(Remaining(listed, []), "p") == [];
    assert VisitAll(s, ["p"], listed, "user") == Visit(s, "p", listed, "user");
  }

  function MoveBefore(): Store<int> {
    Store(map["p" := 0, "q" := 1, "x" := 0], map[0 := Installed(One("p", "x"), "user"), 1 := Installed(One("q", ""), "user")])
  }

  function MoveListed(): seq<Listed> {
    [One("p", ""), One("q", "x")]
  }

  lemma MovedAway()
    ensures VisitAll(MoveBefore(), ["p"], MoveListed(), "user") == Visit(MoveBefore(), "p", MoveListed(), "user")
    ensures VisitAll(MoveBefore(), ["p", "q"], MoveListed(), "user").index == map["p" := 0, "q" := 1, "x" := 1]
  {
    assert DropLast(["p", "q"]) == ["p"] && DropLast(["p"]) == [];
    assert Find(MoveListed(), "p") == Some(One("p", "")) && Find(MoveListed(), "q") == Some(One("q", "x"));
  }

  lemma MovedIn()
    ensures VisitAll(MoveBefore(), ["q"], MoveListed(), "user") == Visit(MoveBefore(), "q", MoveListed(), "user")
    ensures VisitAll(MoveBefore(), ["q", "p"], MoveListed(), "user").index == map["p" := 0, "q" := 1]
  {
    assert DropLast(["q", "p"]) == ["q"] && DropLast(["q"]) == [];
    assert Find(MoveListed(), "p") == Some(One("p", "")) && Find(MoveListed(), "q") == Some(One("q", "x"));
  }

  /**
   An account that moves from one page to another, which had none: the order of the walk
   decides whether it is indexed.
   */
  lemma MovedAccountDependsOnOrder()
    ensures "x" in VisitAll(MoveBefore(), ["p", "q"], MoveListed(), "user").index
    ensures "x" !in VisitAll(MoveBefore(), ["q", "p"], MoveListed(), "user").index
  {
    MovedAway();
    MovedIn();
  }

  /**
   Removing a page by its page id leaves nothing of it behind exactly when it is not
   indexed by an Instagram account: that key is not removed, and keeps leading to it.
   */
  lemma DeletedPageStaysReachable<R>(s: Store<R>, k: string)
    requires s.Keyed() && Coherent(s) && k in s.index && s.Main(k)
    ensures Store(s.index - {k}, s.states).Keyed()
    ensures Coherent(Store(s.index - {k}, s.states)) <==> (s.At(k).Igsid() in {"", k} || !Indexed(s, k))
  {
    var z := Store(s.index - {k}, s.states);
    var x := s.At(k).Igsid();
    if x != "" && x != k && Indexed(s, k) {
      assert x in z.index && z.states[z.index[x]].id == k && k !in z.index;
    } else {
      forall k2 | k2 in z.index && z.index[k2] in z.states
        ensures z.states[z.index[k2]].id in z.index && z.index[z.states[z.index[k2]].id] == z.index[k2]
      {
        assert KeyOf(k2, s.states[s.index[k2]]);
      }
    }
  }
}
