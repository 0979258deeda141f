/**
 Whole runs of the page store: users list the pages they manage, or withdraw, pages are
 removed by a key, and saved pages are put back, in any order.
 */
module PageRuns {
  import opened Wrappers
  import opened Sequences
  import opened Grants
  import opened PageStore
  import opened InstagramIndex
  import opened PageBackup

  /** A listing has the order in which the walk met the index, and where new pages were put. */
  datatype Event<R> =
    | Lists(user: string, listed: seq<Listed>, order: seq<string>, spare: seq<R>)
    | Puts(record: Record, free: R)
    | Deletes(key: string)
    | Withdraws(page: R, who: string)

  function After<R(==)>(s: Store<R>, e: Event<R>): Store<R> {
    match e
    case Lists(user, listed, order, spare) => if |spare| == |Remaining(listed, order)| then SetPages(s, order, listed, user, spare) else s
    case Puts(b, free) => Restore(s, b, free)
    case Deletes(k) => Store(s.index - {k}, s.states)
    case Withdraws(r, who) => if r in s.states then Store(s.index, s.states[r := Withdrawn(s.states[r], who)]) else s
  }

  function Run<R(==)>(es: seq<Event<R>>): Store<R> {
    if es == [] then Store(map[], map[]) else After(Run(DropLast(es)), es[|es| - 1])
  }

  // ----- tokens in use, and users

  /** Every token of the event is its user's own. */
  ghost predicate Owned<R>(owner: string -> string, e: Event<R>) {
    match e
    case Lists(user, listed, _, _) => TokensOf(owner, listed, user)
    case Puts(b, _) => OwnedBy(owner, b.accounts)
    case _ => true
  }

  ghost predicate Proper<R>(owner: string -> string, s: Store<R>) {
    s.Active() && SoundGrants(owner, s)
  }

  lemma VisitIsProper<R>(owner: string -> string, s: Store<R>, k: string, listed: seq<Listed>, user: string)
    requires Proper(owner, s)
    requires TokensOf(owner, listed, user)
    ensures Proper(owner, Visit(s, k, listed, user))
  {
    if k in s.index && s.index[k] in s.states && s.states[s.index[k]].id == k {
      var p := s.states[s.index[k]];
      WithdrawnIsActive(p, user);
      match Find(listed, k) {
        case Some(info) =>
          var i :| 0 <= i < |listed| && listed[i] == info;
          AuthorizeKeepsSound(owner, p.accounts, Grant(user, info.token));
        case None =>
          DeauthorizeKeepsSound(owner, p.accounts, user);
      }
    }
  }

  lemma {:induction false} WalkIsProper<R>(owner: string -> string, s: Store<R>, order: seq<string>, listed: seq<Listed>, user: string)
    requires Proper(owner, s)
    requires TokensOf(owner, listed, user)
    ensures Proper(owner, VisitAll(s, order, listed, user))
  {
    if order != [] {
      WalkIsProper(owner, s, DropLast(order), listed, user);
      VisitIsProper(owner, VisitAll(s, DropLast(order), listed, user), order[|order| - 1], listed, user);
    }
  }

  lemma InstallIsProper<R>(owner: string -> string, s: Store<R>, info: Listed, user: string, r: R)
    requires Proper(owner, s) && info.token != "" && owner(info.token) == user
    ensures Proper(owner, Install(s, info, user, r))
  {
    if info.id in s.index && s.index[info.id] in s.states {
      AuthorizeKeepsSound(owner, s.states[s.index[info.id]].accounts, Grant(user, info.token));
    }
  }

  lemma {:induction false} InstallAllIsProper<R>(owner: string -> string, s: Store<R>, rest: seq<Listed>, user: string, spare: seq<R>)
    requires |spare| == |rest| && Proper(owner, s)
    requires TokensOf(owner, rest, user)
    ensures Proper(owner, InstallAll(s, rest, user, spare))
  {
    if rest != [] {
      InstallAllIsProper(owner, s, DropLast(rest), user, DropLast(spare));
      InstallIsProper(owner, InstallAll(s, DropLast(rest), user, DropLast(spare)), rest[|rest| - 1], user, spare[|rest| - 1]);
    }
  }

  lemma {:induction false} TakeOutIsOwned(owner: string -> string, listed: seq<Listed>, id: string, user: string)
    requires TokensOf(owner, listed, user)
    ensures TokensOf(owner, TakeOut(listed, id), user)
  {
    if listed != [] {
      assert forall i :: 0 <= i < |listed[1..]| ==> listed[1..][i] == listed[i + 1];
      TakeOutIsOwned(owner, listed[1..], id, user);
    }
  }

  lemma {:induction false} RemainingIsOwned(owner: string -> string, listed: seq<Listed>, order: seq<string>, user: string)
    requires TokensOf(owner, listed, user)
    ensures TokensOf(owner, Remaining(listed, order), user)
  {
    if order != [] {
      RemainingIsOwned(owner, listed, DropLast(order), user);
      TakeOutIsOwned(owner, Remaining(listed, DropLast(order)), order[|order| - 1], user);
    }
  }

  lemma {:induction false} ReplayKeepsSound(owner: string -> string, a: seq<Grant>, saved: seq<Grant>)
    requires Sound(owner, a) && OwnedBy(owner, saved)
    ensures Sound(owner, Replayed(a, saved))
  {
    if saved != [] {
      assert forall i :: 0 <= i < |saved[1..]| ==> saved[1..][i] == saved[i + 1];
      ReplayKeepsSound(owner, a, saved[1..]);
      AuthorizeKeepsSound(owner, Replayed(a, saved[1..]), saved[0]);
    }
  }

  lemma RestoreIsProper<R>(owner: string -> string, s: Store<R>, b: Record, free: R)
    requires Proper(owner, s) && OwnedBy(owner, b.accounts)
    ensures Proper(owner, Restore(s, b, free))
  {
    var p := Base(s, b);
    assert Sound(owner, p.accounts);
    ReplayKeepsSound(owner, p.accounts, b.accounts);
    ReplayedFirst(p.accounts, b.accounts);
  }

  lemma StepIsProper<R>(owner: string -> string, s: Store<R>, e: Event<R>)
    requires Proper(owner, s) && Owned(owner, e)
    ensures Proper(owner, After(s, e))
  {
    match e
    case Lists(user, listed, order, spare) =>
      if |spare| == |Remaining(listed, order)| {
        WalkIsProper(owner, s, order, listed, user);
        RemainingIsOwned(owner, listed, order, user);
        InstallAllIsProper(owner, VisitAll(s, order, listed, user), Remaining(listed, order), user, spare);
      }
    case Puts(b, free) => RestoreIsProper(owner, s, b, free);
    case Deletes(_) =>
    case Withdraws(r, who) =>
      if r in s.states {
        WithdrawnIsActive(s.states[r], who);
        DeauthorizeKeepsSound(owner, s.states[r].accounts, who);
      }
  }

  /**
   In every run, whatever ids collide and whatever is listed twice, swapped or left
   behind: the token in use is the first grant's, and no user has two grants of a page,
   as long as every token is its user's own.
   */
  lemma {:induction false} RunIsProper<R>(owner: string -> string, es: seq<Event<R>>)
    requires forall i :: 0 <= i < |es| ==> Owned(owner, es[i])
    ensures Proper(owner, Run(es))
  {
    if es != [] {
      RunIsProper(owner, DropLast(es));
      StepIsProper(owner, Run(DropLast(es)), es[|es| - 1]);
    }
  }

  // ----- keys

  /** New pages are put at new references. */
  ghost predicate Legal<R>(s: Store<R>, e: Event<R>) {
    match e
    case Lists(user, listed, order, spare) =>
      |spare| == |Remaining(listed, order)| && NewRefs(VisitAll(s, order, listed, user), Remaining(listed, order), user, spare)
    case Puts(b, free) => b.id !in s.index ==> free !in s.states
    case _ => true
  }

  ghost predicate AllLegal<R>(es: seq<Event<R>>) {
    es == [] || (AllLegal(DropLast(es)) && Legal(Run(DropLast(es)), es[|es| - 1]))
  }

  ghost predicate AlwaysKeyed<R>(es: seq<Event<R>>) {
    Run(es).Keyed() && (es != [] ==> AlwaysKeyed(DropLast(es)))
  }

  /** No record that is put back replaces an account its page is indexed by. */
  ghost predicate NoOrphans<R>(es: seq<Event<R>>) {
    es == [] || (NoOrphans(DropLast(es)) && !(es[|es| - 1].Puts? && Orphans(Run(DropLast(es)), es[|es| - 1].record)))
  }

  lemma StepIsKeyed<R>(s: Store<R>, e: Event<R>)
    requires s.Keyed() && s.Active() && Legal(s, e)
    ensures After(s, e).Active()
    ensures After(s, e).Keyed() <==> !(e.Puts? && Orphans(s, e.record))
  {
    match e
    case Lists(user, listed, order, spare) => SetPagesKeeps(s, order, listed, user, spare);
    case Puts(b, free) => RestoreKeeps(s, b, free);
    case Deletes(_) =>
    case Withdraws(r, who) =>
      if r in s.states {
        WithdrawnIsActive(s.states[r], who);
      }
  }

  /** In every run each key is, all along, its page's id or Instagram id, exactly when no record put back replaced an indexed account. */
  lemma {:induction false} RunIsKeyed<R>(es: seq<Event<R>>)
    requires AllLegal(es)
    ensures AlwaysKeyed(es) <==> NoOrphans(es)
    ensures AlwaysKeyed(es) ==> Run(es).Active()
  {
    if es != [] {
      RunIsKeyed(DropLast(es));
      if AlwaysKeyed(DropLast(es)) {
        StepIsKeyed(Run(DropLast(es)), es[|es| - 1]);
      }
    }
  }

  // ----- Instagram accounts

  /** Page ids and Instagram ids are told apart; while keys are right, a listing names no id twice and its walk meets every page id. */
  ghost predicate Fits<R>(s: Store<R>, e: Event<R>, ids: set<string>) {
    match e
    case Lists(user, listed, order, spare) => s.Keyed() ==> Given(s, order, listed, user, spare, ids)
    case Puts(b, free) => b.id in ids && IdOf(b.instagram) !in ids && (b.id !in s.index ==> free !in s.states)
    case _ => true
  }

  ghost predicate AllFit<R>(es: seq<Event<R>>, ids: set<string>) {
    es == [] || (AllFit(DropLast(es), ids) && Fits(Run(DropLast(es)), es[|es| - 1], ids))
  }

  ghost predicate Founded<R>(s: Store<R>, ids: set<string>) {
    s.Keyed() && s.Active() && Apart(s, [], ids)
  }

  lemma ListsFits<R>(s: Store<R>, user: string, listed: seq<Listed>, order: seq<string>, spare: seq<R>, ids: set<string>)
    requires Given(s, order, listed, user, spare, ids)
    ensures Founded(SetPages(s, order, listed, user, spare), ids)
  {
    AfterWalk(s, order, listed, user, spare, ids);
    InstallAllExtends(VisitAll(s, order, listed, user), Remaining(listed, order), user, spare, ids);
  }

  lemma StepFits<R>(s: Store<R>, e: Event<R>, ids: set<string>)
    requires Founded(s, ids) && Fits(s, e, ids) && After(s, e).Keyed()
    ensures Founded(After(s, e), ids)
  {
    match e
    case Lists(user, listed, order, spare) => ListsFits(s, user, listed, order, spare, ids);
    case Puts(b, free) => RestoreKeeps(s, b, free);
    case _ => StepIsKeyed(s, e);
  }

  /** What keeps every account indexed: a clear listing, a record whose account no other page has, a key that is no other page's account. */
  ghost predicate IsClear<R>(s: Store<R>, e: Event<R>) {
    match e
    case Lists(user, listed, order, _) => Pages(s, order) && ClearFor(s, order, listed, user)
    case Puts(b, _) =>
      forall o :: IsPage(s, o) && o != b.id && s.At(o).Igsid() != "" ==> s.At(o).Igsid() != PutBack(Base(s, b), b).Igsid()
    case Deletes(k) => k != "" ==> forall o :: IsPage(s, o) && o != k ==> s.At(o).Igsid() != k
    case Withdraws(_, _) => true
  }

  lemma PutIsIndexed<R>(s: Store<R>, b: Record, free: R, ids: set<string>)
    requires Founded(s, ids) && AllIndexed(s) && Fits(s, Puts(b, free), ids)
    ensures AllIndexed(Restore(s, b, free)) <==> IsClear(s, Puts(b, free))
  {
    var z, x := Restore(s, b, free), PutBack(Base(s, b), b).Igsid();
    assert IsPage(z, b.id) && z.At(b.id).Igsid() == x && (x != "" ==> Indexed(z, b.id));
    assert x !in ids;
    forall o | o != b.id
      ensures IsPage(z, o) <==> IsPage(s, o)
      ensures IsPage(s, o) ==> z.At(o) == s.At(o) && z.index[o] == s.index[o] != z.index[b.id]
    {
    }
    forall o | IsPage(s, o) && o != b.id && s.At(o).Igsid() != ""
      ensures Indexed(z, o) <==> s.At(o).Igsid() != x
    {
      assert Indexed(s, o);
    }
  }

  lemma DeleteIsIndexed<R>(s: Store<R>, k: string)
    requires AllIndexed(s)
    ensures AllIndexed(Store(s.index - {k}, s.states)) <==> IsClear(s, Deletes(k))
  {
    var z := Store(s.index - {k}, s.states);
    forall o | o != k
      ensures IsPage(z, o) <==> IsPage(s, o)
      ensures IsPage(s, o) && s.At(o).Igsid() != "" ==> (Indexed(z, o) <==> s.At(o).Igsid() != k)
    {
    }
    assert !IsPage(z, k);
  }

  /** A legal step keeps keys right exactly when it puts no orphan's record back. */
  lemma StepKeepsKeys<R>(s: Store<R>, e: Event<R>, ids: set<string>)
    requires Founded(s, ids) && Fits(s, e, ids)
    ensures After(s, e).Keyed() <==> !(e.Puts? && Orphans(s, e.record))
  {
    if e.Lists? {
      ListsFits(s, e.user, e.listed, e.order, e.spare, ids);
    } else {
      StepIsKeyed(s, e);
    }
  }

  lemma StepIsIndexed<R>(s: Store<R>, e: Event<R>, ids: set<string>)
    requires Founded(s, ids) && AllIndexed(s) && Fits(s, e, ids)
    ensures AllIndexed(After(s, e)) <==> IsClear(s, e)
  {
    match e
    case Lists(user, listed, order, spare) => IndexedWhenClear(s, order, listed, user, spare, ids);
    case Puts(b, free) => PutIsIndexed(s, b, free, ids);
    case Deletes(k) => DeleteIsIndexed(s, k);
    case Withdraws(r, who) =>
      var z := After(s, e);
      assert forall o :: (IsPage(z, o) <==> IsPage(s, o)) && (IsPage(s, o) ==> z.At(o).Igsid() == s.At(o).Igsid());
      assert forall o :: IsPage(s, o) && s.At(o).Igsid() != "" ==> Indexed(s, o);
  }

  ghost predicate EverIndexed<R>(es: seq<Event<R>>) {
    AllIndexed(Run(es)) && (es != [] ==> EverIndexed(DropLast(es)))
  }

  ghost predicate EverClear<R>(es: seq<Event<R>>) {
    es == [] || (EverClear(DropLast(es)) && IsClear(Run(DropLast(es)), es[|es| - 1]))
  }

  /**
   In every run, all along, each key is its page's id or Instagram id and every page is
   indexed by its Instagram account, exactly when no record put back replaced an indexed
   account and every event was clear.
   */
  lemma {:induction false} RunIsIndexed<R>(es: seq<Event<R>>, ids: set<string>)
    requires AllFit(es, ids)
    ensures AlwaysKeyed(es) && EverIndexed(es) <==> NoOrphans(es) && EverClear(es)
    ensures AlwaysKeyed(es) && EverIndexed(es) ==> Founded(Run(es), ids)
  {
    if es != [] {
      var s, e := Run(DropLast(es)), es[|es| - 1];
      RunIsIndexed(DropLast(es), ids);
      if AlwaysKeyed(DropLast(es)) && EverIndexed(DropLast(es)) {
        StepKeepsKeys(s, e, ids);
        StepIsIndexed(s, e, ids);
        if After(s, e).Keyed() {
          StepFits(s, e, ids);
        }
      }
    }
  }
}
