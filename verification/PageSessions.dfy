/** Whole runs of a page store as an object: users list the pages they manage, or withdraw, and keys are removed. */
module PageSessions {
  import opened Wrappers
  import opened Sequences
  import opened Grants
  import opened PageStore
  import opened InstagramIndex
  import opened Deauthorization
  import opened PageRuns
  import opened Pages

  datatype Act =
    | List(user: string, listed: seq<Listed>)
    | Delete(key: string)
    | Leave(pageId: string, who: string)

  /** The events of a withdrawal from one page, and from some, one after another. */
  function Leaving<R(==)>(s: Store<R>, r: R, who: string): seq<Event<R>> {
    if r in s.states && !Withdrawn(s.states[r], who).Authorized?() then [Withdraws(r, who), Deletes(s.states[r].id)]
    else [Withdraws(r, who)]
  }

  function Withdrawal<R(==)>(s: Store<R>, rs: seq<R>, who: string): seq<Event<R>> {
    if rs == [] then []
    else Withdrawal(s, DropLast(rs), who) + Leaving(DeauthorizeAll(s, DropLast(rs), who), rs[|rs| - 1], who)
  }

  /** The events so far, and the pages that the last act was about. */
  datatype Moment = Moment(events: seq<Event<Page>>, named: seq<Page>)

  /** What an act adds to the events of a run. */
  ghost predicate Did(es: seq<Event<Page>>, a: Act, m: Moment, ids: set<string>) {
    var s := PageRuns.Run(es);
    match a
    case List(user, listed) =>
      && |m.events| == |es| + 1 && DropLast(m.events) == es
      && var e := m.events[|es|];
         && e.Lists? && e.user == user && e.listed == listed && Walks(s, e.order) && Legal(s, e)
         && (PageStore.Apart(s, listed, ids) && DistinctIds(listed) ==> Given(s, e.order, listed, user, e.spare, ids))
    case Delete(key) => m.events == es + [Deletes(key)]
    case Leave(id, who) => Chosen(s, id, m.named) && m.events == es + Withdrawal(s, m.named, who)
  }

  lemma RunOn<R>(es: seq<Event<R>>, e: Event<R>)
    ensures PageRuns.Run(es + [e]) == After(PageRuns.Run(es), e)
    ensures AllLegal(es + [e]) <==> AllLegal(es) && Legal(PageRuns.Run(es), e)
    ensures NoOrphans(es + [e]) <==> NoOrphans(es) && !(e.Puts? && PageBackup.Orphans(PageRuns.Run(es), e.record))
  {
    assert DropLast(es + [e]) == es;
  }

  /** The events are a legal run, and this is what they make. */
  ghost predicate Becomes<R>(es: seq<Event<R>>, s: Store<R>) {
    PageRuns.Run(es) == s && AllLegal(es) && NoOrphans(es)
  }

  lemma BecomesOn<R>(es: seq<Event<R>>, s: Store<R>, e: Event<R>)
    requires Becomes(es, s) && (e.Withdraws? || e.Deletes?)
    ensures Becomes(es + [e], After(s, e))
  {
    RunOn(es, e);
  }

  lemma TwoMore<T>(es: seq<T>, a: T, b: T)
    ensures es + [a, b] == es + [a] + [b]
  {
  }

  lemma LeavingRuns<R>(es: seq<Event<R>>, s: Store<R>, r: R, who: string)
    requires Becomes(es, s)
    ensures Becomes(es + Leaving(s, r, who), DeauthorizeOne(s, r, who))
  {
    var v := After(s, Withdraws(r, who));
    BecomesOn(es, s, Withdraws(r, who));
    if r in s.states && !Withdrawn(s.states[r], who).Authorized?() {
      BecomesOn(es + [Withdraws(r, who)], v, Deletes(s.states[r].id));
      TwoMore(es, Withdraws(r, who), Deletes(s.states[r].id));
    }
  }

  /** A withdrawal is what its events make of the store. */
  lemma {:induction false} WithdrawalRuns<R>(es: seq<Event<R>>, rs: seq<R>, who: string)
    requires AllLegal(es) && NoOrphans(es)
    ensures Becomes(es + Withdrawal(PageRuns.Run(es), rs, who), DeauthorizeAll(PageRuns.Run(es), rs, who))
  {
    var s := PageRuns.Run(es);
    if rs == [] {
      assert es + [] == es;
    } else {
      WithdrawalRuns(es, DropLast(rs), who);
      ThenLeaving(es, Withdrawal(s, DropLast(rs), who), DeauthorizeAll(s, DropLast(rs), who), rs[|rs| - 1], who);
    }
  }

  lemma ThenLeaving<R>(es: seq<Event<R>>, more: seq<Event<R>>, v: Store<R>, r: R, who: string)
    requires Becomes(es + more, v)
    ensures Becomes(es + (more + Leaving(v, r, who)), DeauthorizeOne(v, r, who))
  {
    LeavingRuns(es + more, v, r, who);
    assert es + (more + Leaving(v, r, who)) == es + more + Leaving(v, r, who);
  }

  /** The object is what the run of the events makes. */
  ghost predicate Holds(c: MessengerPages, all: set<Page>, es: seq<Event<Page>>)
    reads c, all
  {
    && c.pages.Values <= all && c.Snapshot(all) == PageRuns.Run(es) && AllLegal(es) && NoOrphans(es)
    && c.Snapshot(all).Keyed() && c.Snapshot(all).Active()
  }

  method TakeList(c: MessengerPages, ghost es: seq<Event<Page>>, user: string, listed: seq<Listed>, ghost ids: set<string>, ghost all: set<Page>)
    returns (ghost m: Moment, ghost now: set<Page>)
    requires Holds(c, all, es)
    modifies c, all
    ensures Holds(c, now, m.events) && all <= now && fresh(now - all) && Did(es, List(user, listed), m, ids)
  {
    ghost var order, spare;
    order, spare, now := c.SetPages(user, listed, ids, all);
    ghost var e := Lists(user, listed, order, spare);
    m := Moment(es + [e], []);
    RunOn(es, e);
    assert DropLast(m.events) == es && m.events[|es|] == e;
  }

  method TakeDelete(c: MessengerPages, ghost es: seq<Event<Page>>, key: string, ghost all: set<Page>) returns (ghost m: Moment)
    requires Holds(c, all, es)
    modifies c
    ensures Holds(c, all, m.events) && m.events == es + [Deletes(key)]
  {
    c.SmallerSnapshot(all);
    ghost var s := PageRuns.Run(es);
    var _ := c.DelPage(key);
    m := Moment(es + [Deletes(key)], []);
    RunOn(es, Deletes(key));
    StepIsKeyed(s, Deletes(key));
  }

  method TakeLeave(c: MessengerPages, ghost es: seq<Event<Page>>, id: string, who: string, ghost all: set<Page>) returns (ghost m: Moment)
    requires Holds(c, all, es)
    modifies c, all
    ensures Holds(c, all, m.events) && Did(es, Leave(id, who), m, {})
  {
    var ok;
    ghost var named;
    ok, named := c.Deauthorize(id, who, all);
    m := Moment(es + Withdrawal(PageRuns.Run(es), named, who), named);
    WithdrawalRuns(es, named, who);
  }

  /** One act. */
  method Take(c: MessengerPages, ghost es: seq<Event<Page>>, a: Act, ghost ids: set<string>, ghost all: set<Page>)
    returns (ghost m: Moment, ghost now: set<Page>)
    requires Holds(c, all, es)
    modifies c, all
    ensures Holds(c, now, m.events) && all <= now && fresh(now - all) && Did(es, a, m, ids)
  {
    now := all;
    match a {
      case List(user, listed) => m, now := TakeList(c, es, user, listed, ids, all);
      case Delete(key) => m := TakeDelete(c, es, key, all);
      case Leave(id, who) => m := TakeLeave(c, es, id, who, all);
    }
  }

  /**
   In every run of acts on a new store, with any runtime and any ids, the store is at the
   end what the run of the acts' events makes, so that what is proved of runs holds of
   it; each key is its page's id or Instagram id, and each token in use the first grant's.
   */
  method Session(acts: seq<Act>, ghost ids: set<string>)
    returns (c: MessengerPages, ghost all: set<Page>, ghost trace: seq<Moment>)
    ensures |trace| == |acts| + 1 && trace[0] == Moment([], []) && Holds(c, all, trace[|acts|].events)
    ensures forall i :: 0 <= i < |acts| ==> Did(trace[i].events, acts[i], trace[i + 1], ids)
  {
    c := new MessengerPages();
    all, trace := {}, [Moment([], [])];
    assert c.Snapshot({}) == Store(map[], map[]);
    for i := 0 to |acts|
      invariant fresh(c) && fresh(all) && |trace| == i + 1 && trace[0] == Moment([], []) && Holds(c, all, trace[i].events)
      invariant forall j :: 0 <= j < i ==> Did(trace[j].events, acts[j], trace[j + 1], ids)
    {
      ghost var m, now;
      m, now := Take(c, trace[i].events, acts[i], ids, all);
      all, trace := now, trace + [m];
    }
  }
}
