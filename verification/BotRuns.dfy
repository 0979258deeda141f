/**
 Whole runs of a service as objects: bots are registered, found, upgraded and deleted, and
 the channels of each do any operations in any order. After each event the objects are
 what `Services` says.
 */
module BotRuns {
  import opened Wrappers
  import opened Sequences
  import opened Chats
  import opened ChatRuns
  import opened Bots
  import opened Services

  // ----- one bot

  /** What the channels of a bot are now is what the run of their operations left. */
  ghost predicate Kept(srv: Service, l: Line)
    reads l.gate.index, l.pool
  {
    && l.gate.srv == srv && l.gate.index.Owns(srv, l.pool) && (forall c :: c in l.pool ==> c.gateway.pid == l.gate.pid)
    && AllLegal(l.taken) && l.gate.index.State(l.pool) == ChatRuns.Run(l.taken)
  }

  /** The sets are those of the enabled and of the deleted revisions. */
  ghost predicate Flagged(all: set<Gateway>, open: set<Gateway>, deleted: set<Gateway>)
    reads all`enabled, all`deleted
  {
    forall g :: g in all ==> (g.enabled <==> g in open) && (g.deleted <==> g in deleted)
  }

  /** Where a line's channels are after a step, and what they are. */
  ghost predicate Reaches(srv: Service, l: Line, s: Step<Channel>, pool: set<Channel>)
    reads l.gate.index, pool
  {
    && l.gate.srv == srv && l.gate.index.Owns(srv, pool) && (forall c :: c in pool ==> c.gateway.pid == l.gate.pid)
    && AllLegal(l.taken) && Legal(ChatRuns.Run(l.taken), s) && l.gate.index.State(pool) == After(ChatRuns.Run(l.taken), s)
  }

  function Longer(l: Line, s: Step<Channel>, pool: set<Channel>): Line {
    Line(l.gate, pool, l.taken + [s])
  }

  lemma Extend(srv: Service, l: Line, s: Step<Channel>, pool: set<Channel>, open: set<Gateway>, op: Op)
    requires Reaches(srv, l, s, pool)
    ensures Kept(srv, Longer(l, s, pool))
    ensures
      Is(s, op, BotOf(l, open), l.pool) && l.pool <= pool && (forall c :: c in pool - l.pool ==> c.gateway == l.gate) && !Idle(l, open, op)
      ==> Grown(l, open, op, Longer(l, s, pool))
  {
    RunOn(l.taken, s);
  }

  method LookUp(srv: Service, l: Line, chat: string, contact: Option<Account>, check: Check) returns (r: Option<Channel>)
    requires Kept(srv, l) && NamedCheck(check)
    modifies l.gate.index, l.pool
    ensures r.Some? <==> Answers(ChatRuns.Run(l.taken), old(l.gate.Bot()), chat, contact, check)
    ensures r.None? ==> Kept(srv, l)
    ensures r.Some? ==>
      && (r.value in l.pool || (fresh(r.value) && r.value.gateway == l.gate))
      && Reaches(srv, l, Find(old(l.gate.Bot()), chat, contact, check, r.value), l.pool + {r.value})
  {
    RunIsSound(l.taken);
    r := l.gate.GetChannel(chat, contact, check, l.pool);
  }

  method TakeLook(srv: Service, l: Line, ghost open: set<Gateway>, ghost deleted: set<Gateway>, chat: string, contact: Option<Account>,
                  check: Check) returns (next: Line)
    requires Kept(srv, l) && NamedCheck(check) && Flagged({l.gate}, open, deleted)
    modifies l.gate.index, l.pool
    ensures Kept(srv, next) && Grown(l, open, Look(chat, contact, check), next)
    ensures forall c :: c in next.pool ==> c in l.pool || (fresh(c) && c.gateway == l.gate)
    ensures forall m :: Outcome(m, l, next, deleted) == m
  {
    var bot := l.gate.Bot();
    var r := LookUp(srv, l, chat, contact, check);
    if r.None? {
      return l;
    }
    var s := Find(bot, chat, contact, check, r.value);
    next := Longer(l, s, l.pool + {r.value});
    Extend(srv, l, s, l.pool + {r.value}, open, Look(chat, contact, check));
  }

  method HearFrom(srv: Service, l: Line, chat: string, m: Message, check: Check, now: int) returns (r: Option<Channel>)
    requires Kept(srv, l) && NamedCheck(check) && now != 0
    modifies l.gate.index, srv, l.pool
    ensures r.Some? <==> Answers(ChatRuns.Run(l.taken), old(l.gate.Bot()), chat, None, check)
    ensures r.None? ==> Kept(srv, l) && srv.Registry() == old(srv.Registry())
    ensures r.Some? ==>
      && (r.value in l.pool || (fresh(r.value) && r.value.gateway == l.gate))
      && Reaches(srv, l, Announce(old(l.gate.Bot()), chat, m, check, r.value, now), l.pool + {r.value})
      && Chats.Answer(ChatRuns.Run(l.taken), old(l.gate.Bot()), chat, None, check, r.value) == r
      && srv.Registry() ==
          if Dropped(ChatRuns.Run(l.taken), old(l.gate.Bot()), chat, m, check, r.value) == r && l.gate.index.external == map[]
            && r.value.gateway.deleted
          then Retired(old(srv.Registry()), r.value.gateway) else old(srv.Registry())
  {
    RunIsSound(l.taken);
    r := l.gate.Send(chat, m, check, now, l.pool);
  }

  /** The registry is as the last step left it. */
  lemma Ended(srv: Service, l: Line, s: Step<Channel>, pool: set<Channel>, was: Maps, now: Maps, c: Channel, deleted: set<Gateway>)
    requires Reaches(srv, l, s, pool)
    requires Leaver(ChatRuns.Run(l.taken), s) in {None, Some(c)} && (c.gateway.deleted <==> c.gateway in deleted)
    requires now == if Leaver(ChatRuns.Run(l.taken), s) == Some(c) && l.gate.index.external == map[] && c.gateway.deleted
      then Retired(was, c.gateway) else was
    ensures now == Outcome(was, l, Longer(l, s, pool), deleted)
  {
    RunOn(l.taken, s);
  }

  lemma Heard(srv: Service, l: Line, open: set<Gateway>, deleted: set<Gateway>, bot: Bot, chat: string, m: Message, check: Check,
              now: int, c: Channel, was: Maps)
    requires bot == BotOf(l, open) && Answers(ChatRuns.Run(l.taken), bot, chat, None, check)
    requires Chats.Answer(ChatRuns.Run(l.taken), bot, chat, None, check, c) == Some(c) && (c in l.pool || c.gateway == l.gate)
    requires Reaches(srv, l, Announce(bot, chat, m, check, c, now), l.pool + {c}) && (c.gateway.deleted <==> c.gateway in deleted)
    requires srv.Registry() ==
      if Dropped(ChatRuns.Run(l.taken), bot, chat, m, check, c) == Some(c) && l.gate.index.external == map[] && c.gateway.deleted
      then Retired(was, c.gateway) else was
    ensures var next := Longer(l, Announce(bot, chat, m, check, c, now), l.pool + {c});
      Kept(srv, next) && Grown(l, open, Hear(chat, m, check, now), next) && srv.Registry() == Outcome(was, l, next, deleted)
  {
    var s := Announce(bot, chat, m, check, c, now);
    Extend(srv, l, s, l.pool + {c}, open, Hear(chat, m, check, now));
    Ended(srv, l, s, l.pool + {c}, was, srv.Registry(), c, deleted);
  }

  method TakeHear(srv: Service, l: Line, ghost open: set<Gateway>, ghost deleted: set<Gateway>, chat: string, m: Message, check: Check,
                  now: int) returns (next: Line)
    requires Kept(srv, l) && NamedCheck(check) && now != 0 && Flagged(Team(l), open, deleted)
    modifies l.gate.index, srv, l.pool
    ensures Kept(srv, next) && Grown(l, open, Hear(chat, m, check, now), next)
    ensures forall c :: c in next.pool ==> c in l.pool || (fresh(c) && c.gateway == l.gate)
    ensures srv.Registry() == Outcome(old(srv.Registry()), l, next, deleted)
  {
    var bot := l.gate.Bot();
    ghost var was := srv.Registry();
    var r := HearFrom(srv, l, chat, m, check, now);
    if r.None? {
      return l;
    }
    next := Longer(l, Announce(bot, chat, m, check, r.value, now), l.pool + {r.value});
    Heard(srv, l, open, deleted, bot, chat, m, check, now, r.value, was);
  }

  method TakeOpen(srv: Service, l: Line, ghost open: set<Gateway>, c: Channel, m: Message, reply: StartReply) returns (next: Line)
    requires Kept(srv, l) && Named(reply) && c in l.pool
    modifies l.gate.index, l.pool
    ensures Kept(srv, next) && Grown(l, open, Open(m, reply), next) && next.pool == l.pool
    ensures forall m, deleted :: Outcome(m, l, next, deleted) == m
  {
    var _ := c.Start(m, reply, l.pool);
    next := Longer(l, Begin(c, m, reply), l.pool);
    Extend(srv, l, Begin(c, m, reply), l.pool, open, Open(m, reply));
  }

  method TakeSay(srv: Service, l: Line, ghost open: set<Gateway>, ghost deleted: set<Gateway>, c: Channel, op: Op) returns (next: Line)
    requires Kept(srv, l) && op.Say? && Real(op) && c in l.pool && Flagged({c.gateway}, open, deleted)
    modifies l.gate.index, srv, l.pool
    ensures Kept(srv, next) && Grown(l, open, op, next) && next.pool == l.pool
    ensures srv.Registry() == Outcome(old(srv.Registry()), l, next, deleted)
  {
    var _ := c.Recv(op.m, op.sent, op.reply, op.text, op.again, op.now, op.accepted, l.pool);
    var s := Receive(c, op.m, op.sent, op.reply, op.text, op.again, op.now, op.accepted);
    next := Longer(l, s, l.pool);
    Extend(srv, l, s, l.pool, open, op);
    Ended(srv, l, s, l.pool, old(srv.Registry()), srv.Registry(), c, deleted);
  }

  method TakeLeaves(srv: Service, l: Line, ghost open: set<Gateway>, ghost deleted: set<Gateway>, c: Channel, now: int, accepted: bool)
    returns (next: Line)
    requires Kept(srv, l) && now != 0 && c in l.pool && Flagged({c.gateway}, open, deleted)
    modifies l.gate.index, srv, l.pool
    ensures Kept(srv, next) && Grown(l, open, Leaves(now, accepted), next) && next.pool == l.pool
    ensures srv.Registry() == Outcome(old(srv.Registry()), l, next, deleted)
  {
    var _ := c.Close(now, accepted, l.pool);
    var s := Leave(c, now, accepted);
    next := Longer(l, s, l.pool);
    Extend(srv, l, s, l.pool, open, Leaves(now, accepted));
    Ended(srv, l, s, l.pool, old(srv.Registry()), srv.Registry(), c, deleted);
  }

  /** An operation on any of the channels met so far. */
  method TakeOnOne(srv: Service, l: Line, ghost open: set<Gateway>, ghost deleted: set<Gateway>, op: Op) returns (next: Line)
    requires Kept(srv, l) && Real(op) && !op.Look? && !op.Hear? && l.pool != {} && Flagged(Team(l), open, deleted)
    modifies l.gate.index, srv, l.pool
    ensures Kept(srv, next) && Grown(l, open, op, next) && next.pool == l.pool
    ensures srv.Registry() == Outcome(old(srv.Registry()), l, next, deleted)
  {
    var c :| c in l.pool;
    assert c.gateway in Team(l);
    match op {
      case Open(m, reply) => next := TakeOpen(srv, l, open, c, m, reply);
      case Say(_, _, _, _, _, _, _) => next := TakeSay(srv, l, open, deleted, c, op);
      case Leaves(now, accepted) => next := TakeLeaves(srv, l, open, deleted, c, now, accepted);
    }
  }

  /** One operation on the channels of a bot, on any of those met so far. */
  method TakeOp(srv: Service, l: Line, ghost open: set<Gateway>, ghost deleted: set<Gateway>, op: Op) returns (next: Line)
    requires Kept(srv, l) && Real(op) && Flagged(Team(l), open, deleted)
    modifies l.gate.index, srv, l.pool
    ensures Kept(srv, next) && Grown(l, open, op, next)
    ensures forall c :: c in next.pool ==> c in l.pool || (fresh(c) && c.gateway == l.gate)
    ensures srv.Registry() == Outcome(old(srv.Registry()), l, next, deleted)
  {
    assert l.gate in Team(l);
    if op.Look? {
      next := TakeLook(srv, l, open, deleted, op.chat, op.contact, op.check);
    } else if op.Hear? {
      next := TakeHear(srv, l, open, deleted, op.chat, op.m, op.check, op.now);
    } else if l.pool == {} {
      next := l;
    } else {
      next := TakeOnOne(srv, l, open, deleted, op);
    }
  }

  // ----- all bots of a service

  ghost function Objects(lines: seq<Line>): set<object> {
    Revisions(lines) + (set l | l in lines :: l.gate.index) + set l, c | l in lines && c in l.pool :: c
  }

  /** What holds between events: the objects are what the view says. */
  ghost predicate World(srv: Service, v: View)
    reads srv, Objects(v.lines)
  {
    && srv.Registry() == v.maps && InOrder(srv, v) && Flagged(Revisions(v.lines), v.open, v.deleted)
    && forall i :: 0 <= i < |v.lines| ==> Kept(srv, v.lines[i])
  }

  /** A line's new channels belong to its latest revision. */
  ghost predicate Adds(l: Line, next: Line) {
    next.gate == l.gate && forall c :: c in next.pool - l.pool ==> c.gateway == l.gate
  }

  lemma OperatedObjects(lines: seq<Line>, i: nat, next: Line)
    requires i < |lines| && Adds(lines[i], next)
    ensures Revisions(lines[i := next]) <= Revisions(lines)
    ensures Objects(lines[i := next]) <= Objects(lines) + (next.pool - lines[i].pool)
  {
    var after := lines[i := next];
    forall l | l in after ensures l in lines || l == next {
    }
    assert lines[i] in lines && Team(next) <= Team(lines[i]);
  }

  lemma OperatedWorld(srv: Service, v: View, i: nat, op: Op, w: View)
    requires InOrder(srv, v) && i < |v.lines| && Operates(v, i, op, w) && Adds(v.lines[i], w.lines[i])
    requires srv.Registry() == w.maps && Flagged(Revisions(v.lines), v.open, v.deleted)
    requires Kept(srv, w.lines[i]) && forall j :: 0 <= j < |v.lines| && j != i ==> Kept(srv, v.lines[j])
    ensures World(srv, w)
  {
    OperatedIsSound(srv, v, i, op, w);
    OperatedObjects(v.lines, i, w.lines[i]);
  }

  /** What the other lines are made of. */
  ghost function Others(lines: seq<Line>, i: nat): set<object> {
    var indexes: set<object> := set j | 0 <= j < |lines| && j != i :: lines[j].gate.index;
    indexes + set j, c | 0 <= j < |lines| && j != i && c in lines[j].pool :: c
  }

  ghost predicate OthersKept(srv: Service, lines: seq<Line>, i: nat)
    reads Others(lines, i)
  {
    forall j :: 0 <= j < |lines| && j != i ==> Kept(srv, lines[j])
  }

  lemma OthersApart(srv: Service, lines: seq<Line>, i: nat)
    requires i < |lines| && Kept(srv, lines[i]) && OthersKept(srv, lines, i)
    requires forall j :: 0 <= j < |lines| && j != i ==> lines[j].gate.index != lines[i].gate.index
    ensures lines[i].gate.index !in Others(lines, i) && srv !in Others(lines, i) && forall c :: c in lines[i].pool ==> c !in Others(lines, i)
  {
    forall j, c | 0 <= j < |lines| && j != i && c in lines[j].pool ensures c !in lines[i].pool {
      assert c.gateway.index == lines[j].gate.index;
    }
  }

  /** Operations on one line leave the others alone. */
  method TakeOnLine(srv: Service, lines: seq<Line>, i: nat, ghost all: set<Gateway>, ghost open: set<Gateway>,
                    ghost deleted: set<Gateway>, op: Op) returns (next: Line)
    requires i < |lines| && Kept(srv, lines[i]) && OthersKept(srv, lines, i) && Real(op)
    requires Team(lines[i]) <= all && Flagged(all, open, deleted)
    requires forall j :: 0 <= j < |lines| && j != i ==> lines[j].gate.index != lines[i].gate.index
    modifies srv, lines[i].gate.index, lines[i].pool
    ensures Kept(srv, next) && OthersKept(srv, lines, i) && Flagged(all, open, deleted)
    ensures Grown(lines[i], open, op, next) && Adds(lines[i], next) && fresh(next.pool - lines[i].pool)
    ensures srv.Registry() == Outcome(old(srv.Registry()), lines[i], next, deleted)
  {
    OthersApart(srv, lines, i);
    next := TakeOp(srv, lines[i], open, deleted, op);
  }

  method TakeOn(srv: Service, lines: seq<Line>, ghost v: View, i: nat, op: Op) returns (next: seq<Line>, ghost w: View, ghost news: set<object>)
    requires World(srv, v) && v.lines == lines && i < |lines| && Real(op)
    modifies srv, lines[i].gate.index, lines[i].pool
    ensures World(srv, w) && w.lines == next && Operates(v, i, op, w)
    ensures Objects(w.lines) <= Objects(v.lines) + news && fresh(news)
  {
    assert lines[i] in lines && Team(lines[i]) <= Revisions(lines);
    var l := TakeOnLine(srv, lines, i, Revisions(lines), v.open, v.deleted, op);
    next := lines[i := l];
    w := View(Outcome(v.maps, lines[i], l, v.deleted), v.open, v.deleted, next);
    OperatedWorld(srv, v, i, op, w);
    OperatedObjects(lines, i, l);
    news := l.pool - lines[i].pool;
  }

  lemma RevisedTeams(srv: Service, v: View, g: Gateway, enabled: bool, ok: bool)
    requires InOrder(srv, v) && Follows(srv, v, g)
    ensures Revisions(Revised(v, g, enabled, ok).lines) <= Revisions(v.lines) + {g}
  {
    var lines, at := Revised(v, g, enabled, ok).lines, Place(v, g.pid);
    RevisedLines(srv, v, g, enabled, ok);
    forall l, h | l in lines && h in Team(l) ensures h in Revisions(v.lines) + {g} {
      var i :| 0 <= i < |lines| && lines[i] == l;
      if at == i < |v.lines| {
        assert lines[at] == v.lines[at].(gate := g) && v.lines[at] in v.lines;
        assert h == g || h in Team(v.lines[at]);
      } else if i == |v.lines| {
        assert l == Line(g, {}, []);
      } else {
        assert l == v.lines[i] && v.lines[i] in v.lines;
      }
    }
  }

  lemma RevisedObjects(srv: Service, v: View, g: Gateway, enabled: bool, ok: bool)
    requires InOrder(srv, v) && Follows(srv, v, g)
    ensures Objects(Revised(v, g, enabled, ok).lines) <= Objects(v.lines) + {g} + {g.index}
  {
    var lines, at := Revised(v, g, enabled, ok).lines, Place(v, g.pid);
    RevisedLines(srv, v, g, enabled, ok);
    RevisedTeams(srv, v, g, enabled, ok);
    forall l | l in lines
      ensures l.gate.index in Objects(v.lines) + {g} + {g.index} && forall c :: c in l.pool ==> c in Objects(v.lines)
    {
      var i :| 0 <= i < |lines| && lines[i] == l;
      if at == i < |v.lines| {
        assert lines[at] == v.lines[at].(gate := g) && v.lines[at] in v.lines;
      } else if i == |v.lines| {
        assert l == Line(g, {}, []);
      } else {
        assert l == v.lines[i] && v.lines[i] in v.lines;
      }
    }
  }

  lemma RevisedWorld(srv: Service, v: View, g: Gateway, enabled: bool, ok: bool)
    requires InOrder(srv, v) && Follows(srv, v, g) && forall i :: 0 <= i < |v.lines| ==> Kept(srv, v.lines[i])
    requires g.pid !in v.maps.profiles ==> g.index.State({}) == EMPTY
    requires var w := Revised(v, g, enabled, ok);
      srv.Registry() == w.maps && Flagged(Revisions(v.lines) + {g}, w.open, w.deleted)
    ensures World(srv, Revised(v, g, enabled, ok))
  {
    var w, at := Revised(v, g, enabled, ok), Place(v, g.pid);
    RevisedLines(srv, v, g, enabled, ok);
    RevisedIsSound(srv, v, g, enabled, ok);
    RevisedTeams(srv, v, g, enabled, ok);
    forall i | 0 <= i < |w.lines| ensures Kept(srv, w.lines[i]) {
      if i == |v.lines| {
        assert w.lines[i] == Line(g, {}, []);
      } else {
        assert Kept(srv, v.lines[i]);
      }
    }
  }

  /** A new revision is registered, and nothing else has changed. */
  ghost predicate Enrolled(srv: Service, v: View, g: Gateway, enabled: bool, ok: bool)
    reads srv, g.index, Others(v.lines, |v.lines|), Revisions(v.lines) + {g}
  {
    && InOrder(srv, v) && Follows(srv, v, g) && OthersKept(srv, v.lines, |v.lines|)
    && (g.pid !in v.maps.profiles ==> g.index.State({}) == EMPTY)
    && srv.Registry() == (if ok then Installed(v.maps, g) else Rejected(v.maps, g))
    && Flagged(Revisions(v.lines) + {g}, Opened(v.open, v.maps.profiles, g, enabled), v.deleted)
  }

  lemma RevisedHolds(srv: Service, v: View, g: Gateway, enabled: bool, ok: bool, news: set<object>)
    requires Enrolled(srv, v, g, enabled, ok) && g in news && g.index in Objects(v.lines) + news
    ensures var w := Revised(v, g, enabled, ok);
      World(srv, w) && Revises(v, g.pid, g.uri, g.provider, enabled, ok, w) && Objects(w.lines) <= Objects(v.lines) + news
  {
    RevisedLines(srv, v, g, enabled, ok);
    RevisedObjects(srv, v, g, enabled, ok);
    RevisedWorld(srv, v, g, enabled, ok);
  }

  /** Lines with a new revision. */
  method Adopt(lines: seq<Line>, running: map<int, Gateway>, g: Gateway, ghost v: View, ghost enabled: bool, ghost ok: bool)
    returns (next: seq<Line>)
    requires lines == v.lines && running == v.maps.profiles
    ensures next == Revised(v, g, enabled, ok).lines
  {
    var at := if g.pid in running then LineOf(lines, running[g.pid]) else |lines|;
    next := if at < |lines| then lines[at := lines[at].(gate := g)] else lines + [Line(g, {}, [])];
  }

  lemma RunsAsItself(m: map<int, Gateway>, g: Gateway)
    requires (forall p :: p in m ==> m[p].pid == p) && g in m.Values
    ensures g.pid in m && m[g.pid] == g
  {
    ValuesIn(m, set p | p in m :: m[p]);
  }

  /** A new revision is registered. */
  method Enroll(srv: Service, pid: int, uri: string, provider: string, enabled: bool, force: bool, accepted: bool,
                ghost all: set<Gateway>, ghost open: set<Gateway>, ghost deleted: set<Gateway>) returns (g: Gateway)
    requires srv.Own() && srv.Routed() && pid != 0 && uri != "" && (pid in srv.profiles ==> srv.profiles[pid].uri == uri)
    requires srv.profiles.Values <= all && Flagged(all, open, deleted)
    modifies srv, srv.profiles.Values`enabled
    ensures fresh(g) && g.Is(pid, uri, provider, srv)
    ensures srv.Registry() == if !force || accepted then Installed(old(srv.Registry()), g) else Rejected(old(srv.Registry()), g)
    ensures if pid in old(srv.profiles) then g.index == old(srv.profiles)[pid].index else fresh(g.index) && g.index.State({}) == EMPTY
    ensures Flagged(all + {g}, Opened(open, old(srv.profiles), g, enabled), deleted)
  {
    var index;
    if pid in srv.profiles {
      index := srv.profiles[pid].index;
    } else {
      index := new ChannelIndex();
    }
    g := new Gateway(pid, uri, provider, srv, index, enabled);
    ghost var was, led := srv.profiles, srv.gateways;
    var _ := g.Register(force, accepted);
    assert led[uri := pid] - {uri} == led - {uri};
    forall h | h in all
      ensures h.enabled <==> h in Opened(open, was, g, enabled)
      ensures h.deleted <==> h in deleted
    {
      if h in was.Values {
        RunsAsItself(was, h);
      }
      assert h.enabled == if h.pid in was && was[h.pid] == h && h.pid == pid then enabled else old(h.enabled);
    }
  }

  /** Registering a revision leaves the channels of all lines alone. */
  method EnrollFor(srv: Service, lines: seq<Line>, pid: int, uri: string, provider: string, enabled: bool, force: bool, accepted: bool,
                   ghost all: set<Gateway>, ghost open: set<Gateway>, ghost deleted: set<Gateway>, ghost known: set<object>)
    returns (g: Gateway, ghost news: set<object>)
    requires srv.Own() && srv.Routed() && pid != 0 && uri != "" && (pid in srv.profiles ==> srv.profiles[pid].uri == uri)
    requires srv.profiles.Values <= all && Flagged(all, open, deleted) && OthersKept(srv, lines, |lines|)
    modifies srv, srv.profiles.Values`enabled
    ensures g.Is(pid, uri, provider, srv) && OthersKept(srv, lines, |lines|)
    ensures fresh(news) && Joins(srv, g, old(srv.Registry()), !force || accepted, known, news)
    ensures Flagged(all + {g}, Opened(open, old(srv.profiles), g, enabled), deleted)
  {
    ghost var was := srv.profiles;
    g := Enroll(srv, pid, uri, provider, enabled, force, accepted, all, open, deleted);
    news := if pid in was then {g} else {g, g.index};
  }

  /** So does looking a bot up, also when it is set up. */
  method LocateFor(srv: Service, lines: seq<Line>, pid: int, uri: string, stored: Stored, setup: bool,
                   ghost all: set<Gateway>, ghost open: set<Gateway>, ghost deleted: set<Gateway>, ghost known: set<object>)
    returns (r: Option<Gateway>, ghost news: set<object>)
    requires srv.Own() && srv.Routed() && 0 !in srv.profiles
    requires Answered(srv.Registry(), pid, uri, stored, setup).SetUp? && stored.id in srv.profiles ==>
      srv.profiles[stored.id].uri == stored.uri
    requires srv.profiles.Values <= all && Flagged(all, open, deleted) && OthersKept(srv, lines, |lines|)
    modifies srv, srv.profiles.Values`enabled
    ensures OthersKept(srv, lines, |lines|) && fresh(news)
    ensures if Answered(old(srv.Registry()), pid, uri, stored, setup).SetUp? then
        && r.Some? && r.value.Is(stored.id, stored.uri, stored.provider, srv)
        && Joins(srv, r.value, old(srv.Registry()), true, known, news)
        && Flagged(all + {r.value}, Opened(open, old(srv.profiles), r.value, stored.enabled), deleted)
      else srv.Registry() == old(srv.Registry()) && Flagged(all, open, deleted)
  {
    ghost var was, sets := srv.profiles, Answered(srv.Registry(), pid, uri, stored, setup).SetUp?;
    r := srv.GatewayOf(pid, uri, stored, setup);
    news := if !sets then {} else if stored.id in was then {r.value} else {r.value, r.value.index};
    forall h | h in all
      ensures h.enabled == if sets && stored.id in was && was[stored.id] == h then stored.enabled else old(h.enabled)
    {
      if h in was.Values {
        RunsAsItself(was, h);
      }
    }
  }

  lemma RunningAreKnown(srv: Service, v: View)
    requires InOrder(srv, v)
    ensures v.maps.profiles.Values <= Revisions(v.lines)
  {
    forall p | p in v.maps.profiles ensures v.maps.profiles[p] in Revisions(v.lines) {
      var i := LineOf(v.lines, v.maps.profiles[p]);
      assert v.lines[i] in v.lines && v.maps.profiles[p] in Team(v.lines[i]);
    }
    ValuesIn(v.maps.profiles, Revisions(v.lines));
  }

  /** The same as `World`, and what follows from it. */
  ghost predicate Parts(srv: Service, v: View)
    reads srv, Others(v.lines, |v.lines|), Revisions(v.lines)
  {
    && srv.Registry() == v.maps && InOrder(srv, v) && Flagged(Revisions(v.lines), v.open, v.deleted)
    && OthersKept(srv, v.lines, |v.lines|) && v.maps.profiles.Values <= Revisions(v.lines)
  }

  lemma WorldParts(srv: Service, v: View)
    requires World(srv, v)
    ensures Parts(srv, v)
  {
    RunningAreKnown(srv, v);
  }

  lemma FollowsNew(srv: Service, v: View, g: Gateway)
    requires g.srv == srv && !Refuses(v, g.pid, g.uri) && g !in Objects(v.lines)
    requires if g.pid in v.maps.profiles then g.index == v.maps.profiles[g.pid].index else g.index !in Objects(v.lines)
    ensures Follows(srv, v, g)
  {
    forall l | l in v.lines ensures l.gate.index in Objects(v.lines) {
    }
  }

  /** What is known of a revision once it is registered. */
  ghost predicate Joins(srv: Service, g: Gateway, was: Maps, ok: bool, known: set<object>, news: set<object>)
    reads srv, g.index
  {
    && g !in known && g in news
    && srv.Registry() == (if ok then Installed(was, g) else Rejected(was, g))
    && if g.pid in was.profiles then g.index == was.profiles[g.pid].index
       else g.index !in known && g.index in news && g.index.State({}) == EMPTY
  }

  lemma EnrolledIs(srv: Service, v: View, g: Gateway, enabled: bool, ok: bool, news: set<object>)
    requires InOrder(srv, v) && OthersKept(srv, v.lines, |v.lines|) && g.srv == srv && !Refuses(v, g.pid, g.uri)
    requires Joins(srv, g, v.maps, ok, Objects(v.lines), news)
    requires Flagged(Revisions(v.lines) + {g}, Opened(v.open, v.maps.profiles, g, enabled), v.deleted)
    ensures Enrolled(srv, v, g, enabled, ok) && g.index in Objects(v.lines) + news
  {
    FollowsNew(srv, v, g);
    if g.pid in v.maps.profiles {
      var i := LineOf(v.lines, v.maps.profiles[g.pid]);
      assert v.lines[i] in v.lines;
    }
  }

  /** A new revision of a bot is registered. */
  method EnrollIn(srv: Service, ghost v: View, lines: seq<Line>, pid: int, uri: string, provider: string, enabled: bool, force: bool,
                  accepted: bool) returns (next: seq<Line>, ghost g: Gateway, ghost news: set<object>)
    requires Parts(srv, v) && v.lines == lines && !Refuses(v, pid, uri)
    modifies srv, srv.profiles.Values`enabled
    ensures Enrolled(srv, v, g, enabled, !force || accepted) && g.Is(pid, uri, provider, srv)
    ensures fresh(news) && g in news && g.index in Objects(v.lines) + news && next == Revised(v, g, enabled, !force || accepted).lines
  {
    var agent;
    var running := srv.profiles;
    agent, news := EnrollFor(srv, lines, pid, uri, provider, enabled, force, accepted, Revisions(lines), v.open, v.deleted, Objects(lines));
    g := agent;
    next := Adopt(lines, running, agent, v, enabled, !force || accepted);
    EnrolledIs(srv, v, g, enabled, !force || accepted, news);
  }

  /** A new revision of a bot is registered, with the lines and the view that this makes. */
  method TakeRevision(srv: Service, lines: seq<Line>, ghost v: View, pid: int, uri: string, provider: string, enabled: bool, force: bool,
                      accepted: bool) returns (next: seq<Line>, ghost w: View, ghost news: set<object>)
    requires Parts(srv, v) && v.lines == lines && !Refuses(v, pid, uri)
    modifies srv, srv.profiles.Values`enabled
    ensures World(srv, w) && w.lines == next && Revises(v, pid, uri, provider, enabled, !force || accepted, w)
    ensures Objects(w.lines) <= Objects(v.lines) + news && fresh(news)
  {
    ghost var g;
    next, g, news := EnrollIn(srv, v, lines, pid, uri, provider, enabled, force, accepted);
    w := Revised(v, g, enabled, !force || accepted);
    RevisedHolds(srv, v, g, enabled, !force || accepted, news);
  }

  /** A revision of a bot, new or under the path it has, is registered. */
  method TakeEnter(srv: Service, lines: seq<Line>, ghost v: View, pid: int, uri: string, provider: string, enabled: bool, force: bool,
                   accepted: bool) returns (next: seq<Line>, ghost w: View, ghost news: set<object>)
    requires World(srv, v) && v.lines == lines
    modifies srv, srv.profiles.Values`enabled
    ensures World(srv, w) && w.lines == next && Happens(v, Enter(pid, uri, provider, enabled, force, accepted), w)
    ensures Objects(w.lines) <= Objects(v.lines) + news && fresh(news)
  {
    if pid == 0 || uri == "" || (pid in srv.profiles && srv.profiles[pid].uri != uri) {
      return lines, v, {};
    }
    WorldParts(srv, v);
    next, w, news := TakeRevision(srv, lines, v, pid, uri, provider, enabled, force, accepted);
  }

  lemma ValuesIn(m: map<int, Gateway>, s: set<Gateway>)
    requires forall p :: p in m ==> m[p] in s
    ensures m.Values <= s
  {
    assert forall p :: p in m ==> m[p] in s;
  }

  /** A bot that is looked up is set up. */
  method LocateIn(srv: Service, ghost v: View, lines: seq<Line>, pid: int, uri: string, stored: Stored, setup: bool)
    returns (next: seq<Line>, ghost g: Gateway, ghost news: set<object>)
    requires Parts(srv, v) && v.lines == lines && Answered(v.maps, pid, uri, stored, setup).SetUp? && !Refuses(v, stored.id, stored.uri)
    modifies srv, srv.profiles.Values`enabled
    ensures Enrolled(srv, v, g, stored.enabled, true) && g.Is(stored.id, stored.uri, stored.provider, srv)
    ensures fresh(news) && g in news && g.index in Objects(v.lines) + news && next == Revised(v, g, stored.enabled, true).lines
  {
    var running := srv.profiles;
    var r;
    r, news := LocateFor(srv, lines, pid, uri, stored, setup, Revisions(lines), v.open, v.deleted, Objects(lines));
    g := r.value;
    next := Adopt(lines, running, r.value, v, stored.enabled, true);
    EnrolledIs(srv, v, g, stored.enabled, true, news);
  }

  lemma PartsWorld(srv: Service, v: View)
    requires Parts(srv, v)
    ensures World(srv, v)
  {
  }

  /** A bot is looked up by its id or path; one that is not running is set up from the store, under the path it has. */
  method TakeLocate(srv: Service, lines: seq<Line>, ghost v: View, pid: int, uri: string, stored: Stored, setup: bool)
    returns (next: seq<Line>, ghost w: View, ghost news: set<object>)
    requires World(srv, v) && v.lines == lines
    modifies srv, srv.profiles.Values`enabled
    ensures World(srv, w) && w.lines == next && Happens(v, Locate(pid, uri, stored, setup), w)
    ensures Objects(w.lines) <= Objects(v.lines) + news && fresh(news)
  {
    WorldParts(srv, v);
    var sets := Answered(Maps(srv.profiles, srv.gateways), pid, uri, stored, setup).SetUp?;
    if sets && stored.id in srv.profiles && srv.profiles[stored.id].uri != stored.uri {
      return lines, v, {};
    }
    if sets {
      ghost var g;
      next, g, news := LocateIn(srv, v, lines, pid, uri, stored, setup);
      w := Revised(v, g, stored.enabled, true);
      RevisedHolds(srv, v, g, stored.enabled, true, news);
    } else {
      var _, _ := LocateFor(srv, lines, pid, uri, stored, setup, Revisions(lines), v.open, v.deleted, Objects(lines));
      next, w, news := lines, v, {};
      PartsWorld(srv, v);
    }
  }

  /** The bots that have no channel indexed are those of empty lines. */
  lemma EmptyIs(srv: Service, v: View, p: int)
    requires InOrder(srv, v) && OthersKept(srv, v.lines, |v.lines|) && p in v.maps.profiles
    ensures IsEmpty(v, p) <==> v.maps.profiles[p].index.external == map[]
  {
    var i := LineOf(v.lines, v.maps.profiles[p]);
    assert Kept(srv, v.lines[i]);
  }

  lemma GoneIs(srv: Service, v: View, ids: seq<int>)
    requires InOrder(srv, v) && OthersKept(srv, v.lines, |v.lines|)
    ensures forall p :: p in Gone(v, SetOf(ids)) <==> p in ids && p in v.maps.profiles && v.maps.profiles[p].index.external == map[]
  {
    forall p | p in v.maps.profiles ensures IsEmpty(v, p) <==> v.maps.profiles[p].index.external == map[] {
      EmptyIs(srv, v, p);
    }
  }

  /** Deleting bots leaves the channels of all lines alone. */
  method DeleteFor(srv: Service, lines: seq<Line>, ids: seq<int>, ghost all: set<Gateway>, ghost open: set<Gateway>,
                   ghost deleted: set<Gateway>, ghost empty: set<int>)
    requires forall p :: p in empty <==> p in ids && p in srv.profiles && srv.profiles[p].index.external == map[]
    requires srv.Own() && srv.Routed() && srv.profiles.Values <= all && Flagged(all, open, deleted) && OthersKept(srv, lines, |lines|)
    modifies srv, srv.profiles.Values`enabled, srv.profiles.Values`deleted
    ensures OthersKept(srv, lines, |lines|) && srv.Registry() == Disposed(old(srv.Registry()), empty)
    ensures var marked := Marked(old(srv.Registry()), SetOf(ids)); Flagged(all, open - marked, deleted + marked)
  {
    ghost var was, marked := srv.profiles, Marked(srv.Registry(), SetOf(ids));
    assert forall h: Gateway :: h in marked <==> h.pid in ids && h.pid in was && was[h.pid] == h;
    var gone := srv.DisposeOf(ids);
    assert forall p :: p in gone <==> p in empty;
    assert gone == empty;
    forall h | h in all
      ensures h.enabled <==> old(h.enabled) && !(h.pid in ids && h.pid in was && was[h.pid] == h)
      ensures h.deleted <==> old(h.deleted) || (h.pid in ids && h.pid in was && was[h.pid] == h)
    {
      if h in was.Values {
        RunsAsItself(was, h);
      }
    }
  }

  /** Bots are deleted; one with a channel that is indexed stays registered. */
  method TakeDelete(srv: Service, lines: seq<Line>, ghost v: View, ids: seq<int>) returns (ghost w: View)
    requires World(srv, v) && v.lines == lines
    modifies srv, srv.profiles.Values`enabled, srv.profiles.Values`deleted
    ensures World(srv, w) && w == Removed(v, SetOf(ids))
  {
    WorldParts(srv, v);
    GoneIs(srv, v, ids);
    DeleteFor(srv, lines, ids, Revisions(lines), v.open, v.deleted, Gone(v, SetOf(ids)));
    w := Removed(v, SetOf(ids));
    RemovedIsSound(srv, v, SetOf(ids));
    PartsWorld(srv, w);
  }

  /** One event. */
  method Take(srv: Service, lines: seq<Line>, ghost v: View, e: Event) returns (next: seq<Line>, ghost w: View, ghost news: set<object>)
    requires World(srv, v) && v.lines == lines && (e.On? ==> Real(e.op))
    modifies srv, Objects(lines)
    ensures World(srv, w) && w.lines == next && Happens(v, e, w)
    ensures Objects(w.lines) <= Objects(v.lines) + news && fresh(news)
  {
    ObjectsHold(srv, v);
    next, w, news := lines, v, {};
    match e {
      case On(i, op) =>
        if i < |lines| {
          next, w, news := TakeOn(srv, lines, v, i, op);
        }
      case Enter(pid, uri, provider, enabled, force, accepted) =>
        next, w, news := TakeEnter(srv, lines, v, pid, uri, provider, enabled, force, accepted);
      case Locate(pid, uri, stored, setup) =>
        next, w, news := TakeLocate(srv, lines, v, pid, uri, stored, setup);
      case Delete(ids) =>
        w := TakeDelete(srv, lines, v, ids);
    }
  }

  lemma ObjectsHold(srv: Service, v: View)
    requires InOrder(srv, v)
    ensures forall g :: g in v.maps.profiles.Values ==> g in Objects(v.lines)
    ensures forall i :: 0 <= i < |v.lines| ==> v.lines[i].gate.index in Objects(v.lines)
    ensures forall i, c :: 0 <= i < |v.lines| && c in v.lines[i].pool ==> c in Objects(v.lines)
  {
    RunningAreKnown(srv, v);
    forall i, c | 0 <= i < |v.lines| && c in v.lines[i].pool ensures c in Objects(v.lines) {
      assert v.lines[i] in v.lines;
    }
  }

  lemma WorldIsLined(srv: Service, v: View)
    requires World(srv, v)
    ensures forall l :: l in v.lines ==> Lined(l)
  {
    forall i | 0 <= i < |v.lines| ensures Lined(v.lines[i]) {
      assert Kept(srv, v.lines[i]) && v.lines[i].gate.index.State(v.lines[i].pool).chans.Keys == v.lines[i].pool;
    }
  }

  // ----- runs

  method Run(events: seq<Event>) returns (srv: Service, lines: seq<Line>, ghost trace: seq<View>)
    requires forall i :: 0 <= i < |events| ==> events[i].On? ==> Real(events[i].op)
    ensures Traced(events, trace) && World(srv, trace[|events|]) && trace[|events|].lines == lines
    ensures forall i :: 0 <= i <= |events| ==> InOrder(srv, trace[i]) && forall l :: l in trace[i].lines ==> Lined(l)
  {
    srv := new Service();
    lines, trace := [], [NOTHING];
    ghost var all: set<object> := {};
    for i := 0 to |events|
      invariant |trace| == i + 1 && trace[0] == NOTHING && trace[i].lines == lines && World(srv, trace[i])
      invariant fresh(srv) && fresh(all) && Objects(lines) <= all
      invariant forall j :: 0 <= j < i ==> Happens(trace[j], events[j], trace[j + 1])
      invariant forall j :: 0 <= j <= i ==> InOrder(srv, trace[j]) && forall l :: l in trace[j].lines ==> Lined(l)
    {
      ghost var w, news;
      lines, w, news := Take(srv, lines, trace[i], events[i]);
      WorldIsLined(srv, w);
      trace, all := trace + [w], all + news;
    }
  }

  /** What the theorems on runs say of a bot's channels. */
  ghost predicate Proper(l: Line)
    reads l.gate.index, l.pool
  {
    var x := l.gate.index.State(l.pool);
    && (AlwaysAgree(l.taken) <==> AllGuarded(l.taken)) && (AllGuarded(l.taken) ==> x.Agree())
    && AllSound(x) && (AllNamed(x) <==> NoBlank(l.taken)) && (AlwaysSpared(l.taken) <==> NoExtra(l.taken))
  }

  lemma KeptIsProper(srv: Service, l: Line)
    requires Kept(srv, l)
    ensures Proper(l)
  {
    AgreeWhenGuarded(l.taken);
    RunIsSound(l.taken);
    RequestsAreNamed(l.taken);
    OneRequestPerSession(l.taken);
  }

  /**
   In every run of a service, whatever it is asked, its registry, the flags of its
   revisions and its bots' channels are after each event what `Happens` says; all along,
   paths lead to running gateways that serve them. At the end each bot's channels are
   what their operations made of them: the indexes agree all along exactly when each
   operation was guarded, each session is asked to close at most once, and all requests
   name a session exactly when no close was blank.
   */
  method Serve(events: seq<Event>) returns (srv: Service, lines: seq<Line>, ghost trace: seq<View>)
    requires forall i :: 0 <= i < |events| ==> events[i].On? ==> Real(events[i].op)
    ensures Traced(events, trace) && World(srv, trace[|events|]) && trace[|events|].lines == lines
    ensures forall i :: 0 <= i <= |events| ==> InOrder(srv, trace[i]) && forall l :: l in trace[i].lines ==> Lined(l)
    ensures forall l :: l in lines ==> Proper(l)
  {
    srv, lines, trace := Run(events);
    forall l | l in lines ensures Proper(l) {
      KeptIsProper(srv, l);
    }
  }
}
