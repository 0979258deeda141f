/**
 Whole runs of a service as values: what each event makes of the registry, of the flags
 of its revisions, and of the operations its bots' channels took. Only the choice of a
 channel, and of new objects, is free.
 */
module Services {
  import opened Wrappers
  import opened Sequences
  import opened Chats
  import opened ChatRuns
  import opened Bots

  /** The latest revision of a bot, the channels met on its index, and the operations they took. */
  datatype Line = Line(gate: Gateway, pool: set<Channel>, taken: seq<Step<Channel>>)

  /** An operation on some channel of a bot. */
  datatype Op =
    | Look(chat: string, contact: Option<Account>, check: Check)
    | Hear(chat: string, m: Message, check: Check, now: int)
    | Open(m: Message, reply: StartReply)
    | Say(m: Message, sent: SendReply, reply: StartReply, text: Option<string>, again: StartReply, now: int, accepted: bool)
    | Leaves(now: int, accepted: bool)

  datatype Event =
    | On(line: nat, op: Op)
    | Enter(pid: int, uri: string, provider: string, enabled: bool, force: bool, accepted: bool)
    | Locate(pid: int, uri: string, stored: Stored, setup: bool)
    | Delete(ids: seq<int>)

  /** Sessions are named, and clocks have started. */
  predicate Real(op: Op) {
    match op
    case Look(_, _, check) => NamedCheck(check)
    case Hear(_, _, check, now) => NamedCheck(check) && now != 0
    case Open(_, reply) => Named(reply)
    case Say(_, _, reply, _, again, now, _) => Named(reply) && Named(again) && now != 0
    case Leaves(now, _) => now != 0
  }

  /** The step is this operation, of this bot, on a channel of the pool. */
  predicate Is(s: Step<Channel>, op: Op, bot: Bot, pool: set<Channel>) {
    match op
    case Look(chat, contact, check) => s.Find? && s == Find(bot, chat, contact, check, s.spare)
    case Hear(chat, m, check, now) => s.Announce? && s == Announce(bot, chat, m, check, s.spare, now)
    case Open(m, reply) => s.Begin? && s.r in pool && s == Begin(s.r, m, reply)
    case Say(m, sent, reply, text, again, now, accepted) =>
      s.Receive? && s.r in pool && s == Receive(s.r, m, sent, reply, text, again, now, accepted)
    case Leaves(now, accepted) => s.Leave? && s.r in pool && s == Leave(s.r, now, accepted)
  }

  function BotOf(l: Line, open: set<Gateway>): Bot {
    Chats.Bot(l.gate.provider, l.gate in open)
  }

  /** The operation is not possible: no channel was met, or the lookup fails. */
  predicate Idle(l: Line, open: set<Gateway>, op: Op) {
    match op
    case Look(chat, contact, check) => !Answers(ChatRuns.Run(l.taken), BotOf(l, open), chat, contact, check)
    case Hear(chat, m, check, _) => !Answers(ChatRuns.Run(l.taken), BotOf(l, open), chat, None, check)
    case _ => l.pool == {}
  }

  /** A line after an operation: a step more, unless it was not possible. */
  predicate Grown(l: Line, open: set<Gateway>, op: Op, next: Line) {
    if Idle(l, open, op) then next == l
    else
      && next.gate == l.gate && l.pool <= next.pool
      && |next.taken| == |l.taken| + 1 && DropLast(next.taken) == l.taken
      && Is(next.taken[|l.taken|], op, BotOf(l, open), l.pool) && forall c :: c in next.pool - l.pool ==> c.gateway == l.gate
  }

  /** The channel that a step takes out of the indexes for good. */
  function Leaver(x: Index<Channel>, s: Step<Channel>): Option<Channel> {
    match s
    case Announce(bot, chat, m, check, spare, now) => Dropped(x, bot, chat, m, check, spare)
    case Receive(r, m, _, _, _, _, _, accepted) => if Ends(x, r, m, accepted) then Some(r) else None
    case Leave(r, _, accepted) => if Detaches(x, r, accepted) then Some(r) else None
    case _ => None
  }

  /** The registry after an operation: the last channel takes the revision it belongs to with it, if that is deleted. */
  function Outcome(m: Maps, l: Line, next: Line, deleted: set<Gateway>): Maps {
    if |next.taken| <= |l.taken| then m
    else match Leaver(ChatRuns.Run(l.taken), next.taken[|l.taken|])
      case Some(c) => if ChatRuns.Run(next.taken).external == map[] && c.gateway in deleted then Retired(m, c.gateway) else m
      case None => m
  }

  // ----- what events make of a service

  /** A service: its registry, which revisions are enabled and which are deleted, and the lines of its bots. */
  datatype View = View(maps: Maps, open: set<Gateway>, deleted: set<Gateway>, lines: seq<Line>)

  const NOTHING: View := View(Maps(map[], map[]), {}, {}, [])

  /** The place of a gateway's line, or the length. */
  function LineOf(lines: seq<Line>, g: Gateway): (i: nat)
    ensures i <= |lines| && (i < |lines| ==> lines[i].gate == g)
    ensures i == |lines| ==> forall j :: 0 <= j < |lines| ==> lines[j].gate != g
  {
    if lines == [] || lines[0].gate == g then 0 else LineOf(lines[1..], g) + 1
  }

  /** No channel of the running bot is indexed. */
  predicate IsEmpty(v: View, p: int) {
    p in v.maps.profiles &&
    var i := LineOf(v.lines, v.maps.profiles[p]);
    i < |v.lines| && ChatRuns.Run(v.lines[i].taken).external == map[]
  }

  ghost predicate Operates(v: View, i: nat, op: Op, w: View)
    requires i < |v.lines|
  {
    && |w.lines| == |v.lines| && Grown(v.lines[i], v.open, op, w.lines[i])
    && w == View(Outcome(v.maps, v.lines[i], w.lines[i], v.deleted), v.open, v.deleted, v.lines[i := w.lines[i]])
  }

  /** The bot's path is another one, or there is none. */
  predicate Refuses(v: View, pid: int, uri: string) {
    pid == 0 || uri == "" || (pid in v.maps.profiles && v.maps.profiles[pid].uri != uri)
  }

  /** The line a revision of a bot goes to: that of the one running, or a new one. */
  function Place(v: View, pid: int): nat {
    if pid in v.maps.profiles then LineOf(v.lines, v.maps.profiles[pid]) else |v.lines|
  }

  /** Which revisions are enabled, once one is registered. */
  function Opened(open: set<Gateway>, was: map<int, Gateway>, g: Gateway, enabled: bool): set<Gateway> {
    var running := if g.pid in was then {was[g.pid]} else {};
    if enabled then open + running + {g} else open - running
  }

  /** A service with a new revision that the provider accepts or not: it has the channels of the one running, which is enabled as it is. */
  function Revised(v: View, g: Gateway, enabled: bool, ok: bool): View {
    var at := Place(v, g.pid);
    View(if ok then Installed(v.maps, g) else Rejected(v.maps, g), Opened(v.open, v.maps.profiles, g, enabled), v.deleted,
         if at < |v.lines| then v.lines[at := v.lines[at].(gate := g)] else v.lines + [Line(g, {}, [])])
  }

  ghost predicate Revises(v: View, pid: int, uri: string, provider: string, enabled: bool, ok: bool, w: View) {
    Place(v, pid) < |w.lines| &&
    var g := w.lines[Place(v, pid)].gate;
    && g.pid == pid && g.uri == uri && g.provider == provider && g !in Revisions(v.lines)
    && (if pid in v.maps.profiles then g.index == v.maps.profiles[pid].index else forall l :: l in v.lines ==> l.gate.index != g.index)
    && w == Revised(v, g, enabled, ok)
  }

  /** Deleted bots are marked, and those without channels are unregistered. */
  function Removed(v: View, ids: set<int>): View {
    View(Disposed(v.maps, Gone(v, ids)), v.open - Marked(v.maps, ids), v.deleted + Marked(v.maps, ids), v.lines)
  }

  function Marked(m: Maps, ids: set<int>): set<Gateway> {
    set p | p in ids && p in m.profiles :: m.profiles[p]
  }

  function Gone(v: View, ids: set<int>): set<int> {
    set p | p in ids && IsEmpty(v, p)
  }

  function SetOf(ids: seq<int>): set<int> {
    set p | p in ids
  }

  /** What an event makes of a service; only the choice of a channel, and of new objects, is free. */
  ghost predicate Happens(v: View, e: Event, w: View) {
    match e
    case On(i, op) => if i < |v.lines| then Operates(v, i, op, w) else w == v
    case Enter(pid, uri, provider, enabled, force, accepted) =>
      if Refuses(v, pid, uri) then w == v else Revises(v, pid, uri, provider, enabled, !force || accepted, w)
    case Locate(pid, uri, stored, setup) =>
      if Answered(v.maps, pid, uri, stored, setup).SetUp? && !Refuses(v, stored.id, stored.uri)
      then Revises(v, stored.id, stored.uri, stored.provider, stored.enabled, true, w) else w == v
    case Delete(ids) => w == Removed(v, SetOf(ids))
  }

  ghost function Gates(lines: seq<Line>): set<Gateway> {
    set l | l in lines :: l.gate
  }

  /** The revisions that a bot's channels belong to, and the latest. */
  ghost function Team(l: Line): set<Gateway> {
    {l.gate} + set c | c in l.pool :: c.gateway
  }

  ghost function Revisions(lines: seq<Line>): set<Gateway> {
    set l, g | l in lines && g in Team(l) :: g
  }

  /** Each event of a run, from nothing on, makes of a service what `Happens` says. */
  ghost predicate Traced(events: seq<Event>, trace: seq<View>) {
    && |trace| == |events| + 1 && trace[0] == NOTHING
    && forall i :: 0 <= i < |events| ==> Happens(trace[i], events[i], trace[i + 1])
  }

  // ----- what holds after every event

  /** Paths lead to running gateways that serve them, every running gateway is the latest of its line, and lines share nothing. */
  ghost predicate InOrder(srv: Service, v: View) {
    && Routes(v.maps.profiles, v.maps.gateways) && 0 !in v.maps.profiles
    && (forall p :: p in v.maps.profiles ==>
          v.maps.profiles[p].pid == p && v.maps.profiles[p].srv == srv && LineOf(v.lines, v.maps.profiles[p]) < |v.lines|)
    && forall i, j :: 0 <= i < j < |v.lines| ==> v.lines[i].gate.index != v.lines[j].gate.index
  }

  /** A line's channels are those its operations met, and they are its bot's. */
  ghost predicate Lined(l: Line) {
    && AllLegal(l.taken) && l.pool == ChatRuns.Run(l.taken).chans.Keys
    && forall c :: c in l.pool ==> c.gateway.index == l.gate.index && c.gateway.pid == l.gate.pid
  }

  lemma LineIs(lines: seq<Line>, g: Gateway, i: nat)
    requires i < |lines| && lines[i].gate == g
    ensures LineOf(lines, g) < |lines|
  {
  }

  /** Lines whose latest revisions stay are found as before. */
  lemma SameGates(lines: seq<Line>, next: seq<Line>, g: Gateway)
    requires |next| == |lines| && forall j :: 0 <= j < |lines| ==> next[j].gate == lines[j].gate
    ensures LineOf(next, g) < |next| <==> LineOf(lines, g) < |lines|
  {
    if LineOf(lines, g) < |lines| {
      LineIs(next, g, LineOf(lines, g));
    }
    if LineOf(next, g) < |next| {
      LineIs(lines, g, LineOf(next, g));
    }
  }

  lemma OperatedIsSound(srv: Service, v: View, i: nat, op: Op, w: View)
    requires InOrder(srv, v) && i < |v.lines| && Operates(v, i, op, w)
    ensures InOrder(srv, w)
  {
    var l, next := v.lines[i], w.lines[i];
    if |next.taken| > |l.taken| && Leaver(ChatRuns.Run(l.taken), next.taken[|l.taken|]).Some? {
      RetiredIsRouted(v.maps, Leaver(ChatRuns.Run(l.taken), next.taken[|l.taken|]).value.gateway);
    }
    forall p | p in w.maps.profiles ensures p in v.maps.profiles && w.maps.profiles[p] == v.maps.profiles[p]
      && LineOf(w.lines, w.maps.profiles[p]) < |w.lines|
    {
      SameGates(v.lines, w.lines, w.maps.profiles[p]);
    }
  }

  /** The revision is new, and has the channels of the one that runs; the first has none. */
  ghost predicate Follows(srv: Service, v: View, g: Gateway) {
    && g.srv == srv && !Refuses(v, g.pid, g.uri) && g !in Revisions(v.lines)
    && if g.pid in v.maps.profiles then g.index == v.maps.profiles[g.pid].index else forall l :: l in v.lines ==> l.gate.index != g.index
  }

  lemma RevisedLines(srv: Service, v: View, g: Gateway, enabled: bool, ok: bool)
    requires InOrder(srv, v) && Follows(srv, v, g)
    ensures var lines := Revised(v, g, enabled, ok).lines; var at := Place(v, g.pid);
      && at < |lines| && lines[at].gate == g
      && (forall j :: 0 <= j < |v.lines| && j != at ==> lines[j] == v.lines[j])
      && |lines| == (if at < |v.lines| then |v.lines| else |v.lines| + 1)
      && (at < |v.lines| <==> g.pid in v.maps.profiles) && (at < |v.lines| ==> g.index == v.lines[at].gate.index)
  {
  }

  lemma RevisedIsSound(srv: Service, v: View, g: Gateway, enabled: bool, ok: bool)
    requires InOrder(srv, v) && Follows(srv, v, g)
    ensures InOrder(srv, Revised(v, g, enabled, ok))
  {
    var w, at := Revised(v, g, enabled, ok), Place(v, g.pid);
    RevisedLines(srv, v, g, enabled, ok);
    LineIs(w.lines, g, at);
    forall p | p in v.maps.profiles && p != g.pid ensures LineOf(w.lines, v.maps.profiles[p]) < |w.lines| {
      LineIs(w.lines, v.maps.profiles[p], LineOf(v.lines, v.maps.profiles[p]));
    }
  }

  lemma RemovedIsSound(srv: Service, v: View, ids: set<int>)
    requires InOrder(srv, v)
    ensures InOrder(srv, Removed(v, ids))
  {
    var gone := Gone(v, ids);
    var w := Removed(v, ids);
    forall u | u in w.maps.gateways ensures w.maps.gateways[u] in w.maps.profiles {
      var p := v.maps.gateways[u];
      assert p in v.maps.profiles && v.maps.profiles[p].uri == u;
    }
  }

  // ----- who leaves the registry

  /** A provider refuses the bot's new revision. */
  predicate Turned(v: View, e: Event, p: int) {
    e.Enter? && e.pid == p && !Refuses(v, p, e.uri) && e.force && !e.accepted
  }

  lemma LeaverIsMet(x: Index<Channel>, s: Step<Channel>)
    requires Known(x) && Legal(x, s) && Leaver(x, s).Some?
    ensures Leaver(x, s).value in After(x, s).chans
  {
    if s.Announce? {
      FindKnown(x, s.bot, s.chat, None, s.check, s.spare);
    }
  }

  /** The revision that an operation takes out of the registry is one of the bot's. */
  lemma LeavesOwn(l: Line, next: Line)
    requires Lined(l) && Lined(next) && next.gate == l.gate && |next.taken| == |l.taken| + 1 && DropLast(next.taken) == l.taken
    requires Leaver(ChatRuns.Run(l.taken), next.taken[|l.taken|]).Some?
    ensures Leaver(ChatRuns.Run(l.taken), next.taken[|l.taken|]).value.gateway.index == l.gate.index
  {
    RunIsSound(l.taken);
    LeaverIsMet(ChatRuns.Run(l.taken), next.taken[|l.taken|]);
  }

  /** Line `i` is that of the running bot `p`. */
  predicate RunsAt(v: View, p: int, i: nat) {
    p in v.maps.profiles && i < |v.lines| && v.lines[i].gate == v.maps.profiles[p]
  }

  lemma RunsAtOne(srv: Service, v: View, p: int, i: nat)
    requires InOrder(srv, v) && RunsAt(v, p, i)
    ensures LineOf(v.lines, v.maps.profiles[p]) == i
  {
    var j := LineOf(v.lines, v.maps.profiles[p]);
    assert v.lines[j].gate.index == v.lines[i].gate.index;
  }

  /**
   A bot leaves the registry only when its provider refuses a new revision of it, or
   when it is deleted and none of its channels is indexed any more.
   */
  lemma LeavesEmpty(srv: Service, v: View, e: Event, w: View, p: int, i: nat)
    requires InOrder(srv, v) && Happens(v, e, w) && RunsAt(v, p, i) && p !in w.maps.profiles && !Turned(v, e, p)
    requires (forall l :: l in v.lines ==> Lined(l)) && forall l :: l in w.lines ==> Lined(l)
    ensures i < |w.lines| && ChatRuns.Run(w.lines[i].taken).external == map[]
    ensures (e.Delete? && p in e.ids) || (e.On? && e.line == i && v.maps.profiles[p] in v.deleted)
  {
    RunsAtOne(srv, v, p, i);
    if e.On? {
      var l, next := v.lines[e.line], w.lines[e.line];
      assert l in v.lines && next in w.lines;
      var c := Leaver(ChatRuns.Run(l.taken), next.taken[|l.taken|]).value;
      assert c.gateway == v.maps.profiles[p];
      LeavesOwn(l, next);
      assert v.lines[e.line].gate.index == v.lines[i].gate.index;
    }
  }

  // ----- a deleted bot that stays

  const ENTER: Event := Enter(1, "/bot", WHATSAPP, true, false, true)
  const LOOK: Event := On(0, Look("1", None, Client(7)))

  /** A bot is registered, gets a channel and a new revision, and is deleted; then the channel is closed, and unlinked. */
  const OUTLIVED: seq<Event> := [ENTER, LOOK, ENTER, Delete([1]), On(0, Leaves(1, true)), On(0, Leaves(2, true))]

  lemma FirstRevision(w: View) returns (g: Gateway)
    requires Happens(NOTHING, ENTER, w)
    ensures w == View(Maps(map[1 := g], map["/bot" := 1]), {g}, {}, [Line(g, {}, [])]) && g.provider == WHATSAPP && g.uri == "/bot"
  {
    g := w.lines[0].gate;
  }

  /** The one channel met is this, and it is linked. */
  predicate Holds(x: Index<Channel>, c: Channel, chan: Chan) {
    x.external == map["1" := c] && x.internal == map[7 := c] && x.chans == map[c := chan]
  }

  lemma FirstChannel(v: View, g: Gateway, w: View) returns (c: Channel, l: Line)
    requires v == View(Maps(map[1 := g], map["/bot" := 1]), {g}, {}, [Line(g, {}, [])]) && g.provider == WHATSAPP
    requires Happens(v, LOOK, w) && forall l :: l in w.lines ==> Lined(l)
    ensures w == v.(lines := [l]) && l.gate == g && l.pool == {c} && c.gateway == g
    ensures Holds(ChatRuns.Run(l.taken), c, MET)
  {
    var s := w.lines[0].taken[0];
    c, l := s.spare, w.lines[0];
    assert l in w.lines && l.taken == [s] && DropLast(l.taken) == [];
    assert ChatRuns.Run(l.taken) == After(ChatRuns.Run<Channel>([]), s);
  }

  lemma NextRevision(v: View, g: Gateway, l: Line, w: View) returns (h: Gateway)
    requires v == View(Maps(map[1 := g], map["/bot" := 1]), {g}, {}, [l]) && l.gate == g && g.uri == "/bot" && Happens(v, ENTER, w)
    ensures w == View(Maps(map[1 := h], map["/bot" := 1]), {g, h}, {}, [l.(gate := h)]) && h != g
  {
    h := w.lines[0].gate;
    assert g in Team(l) && l in v.lines;
  }

  lemma MarkedOnly(v: View, g: Gateway, h: Gateway, l: Line, w: View)
    requires v == View(Maps(map[1 := h], map["/bot" := 1]), {g, h}, {}, [l]) && l.gate == h && h != g
    requires ChatRuns.Run(l.taken).external != map[] && Happens(v, Delete([1]), w)
    ensures w == View(v.maps, {g}, {h}, [l])
  {
    assert LineOf(v.lines, h) == 0;
    assert SetOf([1]) == {1} && !IsEmpty(v, 1);
    assert Gone(v, SetOf([1])) == {};
    assert Marked(v.maps, SetOf([1])) == {h};
    assert Disposed(v.maps, {}) == v.maps;
  }

  const MET: Chan := NewChan("1", Account(7, WHATSAPP, "1"), "")

  lemma CloseOnce(x: Index<Channel>, c: Channel)
    requires Holds(x, c, MET)
    ensures !Detaches(x, c, true) && Holds(Close(x, c, 1, true), c, MET.Asked(1))
  {
  }

  lemma CloseAgain(x: Index<Channel>, c: Channel)
    requires Holds(x, c, MET.Asked(1))
    ensures Detaches(x, c, true) && Close(x, c, 2, true).external == map[]
  {
  }

  /** The channel is asked to close. */
  lemma LeavesOnce(v: View, l: Line, c: Channel, w: View) returns (m: Line)
    requires v.lines == [l] && l.pool == {c} && AllLegal(l.taken)
    requires Holds(ChatRuns.Run(l.taken), c, MET)
    requires Happens(v, On(0, Leaves(1, true)), w) && forall m :: m in w.lines ==> Lined(m)
    ensures w == v.(lines := [m]) && m.pool == {c}
    ensures Holds(ChatRuns.Run(m.taken), c, MET.Asked(1))
  {
    m := w.lines[0];
    assert m in w.lines;
    var s := Leave(c, 1, true);
    CloseOnce(ChatRuns.Run(l.taken), c);
    assert m.taken == l.taken + [s];
    RunOn(l.taken, s);
    assert m.pool == ChatRuns.Run(m.taken).chans.Keys;
  }

  /** The channel is unlinked; it belongs to the older revision, which was not marked. */
  lemma LeavesAgain(v: View, l: Line, c: Channel, w: View)
    requires v.lines == [l] && l.pool == {c} && c.gateway !in v.deleted
    requires Holds(ChatRuns.Run(l.taken), c, MET.Asked(1))
    requires Happens(v, On(0, Leaves(2, true)), w)
    ensures w.maps == v.maps && w.deleted == v.deleted && |w.lines| == 1 && ChatRuns.Run(w.lines[0].taken).external == map[]
  {
    var s := Leave(c, 2, true);
    CloseAgain(ChatRuns.Run(l.taken), c);
    assert w.lines[0].taken == l.taken + [s];
    RunOn(l.taken, s);
  }

  lemma OutlivedHappens(trace: seq<View>)
    requires Traced(OUTLIVED, trace)
    ensures |trace| == 7 && trace[0] == NOTHING && Happens(trace[0], ENTER, trace[1]) && Happens(trace[1], LOOK, trace[2])
    ensures Happens(trace[2], ENTER, trace[3]) && Happens(trace[3], Delete([1]), trace[4])
    ensures Happens(trace[4], On(0, Leaves(1, true)), trace[5]) && Happens(trace[5], On(0, Leaves(2, true)), trace[6])
  {
    assert forall i :: 0 <= i < 6 ==> Happens(trace[i], OUTLIVED[i], trace[i + 1]);
    assert OUTLIVED[0] == ENTER && OUTLIVED[1] == LOOK && OUTLIVED[2] == ENTER && OUTLIVED[3] == Delete([1]);
    assert OUTLIVED[4] == On(0, Leaves(1, true)) && OUTLIVED[5] == On(0, Leaves(2, true));
  }

  lemma DeletedStays(v: View, g: Gateway, h: Gateway, l: Line, c: Channel, w: View, x: View, y: View)
    requires v == View(Maps(map[1 := h], map["/bot" := 1]), {g, h}, {}, [l]) && l.gate == h && h != g && l.pool == {c} && c.gateway == g
    requires AllLegal(l.taken) && Holds(ChatRuns.Run(l.taken), c, MET)
    requires Happens(v, Delete([1]), w) && Happens(w, On(0, Leaves(1, true)), x) && Happens(x, On(0, Leaves(2, true)), y)
    requires forall m :: m in x.lines ==> Lined(m)
    ensures y.maps == v.maps && y.deleted == {h} && |y.lines| == 1 && ChatRuns.Run(y.lines[0].taken).external == map[]
  {
    MarkedOnly(v, g, h, l, w);
    var m := LeavesOnce(w, l, c, x);
    LeavesAgain(x, m, c, y);
  }

  lemma OutlivedRun(a: View, b: View, c: View, d: View, e: View, f: View)
    requires Happens(NOTHING, ENTER, a) && Happens(a, LOOK, b) && Happens(b, ENTER, c) && Happens(c, Delete([1]), d)
    requires Happens(d, On(0, Leaves(1, true)), e) && Happens(e, On(0, Leaves(2, true)), f)
    requires (forall l :: l in b.lines ==> Lined(l)) && forall l :: l in e.lines ==> Lined(l)
    ensures Outlived(f)
  {
    var g := FirstRevision(a);
    var k, l := FirstChannel(a, g, b);
    assert l in b.lines && Lined(l);
    var h := NextRevision(b, g, l, c);
    DeletedStays(c, g, h, l.(gate := h), k, d, e, f);
  }

  /** The deleted bot is registered, and has no channel. */
  predicate Outlived(v: View) {
    && 1 in v.maps.profiles && v.maps.profiles[1] in v.deleted
    && |v.lines| == 1 && ChatRuns.Run(v.lines[0].taken).external == map[]
  }

  /**
   Whatever the run, the deleted bot stays registered though it has no channel any more:
   the last one belonged to an older revision.
   */
  lemma OutlivedStays(trace: seq<View>)
    requires Traced(OUTLIVED, trace) && forall i :: 0 <= i <= 6 ==> forall l :: l in trace[i].lines ==> Lined(l)
    ensures Outlived(trace[6])
  {
    OutlivedHappens(trace);
    OutlivedRun(trace[1], trace[2], trace[3], trace[4], trace[5], trace[6]);
  }
}
