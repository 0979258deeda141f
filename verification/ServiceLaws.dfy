/** Which bots run after an event of a service, which paths lead to them, and what a bot that is asked for is answered with. */
module ServiceLaws {
  import opened Wrappers
  import opened Chats
  import ChatRuns
  import opened Bots
  import opened Services

  /** A bot asked for runs under its id, or without one under its path. */
  lemma RunningIs(m: Maps, pid: int, uri: string, stored: Stored, setup: bool)
    requires Routes(m.profiles, m.gateways) && 0 !in m.profiles
    ensures pid != 0 && pid in m.profiles ==> Answered(m, pid, uri, stored, setup) == Running(m.profiles[pid])
    ensures pid == 0 && uri != "" && uri in m.gateways ==>
      Answered(m, pid, uri, stored, setup) == Running(m.profiles[m.gateways[uri]]) && m.profiles[m.gateways[uri]].uri == uri
  {
  }

  /**
   One that does not run is set up exactly when the store has a bot with an id and a path, it is the one asked for,
   and the provider sets it up.
   */
  lemma SetUpIs(m: Maps, pid: int, uri: string, stored: Stored, setup: bool)
    requires Routes(m.profiles, m.gateways) && 0 !in m.profiles
    requires if pid != 0 then pid !in m.profiles else uri == "" || uri !in m.gateways
    ensures Answered(m, pid, uri, stored, setup) ==
      if (pid != 0 || uri != "") && setup && stored.Profile? && stored.id != 0 && stored.uri != ""
         && (pid != 0 ==> stored.id == pid) && (uri != "" ==> stored.uri == uri)
      then SetUp else Refused
  {
  }

  /** All other bots run as before, and all other paths lead where they did. */
  ghost predicate OthersStay(v: View, w: View, pid: int, uri: string) {
    && (forall p :: p != pid ==> (p in w.maps.profiles <==> p in v.maps.profiles))
    && (forall p :: p != pid && p in v.maps.profiles ==>
          w.maps.profiles[p] == v.maps.profiles[p] && (v.maps.profiles[p] in w.open <==> v.maps.profiles[p] in v.open))
    && (forall u :: u != uri ==> (u in w.maps.gateways <==> u in v.maps.gateways))
    && (forall u :: u != uri && u in v.maps.gateways ==> w.maps.gateways[u] == v.maps.gateways[u])
    && w.deleted == v.deleted
  }

  lemma RunningIsMet(srv: Service, v: View, p: int)
    requires InOrder(srv, v) && p in v.maps.profiles
    ensures v.maps.profiles[p] in Revisions(v.lines)
  {
    var l := v.lines[LineOf(v.lines, v.maps.profiles[p])];
    assert l in v.lines && v.maps.profiles[p] in Team(l);
  }

  /** A revision is refused without an id, without a path, and under another path than its bot has. */
  lemma RevisionIsRefused(v: View, pid: int, uri: string, provider: string, enabled: bool, force: bool, accepted: bool, w: View)
    requires Happens(v, Enter(pid, uri, provider, enabled, force, accepted), w)
    requires pid == 0 || uri == "" || (pid in v.maps.profiles && v.maps.profiles[pid].uri != uri)
    ensures w == v
  {
  }

  /** A revision that is entered, or turned away, concerns no other bot and no other path. */
  lemma RevisionLeavesOthers(srv: Service, v: View, pid: int, uri: string, provider: string, enabled: bool, force: bool, accepted: bool,
                             w: View)
    requires InOrder(srv, v) && Happens(v, Enter(pid, uri, provider, enabled, force, accepted), w)
    ensures OthersStay(v, w, pid, uri)
  {
    forall p | p in v.maps.profiles ensures v.maps.profiles[p] in Revisions(v.lines) {
      RunningIsMet(srv, v, p);
    }
  }

  /**
   A revision that its provider accepts, or is not asked for, runs under its id and its path, enabled as it is; one
   that is not accepted does not, nor does the one before.
   */
  lemma RevisionRuns(srv: Service, v: View, pid: int, uri: string, provider: string, enabled: bool, force: bool, accepted: bool, w: View)
    requires InOrder(srv, v) && Happens(v, Enter(pid, uri, provider, enabled, force, accepted), w)
    requires pid != 0 && uri != "" && (pid in v.maps.profiles ==> v.maps.profiles[pid].uri == uri)
    ensures force && !accepted ==> pid !in w.maps.profiles && uri !in w.maps.gateways
    ensures !force || accepted ==>
      && pid in w.maps.profiles && uri in w.maps.gateways && w.maps.gateways[uri] == pid
      && var g := w.maps.profiles[pid];
         && g.pid == pid && g.uri == uri && g.provider == provider && g !in Revisions(v.lines)
         && (v.open <= Revisions(v.lines) ==> (g in w.open <==> enabled))
         && (pid in v.maps.profiles ==> g.index == v.maps.profiles[pid].index)
    ensures pid in v.maps.profiles ==> (v.maps.profiles[pid] in w.open <==> enabled)
  {
    if pid in v.maps.profiles {
      RunningIsMet(srv, v, pid);
    }
  }

  /** Exactly a deleted bot without indexed channels is taken out; one with channels runs on, not enabled any more. */
  lemma DeletionIs(srv: Service, v: View, ids: seq<int>, w: View, p: int, i: nat)
    requires InOrder(srv, v) && Happens(v, Delete(ids), w) && RunsAt(v, p, i)
    ensures p in w.maps.profiles <==> !(p in ids && ChatRuns.Run(v.lines[i].taken).external == map[])
    ensures p in w.maps.profiles ==> w.maps.profiles[p] == v.maps.profiles[p]
    ensures var g := v.maps.profiles[p];
      && (g in w.deleted <==> g in v.deleted || p in ids) && (g in w.open <==> g in v.open && p !in ids)
      && (p !in w.maps.profiles ==> g.uri !in w.maps.gateways)
  {
    RunsAtOne(srv, v, p, i);
  }

  /** No bot comes in, and no path, when others are deleted. */
  lemma DeletionAddsNone(v: View, ids: seq<int>, w: View)
    requires Happens(v, Delete(ids), w)
    ensures w.maps.profiles.Keys <= v.maps.profiles.Keys && w.maps.gateways.Keys <= v.maps.gateways.Keys
    ensures forall u :: u in w.maps.gateways ==> w.maps.gateways[u] == v.maps.gateways[u]
    ensures w.lines == v.lines
  {
  }

  /** The step closes channel `c`: it is a close, a user's command, or a message that says the chat is closed. */
  predicate ClosesOf(x: Index<Channel>, s: ChatRuns.Step<Channel>, c: Channel) {
    match s
    case Leave(r, _, _) => r == c
    case Receive(r, m, _, _, _, _, _, _) => r == c && x.At(r).channelID != "" && m.text == "/close" && m.typ == "text"
    case Announce(bot, chat, m, check, spare, _) =>
      && Answer(x, bot, chat, None, check, spare) == Some(c) && m.typ == "closed"
      && GetChannel(x, bot, chat, None, check, spare).At(c).channelID != ""
    case _ => false
  }

  /**
   A close that leaves no channel takes the bot along, and its path, when the channel's revision is deleted and is
   the one that runs.
   */
  lemma LastCloseTakesBot(srv: Service, v: View, i: nat, op: Op, w: View, p: int, c: Channel)
    requires InOrder(srv, v) && i < |v.lines| && Operates(v, i, op, w) && |w.lines[i].taken| > |v.lines[i].taken|
    requires var x, y := ChatRuns.Run(v.lines[i].taken), ChatRuns.Run(w.lines[i].taken);
      ClosesOf(x, w.lines[i].taken[|v.lines[i].taken|], c) && x.external != map[] && y.external == map[]
    requires p in v.maps.profiles && v.maps.profiles[p] == c.gateway && c.gateway in v.deleted
    ensures p !in w.maps.profiles && c.gateway.uri !in w.maps.gateways
  {
    var l, next := v.lines[i], w.lines[i];
    LastStep(l, v.open, op, next);
    CloseTakesLast(ChatRuns.Run(l.taken), next.taken[|l.taken|], c);
    OutcomeIs(v.maps, l, next, v.deleted, c);
    RetirementIs(v.maps, c.gateway);
  }

  lemma LastStep(l: Line, open: set<Gateway>, op: Op, next: Line)
    requires Grown(l, open, op, next) && |next.taken| > |l.taken|
    ensures ChatRuns.Run(next.taken) == ChatRuns.After(ChatRuns.Run(l.taken), next.taken[|l.taken|])
  {
  }

  lemma OutcomeIs(m: Maps, l: Line, next: Line, deleted: set<Gateway>, c: Channel)
    requires |next.taken| > |l.taken| && Leaver(ChatRuns.Run(l.taken), next.taken[|l.taken|]) == Some(c)
    requires ChatRuns.Run(next.taken).external == map[] && c.gateway in deleted
    ensures Outcome(m, l, next, deleted) == Retired(m, c.gateway)
  {
  }

  lemma CloseTakesLast(x: Index<Channel>, s: ChatRuns.Step<Channel>, c: Channel)
    requires ClosesOf(x, s, c) && x.external != map[] && ChatRuns.After(x, s).external == map[]
    ensures Leaver(x, s) == Some(c)
  {
    match s
    case Announce(bot, chat, m, check, spare, now) =>
      LookupEmptiesNone(x, bot, chat, check, spare);
      var got := GetChannel(x, bot, chat, None, check, spare);
      assert ChatRuns.After(x, s) == got || ChatRuns.After(x, s) == Announced(got, c, now);
      assert !Linked(got, c) ==> Announced(got, c, now).external == got.external;
    case _ =>
  }

  lemma LookupEmptiesNone(x: Index<Channel>, bot: Bot, chat: string, check: Check, spare: Channel)
    requires x.external != map[]
    ensures GetChannel(x, bot, chat, None, check, spare).external != map[]
  {
    if GetChannel(x, bot, chat, None, check, spare) != x {
      var made := MadeIs(x, chat, Sender(bot, chat, None), check, spare);
      assert made.chatID in GetChannel(x, bot, chat, None, check, spare).external;
    }
  }

  /** A channel that is lost because its session is not started again takes no bot along. */
  lemma LossLeavesRegistry(v: View, i: nat, op: Op, w: View)
    requires i < |v.lines| && Operates(v, i, op, w) && |w.lines[i].taken| > |v.lines[i].taken|
    requires var s := w.lines[i].taken[|v.lines[i].taken|];
      s.Find? || s.Begin? || (s.Receive? && !(s.m.text == "/close" && s.m.typ == "text"))
    ensures w.maps == v.maps
  {
  }

  /**
   A deleted revision that is left takes its bot along if it is the one that runs, and its path if that leads to its
   bot; no other bot goes.
   */
  lemma RetirementIs(m: Maps, g: Gateway)
    ensures var w := Retired(m, g);
      && (forall p :: p in w.profiles <==> p in m.profiles && (p != g.pid || m.profiles[p] != g))
      && (forall p :: p in w.profiles ==> w.profiles[p] == m.profiles[p])
      && (forall u :: u in w.gateways ==> u in m.gateways && w.gateways[u] == m.gateways[u])
      && (forall u :: u in m.gateways && u != g.uri ==> u in w.gateways)
      && (g.uri in w.gateways <==> g.uri in m.gateways && m.gateways[g.uri] != g.pid && !(g.pid in m.profiles && m.profiles[g.pid] == g))
  {
  }
}
