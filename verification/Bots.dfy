/**
 Bots and their chat channels as objects: the registry of running gateways, the two
 indexes of a bot's channels, and the channels. What the channel operations do is
 said by the functions of `Chats` on the state they find; every method is one atomic
 step. The sets `all` hold the channels a caller has met, linked or not.
 */
module Bots {
  import opened Wrappers
  import opened Chats

  // ----- the indexes of a bot's channels

  const EMPTY: Index<Channel> := Index(map[], map[], map[])

  ghost function Chans(all: set<Channel>): map<Channel, Chan>
    reads all
  {
    map c | c in all :: c.State()
  }

  /** The channels of a bot by external chat id and by client id; the revisions of a bot's gateway share it. */
  class ChannelIndex {
    var external: map<string, Channel>
    var internal: map<int, Channel>

    constructor ()
      ensures State({}) == EMPTY
    {
      external, internal := map[], map[];
      new;
      assert Chans({}) == map[];
    }

    ghost function State(all: set<Channel>): Index<Channel>
      reads this, all
    {
      Index(external, internal, Chans(all))
    }

    /** All channels met are channels of this index's bot. */
    ghost predicate Owns(srv: Service, all: set<Channel>) {
      forall c :: c in all ==> c.gateway.index == this && c.gateway.srv == srv
    }

    predicate Linked(c: Channel)
      reads this, c`chatID
    {
      c.chatID in external && external[c.chatID] == c
    }

    method Link(c: Channel, ghost all: set<Channel>)
      requires c in all
      modifies this
      ensures State(all) == Chats.Link(old(State(all)), c)
    {
      external := external[c.chatID := c];
      internal := internal[c.account.id := c];
    }

    method Unlink(c: Channel, ghost all: set<Channel>)
      requires c in all
      modifies this
      ensures State(all) == Chats.Unlink(old(State(all)), c)
    {
      external := external - {c.chatID};
      internal := internal - {c.account.id};
    }

    /** The number of a channel's user changed: the channel that was asked for as `chatID` becomes `now`. */
    method Rename(c: Channel, chatID: string, now: string, ghost all: set<Channel>)
      requires c in all
      modifies this, c`chatID, c`account
      ensures State(all) == Chats.Rename(old(State(all)), c, chatID, now)
    {
      c.account := c.account.(contact := now);
      c.chatID := now;
      if chatID in external {
        if external[chatID] == c {
          external := external - {chatID};
        }
        external := external[c.chatID := c];
      }
      assert Chans(all) == old(Chans(all))[c := c.State()];
    }
  }

  // ----- the registry of gateways

  /** The running gateway of each bot, and the bot that each path leads to. */
  datatype Maps = Maps(profiles: map<int, Gateway>, gateways: map<string, int>)

  /** The registry with a new revision, and without one that its provider refused. */
  function Installed(m: Maps, g: Gateway): Maps {
    Maps(m.profiles[g.pid := g], m.gateways[g.uri := g.pid])
  }

  function Rejected(m: Maps, g: Gateway): Maps {
    Maps(m.profiles - {g.pid}, m.gateways - {g.uri})
  }

  /** The registry without these bots and their paths. */
  function Disposed(m: Maps, gone: set<int>): Maps {
    Maps(m.profiles - gone, m.gateways - set p | p in gone && p in m.profiles :: m.profiles[p].uri)
  }

  lemma DisposedMore(m: Maps, gone: set<int>, pid: int)
    requires forall p :: p in m.profiles ==> m.profiles[p].pid == p
    ensures Disposed(m, gone + {pid}) ==
      if pid in Disposed(m, gone).profiles then Rejected(Disposed(m, gone), m.profiles[pid]) else Disposed(m, gone)
  {
    var before, after := set p | p in gone && p in m.profiles :: m.profiles[p].uri,
      set p | p in gone + {pid} && p in m.profiles :: m.profiles[p].uri;
    assert after == if pid in m.profiles then before + {m.profiles[pid].uri} else before;
    assert pid in gone && pid in m.profiles ==> m.profiles[pid].uri in before;
  }

  /** How a bot that is asked for is answered: it runs, or is set up, or neither. */
  datatype BotAnswer = Running(g: Gateway) | SetUp | Refused

  /** The bot asked for by id, or else by path. */
  function Asked(m: Maps, pid: int, uri: string): int {
    if pid == 0 && uri in m.gateways && uri != "" then m.gateways[uri] else pid
  }

  function Answered(m: Maps, pid: int, uri: string, stored: Stored, setup: bool): BotAnswer {
    var id := Asked(m, pid, uri);
    if id != 0 && id in m.profiles then Running(m.profiles[id])
    else if pid == 0 && uri == "" then Refused
    else if stored.Profile? && stored.id != 0 && id in {0, stored.id} && stored.uri != "" && uri in {"", stored.uri} && setup then SetUp
    else Refused
  }

  /** The registry once a deleted revision has left it: its path goes if it leads to its bot, the bot if this revision is the one running. */
  function Retired(m: Maps, g: Gateway): Maps {
    var led := if g.uri in m.gateways && m.gateways[g.uri] == g.pid then m.gateways - {g.uri} else m.gateways;
    if g.pid in m.profiles && m.profiles[g.pid] == g then Maps(m.profiles - {g.pid}, led - {g.uri}) else Maps(m.profiles, led)
  }

  /** A routed registry stays so, and no other bot leaves it. */
  lemma RetiredIsRouted(m: Maps, g: Gateway)
    requires Routes(m.profiles, m.gateways)
    ensures Routes(Retired(m, g).profiles, Retired(m, g).gateways)
    ensures Retired(m, g).profiles in {m.profiles, m.profiles - {g.pid}}
  {
  }

  class Service {
    /** The running gateway of each bot. */
    var profiles: map<int, Gateway>
    /** The bot that each service path leads to. */
    var gateways: map<string, int>

    constructor ()
      ensures profiles == map[] && gateways == map[]
    {
      profiles, gateways := map[], map[];
    }

    ghost function Registry(): Maps
      reads this
    {
      Maps(profiles, gateways)
    }

    /** Gateways run under their own bot's id and in this service. */
    ghost predicate Own()
      reads this
    {
      forall p :: p in profiles ==> profiles[p].pid == p && profiles[p].srv == this
    }

    /** Every path leads to a running gateway that serves it. */
    ghost predicate Routed()
      reads this
    {
      Routes(profiles, gateways)
    }

    /**
     The gateway of a bot, by id or by service path; one not running is set up from
     the bot's stored profile. With paths that never change, what a path is answered
     with serves that path, and the registry stays routed.
     */
    method GatewayOf(pid: int, uri: string, stored: Stored, setup: bool) returns (r: Option<Gateway>)
      requires Own() && Routed() && 0 !in profiles
      requires Answered(Registry(), pid, uri, stored, setup).SetUp? && stored.id in profiles ==> profiles[stored.id].uri == stored.uri
      modifies this, profiles.Values`enabled
      ensures Own() && Routed() && 0 !in profiles
      ensures r.Some? && pid == 0 ==> r.value.uri == uri
      ensures r.Some? && pid != 0 ==> r.value.pid == pid
      ensures match Answered(old(Registry()), pid, uri, stored, setup)
        case Running(g) => r == Some(g) && Registry() == old(Registry())
        case Refused => r == None && Registry() == old(Registry())
        case SetUp =>
          && r.Some? && fresh(r.value) && r.value.Is(stored.id, stored.uri, stored.provider, this) && r.value.enabled == stored.enabled
          && !r.value.deleted && Registry() == Installed(old(Registry()), r.value)
          && if stored.id in old(profiles) then r.value.index == old(profiles)[stored.id].index
             else fresh(r.value.index) && r.value.index.State({}) == EMPTY
      ensures forall p :: p in old(profiles) ==>
        var sets := Answered(old(Registry()), pid, uri, stored, setup).SetUp? && p == stored.id;
        old(profiles)[p].enabled == if sets then stored.enabled else old(profiles[p].enabled)
    {
      var id := pid;
      if id == 0 {
        if uri == "" {
          return None;
        }
        id := if uri in gateways then gateways[uri] else 0;
      }
      if id != 0 && id in profiles {
        return Some(profiles[id]);
      }
      if !stored.Profile? || stored.id == 0 {
        return None;
      }
      if id != 0 && id != stored.id {
        return None;
      }
      if stored.uri == "" {
        return None;
      }
      if uri != "" && uri != stored.uri {
        return None;
      }
      if !setup {
        return None;
      }
      var index;
      if stored.id in profiles {
        index := profiles[stored.id].index;
      } else {
        index := new ChannelIndex();
      }
      var agent := new Gateway(stored.id, stored.uri, stored.provider, this, index, stored.enabled);
      var _ := agent.Register(false, true);
      return Some(profiles[stored.id]);
    }

    /** Disposes of one deleted bot: at once when it has no channels, else after the last one. */
    method DisposeOne(pid: int)
      requires Own() && Routed()
      modifies this, profiles.Values`enabled, profiles.Values`deleted
      ensures Own() && Routed()
      ensures Registry() == if pid in old(profiles) && old(profiles)[pid].index.external == map[]
        then Rejected(old(Registry()), old(profiles)[pid]) else old(Registry())
      ensures forall p :: p in old(profiles) ==>
        && old(profiles)[p].deleted == (p == pid || old(profiles[p].deleted))
        && old(profiles)[p].enabled == (p != pid && old(profiles[p].enabled))
    {
      if pid in profiles {
        var run := profiles[pid];
        run.enabled, run.deleted := false, true;
        if |run.index.external| == 0 {
          run.Evict();
        }
      }
    }

    /** One more of the deleted bots is disposed of. */
    method DisposeNext(ghost was: Maps, ghost gone: set<int>, pid: int) returns (ghost now: set<int>)
      requires Own() && Routed() && Registry() == Disposed(was, gone) && forall p :: p in was.profiles ==> was.profiles[p].pid == p
      modifies this, was.profiles.Values`enabled, was.profiles.Values`deleted
      ensures Own() && Routed() && Registry() == Disposed(was, now)
      ensures now == if pid in was.profiles && was.profiles[pid].index.external == map[] then gone + {pid} else gone
      ensures forall p :: p in was.profiles && p !in gone ==>
        && was.profiles[p].deleted == (p == pid || old(was.profiles[p].deleted))
        && was.profiles[p].enabled == (p != pid && old(was.profiles[p].enabled))
      ensures forall p :: p in was.profiles && p in gone ==>
        was.profiles[p].deleted == old(was.profiles[p].deleted) && was.profiles[p].enabled == old(was.profiles[p].enabled)
    {
      assert forall p :: p in profiles ==> profiles[p] == was.profiles[p] && was.profiles[p] in was.profiles.Values;
      assert profiles.Values <= was.profiles.Values;
      DisposedMore(was, gone, pid);
      now := if pid in was.profiles && was.profiles[pid].index.external == map[] then gone + {pid} else gone;
      DisposeOne(pid);
    }

    /** Disposes of deleted bots; none is unregistered while one of its channels is indexed. */
    method DisposeOf(ids: seq<int>) returns (ghost gone: set<int>)
      requires Own() && Routed()
      modifies this, profiles.Values`enabled, profiles.Values`deleted
      ensures Own() && Routed() && Registry() == Disposed(old(Registry()), gone)
      ensures forall p :: p in gone <==> p in ids && p in old(profiles) && old(profiles)[p].index.external == map[]
      ensures forall p :: p in old(profiles) ==>
        && old(profiles)[p].deleted == (p in ids || old(profiles[p].deleted))
        && old(profiles)[p].enabled == (p !in ids && old(profiles[p].enabled))
    {
      ghost var was := Registry();
      gone := {};
      assert Disposed(was, {}) == was;
      for i := 0 to |ids|
        invariant Own() && Routed() && Registry() == Disposed(was, gone)
        invariant forall p :: p in gone <==> p in ids[..i] && p in was.profiles && was.profiles[p].index.external == map[]
        invariant forall p :: p in was.profiles ==>
          && was.profiles[p].deleted == (p in ids[..i] || old(was.profiles[p].deleted))
          && was.profiles[p].enabled == (p !in ids[..i] && old(was.profiles[p].enabled))
      {
        assert ids[..i + 1] == ids[..i] + [ids[i]];
        gone := DisposeNext(was, gone, ids[i]);
      }
      assert ids[..|ids|] == ids;
    }
  }

  /** What the store answers for a bot. */
  datatype Stored = LocateFailed | NotLocated | Profile(id: int, uri: string, provider: string, enabled: bool)

  /** One revision of a running bot. */
  class Gateway {
    const pid: int
    const uri: string
    const provider: string
    const srv: Service
    const index: ChannelIndex
    var enabled: bool
    /** To be disposed of after the last channel is closed. */
    var deleted: bool

    constructor (pid: int, uri: string, provider: string, srv: Service, index: ChannelIndex, enabled: bool)
      ensures this.pid == pid && this.uri == uri && this.provider == provider && this.srv == srv && this.index == index
      ensures this.enabled == enabled && !deleted
    {
      this.pid, this.uri, this.provider, this.srv, this.index := pid, uri, provider, srv, index;
      this.enabled, this.deleted := enabled, false;
    }

    ghost predicate Is(pid: int, uri: string, provider: string, srv: Service) {
      this.pid == pid && this.uri == uri && this.provider == provider && this.srv == srv
    }

    /** This is the running revision of its bot. */
    predicate Running()
      reads this, srv
    {
      pid in srv.profiles && srv.profiles[pid] == this
    }

    /** Takes the path of this bot out of the registry. */
    method Deregister()
      modifies srv
      ensures srv.profiles == old(srv.profiles)
      ensures srv.gateways ==
        if uri in old(srv.gateways) && old(srv.gateways)[uri] == pid then old(srv.gateways) - {uri} else old(srv.gateways)
      ensures old(srv.Routed()) ==> srv.Routed()
    {
      if uri in srv.gateways && srv.gateways[uri] == pid {
        srv.gateways := srv.gateways - {uri};
      }
    }

    /** Takes this gateway out of the registry, if it is the one running. */
    method Remove() returns (ok: bool)
      modifies srv
      ensures ok == (pid in old(srv.profiles) && old(srv.profiles)[pid] == this)
      ensures srv.profiles == if ok then old(srv.profiles) - {pid} else old(srv.profiles)
      ensures srv.gateways == if ok then old(srv.gateways) - {uri} else old(srv.gateways)
      ensures old(srv.Routed()) ==> srv.Routed()
    {
      ok := pid in srv.profiles && srv.profiles[pid] == this;
      if ok {
        srv.profiles := srv.profiles - {pid};
        srv.gateways := srv.gateways - {uri};
      }
    }

    /** The running revision of a deleted bot leaves the registry, with its path. */
    method Evict()
      requires Running()
      modifies srv
      ensures srv.Registry() == Rejected(old(srv.Registry()), this)
      ensures old(srv.Routed()) ==> srv.Routed()
    {
      Deregister();
      var _ := Remove();
    }

    /** A deleted bot without channels leaves the registry. */
    method Retire()
      modifies srv
      ensures srv.Registry() == if deleted then Retired(old(srv.Registry()), this) else old(srv.Registry())
    {
      if deleted {
        Deregister();
        var _ := Remove();
      }
    }

    /** Another revision runs under another path that still leads here, and will go on doing so. */
    predicate LeavesRoute()
      reads this, srv, srv.profiles.Values, set g | g in srv.profiles.Values :: g.index
    {
      pid in srv.profiles &&
      var e := srv.profiles[pid];
      e.uri != uri && e.uri in srv.gateways && srv.gateways[e.uri] == pid && (enabled || e.index.external != map[])
    }

    /** Enters this revision in both maps; a path of the earlier one goes when that has neither service nor channels. */
    method Enter()
      requires srv.Own()
      modifies srv, srv.profiles.Values`enabled
      ensures srv.Own() && enabled == old(enabled)
      ensures forall p :: p in old(srv.profiles) && old(srv.profiles)[p] != this ==>
        old(srv.profiles)[p].enabled == if p == pid then enabled else old(srv.profiles[p].enabled)
      ensures srv.profiles == old(srv.profiles)[pid := this]
      ensures srv.gateways == Entered(old(srv.profiles), old(srv.gateways), this, old(LeavesRoute()))
    {
      var e: Gateway? := if pid in srv.profiles then srv.profiles[pid] else null;
      srv.profiles := srv.profiles[pid := this];
      srv.gateways := srv.gateways[uri := pid];
      if e != null {
        e.enabled := enabled;
        if !e.enabled && |e.index.external| == 0 {
          if e.uri != uri {
            e.Deregister();
          }
        }
      }
    }

    /**
     Makes this the running revision of its bot. The registry stays routed exactly
     when no path of an earlier revision is left behind; an update of a bot never does
     that, because it may not change the path.
     */
    method Register(force: bool, accepted: bool) returns (ok: bool)
      requires pid != 0 && uri != "" && srv.Own()
      modifies srv, srv.profiles.Values`enabled
      ensures srv.Own()
      ensures ok == (!force || accepted)
      ensures ok ==> srv.profiles == old(srv.profiles)[pid := this] && uri in srv.gateways && srv.gateways[uri] == pid
      ensures !ok ==> srv.profiles == old(srv.profiles) - {pid} && uri !in srv.gateways
      ensures srv.gateways == if ok then Entered(old(srv.profiles), old(srv.gateways), this, old(LeavesRoute()))
        else Entered(old(srv.profiles), old(srv.gateways), this, old(LeavesRoute())) - {uri}
      ensures enabled == old(enabled)
      ensures forall p :: p in old(srv.profiles) && old(srv.profiles)[p] != this ==>
        old(srv.profiles)[p].enabled == if p == pid then enabled else old(srv.profiles[p].enabled)
      ensures old(srv.Routed()) ==> (srv.Routed() <==> !old(LeavesRoute()))
    {
      Enter();
      ok := !force || accepted;
      if !ok {
        var _ := Remove();
      }
      RegisterRoutes(old(srv.profiles), old(srv.gateways), this, ok, old(LeavesRoute()));
    }

    function Bot(): Bot
      reads `enabled
    {
      Chats.Bot(provider, enabled)
    }

    /**
     The channel found, or else one recovered from, or made for, what the chat service
     knows; with the chat and the user it stands for.
     */
    method Lookup(chat: string, contact: Account, check: Check, ghost all: set<Channel>)
      returns (r: Option<Channel>, chatID: string, who: Account)
      requires Known(index.State(all))
      modifies index
      ensures var found := Found(old(index.State(all)), chat, contact);
        && (found.Some? || !CanMake(old(Bot()), check) ==> unchanged(index) && r == found)
        && (found.Some? ==> chatID == chat && who == contact)
        && (found.None? && CanMake(old(Bot()), check) ==>
            && r.Some? && fresh(r.value) && r.value.gateway == this
            && chatID == NewChat(chat, contact, check) && who == contact.(id := check.clientID)
            && index.State(all + {r.value}) ==
                Chats.Link(Put(old(index.State(all)), r.value,
                               NewChan(chatID, who, if check.Session? then check.channelID else "")), r.value))
    {
      chatID, who := chat, contact;
      if who.id != 0 && who.id in index.internal {
        return Some(index.internal[who.id]), chatID, who;
      }
      if chatID != "" && chatID in index.external {
        return Some(index.external[chatID]), chatID, who;
      }
      var channel: Channel;
      match check {
        case CheckFailed =>
          return None, chatID, who;
        case Session(channelID, clientID, property) =>
          who := who.(id := clientID);
          if property.Some? && property.value != "" {
            chatID := property.value;
          } else if chatID == "" {
            chatID := who.contact;
          }
          channel := new Channel(this, chatID, who, channelID);
        case Client(clientID) =>
          who := who.(id := clientID);
          if chatID == "" {
            chatID := who.contact;
          }
          if !enabled {
            return None, chatID, who;
          }
          channel := new Channel(this, chatID, who, "");
      }
      assert Chans(all + {channel}) == old(Chans(all))[channel := channel.State()];
      index.Link(channel, all + {channel});
      r := Some(channel);
    }

    /** The contact of a channel is another one now: a new number. */
    method Follow(channel: Channel, chatID: string, who: Account, ghost all: set<Channel>)
      requires channel in all && channel.gateway.index == index
      modifies index, channel`chatID, channel`account
      ensures index.State(all) == Followed(old(index.State(all)), channel, chatID, who)
    {
      if who.contact != "" && chatID != "" && who.contact != chatID {
        if channel.account.channel != WHATSAPP {
          return;
        }
        index.Rename(channel, chatID, who.contact, all);
      }
    }

    /** The channel of an external chat, renamed when the number of its user has changed. */
    method GetChannel(chat: string, contact: Option<Account>, check: Check, ghost all: set<Channel>) returns (r: Option<Channel>)
      requires Known(index.State(all)) && index.Owns(srv, all)
      modifies index, all`chatID, all`account
      ensures r.Some? <==> Answers(old(index.State(all)), old(Bot()), chat, contact, check)
      ensures r.None? ==> unchanged(index) && index.State(all) == old(index.State(all))
      ensures r.Some? ==>
        && index.Owns(srv, all + {r.value})
        && r == Answer(old(index.State(all)), old(Bot()), chat, contact, check, r.value)
        && index.State(all + {r.value}) == Chats.GetChannel(old(index.State(all)), old(Bot()), chat, contact, check, r.value)
        && if Makes(old(index.State(all)), old(Bot()), chat, contact, check) then fresh(r.value) && r.value.gateway == this else r.value in all
    {
      if contact.None? && chat == "" {
        return None;
      }
      var chatID, who;
      r, chatID, who := Lookup(chat, Sender(Bot(), chat, contact), check, all);
      if r.None? {
        return;
      }
      assert r.value in all ==> all + {r.value} == all;
      Follow(r.value, chatID, who, all + {r.value});
    }

    /** A message from the chat service; one that closes the chat, with a text, unlinks the channel without a request. */
    method Send(chatID: string, m: Message, check: Check, now: int, ghost all: set<Channel>) returns (r: Option<Channel>)
      requires now != 0 && Known(index.State(all)) && index.Owns(srv, all)
      modifies index, srv, all
      ensures r.Some? <==> Answers(old(index.State(all)), old(Bot()), chatID, None, check)
      ensures r.None? ==> unchanged(index) && unchanged(srv) && index.State(all) == old(index.State(all))
      ensures r.Some? ==>
        && index.Owns(srv, all + {r.value})
        && r == Answer(old(index.State(all)), old(Bot()), chatID, None, check, r.value)
        && index.State(all + {r.value}) == Chats.Send(old(index.State(all)), old(Bot()), chatID, m, check, r.value, now)
        && (if Makes(old(index.State(all)), old(Bot()), chatID, None, check) then fresh(r.value) && r.value.gateway == this else r.value in all)
        && srv.Registry() ==
            if Dropped(old(index.State(all)), old(Bot()), chatID, m, check, r.value) == r && index.external == map[] && r.value.gateway.deleted
            then Retired(old(srv.Registry()), r.value.gateway) else old(srv.Registry())
    {
      r := GetChannel(chatID, None, check, all);
      if r.None? {
        return;
      }
      r.value.Told(m, now, all + {r.value});
    }
  }

  /** The paths after a revision is entered. */
  function Entered(p: map<int, Gateway>, g: map<string, int>, c: Gateway, leaves: bool): map<string, int> {
    var g' := g[c.uri := c.pid];
    if c.pid in p && p[c.pid].uri != c.uri && p[c.pid].uri in g' && g'[p[c.pid].uri] == c.pid && !leaves
    then g' - {p[c.pid].uri} else g'
  }

  lemma RegisterRoutes(p: map<int, Gateway>, g: map<string, int>, c: Gateway, ok: bool, leaves: bool)
    requires leaves ==> c.pid in p && p[c.pid].uri != c.uri && p[c.pid].uri in g && g[p[c.pid].uri] == c.pid
    ensures Routes(p, g) ==>
      (Routes(if ok then p[c.pid := c] else p - {c.pid}, if ok then Entered(p, g, c, leaves) else Entered(p, g, c, leaves) - {c.uri})
       <==> !leaves)
  {
    var p' := if ok then p[c.pid := c] else p - {c.pid};
    var g' := if ok then Entered(p, g, c, leaves) else Entered(p, g, c, leaves) - {c.uri};
    if Routes(p, g) {
      if leaves {
        assert p[c.pid].uri in g';
      } else {
        forall u | u in g' ensures g'[u] in p' && p'[g'[u]].uri == u {
          if u != c.uri {
            assert g[u] in p && p[g[u]].uri == u;
          }
        }
      }
    }
  }

  ghost predicate Routes(p: map<int, Gateway>, g: map<string, int>) {
    forall u :: u in g ==> g[u] in p && p[g[u]].uri == u
  }

  // ----- the life of a channel

  class Channel {
    const gateway: Gateway
    var chatID: string
    var account: Account
    /** The chat service's names of the running session; empty when none was started. */
    var channelID: string
    var sessionID: string
    /** When a close was requested or announced; 0 if not. */
    var closed: int

    /** The sessions held so far, and the close requests sent. */
    ghost var log: Log

    constructor (gateway: Gateway, chatID: string, account: Account, channelID: string)
      ensures this.gateway == gateway && State() == NewChan(chatID, account, channelID)
    {
      this.gateway, this.chatID, this.account, this.channelID := gateway, chatID, account, channelID;
      sessionID, closed := "", 0;
      log := Log(if channelID == "" then 0 else 1, [], 0, 0);
    }

    ghost function State(): Chan
      reads this
    {
      Chan(chatID, account, channelID, sessionID, closed, log)
    }

    predicate IsNew()
      reads this
    {
      channelID == ""
    }

    /** Unlinks the channel; the last channel of a deleted bot takes the gateway with it. */
    method Detach(ghost all: set<Channel>)
      requires this in all
      modifies gateway.index, gateway.srv
      ensures gateway.index.State(all) == Chats.Unlink(old(gateway.index.State(all)), this)
      ensures gateway.srv.Registry() ==
        if gateway.index.external == map[] && gateway.deleted then Retired(old(gateway.srv.Registry()), gateway) else old(gateway.srv.Registry())
    {
      gateway.index.Unlink(this, all);
      if |gateway.index.external| == 0 {
        gateway.Retire();
      }
    }

    /**
     Closes the channel: the first time by asking the chat service, unlinking it when
     that fails; once a close was asked for or announced, by unlinking it; and a
     channel that is not linked is left alone.
     */
    method Close(now: int, accepted: bool, ghost all: set<Channel>) returns (err: Option<Failure>)
      requires now != 0 && this in all
      modifies this`closed, this`log, gateway.index, gateway.srv
      ensures gateway.index.State(all) == Chats.Close(old(gateway.index.State(all)), this, now, accepted)
      ensures err == CloseError(old(gateway.index.State(all)), this, accepted)
      ensures gateway.srv.Registry() ==
        if Detaches(old(gateway.index.State(all)), this, accepted) && gateway.index.external == map[] && gateway.deleted
        then Retired(old(gateway.srv.Registry()), gateway) else old(gateway.srv.Registry())
    {
      if gateway.index.Linked(this) && closed != 0 {
        Detach(all);
        return None;
      }
      if !gateway.index.Linked(this) {
        return None;
      }
      closed := now;
      log := old(State()).Asked(now).log;
      assert Chans(all) == old(Chans(all))[this := State()];
      if !accepted {
        Detach(all);
        return Some(CloseFailure);
      }
      return None;
    }

    /** The chat service has closed the chat: the channel is unlinked, and no request is sent. */
    method Announced(now: int, ghost all: set<Channel>)
      requires now != 0 && this in all
      modifies this`closed, this`log, gateway.index, gateway.srv
      ensures gateway.index.State(all) == Chats.Announced(old(gateway.index.State(all)), this, now)
      ensures gateway.srv.Registry() ==
        if old(gateway.index.Linked(this)) && gateway.index.external == map[] && gateway.deleted
        then Retired(old(gateway.srv.Registry()), gateway) else old(gateway.srv.Registry())
    {
      if closed == 0 {
        closed := now;
      }
      assert Chans(all) == old(Chans(all))[this := State()];
      var _ := Close(now, true, all);
    }

    /** A message from the chat service may say that the chat is closed. */
    method Told(m: Message, now: int, ghost all: set<Channel>)
      requires now != 0 && this in all
      modifies this`closed, this`log, gateway.index, gateway.srv
      ensures var x := old(gateway.index.State(all));
        var closes := SaysClosed(m) && !x.At(this).IsNew();
        && gateway.index.State(all) == (if closes then Chats.Announced(x, this, now) else x)
        && gateway.srv.Registry() ==
            if closes && Chats.Linked(x, this) && gateway.index.external == map[] && gateway.deleted
            then Retired(old(gateway.srv.Registry()), gateway) else old(gateway.srv.Registry())
    {
      if !m.hasFile && m.text != "" {
        if !IsNew() && m.typ == "closed" {
          Announced(now, all);
        }
      }
    }

    /** Starts a session with a message; an edited message starts nothing. */
    method Start(m: Message, reply: StartReply, ghost all: set<Channel>) returns (err: Option<Failure>)
      requires this in all
      modifies this`closed, this`channelID, this`sessionID, this`log, gateway.index
      ensures gateway.index.State(all) == Chats.Start(old(gateway.index.State(all)), this, m, reply)
      ensures err == StartError(m, reply)
    {
      if m.updatedAt != 0 {
        return None;
      }
      if reply.NotStarted? {
        return Some(StartFailure(reply.filePolicy));
      }
      closed := 0;
      channelID, sessionID := reply.channelID, reply.sessionID;
      log := old(State()).Began(reply).log;
      assert Chans(all) == old(Chans(all))[this := State()];
      gateway.index.Link(this, all);
      return None;
    }

    /** Starts a session; when the message's file is refused by policy, starts it with a text that says so. */
    method StartOrExplain(m: Message, reply: StartReply, text: Option<string>, again: StartReply, ghost all: set<Channel>)
      returns (err: Option<Failure>)
      requires this in all
      modifies this`closed, this`channelID, this`sessionID, this`log, gateway.index
      ensures gateway.index.State(all) == Chats.StartOrExplain(old(gateway.index.State(all)), this, m, reply, text, again)
      ensures err == StartOrExplainError(m, reply, text, again)
    {
      err := Start(m, reply, all);
      if err.None? || !(err.value.filePolicy && m.hasFile) {
        return err;
      }
      if text.None? {
        return Some(TemplateFailure);
      }
      err := Start(Message("text", text.value, false, m.updatedAt), again, all);
    }

    /** The chat service no longer knows the session: it is started again, or the channel is unlinked. */
    method Recover(m: Message, reply: StartReply, text: Option<string>, again: StartReply, ghost all: set<Channel>)
      returns (err: Option<Failure>)
      requires this in all
      modifies this`closed, this`channelID, this`sessionID, this`log, gateway.index
      ensures gateway.index.State(all) == Chats.Recover(old(gateway.index.State(all)), this, m, reply, text, again)
      ensures err == StartOrExplainError(m, reply, text, again)
    {
      channelID, sessionID, closed := "", "", 0;
      assert Chans(all) == old(Chans(all))[this := State()];
      err := StartOrExplain(m, reply, text, again, all);
      if err.Some? {
        if gateway.index.Linked(this) {
          gateway.index.Unlink(this, all);
        }
      }
    }

    /** A message from the external user. */
    method Recv(m: Message, sent: SendReply, reply: StartReply, text: Option<string>, again: StartReply, now: int, accepted: bool,
          ghost all: set<Channel>)
      returns (err: Option<Failure>)
      requires now != 0 && this in all
      modifies this`closed, this`channelID, this`sessionID, this`log, gateway.index, gateway.srv
      ensures gateway.index.State(all) == Chats.Recv(old(gateway.index.State(all)), this, m, sent, reply, text, again, now, accepted)
      ensures err == RecvError(old(gateway.index.State(all)), this, m, sent, reply, text, again, accepted)
      ensures gateway.srv.Registry() ==
        if Ends(old(gateway.index.State(all)), this, m, accepted) && gateway.index.external == map[] && gateway.deleted
        then Retired(old(gateway.srv.Registry()), gateway) else old(gateway.srv.Registry())
    {
      if IsNew() {
        if IsCloseCommand(m) {
          return None;
        }
        err := StartOrExplain(m, reply, text, again, all);
        return;
      }
      if IsCloseCommand(m) {
        err := Close(now, accepted, all);
        return;
      }
      match sent {
        case Delivered =>
          return None;
        case NotDelivered(filePolicy) =>
          return Some(if filePolicy && m.hasFile then FileRefused else SendFailure(filePolicy));
        case ClosedThere =>
          err := Recover(m, reply, text, again, all);
      }
    }
  }
}
