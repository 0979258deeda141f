/**
 A bot's channels as values: what each operation of the gateway does to the two
 indexes, and to the channels they lead to. `R` stands for references to channels.
 Answers of the chat service and of providers are parameters.
 */
module Chats {
  import opened Wrappers

  datatype Message = Message(typ: string, text: string, hasFile: bool, updatedAt: int)

  /** An external user: the client id given by the chat service, the kind of chat, and the id there. */
  datatype Account = Account(id: int, channel: string, contact: string)

  datatype Failure = StartFailure(filePolicy: bool) | SendFailure(filePolicy: bool) | CloseFailure | TemplateFailure | FileRefused

  datatype StartReply = Started(channelID: string, sessionID: string) | NotStarted(filePolicy: bool)

  datatype SendReply = Delivered | ClosedThere | NotDelivered(filePolicy: bool)

  /** What the chat service knows of a client: a session to recover, or just the client. */
  datatype Check = CheckFailed | Session(channelID: string, clientID: int, chat: Option<string>) | Client(clientID: int)

  /** The bot that is asked for a channel: its kind of chat, and whether it accepts new ones. */
  datatype Bot = Bot(provider: string, enabled: bool)

  const CLOSE_COMMAND: string := "/close"
  const WHATSAPP: string := "whatsapp"

  predicate IsCloseCommand(m: Message) {
    m.text == CLOSE_COMMAND && m.typ == "text"
  }

  // ----- channels

  /** The close requests of a channel: for which of its sessions, how many for none, and how many since the last session began. */
  datatype Log = Log(sessions: nat, asked: seq<nat>, blanks: nat, since: nat)

  /** A channel; without ids of a running session it is new, and `closed` tells when a close was asked for or announced. */
  datatype Chan = Chan(chatID: string, account: Account, channelID: string, sessionID: string, closed: int, log: Log) {
    predicate IsNew() {
      channelID == ""
    }

    /** A session runs, and its close was neither asked for nor announced. */
    predicate Open() {
      channelID != "" && closed == 0
    }

    function Began(reply: StartReply): Chan
      requires reply.Started?
    {
      this.(closed := 0, channelID := reply.channelID, sessionID := reply.sessionID,
            log := Log(log.sessions + 1, log.asked, log.blanks, 0))
    }

    /** A close request was sent; one without ids names no session. */
    function Asked(now: int): Chan {
      this.(closed := now,
            log := if channelID != "" then log.(asked := log.asked + [log.sessions], since := log.since + 1)
                   else log.(blanks := log.blanks + 1, since := log.since + 1))
    }

    function Lost(): Chan {
      this.(channelID := "", sessionID := "", closed := 0)
    }
  }

  const NOBODY: Chan := Chan("", Account(0, "", ""), "", "", 0, Log(0, [], 0, 0))

  /** A channel as it is made: for a session recovered, or for none. */
  function NewChan(chatID: string, who: Account, channelID: string): Chan {
    Chan(chatID, who, channelID, "", 0, Log(if channelID == "" then 0 else 1, [], 0, 0))
  }

  // ----- the two indexes

  datatype Index<R> = Index(external: map<string, R>, internal: map<int, R>, chans: map<R, Chan>) {
    function At(r: R): Chan {
      if r in chans then chans[r] else NOBODY
    }

    /** Both maps hold the same channels, each under its own chat id and client id. */
    ghost predicate Agree() {
      && (forall k :: k in external ==>
            external[k] in chans && At(external[k]).chatID == k
            && At(external[k]).account.id in internal && internal[At(external[k]).account.id] == external[k])
      && (forall u :: u in internal ==>
            internal[u] in chans && At(internal[u]).account.id == u
            && At(internal[u]).chatID in external && external[At(internal[u]).chatID] == internal[u])
    }
  }

  /** The indexes lead to channels met. */
  ghost predicate Known<R>(x: Index<R>) {
    && (forall k :: k in x.external ==> x.external[k] in x.chans)
    && (forall u :: u in x.internal ==> x.internal[u] in x.chans)
  }

  predicate Linked<R(==)>(x: Index<R>, r: R) {
    x.At(r).chatID in x.external && x.external[x.At(r).chatID] == r
  }

  /** The two keys are both free, or both name one channel. */
  predicate KeysFree<R(==)>(x: Index<R>, chat: string, id: int) {
    if chat in x.external then id in x.internal && x.internal[id] == x.external[chat] else id !in x.internal
  }

  function Put<R>(x: Index<R>, r: R, c: Chan): Index<R> {
    x.(chans := x.chans[r := c])
  }

  function Link<R>(x: Index<R>, r: R): Index<R> {
    x.(external := x.external[x.At(r).chatID := r], internal := x.internal[x.At(r).account.id := r])
  }

  function Unlink<R>(x: Index<R>, r: R): Index<R> {
    x.(external := x.external - {x.At(r).chatID}, internal := x.internal - {x.At(r).account.id})
  }

  /** The number of a channel's user changed: the channel that was asked for as `chat` becomes `now`. */
  function Rename<R(==)>(x: Index<R>, r: R, chat: string, now: string): Index<R> {
    var c := x.At(r);
    var external := if chat !in x.external then x.external
      else (if x.external[chat] == r then x.external - {chat} else x.external)[now := r];
    Index(external, x.internal, x.chans[r := c.(chatID := now, account := c.account.(contact := now))])
  }

  // ----- looking a channel up

  /** The channel indexed by the client's id, or else by the chat's. */
  function Found<R>(x: Index<R>, chat: string, who: Account): Option<R> {
    if who.id != 0 && who.id in x.internal then Some(x.internal[who.id])
    else if chat != "" && chat in x.external then Some(x.external[chat])
    else None
  }

  /** The user a call is about; with none given, the chat itself. */
  function Sender(bot: Bot, chat: string, contact: Option<Account>): Account {
    var who := if contact.Some? then contact.value else Account(0, bot.provider, chat);
    if who.channel == "" then who.(channel := bot.provider) else who
  }

  /** The chat id of a channel made for a client: the stored one, else the chat asked for, else the contact's. */
  function NewChat(chat: string, who: Account, check: Check): string {
    if check.Session? && check.chat.Some? && check.chat.value != "" then check.chat.value
    else if chat == "" then who.contact
    else chat
  }

  /** The number of a chat's user has changed. */
  predicate Moves(chat: string, who: Account, channel: string) {
    who.contact != "" && chat != "" && who.contact != chat && channel == WHATSAPP
  }

  function Followed<R(==)>(x: Index<R>, r: R, chat: string, who: Account): Index<R> {
    if Moves(chat, who, x.At(r).account.channel) then Rename(x, r, chat, who.contact) else x
  }

  /** A channel can be recovered, or made. */
  predicate CanMake(bot: Bot, check: Check) {
    check.Session? || (check.Client? && bot.enabled)
  }

  function Made<R(==)>(x: Index<R>, chat: string, who: Account, check: Check, spare: R): Index<R>
    requires !check.CheckFailed?
  {
    var at := NewChat(chat, who, check);
    var c := NewChan(at, who.(id := check.clientID), if check.Session? then check.channelID else "");
    Followed(Link(Put(x, spare, c), spare), spare, at, who)
  }

  /** A lookup makes a channel; then it takes a reference that is not in use. */
  predicate Makes<R>(x: Index<R>, bot: Bot, chat: string, contact: Option<Account>, check: Check) {
    (chat != "" || contact.Some?) && Found(x, chat, Sender(bot, chat, contact)).None? && CanMake(bot, check)
  }

  /** A lookup returns a channel, not an error. */
  predicate Answers<R>(x: Index<R>, bot: Bot, chat: string, contact: Option<Account>, check: Check) {
    (chat != "" || contact.Some?) && (Found(x, chat, Sender(bot, chat, contact)).Some? || CanMake(bot, check))
  }

  /** The channel a lookup returns: one found, or else one recovered or made at `spare`. */
  function Answer<R>(x: Index<R>, bot: Bot, chat: string, contact: Option<Account>, check: Check, spare: R): Option<R> {
    if chat == "" && contact.None? then None
    else match Found(x, chat, Sender(bot, chat, contact))
      case Some(r) => Some(r)
      case None => if CanMake(bot, check) then Some(spare) else None
  }

  function GetChannel<R(==)>(x: Index<R>, bot: Bot, chat: string, contact: Option<Account>, check: Check, spare: R): Index<R> {
    if chat == "" && contact.None? then x
    else
      var who := Sender(bot, chat, contact);
      match Found(x, chat, who)
      case Some(r) => Followed(x, r, chat, who)
      case None => if CanMake(bot, check) then Made(x, chat, who, check, spare) else x
  }

  // ----- the life of a channel

  /** A message starts a session, by itself or, its file being refused by policy, with the text that says so. */
  predicate Starts(m: Message, reply: StartReply, text: Option<string>, again: StartReply) {
    m.updatedAt == 0 && (reply.Started? || (reply.filePolicy && m.hasFile && text.Some? && again.Started?))
  }

  /** Starts a session; an edited message starts nothing. */
  function Start<R>(x: Index<R>, r: R, m: Message, reply: StartReply): Index<R> {
    if m.updatedAt == 0 && reply.Started? then Link(Put(x, r, x.At(r).Began(reply)), r) else x
  }

  function StartError(m: Message, reply: StartReply): Option<Failure> {
    if m.updatedAt == 0 && reply.NotStarted? then Some(StartFailure(reply.filePolicy)) else None
  }

  function StartOrExplain<R>(x: Index<R>, r: R, m: Message, reply: StartReply, text: Option<string>, again: StartReply): Index<R> {
    if Starts(m, reply, text, again) then Start(x, r, m, if reply.Started? then reply else again) else x
  }

  function StartOrExplainError(m: Message, reply: StartReply, text: Option<string>, again: StartReply): Option<Failure> {
    var err := StartError(m, reply);
    if err.None? || !(reply.filePolicy && m.hasFile) then err
    else if text.None? then Some(TemplateFailure)
    else StartError(m, again)
  }

  /** A linked channel's close is asked for, once; a failed request, or a second close, unlinks it. */
  predicate Asks<R(==)>(x: Index<R>, r: R) {
    Linked(x, r) && x.At(r).closed == 0
  }

  /** Closing the channel unlinks it. */
  predicate Detaches<R(==)>(x: Index<R>, r: R, accepted: bool) {
    Linked(x, r) && (x.At(r).closed != 0 || !accepted)
  }

  function Close<R(==)>(x: Index<R>, r: R, now: int, accepted: bool): Index<R> {
    if !Linked(x, r) then x
    else if x.At(r).closed != 0 then Unlink(x, r)
    else
      var asked := Put(x, r, x.At(r).Asked(now));
      if accepted then asked else Unlink(asked, r)
  }

  /** The chat service has closed the chat: no request is sent. */
  function Announced<R(==)>(x: Index<R>, r: R, now: int): Index<R> {
    Close(if x.At(r).closed == 0 then Put(x, r, x.At(r).(closed := now)) else x, r, now, true)
  }

  /** A session the chat service no longer knows is started again; the channel is unlinked when that fails. */
  function Recover<R(==)>(x: Index<R>, r: R, m: Message, reply: StartReply, text: Option<string>, again: StartReply): Index<R> {
    var tried := StartOrExplain(Put(x, r, x.At(r).Lost()), r, m, reply, text, again);
    if StartOrExplainError(m, reply, text, again).Some? && Linked(tried, r) then Unlink(tried, r) else tried
  }

  /** A message of the user closes the channel for good. */
  predicate Ends<R(==)>(x: Index<R>, r: R, m: Message, accepted: bool) {
    !x.At(r).IsNew() && IsCloseCommand(m) && Detaches(x, r, accepted)
  }

  /** A message from the external user. */
  function Recv<R(==)>(x: Index<R>, r: R, m: Message, sent: SendReply, reply: StartReply, text: Option<string>, again: StartReply,
                       now: int, accepted: bool): Index<R>
  {
    if x.At(r).IsNew() then if IsCloseCommand(m) then x else StartOrExplain(x, r, m, reply, text, again)
    else if IsCloseCommand(m) then Close(x, r, now, accepted)
    else if sent.ClosedThere? then Recover(x, r, m, reply, text, again)
    else x
  }

  function CloseError<R(==)>(x: Index<R>, r: R, accepted: bool): Option<Failure> {
    if Asks(x, r) && !accepted then Some(CloseFailure) else None
  }

  function RecvError<R(==)>(x: Index<R>, r: R, m: Message, sent: SendReply, reply: StartReply, text: Option<string>, again: StartReply,
                            accepted: bool): Option<Failure>
  {
    if x.At(r).IsNew() then if IsCloseCommand(m) then None else StartOrExplainError(m, reply, text, again)
    else if IsCloseCommand(m) then CloseError(x, r, accepted)
    else match sent
      case Delivered => None
      case NotDelivered(filePolicy) => Some(if filePolicy && m.hasFile then FileRefused else SendFailure(filePolicy))
      case ClosedThere => StartOrExplainError(m, reply, text, again)
  }

  /** A message says, with a text, that the chat is closed. */
  predicate SaysClosed(m: Message) {
    !m.hasFile && m.text != "" && m.typ == "closed"
  }

  /** A message from the chat service. */
  function Send<R(==)>(x: Index<R>, bot: Bot, chat: string, m: Message, check: Check, spare: R, now: int): Index<R> {
    var r := Answer(x, bot, chat, None, check, spare);
    var got := GetChannel(x, bot, chat, None, check, spare);
    if r.Some? && SaysClosed(m) && !got.At(r.value).IsNew() then Announced(got, r.value, now) else got
  }

  // ----- when the indexes go on agreeing

  lemma PutKeepsAgree<R>(x: Index<R>, r: R, c: Chan)
    requires r in x.chans ==> c.chatID == x.At(r).chatID && c.account == x.At(r).account
    ensures x.Agree() ==> Put(x, r, c).Agree()
    ensures r in x.chans && Put(x, r, c).Agree() ==> x.Agree()
  {
    var y := Put(x, r, c);
    assert forall q :: q != r ==> y.At(q) == x.At(q);
  }

  /** Linking keeps agreement exactly when the keys are free or name one channel. */
  lemma LinkAgrees<R>(x: Index<R>, r: R)
    requires x.Agree() && r in x.chans
    ensures Link(x, r).Agree() <==> KeysFree(x, x.At(r).chatID, x.At(r).account.id)
  {
    var y, c := Link(x, r), x.At(r);
    if c.chatID in x.external && x.external[c.chatID] != r && x.At(x.external[c.chatID]).account.id != c.account.id {
      assert y.internal[x.At(x.external[c.chatID]).account.id] == x.external[c.chatID];
    }
    if c.account.id in x.internal && x.internal[c.account.id] != r && x.At(x.internal[c.account.id]).chatID != c.chatID {
      assert y.external[x.At(x.internal[c.account.id]).chatID] == x.internal[c.account.id];
    }
  }

  lemma UnlinkAgrees<R>(x: Index<R>, r: R)
    requires x.Agree() && Linked(x, r)
    ensures Unlink(x, r).Agree()
  {
  }

  /** A channel looked up by its chat may take a new chat id that is free; one that has the new id already may be asked for by any. */
  predicate RenameSafe<R(==)>(x: Index<R>, r: R, chat: string, now: string) {
    x.At(r).chatID == now || (x.At(r).chatID == chat && now !in x.external)
  }

  lemma RenameAgrees<R>(x: Index<R>, r: R, chat: string, now: string)
    requires x.Agree() && Linked(x, r) && chat != now
    ensures Rename(x, r, chat, now).Agree() <==> RenameSafe(x, r, chat, now)
  {
    var y, c := Rename(x, r, chat, now), x.At(r);
    assert forall q :: q != r ==> y.At(q) == x.At(q);
    if c.chatID != now && c.chatID == chat && now in x.external {
      assert x.external[now] != r && y.internal[x.At(x.external[now]).account.id] == x.external[now];
    } else if c.chatID != now && c.chatID != chat {
      assert y.external[c.chatID] == r;
    }
  }

  /** A channel that is made, and followed to a new number: whatever it displaces has its client, its stored chat or its new one. */
  predicate MadeSafe<R(==)>(x: Index<R>, chat: string, now: string, id: int) {
    && (chat in x.external ==> x.At(x.external[chat]).account.id == id)
    && (now in x.external ==> x.At(x.external[now]).account.id == id)
    && (id in x.internal ==> x.At(x.internal[id]).chatID in {chat, now})
  }

  /** Where a channel made for a client ends up. */
  function MadeAt(chat: string, who: Account, check: Check): string {
    var at := NewChat(chat, who, check);
    if Moves(at, who, who.channel) then who.contact else at
  }

  /** A new channel in the indexes, in place of whatever had the chat it came by, its chat or its client. */
  function Placed<R>(x: Index<R>, at: string, r: R, c: Chan): Index<R> {
    Index((x.external - {at})[c.chatID := r], x.internal[c.account.id := r], x.chans[r := c])
  }

  lemma MadeIs<R>(x: Index<R>, chat: string, who: Account, check: Check, spare: R) returns (c: Chan)
    requires !check.CheckFailed?
    ensures Made(x, chat, who, check, spare) == Placed(x, NewChat(chat, who, check), spare, c)
    ensures c.chatID == MadeAt(chat, who, check) && c.account.id == check.clientID && c.account.channel == who.channel
    ensures c.channelID == (if check.Session? then check.channelID else "") && c.closed == 0
    ensures c.log == Log(if c.channelID == "" then 0 else 1, [], 0, 0)
  {
    var at := NewChat(chat, who, check);
    c := NewChan(at, who.(id := check.clientID), if check.Session? then check.channelID else "");
    var y := Link(Put(x, spare, c), spare);
    assert x.external[at := spare] - {at} == x.external - {at};
    assert (x.external - {at})[at := spare] == x.external[at := spare];
    if Moves(at, who, who.channel) {
      c := c.(chatID := who.contact, account := c.account.(contact := who.contact));
    }
  }

  /** A channel that is displaced, and has neither key of the new one, stays in one index only, whether or not the new one stays. */
  lemma PlacedBreaks<R>(x: Index<R>, at: string, r: R, c: Chan, y: Index<R>)
    requires x.Agree() && r !in x.chans && !MadeSafe(x, at, c.chatID, c.account.id)
    requires forall q :: q != r ==> y.At(q) == x.At(q)
    requires forall k :: k !in {at, c.chatID} && k in x.external ==> k in y.external && y.external[k] == x.external[k]
    requires forall u :: u != c.account.id && u in x.internal ==> u in y.internal && y.internal[u] == x.internal[u]
    requires forall k :: k in {at, c.chatID} && k in y.external ==> y.external[k] == r
    requires c.account.id in y.internal ==> y.internal[c.account.id] == r
    ensures !y.Agree()
  {
    if at in x.external && x.At(x.external[at]).account.id != c.account.id {
      assert y.internal[x.At(x.external[at]).account.id] == x.external[at];
    } else if c.chatID in x.external && x.At(x.external[c.chatID]).account.id != c.account.id {
      assert y.internal[x.At(x.external[c.chatID]).account.id] == x.external[c.chatID];
    } else {
      assert y.external[x.At(x.internal[c.account.id]).chatID] == x.internal[c.account.id];
    }
  }

  lemma PlacedHolds<R>(x: Index<R>, at: string, r: R, c: Chan)
    requires x.Agree() && r !in x.chans && MadeSafe(x, at, c.chatID, c.account.id)
    ensures Placed(x, at, r, c).Agree()
  {
    var y := Placed(x, at, r, c);
    forall k | k in y.external
      ensures y.external[k] in y.chans && y.At(y.external[k]).chatID == k
      ensures y.At(y.external[k]).account.id in y.internal && y.internal[y.At(y.external[k]).account.id] == y.external[k]
    {
      if k != c.chatID {
        assert x.internal[x.At(x.external[k]).account.id] == x.external[k];
      }
    }
    forall u | u in y.internal
      ensures y.internal[u] in y.chans && y.At(y.internal[u]).account.id == u
      ensures y.At(y.internal[u]).chatID in y.external && y.external[y.At(y.internal[u]).chatID] == y.internal[u]
    {
      if u != c.account.id {
        assert x.external[x.At(x.internal[u]).chatID] == x.internal[u];
      }
    }
  }

  lemma PlacedAgrees<R>(x: Index<R>, at: string, r: R, c: Chan)
    requires x.Agree() && r !in x.chans
    ensures Placed(x, at, r, c).Agree() <==> MadeSafe(x, at, c.chatID, c.account.id)
  {
    var y := Placed(x, at, r, c);
    if MadeSafe(x, at, c.chatID, c.account.id) {
      PlacedHolds(x, at, r, c);
    } else {
      PlacedBreaks(x, at, r, c, y);
    }
  }

  lemma MadeAgrees<R>(x: Index<R>, chat: string, who: Account, check: Check, spare: R)
    requires x.Agree() && spare !in x.chans && !check.CheckFailed?
    ensures Made(x, chat, who, check, spare).Agree() <==>
      MadeSafe(x, NewChat(chat, who, check), MadeAt(chat, who, check), check.clientID)
  {
    var c := MadeIs(x, chat, who, check, spare);
    PlacedAgrees(x, NewChat(chat, who, check), spare, c);
  }

  /** What a lookup must find for the indexes to go on agreeing. */
  predicate LookupSafe<R(==)>(x: Index<R>, bot: Bot, chat: string, contact: Option<Account>, check: Check) {
    if chat == "" && contact.None? then true
    else
      var who := Sender(bot, chat, contact);
      match Found(x, chat, who)
      case Some(r) => Moves(chat, who, x.At(r).account.channel) ==> RenameSafe(x, r, chat, who.contact)
      case None => CanMake(bot, check) ==> MadeSafe(x, NewChat(chat, who, check), MadeAt(chat, who, check), check.clientID)
  }

  lemma GetChannelAgrees<R>(x: Index<R>, bot: Bot, chat: string, contact: Option<Account>, check: Check, spare: R)
    requires x.Agree() && (Makes(x, bot, chat, contact, check) ==> spare !in x.chans)
    ensures GetChannel(x, bot, chat, contact, check, spare).Agree() <==> LookupSafe(x, bot, chat, contact, check)
  {
    var who := Sender(bot, chat, contact);
    if chat != "" || contact.Some? {
      match Found(x, chat, who) {
        case Some(r) =>
          if Moves(chat, who, x.At(r).account.channel) {
            RenameAgrees(x, r, chat, who.contact);
          }
        case None =>
          if CanMake(bot, check) {
            MadeAgrees(x, chat, who, check, spare);
          }
      }
    }
  }

  /** A safe lookup returns a channel that is linked by both keys, and changes no other channel. */
  lemma LookupLinks<R>(x: Index<R>, bot: Bot, chat: string, contact: Option<Account>, check: Check, spare: R)
    requires x.Agree() && LookupSafe(x, bot, chat, contact, check) && (Makes(x, bot, chat, contact, check) ==> spare !in x.chans)
    requires Answers(x, bot, chat, contact, check)
    ensures var r, y := Answer(x, bot, chat, contact, check, spare).value, GetChannel(x, bot, chat, contact, check, spare);
      && Linked(y, r) && y.At(r).account.id in y.internal && y.internal[y.At(r).account.id] == r
      && forall q :: q != r ==> y.At(q) == x.At(q)
  {
    var who := Sender(bot, chat, contact);
    if Found(x, chat, who).None? {
      var c := MadeIs(x, chat, who, check, spare);
    }
  }

  /** Looked up once more by its chat, a channel is found again as it is, whatever the chat service would answer. */
  lemma LookupAgain<R>(x: Index<R>, bot: Bot, chat: string, contact: Option<Account>, check: Check, spare: R, check2: Check, spare2: R)
    requires x.Agree() && LookupSafe(x, bot, chat, contact, check) && (Makes(x, bot, chat, contact, check) ==> spare !in x.chans)
    requires Answers(x, bot, chat, contact, check)
    ensures var r, y := Answer(x, bot, chat, contact, check, spare), GetChannel(x, bot, chat, contact, check, spare);
      var now := y.At(r.value).chatID;
      now != "" ==> Answer(y, bot, now, None, check2, spare2) == r && GetChannel(y, bot, now, None, check2, spare2) == y
  {
    LookupLinks(x, bot, chat, contact, check, spare);
  }

  lemma StartAgrees<R>(x: Index<R>, r: R, m: Message, reply: StartReply)
    requires x.Agree() && r in x.chans
    ensures Start(x, r, m, reply).Agree() <==>
      (m.updatedAt == 0 && reply.Started? ==> KeysFree(x, x.At(r).chatID, x.At(r).account.id))
  {
    if m.updatedAt == 0 && reply.Started? {
      var y := Put(x, r, x.At(r).Began(reply));
      PutKeepsAgree(x, r, x.At(r).Began(reply));
      LinkAgrees(y, r);
    }
  }

  lemma CloseAgrees<R>(x: Index<R>, r: R, now: int, accepted: bool)
    requires x.Agree() && r in x.chans
    ensures Close(x, r, now, accepted).Agree()
  {
    if Linked(x, r) {
      PutKeepsAgree(x, r, x.At(r).Asked(now));
      UnlinkAgrees(x, r);
      UnlinkAgrees(Put(x, r, x.At(r).Asked(now)), r);
    }
  }

  lemma AnnouncedAgrees<R>(x: Index<R>, r: R, now: int)
    requires x.Agree() && r in x.chans
    ensures Announced(x, r, now).Agree()
  {
    var c := x.At(r).(closed := now);
    PutKeepsAgree(x, r, c);
    CloseAgrees(if x.At(r).closed == 0 then Put(x, r, c) else x, r, now, true);
  }

  /** A linked channel whose close is announced is unlinked. */
  lemma AnnouncedUnlinks<R>(x: Index<R>, r: R, now: int)
    requires Linked(x, r) && r in x.chans && now != 0
    ensures var y := Announced(x, r, now);
      && y.external == x.external - {x.At(r).chatID} && y.internal == x.internal - {x.At(r).account.id}
      && forall q :: q != r ==> y.At(q) == x.At(q)
  {
  }

  /** A message of the user begins a session. */
  predicate Opens<R>(x: Index<R>, r: R, m: Message, sent: SendReply, reply: StartReply, text: Option<string>, again: StartReply) {
    !IsCloseCommand(m) && (x.At(r).IsNew() || sent.ClosedThere?) && Starts(m, reply, text, again)
  }

  lemma StartOrExplainAgrees<R>(x: Index<R>, r: R, m: Message, reply: StartReply, text: Option<string>, again: StartReply)
    requires x.Agree() && r in x.chans
    ensures StartOrExplain(x, r, m, reply, text, again).Agree() <==>
      (Starts(m, reply, text, again) ==> KeysFree(x, x.At(r).chatID, x.At(r).account.id))
  {
    StartAgrees(x, r, m, if reply.Started? then reply else again);
  }

  lemma StartsOrFails(m: Message, reply: StartReply, text: Option<string>, again: StartReply)
    ensures StartOrExplainError(m, reply, text, again).Some? ==> !Starts(m, reply, text, again)
  {
  }

  lemma RecoverAgrees<R>(x: Index<R>, r: R, m: Message, reply: StartReply, text: Option<string>, again: StartReply)
    requires x.Agree() && r in x.chans
    ensures Recover(x, r, m, reply, text, again).Agree() <==>
      (Starts(m, reply, text, again) ==> KeysFree(x, x.At(r).chatID, x.At(r).account.id))
  {
    var lost := Put(x, r, x.At(r).Lost());
    PutKeepsAgree(x, r, x.At(r).Lost());
    StartOrExplainAgrees(lost, r, m, reply, text, again);
    StartsOrFails(m, reply, text, again);
    if !Starts(m, reply, text, again) && Linked(lost, r) {
      UnlinkAgrees(lost, r);
    }
  }

  lemma RecvAgrees<R>(x: Index<R>, r: R, m: Message, sent: SendReply, reply: StartReply, text: Option<string>, again: StartReply,
                      now: int, accepted: bool)
    requires x.Agree() && r in x.chans
    ensures Recv(x, r, m, sent, reply, text, again, now, accepted).Agree() <==>
      (Opens(x, r, m, sent, reply, text, again) ==> KeysFree(x, x.At(r).chatID, x.At(r).account.id))
  {
    if x.At(r).IsNew() {
      StartOrExplainAgrees(x, r, m, reply, text, again);
    } else if IsCloseCommand(m) {
      CloseAgrees(x, r, now, accepted);
    } else if sent.ClosedThere? {
      RecoverAgrees(x, r, m, reply, text, again);
    }
  }

  /** A channel that was made, but not safely, leaves the indexes in disagreement also when it is unlinked at once. */
  lemma AnnouncedBreaks<R>(x: Index<R>, chat: string, who: Account, check: Check, spare: R, now: int)
    requires x.Agree() && spare !in x.chans && now != 0 && !check.CheckFailed?
    requires !Made(x, chat, who, check, spare).Agree()
    ensures !Announced(Made(x, chat, who, check, spare), spare, now).Agree()
  {
    var made := Made(x, chat, who, check, spare);
    var c := MadeIs(x, chat, who, check, spare);
    PlacedAgrees(x, NewChat(chat, who, check), spare, c);
    AnnouncedUnlinks(made, spare, now);
    PlacedBreaks(x, NewChat(chat, who, check), spare, c, Announced(made, spare, now));
  }

  /** The channel that a message from the chat service unlinks. */
  function Dropped<R(==)>(x: Index<R>, bot: Bot, chat: string, m: Message, check: Check, spare: R): Option<R> {
    var r := Answer(x, bot, chat, None, check, spare);
    var got := GetChannel(x, bot, chat, None, check, spare);
    if r.Some? && SaysClosed(m) && !got.At(r.value).IsNew() && Linked(got, r.value) then r else None
  }

  /** With no contact given, a lookup follows no channel it finds. */
  lemma SendAgrees<R>(x: Index<R>, bot: Bot, chat: string, m: Message, check: Check, spare: R, now: int)
    requires x.Agree() && (Makes(x, bot, chat, None, check) ==> spare !in x.chans) && now != 0
    ensures Send(x, bot, chat, m, check, spare, now).Agree() <==> LookupSafe(x, bot, chat, None, check)
  {
    var r := Answer(x, bot, chat, None, check, spare);
    var got := GetChannel(x, bot, chat, None, check, spare);
    GetChannelAgrees(x, bot, chat, None, check, spare);
    if r.Some? && SaysClosed(m) && !got.At(r.value).IsNew() {
      if got.Agree() {
        AnnouncedAgrees(got, r.value, now);
      } else {
        assert Makes(x, bot, chat, None, check);
        AnnouncedBreaks(x, chat, Sender(bot, chat, None), check, spare, now);
      }
    }
  }
}
