/** What a lookup, a close, a start and a message do to a bot's indexes, key by key, and to the channel itself. */
module ChatLaws {
  import opened Wrappers
  import opened Chats

  // ----- looking a channel up

  /** The client's id leads to a channel. */
  predicate ById<R>(x: Index<R>, contact: Option<Account>) {
    contact.Some? && contact.value.id != 0 && contact.value.id in x.internal
  }

  /** Neither the client's id nor the chat's leads to a channel. */
  predicate Unknown<R>(x: Index<R>, chat: string, contact: Option<Account>) {
    !ById(x, contact) && (chat == "" || chat !in x.external)
  }

  /** The keys lead to `r`, and the client's id goes before the chat's. */
  predicate LeadTo<R(==)>(x: Index<R>, chat: string, contact: Option<Account>, r: R) {
    if ById(x, contact) then x.internal[contact.value.id] == r else chat != "" && chat in x.external && x.external[chat] == r
  }

  /** The number given for the user is not that of the chat. */
  predicate OtherNumber(chat: string, number: string, kind: string) {
    kind == "whatsapp" && chat != "" && number != "" && number != chat
  }

  /**
   A channel the keys lead to is the answer; it is left as it is, unless a WhatsApp user is given with a number other
   than the chat's.
   */
  lemma FoundIs<R>(x: Index<R>, bot: Bot, chat: string, contact: Option<Account>, check: Check, spare: R, r: R)
    requires LeadTo(x, chat, contact, r)
    ensures Answer(x, bot, chat, contact, check, spare) == Some(r)
    ensures var y, c := GetChannel(x, bot, chat, contact, check, spare), x.At(r);
      if contact.Some? && OtherNumber(chat, contact.value.contact, c.account.channel) then
        var n := contact.value.contact;
        && y.internal == x.internal && y.chans == x.chans[r := c.(chatID := n, account := Account(c.account.id, "whatsapp", n))]
        && (chat !in x.external ==> y.external == x.external)
        && (chat in x.external ==>
            && (forall k :: k in y.external <==> k == n || (k in x.external && (k == chat ==> x.external[chat] != r)))
            && y.external[n] == r && forall k :: k in y.external && k != n ==> y.external[k] == x.external[k])
      else y == x
  {
  }

  /**
   Without a key that leads to a channel there is none when nothing is given, when the chat service fails, and when a
   bot that is disabled would need a new one; then nothing changes.
   */
  lemma NoneIsMade<R>(x: Index<R>, bot: Bot, chat: string, contact: Option<Account>, check: Check, spare: R)
    requires Unknown(x, chat, contact)
    ensures Answer(x, bot, chat, contact, check, spare) ==
      if (chat == "" && contact.None?) || check.CheckFailed? || (check.Client? && !bot.enabled) then None else Some(spare)
    ensures Answer(x, bot, chat, contact, check, spare).None? ==> GetChannel(x, bot, chat, contact, check, spare) == x
  {
  }

  /** A client without a session gets a channel exactly when the bot is enabled. */
  lemma DisabledMakesNone<R>(x: Index<R>, bot: Bot, chat: string, contact: Option<Account>, id: int, spare: R)
    requires Unknown(x, chat, contact) && (chat != "" || contact.Some?)
    ensures Answer(x, bot, chat, contact, Client(id), spare) == None && GetChannel(x, bot, chat, contact, Client(id), spare) == x
      <==> !bot.enabled
    ensures bot.enabled ==> Answer(x, bot, chat, contact, Client(id), spare) == Some(spare)
  {
  }

  /** The chat id a new channel comes by: the one stored with the session, else the chat asked for, else the user's. */
  predicate ComesBy(chat: string, contact: Option<Account>, check: Check, at: string) {
    if check.Session? && check.chat.Some? && check.chat.value != "" then at == check.chat.value
    else if chat != "" then at == chat
    else contact.Some? && at == contact.value.contact
  }

  lemma MadeInFull<R>(x: Index<R>, chat: string, who: Account, check: Check, spare: R, at: string)
    requires !check.CheckFailed? && at == NewChat(chat, who, check)
    ensures var y := Made(x, chat, who, check, spare);
      var c := NewChan(if OtherNumber(at, who.contact, who.channel) then who.contact else at, who.(id := check.clientID),
                       if check.Session? then check.channelID else "");
      y == Placed(x, at, spare, c)
  {
    var c := MadeIs(x, chat, who, check, spare);
  }

  /**
   A session is recovered, also by a bot that is disabled, and a client of an enabled bot gets a channel without
   session: it has the client's id, and both keys.
   */
  lemma MadeChannelIs<R>(x: Index<R>, bot: Bot, chat: string, contact: Option<Account>, check: Check, spare: R, at: string)
    requires Unknown(x, chat, contact) && (chat != "" || contact.Some?) && ComesBy(chat, contact, check, at)
    requires check.Session? || (check.Client? && bot.enabled)
    ensures var y := GetChannel(x, bot, chat, contact, check, spare);
      var number, kind := if contact.Some? then contact.value.contact else chat,
                          if contact.Some? && contact.value.channel != "" then contact.value.channel else bot.provider;
      var c := y.At(spare);
      && Answer(x, bot, chat, contact, check, spare) == Some(spare)
      && c.chatID == (if OtherNumber(at, number, kind) then number else at)
      && c.account == Account(check.clientID, kind, number)
      && c.channelID == (if check.Session? then check.channelID else "") && c.sessionID == "" && c.closed == 0
      && c.log == Log(if c.channelID == "" then 0 else 1, [], 0, 0)
      && y.chans == x.chans[spare := c] && y.internal == x.internal[check.clientID := spare]
      && (forall k :: k in y.external <==> k == c.chatID || (k in x.external && k != at))
      && y.external[c.chatID] == spare && forall k :: k in y.external && k != c.chatID ==> y.external[k] == x.external[k]
  {
    var who := Sender(bot, chat, contact);
    assert NewChat(chat, who, check) == at && Found(x, chat, who).None?;
    MadeInFull(x, chat, who, check, spare, at);
  }

  // ----- starting a session

  /** Only channel `r` differs, and only its session does; both its keys lead to it, and all other keys where they did. */
  ghost predicate SessionRuns<R>(x: Index<R>, y: Index<R>, r: R, channelID: string, sessionID: string) {
    var c := x.At(r);
    && y.external == x.external[c.chatID := r] && y.internal == x.internal[c.account.id := r]
    && y.chans == x.chans[r := Chan(c.chatID, c.account, channelID, sessionID, 0, Log(c.log.sessions + 1, c.log.asked, c.log.blanks, 0))]
  }

  /**
   A start that succeeds makes the new session that of the channel; a failed one changes nothing, and neither does an
   edited message, which is no failure.
   */
  lemma StartIs<R>(x: Index<R>, r: R, m: Message, reply: StartReply)
    ensures m.updatedAt != 0 ==> Start(x, r, m, reply) == x && StartError(m, reply) == None
    ensures m.updatedAt == 0 && reply.Started? ==>
      SessionRuns(x, Start(x, r, m, reply), r, reply.channelID, reply.sessionID) && StartError(m, reply) == None
    ensures m.updatedAt == 0 && reply.NotStarted? ==>
      Start(x, r, m, reply) == x && StartError(m, reply) == Some(StartFailure(reply.filePolicy))
  {
  }

  /** A start is tried once more, with a text, when a file was refused by policy; else its outcome is that of the first try. */
  lemma ExplainedStartIs<R>(x: Index<R>, r: R, m: Message, reply: StartReply, text: Option<string>, again: StartReply)
    ensures var y, e := StartOrExplain(x, r, m, reply, text, again), StartOrExplainError(m, reply, text, again);
      && (m.updatedAt != 0 ==> y == x && e == None)
      && (m.updatedAt == 0 && reply.Started? ==> SessionRuns(x, y, r, reply.channelID, reply.sessionID) && e == None)
      && (m.updatedAt == 0 && reply.NotStarted? ==>
          if !reply.filePolicy || !m.hasFile then y == x && e == Some(StartFailure(reply.filePolicy))
          else if text.None? then y == x && e == Some(TemplateFailure)
          else if again.NotStarted? then y == x && e == Some(StartFailure(again.filePolicy))
          else SessionRuns(x, y, r, again.channelID, again.sessionID) && e == None)
  {
  }

  // ----- closing

  /** The channel's chat id leads to it. */
  predicate InUse<R(==)>(x: Index<R>, r: R) {
    x.At(r).chatID in x.external && x.external[x.At(r).chatID] == r
  }

  /** Exactly these two keys are gone, and all others lead where they did. */
  ghost predicate KeysGo<R>(x: Index<R>, y: Index<R>, chat: string, id: int) {
    && (forall k :: k in y.external <==> k in x.external && k != chat)
    && (forall u :: u in y.internal <==> u in x.internal && u != id)
    && (forall k :: k in y.external ==> y.external[k] == x.external[k])
    && (forall u :: u in y.internal ==> y.internal[u] == x.internal[u])
  }

  predicate KeysStay<R(==)>(x: Index<R>, y: Index<R>) {
    y.external == x.external && y.internal == x.internal
  }

  /**
   Both keys go when the close request is refused, and when a close was asked for or announced before; after an
   accepted first request both stay.
   */
  lemma CloseTakesKeys<R>(x: Index<R>, r: R, now: int, accepted: bool)
    requires InUse(x, r)
    ensures !accepted || x.At(r).closed != 0 ==>
      KeysGo(x, Close(x, r, now, accepted), x.At(r).chatID, x.At(r).account.id)
    ensures accepted && x.At(r).closed == 0 ==> KeysStay(x, Close(x, r, now, accepted))
  {
  }

  /** In indexes that agree nothing leads to the channel any more. */
  lemma ClosedIsNowhere<R>(x: Index<R>, r: R, now: int, accepted: bool)
    requires x.Agree() && InUse(x, r) && (!accepted || x.At(r).closed != 0)
    ensures var y := Close(x, r, now, accepted); r !in y.external.Values && r !in y.internal.Values
  {
    CloseTakesKeys(x, r, now, accepted);
    var y := Close(x, r, now, accepted);
    assert forall k :: k in y.external ==> k in x.external && x.external[k] != r;
    assert forall u :: u in y.internal ==> u in x.internal && x.internal[u] != r;
  }

  /**
   One request is sent, for the running session if there is one, exactly when none was asked for or announced; a
   channel not in use sends none, and nothing changes.
   */
  lemma CloseAsksOnce<R>(x: Index<R>, r: R, now: int, accepted: bool)
    ensures var y, c := Close(x, r, now, accepted), x.At(r);
      if InUse(x, r) && c.closed == 0 then
        && y.chans == x.chans[r := Chan(c.chatID, c.account, c.channelID, c.sessionID, now, y.At(r).log)]
        && y.At(r).log.sessions == c.log.sessions && y.At(r).log.since == c.log.since + 1
        && (c.channelID != "" ==> y.At(r).log.asked == c.log.asked + [c.log.sessions] && y.At(r).log.blanks == c.log.blanks)
        && (c.channelID == "" ==> y.At(r).log.asked == c.log.asked && y.At(r).log.blanks == c.log.blanks + 1)
      else y.chans == x.chans && (!InUse(x, r) ==> y == x)
    ensures CloseError(x, r, accepted) == if InUse(x, r) && x.At(r).closed == 0 && !accepted then Some(CloseFailure) else None
  {
  }

  /** A close that is announced takes both keys at once, and sends no request. */
  lemma AnnouncedIs<R>(x: Index<R>, r: R, now: int)
    requires now != 0
    ensures var y, c := Announced(x, r, now), x.At(r);
      && (if InUse(x, r) then KeysGo(x, y, c.chatID, c.account.id) else KeysStay(x, y))
      && y.At(r) == Chan(c.chatID, c.account, c.channelID, c.sessionID, if c.closed == 0 then now else c.closed, c.log)
      && forall q :: q != r ==> y.At(q) == x.At(q)
  {
  }

  // ----- a session that was lost

  /** Without a restart the channel has no session, and its keys go if the start failed; an edited message fails no start. */
  lemma RecoverIs<R>(x: Index<R>, r: R, m: Message, reply: StartReply, text: Option<string>, again: StartReply)
    requires m.updatedAt != 0 || (reply.NotStarted? && (!reply.filePolicy || !m.hasFile || text.None? || again.NotStarted?))
    ensures var y, c := Recover(x, r, m, reply, text, again), x.At(r);
      && y.chans == x.chans[r := Chan(c.chatID, c.account, "", "", 0, c.log)]
      && (m.updatedAt == 0 && InUse(x, r) ==> KeysGo(x, y, c.chatID, c.account.id))
      && (m.updatedAt != 0 || !InUse(x, r) ==> KeysStay(x, y))
  {
    ExplainedStartIs(Put(x, r, x.At(r).Lost()), r, m, reply, text, again);
  }

  /** A restart gives the channel the new session. */
  lemma RestartIs<R>(x: Index<R>, r: R, m: Message, reply: StartReply, text: Option<string>, again: StartReply)
    requires m.updatedAt == 0 && (reply.Started? || (reply.filePolicy && m.hasFile && text.Some? && again.Started?))
    ensures var s := if reply.Started? then reply else again;
      SessionRuns(x, Recover(x, r, m, reply, text, again), r, s.channelID, s.sessionID)
  {
    ExplainedStartIs(Put(x, r, x.At(r).Lost()), r, m, reply, text, again);
  }

  // ----- messages

  /** A user's message to a channel without a session starts one, unless it is the command "/close", which does nothing then. */
  lemma RecvOnNew<R>(x: Index<R>, r: R, m: Message, sent: SendReply, reply: StartReply, text: Option<string>, again: StartReply,
                     now: int, accepted: bool)
    requires x.At(r).channelID == ""
    ensures var y, e := Recv(x, r, m, sent, reply, text, again, now, accepted), RecvError(x, r, m, sent, reply, text, again, accepted);
      if m.text == "/close" && m.typ == "text" then y == x && e == None
      else y == StartOrExplain(x, r, m, reply, text, again) && e == StartOrExplainError(m, reply, text, again)
  {
  }

  /**
   In a session the command "/close" closes; any other message is sent, and unless the session was lost nothing
   changes, whether it is delivered or not.
   */
  lemma RecvInSession<R>(x: Index<R>, r: R, m: Message, sent: SendReply, reply: StartReply, text: Option<string>, again: StartReply,
                         now: int, accepted: bool)
    requires x.At(r).channelID != ""
    ensures var y, e := Recv(x, r, m, sent, reply, text, again, now, accepted), RecvError(x, r, m, sent, reply, text, again, accepted);
      if m.text == "/close" && m.typ == "text" then
        y == Close(x, r, now, accepted) && (e == Some(CloseFailure) <==> InUse(x, r) && x.At(r).closed == 0 && !accepted)
        && e in {None, Some(CloseFailure)}
      else
        && (sent == Delivered ==> y == x && e == None)
        && (sent == NotDelivered(true) ==> y == x && e == Some(if m.hasFile then FileRefused else SendFailure(true)))
        && (sent == NotDelivered(false) ==> y == x && e == Some(SendFailure(false)))
        && (sent == ClosedThere ==>
            y == Recover(x, r, m, reply, text, again) && e == StartOrExplainError(m, reply, text, again))
  {
  }

  /**
   A message of the chat service closes the channel it is for exactly when it is of type "closed", with a text and no
   file, and a session runs; else it is a lookup.
   */
  lemma SentIs<R>(x: Index<R>, bot: Bot, chat: string, m: Message, check: Check, spare: R, now: int)
    ensures var r, got, y := Answer(x, bot, chat, None, check, spare), GetChannel(x, bot, chat, None, check, spare),
                             Send(x, bot, chat, m, check, spare, now);
      if r.Some? && m.typ == "closed" && m.text != "" && !m.hasFile && got.At(r.value).channelID != ""
      then y == Announced(got, r.value, now)
      else y == got
  {
  }
}
