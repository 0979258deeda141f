/** Whole runs of one bot's channels: any operations, in any order, on any channels met so far. */
module ChatRuns {
  import opened Wrappers
  import opened Sequences
  import opened Chats

  /** One operation, and the reference of the channel it is called on, or of the one it may make. */
  datatype Step<R> =
    | Find(bot: Bot, chat: string, contact: Option<Account>, check: Check, spare: R)
    | Announce(bot: Bot, chat: string, m: Message, check: Check, spare: R, now: int)
    | Begin(r: R, m: Message, reply: StartReply)
    | Receive(r: R, m: Message, sent: SendReply, reply: StartReply, text: Option<string>, again: StartReply, now: int, accepted: bool)
    | Leave(r: R, now: int, accepted: bool)

  function After<R(==)>(x: Index<R>, s: Step<R>): Index<R> {
    match s
    case Find(bot, chat, contact, check, spare) => GetChannel(x, bot, chat, contact, check, spare)
    case Announce(bot, chat, m, check, spare, now) => Send(x, bot, chat, m, check, spare, now)
    case Begin(r, m, reply) => Start(x, r, m, reply)
    case Receive(r, m, sent, reply, text, again, now, accepted) => Recv(x, r, m, sent, reply, text, again, now, accepted)
    case Leave(r, now, accepted) => Close(x, r, now, accepted)
  }

  predicate Named(reply: StartReply) {
    reply.Started? ==> reply.channelID != ""
  }

  predicate NamedCheck(check: Check) {
    check.Session? ==> check.channelID != ""
  }

  /** Sessions have ids, clocks have started, operations are called on channels met before, and new ones are new. */
  predicate Legal<R(==)>(x: Index<R>, s: Step<R>) {
    match s
    case Find(bot, chat, contact, check, spare) =>
      NamedCheck(check) && (Makes(x, bot, chat, contact, check) ==> spare !in x.chans)
    case Announce(bot, chat, _, check, spare, now) =>
      NamedCheck(check) && (Makes(x, bot, chat, None, check) ==> spare !in x.chans) && now != 0
    case Begin(r, _, reply) => Named(reply) && r in x.chans
    case Receive(r, _, _, reply, _, again, now, _) => Named(reply) && Named(again) && r in x.chans && now != 0
    case Leave(r, now, _) => r in x.chans && now != 0
  }

  function Run<R(==)>(steps: seq<Step<R>>): Index<R> {
    if steps == [] then Index(map[], map[], map[]) else After(Run(DropLast(steps)), steps[|steps| - 1])
  }

  predicate AllLegal<R(==)>(steps: seq<Step<R>>) {
    steps == [] || (AllLegal(DropLast(steps)) && Legal(Run(DropLast(steps)), steps[|steps| - 1]))
  }

  // ----- when the indexes agree

  /** What a step must find: the keys it links are free or name one channel, the chat id it renames to is free. */
  predicate Guard<R(==)>(x: Index<R>, s: Step<R>) {
    match s
    case Find(bot, chat, contact, check, _) => LookupSafe(x, bot, chat, contact, check)
    case Announce(bot, chat, _, check, _, _) => LookupSafe(x, bot, chat, None, check)
    case Begin(r, m, reply) => m.updatedAt == 0 && reply.Started? ==> KeysFree(x, x.At(r).chatID, x.At(r).account.id)
    case Receive(r, m, sent, reply, text, again, _, _) =>
      Opens(x, r, m, sent, reply, text, again) ==> KeysFree(x, x.At(r).chatID, x.At(r).account.id)
    case Leave(_, _, _) => true
  }

  lemma StepAgrees<R>(x: Index<R>, s: Step<R>)
    requires x.Agree() && Legal(x, s)
    ensures After(x, s).Agree() <==> Guard(x, s)
  {
    match s
    case Find(bot, chat, contact, check, spare) => GetChannelAgrees(x, bot, chat, contact, check, spare);
    case Announce(bot, chat, m, check, spare, now) => SendAgrees(x, bot, chat, m, check, spare, now);
    case Begin(r, m, reply) => StartAgrees(x, r, m, reply);
    case Receive(r, m, sent, reply, text, again, now, accepted) => RecvAgrees(x, r, m, sent, reply, text, again, now, accepted);
    case Leave(r, now, accepted) => CloseAgrees(x, r, now, accepted);
  }

  predicate AllGuarded<R(==)>(steps: seq<Step<R>>) {
    steps == [] || (AllGuarded(DropLast(steps)) && Guard(Run(DropLast(steps)), steps[|steps| - 1]))
  }

  /** The indexes agree after every step. */
  ghost predicate AlwaysAgree<R>(steps: seq<Step<R>>) {
    Run(steps).Agree() && (steps != [] ==> AlwaysAgree(DropLast(steps)))
  }

  /** In every run the indexes agree all along exactly when every step found what it must. */
  lemma {:induction false} AgreeWhenGuarded<R>(steps: seq<Step<R>>)
    requires AllLegal(steps)
    ensures AlwaysAgree(steps) <==> AllGuarded(steps)
  {
    if steps != [] {
      AgreeWhenGuarded(DropLast(steps));
      if AlwaysAgree(DropLast(steps)) {
        StepAgrees(Run(DropLast(steps)), steps[|steps| - 1]);
      }
    }
  }

  // ----- runs in which chats and clients go together, also when numbers change

  ghost predicate Injective(ids: string -> int) {
    forall a, b :: ids(a) == ids(b) ==> a == b
  }

  /** Every indexed channel has the client of its chat. */
  ghost predicate Faithful<R>(x: Index<R>, ids: string -> int) {
    forall k :: k in x.external ==> x.At(x.external[k]).account.id == ids(k)
  }

  /** The clients of all indexed chats, but one, stay the same. */
  ghost predicate SameBut<R>(x: Index<R>, chat: string, was: string -> int, now: string -> int) {
    forall k :: k in x.external && k != chat ==> now(k) == was(k)
  }

  ghost predicate Same<R>(x: Index<R>, was: string -> int, now: string -> int) {
    forall k :: k in x.external ==> now(k) == was(k)
  }

  /**
   The chat service answers with the one client of the chat. A number changes without
   a client id, from the old chat to one that is not used; the client goes along.
   */
  ghost predicate OrderlyLookup<R>(x: Index<R>, bot: Bot, chat: string, contact: Option<Account>, check: Check,
                                   was: string -> int, now: string -> int)
  {
    if chat == "" && contact.None? then Same(x, was, now)
    else
      var who := Sender(bot, chat, contact);
      match Found(x, chat, who)
      case Some(r) =>
        if Moves(chat, who, x.At(r).account.channel)
        then who.id == 0 && who.contact !in x.external && now(who.contact) == was(chat) && SameBut(x, chat, was, now)
        else Same(x, was, now)
      case None =>
        if CanMake(bot, check) then
          var at, end := NewChat(chat, who, check), MadeAt(chat, who, check);
          && check.clientID == was(at) && (end != at ==> end !in x.external)
          && now(end) == check.clientID && SameBut(x, at, was, now)
        else Same(x, was, now)
  }

  /** A session begins on a linked channel, or on one whose keys nobody has. */
  ghost predicate OrderlyStart<R>(x: Index<R>, r: R, was: string -> int, now: string -> int) {
    var c := x.At(r);
    && (Linked(x, r) || (c.chatID !in x.external && c.account.id !in x.internal))
    && now(c.chatID) == c.account.id && Same(x, was, now)
  }

  /** A step that takes the clients from `was` to `now`. */
  ghost predicate Orderly<R>(x: Index<R>, s: Step<R>, was: string -> int, now: string -> int) {
    match s
    case Find(bot, chat, contact, check, _) => OrderlyLookup(x, bot, chat, contact, check, was, now)
    case Announce(bot, chat, _, check, _, _) => OrderlyLookup(x, bot, chat, None, check, was, now)
    case Begin(r, m, reply) => if m.updatedAt == 0 && reply.Started? then OrderlyStart(x, r, was, now) else Same(x, was, now)
    case Receive(r, m, sent, reply, text, again, _, _) =>
      if Opens(x, r, m, sent, reply, text, again) then OrderlyStart(x, r, was, now) else Same(x, was, now)
    case Leave(_, _, _) => Same(x, was, now)
  }

  lemma OrderlyMadeIsSafe<R>(x: Index<R>, chat: string, who: Account, check: Check, spare: R, was: string -> int, now: string -> int)
    requires x.Agree() && Faithful(x, was) && Injective(was) && spare !in x.chans && !check.CheckFailed?
    requires var at, end := NewChat(chat, who, check), MadeAt(chat, who, check);
      && check.clientID == was(at) && (end != at ==> end !in x.external)
      && now(end) == check.clientID && SameBut(x, at, was, now)
    ensures MadeSafe(x, NewChat(chat, who, check), MadeAt(chat, who, check), check.clientID)
    ensures Faithful(Made(x, chat, who, check, spare), now)
  {
    if check.clientID in x.internal {
      var e := x.internal[check.clientID];
      assert x.external[x.At(e).chatID] == e && was(x.At(e).chatID) == was(NewChat(chat, who, check));
    }
    var c := MadeIs(x, chat, who, check, spare);
  }

  lemma OrderlyLookupIsSafe<R>(x: Index<R>, bot: Bot, chat: string, contact: Option<Account>, check: Check, spare: R,
                               was: string -> int, now: string -> int)
    requires x.Agree() && Faithful(x, was) && Injective(was) && (Makes(x, bot, chat, contact, check) ==> spare !in x.chans)
    requires OrderlyLookup(x, bot, chat, contact, check, was, now)
    ensures LookupSafe(x, bot, chat, contact, check)
    ensures Faithful(GetChannel(x, bot, chat, contact, check, spare), now)
  {
    var who := Sender(bot, chat, contact);
    if (chat != "" || contact.Some?) && Found(x, chat, who).None? && CanMake(bot, check) {
      OrderlyMadeIsSafe(x, chat, who, check, spare, was, now);
    }
  }

  /** Closing or losing a session displaces no channel. */
  lemma CloseIsFaithful<R>(x: Index<R>, r: R, at: int, accepted: bool, ids: string -> int)
    requires Faithful(x, ids) && r in x.chans
    ensures Faithful(Close(x, r, at, accepted), ids)
    ensures Faithful(Announced(x, r, at), ids)
  {
  }

  lemma StartIsFaithful<R>(x: Index<R>, r: R, m: Message, reply: StartReply, was: string -> int, now: string -> int)
    requires Faithful(x, was) && r in x.chans
    requires if m.updatedAt == 0 && reply.Started? then OrderlyStart(x, r, was, now) else Same(x, was, now)
    ensures Faithful(Start(x, r, m, reply), now)
  {
  }

  lemma RecvIsFaithful<R>(x: Index<R>, r: R, m: Message, sent: SendReply, reply: StartReply, text: Option<string>, again: StartReply,
                          at: int, accepted: bool, was: string -> int, now: string -> int)
    requires Faithful(x, was) && r in x.chans
    requires if Opens(x, r, m, sent, reply, text, again) then OrderlyStart(x, r, was, now) else Same(x, was, now)
    ensures Faithful(Recv(x, r, m, sent, reply, text, again, at, accepted), now)
  {
    var first := if reply.Started? then reply else again;
    if x.At(r).IsNew() {
      if !IsCloseCommand(m) && Starts(m, reply, text, again) {
        StartIsFaithful(x, r, m, first, was, now);
      }
    } else if IsCloseCommand(m) {
      CloseIsFaithful(x, r, at, accepted, now);
    } else if sent.ClosedThere? {
      var lost := Put(x, r, x.At(r).Lost());
      StartsOrFails(m, reply, text, again);
      if Starts(m, reply, text, again) {
        StartIsFaithful(lost, r, m, first, was, now);
      }
    }
  }

  lemma OrderlyStep<R>(x: Index<R>, s: Step<R>, was: string -> int, now: string -> int)
    requires x.Agree() && Faithful(x, was) && Injective(was) && Legal(x, s) && Orderly(x, s, was, now)
    ensures Guard(x, s) && Faithful(After(x, s), now)
  {
    match s
    case Find(bot, chat, contact, check, spare) => OrderlyLookupIsSafe(x, bot, chat, contact, check, spare, was, now);
    case Announce(bot, chat, m, check, spare, at) =>
      OrderlyLookupIsSafe(x, bot, chat, None, check, spare, was, now);
      var got, r := GetChannel(x, bot, chat, None, check, spare), Answer(x, bot, chat, None, check, spare);
      if r.Some? && r.value in got.chans {
        CloseIsFaithful(got, r.value, at, true, now);
      }
    case Begin(r, m, reply) => StartIsFaithful(x, r, m, reply, was, now);
    case Receive(r, m, sent, reply, text, again, at, accepted) => RecvIsFaithful(x, r, m, sent, reply, text, again, at, accepted, was, now);
    case Leave(r, at, accepted) => CloseIsFaithful(x, r, at, accepted, now);
  }

  /** Every step is orderly, and takes the clients of the moment to those of the next. */
  ghost predicate AllOrderly<R>(steps: seq<Step<R>>, ids: nat -> string -> int) {
    && Injective(ids(|steps|))
    && (steps != [] ==>
        && AllOrderly(DropLast(steps), ids)
        && Orderly(Run(DropLast(steps)), steps[|steps| - 1], ids(|steps| - 1), ids(|steps|)))
  }

  /**
   The indexes agree all along when chats and clients go together one to one, numbers
   change to chats that are not used, and no channel is started on keys of another.
   */
  lemma {:induction false} OrderlyRunsAgree<R>(steps: seq<Step<R>>, ids: nat -> string -> int)
    requires AllLegal(steps) && AllOrderly(steps, ids)
    ensures AlwaysAgree(steps) && Faithful(Run(steps), ids(|steps|))
  {
    if steps != [] {
      var x, s, n := Run(DropLast(steps)), steps[|steps| - 1], |steps| - 1;
      OrderlyRunsAgree(DropLast(steps), ids);
      OrderlyStep(x, s, ids(n), ids(n + 1));
      StepAgrees(x, s);
    }
  }

  // ----- close requests

  /** Each request names a session from 1 to `n`, and a later one than the request before. */
  predicate Rising(asked: seq<nat>, n: int) {
    asked == [] || (0 < asked[|asked| - 1] <= n && Rising(asked[..|asked| - 1], asked[|asked| - 1] - 1))
  }

  lemma {:induction false} RisingIsOnce(asked: seq<nat>, n: int)
    requires Rising(asked, n)
    ensures asked == [] || |asked| <= n
    ensures forall i, j :: 0 <= i < j < |asked| ==> asked[i] < asked[j]
    ensures forall i :: 0 <= i < |asked| ==> 0 < asked[i] <= n
  {
    if asked != [] {
      RisingIsOnce(asked[..|asked| - 1], asked[|asked| - 1] - 1);
    }
  }

  /** No session was asked to be closed twice, and the running one not yet. */
  predicate Sound(c: Chan) {
    && (c.channelID != "" ==> c.log.sessions > 0)
    && Rising(c.log.asked, if c.Open() then c.log.sessions - 1 else c.log.sessions)
    && (c.Open() ==> c.log.since == 0) && (c.channelID != "" ==> c.log.since <= 1)
  }

  ghost predicate AllSound<R>(x: Index<R>) {
    forall r :: r in x.chans ==> Sound(x.chans[r])
  }

  lemma RisesTo(asked: seq<nat>, n: int, m: int)
    requires Rising(asked, n) && n <= m
    ensures Rising(asked, m)
  {
  }

  /** The step asks the chat service to close the channel. */
  predicate AsksFor<R(==)>(x: Index<R>, s: Step<R>, q: R) {
    Asks(x, q) && match s
      case Leave(r, _, _) => r == q
      case Receive(r, m, _, _, _, _, _, _) => r == q && IsCloseCommand(m) && !x.At(r).IsNew()
      case _ => false
  }

  /** How a step may change a channel: it is asked to close, a session begins, a session is lost, or none of these. */
  predicate Lives(c: Chan, now: Chan, asks: bool) {
    if asks then now.log == c.Asked(1).log && now.channelID == c.channelID && now.closed != 0
    else
      || (now.log == c.log && now.channelID == c.channelID && (now.closed == c.closed || now.closed != 0))
      || (now.log == c.log && now.channelID == "" && now.closed == 0)
      || (now.log == Log(c.log.sessions + 1, c.log.asked, c.log.blanks, 0) && now.channelID != "" && now.closed == 0)
  }

  predicate IsMade(c: Chan) {
    c.log == Log(if c.channelID == "" then 0 else 1, [], 0, 0)
  }

  lemma FindKnown<R>(x: Index<R>, bot: Bot, chat: string, contact: Option<Account>, check: Check, spare: R)
    requires Known(x)
    ensures Known(GetChannel(x, bot, chat, contact, check, spare))
    ensures var r := Answer(x, bot, chat, contact, check, spare);
      r.Some? ==> r.value in GetChannel(x, bot, chat, contact, check, spare).chans
  {
    var who := Sender(bot, chat, contact);
    if (chat != "" || contact.Some?) && Found(x, chat, who).None? && CanMake(bot, check) {
      var c := MadeIs(x, chat, who, check, spare);
    }
  }

  lemma FindLives<R>(x: Index<R>, bot: Bot, chat: string, contact: Option<Account>, check: Check, spare: R, q: R)
    requires (Makes(x, bot, chat, contact, check) ==> spare !in x.chans) && q in GetChannel(x, bot, chat, contact, check, spare).chans
    requires Known(x)
    ensures var c := GetChannel(x, bot, chat, contact, check, spare).chans[q];
      if q in x.chans then c.log == x.chans[q].log && c.channelID == x.chans[q].channelID && c.closed == x.chans[q].closed
      else q == spare && IsMade(c) && c.closed == 0 && Answer(x, bot, chat, contact, check, spare) == Some(spare)
  {
    var who := Sender(bot, chat, contact);
    if (chat != "" || contact.Some?) && Found(x, chat, who).None? && CanMake(bot, check) {
      var c := MadeIs(x, chat, who, check, spare);
    }
  }

  lemma CloseLives<R>(x: Index<R>, r: R, now: int, accepted: bool)
    requires r in x.chans && now != 0
    ensures Close(x, r, now, accepted).chans.Keys == x.chans.Keys
    ensures forall q :: q in x.chans ==> Lives(x.chans[q], Close(x, r, now, accepted).chans[q], q == r && Asks(x, r))
  {
  }

  lemma AnnouncedLives<R>(x: Index<R>, r: R, now: int)
    requires r in x.chans && now != 0
    ensures Announced(x, r, now).chans.Keys == x.chans.Keys
    ensures forall q :: q in x.chans ==> Lives(x.chans[q], Announced(x, r, now).chans[q], false)
  {
  }

  lemma RecoverLives<R>(x: Index<R>, r: R, m: Message, reply: StartReply, text: Option<string>, again: StartReply)
    requires r in x.chans && Named(reply) && Named(again)
    ensures Recover(x, r, m, reply, text, again).chans.Keys == x.chans.Keys
    ensures forall q :: q in x.chans ==> Lives(x.chans[q], Recover(x, r, m, reply, text, again).chans[q], false)
  {
    StartsOrFails(m, reply, text, again);
  }

  lemma RecvLives<R>(x: Index<R>, r: R, m: Message, sent: SendReply, reply: StartReply, text: Option<string>, again: StartReply,
                     now: int, accepted: bool)
    requires r in x.chans && now != 0 && Named(reply) && Named(again)
    ensures var y := Recv(x, r, m, sent, reply, text, again, now, accepted);
      && y.chans.Keys == x.chans.Keys
      && forall q :: q in x.chans ==>
           Lives(x.chans[q], y.chans[q], q == r && Asks(x, r) && IsCloseCommand(m) && !x.At(r).IsNew())
  {
    if !x.At(r).IsNew() && IsCloseCommand(m) {
      CloseLives(x, r, now, accepted);
    } else if !x.At(r).IsNew() && sent.ClosedThere? {
      RecoverLives(x, r, m, reply, text, again);
    }
  }

  lemma CloseKnown<R>(x: Index<R>, r: R, now: int, accepted: bool)
    requires Known(x) && r in x.chans
    ensures Known(Close(x, r, now, accepted)) && Known(Announced(x, r, now))
  {
  }

  lemma RecvKnown<R>(x: Index<R>, r: R, m: Message, sent: SendReply, reply: StartReply, text: Option<string>, again: StartReply,
                     now: int, accepted: bool)
    requires Known(x) && r in x.chans
    ensures Known(Recv(x, r, m, sent, reply, text, again, now, accepted))
  {
    if !x.At(r).IsNew() && IsCloseCommand(m) {
      CloseKnown(x, r, now, accepted);
    } else {
      StartsOrFails(m, reply, text, again);
    }
  }

  lemma StepKnown<R>(x: Index<R>, s: Step<R>)
    requires Known(x) && Legal(x, s)
    ensures Known(After(x, s))
  {
    match s
    case Find(bot, chat, contact, check, spare) =>
      FindKnown(x, bot, chat, contact, check, spare);
    case Announce(bot, chat, m, check, spare, now) =>
      FindKnown(x, bot, chat, None, check, spare);
      var got, r := GetChannel(x, bot, chat, None, check, spare), Answer(x, bot, chat, None, check, spare);
      if r.Some? {
        CloseKnown(got, r.value, now, true);
      }
    case Begin(r, m, reply) =>
    case Receive(r, m, sent, reply, text, again, now, accepted) =>
      RecvKnown(x, r, m, sent, reply, text, again, now, accepted);
    case Leave(r, now, accepted) =>
      CloseKnown(x, r, now, accepted);
  }

  lemma AnnounceLives<R>(x: Index<R>, bot: Bot, chat: string, m: Message, check: Check, spare: R, now: int, q: R)
    requires Known(x) && (Makes(x, bot, chat, None, check) ==> spare !in x.chans) && now != 0
    requires q in Send(x, bot, chat, m, check, spare, now).chans
    ensures var c := Send(x, bot, chat, m, check, spare, now).chans[q];
      if q in x.chans then Lives(x.chans[q], c, false) else IsMade(c)
  {
    var got, r := GetChannel(x, bot, chat, None, check, spare), Answer(x, bot, chat, None, check, spare);
    FindKnown(x, bot, chat, None, check, spare);
    ToldLives(got, r, m, now, q);
    FindLives(x, bot, chat, None, check, spare, q);
  }

  /** The message changes no channel but that its close is announced. */
  lemma ToldLives<R>(got: Index<R>, r: Option<R>, m: Message, now: int, q: R)
    requires (r.Some? ==> r.value in got.chans) && now != 0
    ensures var y := if r.Some? && SaysClosed(m) && !got.At(r.value).IsNew() then Announced(got, r.value, now) else got;
      && y.chans.Keys == got.chans.Keys
      && (q in got.chans ==>
          && y.chans[q].log == got.chans[q].log && y.chans[q].channelID == got.chans[q].channelID
          && (y.chans[q].closed == got.chans[q].closed || y.chans[q].closed != 0))
  {
  }

  /** A step asks only for what `AsksFor` says, and changes each channel in one of the ways of `Lives`. */
  lemma StepLives<R>(x: Index<R>, s: Step<R>, q: R)
    requires Known(x) && Legal(x, s) && q in After(x, s).chans
    ensures if q in x.chans then Lives(x.chans[q], After(x, s).chans[q], AsksFor(x, s, q)) else IsMade(After(x, s).chans[q])
  {
    match s
    case Find(bot, chat, contact, check, spare) =>
      FindLives(x, bot, chat, contact, check, spare, q);
    case Announce(bot, chat, m, check, spare, now) =>
      AnnounceLives(x, bot, chat, m, check, spare, now, q);
    case Begin(r, m, reply) =>
    case Receive(r, m, sent, reply, text, again, now, accepted) =>
      RecvLives(x, r, m, sent, reply, text, again, now, accepted);
    case Leave(r, now, accepted) =>
      CloseLives(x, r, now, accepted);
  }

  lemma SoundLives(c: Chan, now: Chan, asks: bool)
    requires Sound(c) && Lives(c, now, asks) && (asks ==> c.closed == 0)
    ensures Sound(now)
  {
    RisesTo(c.log.asked, if c.Open() then c.log.sessions - 1 else c.log.sessions, c.log.sessions);
    if asks && c.channelID != "" {
      assert now.log.asked[..|now.log.asked| - 1] == c.log.asked;
    }
  }

  /**
   In every run each close request that names a session names one of the channel's, no
   session is named twice, and none while it is open: sessions are asked to close at most once.
   */
  lemma {:induction false} RunIsSound<R>(steps: seq<Step<R>>)
    requires AllLegal(steps)
    ensures Known(Run(steps)) && AllSound(Run(steps))
  {
    if steps != [] {
      var x, s := Run(DropLast(steps)), steps[|steps| - 1];
      RunIsSound(DropLast(steps));
      StepKnown(x, s);
      forall q | q in After(x, s).chans ensures Sound(After(x, s).chans[q]) {
        StepLives(x, s, q);
        if q in x.chans {
          SoundLives(x.chans[q], After(x, s).chans[q], AsksFor(x, s, q));
        }
      }
    }
  }

  lemma SoundIsOnce(c: Chan)
    requires Sound(c)
    ensures |c.log.asked| + (if c.Open() then 1 else 0) <= c.log.sessions
    ensures forall i, j :: 0 <= i < j < |c.log.asked| ==> c.log.asked[i] < c.log.asked[j]
    ensures forall i :: 0 <= i < |c.log.asked| ==> 0 < c.log.asked[i] <= c.log.sessions
  {
    RisingIsOnce(c.log.asked, if c.Open() then c.log.sessions - 1 else c.log.sessions);
  }

  // ----- requests that name no session

  /** A linked channel without a running session is closed: the request names none. */
  predicate IsBlank<R(==)>(x: Index<R>, s: Step<R>) {
    s.Leave? && Asks(x, s.r) && x.At(s.r).IsNew()
  }

  predicate NoBlank<R(==)>(steps: seq<Step<R>>) {
    steps == [] || (NoBlank(DropLast(steps)) && !IsBlank(Run(DropLast(steps)), steps[|steps| - 1]))
  }

  ghost predicate AllNamed<R>(x: Index<R>) {
    forall q :: q in x.chans ==> x.chans[q].log.blanks == 0
  }

  lemma StepNamed<R>(x: Index<R>, s: Step<R>)
    requires Known(x) && Legal(x, s)
    ensures AllNamed(After(x, s)) <==> AllNamed(x) && !IsBlank(x, s)
  {
    forall q | q in After(x, s).chans
      ensures if q in x.chans
        then After(x, s).chans[q].log.blanks == x.chans[q].log.blanks + if IsBlank(x, s) && s.r == q then 1 else 0
        else After(x, s).chans[q].log.blanks == 0
    {
      StepLives(x, s, q);
    }
    StepMeets(x, s);
    assert forall q :: q in x.chans && q in After(x, s).chans ==> After(x, s).chans[q].log.blanks >= x.chans[q].log.blanks;
  }

  lemma StepMeets<R>(x: Index<R>, s: Step<R>)
    requires Known(x) && Legal(x, s)
    ensures forall q :: q in x.chans ==> q in After(x, s).chans
  {
  }

  /**
   After a run every request has named a session exactly when no linked channel was
   closed without one running; then there were no more requests than sessions.
   */
  lemma {:induction false} RequestsAreNamed<R>(steps: seq<Step<R>>)
    requires AllLegal(steps)
    ensures AllNamed(Run(steps)) <==> NoBlank(steps)
    ensures NoBlank(steps) ==> forall q :: q in Run(steps).chans ==>
      var log := Run(steps).chans[q].log; |log.asked| + log.blanks <= log.sessions
  {
    RunIsSound(steps);
    if steps != [] {
      RequestsAreNamed(DropLast(steps));
      RunIsSound(DropLast(steps));
      StepNamed(Run(DropLast(steps)), steps[|steps| - 1]);
    }
    forall q | q in Run(steps).chans ensures |Run(steps).chans[q].log.asked| <= Run(steps).chans[q].log.sessions {
      SoundIsOnce(Run(steps).chans[q]);
    }
  }

  // ----- requests per session

  /** One request since the last session began, none before the first. */
  predicate Spared(c: Chan) {
    c.log.since <= if c.log.sessions == 0 then 0 else 1
  }

  ghost predicate AllSpared<R>(x: Index<R>) {
    forall q :: q in x.chans ==> Spared(x.chans[q])
  }

  /** A linked channel without a running session is closed when it never had one, or when the last was asked to close. */
  predicate IsExtra<R(==)>(x: Index<R>, s: Step<R>) {
    IsBlank(x, s) && (x.At(s.r).log.sessions == 0 || x.At(s.r).log.since > 0)
  }

  predicate NoExtra<R(==)>(steps: seq<Step<R>>) {
    steps == [] || (NoExtra(DropLast(steps)) && !IsExtra(Run(DropLast(steps)), steps[|steps| - 1]))
  }

  ghost predicate AlwaysSpared<R>(steps: seq<Step<R>>) {
    AllSpared(Run(steps)) && (steps != [] ==> AlwaysSpared(DropLast(steps)))
  }

  /** The requests before the last session began are no more than the sessions before it. */
  predicate Paid(c: Chan) {
    |c.log.asked| + c.log.blanks <= c.log.since + if c.log.sessions == 0 then 0 else c.log.sessions - 1
  }

  ghost predicate AllPaid<R>(x: Index<R>) {
    forall q :: q in x.chans ==> Paid(x.chans[q])
  }

  lemma StepSpared<R>(x: Index<R>, s: Step<R>)
    requires Known(x) && AllSound(x) && Legal(x, s) && AllSpared(x) && AllPaid(x)
    ensures AllSpared(After(x, s)) <==> !IsExtra(x, s)
    ensures AllPaid(After(x, s))
  {
    forall q | q in After(x, s).chans
      ensures Spared(After(x, s).chans[q]) <==> !(IsExtra(x, s) && s.r == q)
      ensures Paid(After(x, s).chans[q])
    {
      StepLives(x, s, q);
    }
    StepMeets(x, s);
  }

  /** In every run there is at most one request since a session began, and none before the first, exactly when no close was extra. */
  lemma {:induction false} OneRequestPerSession<R>(steps: seq<Step<R>>)
    requires AllLegal(steps)
    ensures AlwaysSpared(steps) <==> NoExtra(steps)
    ensures NoExtra(steps) ==> AllPaid(Run(steps)) && forall q :: q in Run(steps).chans ==>
      var log := Run(steps).chans[q].log; |log.asked| + log.blanks <= log.sessions
  {
    if steps != [] {
      OneRequestPerSession(DropLast(steps));
      RunIsSound(DropLast(steps));
      if AlwaysSpared(DropLast(steps)) {
        StepSpared(Run(DropLast(steps)), steps[|steps| - 1]);
      }
    }
  }

  // ----- three runs

  lemma RunOn<R>(steps: seq<Step<R>>, s: Step<R>)
    ensures Run(steps + [s]) == After(Run(steps), s)
    ensures AllLegal(steps + [s]) <==> AllLegal(steps) && Legal(Run(steps), s)
  {
    assert DropLast(steps + [s]) == steps;
  }

  const PHONE: Bot := Bot(WHATSAPP, true)
  const MAKE: Step<nat> := Find(PHONE, "1", None, Client(7), 0)
  const HELLO: Message := Message("text", "hello", false, 0)

  /** A new channel is closed: a request for no session, and none was ever held. */
  lemma NewChannelIsAsked()
    ensures var run := [MAKE, Leave(0, 1, true)];
      AllLegal(run) && 0 in Run(run).chans && Run(run).chans[0].log == Log(0, [], 1, 1)
  {
    RunOn([], MAKE);
    RunOn([MAKE], Leave(0, 1, true));
    assert [] + [MAKE] == [MAKE];
    assert [MAKE] + [Leave(0, 1, true)] == [MAKE, Leave(0, 1, true)];
  }

  const RECOVER: Step<nat> := Find(PHONE, "1", None, Session("c", 7, None), 0)
  const EDIT: Step<nat> := Receive(0, Message("text", "hello", false, 5), ClosedThere, NotStarted(false), None, NotStarted(false), 2, true)

  const HELD: Chan := NewChan("1", Account(7, WHATSAPP, "1"), "c")

  /** A session is recovered, and asked to close. */
  lemma RecoveredAndAsked()
    ensures var run := [RECOVER, Leave(0, 1, true)];
      AllLegal(run) && Run(run) == Index(map["1" := 0], map[7 := 0], map[0 := HELD.Asked(1)])
  {
    RunOn([], RECOVER);
    assert [] + [RECOVER] == [RECOVER];
    assert Run([RECOVER]) == Index(map["1" := 0], map[7 := 0], map[0 := HELD]);
    RunOn([RECOVER], Leave(0, 1, true));
    assert [RECOVER] + [Leave(0, 1, true)] == [RECOVER, Leave(0, 1, true)];
  }

  /** A session is asked to close, is lost while a message is edited, and the channel is closed again: two requests for one session. */
  lemma LostSessionIsAskedAgain()
    ensures var run := [RECOVER, Leave(0, 1, true), EDIT, Leave(0, 3, true)];
      AllLegal(run) && 0 in Run(run).chans && Run(run).chans[0].log == Log(1, [1], 1, 2)
  {
    var b, c := [RECOVER, Leave(0, 1, true)], [RECOVER, Leave(0, 1, true), EDIT];
    RecoveredAndAsked();
    RunOn(b, EDIT);
    assert b + [EDIT] == c;
    assert Run(c) == Index(map["1" := 0], map[7 := 0], map[0 := HELD.Asked(1).Lost()]);
    RunOn(c, Leave(0, 3, true));
    assert c + [Leave(0, 3, true)] == [RECOVER, Leave(0, 1, true), EDIT, Leave(0, 3, true)];
  }

  const AGAIN: Step<nat> := Find(PHONE, "1", None, Client(7), 1)
  const MOVE: Step<nat> := Find(PHONE, "1", Some(Account(0, WHATSAPP, "2")), CheckFailed, 2)
  const RESTART: Step<nat> := Receive(0, HELLO, ClosedThere, Started("d", "e"), None, NotStarted(false), 3, true)

  /** A number changes in an orderly run: the client goes from the old chat to the new one. */
  lemma NumberChangeIsOrderly(ids: nat -> string -> int)
    requires Injective(ids(0)) && Injective(ids(1)) && Injective(ids(2))
    requires ids(0)("1") == ids(1)("1") == ids(2)("2") == 7
    ensures AllLegal([MAKE, MOVE]) && AllOrderly([MAKE, MOVE], ids)
    ensures Run([MAKE, MOVE]).external == map["2" := 0] && Run([MAKE, MOVE]).internal == map[7 := 0]
  {
    RunOn([], MAKE);
    assert [] + [MAKE] == [MAKE] && DropLast([MAKE]) == [];
    assert Run([MAKE]) == Index(map["1" := 0], map[7 := 0], map[0 := NEXT]);
    RunOn([MAKE], MOVE);
    assert [MAKE] + [MOVE] == [MAKE, MOVE] && DropLast([MAKE, MOVE]) == [MAKE];
    assert Orderly(Run([]), MAKE, ids(0), ids(1)) && AllOrderly([MAKE], ids);
    assert Orderly(Run([MAKE]), MOVE, ids(1), ids(2));
  }

  const LEFT: Index<nat> := Index(map[], map[], map[0 := HELD.Asked(1)])
  const NEXT: Chan := NewChan("1", Account(7, WHATSAPP, "1"), "")
  const RENAMED: Index<nat> :=
    Index(map["2" := 1], map[7 := 1], map[0 := HELD.Asked(1), 1 := NEXT.(chatID := "2", account := Account(7, WHATSAPP, "2"))])

  /** The chat gets another channel, and then another number. */
  lemma NumberChanges()
    ensures After(After(LEFT, AGAIN), MOVE) == RENAMED
    ensures Legal(LEFT, AGAIN) && Legal(After(LEFT, AGAIN), MOVE) && Legal(RENAMED, RESTART)
  {
    assert After(LEFT, AGAIN) == Index(map["1" := 1], map[7 := 1], map[0 := HELD.Asked(1), 1 := NEXT]);
  }

  lemma RestartTakesKey()
    ensures RENAMED.Agree() && !After(RENAMED, RESTART).Agree()
  {
    var x := After(RENAMED, RESTART);
    assert "2" in x.external && x.internal[x.At(x.external["2"]).account.id] == 0;
  }

  const CLOSED: seq<Step<nat>> := [RECOVER, Leave(0, 1, true), Leave(0, 2, true)]

  lemma ClosedIsLeft()
    ensures AllLegal(CLOSED) && Run(CLOSED) == LEFT
  {
    RecoveredAndAsked();
    RunOn([RECOVER, Leave(0, 1, true)], Leave(0, 2, true));
    assert [RECOVER, Leave(0, 1, true)] + [Leave(0, 2, true)] == CLOSED;
  }

  /**
   A channel is recovered and closed, its chat gets another channel, and then another
   number. When the first channel, lost by the chat service, is started again by a
   message, it takes the client's key from the second: the indexes disagree.
   */
  lemma RestartAfterNumberChange()
    ensures AllLegal(CLOSED + [AGAIN, MOVE, RESTART])
    ensures Run(CLOSED + [AGAIN, MOVE]).Agree() && !Run(CLOSED + [AGAIN, MOVE, RESTART]).Agree()
  {
    ClosedIsLeft();
    NumberChanges();
    RestartTakesKey();
    RunOn(CLOSED, AGAIN);
    RunOn(CLOSED + [AGAIN], MOVE);
    RunOn(CLOSED + [AGAIN] + [MOVE], RESTART);
    assert CLOSED + [AGAIN] + [MOVE] == CLOSED + [AGAIN, MOVE];
    assert CLOSED + [AGAIN] + [MOVE] + [RESTART] == CLOSED + [AGAIN, MOVE, RESTART];
  }
}
