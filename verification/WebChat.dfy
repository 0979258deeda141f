/** A web chat room: the history of its messages, and the connections they are sent to. */
module WebChat {
  import opened Wrappers
  import NormalizedLists

  datatype Message = Message(id: int, text: string)

  /** A write to a connection, and whether it succeeded. */
  datatype Attempt = Attempt(conn: int, ok: bool)

  function Try(c: int, failed: set<int>): Attempt {
    Attempt(c, c !in failed)
  }

  // ----- the history

  /** The place of a message in the history; its length when there is none. */
  function Find(msgs: seq<Message>, id: int): (i: nat)
    ensures i <= |msgs| && (i < |msgs| ==> msgs[i].id == id)
    ensures forall j :: 0 <= j < i ==> msgs[j].id != id
  {
    if msgs == [] || msgs[0].id == id then 0
    else
      assert forall j :: 0 < j < |msgs| ==> msgs[j] == msgs[1..][j - 1];
      1 + Find(msgs[1..], id)
  }

  /** A service message, without id, is not kept; an edited one takes its old place. */
  function Pushed(msgs: seq<Message>, m: Message): seq<Message> {
    if m.id == 0 then msgs
    else if Find(msgs, m.id) < |msgs| then msgs[Find(msgs, m.id) := m]
    else msgs + [m]
  }

  function History(pushed: seq<Message>): seq<Message> {
    if pushed == [] then [] else Pushed(History(pushed[..|pushed| - 1]), pushed[|pushed| - 1])
  }

  /** The ids of the messages that are no service messages. */
  function Ids(pushed: seq<Message>): (ids: seq<int>)
    ensures 0 !in ids
  {
    if pushed == [] then []
    else Ids(pushed[..|pushed| - 1]) + (if pushed[|pushed| - 1].id == 0 then [] else [pushed[|pushed| - 1].id])
  }

  /** The last message pushed with an id. */
  function Latest(pushed: seq<Message>, id: int): Message
    requires id in Ids(pushed)
  {
    if pushed[|pushed| - 1].id == id then pushed[|pushed| - 1] else Latest(pushed[..|pushed| - 1], id)
  }

  function IdsOf(msgs: seq<Message>): (ids: seq<int>)
    ensures |ids| == |msgs| && forall k :: 0 <= k < |msgs| ==> ids[k] == msgs[k].id
  {
    if msgs == [] then [] else IdsOf(msgs[..|msgs| - 1]) + [msgs[|msgs| - 1].id]
  }

  lemma FindIn(msgs: seq<Message>, id: int)
    ensures id in IdsOf(msgs) <==> Find(msgs, id) < |msgs|
  {
    if Find(msgs, id) < |msgs| {
      assert IdsOf(msgs)[Find(msgs, id)] == id;
    }
  }

  lemma PushedIds(msgs: seq<Message>, m: Message)
    ensures IdsOf(Pushed(msgs, m)) == if m.id == 0 || m.id in IdsOf(msgs) then IdsOf(msgs) else IdsOf(msgs) + [m.id]
  {
    FindIn(msgs, m.id);
    var i := Find(msgs, m.id);
    if i < |msgs| {
      assert IdsOf(msgs[i := m]) == IdsOf(msgs);
    } else {
      assert (msgs + [m])[..|msgs|] == msgs;
    }
  }

  /** The history holds a message for each id, in the order in which the ids first appeared. */
  lemma {:induction false} HistoryOrder(pushed: seq<Message>)
    ensures IdsOf(History(pushed)) == NormalizedLists.Dedupe(Ids(pushed))
  {
    if pushed != [] {
      var before, m := pushed[..|pushed| - 1], pushed[|pushed| - 1];
      HistoryOrder(before);
      PushedIds(History(before), m);
      if m.id != 0 {
        assert Ids(pushed)[..|Ids(pushed)| - 1] == Ids(before);
      } else {
        assert Ids(pushed) == Ids(before);
      }
    }
  }

  /** No id is found before its place. */
  lemma FindDistinct(msgs: seq<Message>, k: nat)
    requires k < |msgs| && NormalizedLists.Distinct(IdsOf(msgs))
    ensures Find(msgs, msgs[k].id) == k
  {
    var i := Find(msgs, msgs[k].id);
    assert i <= k;
    assert IdsOf(msgs)[i] == IdsOf(msgs)[k];
  }

  /** Each message of the history is the last that was pushed with its id. */
  lemma {:induction false} HistoryLatest(pushed: seq<Message>, k: nat)
    requires k < |History(pushed)|
    ensures History(pushed)[k].id in Ids(pushed) && History(pushed)[k] == Latest(pushed, History(pushed)[k].id)
  {
    var before, m := pushed[..|pushed| - 1], pushed[|pushed| - 1];
    if k < |History(before)| {
      HistoryLatest(before, k);
      HistoryOrder(before);
      NormalizedLists.DedupeKeeps(Ids(before));
      FindDistinct(History(before), k);
    }
  }

  class Room {
    /** The place of each message in the history. */
    var msgi: map<int, nat>
    var msgs: seq<Message>
    /** Open connections, of different tabs. */
    var conn: seq<int>
    var closed: bool
    /** Writes attempted so far, and whether they succeeded. */
    ghost var log: seq<Attempt>

    constructor ()
      ensures Indexed() && msgs == [] && conn == [] && log == [] && !closed
    {
      msgi, msgs, conn, log, closed := map[], [], [], [], false;
    }

    /** The index and the history agree. */
    ghost predicate Indexed()
      reads `msgi, `msgs
    {
      && (forall id :: id in msgi ==> msgi[id] < |msgs| && msgs[msgi[id]].id == id)
      && (forall i :: 0 <= i < |msgs| ==> msgs[i].id in msgi && msgi[msgs[i].id] == i)
    }

    method PushMessage(m: Message)
      requires Indexed()
      modifies `msgi, `msgs
      ensures Indexed() && msgs == Pushed(old(msgs), m)
    {
      if m.id == 0 {
        return;
      }
      if m.id in msgi {
        var i := msgi[m.id];
        msgs := msgs[i := m];
        return;
      }
      msgi := msgi[m.id := |msgs|];
      msgs := msgs + [m];
    }

    /** Any messages, pushed one after another. */
    method PushAll(pushed: seq<Message>)
      requires Indexed() && msgs == []
      modifies `msgi, `msgs
      ensures Indexed() && msgs == History(pushed)
    {
      for i := 0 to |pushed|
        invariant Indexed() && msgs == History(pushed[..i])
      {
        assert pushed[..i + 1][..i] == pushed[..i];
        PushMessage(pushed[i]);
      }
      assert pushed[..|pushed|] == pushed;
    }

    // ----- writing to the connections

    /** Writes a frame to one connection, and drops the connection when that fails. */
    method SendFrame(c: int) returns (ok: bool)
      modifies `conn, `log
      ensures conn == if ok then old(conn) else Without(old(conn), c)
      ensures log == old(log) + [Attempt(c, ok)]
    {
      ok := *;
      log := log + [Attempt(c, ok)];
      if !ok {
        var i := 0;
        while i < |conn|
          invariant i <= |conn| && conn == old(conn) && c !in conn[..i]
        {
          if conn[i] == c {
            WithoutAt(conn, i);
            conn := conn[0..i] + conn[i + 1..];
            return;
          }
          i := i + 1;
        }
        WithoutNone(conn, c);
      }
    }

    /**
     Writes to all connections, from the last to the first, once each; those that fail
     are dropped on the way, and the others stay in order.
     */
    method Broadcast() returns (ghost failed: set<int>)
      requires NormalizedLists.Distinct(conn)
      modifies `conn, `log
      ensures conn == Minus(old(conn), failed) && log == old(log) + Tried(old(conn), failed)
      ensures failed <= Members(old(conn))
    {
      var i := |conn| - 1;
      failed := {};
      ghost var all := conn;
      Whole(all);
      while i >= 0
        invariant -1 <= i < |all| && failed <= Members(all[i + 1..])
        invariant conn == all[..i + 1] + Minus(all[i + 1..], failed)
        invariant log == old(log) + Tried(all[i + 1..], failed)
      {
        var ok := SendFrame(conn[i]);
        ghost var now := if ok then failed else failed + {all[i]};
        DropsOne(all, i, failed, ok, now);
        LogsOne(all, i, failed, ok, now);
        failed := now;
        i := i - 1;
      }
      Whole(all);
    }

    /** Writes to all connections but one, from the last to the first, once each. */
    method Tell(c: int) returns (ghost failed: set<int>)
      requires NormalizedLists.Distinct(conn)
      modifies `conn, `log
      ensures conn == Minus(old(conn), failed) && log == old(log) + Tried(Minus(old(conn), {c}), failed)
      ensures c !in failed
    {
      failed := {};
      ghost var others := conn;
      var i := |conn| - 1;
      Whole(others);
      while i >= 0
        invariant -1 <= i < |others| && failed <= Members(others[i + 1..]) && c !in failed
        invariant conn == others[..i + 1] + Minus(others[i + 1..], failed)
        invariant log == old(log) + Tried(Minus(others[i + 1..], {c}), failed)
      {
        failed := TellOne(i, c, others, failed, old(log));
        i := i - 1;
      }
      Whole(others);
    }

    method TellOne(i: nat, c: int, ghost others: seq<int>, ghost failed: set<int>,
          ghost was: seq<Attempt>) returns (ghost now: set<int>)
      requires NormalizedLists.Distinct(others)
      requires i < |others| && failed <= Members(others[i + 1..]) && c !in failed
      requires conn == others[..i + 1] + Minus(others[i + 1..], failed)
      requires log == was + Tried(Minus(others[i + 1..], {c}), failed)
      modifies `conn, `log
      ensures now <= Members(others[i..]) && c !in now
      ensures conn == others[..i] + Minus(others[i..], now)
      ensures log == was + Tried(Minus(others[i..], {c}), now)
    {
      var peer := conn[i];
      if peer == c {
        SkipsOne(others, i, failed);
        return failed;
      }
      var ok := SendFrame(peer);
      now := if ok then failed else failed + {others[i]};
      DropsOne(others, i, failed, ok, now);
      TriesOther(others, i, c, failed, ok, now);
    }

    /**
     Answers one connection, and tells the others unless the answer is an error: each
     is written to once, the asking one first, and those that fail are dropped.
     */
    method Respond(c: int, m: Message, error: bool) returns (ghost failed: set<int>)
      requires Indexed() && NormalizedLists.Distinct(conn)
      modifies `conn, `log, `msgi, `msgs
      ensures Indexed() && msgs == if error then old(msgs) else Pushed(old(msgs), m)
      ensures conn == Minus(old(conn), failed)
      ensures log == old(log) + [Try(c, failed)] + if error then [] else Tried(Minus(old(conn), {c}), failed)
    {
      ghost var all := conn;
      failed := {};
      if error {
        var ok := SendFrame(c);
        MinusOne(all, c);
        failed := if ok then {} else {c};
        return;
      }
      PushMessage(m);
      var answered := SendFrame(c);
      MinusOne(all, c);
      ghost var lost := if answered then {} else {c};
      MinusDistinct(all, lost);
      failed := Tell(c);
      RespondsTo(all, c, lost, failed);
      failed := failed + lost;
    }

    method Ping(i: nat, ghost all: seq<int>, ghost failed: set<int>,
          ghost was: seq<Attempt>) returns (ghost now: set<int>)
      requires NormalizedLists.Distinct(all)
      requires i < |all| && failed <= Members(all[i + 1..])
      requires conn == all[..i + 1] + Minus(all[i + 1..], failed)
      requires log == was + Tried(all[i + 1..], failed)
      modifies `conn, `log
      ensures now <= Members(all[i..])
      ensures conn == all[..i] + Minus(all[i..], now)
      ensures log == was + Tried(all[i..], now)
    {
      var ok := *;
      log := log + [Attempt(conn[i], ok)];
      now := if ok then failed else failed + {all[i]};
      DropsOne(all, i, failed, ok, now);
      LogsOne(all, i, failed, ok, now);
      if !ok {
        conn := conn[0..i] + conn[i + 1..];
      }
    }

    method PingAll() returns (ghost failed: set<int>)
      requires NormalizedLists.Distinct(conn)
      modifies `conn, `log
      ensures conn == Minus(old(conn), failed) && log == old(log) + Tried(old(conn), failed)
      ensures failed <= Members(old(conn))
    {
      var i := |conn| - 1;
      failed := {};
      ghost var all := conn;
      Whole(all);
      while i >= 0
        invariant -1 <= i < |all| && failed <= Members(all[i + 1..])
        invariant conn == all[..i + 1] + Minus(all[i + 1..], failed)
        invariant log == old(log) + Tried(all[i + 1..], failed)
      {
        failed := Ping(i, all, failed, old(log));
        i := i - 1;
      }
      Whole(all);
    }

    /** Pings all connections, from the last to the first; those that fail are dropped, and a room without any is closed. */
    method PingSweep() returns (ghost failed: set<int>)
      requires NormalizedLists.Distinct(conn)
      modifies `conn, `log, `closed
      ensures conn == Minus(old(conn), failed) && log == old(log) + Tried(old(conn), failed)
      ensures failed <= Members(old(conn))
      ensures closed <==> old(closed) || conn == []
    {
      failed := PingAll();
      if |conn| == 0 {
        closed := true;
      }
    }
  }

  function Members(s: seq<int>): set<int> {
    if s == [] then {} else {s[0]} + Members(s[1..])
  }

  lemma {:induction false} MembersAre(s: seq<int>, c: int)
    ensures c in Members(s) <==> c in s
  {
    if s != [] {
      MembersAre(s[1..], c);
    }
  }

  /** A list of connections without the first that is `c`. */
  function Without(s: seq<int>, c: int): seq<int> {
    if s == [] then [] else if s[0] == c then s[1..] else [s[0]] + Without(s[1..], c)
  }

  lemma {:induction false} WithoutAt(s: seq<int>, i: nat)
    requires i < |s| && s[i] !in s[..i]
    ensures Without(s, s[i]) == s[0..i] + s[i + 1..]
  {
    if i > 0 {
      assert s[0] == s[..i][0];
      assert s[1..][..i - 1] == s[..i][1..];
      WithoutAt(s[1..], i - 1);
    }
  }

  lemma {:induction false} WithoutNone(s: seq<int>, c: int)
    requires c !in s
    ensures Without(s, c) == s
  {
    if s != [] {
      WithoutNone(s[1..], c);
    }
  }

  /** A list of connections without the failing ones. */
  function Minus(s: seq<int>, failed: set<int>): seq<int> {
    if s == [] then [] else (if s[0] in failed then [] else [s[0]]) + Minus(s[1..], failed)
  }

  /** One write to each connection, from the last to the first. */
  function Tried(s: seq<int>, failed: set<int>): seq<Attempt> {
    if s == [] then [] else Tried(s[1..], failed) + [Try(s[0], failed)]
  }

  /** Each connection is written to once, in reverse order. */
  lemma {:induction false} TriedInTurn(s: seq<int>, failed: set<int>, k: nat)
    requires k < |s|
    ensures |Tried(s, failed)| == |s| && Tried(s, failed)[k] == Try(s[|s| - 1 - k], failed)
  {
    if |s| > 1 {
      TriedInTurn(s[1..], failed, if k < |s| - 1 then k else 0);
    }
  }

  /** A connection that is not there makes no difference. */
  lemma {:induction false} OtherFails(s: seq<int>, failed: set<int>, c: int)
    requires c !in s
    ensures Minus(s, failed + {c}) == Minus(s, failed) && Tried(s, failed + {c}) == Tried(s, failed)
  {
    if s != [] {
      OtherFails(s[1..], failed, c);
    }
  }

  lemma {:induction false} MinusNone(s: seq<int>)
    ensures Minus(s, {}) == s
  {
    if s != [] {
      MinusNone(s[1..]);
    }
  }

  lemma {:induction false} MinusOne(s: seq<int>, c: int)
    requires NormalizedLists.Distinct(s)
    ensures Minus(s, {c}) == Without(s, c) && Minus(s, {}) == s
  {
    MinusNone(s);
    if s != [] {
      if s[0] == c {
        OtherFails(s[1..], {}, c);
        MinusNone(s[1..]);
        assert {} + {c} == {c};
      } else {
        MinusOne(s[1..], c);
      }
    }
  }

  lemma Whole<T>(s: seq<T>)
    ensures s[|s|..] == [] && s[..|s|] == s && s[0..] == s && s[..0] == []
  {
  }

  lemma ConsUnfolds(c: int, t: seq<int>, failed: set<int>)
    ensures Minus([c] + t, failed) == (if c in failed then [] else [c]) + Minus(t, failed)
    ensures Tried([c] + t, failed) == Tried(t, failed) + [Try(c, failed)]
  {
  }

  /** One more connection is tried. */
  lemma DropsOne(all: seq<int>, i: nat, failed: set<int>, ok: bool, now: set<int>)
    requires NormalizedLists.Distinct(all) && i < |all| && failed <= Members(all[i + 1..])
    requires now == if ok then failed else failed + {all[i]}
    ensures var conn := all[..i + 1] + Minus(all[i + 1..], failed);
      && |conn| > i && conn[i] == all[i]
      && (if ok then conn else Without(conn, conn[i])) == all[..i] + Minus(all[i..], now)
      && Without(conn, conn[i]) == conn[0..i] + conn[i + 1..]
      && now <= Members(all[i..])
  {
    var c, t := all[i], all[i + 1..];
    assert all[i..] == [c] + t && c !in t;
    MembersAre(t, c);
    ConsUnfolds(c, t, now);
    OtherFails(t, failed, c);
    DropsAt(all, i, Minus(t, failed));
  }

  /** The connection at `i` is taken out in front of those tried before. */
  lemma DropsAt(all: seq<int>, i: nat, rest: seq<int>)
    requires i < |all| && all[i] !in all[..i]
    ensures var conn := all[..i + 1] + rest;
      && |conn| == i + 1 + |rest| && conn[i] == all[i] && conn == all[..i] + ([all[i]] + rest)
      && Without(conn, conn[i]) == all[..i] + rest == conn[0..i] + conn[i + 1..]
  {
    var conn := all[..i + 1] + rest;
    assert conn[..i] == all[..i] && conn[i + 1..] == rest;
    WithoutAt(conn, i);
  }

  lemma LogsOne(all: seq<int>, i: nat, failed: set<int>, ok: bool, now: set<int>)
    requires NormalizedLists.Distinct(all) && i < |all| && failed <= Members(all[i + 1..])
    requires now == if ok then failed else failed + {all[i]}
    ensures Tried(all[i..], now) == Tried(all[i + 1..], failed) + [Attempt(all[i], ok)]
  {
    var c, t := all[i], all[i + 1..];
    assert all[i..] == [c] + t && c !in t;
    MembersAre(t, c);
    ConsUnfolds(c, t, now);
    OtherFails(t, failed, c);
  }

  lemma {:induction false} MinusKeeps(s: seq<int>, failed: set<int>, c: int)
    ensures c in Minus(s, failed) <==> c in s && c !in failed
  {
    if s != [] {
      MinusKeeps(s[1..], failed, c);
    }
  }

  lemma {:induction false} MinusDistinct(s: seq<int>, failed: set<int>)
    requires NormalizedLists.Distinct(s)
    ensures NormalizedLists.Distinct(Minus(s, failed))
  {
    if s != [] {
      MinusDistinct(s[1..], failed);
      MinusKeeps(s[1..], failed, s[0]);
      assert s[0] !in s[1..];
    }
  }

  lemma {:induction false} MinusTwice(s: seq<int>, f: set<int>, g: set<int>)
    ensures Minus(Minus(s, f), g) == Minus(s, f + g)
  {
    if s != [] {
      MinusTwice(s[1..], f, g);
      if s[0] !in f {
        ConsUnfolds(s[0], Minus(s[1..], f), g);
      } else {
        assert Minus(s, f) == Minus(s[1..], f);
      }
    }
  }

  /** The asking connection is passed over. */
  lemma SkipsOne(others: seq<int>, i: nat, failed: set<int>)
    requires i < |others| && others[i] !in failed
    ensures others[..i + 1] + Minus(others[i + 1..], failed) == others[..i] + Minus(others[i..], failed)
    ensures Minus(others[i..], {others[i]}) == Minus(others[i + 1..], {others[i]})
  {
    assert others[i..] == [others[i]] + others[i + 1..];
    ConsUnfolds(others[i], others[i + 1..], failed);
    ConsUnfolds(others[i], others[i + 1..], {others[i]});
    assert others[..i + 1] == others[..i] + [others[i]];
  }

  lemma TriesOther(others: seq<int>, i: nat, c: int, failed: set<int>, ok: bool, now: set<int>)
    requires NormalizedLists.Distinct(others) && i < |others| && others[i] != c && failed <= Members(others[i + 1..])
    requires now == if ok then failed else failed + {others[i]}
    ensures Tried(Minus(others[i..], {c}), now) == Tried(Minus(others[i + 1..], {c}), failed) + [Attempt(others[i], ok)]
  {
    var p, t := others[i], others[i + 1..];
    assert others[i..] == [p] + t && p !in t;
    MembersAre(t, p);
    ConsUnfolds(p, t, {c});
    MinusKeeps(t, {c}, p);
    OtherFails(Minus(t, {c}), failed, p);
    ConsUnfolds(p, Minus(t, {c}), now);
  }

  lemma RespondsTo(all: seq<int>, c: int, lost: set<int>, failed: set<int>)
    requires lost <= {c} && c !in failed
    ensures Minus(Minus(all, lost), failed) == Minus(all, failed + lost)
    ensures Tried(Minus(Minus(all, lost), {c}), failed) == Tried(Minus(all, {c}), failed + lost)
  {
    MinusTwice(all, lost, failed);
    MinusTwice(all, lost, {c});
    assert lost + failed == failed + lost && lost + {c} == {c};
    MinusKeeps(all, {c}, c);
    OtherFails(Minus(all, {c}), failed, c);
    assert failed + lost == failed || failed + lost == failed + {c};
  }
}
