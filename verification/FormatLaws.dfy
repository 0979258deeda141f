/** What trimming, splitting and cutting off leave of a text, character by character. */
module TextLaws {
  import Text
  import Splitting
  import PlainText

  predicate Blank(s: string) {
    forall i :: 0 <= i < |s| ==> Text.IsSpace(s[i])
  }

  lemma {:induction false} TrimmedLeft(a: string, s: string)
    requires Blank(a) && (s != "" ==> !Text.IsSpace(s[0]))
    ensures Text.TrimLeft(a + s) == s
  {
    if a != "" {
      assert (a + s)[1..] == a[1..] + s;
      TrimmedLeft(a[1..], s);
    } else {
      assert a + s == s;
    }
  }

  lemma {:induction false} TrimmedRight(s: string, b: string)
    requires Blank(b) && (s != "" ==> !Text.IsSpace(s[|s| - 1]))
    ensures Text.TrimRight(s + b) == s
  {
    if b != "" {
      assert (s + b)[..|s + b| - 1] == s + b[..|b| - 1];
      TrimmedRight(s, b[..|b| - 1]);
    } else {
      assert s + b == s;
    }
  }

  /** White space goes at both ends, and nowhere else. */
  lemma TrimIs(a: string, s: string, b: string)
    requires Blank(a) && Blank(b) && (s != "" ==> !Text.IsSpace(s[0]) && !Text.IsSpace(s[|s| - 1]))
    ensures Text.Trim(a + s + b) == s
  {
    if s == "" {
      assert a + s + b == (a + b) + "";
      TrimmedLeft(a + b, "");
    } else {
      assert a + s + b == a + (s + b);
      TrimmedLeft(a, s + b);
      TrimmedRight(s, b);
    }
  }

  /** A text without separators is one piece. */
  lemma LastPiece(s: string, sep: char -> bool)
    requires forall i :: 0 <= i < |s| ==> !sep(s[i])
    ensures Splitting.Pieces(s, sep) == if s == "" then [] else [s]
  {
    Splitting.RunIs(s, sep, |s|);
    assert s[|s|..] == "" && s[..|s|] == s;
  }

  /** A plain character is among the first `n` that is no white space. */
  ghost predicate Begun(s: string, n: nat, plain: char -> bool) {
    exists j :: 0 <= j < n <= |s| && plain(s[j]) && !Text.IsSpace(s[j])
  }

  lemma {:induction false} BegunIs(s: string, k: nat, plain: char -> bool)
    requires k <= |s|
    ensures PlainText.Clean(s, k, plain) != "" <==> Begun(s, k, plain)
  {
    if k > 0 {
      BegunIs(s, k - 1, plain);
      if Begun(s, k - 1, plain) {
        var j :| 0 <= j < k - 1 && plain(s[j]) && !Text.IsSpace(s[j]);
      }
    }
  }

  /** Exactly the plain characters are kept, from the first on that is no white space. */
  lemma CleanIs(s: string, k: nat, plain: char -> bool)
    requires k < |s|
    ensures PlainText.Clean(s, 0, plain) == ""
    ensures PlainText.Clean(s, k + 1, plain) ==
      PlainText.Clean(s, k, plain) + if plain(s[k]) && Begun(s, k + 1, plain) then [s[k]] else []
  {
    BegunIs(s, k, plain);
    BegunIs(s, k + 1, plain);
  }

  /** A text that is kept up to the limit is not cut off. */
  lemma NotCutOff(s: string, max: nat, plain: char -> bool)
    requires |PlainText.Clean(s, |s|, plain)| <= max
    ensures PlainText.Cutoff(s, max, plain) == PlainText.Clean(s, |s|, plain)
  {
  }
}

/** What each button of a keyboard becomes. */
module KeyboardLaws {
  import opened Wrappers
  import Text
  import opened Keyboard

  /** The first text that is not blank, trimmed. */
  function Caption(b: Source): string {
    if Text.Trim(b.text) != "" then Text.Trim(b.text) else Text.Trim(b.caption)
  }

  lemma TrimTwice(s: string)
    ensures Text.Trim(Text.Trim(s)) == Text.Trim(s)
  {
    Text.TrimIsTrimmed(s);
    Text.TrimOfTrimmed(Text.Trim(s));
  }

  lemma CoalesceTwo(x: string, y: string)
    ensures Coalesce([x, y]) == if Text.Trim(x) != "" then Text.Trim(x) else Text.Trim(y)
  {
    assert [x, y][1..] == [y] && [y][1..] == [] && [x, y][0] == x && [y][0] == y;
    assert Coalesce([y]) == Text.Trim(y);
  }

  lemma CoalesceThree(x: string, y: string, z: string)
    ensures Coalesce([x, y, z]) ==
      if Text.Trim(x) != "" then Text.Trim(x) else if Text.Trim(y) != "" then Text.Trim(y) else Text.Trim(z)
  {
    assert [x, y, z][1..] == [y, z];
    CoalesceTwo(y, z);
  }

  /** A button of any other type sends its code, or without one its caption; it shows its caption, or without one what it sends. */
  lemma OrdinaryButton(b: Source, lower: string -> string, parse: string -> Nav)
    requires lower(b.typ) !in {"clear", "remove", "remove_keyboard", "email", "mail", "phone", "contact", "location", "url"}
    ensures var i := Convert(Some(b), lower, parse);
      && i.Good? && i.button.action.Code? && i.key == i.button.action
      && i.button.action.code == (if Text.Trim(b.code) != "" then Text.Trim(b.code) else Caption(b))
      && i.button.text == if Caption(b) != "" then Caption(b) else Text.Trim(b.code)
  {
    var c := Caption(b);
    CoalesceTwo(b.text, b.caption);
    TrimTwice(b.text);
    TrimTwice(b.caption);
    TrimTwice(b.code);
    CoalesceTwo(b.code, c);
    CoalesceTwo(c, Coalesce([b.code, c]));
  }

  /** A button that shares something shows its caption, or without one its type in lower case. */
  lemma SharingButton(b: Source, lower: string -> string, parse: string -> Nav)
    requires lower(b.typ) in {"email", "mail", "phone", "contact", "location"}
    ensures var i, typ := Convert(Some(b), lower, parse), lower(b.typ);
      && i.Good? && i.key == i.button.action
      && i.button.action == Share(if typ == "phone" then Phone else if typ == "contact" then Request.Contact
                                  else if typ == "location" then Location else Email)
      && i.button.text == if Caption(b) != "" then Caption(b) else typ
  {
    var typ := lower(b.typ);
    CoalesceThree(b.text, b.caption, typ);
    Text.TrimOfTrimmed(typ);
  }

  /**
   A link leads to its address and is known by its caption, without one that of its site; an address that cannot be
   read, or is relative, is an error.
   */
  lemma LinkButton(b: Source, lower: string -> string, parse: string -> Nav)
    requires lower(b.typ) == "url"
    ensures var i, nav := Convert(Some(b), lower, parse), parse(b.url);
      if nav.BadNav? || nav.scheme == "" then i == BadUrl
      else
        var caption := if Caption(b) != "" then Caption(b) else nav.scheme + "://" + nav.host;
        i == Good(Button(caption, Url(nav.text)), Url(caption))
  {
    CoalesceTwo(b.text, b.caption);
  }

  /** Exactly a button that clears the keyboard clears it, and exactly a missing one is nothing. */
  lemma ClearButton(src: Option<Source>, lower: string -> string, parse: string -> Nav)
    ensures Convert(src, lower, parse) == Clear <==> src.Some? && lower(src.value.typ) in {"clear", "remove", "remove_keyboard"}
    ensures Convert(src, lower, parse) == Nothing <==> src == None
  {
  }
}

/** How the fields of a selection are separated, and what "*" and "+" bring in. */
module SelectorLaws {
  import Text
  import Splitting
  import TextLaws
  import opened Selectors

  /** Neither a comma nor white space. */
  predicate OneName(x: string) {
    forall i :: 0 <= i < |x| ==> x[i] != ',' && !Text.IsSpace(x[i])
  }

  /** Names are separated by commas, and by white space. */
  lemma SeparatedBy(x: string, c: char, rest: string)
    requires OneName(x) && (c == ',' || Text.IsSpace(c))
    ensures Splitting.Pieces(x + [c] + rest, SplitsFields) == (if x == "" then [] else [x]) + Splitting.Pieces(rest, SplitsFields)
    ensures Splitting.Pieces(x, SplitsFields) == if x == "" then [] else [x]
  {
    Splitting.PieceFound(x, c, rest, SplitsFields);
    TextLaws.LastPiece(x, SplitsFields);
  }

  lemma PlainIs(l: seq<string>)
    requires forall y :: y in l ==> y !in {"*", "+"}
    ensures Plain(l)
  {
    assert forall k :: 0 <= k < |l| ==> l[k] in l;
  }

  /** The name is in the list, in some letter case. */
  ghost predicate Has(fold: string -> string, l: seq<string>, x: string) {
    exists k :: 0 <= k < |l| && fold(l[k]) == fold(x)
  }

  lemma HasIs(fold: string -> string, l: seq<string>, x: string)
    ensures fold(x) in Keys(fold, l) <==> Has(fold, l, x)
  {
    if Has(fold, l, x) {
      var k :| 0 <= k < |l| && fold(l[k]) == fold(x);
      KeysAre(fold, l, k);
    }
    if fold(x) in Keys(fold, l) {
      var y := KeysOnly(fold, l, fold(x));
    }
  }

  /** Alone, "*" brings in all attributes, "+" the operational names too, and no selection all attributes; nothing else comes in. */
  lemma SelectorsStand(fold: string -> string, attributes: seq<string>, operational: seq<string>, x: string)
    requires Folding(fold) && x !in {"", "*", "+"}
    requires forall y :: y in attributes || y in operational ==> y !in {"*", "+"}
    ensures Plain(attributes) && Plain(operational)
    ensures Selected(fold, attributes, operational, []) == attributes
    ensures Has(fold, attributes, x) ==> Has(fold, Selected(fold, attributes, operational, ["*"]), x)
    ensures Has(fold, attributes, x) || Has(fold, operational, x) ==> Has(fold, Selected(fold, attributes, operational, ["+"]), x)
    ensures forall n :: n in {"*", "+"} ==>
      forall y :: y in Selected(fold, attributes, operational, [n]) ==> y == n || y in attributes || y in operational
  {
    PlainIs(attributes);
    PlainIs(operational);
    HasIs(fold, attributes, x);
    HasIs(fold, operational, x);
    forall n | n in {"*", "+"}
      ensures fold(x) in Keys(fold, attributes) || (n == "+" && fold(x) in Keys(fold, operational)) ==>
        Has(fold, Selected(fold, attributes, operational, [n]), x)
      ensures forall y :: y in Selected(fold, attributes, operational, [n]) ==> y == n || y in attributes || y in operational
    {
      assert [n][0] == n && First([n]) == 0;
      SelectedHolds(fold, attributes, operational, [n], fold(x));
      HasIs(fold, Selected(fold, attributes, operational, [n]), x);
      forall y | y in Selected(fold, attributes, operational, [n]) ensures y in [n] || y in attributes || y in operational {
        ScanNames(fold, attributes, operational, [n], 0, y);
      }
    }
  }

  /** No name is empty, and none comes twice, in whatever letter case. */
  ghost predicate Different(fold: string -> string, l: seq<string>) {
    (forall k :: 0 <= k < |l| ==> l[k] != "") && forall i, j :: 0 <= i < j < |l| ==> fold(l[i]) != fold(l[j])
  }

  lemma {:induction false} DifferentMerge(fold: string -> string, d: seq<string>, t: seq<string>)
    requires Different(fold, d + t)
    ensures Merge(fold, d, t) == d + t
  {
    if t == [] {
      assert d + t == d;
    } else {
      var before, x := t[..|t| - 1], t[|t| - 1];
      assert d + t == (d + before) + [x];
      assert forall k :: 0 <= k < |d + before| ==> (d + t)[k] == (d + before)[k];
      assert (d + t)[|d + before|] == x;
      DifferentMerge(fold, d, before);
      HasIs(fold, d + before, x);
    }
  }

  lemma DifferentTail(fold: string -> string, a: seq<string>, b: seq<string>)
    requires Different(fold, a + b)
    ensures Different(fold, b)
  {
    assert forall k :: 0 <= k < |b| ==> b[k] == (a + b)[|a| + k];
  }

  /** A list without selectors is scanned to its end. */
  lemma PlainScan(fold: string -> string, attributes: seq<string>, operational: seq<string>, l: seq<string>, i: nat)
    requires Plain(attributes) && Plain(operational) && Plain(l)
    ensures Scan(fold, attributes, operational, l, i) == l
  {
    if i <= |l| {
      ScanSkips(fold, attributes, operational, l, i, |l|);
    }
  }

  /** What the selector `n` stands for. */
  function StandsFor(attributes: seq<string>, operational: seq<string>, n: string): seq<string> {
    if n == "+" then operational + attributes else attributes
  }

  lemma ExpandsTo(fold: string -> string, attributes: seq<string>, operational: seq<string>, x: seq<string>, n: string, y: seq<string>)
    requires n in {"*", "+"} && Different(fold, operational + attributes)
    requires Different(fold, x + (StandsFor(attributes, operational, n) + y))
    ensures Expand(fold, attributes, operational, x + [n] + y, |x|) == x + (StandsFor(attributes, operational, n) + y)
  {
    var names, l := StandsFor(attributes, operational, n), x + [n] + y;
    DifferentMerge(fold, operational, attributes);
    DifferentTail(fold, x, names + y);
    DifferentMerge(fold, names, y);
    DifferentMerge(fold, x, names + y);
    assert l[..|x|] == x && l[|x|] == n && l[|x| + 1..] == y;
  }

  /**
   The names that a selector stands for come in its place, the operational ones first, and the names around it stay
   where they are.
   */
  lemma SelectorGivesPlace(fold: string -> string, attributes: seq<string>, operational: seq<string>, x: seq<string>, n: string,
                           y: seq<string>)
    requires Plain(attributes) && Plain(operational) && Plain(x) && Plain(y) && n in {"*", "+"}
    requires Different(fold, operational + attributes) && Different(fold, x + (StandsFor(attributes, operational, n) + y))
    ensures Selected(fold, attributes, operational, x + [n] + y) == x + (StandsFor(attributes, operational, n) + y)
  {
    var l, e := x + [n] + y, x + (StandsFor(attributes, operational, n) + y);
    ExpandsTo(fold, attributes, operational, x, n, y);
    assert l[0..|x|] == x && l[|x|] == n;
    ScanSkips(fold, attributes, operational, l, 0, |x|);
    ScanStep(fold, attributes, operational, l, |x|, e);
    PlainScan(fold, attributes, operational, e, Onward(|l|, |e|, |x|));
  }
}

/** Which messages a chat room's history holds. */
module HistoryLaws {
  import opened WebChat

  /** The message at `i` is no service message, and the last with its id. */
  ghost predicate IsLatest(pushed: seq<Message>, i: nat) {
    i < |pushed| && pushed[i].id != 0 && forall j :: i < j < |pushed| ==> pushed[j].id != pushed[i].id
  }

  /** The history holds the last message of each id, except of the service messages' id zero. */
  lemma {:induction false} HistoryIs(pushed: seq<Message>, m: Message)
    ensures m in History(pushed) <==> exists i: nat :: IsLatest(pushed, i) && pushed[i] == m
  {
    if pushed != [] {
      var t, n := pushed[..|pushed| - 1], pushed[|pushed| - 1];
      HistoryIs(t, m);
      OneEach(t);
      PushedHas(History(t), n, m);
      if m in History(t) && m.id != n.id {
        var i: nat :| IsLatest(t, i) && t[i] == m;
        assert IsLatest(pushed, i);
      }
      if m == n && m.id != 0 {
        assert IsLatest(pushed, |t|);
      }
      forall i: nat | IsLatest(pushed, i) && pushed[i] == m ensures m in History(pushed) {
        assert i < |t| ==> IsLatest(t, i) && t[i] == m && n.id != m.id;
      }
      HistoryHasIds(t);
    }
  }

  lemma PushedHas(msgs: seq<Message>, n: Message, m: Message)
    requires forall p, q :: 0 <= p < q < |msgs| ==> msgs[p].id != msgs[q].id
    ensures m in Pushed(msgs, n) <==> if n.id != 0 && m.id == n.id then m == n else m in msgs
  {
    var k := Find(msgs, n.id);
    if n.id != 0 {
      assert Pushed(msgs, n)[k] == n;
      if m in msgs && m.id != n.id {
        var p :| 0 <= p < |msgs| && msgs[p] == m;
        assert Pushed(msgs, n)[p] == m;
      }
    }
  }

  lemma {:induction false} HistoryHasIds(pushed: seq<Message>)
    ensures forall m :: m in History(pushed) ==> m.id != 0
  {
    if pushed != [] {
      HistoryHasIds(pushed[..|pushed| - 1]);
    }
  }

  /** No two messages of the history have one id. */
  lemma {:induction false} OneEach(pushed: seq<Message>)
    ensures forall p, q :: 0 <= p < q < |History(pushed)| ==> History(pushed)[p].id != History(pushed)[q].id
  {
    if pushed != [] {
      OneEach(pushed[..|pushed| - 1]);
    }
  }

  /** Of two messages of the history, the earlier has the id that was pushed earlier first. */
  lemma {:induction false} FirstPushedFirst(pushed: seq<Message>, p: nat, q: nat) returns (i: nat)
    requires p < q < |History(pushed)|
    ensures i < |pushed| && pushed[i].id == History(pushed)[p].id
    ensures forall j :: 0 <= j <= i ==> pushed[j].id != History(pushed)[q].id
  {
    var t, n := pushed[..|pushed| - 1], pushed[|pushed| - 1];
    OneEach(pushed);
    if q < |History(t)| {
      i := FirstPushedFirst(t, p, q);
    } else {
      i := FirstOf(t, p);
      assert forall k :: 0 <= k < |History(t)| ==> History(t)[k].id != n.id;
      NotPushed(t, n.id);
    }
  }

  lemma {:induction false} FirstOf(pushed: seq<Message>, p: nat) returns (i: nat)
    requires p < |History(pushed)|
    ensures i < |pushed| && pushed[i].id == History(pushed)[p].id
  {
    var t := pushed[..|pushed| - 1];
    if p < |History(t)| {
      i := FirstOf(t, p);
    } else {
      i := |t|;
    }
  }

  /** An id that is not in the history was not pushed. */
  lemma {:induction false} NotPushed(pushed: seq<Message>, id: int)
    requires id != 0 && forall k :: 0 <= k < |History(pushed)| ==> History(pushed)[k].id != id
    ensures forall j :: 0 <= j < |pushed| ==> pushed[j].id != id
  {
    if pushed != [] {
      var t, n := pushed[..|pushed| - 1], pushed[|pushed| - 1];
      if n.id != 0 {
        assert History(pushed)[Find(History(t), n.id)] == n;
      }
      forall k | 0 <= k < |History(t)| ensures History(t)[k].id != id {
        assert History(pushed)[k].id == History(t)[k].id;
      }
      NotPushed(t, id);
    }
  }
}

/** The written forms of numbers, contacts and account lists. */
module CodecLaws {
  import opened Wrappers
  import opened Text
  import opened Decimal
  import Contact
  import Interlocutor
  import AccountList

  /** Each number has its digits, most significant first, after the sign. */
  lemma NumbersAreDecimal(n: int, d: nat)
    requires n > 0 && d < 10
    ensures FormatInt(d) == ["0123456789"[d]] && FormatInt(10 * n + d) == FormatInt(n) + ["0123456789"[d]]
    ensures FormatInt(-n) == "-" + FormatInt(n)
  {
    assert (10 * n + d) / 10 == n && (10 * n + d) % 10 == d;
  }

  predicate IsHostChar(c: char) {
    'a' <= c <= 'z' || 'A' <= c <= 'Z' || '0' <= c <= '9' || c in "-_[].:"
  }

  /** A host of a contact follows the id and "@"; one with any other character than these is refused. */
  lemma ContactForms(id: string, host: string)
    requires Trimmed(id) && Trimmed(host)
    ensures host == "" ==> Contact.NodeServiceContact(id, host) == (id, None)
    ensures id == "" ==> Contact.NodeServiceContact(id, host) == ("", None)
    ensures id != "" && host != "" && (forall c :: c in host ==> IsHostChar(c)) ==>
      Contact.NodeServiceContact(id, host) == (id + "@" + host, None)
    ensures id != "" && host != "" && !(forall c :: c in host ==> IsHostChar(c)) ==>
      Contact.NodeServiceContact(id, host) == ("", Some(Contact.InvalidName))
  {
    TrimOfTrimmed(id);
    TrimOfTrimmed(host);
    assert forall i :: 0 <= i < |host| ==> host[i] in host;
    assert forall c :: Contact.HostChar(c) <==> IsHostChar(c);
    assert Contact.ValidHost(host) <==> forall c :: c in host ==> IsHostChar(c);
  }

  /** An id in angle brackets follows the name, if there is one. */
  lemma InterlocutorForms(oid: int, name: string)
    requires Trimmed(name)
    ensures oid == 0 ==> Interlocutor.Encode(oid, name) == name
    ensures oid != 0 && name == "" ==> Interlocutor.Encode(oid, name) == "<" + FormatInt(oid) + ">"
    ensures oid != 0 && name != "" ==> Interlocutor.Encode(oid, name) == name + " <" + FormatInt(oid) + ">"
  {
    TrimOfTrimmed(name);
    if oid != 0 && name != "" {
      assert name + " <" + FormatInt(oid) + ">" == name + " " + "<" + FormatInt(oid) + ">";
    }
  }

  /** The digits of account ids are written as bytes 0 to 9, and ids are separated by a byte 10. */
  lemma AccountsAreWritten()
    ensures AccountList.Packed([[49, 50], [57]]) == [1, 2, 10, 9]
  {
    var a: seq<AccountList.Byte>, b: seq<AccountList.Byte> := [49, 50], [57];
    assert [a, b][..1] == [a] && [a][..0] == [] && [a] == [[49, 50]];
    assert a[1..] == [50] && b[1..] == [];
    assert AccountList.Lowered([50]) == [2] && AccountList.Lowered(a) == [1, 2] && AccountList.Lowered(b) == [9];
    assert AccountList.Packed([a]) == [1, 2];
  }
}
