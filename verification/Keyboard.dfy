/** Conversion of a message's keyboard: rows of buttons, without repeated and without empty rows. */
module Keyboard {
  import opened Wrappers
  import Text

  /** A button as it comes; it may be missing. */
  datatype Source = Source(typ: string, text: string, caption: string, code: string, url: string)

  datatype Request = Phone | Email | Contact | Location

  datatype Action = Share(request: Request) | Url(url: string) | Code(code: string)

  datatype Button = Button(text: string, action: Action)

  /** How url.ParseRequestURI of Go reads a URL; a relative one has no scheme. */
  datatype Nav = BadNav | Nav(scheme: string, host: string, text: string)

  /** What a button is turned into, and by what it is known: the caption of a link, not its address. */
  datatype Image = Nothing | Clear | BadUrl | Good(button: Button, key: Action)

  function Coalesce(texts: seq<string>): string {
    if texts == [] then "" else if Text.Trim(texts[0]) != "" then Text.Trim(texts[0]) else Coalesce(texts[1..])
  }

  function Convert(src: Option<Source>, lower: string -> string, parse: string -> Nav): Image {
    if src.None? then Nothing
    else
      var b := src.value;
      var typ := lower(b.typ);
      if typ in {"clear", "remove", "remove_keyboard"} then Clear
      else if typ in {"email", "mail"} then Good(Button(Coalesce([b.text, b.caption, typ]), Share(Email)), Share(Email))
      else if typ == "phone" then Good(Button(Coalesce([b.text, b.caption, typ]), Share(Phone)), Share(Phone))
      else if typ == "contact" then Good(Button(Coalesce([b.text, b.caption, typ]), Share(Contact)), Share(Contact))
      else if typ == "location" then Good(Button(Coalesce([b.text, b.caption, typ]), Share(Location)), Share(Location))
      else if typ == "url" then
        var nav := parse(b.url);
        if nav.BadNav? || nav.scheme == "" then BadUrl
        else
          var named := Coalesce([b.text, b.caption]);
          var caption := if named == "" then nav.scheme + "://" + nav.host else named;
          Good(Button(caption, Url(nav.text)), Url(caption))
      else
        var caption := Coalesce([b.text, b.caption]);
        var callback := Coalesce([b.code, caption]);
        Good(Button(Coalesce([caption, callback]), Code(callback)), Code(callback))
  }

  // ----- what the rows hold

  /** Buttons kept so far, and the keys they are known by. */
  datatype Kept = Kept(buttons: seq<Button>, keys: set<Action>)

  function Keep(k: Kept, i: Image): Kept {
    if i.Good? && i.key !in k.keys then Kept(k.buttons + [i.button], k.keys + {i.key}) else k
  }

  /** The first `j` images of a row, without those known before. */
  function RowKept(row: seq<Image>, j: nat, keys: set<Action>): Kept
    requires j <= |row|
  {
    if j == 0 then Kept([], keys) else Keep(RowKept(row, j - 1, keys), row[j - 1])
  }

  datatype Rows = Rows(rows: seq<seq<Button>>, keys: set<Action>)

  /** The first `i` rows, without the empty ones. */
  function RowsKept(src: seq<seq<Image>>, i: nat): Rows
    requires i <= |src|
  {
    if i == 0 then Rows([], {})
    else
      var before := RowsKept(src, i - 1);
      var row := RowKept(src[i - 1], |src[i - 1]|, before.keys);
      Rows(if row.buttons == [] then before.rows else before.rows + [row.buttons], row.keys)
  }

  function Flatten<T>(rows: seq<seq<T>>): seq<T> {
    if rows == [] then [] else Flatten(rows[..|rows| - 1]) + rows[|rows| - 1]
  }

  /** A list of images without later ones of the same key. */
  function Unique(images: seq<Image>): Kept {
    if images == [] then Kept([], {}) else Keep(Unique(images[..|images| - 1]), images[|images| - 1])
  }

  lemma {:induction false} UniqueRow(images: seq<Image>, row: seq<Image>, j: nat)
    requires j <= |row|
    ensures Unique(images + row[..j]) ==
      var r := RowKept(row, j, Unique(images).keys); Kept(Unique(images).buttons + r.buttons, r.keys)
  {
    if j == 0 {
      assert images + row[..0] == images;
    } else {
      assert (images + row[..j])[..|images| + j - 1] == images + row[..j - 1];
      UniqueRow(images, row, j - 1);
    }
  }

  lemma FlattenAppend<T>(rows: seq<seq<T>>, row: seq<T>)
    ensures Flatten(rows + [row]) == Flatten(rows) + row
  {
    assert (rows + [row])[..|rows|] == rows;
  }

  lemma RowAdds(images: seq<Image>, before: Rows, row: seq<Image>)
    requires Unique(images) == Kept(Flatten(before.rows), before.keys)
    ensures var r := RowKept(row, |row|, before.keys);
      Unique(images + row) == Kept(Flatten(if r.buttons == [] then before.rows else before.rows + [r.buttons]), r.keys)
  {
    var r := RowKept(row, |row|, before.keys);
    assert row[..|row|] == row;
    UniqueRow(images, row, |row|);
    FlattenAppend(before.rows, r.buttons);
    assert Flatten(before.rows) + [] == Flatten(before.rows);
  }

  /** Read as one list, the rows are the images without repeated keys. */
  lemma {:induction false} RowsAreUnique(src: seq<seq<Image>>, i: nat)
    requires i <= |src|
    ensures Unique(Flatten(src[..i])) == Kept(Flatten(RowsKept(src, i).rows), RowsKept(src, i).keys)
  {
    if i > 0 {
      RowsAreUnique(src, i - 1);
      RowAdds(Flatten(src[..i - 1]), RowsKept(src, i - 1), src[i - 1]);
      assert src[..i] == src[..i - 1] + [src[i - 1]];
      FlattenAppend(src[..i - 1], src[i - 1]);
    }
  }

  /** The buttons that a row adds to those of the rows before it. */
  function RowImage(src: seq<seq<Image>>, i: nat): seq<Button>
    requires i < |src|
  {
    RowKept(src[i], |src[i]|, RowsKept(src, i).keys).buttons
  }

  /** How many of the first rows add something. */
  function Filled(src: seq<seq<Image>>, i: nat): nat
    requires i <= |src|
  {
    if i == 0 then 0 else Filled(src, i - 1) + (if RowImage(src, i - 1) == [] then 0 else 1)
  }

  /** Each row that adds something is there, in its place. */
  lemma {:induction false} RowsInOrder(src: seq<seq<Image>>, i: nat, k: nat)
    requires k < i <= |src|
    ensures RowImage(src, k) != [] ==>
      Filled(src, k) < |RowsKept(src, i).rows| && RowsKept(src, i).rows[Filled(src, k)] == RowImage(src, k)
  {
    RowsFilled(src, i - 1);
    if k < i - 1 {
      RowsInOrder(src, i - 1, k);
    }
  }

  /** No row is empty, and there is none but those that add something. */
  lemma {:induction false} RowsFilled(src: seq<seq<Image>>, i: nat)
    requires i <= |src|
    ensures |RowsKept(src, i).rows| == Filled(src, i)
    ensures forall r :: 0 <= r < |RowsKept(src, i).rows| ==> RowsKept(src, i).rows[r] != []
  {
    if i > 0 {
      RowsFilled(src, i - 1);
    }
  }

  /** An image whose key was not seen before is kept, after those before it; another one changes nothing. */
  lemma {:induction false} UniqueAt(images: seq<Image>, k: nat)
    requires k < |images|
    ensures var before, i := Unique(images[..k]), images[k];
      if i.Good? && i.key !in before.keys
      then |before.buttons| < |Unique(images).buttons| && Unique(images).buttons[|before.buttons|] == i.button
      else Unique(images[..k + 1]) == before
  {
    if k == |images| - 1 {
      assert images[..k + 1] == images;
    } else {
      var t := images[..|images| - 1];
      UniqueAt(t, k);
      assert t[..k] == images[..k] && t[..k + 1] == images[..k + 1];
    }
  }

  lemma {:induction false} UniqueKnows(images: seq<Image>, k: nat)
    requires k < |images| && images[k].Good?
    ensures images[k].key in Unique(images).keys
  {
    if k < |images| - 1 {
      UniqueKnows(images[..|images| - 1], k);
    }
  }

  /** A key is known from some image. */
  lemma {:induction false} UniqueKnown(images: seq<Image>, a: Action) returns (k: nat)
    requires a in Unique(images).keys
    ensures k < |images| && images[k].Good? && images[k].key == a
  {
    var t, i := images[..|images| - 1], images[|images| - 1];
    if a in Unique(t).keys {
      k := UniqueKnown(t, a);
    } else {
      k := |images| - 1;
    }
  }

  /** No earlier image has its key. */
  predicate IsFirst(images: seq<Image>, k: nat)
    requires k < |images| && images[k].Good?
  {
    forall j :: 0 <= j < k ==> !(images[j].Good? && images[j].key == images[k].key)
  }

  /** The place of an image's button among those kept: behind those kept before it. */
  function PlaceOf(images: seq<Image>, k: nat): nat
    requires k < |images|
  {
    |Unique(images[..k]).buttons|
  }

  /** A button is kept, in its place, exactly when no earlier one has its key; else it changes nothing. */
  lemma KeptIfFirst(images: seq<Image>, k: nat)
    requires k < |images| && images[k].Good?
    ensures if IsFirst(images, k)
      then PlaceOf(images, k) < |Unique(images).buttons| && Unique(images).buttons[PlaceOf(images, k)] == images[k].button
      else Unique(images[..k + 1]) == Unique(images[..k])
    ensures IsFirst(images, k) <==> images[k].key !in Unique(images[..k]).keys
  {
    UniqueAt(images, k);
    if images[k].key in Unique(images[..k]).keys {
      var j := UniqueKnown(images[..k], images[k].key);
      assert images[j] == images[..k][j];
    }
    forall j | 0 <= j < k && images[j].Good? ensures images[j].key in Unique(images[..k]).keys {
      assert images[..k][j] == images[j];
      UniqueKnows(images[..k], j);
    }
  }

  predicate IsLink(i: Image) {
    i.Good? && i.button.action.Url?
  }

  /** Links are known by their captions, all other buttons by what they do. */
  lemma KeyIs(src: Option<Source>, lower: string -> string, parse: string -> Nav)
    ensures var i := Convert(src, lower, parse);
      i.Good? ==> i.key == if IsLink(i) then Url(i.button.text) else i.button.action
  {
  }

  /** A link is kept, in its place, exactly when no earlier link has its caption, whatever their addresses. */
  lemma LinksByCaption(row: seq<Option<Source>>, images: seq<Image>, lower: string -> string, parse: string -> Nav, k: nat)
    requires Pictured(row, images, lower, parse) && k < |images| && IsLink(images[k])
    ensures IsFirst(images, k) <==> forall j :: 0 <= j < k && IsLink(images[j]) ==> images[j].button.text != images[k].button.text
  {
    KeyIs(row[k], lower, parse);
    forall j | 0 <= j < k ensures images[j].Good? ==>
      images[j].key == if IsLink(images[j]) then Url(images[j].button.text) else images[j].button.action
    {
      KeyIs(row[j], lower, parse);
    }
  }

  function Link(caption: string, address: string): Image {
    Good(Button(caption, Url(address)), Url(caption))
  }

  /** Of two links with one caption and two addresses only the first is left. */
  lemma SecondLinkIsLost()
    ensures var row := [Some(Source("url", "go", "", "", "a:x")), Some(Source("url", "go", "", "", "a:y"))];
      var parse := (url: string) => Nav("a", "", url);
      Pictured(row, [Link("go", "a:x"), Link("go", "a:y")], s => s, parse)
    ensures Result([[Link("go", "a:x"), Link("go", "a:y")]], 0) == ([[Button("go", Url("a:x"))]], false)
  {
    assert Text.Trim("go") == "go";
    var row := [Link("go", "a:x"), Link("go", "a:y")];
    assert RowKept(row, 1, {}) == Kept([row[0].button], {Url("go")});
    assert RowKept(row, 2, {}) == Kept([row[0].button], {Url("go")});
    assert Stop(row, 0) == Stop(row, 1) == Stop(row, 2) == 2;
    assert RowsKept([row], 0) == Rows([], {});
    assert RowsKept([row], 1) == Rows([[row[0].button]], {Url("go")});
    assert Result([row], 0) == Result([row], 1) == (RowsKept([row], 1).rows, false);
  }

  // ----- the conversion

  /** Where the first image is, from `j` on, that ends the conversion; the length of the row when none does. */
  function Stop(row: seq<Image>, j: nat): (n: nat)
    requires j <= |row|
    ensures j <= n <= |row| && (n < |row| ==> row[n] in {Clear, BadUrl})
    decreases |row| - j
  {
    if j == |row| || row[j] in {Clear, BadUrl} then j else Stop(row, j + 1)
  }

  /** The first row, from `i` on, with an image that ends the conversion; the number of rows when none has. */
  function StopRow(src: seq<seq<Image>>, i: nat): (n: nat)
    requires i <= |src|
    ensures i <= n <= |src| && (n < |src| ==> Stop(src[n], 0) < |src[n]|)
    decreases |src| - i
  {
    if i == |src| || Stop(src[i], 0) < |src[i]| then i else StopRow(src, i + 1)
  }

  /** The images of a row. */
  ghost predicate Pictured(row: seq<Option<Source>>, images: seq<Image>, lower: string -> string,
        parse: string -> Nav) {
    |images| == |row| && forall j :: 0 <= j < |row| ==> images[j] == Convert(row[j], lower, parse)
  }

  class Converter {
    const lower: string -> string
    const parse: string -> Nav
    var rows: seq<seq<Button>>
    /** The row that is filled. */
    var r: nat
    var remove: bool
    var replies: set<Action>

    constructor (lower: string -> string, parse: string -> Nav)
      ensures this.lower == lower && this.parse == parse && rows == [] && r == 0 && !remove && replies == {}
    {
      this.lower, this.parse := lower, parse;
      rows, r, remove, replies := [], 0, false, {};
    }

    predicate Last()
      reads this
    {
      if rows == [] then r == 0 else r == |rows| - 1
    }

    /** The rows without the last one when that is empty. */
    function Solid(): seq<seq<Button>>
      requires Last()
      reads this
    {
      if rows != [] && rows[r] == [] then rows[..r] else rows
    }

    /** An empty row at the end: the last one, or else a new one. */
    method NextRow()
      requires Last()
      modifies `rows, `r
      ensures Last() && rows == old(Solid()) + [[]]
    {
      if r >= |rows| || rows[r] != [] {
        r := |rows|;
        rows := rows + [[]];
      }
    }

    /** The button for one of the source, unless it repeats another. */
    method NextBtn(src: Option<Source>) returns (dst: Option<Button>, err: bool)
      requires !remove
      modifies `remove, `replies
      ensures var i := Convert(src, lower, parse);
        && (err <==> i == BadUrl) && (remove <==> i == Clear)
        && dst == (if i.Good? && i.key !in old(replies) then Some(i.button) else None)
        && replies == old(replies) + (if i.Good? then {i.key} else {})
    {
      var i := Convert(src, lower, parse);
      match i {
        case Nothing =>
          return None, false;
        case Clear =>
          remove := true;
          return None, false;
        case BadUrl =>
          return None, true;
        case Good(button, key) =>
          if key in replies {
            return None, false;
          }
          replies := replies + {key};
          return Some(button), false;
      }
    }

    /** Converts one row. */
    method NextFilled(row: seq<Option<Source>>, ghost images: seq<Image>) returns (err: bool)
      requires Pictured(row, images, lower, parse)
      requires Last() && !remove
      modifies `rows, `r, `remove, `replies
      ensures Last()
      ensures var n := Stop(images, 0);
        var kept := RowKept(images, n, old(replies)).buttons;
        && rows == old(Solid()) + [kept] && Solid() == (if kept == [] then old(Solid()) else old(Solid()) + [kept])
        && (err <==> n < |row| && images[n] == BadUrl) && (remove <==> n < |row| && images[n] == Clear)
        && (n == |row| ==> replies == RowKept(images, n, old(replies)).keys)
    {
      NextRow();
      ghost var before := rows;
      err := FillRow(row, images);
      assert before[..r] == old(Solid());
      LastSet(old(Solid()), before, rows[r]);
    }

    /** Puts the button for one of the source in the last row. */
    method AddBtn(src: Option<Source>) returns (err: bool)
      requires Last() && rows != [] && !remove
      modifies `rows, `remove, `replies
      ensures Last() && rows != [] && rows == old(rows)[r := rows[r]]
      ensures var i := Convert(src, lower, parse);
        && (err <==> i == BadUrl) && (remove <==> i == Clear)
        && Kept(rows[r], replies) == Keep(Kept(old(rows[r]), old(replies)), i)
    {
      var btn;
      btn, err := NextBtn(src);
      if btn.Some? {
        rows := rows[r := rows[r] + [btn.value]];
      }
    }

    /** Fills the last row with a row of the source, up to the image that ends the conversion. */
    method FillRow(row: seq<Option<Source>>, ghost images: seq<Image>) returns (err: bool)
      requires Pictured(row, images, lower, parse)
      requires Last() && rows != [] && rows[r] == [] && !remove
      modifies `rows, `remove, `replies
      ensures Last()
      ensures var n := Stop(images, 0);
        && rows == old(rows)[r := RowKept(images, n, old(replies)).buttons]
        && (err <==> n < |row| && images[n] == BadUrl) && (remove <==> n < |row| && images[n] == Clear)
        && (n == |row| ==> replies == RowKept(images, n, old(replies)).keys)
    {
      ghost var keys, before, n := replies, rows, 0;
      for j := 0 to |row|
        invariant n == j && Last() && rows != [] && !remove && rows == before[r := rows[r]]
        invariant RowKept(images, n, keys) == Kept(rows[r], replies)
        invariant forall k :: 0 <= k < j ==> images[k] !in {Clear, BadUrl}
      {
        var bad := AddBtn(row[j]);
        if bad {
          StopsAt(images, 0, j);
          return true;
        }
        if remove {
          StopsAt(images, 0, j);
          return false;
        }
        n := n + 1;
      }
      StopsAt(images, 0, |row|);
      return false;
    }

    /** The last row goes when it is empty. */
    method Trim()
      requires Last()
      modifies `rows
      ensures rows == old(Solid())
    {
      if r < |rows| && |rows[r]| < 1 {
        rows := rows[0..r];
      }
    }

    /** The first `i` rows are converted, and none has ended the conversion. */
    ghost predicate Converted(images: seq<seq<Image>>, i: nat)
      requires i <= |images|
      reads this
    {
      Last() && !remove && RowsKept(images, i) == Rows(Solid(), replies)
    }

    /** Converts the next row. */
    method NextOne(row: seq<Option<Source>>, ghost images: seq<seq<Image>>, ghost i: nat) returns (err: bool)
      requires i < |images| && Pictured(row, images[i], lower, parse) && Converted(images, i)
      modifies `rows, `r, `remove, `replies
      ensures Last()
      ensures var n := Stop(images[i], 0);
        && (err <==> n < |images[i]| && images[i][n] == BadUrl) && (remove <==> n < |images[i]| && images[i][n] == Clear)
        && (n == |images[i]| ==> Converted(images, i + 1))
        && (err ==> rows == RowsKept(images, i).rows + [RowKept(images[i], n, RowsKept(images, i).keys).buttons])
    {
      err := NextFilled(row, images[i]);
    }

    /** Converts the rows, up to the image that ends the conversion. */
    method FillRows(src: seq<seq<Option<Source>>>, ghost images: seq<seq<Image>>) returns (err: bool)
      requires |images| == |src| && forall i :: 0 <= i < |src| ==> Pictured(src[i], images[i], lower, parse)
      requires Converted(images, 0)
      modifies `rows, `r, `remove, `replies
      ensures Last()
      ensures var k := StopRow(images, 0);
        if k == |images| then !err && Converted(images, k)
        else
          var n := Stop(images[k], 0);
          && (err <==> images[k][n] == BadUrl) && (remove <==> images[k][n] == Clear)
          && (err ==> rows == RowsKept(images, k).rows + [RowKept(images[k], n, RowsKept(images, k).keys).buttons])
    {
      ghost var k := StopRow(images, 0);
      for i := 0 to |src|
        invariant k == StopRow(images, i) && Converted(images, i)
      {
        err := NextOne(src[i], images, i);
        if err || remove {
          return;
        }
      }
      err := false;
    }
  }

  /** The first image that ends the conversion is where it is. */
  lemma {:induction false} StopsAt(row: seq<Image>, j: nat, n: nat)
    requires j <= n <= |row| && (forall k :: j <= k < n ==> row[k] !in {Clear, BadUrl}) && (n < |row| ==> row[n] in {Clear, BadUrl})
    ensures Stop(row, j) == n
    decreases n - j
  {
    if j < n {
      StopsAt(row, j + 1, n);
    }
  }

  lemma LastSet<T>(s: seq<T>, t: seq<T>, x: T)
    requires t != [] && t[..|t| - 1] == s
    ensures t[|t| - 1 := x] == s + [x]
  {
  }

  /** The rows that a conversion from row `i` on ends with, and whether by an error. */
  function Result(images: seq<seq<Image>>, i: nat): (seq<seq<Button>>, bool)
    requires i <= |images|
    decreases |images| - i
  {
    if i == |images| then (RowsKept(images, i).rows, false)
    else
      var n := Stop(images[i], 0);
      if n == |images[i]| then Result(images, i + 1)
      else if images[i][n] == Clear then ([], false)
      else (RowsKept(images, i).rows + [RowKept(images[i], n, RowsKept(images, i).keys).buttons], true)
  }

  /** All rows without an ending image; no rows when "clear" comes before a bad URL; the rows so far when that comes first. */
  lemma {:induction false} ResultIs(images: seq<seq<Image>>, i: nat)
    requires i <= |images|
    ensures var k := StopRow(images, i);
      Result(images, i) ==
        if k == |images| then (RowsKept(images, k).rows, false)
        else if images[k][Stop(images[k], 0)] == Clear then ([], false)
        else (RowsKept(images, k).rows + [RowKept(images[k], Stop(images[k], 0), RowsKept(images, k).keys).buttons], true)
    decreases |images| - i
  {
    if i < |images| && Stop(images[i], 0) == |images[i]| {
      ResultIs(images, i + 1);
    }
  }

  method MarkupV2(src: seq<seq<Option<Source>>>, lower: string -> string, parse: string -> Nav,
        ghost images: seq<seq<Image>>)
    returns (markup: Option<seq<seq<Button>>>, err: bool)
    requires |images| == |src| && forall i :: 0 <= i < |src| ==> Pictured(src[i], images[i], lower, parse)
    ensures src == [] ==> markup == None && !err
    ensures src != [] ==> markup.Some? && (markup.value, err) == Result(images, 0)
  {
    if |src| < 1 {
      return None, false;
    }
    var dst := new Converter(lower, parse);
    ResultIs(images, 0);
    err := dst.FillRows(src, images);
    if err {
      return Some(dst.rows), true;
    }
    if dst.remove {
      return Some([]), false;
    }
    dst.Trim();
    return Some(dst.rows), false;
  }
}
