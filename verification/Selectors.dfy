/**
 Selection of the fields to return: lists are merged without repeating a name in
 another letter case, and the selectors "*" and "+" stand for lists of names.
 Letter case is any function of the names that keeps "", "*" and "+" apart from all others.
 */
module Selectors {
  import opened Wrappers
  import opened Splitting
  import Text

  const ALL: string := "*"
  const OPERATIONAL: string := "+"

  ghost predicate Folding(fold: string -> string) {
    forall x, y :: fold(x) == fold(y) && y in {"", ALL, OPERATIONAL} ==> x == y
  }

  // ----- merging

  /** The names of a list, up to letter case. */
  function Keys(fold: string -> string, l: seq<string>): set<string> {
    if l == [] then {} else Keys(fold, l[..|l| - 1]) + {fold(l[|l| - 1])}
  }

  function Put(fold: string -> string, l: seq<string>, x: string): seq<string> {
    if x == "" || fold(x) in Keys(fold, l) then l else l + [x]
  }

  function Merge(fold: string -> string, dst: seq<string>, src: seq<string>): seq<string> {
    if src == [] then dst else Put(fold, Merge(fold, dst, src[..|src| - 1]), src[|src| - 1])
  }

  lemma LastSplits<T>(l: seq<T>, x: T)
    ensures (l + [x])[..|l + [x]| - 1] == l
  {
  }

  lemma AppendSplits<T>(a: seq<T>, b: seq<T>)
    requires b != []
    ensures (a + b)[..|a + b| - 1] == a + b[..|b| - 1]
  {
  }

  lemma SplitsAt<T>(l: seq<T>, i: nat)
    requires i < |l|
    ensures l == l[..i] + [l[i]] + l[i + 1..]
  {
  }

  lemma {:induction false} KeysConcat(fold: string -> string, a: seq<string>, b: seq<string>)
    ensures Keys(fold, a + b) == Keys(fold, a) + Keys(fold, b)
  {
    if b == [] {
      assert a + b == a;
    } else {
      AppendSplits(a, b);
      KeysConcat(fold, a, b[..|b| - 1]);
    }
  }

  lemma KeysAt(fold: string -> string, l: seq<string>, i: nat)
    requires i < |l|
    ensures Keys(fold, l) == Keys(fold, l[..i]) + {fold(l[i])} + Keys(fold, l[i + 1..])
  {
    SplitsAt(l, i);
    KeysAround(fold, l[..i], l[i], l[i + 1..]);
  }

  lemma KeysAround(fold: string -> string, a: seq<string>, x: string, b: seq<string>)
    ensures Keys(fold, a + [x] + b) == Keys(fold, a) + {fold(x)} + Keys(fold, b)
  {
    LastSplits(a, x);
    KeysConcat(fold, a + [x], b);
  }

  lemma {:induction false} KeysAre(fold: string -> string, l: seq<string>, k: nat)
    requires k < |l|
    ensures fold(l[k]) in Keys(fold, l)
  {
    if k < |l| - 1 {
      KeysAre(fold, l[..|l| - 1], k);
    }
  }

  lemma {:induction false} KeysOnly(fold: string -> string, l: seq<string>, y: string) returns (x: string)
    requires y in Keys(fold, l)
    ensures x in l && fold(x) == y
  {
    if y == fold(l[|l| - 1]) {
      x := l[|l| - 1];
    } else {
      x := KeysOnly(fold, l[..|l| - 1], y);
    }
  }

  lemma {:induction false} MergeConcat(fold: string -> string, d: seq<string>, a: seq<string>, b: seq<string>)
    ensures Merge(fold, d, a + b) == Merge(fold, Merge(fold, d, a), b)
  {
    if b == [] {
      assert a + b == a;
    } else {
      AppendSplits(a, b);
      MergeConcat(fold, d, a, b[..|b| - 1]);
    }
  }

  /** A merge holds the names of both lists, and "" only when it was there. */
  lemma {:induction false} MergeKeys(fold: string -> string, d: seq<string>, s: seq<string>)
    requires Folding(fold)
    ensures Keys(fold, Merge(fold, d, s)) == Keys(fold, d) + (Keys(fold, s) - {fold("")})
  {
    if s != [] {
      MergeKeys(fold, d, s[..|s| - 1]);
      var m := Merge(fold, d, s[..|s| - 1]);
      LastSplits(m, s[|s| - 1]);
    }
  }

  /** What a list adds to another. */
  function Fresh(fold: string -> string, d: seq<string>, s: seq<string>): seq<string>
    ensures Merge(fold, d, s) == d + Fresh(fold, d, s)
    ensures |Fresh(fold, d, s)| <= |s|
  {
    if s == [] then []
    else
      var f := Fresh(fold, d, s[..|s| - 1]);
      if s[|s| - 1] == "" || fold(s[|s| - 1]) in Keys(fold, d + f) then f else f + [s[|s| - 1]]
  }

  /** The names of `t` are not in `d`, and none comes twice. */
  predicate Apart(fold: string -> string, d: seq<string>, t: seq<string>) {
    t == [] || (Apart(fold, d, t[..|t| - 1]) && t[|t| - 1] != "" && fold(t[|t| - 1]) !in Keys(fold, d + t[..|t| - 1]))
  }

  /** A merge adds names that are new and distinct, and takes them from the second list. */
  lemma {:induction false} FreshApart(fold: string -> string, d: seq<string>, s: seq<string>)
    ensures Apart(fold, d, Fresh(fold, d, s))
    ensures forall x :: x in Fresh(fold, d, s) ==> x in s
  {
    if s != [] {
      FreshApart(fold, d, s[..|s| - 1]);
      LastSplits(Fresh(fold, d, s[..|s| - 1]), s[|s| - 1]);
    }
  }

  lemma {:induction false} ApartMerges(fold: string -> string, d: seq<string>, t: seq<string>)
    requires Apart(fold, d, t)
    ensures Merge(fold, d, t) == d + t
  {
    if t != [] {
      ApartMerges(fold, d, t[..|t| - 1]);
      AppendSplits(d, t);
    } else {
      assert d + t == d;
    }
  }

  /** A list adds nothing when its names are there. */
  lemma {:induction false} MergeKnown(fold: string -> string, d: seq<string>, s: seq<string>)
    requires Keys(fold, s) - {fold("")} <= Keys(fold, d) && Folding(fold)
    ensures Merge(fold, d, s) == d
  {
    if s != [] {
      MergeKnown(fold, d, s[..|s| - 1]);
    }
  }

  /** Merging is associative. */
  lemma {:induction false} MergeAssociative(fold: string -> string, a: seq<string>, b: seq<string>, c: seq<string>)
    requires Folding(fold)
    ensures Merge(fold, Merge(fold, a, b), c) == Merge(fold, a, Merge(fold, b, c))
  {
    if c != [] {
      var i, x := c[..|c| - 1], c[|c| - 1];
      MergeAssociative(fold, a, b, i);
      var m := Merge(fold, b, i);
      MergeKeys(fold, a, m);
      if x != "" && fold(x) !in Keys(fold, m) {
        MergeConcat(fold, a, m, [x]);
        assert Merge(fold, Merge(fold, a, m), [x]) == Put(fold, Merge(fold, a, m), x) by {
          assert [x][..0] == [];
        }
      }
    }
  }

  method MergeFields(fold: string -> string, dst: seq<string>, src: seq<string>) returns (r: seq<string>)
    ensures r == Merge(fold, dst, src)
  {
    if |src| == 0 {
      return dst;
    }
    r := dst;
    for i := 0 to |src|
      invariant r == Merge(fold, dst, src[..i])
    {
      assert src[..i + 1][..i] == src[..i];
      var attr := src[i];
      if |attr| == 0 {
        continue;
      }
      var j := |r| - 1;
      assert r[..j + 1] == r;
      while j >= 0 && fold(r[j]) != fold(attr)
        invariant -1 <= j < |r|
        invariant fold(attr) in Keys(fold, r) <==> fold(attr) in Keys(fold, r[..j + 1])
      {
        LastSplits(r[..j], r[j]);
        assert r[..j + 1] == r[..j] + [r[j]];
        j := j - 1;
      }
      if j >= 0 {
        KeysAre(fold, r, j);
        continue;
      }
      r := r + [attr];
    }
    assert src[..|src|] == src;
  }

  // ----- scopes: the same, with names compared exactly

  method HasScope(scope: seq<string>, key: string) returns (found: bool)
    ensures found <==> scope != [] && (key == "" || key in scope)
  {
    if |scope| == 0 {
      return false;
    }
    if |key| == 0 {
      return true;
    }
    var i, n := 0, |scope|;
    while i < n && scope[i] != key
      invariant 0 <= i <= n && key !in scope[..i]
    {
      i := i + 1;
    }
    return i < n;
  }

  lemma {:induction false} ExactKeys(l: seq<string>, x: string)
    ensures x in Keys(y => y, l) <==> x in l
  {
    if l != [] {
      ExactKeys(l[..|l| - 1], x);
      assert l == l[..|l| - 1] + [l[|l| - 1]];
    }
  }

  method AddScope(scope: seq<string>, keys: seq<string>) returns (r: seq<string>)
    ensures r == Merge(y => y, scope, keys)
  {
    if |keys| == 0 {
      return scope;
    }
    r := scope;
    for i := 0 to |keys|
      invariant r == Merge(y => y, scope, keys[..i])
    {
      assert keys[..i + 1][..i] == keys[..i];
      if |keys[i]| == 0 {
        continue;
      }
      var known := HasScope(r, keys[i]);
      ExactKeys(r, keys[i]);
      if !known {
        r := r + [keys[i]];
      }
    }
    assert keys[..|keys|] == keys;
  }

  // ----- the selectors "*" and "+"

  predicate Wild(x: string) {
    x == ALL || x == OPERATIONAL
  }

  predicate Plain(l: seq<string>) {
    forall k :: 0 <= k < |l| ==> !Wild(l[k])
  }

  /** The names that hold the place of a selector. */
  function Names(fold: string -> string, attributes: seq<string>, operational: seq<string>, x: string): seq<string> {
    if x == OPERATIONAL then Merge(fold, operational, attributes) else attributes
  }

  /** The list with the selector at `i` replaced. */
  function Expand(fold: string -> string, attributes: seq<string>, operational: seq<string>, l: seq<string>,
        i: nat): seq<string>
    requires i < |l|
  {
    Merge(fold, l[..i], Merge(fold, Names(fold, attributes, operational, l[i]), l[i + 1..]))
  }

  /** Where the scan goes on: by how much the list has grown, or with the next element. */
  function Onward(before: nat, after: nat, i: nat): nat {
    if after > before then after - before else i + 1
  }

  function Count(l: seq<string>): nat {
    if l == [] then 0 else Count(l[..|l| - 1]) + (if Wild(l[|l| - 1]) then 1 else 0)
  }

  lemma {:induction false} CountConcat(a: seq<string>, b: seq<string>)
    ensures Count(a + b) == Count(a) + Count(b)
  {
    if b == [] {
      assert a + b == a;
    } else {
      AppendSplits(a, b);
      CountConcat(a, b[..|b| - 1]);
    }
  }

  lemma {:induction false} CountPlain(l: seq<string>)
    ensures Count(l) == 0 <==> Plain(l)
  {
    if l != [] {
      CountPlain(l[..|l| - 1]);
    }
  }

  lemma {:induction false} CountFresh(fold: string -> string, d: seq<string>, s: seq<string>)
    ensures Count(Fresh(fold, d, s)) <= Count(s)
  {
    if s != [] {
      CountFresh(fold, d, s[..|s| - 1]);
      LastSplits(Fresh(fold, d, s[..|s| - 1]), s[|s| - 1]);
    }
  }

  lemma CountMerge(fold: string -> string, d: seq<string>, s: seq<string>)
    ensures Count(Merge(fold, d, s)) <= Count(d) + Count(s)
  {
    CountFresh(fold, d, s);
    CountConcat(d, Fresh(fold, d, s));
  }

  lemma CountAt(l: seq<string>, i: nat)
    requires i < |l|
    ensures Count(l) == Count(l[..i]) + (if Wild(l[i]) then 1 else 0) + Count(l[i + 1..])
  {
    SplitsAt(l, i);
    LastSplits(l[..i], l[i]);
    CountConcat(l[..i] + [l[i]], l[i + 1..]);
  }

  lemma MergePlain(fold: string -> string, a: seq<string>, b: seq<string>)
    requires Plain(a) && Plain(b)
    ensures Plain(Merge(fold, a, b))
  {
    CountPlain(a);
    CountPlain(b);
    CountMerge(fold, a, b);
    CountPlain(Merge(fold, a, b));
  }

  /** Replacing a selector leaves fewer of them. */
  lemma ExpandCounts(fold: string -> string, attributes: seq<string>, operational: seq<string>, l: seq<string>, i: nat)
    requires Plain(attributes) && Plain(operational) && i < |l| && Wild(l[i])
    ensures Count(Expand(fold, attributes, operational, l, i)) < Count(l)
  {
    var names, rest := Names(fold, attributes, operational, l[i]), l[i + 1..];
    MergePlain(fold, operational, attributes);
    CountPlain(names);
    CountMerge(fold, names, rest);
    CountMerge(fold, l[..i], Merge(fold, names, rest));
    CountAt(l, i);
  }

  /** The list that a scan from `i` ends with. */
  function Scan(fold: string -> string, attributes: seq<string>, operational: seq<string>, l: seq<string>,
        i: nat): seq<string>
    requires Plain(attributes) && Plain(operational)
    decreases Count(l), |l| - i
  {
    if i >= |l| then l
    else if Wild(l[i]) then
      var e := Expand(fold, attributes, operational, l, i);
      ExpandCounts(fold, attributes, operational, l, i);
      Scan(fold, attributes, operational, e, Onward(|l|, |e|, i))
    else Scan(fold, attributes, operational, l, i + 1)
  }

  /** The fields that a selection stands for. */
  function Selected(fold: string -> string, attributes: seq<string>, operational: seq<string>,
        named: seq<string>): seq<string>
    requires Plain(attributes) && Plain(operational)
  {
    if named == [] then attributes else Scan(fold, attributes, operational, named, 0)
  }

  predicate SplitsFields(c: char) {
    c == ',' || Text.IsSpace(c)
  }

  /** Puts names in place of the selector at `i`. */
  method ExpandAt(fold: string -> string, attributes: seq<string>, operational: seq<string>, fields: seq<string>, i: nat)
    returns (e: seq<string>)
    requires i < |fields| && Wild(fields[i])
    ensures e == Expand(fold, attributes, operational, fields, i)
  {
    var names := attributes;
    if fields[i] == OPERATIONAL {
      names := MergeFields(fold, operational, attributes);
    }
    var more := MergeFields(fold, names, fields[i + 1..]);
    e := MergeFields(fold, fields[..i], more);
  }

  /** One iteration of the loop over the fields. */
  method ScanNext(fold: string -> string, attributes: seq<string>, operational: seq<string>, fields: seq<string>, i: nat)
    returns (next: seq<string>, at: nat)
    requires Plain(attributes) && Plain(operational) && i < |fields|
    ensures Scan(fold, attributes, operational, next, at) == Scan(fold, attributes, operational, fields, i)
    ensures Count(next) < Count(fields) || (next == fields && at == i + 1)
  {
    next, at := fields, i;
    if Wild(fields[i]) {
      ExpandCounts(fold, attributes, operational, fields, i);
      next := ExpandAt(fold, attributes, operational, fields, i);
      if |next| > |fields| {
        at := |next| - |fields| - 1;
      }
    }
    at := at + 1;
  }

  method SelectFields(fold: string -> string, attributes: seq<string>, operational: seq<string>, selector: string)
    returns (fields: seq<string>)
    requires Plain(attributes) && Plain(operational)
    ensures fields == Selected(fold, attributes, operational, Pieces(selector, SplitsFields))
  {
    fields := Pieces(selector, SplitsFields);
    if |fields| == 0 {
      return attributes;
    }
    ghost var done := Scan(fold, attributes, operational, fields, 0);
    var i := 0;
    while i < |fields|
      invariant 0 <= i && done == Scan(fold, attributes, operational, fields, i)
      decreases Count(fields), |fields| - i
    {
      fields, i := ScanNext(fold, attributes, operational, fields, i);
    }
  }

  // ----- what a selection holds

  lemma ExpandNames(fold: string -> string, attributes: seq<string>, operational: seq<string>, l: seq<string>,
        i: nat, x: string)
    requires i < |l| && x in Expand(fold, attributes, operational, l, i)
    ensures x in l || x in attributes || x in operational
  {
    var names := Names(fold, attributes, operational, l[i]);
    FreshApart(fold, operational, attributes);
    FreshApart(fold, names, l[i + 1..]);
    FreshApart(fold, l[..i], Merge(fold, names, l[i + 1..]));
  }

  /** No name appears that was not given. */
  lemma {:induction false} ScanNames(fold: string -> string, attributes: seq<string>, operational: seq<string>,
        l: seq<string>, i: nat, x: string)
    requires Plain(attributes) && Plain(operational) && x in Scan(fold, attributes, operational, l, i)
    ensures x in l || x in attributes || x in operational
    decreases Count(l), |l| - i
  {
    if i < |l| {
      if Wild(l[i]) {
        var e := Expand(fold, attributes, operational, l, i);
        ExpandCounts(fold, attributes, operational, l, i);
        ScanNames(fold, attributes, operational, e, Onward(|l|, |e|, i), x);
        if x in e {
          ExpandNames(fold, attributes, operational, l, i, x);
        }
      } else {
        ScanNames(fold, attributes, operational, l, i + 1, x);
      }
    }
  }

  /** A name up to letter case, and no selector. */
  ghost predicate Name(fold: string -> string, y: string) {
    y != fold("") && y != fold(ALL) && y != fold(OPERATIONAL)
  }

  lemma ExpandKeys(fold: string -> string, attributes: seq<string>, operational: seq<string>, l: seq<string>, i: nat,
        y: string)
    requires Folding(fold) && i < |l| && Wild(l[i]) && Name(fold, y)
    ensures y in Keys(fold, l) ==> y in Keys(fold, Expand(fold, attributes, operational, l, i))
    ensures y in Keys(fold, attributes) ==> y in Keys(fold, Expand(fold, attributes, operational, l, i))
    ensures l[i] == OPERATIONAL && y in Keys(fold, operational) ==> y in Keys(fold, Expand(fold, attributes, operational, l, i))
  {
    var names, rest := Names(fold, attributes, operational, l[i]), l[i + 1..];
    MergeKeys(fold, operational, attributes);
    MergeKeys(fold, names, rest);
    MergeKeys(fold, l[..i], Merge(fold, names, rest));
    KeysAt(fold, l, i);
  }

  /** Every explicit name survives, up to letter case. */
  lemma {:induction false} ScanKeeps(fold: string -> string, attributes: seq<string>, operational: seq<string>,
        l: seq<string>, i: nat, y: string)
    requires Plain(attributes) && Plain(operational) && Folding(fold) && Name(fold, y) && y in Keys(fold, l)
    ensures y in Keys(fold, Scan(fold, attributes, operational, l, i))
    decreases Count(l), |l| - i
  {
    if i < |l| {
      if Wild(l[i]) {
        var e := Expand(fold, attributes, operational, l, i);
        ExpandCounts(fold, attributes, operational, l, i);
        ExpandKeys(fold, attributes, operational, l, i, y);
        ScanKeeps(fold, attributes, operational, e, Onward(|l|, |e|, i), y);
      } else {
        ScanKeeps(fold, attributes, operational, l, i + 1, y);
      }
    }
  }

  lemma {:induction false} ScanSkips(fold: string -> string, attributes: seq<string>, operational: seq<string>,
        l: seq<string>, i: nat, j: nat)
    requires Plain(attributes) && Plain(operational) && i <= j <= |l| && Plain(l[i..j])
    ensures Scan(fold, attributes, operational, l, i) == Scan(fold, attributes, operational, l, j)
    decreases j - i
  {
    if i < j {
      assert l[i] == l[i..j][0];
      assert l[i + 1..j] == l[i..j][1..];
      ScanSkips(fold, attributes, operational, l, i + 1, j);
    }
  }

  /** The place of the first selector. */
  function First(l: seq<string>): (i: nat)
    ensures i <= |l| && Plain(l[..i]) && (i < |l| ==> Wild(l[i]))
    ensures i == |l| <==> Plain(l)
  {
    if l == [] || Wild(l[0]) then 0
    else
      assert l == [l[0]] + l[1..];
      1 + First(l[1..])
  }

  /**
     A selection of no names, or with a selector in it, holds all attributes, and all
     operational ones when the first selector is "+"; explicit names are there, in
     some letter case; and without a selector a selection is left as it is.
   */
  lemma SelectedHolds(fold: string -> string, attributes: seq<string>, operational: seq<string>, named: seq<string>,
        y: string)
    requires Plain(attributes) && Plain(operational) && Folding(fold) && Name(fold, y)
    ensures y in Keys(fold, named) ==> y in Keys(fold, Selected(fold, attributes, operational, named))
    ensures (named == [] || !Plain(named)) && y in Keys(fold, attributes) ==> y in Keys(fold, Selected(fold, attributes, operational, named))
    ensures !Plain(named) && named[First(named)] == OPERATIONAL && y in Keys(fold, operational) ==>
      y in Keys(fold, Selected(fold, attributes, operational, named))
    ensures named != [] && Plain(named) ==> Selected(fold, attributes, operational, named) == named
  {
    var i := First(named);
    if named != [] {
      assert named[0..i] == named[..i];
      ScanSkips(fold, attributes, operational, named, 0, i);
      if i < |named| {
        var e := Expand(fold, attributes, operational, named, i);
        ExpandCounts(fold, attributes, operational, named, i);
        ExpandKeys(fold, attributes, operational, named, i, y);
        if y in Keys(fold, e) {
          ScanKeeps(fold, attributes, operational, e, Onward(|named|, |e|, i), y);
        }
      }
    }
  }

  // ----- when "+" is passed over

  /** From `i` on the names are new and distinct, and the attributes are all before `i`. */
  ghost predicate Settled(fold: string -> string, attributes: seq<string>, l: seq<string>, i: nat) {
    && i <= |l|
    && (forall q :: i <= q < |l| ==> l[q] != "" && fold(l[q]) !in Keys(fold, l[..q]))
    && Keys(fold, attributes) - {fold("")} <= Keys(fold, l[..i])
  }

  lemma SettledOnce(fold: string -> string, attributes: seq<string>, l: seq<string>, i: nat, p: nat, q: nat)
    requires Settled(fold, attributes, l, i) && p < q < |l| && i <= q
    ensures l[p] != l[q]
  {
    KeysAre(fold, l[..q], p);
  }

  /** The names without the one at `i`, up to the place `q` of the shorter list. */
  lemma KeysWithout(fold: string -> string, l: seq<string>, i: nat, q: nat)
    requires i <= q < |l|
    ensures (l[..i] + l[i + 1..])[..q] == l[..i] + l[i + 1..q + 1]
    ensures Keys(fold, l[..i] + l[i + 1..q + 1]) <= Keys(fold, l[..q + 1])
  {
    KeysAround(fold, l[..i], l[i], l[i + 1..q + 1]);
    KeysConcat(fold, l[..i], l[i + 1..q + 1]);
    assert l[..q + 1] == l[..i] + [l[i]] + l[i + 1..q + 1];
  }

  lemma {:induction false} SettledApart(fold: string -> string, attributes: seq<string>, l: seq<string>, i: nat, q: nat)
    requires Settled(fold, attributes, l, i) && i <= q < |l|
    ensures Apart(fold, l[..i], l[i + 1..q + 1])
    decreases q
  {
    if i < q {
      SettledApart(fold, attributes, l, i, q - 1);
      KeysWithout(fold, l, i, q - 1);
      assert l[i + 1..q + 1] == l[i + 1..q] + [l[q]];
    }
  }

  /** Replacing a selector merges its names, and then what follows. */
  lemma ExpandInTurn(fold: string -> string, attributes: seq<string>, operational: seq<string>, l: seq<string>, i: nat)
    requires Folding(fold) && i < |l|
    ensures Expand(fold, attributes, operational, l, i) ==
      Merge(fold, Merge(fold, l[..i], Names(fold, attributes, operational, l[i])), l[i + 1..])
  {
    MergeAssociative(fold, l[..i], Names(fold, attributes, operational, l[i]), l[i + 1..]);
  }

  /** Once the attributes are there, "*" is just taken out. */
  lemma SettledExpands(fold: string -> string, attributes: seq<string>, operational: seq<string>, l: seq<string>,
        i: nat)
    requires Folding(fold) && Settled(fold, attributes, l, i) && i < |l| && l[i] == ALL
    ensures Expand(fold, attributes, operational, l, i) == l[..i] + l[i + 1..]
  {
    ExpandInTurn(fold, attributes, operational, l, i);
    MergeKnown(fold, l[..i], attributes);
    SettledMerges(fold, attributes, l, i);
  }

  lemma SettledMerges(fold: string -> string, attributes: seq<string>, l: seq<string>, i: nat)
    requires Settled(fold, attributes, l, i) && i < |l|
    ensures Merge(fold, l[..i], l[i + 1..]) == l[..i] + l[i + 1..]
  {
    SettledApart(fold, attributes, l, i, |l| - 1);
    assert l[i + 1..|l| - 1 + 1] == l[i + 1..];
    ApartMerges(fold, l[..i], l[i + 1..]);
  }

  lemma SettledGoesOn(fold: string -> string, attributes: seq<string>, l: seq<string>, i: nat)
    requires Settled(fold, attributes, l, i) && i + 1 < |l|
    ensures Settled(fold, attributes, l[..i] + l[i + 1..], i + 1)
  {
    var e := l[..i] + l[i + 1..];
    forall q | i + 1 <= q < |e| ensures e[q] != "" && fold(e[q]) !in Keys(fold, e[..q]) {
      KeysWithout(fold, l, i, q);
    }
    KeysConcat(fold, l[..i], [l[i + 1]]);
    assert e[..i + 1] == l[..i] + [l[i + 1]];
  }

  lemma SettledOn(fold: string -> string, attributes: seq<string>, l: seq<string>, i: nat)
    requires Settled(fold, attributes, l, i) && i < |l|
    ensures Settled(fold, attributes, l, i + 1)
  {
    KeysConcat(fold, l[..i], [l[i]]);
    assert l[..i + 1] == l[..i] + [l[i]];
  }

  lemma ScanAll(fold: string -> string, attributes: seq<string>, operational: seq<string>, l: seq<string>, i: nat)
    requires Plain(attributes) && Plain(operational) && Folding(fold)
    requires Settled(fold, attributes, l, i) && i < |l| && l[i] == ALL
    ensures var e := l[..i] + l[i + 1..];
      Scan(fold, attributes, operational, l, i) == Scan(fold, attributes, operational, e, i + 1) && Count(e) < Count(l)
  {
    SettledExpands(fold, attributes, operational, l, i);
    ExpandCounts(fold, attributes, operational, l, i);
  }

  lemma {:induction false} PlusStays(fold: string -> string, attributes: seq<string>, operational: seq<string>,
        l: seq<string>, i: nat, k: nat)
    requires Plain(attributes) && Plain(operational) && Folding(fold)
    requires Settled(fold, attributes, l, i) && k < i && l[k] == OPERATIONAL
    ensures OPERATIONAL in Scan(fold, attributes, operational, l, i)
    ensures Scan(fold, attributes, operational, l, i) == Scan(fold, attributes, [], l, i)
    decreases Count(l), |l| - i
  {
    if i < |l| {
      if l[i] == ALL {
        var e := l[..i] + l[i + 1..];
        ScanAll(fold, attributes, operational, l, i);
        ScanAll(fold, attributes, [], l, i);
        if i + 1 < |l| {
          assert e[k] == OPERATIONAL;
          SettledGoesOn(fold, attributes, l, i);
          PlusStays(fold, attributes, operational, e, i + 1, k);
        } else {
          assert e[k] == OPERATIONAL;
        }
      } else {
        SettledOnce(fold, attributes, l, i, k, i);
        SettledOn(fold, attributes, l, i);
        PlusStays(fold, attributes, operational, l, i + 1, k);
      }
    }
  }

  /** A "*" is directly followed by "+", from `i` on. */
  ghost predicate AllPlus(l: seq<string>, i: nat) {
    exists q :: i < q && PlusAt(l, q)
  }

  predicate PlusAt(l: seq<string>, q: int) {
    0 < q < |l| && l[q - 1] == ALL && l[q] == OPERATIONAL
  }

  lemma PlusExpands(fold: string -> string, attributes: seq<string>, operational: seq<string>, l: seq<string>, i: nat)
    requires Plain(attributes) && Plain(operational) && i < |l| && l[i] == OPERATIONAL
    requires forall k :: 0 <= k < |l| && k != i ==> l[k] != OPERATIONAL
    ensures OPERATIONAL !in Scan(fold, attributes, operational, l, i)
  {
    var e := Expand(fold, attributes, operational, l, i);
    ExpandCounts(fold, attributes, operational, l, i);
    PlusNotInExpanded(fold, attributes, operational, l, i);
    if OPERATIONAL in Scan(fold, attributes, operational, l, i) {
      ScanNames(fold, attributes, operational, e, Onward(|l|, |e|, i), OPERATIONAL);
    }
  }

  lemma PlusNotInExpanded(fold: string -> string, attributes: seq<string>, operational: seq<string>, l: seq<string>, i: nat)
    requires Plain(attributes) && Plain(operational) && i < |l| && l[i] == OPERATIONAL
    requires forall k :: 0 <= k < |l| && k != i ==> l[k] != OPERATIONAL
    ensures OPERATIONAL !in Expand(fold, attributes, operational, l, i)
  {
    var names, rest := Names(fold, attributes, operational, l[i]), l[i + 1..];
    FreshApart(fold, operational, attributes);
    FreshApart(fold, names, rest);
    FreshApart(fold, l[..i], Merge(fold, names, rest));
  }

  lemma PlusIsExpanded(fold: string -> string, attributes: seq<string>, operational: seq<string>, l: seq<string>, i: nat)
    requires Plain(attributes) && Plain(operational)
    requires Settled(fold, attributes, l, i) && OPERATIONAL !in l[..i] && i < |l| && l[i] == OPERATIONAL
    ensures OPERATIONAL !in Scan(fold, attributes, operational, l, i) && !AllPlus(l, i)
  {
    forall k | 0 <= k < |l| && k != i ensures l[k] != OPERATIONAL {
      if k < i {
        assert l[k] == l[..i][k];
      } else {
        SettledOnce(fold, attributes, l, i, i, k);
      }
    }
    PlusExpands(fold, attributes, operational, l, i);
  }

  lemma {:induction false} PlusIsKept(fold: string -> string, attributes: seq<string>, operational: seq<string>,
        l: seq<string>, i: nat)
    requires Plain(attributes) && Plain(operational) && Folding(fold)
    requires Settled(fold, attributes, l, i) && OPERATIONAL !in l[..i]
    ensures OPERATIONAL in Scan(fold, attributes, operational, l, i) <==> AllPlus(l, i)
    ensures AllPlus(l, i) ==> Scan(fold, attributes, operational, l, i) == Scan(fold, attributes, [], l, i)
    decreases Count(l), |l| - i
  {
    if i >= |l| {
      assert l[..i] == l;
    } else if l[i] == OPERATIONAL {
      PlusIsExpanded(fold, attributes, operational, l, i);
    } else if l[i] == ALL {
      var e := l[..i] + l[i + 1..];
      if i + 1 < |l| && l[i + 1] != OPERATIONAL {
        ScanAll(fold, attributes, operational, l, i);
        SettledGoesOn(fold, attributes, l, i);
        AllIsPassed(fold, attributes, l, i);
        PlusIsKept(fold, attributes, operational, e, i + 1);
      }
      PlusAfterAll(fold, attributes, operational, l, i);
    } else {
      SettledOn(fold, attributes, l, i);
      assert l[..i + 1] == l[..i] + [l[i]];
      PlusIsKept(fold, attributes, operational, l, i + 1);
      PlusAfterName(fold, attributes, operational, l, i);
    }
  }

  /** A "*" that adds nothing is taken out; a "+" that follows it is passed over. */
  lemma PlusAfterAll(fold: string -> string, attributes: seq<string>, operational: seq<string>, l: seq<string>, i: nat)
    requires Plain(attributes) && Plain(operational) && Folding(fold)
    requires Settled(fold, attributes, l, i) && OPERATIONAL !in l[..i] && i < |l| && l[i] == ALL
    requires i + 1 < |l| && l[i + 1] != OPERATIONAL ==> OPERATIONAL !in Scan(fold, attributes, operational, l[..i] + l[i + 1..], i + 1)
    ensures OPERATIONAL in Scan(fold, attributes, operational, l, i) <==> AllPlus(l, i)
    ensures AllPlus(l, i) ==> Scan(fold, attributes, operational, l, i) == Scan(fold, attributes, [], l, i)
  {
    var e := l[..i] + l[i + 1..];
    ScanAll(fold, attributes, operational, l, i);
    ScanAll(fold, attributes, [], l, i);
    AllIsPassed(fold, attributes, l, i);
    if i + 1 < |l| && l[i + 1] == OPERATIONAL {
      SettledGoesOn(fold, attributes, l, i);
      PlusStays(fold, attributes, operational, e, i + 1, i);
    }
  }

  lemma PlusAfterName(fold: string -> string, attributes: seq<string>, operational: seq<string>, l: seq<string>, i: nat)
    requires Plain(attributes) && Plain(operational) && i < |l| && !Wild(l[i])
    ensures Scan(fold, attributes, operational, l, i) == Scan(fold, attributes, operational, l, i + 1)
    ensures Scan(fold, attributes, [], l, i) == Scan(fold, attributes, [], l, i + 1)
    ensures AllPlus(l, i) <==> AllPlus(l, i + 1)
  {
  }

  /** With "*" taken out, "+" follows another one only if it followed this one. */
  lemma AllIsPassed(fold: string -> string, attributes: seq<string>, l: seq<string>, i: nat)
    requires Settled(fold, attributes, l, i) && OPERATIONAL !in l[..i] && i < |l| && l[i] == ALL
    ensures var e := l[..i] + l[i + 1..];
      && (AllPlus(l, i) <==> i + 1 < |l| && l[i + 1] == OPERATIONAL)
      && (i + 1 < |l| && l[i + 1] != OPERATIONAL ==> OPERATIONAL !in e[..i + 1] && !AllPlus(e, i + 1))
      && (i + 1 == |l| ==> OPERATIONAL !in e)
  {
    var e := l[..i] + l[i + 1..];
    assert i + 1 < |l| ==> e[..i + 1] == l[..i] + [l[i + 1]];
    assert i + 1 == |l| ==> e == l[..i];
    assert forall q :: i < q < |e| ==> e[q] == l[q + 1];
    forall q | i < q < |l| ensures l[q] != ALL {
      SettledOnce(fold, attributes, l, i, i, q);
    }
    assert AllPlus(l, i) <==> PlusAt(l, i + 1);
    assert forall q :: i + 1 < q && PlusAt(e, q) ==> l[q] == ALL;
  }

  /** "+" is among the names that are new, where the scan does not stop at it. */
  ghost predicate Passed(after: seq<string>, idle: bool) {
    if idle then after != [] && (after[0] == OPERATIONAL || AllPlus(after, 1)) else AllPlus(after, 0)
  }

  /**
     The selector "+" of a selection is passed over: "*" comes first, and, among the
     names that follow and are new, "+" comes directly after another "*", or after the
     first one when that one adds nothing.
   */
  ghost predicate PassedOver(fold: string -> string, attributes: seq<string>, named: seq<string>) {
    var i := First(named);
    i < |named| && named[i] == ALL &&
    var base := Merge(fold, named[..i], attributes);
    Passed(Fresh(fold, base, named[i + 1..]), |base| == i)
  }

  lemma {:induction false} ApartAt(fold: string -> string, d: seq<string>, t: seq<string>, k: nat)
    requires Apart(fold, d, t) && k < |t|
    ensures t[k] != "" && fold(t[k]) !in Keys(fold, d + t[..k])
  {
    if k < |t| - 1 {
      ApartAt(fold, d, t[..|t| - 1], k);
      assert t[..|t| - 1][..k] == t[..k];
    }
  }

  lemma FirstSettles(fold: string -> string, attributes: seq<string>, d: seq<string>, rest: seq<string>)
    requires Folding(fold)
    ensures var base := Merge(fold, d, attributes);
      Settled(fold, attributes, Merge(fold, base, rest), |base|)
  {
    var base := Merge(fold, d, attributes);
    var t := Fresh(fold, base, rest);
    var l := base + t;
    FreshApart(fold, base, rest);
    MergeKeys(fold, d, attributes);
    assert l[..|base|] == base;
    forall q | |base| <= q < |l| ensures l[q] != "" && fold(l[q]) !in Keys(fold, l[..q]) {
      ApartIn(fold, base, t, q);
    }
  }

  lemma ApartIn(fold: string -> string, base: seq<string>, t: seq<string>, q: nat)
    requires Apart(fold, base, t) && |base| <= q < |base| + |t|
    ensures (base + t)[q] != "" && fold((base + t)[q]) !in Keys(fold, (base + t)[..q])
  {
    ApartAt(fold, base, t, q - |base|);
    assert (base + t)[..q] == base + t[..q - |base|];
  }

  lemma AllPlusShifts(d: seq<string>, t: seq<string>, k: nat)
    ensures AllPlus(d + t, |d| + k) <==> AllPlus(t, k)
  {
    var l := d + t;
    forall q | k < q && PlusAt(t, q) ensures AllPlus(l, |d| + k) {
      assert PlusAt(l, |d| + q);
    }
    forall q | |d| + k < q && PlusAt(l, q) ensures AllPlus(t, k) {
      assert PlusAt(t, q - |d|);
    }
  }

  /** The scan goes on after the first "*", at or before the names that are new, or one further when nothing was added. */
  lemma PlusFrom(fold: string -> string, attributes: seq<string>, operational: seq<string>, base: seq<string>,
        after: seq<string>,
      on: nat, idle: bool)
    requires Plain(attributes) && Plain(operational) && Folding(fold)
    requires Settled(fold, attributes, base + after, |base|) && Plain(base)
    requires if idle then on == |base| + 1 else on <= |base|
    ensures OPERATIONAL in Scan(fold, attributes, operational, base + after, on) <==> Passed(after, idle)
    ensures Passed(after, idle) ==>
      Scan(fold, attributes, operational, base + after, on) == Scan(fold, attributes, [], base + after, on)
  {
    var e, i := base + after, |base|;
    assert e[..i] == base;
    AllPlusShifts(base, after, if idle then 1 else 0);
    if !idle {
      assert e[on..i] == base[on..];
      ScanSkips(fold, attributes, operational, e, on, i);
      ScanSkips(fold, attributes, [], e, on, i);
      PlusIsKept(fold, attributes, operational, e, i);
    } else if after == [] {
      assert e == base;
    } else {
      SettledOn(fold, attributes, e, i);
      assert e[..i + 1] == base + [after[0]];
      if after[0] == OPERATIONAL {
        PlusStays(fold, attributes, operational, e, i + 1, i);
      } else {
        PlusIsKept(fold, attributes, operational, e, i + 1);
      }
    }
  }

  lemma AllExpands(fold: string -> string, attributes: seq<string>, operational: seq<string>, l: seq<string>, i: nat)
    requires Folding(fold) && i < |l| && l[i] == ALL && Plain(attributes) && Plain(l[..i])
    ensures var base := Merge(fold, l[..i], attributes);
      var after := Fresh(fold, base, l[i + 1..]);
      && Expand(fold, attributes, operational, l, i) == base + after && Plain(base) && i <= |base| && |after| < |l| - i
      && Settled(fold, attributes, base + after, |base|)
  {
    var base := Merge(fold, l[..i], attributes);
    ExpandInTurn(fold, attributes, operational, l, i);
    FirstSettles(fold, attributes, l[..i], l[i + 1..]);
    MergePlain(fold, l[..i], attributes);
    FreshShort(fold, l[..i], attributes);
    FreshShort(fold, base, l[i + 1..]);
  }

  lemma FreshShort(fold: string -> string, d: seq<string>, s: seq<string>)
    ensures Merge(fold, d, s) == d + Fresh(fold, d, s) && |Fresh(fold, d, s)| <= |s|
  {
  }

  /** One step of the scan at a selector. */
  lemma ScanStep(fold: string -> string, attributes: seq<string>, operational: seq<string>, l: seq<string>, i: nat,
        e: seq<string>)
    requires Plain(attributes) && Plain(operational) && i < |l| && Wild(l[i]) && e == Expand(fold, attributes, operational, l, i)
    ensures Scan(fold, attributes, operational, l, i) == Scan(fold, attributes, operational, e, Onward(|l|, |e|, i))
  {
    ExpandCounts(fold, attributes, operational, l, i);
  }

  lemma PlusAtAll(fold: string -> string, attributes: seq<string>, operational: seq<string>, l: seq<string>, i: nat,
      base: seq<string>, after: seq<string>)
    requires Plain(attributes) && Plain(operational) && Folding(fold) && i < |l| && l[i] == ALL
    requires Expand(fold, attributes, operational, l, i) == base + after && Expand(fold, attributes, [], l, i) == base + after
    requires Plain(base) && i <= |base| && |after| < |l| - i && Settled(fold, attributes, base + after, |base|)
    ensures OPERATIONAL in Scan(fold, attributes, operational, l, i) <==> Passed(after, |base| == i)
    ensures Passed(after, |base| == i) ==>
      Scan(fold, attributes, operational, l, i) == Scan(fold, attributes, [], l, i)
  {
    ScanStep(fold, attributes, operational, l, i, base + after);
    ScanStep(fold, attributes, [], l, i, base + after);
    PlusFrom(fold, attributes, operational, base, after, Onward(|l|, |base + after|, i), |base| == i);
  }

  /**
     When "*" comes first, a "+" is left as it is exactly when it is passed over, and
     then it stands for nothing.
   */
  lemma PlusLeft(fold: string -> string, attributes: seq<string>, operational: seq<string>, named: seq<string>)
    requires Plain(attributes) && Plain(operational) && Folding(fold)
    requires First(named) < |named| && named[First(named)] == ALL
    ensures OPERATIONAL in Selected(fold, attributes, operational, named) <==> PassedOver(fold, attributes, named)
    ensures PassedOver(fold, attributes, named) ==>
      Selected(fold, attributes, operational, named) == Selected(fold, attributes, [], named)
  {
    var i := First(named);
    var base := Merge(fold, named[..i], attributes);
    AllExpands(fold, attributes, operational, named, i);
    AllExpands(fold, attributes, [], named, i);
    assert named[0..i] == named[..i];
    ScanSkips(fold, attributes, operational, named, 0, i);
    ScanSkips(fold, attributes, [], named, 0, i);
    PlusAtAll(fold, attributes, operational, named, i, base, Fresh(fold, base, named[i + 1..]));
  }

  /** A "+" that is gone has put all operational names in. */
  lemma {:induction false} PlusGone(fold: string -> string, attributes: seq<string>, operational: seq<string>,
        l: seq<string>, i: nat, y: string)
    requires Plain(attributes) && Plain(operational) && Folding(fold) && Name(fold, y)
    requires OPERATIONAL in l && OPERATIONAL !in Scan(fold, attributes, operational, l, i) && y in Keys(fold, operational)
    ensures y in Keys(fold, Scan(fold, attributes, operational, l, i))
    decreases Count(l), |l| - i
  {
    if Wild(l[i]) {
      var e := Expand(fold, attributes, operational, l, i);
      ExpandCounts(fold, attributes, operational, l, i);
      ExpandKeys(fold, attributes, operational, l, i, y);
      if l[i] == OPERATIONAL {
        ScanKeeps(fold, attributes, operational, e, Onward(|l|, |e|, i), y);
      } else {
        PlusCarried(fold, attributes, operational, l, i);
        PlusGone(fold, attributes, operational, e, Onward(|l|, |e|, i), y);
      }
    } else {
      PlusGone(fold, attributes, operational, l, i + 1, y);
    }
  }

  lemma MergeCarries(fold: string -> string, d: seq<string>, s: seq<string>)
    requires Folding(fold) && (OPERATIONAL in d || OPERATIONAL in s)
    ensures OPERATIONAL in Merge(fold, d, s)
  {
    MergeKeys(fold, d, s);
    if OPERATIONAL in d {
      var k :| 0 <= k < |d| && d[k] == OPERATIONAL;
      KeysAre(fold, d, k);
    } else {
      var k :| 0 <= k < |s| && s[k] == OPERATIONAL;
      KeysAre(fold, s, k);
    }
    var z := KeysOnly(fold, Merge(fold, d, s), fold(OPERATIONAL));
  }

  lemma PlusCarried(fold: string -> string, attributes: seq<string>, operational: seq<string>, l: seq<string>, i: nat)
    requires Folding(fold) && i < |l| && l[i] == ALL && OPERATIONAL in l
    ensures OPERATIONAL in Expand(fold, attributes, operational, l, i)
  {
    var rest := l[i + 1..];
    assert l == l[..i] + [l[i]] + rest;
    if OPERATIONAL !in l[..i] {
      MergeCarries(fold, attributes, rest);
    }
    MergeCarries(fold, l[..i], Merge(fold, attributes, rest));
  }

  /** Unless passed over after "*", a "+" puts all operational names in. */
  lemma PlusHolds(fold: string -> string, attributes: seq<string>, operational: seq<string>, named: seq<string>,
        y: string)
    requires Plain(attributes) && Plain(operational) && Folding(fold) && Name(fold, y)
    requires OPERATIONAL in named && y in Keys(fold, operational) && !PassedOver(fold, attributes, named)
    ensures y in Keys(fold, Selected(fold, attributes, operational, named))
  {
    if named[First(named)] == ALL {
      PlusLeft(fold, attributes, operational, named);
      PlusGone(fold, attributes, operational, named, 0, y);
    } else {
      SelectedHolds(fold, attributes, operational, named, y);
    }
  }

  /** "+" after a "*" that adds nothing is returned as a name. */
  lemma PlusIsLost()
    ensures Selected(x => x, ["id"], ["etag"], ["id", ALL, OPERATIONAL]) == ["id", OPERATIONAL]
  {
    var l := ["id", ALL, OPERATIONAL];
    var f: string -> string := x => x;
    assert l[..1] == ["id"] && l[2..] == [OPERATIONAL];
    assert Put(f, ["id"], OPERATIONAL) == ["id", OPERATIONAL];
    assert ["id", OPERATIONAL][..1] == ["id"];
    assert Put(f, ["id"], "id") == ["id"];
    assert Merge(f, ["id"], [OPERATIONAL]) == ["id", OPERATIONAL];
    assert Merge(f, ["id"], ["id"]) == ["id"];
    assert Expand(f, ["id"], ["etag"], l, 1) == ["id", OPERATIONAL];
    ScanStep(f, ["id"], ["etag"], l, 1, ["id", OPERATIONAL]);
  }

  // ----- lists of selections

  /** The names that one selection of a list gives. */
  function Exploded(part: seq<string>): seq<string> {
    if part == [""] then [] else part
  }

  function Flat(src: seq<string>, fn: string -> seq<string>): seq<string> {
    if src == [] then [] else Exploded(fn(src[0])) + Flat(src[1..], fn)
  }

  /** How many selections come before the first that gives many names. */
  function Singles(src: seq<string>, fn: string -> seq<string>): (n: nat)
    ensures n <= |src| && (n < |src| ==> |fn(src[n])| > 1) && forall k :: 0 <= k < n ==> |fn(src[k])| <= 1
  {
    if src == [] || |fn(src[0])| > 1 then 0 else 1 + Singles(src[1..], fn)
  }

  /** Single names are put side by side; from the first selection of many names on, lists are merged. */
  function Normalized(fold: string -> string, src: seq<string>, fn: string -> seq<string>): seq<string> {
    var n := Singles(src, fn);
    Merge(fold, Flat(src[..n], fn), Flat(src[n..], fn))
  }

  /** How far a list of selections is read: single names side by side, or a merged list. */
  datatype Progress = Side(names: seq<string>) | Merged(names: seq<string>)

  function Next(fold: string -> string, st: Progress, part: seq<string>): Progress {
    if Exploded(part) == [] then st
    else if |part| == 1 && st.Side? then Side(st.names + part)
    else Merged(Merge(fold, st.names, part))
  }

  function Read(fold: string -> string, st: Progress, src: seq<string>, fn: string -> seq<string>): Progress
    decreases |src|
  {
    if src == [] then st else Read(fold, Next(fold, st, fn(src[0])), src[1..], fn)
  }

  lemma ReadOne(fold: string -> string, st: Progress, src: seq<string>, fn: string -> seq<string>)
    requires src != []
    ensures Read(fold, st, src, fn) == Read(fold, Next(fold, st, fn(src[0])), src[1..], fn)
  {
  }

  lemma ConcatAssociates<T>(a: seq<T>, b: seq<T>, c: seq<T>)
    ensures (a + b) + c == a + (b + c)
  {
  }

  lemma {:induction false} FlatConcat(a: seq<string>, b: seq<string>, fn: string -> seq<string>)
    ensures Flat(a + b, fn) == Flat(a, fn) + Flat(b, fn)
  {
    if a == [] {
      assert a + b == b;
    } else {
      assert (a + b)[1..] == a[1..] + b;
      FlatConcat(a[1..], b, fn);
      ConcatAssociates(Exploded(fn(a[0])), Flat(a[1..], fn), Flat(b, fn));
    }
  }

  lemma {:induction false} ReadSingles(fold: string -> string, names: seq<string>, s: seq<string>, rest: seq<string>,
        fn: string -> seq<string>)
    requires forall k :: 0 <= k < |s| ==> |fn(s[k])| <= 1
    ensures Read(fold, Side(names), s + rest, fn) == Read(fold, Side(names + Flat(s, fn)), rest, fn)
    decreases |s|
  {
    if s == [] {
      assert s + rest == rest && names + [] == names;
    } else {
      var part := fn(s[0]);
      assert (s + rest)[1..] == s[1..] + rest;
      assert names + [] == names;
      ReadSingles(fold, names + Exploded(part), s[1..], rest, fn);
      ConcatAssociates(names, Exploded(part), Flat(s[1..], fn));
    }
  }

  lemma {:induction false} ReadMerged(fold: string -> string, names: seq<string>, s: seq<string>,
        fn: string -> seq<string>)
    ensures Read(fold, Merged(names), s, fn) == Merged(Merge(fold, names, Flat(s, fn)))
    decreases |s|
  {
    if s != [] {
      var part := Exploded(fn(s[0]));
      ReadMerged(fold, Merge(fold, names, part), s[1..], fn);
      MergeConcat(fold, names, part, Flat(s[1..], fn));
    }
  }

  /** Reading a list in turn puts single names side by side, and merges from the first selection of many names on. */
  lemma ReadNormalizes(fold: string -> string, src: seq<string>, fn: string -> seq<string>)
    ensures Read(fold, Side([]), src, fn).names == Normalized(fold, src, fn)
  {
    var n := Singles(src, fn);
    var dst, rest := Flat(src[..n], fn), src[n..];
    assert src == src[..n] + rest && [] + dst == dst;
    ReadSingles(fold, [], src[..n], rest, fn);
    if rest != [] {
      ReadMerged(fold, Merge(fold, dst, fn(rest[0])), rest[1..], fn);
      MergeConcat(fold, dst, fn(rest[0]), Flat(rest[1..], fn));
    }
  }

  lemma Cut<T>(src: seq<T>, i: nat)
    requires i < |src|
    ensures (src[..i] + src[i + 1..])[..i] == src[..i] && (src[..i] + src[i + 1..])[i..] == src[i..][1..]
  {
  }

  lemma Replaced<T>(src: seq<T>, i: nat, x: T)
    requires i < |src|
    ensures src[i := x][..i + 1] == src[..i] + [x] && src[i := x][i + 1..] == src[i..][1..]
  {
  }

  method FieldsFunc(fold: string -> string, list: seq<string>, fn: string -> seq<string>) returns (r: seq<string>)
    ensures r == if list == [] then fn("") else Normalized(fold, list, fn)
  {
    if |list| == 0 {
      return fn("");
    }
    var src := list;
    var dst: Option<seq<string>> := None;
    var i := 0;
    assert src[0..] == list && src[..0] == [];
    ghost var st, read := Side([]), Read(fold, Side([]), list, fn);
    while i < |src|
      invariant 0 <= i <= |src|
      invariant st == if dst.Some? then Merged(dst.value) else Side(src[..i])
      invariant Read(fold, st, src[i..], fn) == read
      decreases |src| - i
    {
      assert src[i..][0] == src[i] && src[i..][1..] == src[i + 1..];
      ReadOne(fold, st, src[i..], fn);
      var part := fn(src[i]);
      st := Next(fold, st, part);
      match |part| {
        case 0 =>
          Cut(src, i);
          src := src[..i] + src[i + 1..];
          i := i - 1;
        case 1 =>
          if |part[0]| == 0 {
            Cut(src, i);
            src := src[..i] + src[i + 1..];
            i := i - 1;
          } else if dst.None? {
            Replaced(src, i, part[0]);
            src := src[i := part[0]];
          } else {
            var more := MergeFields(fold, dst.value, part);
            dst := Some(more);
          }
        case _ =>
          var have := if dst.None? then src[..i] else dst.value;
          var more := MergeFields(fold, have, part);
          dst := Some(more);
      }
      i := i + 1;
    }
    ReadNormalizes(fold, list, fn);
    if dst.None? {
      assert src[..i] == src;
      return src;
    }
    return dst.value;
  }

  lemma {:induction false} ApartConcat(fold: string -> string, d: seq<string>, a: seq<string>, b: seq<string>)
    ensures Apart(fold, d, a + b) <==> Apart(fold, d, a) && Apart(fold, d + a, b)
  {
    if b == [] {
      assert a + b == a;
    } else {
      AppendSplits(a, b);
      ApartConcat(fold, d, a, b[..|b| - 1]);
      assert d + (a + b[..|b| - 1]) == d + a + b[..|b| - 1];
    }
  }

  /** A merge names nothing twice exactly when the first list does not. */
  lemma MergeIsDistinct(fold: string -> string, d: seq<string>, s: seq<string>)
    ensures Apart(fold, [], Merge(fold, d, s)) <==> Apart(fold, [], d)
  {
    FreshApart(fold, d, s);
    ApartConcat(fold, [], d, Fresh(fold, d, s));
    assert [] + d == d;
  }

  /** A normalized list names nothing twice exactly when its single names before the first selection of many do not. */
  lemma NormalizedIsDistinct(fold: string -> string, src: seq<string>, fn: string -> seq<string>)
    ensures Apart(fold, [], Normalized(fold, src, fn)) <==> Apart(fold, [], Flat(src[..Singles(src, fn)], fn))
  {
    MergeIsDistinct(fold, Flat(src[..Singles(src, fn)], fn), Flat(src[Singles(src, fn)..], fn));
  }

  /** A normalized list holds all names, and no other. */
  lemma NormalizedHolds(fold: string -> string, src: seq<string>, fn: string -> seq<string>)
    requires Folding(fold)
    ensures Keys(fold, Normalized(fold, src, fn)) - {fold("")} == Keys(fold, Flat(src, fn)) - {fold("")}
  {
    var n := Singles(src, fn);
    assert src == src[..n] + src[n..];
    FlatConcat(src[..n], src[n..], fn);
    MergeHolds(fold, Flat(src[..n], fn), Flat(src[n..], fn));
  }

  lemma MergeHolds(fold: string -> string, d: seq<string>, s: seq<string>)
    requires Folding(fold)
    ensures Keys(fold, Merge(fold, d, s)) - {fold("")} == Keys(fold, d + s) - {fold("")}
  {
    MergeKeys(fold, d, s);
    KeysConcat(fold, d, s);
  }
}
