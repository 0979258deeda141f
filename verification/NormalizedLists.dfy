/** Lists of query values made unique, in the array that holds them. */
module NormalizedLists {
  import opened Splitting

  // ----- what is computed

  /** The first occurrence of every value, in order. */
  function Dedupe<T(==)>(s: seq<T>): seq<T> {
    if s == [] then []
    else
      var d := Dedupe(s[..|s| - 1]);
      if s[|s| - 1] in d then d else d + [s[|s| - 1]]
  }

  predicate Distinct<T(==)>(s: seq<T>) {
    forall p, q :: 0 <= p < q < |s| ==> s[p] != s[q]
  }

  lemma {:induction false} DedupeKeeps<T>(s: seq<T>)
    ensures Distinct(Dedupe(s))
    ensures forall x :: x in Dedupe(s) <==> x in s
  {
    if s != [] {
      DedupeKeeps(s[..|s| - 1]);
      assert s == s[..|s| - 1] + [s[|s| - 1]];
    }
  }

  lemma DedupeHas<T>(s: seq<T>, x: T)
    ensures x in Dedupe(s) <==> x in s
  {
    DedupeKeeps(s);
  }

  /** Where a value first occurs. */
  function FirstAt<T(==)>(s: seq<T>, x: T): (k: nat)
    requires x in s
    ensures k < |s| && s[k] == x && x !in s[..k]
  {
    if s[0] == x then 0
    else
      assert s == [s[0]] + s[1..];
      assert forall k: nat :: k < |s| - 1 ==> s[..k + 1] == [s[0]] + s[1..][..k];
      1 + FirstAt(s[1..], x)
  }

  lemma {:induction false} FirstAtIs<T>(s: seq<T>, x: T, k: nat)
    requires k < |s| && s[k] == x && x !in s[..k]
    ensures FirstAt(s, x) == k
  {
    if k > 0 {
      assert s[..k][0] == s[0];
      assert s[..k] == [s[0]] + s[1..][..k - 1];
      FirstAtIs(s[1..], x, k - 1);
    }
  }

  lemma FirstAtPrefix<T>(s: seq<T>, x: T, n: nat)
    requires n <= |s| && x in s[..n]
    ensures x in s && FirstAt(s, x) == FirstAt(s[..n], x)
  {
    var k := FirstAt(s[..n], x);
    assert s[..n][..k] == s[..k];
    FirstAtIs(s, x, k);
  }

  /** Values come in the order in which they first occur. */
  lemma {:induction false} DedupeOrders<T>(s: seq<T>, p: nat, q: nat)
    requires p < q < |Dedupe(s)|
    ensures Dedupe(s)[p] in s && Dedupe(s)[q] in s
    ensures FirstAt(s, Dedupe(s)[p]) < FirstAt(s, Dedupe(s)[q])
  {
    var t, x := s[..|s| - 1], s[|s| - 1];
    DedupeKeeps(t);
    var d := Dedupe(t);
    DedupeHas(t, d[p]);
    assert s[..|t|] == t;
    FirstAtPrefix(s, d[p], |t|);
    if q < |d| {
      DedupeOrders(t, p, q);
      DedupeHas(t, d[q]);
      FirstAtPrefix(s, d[q], |t|);
    } else {
      FirstAtIs(s, x, |t|);
    }
  }

  lemma {:induction false} DedupeOfDistinct<T>(s: seq<T>)
    requires Distinct(s)
    ensures Dedupe(s) == s
  {
    if s != [] {
      var t, x := s[..|s| - 1], s[|s| - 1];
      DedupeOfDistinct(t);
      assert s == t + [x];
    }
  }

  /** Making a list unique again changes nothing. */
  lemma DedupeTwice<T>(s: seq<T>)
    ensures Dedupe(Dedupe(s)) == Dedupe(s)
  {
    DedupeKeeps(s);
    DedupeOfDistinct(Dedupe(s));
  }

  // ----- moving within an array

  /** Moves a stretch of the array, that may overlap its new place. */
  method Move<T>(a: array<T>, to: nat, from: nat, count: nat)
    requires to + count <= a.Length && from + count <= a.Length
    modifies a
    ensures forall j :: 0 <= j < a.Length ==> a[j] == old(a[if to <= j < to + count then j - to + from else j])
  {
    if to <= from {
      var k := 0;
      while k < count
        invariant 0 <= k <= count
        invariant forall j :: 0 <= j < a.Length && !(to <= j < to + k) ==> a[j] == old(a[j])
        invariant forall j :: to <= j < to + k ==> a[j] == old(a[j - to + from])
      {
        a[to + k] := a[from + k];
        k := k + 1;
      }
    } else {
      var k := count;
      while k > 0
        invariant 0 <= k <= count
        invariant forall j :: 0 <= j < a.Length && !(to + k <= j < to + count) ==> a[j] == old(a[j])
        invariant forall j :: to + k <= j < to + count ==> a[j] == old(a[j - to + from])
      {
        k := k - 1;
        a[to + k] := a[from + k];
      }
    }
  }

  /** Writes values over a stretch of the array. */
  method Write<T>(a: array<T>, to: nat, values: seq<T>)
    requires to + |values| <= a.Length
    modifies a
    ensures forall j :: 0 <= j < a.Length ==> a[j] == if to <= j < to + |values| then values[j - to] else old(a[j])
  {
    var k := 0;
    while k < |values|
      invariant 0 <= k <= |values|
      invariant forall j :: 0 <= j < a.Length && !(to <= j < to + k) ==> a[j] == old(a[j])
      invariant forall j :: to <= j < to + k ==> a[j] == values[j - to]
    {
      a[to + k] := values[k];
      k := k + 1;
    }
  }

  // ----- the list a[..n]

  /** A list with any number of values in place of the one at `i`. */
  function Spliced<T>(l: seq<T>, i: nat, more: seq<T>): seq<T>
    requires i < |l|
  {
    l[..i] + more + l[i + 1..]
  }

  lemma SplicedAt<T>(l: seq<T>, i: nat, more: seq<T>, z: seq<T>)
    requires i < |l| && |z| == |l| - 1 + |more|
    requires forall j :: 0 <= j < i ==> z[j] == l[j]
    requires forall j :: i <= j < i + |more| ==> z[j] == more[j - i]
    requires forall j :: i + |more| <= j < |z| ==> z[j] == l[j - |more| + 1]
    ensures z == Spliced(l, i, more)
  {
  }

  /** A list made longer, with its end moved back and values written before it. */
  lemma Widened<T>(was: seq<T>, i: nat, more: seq<T>, x: seq<T>, y: seq<T>, z: seq<T>)
    requires i < |was| && |more| > 0 && |x| == |y| == |z| == |was| - 1 + |more|
    requires forall j :: 0 <= j < |was| ==> x[j] == was[j]
    requires forall j :: 0 <= j < |y| ==> y[j] == x[if i + |more| <= j then j - (i + |more|) + (i + 1) else j]
    requires forall j :: 0 <= j < |z| ==> z[j] == if i <= j < i + |more| then more[j - i] else y[j]
    ensures z == Spliced(was, i, more)
  {
    forall j | i + |more| <= j < |z| ensures z[j] == was[j - |more| + 1] {
      assert y[j] == x[j - |more| + 1];
    }
    SplicedAt(was, i, more, z);
  }

  /** Takes the element at `i` out of the list. */
  method Drop<T>(a: array<T>, n: nat, i: nat)
    requires i < n <= a.Length
    modifies a
    ensures a[..n - 1] == Spliced(old(a[..n]), i, [])
    ensures forall j :: n <= j < a.Length ==> a[j] == old(a[j])
  {
    Move(a, i, i + 1, n - i - 1);
  }

  /** The last place before `i` that holds the same value, or -1. */
  method LookBack<T(==)>(a: array<T>, i: nat) returns (e: int)
    requires i < a.Length
    ensures -1 <= e < i
    ensures e >= 0 ==> a[e] == a[i]
    ensures e < 0 ==> forall k :: 0 <= k < i ==> a[k] != a[i]
  {
    e := i - 1;
    while e >= 0 && a[i] != a[e]
      invariant -1 <= e < i && forall k :: e < k < i ==> a[k] != a[i]
    {
      e := e - 1;
    }
  }

  /** Takes the element at `i` out, which is one before it. */
  method DropAgain<T(==)>(a: array<T>, m: nat, i: nat, e: nat)
    requires e < i < m <= a.Length && a[e] == a[i]
    modifies a
    ensures Dedupe(a[..m - 1]) == Dedupe(old(a[..m]))
    ensures forall j :: 0 <= j < i || m <= j < a.Length ==> a[j] == old(a[j])
  {
    ghost var list := a[..m];
    DropRepeated(list, i, e);
    Drop(a, m, i);
    assert forall j :: 0 <= j < i ==> a[..m - 1][j] == list[j];
  }

  method Unique<T(==)>(a: array<T>, n: nat) returns (m: nat)
    requires n <= a.Length
    modifies a
    ensures m <= n && a[..m] == Dedupe(old(a[..n]))
    ensures a[n..] == old(a[n..])
  {
    m := n;
    var i := 1;
    while i < m
      invariant m <= n && (i <= m || (i == 1 && m == 0))
      invariant Dedupe(a[..m]) == Dedupe(old(a[..n]))
      invariant forall p, q :: 0 <= p < q < i && q < m ==> a[p] != a[q]
      invariant forall j :: n <= j < a.Length ==> a[j] == old(a[j])
      decreases m - i
    {
      var e := LookBack(a, i);
      if e >= 0 {
        DropAgain(a, m, i, e);
        m := m - 1;
        i := i - 1;
      }
      i := i + 1;
    }
    DedupeOfDistinct(a[..m]);
  }

  /** A value that occurs before makes no difference. */
  lemma {:induction false} DropRepeated<T>(s: seq<T>, i: nat, e: nat)
    requires e < i < |s| && s[e] == s[i]
    ensures Dedupe(Spliced(s, i, [])) == Dedupe(s)
  {
    var t := s[..i] + s[i + 1..];
    assert Spliced(s, i, []) == t;
    if i == |s| - 1 {
      assert t == s[..i];
      DedupeKeeps(s[..i]);
      assert s[..i][e] == s[i];
    } else {
      var u := s[..|s| - 1];
      assert t[..|t| - 1] == Spliced(u, i, []);
      DropRepeated(u, i, e);
    }
  }

  // ----- lists of query values

  /** All pieces of all values, in order. */
  function Pieced(list: seq<string>, sep: char -> bool): seq<string> {
    if list == [] then [] else Pieces(list[0], sep) + Pieced(list[1..], sep)
  }

  /** Puts values after the list, in a new array when there is no room. */
  method Append(a: array<string>, n: nat, values: seq<string>) returns (b: array<string>)
    requires n <= a.Length
    modifies a
    ensures b == a || fresh(b)
    ensures n + |values| <= b.Length && forall j :: 0 <= j < n + |values| ==> b[j] == if j < n then old(a[j]) else values[j - n]
  {
    if n + |values| <= a.Length {
      b := a;
    } else {
      b := new string[n + |values|];
      Write(b, 0, a[..n]);
    }
    Write(b, n, values);
  }

  /** Puts many values in place of one. */
  method Widen(a: array<string>, n: nat, i: nat, more: seq<string>) returns (b: array<string>, m: nat)
    requires i < n <= a.Length && |more| > 1
    modifies a
    ensures b == a || fresh(b)
    ensures m == n + |more| - 1 <= b.Length && b[..m] == Spliced(old(a[..n]), i, more)
  {
    ghost var was := a[..n];
    m := n + |more| - 1;
    b := Append(a, n, more[1..]);
    ghost var x := b[..m];
    Move(b, i + |more|, i + 1, n - i - 1);
    ghost var y := b[..m];
    Write(b, i, more);
    Widened(was, i, more, x, y, b[..m]);
  }

  /** Puts any number of values in place of one, and moves on behind them. */
  method Replace(a: array<string>, n: nat, i: nat, more: seq<string>) returns (b: array<string>, m: nat, next: nat)
    requires i < n <= a.Length
    modifies a
    ensures b == a || fresh(b)
    ensures next == i + |more| <= m <= b.Length && n - i - 1 == m - next
    ensures b[..m] == Spliced(old(a[..n]), i, more)
  {
    var at: int;
    b, m, at := a, n, i;
    match |more| {
      case 0 =>
        Drop(a, n, i);
        m := n - 1;
        at := at - 1;
      case 1 =>
        ghost var was := a[..n];
        a[i] := more[0];
        assert a[..n] == Spliced(was, i, more);
      case _ =>
        b, m := Widen(a, n, i, more);
        at := at + |more| - 1;
    }
    next := at + 1;
  }

  /** The list with all values from `i` on replaced by their pieces. */
  function Ahead(list: seq<string>, i: nat, sep: char -> bool): seq<string>
    requires i <= |list|
    decreases |list| - i
  {
    if i == |list| then list
    else Ahead(Spliced(list, i, Pieces(list[i], sep)), i + |Pieces(list[i], sep)|, sep)
  }

  lemma {:induction false} AheadPieces(list: seq<string>, i: nat, sep: char -> bool)
    requires i <= |list|
    ensures Ahead(list, i, sep) == list[..i] + Pieced(list[i..], sep)
    decreases |list| - i
  {
    if i < |list| {
      var more, rest := Pieces(list[i], sep), list[i + 1..];
      var now := Spliced(list, i, more);
      AheadPieces(now, i + |more|, sep);
      assert now[..i + |more|] == list[..i] + more && now[i + |more|..] == rest;
      assert list[i..][0] == list[i] && list[i..][1..] == rest;
    }
  }

  lemma AheadOfAll(list: seq<string>, sep: char -> bool)
    ensures Ahead(list, 0, sep) == Pieced(list, sep)
  {
    AheadPieces(list, 0, sep);
    assert list[0..] == list;
  }

  /**
     The unique pieces of all values, in order of first occurrence. The values are
     replaced in the array they come in, or in a larger one.
   */
  method Fields(list: array<string>, count: nat, sep: char -> bool) returns (a: array<string>, n: nat)
    requires count <= list.Length
    modifies list
    ensures a == list || fresh(a)
    ensures n <= a.Length && a[..n] == Dedupe(Pieced(old(list[..count]), sep))
  {
    a, n := list, count;
    var i := 0;
    ghost var values := a[..n];
    while i < n
      invariant a == list || fresh(a)
      invariant 0 <= i <= n <= a.Length && values == a[..n]
      invariant Ahead(values, i, sep) == Ahead(old(list[..count]), 0, sep)
      decreases n - i
    {
      var more := Pieces(a[i], sep);
      values := Spliced(values, i, more);
      a, n, i := Replace(a, n, i, more);
    }
    AheadOfAll(old(list[..count]), sep);
    n := Unique(a, n);
  }
}
