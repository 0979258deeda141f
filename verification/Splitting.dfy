/** Pieces of a text between separators, as strings.FieldsFunc of Go gives them. */
module Splitting {
  /** The length of the text before the first separator. */
  function Run(s: string, sep: char -> bool): (n: nat)
    ensures n <= |s|
    ensures forall k :: 0 <= k < n ==> !sep(s[k])
    ensures n < |s| ==> sep(s[n])
  {
    if s == [] || sep(s[0]) then 0 else 1 + Run(s[1..], sep)
  }

  function Pieces(s: string, sep: char -> bool): (r: seq<string>)
    ensures forall k :: 0 <= k < |r| ==> r[k] != "" && forall c :: c in r[k] ==> !sep(c)
  {
    if s == [] then []
    else if sep(s[0]) then Pieces(s[1..], sep)
    else [s[..Run(s, sep)]] + Pieces(s[Run(s, sep)..], sep)
  }

  lemma {:induction false} RunIs(s: string, sep: char -> bool, n: nat)
    requires n <= |s| && (forall k :: 0 <= k < n ==> !sep(s[k])) && (n < |s| ==> sep(s[n]))
    ensures Run(s, sep) == n
  {
    if n > 0 {
      RunIs(s[1..], sep, n - 1);
    }
  }

  /** A piece before a separator is found whole. */
  lemma {:induction false} PieceFound(p: string, c: char, rest: string, sep: char -> bool)
    requires sep(c) && forall k :: 0 <= k < |p| ==> !sep(p[k])
    ensures Pieces(p + [c] + rest, sep) == (if p == "" then [] else [p]) + Pieces(rest, sep)
  {
    var s := p + [c] + rest;
    RunIs(s, sep, |p|);
    assert s[..|p|] == p && s[|p|..] == [c] + rest;
    assert ([c] + rest)[1..] == rest;
  }
}
