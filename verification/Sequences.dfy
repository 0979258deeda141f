/** Stock functions on sequences. */
module Sequences {
  function DropLast<T>(s: seq<T>): seq<T> {
    if s == [] then [] else s[..|s| - 1]
  }

  lemma LastSplits<T>(s: seq<T>)
    requires s != []
    ensures s == DropLast(s) + [s[|s| - 1]]
  {
  }

  /** Without the element at `i`, if there is one. */
  function Omit<T>(s: seq<T>, i: nat): seq<T> {
    if i < |s| then s[..i] + s[i + 1..] else s
  }

  lemma OmitAt<T>(s: seq<T>, i: nat)
    requires i < |s|
    ensures |Omit(s, i)| == |s| - 1 && forall j :: 0 <= j < |s| - 1 ==> Omit(s, i)[j] == s[if j < i then j else j + 1]
  {
  }
}
