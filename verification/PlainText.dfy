/**
 Plain text for button titles: characters that are not plain, and white space at the
 start, are cut out of the UTF-8 bytes of a text while its characters are counted.
 A byte is known by its character and its place in the encoding of that one.
 */
module PlainText {
  import opened Wrappers
  import Text

  datatype Byte = Byte(rune: char, part: nat)

  function Units(r: char, n: nat): (u: seq<Byte>)
    ensures |u| == n
  {
    if n == 0 then [] else Units(r, n - 1) + [Byte(r, n - 1)]
  }

  ghost predicate Widths(width: char -> nat) {
    forall r :: width(r) > 0
  }

  /** The bytes of the first `k` characters, and of those from `k` on. */
  function EncodeTo(s: string, k: nat, width: char -> nat): seq<Byte>
    requires k <= |s|
  {
    if k == 0 then [] else EncodeTo(s, k - 1, width) + Units(s[k - 1], width(s[k - 1]))
  }

  function EncodeFrom(s: string, k: nat, width: char -> nat): seq<Byte>
    requires k <= |s|
    decreases |s| - k
  {
    if k == |s| then [] else Units(s[k], width(s[k])) + EncodeFrom(s, k + 1, width)
  }

  function Encode(s: string, width: char -> nat): seq<Byte> {
    EncodeTo(s, |s|, width)
  }

  function Decode(b: seq<Byte>): string {
    if b == [] then ""
    else Decode(b[..|b| - 1]) + (if b[|b| - 1].part == 0 then [b[|b| - 1].rune] else "")
  }

  lemma {:induction false} DecodeConcat(a: seq<Byte>, b: seq<Byte>)
    ensures Decode(a + b) == Decode(a) + Decode(b)
  {
    if b == [] {
      assert a + b == a;
    } else {
      assert (a + b)[..|a + b| - 1] == a + b[..|b| - 1];
      DecodeConcat(a, b[..|b| - 1]);
    }
  }

  lemma {:induction false} UnitsDecode(r: char, n: nat)
    requires n > 0
    ensures Decode(Units(r, n)) == [r]
  {
    assert Units(r, n)[..n - 1] == Units(r, n - 1);
    if n > 1 {
      UnitsDecode(r, n - 1);
    }
  }

  lemma {:induction false} DecodeTo(s: string, k: nat, width: char -> nat)
    requires Widths(width) && k <= |s|
    ensures Decode(EncodeTo(s, k, width)) == s[..k]
  {
    if k > 0 {
      DecodeTo(s, k - 1, width);
      UnitsDecode(s[k - 1], width(s[k - 1]));
      DecodeConcat(EncodeTo(s, k - 1, width), Units(s[k - 1], width(s[k - 1])));
    }
  }

  /** Encoded text is read back. */
  lemma DecodeEncode(s: string, width: char -> nat)
    requires Widths(width)
    ensures Decode(Encode(s, width)) == s
  {
    DecodeTo(s, |s|, width);
    assert s[..|s|] == s;
  }

  lemma {:induction false} EncodeSplits(s: string, k: nat, width: char -> nat)
    requires k <= |s|
    ensures Encode(s, width) == EncodeTo(s, k, width) + EncodeFrom(s, k, width)
    decreases |s| - k
  {
    if k < |s| {
      EncodeSplits(s, k + 1, width);
    }
  }

  lemma {:induction false} EncodePrefix(s: string, t: string, k: nat, width: char -> nat)
    requires k <= |s| && k <= |t| && s[..k] == t[..k]
    ensures EncodeTo(s, k, width) == EncodeTo(t, k, width)
  {
    if k > 0 {
      assert s[..k][k - 1] == t[..k][k - 1] && s[..k][..k - 1] == s[..k - 1] && t[..k][..k - 1] == t[..k - 1];
      EncodePrefix(s, t, k - 1, width);
    }
  }

  lemma EncodeMore(s: string, r: char, width: char -> nat)
    ensures Encode(s + [r], width) == Encode(s, width) + Units(r, width(r))
  {
    EncodePrefix(s + [r], s, |s|, width);
  }

  // ----- what is kept

  /** What is kept of a text after one more character. */
  function Keep(kept: string, r: char, plain: char -> bool): string {
    if plain(r) && (kept != "" || !Text.IsSpace(r)) then kept + [r] else kept
  }

  /** What is kept of the first `k` characters. */
  function Clean(s: string, k: nat, plain: char -> bool): (c: string)
    requires k <= |s|
    ensures |c| <= k
  {
    if k == 0 then "" else Keep(Clean(s, k - 1, plain), s[k - 1], plain)
  }

  /** The first characters are all kept. */
  predicate AllKept(s: string, n: nat, plain: char -> bool) {
    n <= |s| && |Clean(s, n, plain)| == n
  }

  /** The clean text up to a length; one character more when nothing was cut out before it. */
  function Cutoff(s: string, max: nat, plain: char -> bool): string {
    var c := Clean(s, |s|, plain);
    if |c| <= max then c else if AllKept(s, max + 1, plain) then c[..max + 1] else c[..max]
  }

  lemma {:induction false} CleanGrows(s: string, k: nat, m: nat, plain: char -> bool)
    requires k <= m <= |s|
    ensures Clean(s, k, plain) <= Clean(s, m, plain)
    ensures |Clean(s, m, plain)| - |Clean(s, k, plain)| <= m - k
  {
    if k < m {
      CleanGrows(s, k, m - 1, plain);
    }
  }

  /** When all characters are kept they are the text. */
  lemma {:induction false} AllKeptIs(s: string, k: nat, plain: char -> bool)
    requires k <= |s| && |Clean(s, k, plain)| == k
    ensures Clean(s, k, plain) == s[..k]
  {
    if k > 0 {
      AllKeptIs(s, k - 1, plain);
    }
  }

  /** The character that goes beyond the limit is left out only when some character before it was cut out. */
  lemma CutoffAt(s: string, k: nat, max: nat, plain: char -> bool)
    requires k < |s| && |Clean(s, k, plain)| == max && |Clean(s, k + 1, plain)| == max + 1
    ensures Cutoff(s, max, plain) == if k == max then Clean(s, k + 1, plain) else Clean(s, k, plain)
  {
    CleanGrows(s, k, k + 1, plain);
    CleanGrows(s, k + 1, |s|, plain);
    if k > max {
      CleanGrows(s, max + 1, k, plain);
    }
  }

  // ----- the scan

  /** The bytes of a text that is read up to `before`: as they were while nothing is cut out, else those of what is kept and of the rest. */
  ghost predicate Held(rs: Option<seq<Byte>>, d: int, before: seq<Byte>, kept: seq<Byte>, rest: seq<Byte>) {
    && d == |before| - |kept| >= 0
    && if d == 0 then rs.None? && kept == before else rs == Some(kept + rest)
  }

  lemma HeldKeep(rs: Option<seq<Byte>>, d: int, before: seq<Byte>, kept: seq<Byte>, u: seq<Byte>, rest: seq<Byte>)
    requires Held(rs, d, before, kept, u + rest)
    ensures Held(rs, d, before + u, kept + u, rest)
  {
    assert (kept + u) + rest == kept + (u + rest);
  }

  lemma HeldAll(rs: Option<seq<Byte>>, d: int, text: seq<Byte>, kept: seq<Byte>)
    requires Held(rs, d, text, kept, [])
    ensures (if rs.Some? then rs.value else text) == kept
  {
    assert kept + [] == kept;
  }

  /** Cuts a character out of the bytes. */
  method CutOut(text: seq<Byte>, rs: Option<seq<Byte>>, d: int, i: nat, c: nat,
      ghost before: seq<Byte>, ghost kept: seq<Byte>, ghost u: seq<Byte>, ghost rest: seq<Byte>)
    returns (bytes: Option<seq<Byte>>)
    requires Held(rs, d, before, kept, u + rest) && text == before + (u + rest) && i == |before| && c == |u| > 0
    ensures Held(bytes, d + c, before + u, kept, rest)
  {
    var b := if rs.None? then text else rs.value;
    assert b == kept + (u + rest);
    bytes := Some(b[0..i - d] + b[i - d + c..]);
    assert b[0..i - d] == kept && b[i - d + c..] == rest;
  }

  /** The bytes up to the limit: without the character beyond it when something was cut out. */
  method Stop(text: seq<Byte>, rs: Option<seq<Byte>>, d: int, i: nat, c: nat,
      ghost before: seq<Byte>, ghost kept: seq<Byte>, ghost u: seq<Byte>, ghost rest: seq<Byte>)
    returns (bytes: seq<Byte>)
    requires Held(rs, d, before, kept, u + rest) && text == before + (u + rest) && i == |before| && c == |u| > 0
    ensures bytes == if d == 0 then before + u else kept
  {
    if d != 0 {
      bytes := rs.value[0..i - d];
    } else {
      bytes := text[0..i + c];
    }
  }

  /** The bytes of the text, cut off at the limit. */
  method ScanBytes(s: string, max: nat, plain: char -> bool, width: char -> nat) returns (text: seq<Byte>)
    requires Widths(width)
    ensures text == Encode(Cutoff(s, max, plain), width)
  {
    text := Encode(s, width);
    var rs := None;
    var n, d, k, i := max as int, 0, 0, 0;
    ghost var kept, keptBytes := "", [];
    while k < |s|
      invariant k <= |s| && i == |EncodeTo(s, k, width)| && n == max - |kept| >= 0
      invariant kept == Clean(s, k, plain) && keptBytes == Encode(kept, width) && (d == 0 <==> |kept| == k)
      invariant text == Encode(s, width)
      invariant Held(rs, d, EncodeTo(s, k, width), keptBytes, EncodeFrom(s, k, width))
    {
      var r, c := s[k], width(s[k]);
      ghost var before, u, rest := EncodeTo(s, k, width), Units(r, c), EncodeFrom(s, k + 1, width);
      EncodeSplits(s, k, width);
      if plain(r) && (n < max || !Text.IsSpace(r)) {
        EncodeMore(kept, r, width);
        n := n - 1;
        if n < 0 {
          CutoffAt(s, k, max, plain);
          text := Stop(text, rs, d, i, c, before, keptBytes, u, rest);
          return;
        }
        HeldKeep(rs, d, before, keptBytes, u, rest);
        kept, keptBytes := kept + [r], keptBytes + u;
      } else {
        rs := CutOut(text, rs, d, i, c, before, keptBytes, u, rest);
        d := d + c;
      }
      i := i + c;
      k := k + 1;
    }
    HeldAll(rs, d, text, keptBytes);
    text := if rs.Some? then rs.value else text;
  }

  method ScanTextPlain(s: string, max: nat, plain: char -> bool, width: char -> nat) returns (r: string)
    requires Widths(width)
    ensures r == Text.TrimRight(Cutoff(s, max, plain))
  {
    var text := ScanBytes(s, max, plain, width);
    DecodeEncode(Cutoff(s, max, plain), width);
    return Text.TrimRight(Decode(text));
  }

  // ----- how long a text is left

  lemma {:induction false} CleanIsPlain(s: string, k: nat, plain: char -> bool)
    requires k <= |s|
    ensures forall c :: c in Clean(s, k, plain) ==> plain(c)
    ensures Clean(s, k, plain) != "" ==> !Text.IsSpace(Clean(s, k, plain)[0])
  {
    if k > 0 {
      CleanIsPlain(s, k - 1, plain);
    }
  }

  /** The text left is plain, does not start or end with white space, and keeps the characters in order. */
  lemma ScanIsPlain(s: string, max: nat, plain: char -> bool)
    ensures var r := Text.TrimRight(Cutoff(s, max, plain));
      r <= Clean(s, |s|, plain) && Text.Trimmed(r) && forall c :: c in r ==> plain(c)
  {
    CleanIsPlain(s, |s|, plain);
    Text.TrimRightKeepsHead(Cutoff(s, max, plain));
  }

  /**
     The text left has no more than `max` characters, unless the first `max + 1` are
     all kept and the last of these is no white space: then it has one more.
   */
  lemma ScanLength(s: string, max: nat, plain: char -> bool)
    ensures var r := Text.TrimRight(Cutoff(s, max, plain));
      && (|r| <= max <==> !(AllKept(s, max + 1, plain) && !Text.IsSpace(s[max])))
      && |r| <= max + 1
  {
    var cut := Cutoff(s, max, plain);
    Text.TrimRightKeepsHead(cut);
    if AllKept(s, max + 1, plain) {
      CleanGrows(s, max + 1, |s|, plain);
      AllKeptIs(s, max + 1, plain);
      assert cut == s[..max + 1] && cut[|cut| - 1] == s[max];
      TrimsSpace(cut);
    }
  }

  lemma TrimsSpace(s: string)
    requires s != ""
    ensures |Text.TrimRight(s)| < |s| <==> Text.IsSpace(s[|s| - 1])
  {
    if Text.IsSpace(s[|s| - 1]) {
      Text.TrimRightKeepsHead(s[..|s| - 1]);
    }
  }
}
