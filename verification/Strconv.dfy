/** White space, trimming and searching in strings. */
module Text {
  predicate IsSpace(c: char) {
    || c == ' ' || '\t' <= c <= '\r'
    || c == '\U{0085}' || c == '\U{00A0}' || c == '\U{1680}' || '\U{2000}' <= c <= '\U{200A}'
    || c == '\U{2028}' || c == '\U{2029}' || c == '\U{202F}' || c == '\U{205F}' || c == '\U{3000}'
  }

  function TrimLeft(s: string): string {
    if s != "" && IsSpace(s[0]) then TrimLeft(s[1..]) else s
  }

  function TrimRight(s: string): string {
    if s != "" && IsSpace(s[|s| - 1]) then TrimRight(s[..|s| - 1]) else s
  }

  function Trim(s: string): string {
    TrimRight(TrimLeft(s))
  }

  /** Neither end is white space. */
  predicate Trimmed(s: string) {
    s != "" ==> !IsSpace(s[0]) && !IsSpace(s[|s| - 1])
  }

  lemma {:induction false} TrimRightKeepsHead(s: string)
    ensures TrimRight(s) <= s
    ensures TrimRight(s) != "" ==> !IsSpace(TrimRight(s)[|TrimRight(s)| - 1])
  {
    if s != "" && IsSpace(s[|s| - 1]) {
      TrimRightKeepsHead(s[..|s| - 1]);
    }
  }

  lemma {:induction false} TrimLeftHead(s: string)
    ensures TrimLeft(s) != "" ==> !IsSpace(TrimLeft(s)[0])
  {
    if s != "" && IsSpace(s[0]) {
      TrimLeftHead(s[1..]);
    }
  }

  lemma TrimIsTrimmed(s: string)
    ensures Trimmed(Trim(s))
  {
    TrimLeftHead(s);
    TrimRightKeepsHead(TrimLeft(s));
  }

  lemma TrimOfTrimmed(s: string)
    requires Trimmed(s)
    ensures Trim(s) == s
  {
  }

  /** The last place of `c` in `s`, or -1. */
  function LastIndex(s: string, c: char): (i: int)
    ensures -1 <= i < |s|
    ensures i >= 0 ==> s[i] == c
    ensures forall j :: i < j < |s| ==> s[j] != c
  {
    if s == "" then -1
    else if s[|s| - 1] == c then |s| - 1
    else LastIndex(s[..|s| - 1], c)
  }

  lemma LastIndexIs(s: string, c: char, i: nat)
    requires i < |s| && s[i] == c && forall j :: i < j < |s| ==> s[j] != c
    ensures LastIndex(s, c) == i
  {
  }
}

/** Decimal printing and parsing of 64-bit signed integers. */
module Decimal {
  import opened Int64

  predicate IsDigit(c: char) {
    '0' <= c <= '9'
  }

  function Digit(d: nat): char
    requires d < 10
  {
    '0' + d as char
  }

  function Digits(n: nat): (s: string)
    ensures s != "" && forall i :: 0 <= i < |s| ==> IsDigit(s[i])
  {
    if n < 10 then [Digit(n)] else Digits(n / 10) + [Digit(n % 10)]
  }

  function FormatInt(n: int): (s: string)
    ensures s != "" && (IsDigit(s[0]) || s[0] == '-')
    ensures forall i :: 0 < i < |s| ==> IsDigit(s[i])
    ensures IsDigit(s[|s| - 1])
  {
    if n < 0 then "-" + Digits(-n) else Digits(n)
  }

  const MAX_UINT: int := SPAN - 1

  datatype Scanned = Number(n: nat) | BadSyntax | OutOfRange

  /** Reads digits onto `acc`; an overflow is noticed at the digit that causes it, before anything after it. */
  function Scan(s: string, acc: nat): Scanned {
    if s == "" then Number(acc)
    else if !IsDigit(s[0]) then BadSyntax
    else
      var n := acc * 10 + (s[0] as int - '0' as int);
      if n > MAX_UINT then OutOfRange else Scan(s[1..], n)
  }

  datatype ParseError = NoError | SyntaxError | RangeError

  function ParseInt(s: string): (r: (int, ParseError))
    ensures Fits(r.0)
  {
    var signed := s != "" && (s[0] == '-' || s[0] == '+');
    var neg := s != "" && s[0] == '-';
    var digits := if signed then s[1..] else s;
    if digits == "" then (0, SyntaxError) else
    match Scan(digits, 0)
    case BadSyntax => (0, SyntaxError)
    case OutOfRange => (if neg then MIN else MAX, RangeError)
    case Number(n) =>
      if !neg && n > MAX then (MAX, RangeError)
      else if neg && n > MAX + 1 then (MIN, RangeError)
      else (if neg then 0 - n else n, NoError)
  }

  lemma {:induction false} ScanAppend(s: string, t: string, acc: nat)
    requires Scan(s, acc).Number?
    ensures Scan(s + t, acc) == Scan(t, Scan(s, acc).n)
  {
    if s == "" {
      assert s + t == t;
    } else {
      assert (s + t)[1..] == s[1..] + t;
      ScanAppend(s[1..], t, acc * 10 + (s[0] as int - '0' as int));
    }
  }

  lemma {:induction false} ScanDigits(n: nat)
    requires n <= MAX_UINT
    ensures Scan(Digits(n), 0) == Number(n)
  {
    if n >= 10 {
      ScanDigits(n / 10);
      ScanAppend(Digits(n / 10), [Digit(n % 10)], 0);
      assert [Digit(n % 10)][1..] == "";
    } else {
      assert [Digit(n)][1..] == "";
    }
  }

  /** Every 64-bit integer reads back as itself. */
  lemma ParseFormat(n: int)
    requires Fits(n)
    ensures ParseInt(FormatInt(n)) == (n, NoError)
  {
    if n < 0 {
      ScanDigits(-n);
      assert FormatInt(n)[1..] == Digits(-n);
    } else {
      ScanDigits(n);
    }
  }

  // ----- what a number denotes

  predicate AllDigits(s: string) {
    forall i :: 0 <= i < |s| ==> IsDigit(s[i])
  }

  function Value(s: string): nat
    requires AllDigits(s)
  {
    if s == "" then 0 else Value(s[..|s| - 1]) * 10 + (s[|s| - 1] as int - '0' as int)
  }

  function Unsigned(s: string): string {
    if s != "" && s[0] in {'-', '+'} then s[1..] else s
  }

  /** An optional sign, and digits. */
  predicate IsNumber(s: string) {
    Unsigned(s) != "" && AllDigits(Unsigned(s))
  }

  function Denotes(s: string): int
    requires IsNumber(s)
  {
    if s[0] == '-' then 0 - Value(Unsigned(s)) else Value(Unsigned(s))
  }

  lemma {:induction false} ScanStops(s: string, t: string, acc: nat)
    requires !Scan(s, acc).Number?
    ensures Scan(s + t, acc) == Scan(s, acc)
  {
    assert (s + t)[1..] == s[1..] + t;
    if IsDigit(s[0]) && acc * 10 + (s[0] as int - '0' as int) <= MAX_UINT {
      ScanStops(s[1..], t, acc * 10 + (s[0] as int - '0' as int));
    }
  }

  lemma {:induction false} ScanIs(s: string)
    ensures Scan(s, 0).Number? <==> AllDigits(s) && Value(s) <= MAX_UINT
    ensures Scan(s, 0).Number? ==> Scan(s, 0) == Number(Value(s))
    ensures Scan(s, 0).BadSyntax? ==> !AllDigits(s)
  {
    if s != "" {
      var p, last := s[..|s| - 1], s[|s| - 1..];
      assert s == p + last && last[1..] == "";
      ScanIs(p);
      if Scan(p, 0).Number? {
        ScanAppend(p, last, 0);
      } else {
        ScanStops(p, last, 0);
      }
    }
  }

  /** A string is parsed without error exactly when it denotes a 64-bit integer, and then as that integer. */
  lemma ParseIs(s: string)
    ensures ParseInt(s).1 == NoError <==> IsNumber(s) && Fits(Denotes(s))
    ensures ParseInt(s).1 == NoError ==> ParseInt(s).0 == Denotes(s)
  {
    ScanIs(Unsigned(s));
  }
}
