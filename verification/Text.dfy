/** Character-level scanning used by both ends of the sysfs text interfaces. */
module Text {
  import opened Arith

  datatype Option<+T> = None | Some(value: T)

  predicate IsDigit(c: char) { '0' <= c <= '9' }

  predicate IsSpace(c: char) { c == ' ' || '\t' <= c <= '\r' }

  predicate NotSpace(c: char) { !IsSpace(c) }

  predicate IsBlank(c: char) { c == ' ' || c == '\t' }

  /** Length of the longest prefix of s whose characters satisfy p. */
  function Span(s: string, p: char -> bool): (n: nat)
    ensures n <= |s|
    ensures forall i :: 0 <= i < n ==> p(s[i])
    ensures n < |s| ==> !p(s[n])
  {
    if s != "" && p(s[0]) then 1 + Span(s[1..], p) else 0
  }

  lemma {:induction false} SpanUnique(s: string, p: char -> bool, n: nat)
    requires n <= |s|
    requires forall i :: 0 <= i < n ==> p(s[i])
    requires n < |s| ==> !p(s[n])
    ensures Span(s, p) == n
  {
  }

  /** s.split(c): pieces between separators, always at least one. */
  function Split(s: string, c: char): (pieces: seq<string>)
    ensures pieces != []
  {
    if s == "" then [""]
    else
      var rest := Split(s[1..], c);
      if s[0] == c then [""] + rest else [[s[0]] + rest[0]] + rest[1..]
  }

  lemma {:induction false} SplitPlain(w: string, c: char)
    requires c !in w
    ensures Split(w, c) == [w]
  {
    if w != "" {
      SplitPlain(w[1..], c);
      assert [w[0]] + w[1..] == w;
    }
  }

  lemma {:induction false} SplitStep(w: string, c: char, rest: string)
    requires c !in w
    ensures Split(w + [c] + rest, c) == [w] + Split(rest, c)
  {
    var s := w + [c] + rest;
    if w == "" {
      assert s[1..] == rest;
    } else {
      assert s[1..] == w[1..] + [c] + rest;
      SplitStep(w[1..], c, rest);
      assert [s[0]] + w[1..] == w;
    }
  }

  /** Rust's split_whitespace. */
  function Words(s: string): seq<string>
    decreases |s|
  {
    var blank := Span(s, IsSpace);
    var t := s[blank..];
    var n := Span(t, NotSpace);
    if t == "" then [] else [t[..n]] + Words(t[n..])
  }

  ghost predicate IsWord(w: string) { w != "" && forall i :: 0 <= i < |w| ==> !IsSpace(w[i]) }

  lemma {:induction false} WordsFirst(w: string, rest: string)
    requires IsWord(w) && (rest == "" || IsSpace(rest[0]))
    ensures Words(w + rest) == [w] + Words(rest)
  {
    var s := w + rest;
    SpanUnique(s, IsSpace, 0);
    SpanUnique(s, NotSpace, |w|);
    hide Span, IsSpace;
    assert s[0..] == s;
    assert s[..|w|] == w && s[|w|..] == rest;
  }

  lemma {:induction false} WordsSkip(s: string)
    requires s != "" && !IsSpace(s[0])
    ensures Words([' '] + s) == Words(s)
  {
    var s' := [' '] + s;
    SpanUnique(s', IsSpace, 1);
    SpanUnique(s, IsSpace, 0);
    hide Span, IsSpace;
    assert s'[1..] == s && s[0..] == s;
  }

  lemma {:induction false} WordsStep(w: string, rest: string)
    requires IsWord(w) && (rest == "" || IsSpace(rest[0]))
    ensures Words(w + rest) == [w] + Words(rest)
    ensures Words([' '] + w + rest) == [w] + Words(rest)
  {
    hide Words;
    WordsFirst(w, rest);
    WordsSkip(w + rest);
    assert [' '] + w + rest == [' '] + (w + rest);
  }

  function TrimEnd(s: string): string
  {
    if s != "" && IsSpace(s[|s| - 1]) then TrimEnd(s[..|s| - 1]) else s
  }

  function Trim(s: string): string { TrimEnd(s[Span(s, IsSpace)..]) }

  lemma {:induction false} TrimOneNewline(s: string)
    requires s != "" && !IsSpace(s[0]) && !IsSpace(s[|s| - 1])
    ensures TrimEnd(s + ['\n']) == s
    ensures Trim(s + ['\n']) == s
  {
    var t := s + ['\n'];
    assert t[..|t| - 1] == s;
    SpanUnique(t, IsSpace, 0);
    assert t[0..] == t;
  }

  function StripCr(s: string): string
  {
    if s != "" && s[|s| - 1] == '\r' then s[..|s| - 1] else s
  }

  // ---------------------------------------------------------------- decimals

  /** `%u` and `{}`. */
  function PrintDec(n: nat): (s: string)
    ensures s != "" && forall i :: 0 <= i < |s| ==> IsDigit(s[i])
  {
    if n < 10 then ['0' + n as char] else PrintDec(n / 10) + ['0' + (n % 10) as char]
  }

  function DigitValue(c: char): nat
    requires IsDigit(c)
  {
    c as nat - '0' as nat
  }

  function DigitsValue(s: string): nat
    requires forall i :: 0 <= i < |s| ==> IsDigit(s[i])
  {
    if s == "" then 0
    else 10 * DigitsValue(s[..|s| - 1]) + DigitValue(s[|s| - 1])
  }

  lemma {:induction false} DecimalRoundTrip(n: nat)
    ensures DigitsValue(PrintDec(n)) == n
  {
    var s := PrintDec(n);
    if n >= 10 {
      DecimalRoundTrip(n / 10);
      assert s[..|s| - 1] == PrintDec(n / 10);
    } else {
      assert s[..|s| - 1] == "";
    }
  }

  /** Rust's str::parse for an unsigned type: an optional '+', then digits. */
  function ParseUnsigned(s: string, limit: nat): (r: Option<nat>)
    ensures r.Some? ==> r.value < limit
  {
    var d := if s != "" && s[0] == '+' then s[1..] else s;
    if d != "" && Span(d, IsDigit) == |d| && DigitsValue(d) < limit
    then Some(DigitsValue(d)) else None
  }

  /** And nothing but digits. */
  lemma OnlyDigitsParse(s: string, limit: nat)
    ensures ParseUnsigned(s, limit).Some? ==>
              s != "" && s != "+" && forall i :: 0 <= i < |s| ==> IsDigit(s[i]) || (i == 0 && s[0] == '+')
  {
  }

  function ParseU8(s: string): Option<byte> { ParseUnsigned(s, 256) }

  /** Exactly the numbers below the limit are read, with a plus sign or without. */
  lemma {:induction false} ParsePrintUnsigned(n: nat, limit: nat)
    ensures ParseUnsigned(PrintDec(n), limit) == if n < limit then Some(n) else None
    ensures ParseUnsigned("+" + PrintDec(n), limit) == if n < limit then Some(n) else None
  {
    DecimalRoundTrip(n);
    assert ("+" + PrintDec(n))[1..] == PrintDec(n);
    SpanUnique(PrintDec(n), IsDigit, |PrintDec(n)|);
    assert IsDigit(PrintDec(n)[0]);
  }

  lemma {:induction false} ParsePrintU8(b: byte)
    ensures ParseU8(PrintDec(b)) == Some(b)
  {
    ParsePrintUnsigned(b, 256);
  }
}
