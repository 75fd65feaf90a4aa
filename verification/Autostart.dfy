/** The XDG autostart entry (ui/src-tauri/src/autostart.rs), read back the way
    sections 4 and 7 of the Desktop Entry Specification say it must be. */
module Autostart {
  import opened Text

  /** Unicode category Cc. */
  predicate IsControl(c: char) { c < ' ' || '\U{7f}' <= c <= '\U{9f}' }

  predicate Clean(arg: string) { forall i :: 0 <= i < |arg| ==> !IsControl(arg[i]) }

  const BACKSLASH: char := '\\'
  const QUOTE: char := '"'

  predicate NeedsEscape(c: char) { c == QUOTE || c == '$' || c == '`' }

  // ------------------------------------------------------------------ printing

  function QuoteChar(c: char): string
  {
    if c == BACKSLASH then [BACKSLASH, BACKSLASH, BACKSLASH, BACKSLASH]
    else if NeedsEscape(c) then [BACKSLASH, BACKSLASH, c]
    else if c == '%' then ['%', '%']
    else [c]
  }

  function QuoteChars(arg: string): string
  {
    if arg == "" then "" else QuoteChar(arg[0]) + QuoteChars(arg[1..])
  }

  /** exec_arg; None is the control-character error. */
  function Quoted(arg: string): string { [QUOTE] + QuoteChars(arg) + [QUOTE] }

  method ExecArg(arg: string) returns (quoted: Option<string>)
    ensures quoted == if Clean(arg) then Some(Quoted(arg)) else None
    ensures quoted.None? <==> exists i :: 0 <= i < |arg| && (arg[i] as int < 32 || 127 <= arg[i] as int < 160)
  {
    for i := 0 to |arg|
      invariant forall j :: 0 <= j < i ==> !IsControl(arg[j])
    {
      if IsControl(arg[i]) { return None; }
    }
    var text := [QUOTE];
    for i := 0 to |arg|
      invariant text + QuoteChars(arg[i..]) == [QUOTE] + QuoteChars(arg)
    {
      var c := arg[i];
      assert arg[i..][1..] == arg[i + 1..];
      assert text + (QuoteChar(c) + QuoteChars(arg[i + 1..])) == text + QuoteChar(c) + QuoteChars(arg[i + 1..]);
      if c == BACKSLASH {
        text := text + [BACKSLASH, BACKSLASH, BACKSLASH, BACKSLASH];
      } else if NeedsEscape(c) {
        text := text + [BACKSLASH, BACKSLASH];
        text := text + [c];
      } else if c == '%' {
        text := text + ['%', '%'];
      } else {
        text := text + [c];
      }
    }
    assert text + "" == text;
    text := text + [QUOTE];
    quoted := Some(text);
  }

  function Join(words: seq<string>): string
  {
    if words == [] then ""
    else if |words| == 1 then words[0]
    else words[0] + [' '] + Join(words[1..])
  }

  function QuotedAll(args: seq<string>): (q: seq<string>)
    ensures |q| == |args|
  {
    if args == [] then [] else [Quoted(args[0])] + QuotedAll(args[1..])
  }

  function EnvPrefix(exe: string): seq<string> { if '%' in exe then ["/usr/bin/env", "--"] else [] }

  /** The words of the Exec value. */
  function Command(exe: string, args: seq<string>): seq<string>
  {
    EnvPrefix(exe) + [Quoted(exe)] + QuotedAll(args) + ["--tray"]
  }

  function ExecValue(exe: string, args: seq<string>): string { Join(Command(exe, args)) }

  ghost predicate AllClean(args: seq<string>) { forall i :: 0 <= i < |args| ==> Clean(args[i]) }

  /** desktop_entry's Exec value; the executable checks are the caller's. */
  method DesktopExec(exe: string, args: seq<string>) returns (value: Option<string>)
    ensures Clean(exe) && AllClean(args) ==> value == Some(ExecValue(exe, args))
    ensures !(Clean(exe) && AllClean(args)) ==> value == None
  {
    var command := EnvPrefix(exe);
    var quoted := ExecArg(exe);
    if quoted.None? { return None; }
    command := command + [quoted.value];
    ghost var head := command;
    for i := 0 to |args|
      invariant forall j :: 0 <= j < i ==> Clean(args[j])
      invariant command + QuotedAll(args[i..]) == head + QuotedAll(args)
    {
      quoted := ExecArg(args[i]);
      if quoted.None? { return None; }
      assert args[i..][1..] == args[i + 1..];
      assert command + ([quoted.value] + QuotedAll(args[i + 1..])) == command + [quoted.value]
        + QuotedAll(args[i + 1..]);
      command := command + [quoted.value];
    }
    assert command + [] == command;
    command := command + ["--tray"];
    assert command == Command(exe, args);
    value := Some(Join(command));
  }

  // ------------------------------------------------------------------- reading

  /** Section 4: the escapes of a value of type string. */
  function Unescape(s: string): Option<string>
  {
    if s == "" then Some("")
    else if s[0] != BACKSLASH then Cons(s[0], Unescape(s[1..]))
    else if |s| == 1 then None
    else match s[1]
         case 's' => Cons(' ', Unescape(s[2..]))
         case 'n' => Cons('\n', Unescape(s[2..]))
         case 't' => Cons('\t', Unescape(s[2..]))
         case 'r' => Cons('\r', Unescape(s[2..]))
         case '\\' => Cons(BACKSLASH, Unescape(s[2..]))
         case _ => None
  }

  function Cons(c: char, rest: Option<string>): Option<string>
  {
    match rest case None => None case Some(t) => Some([c] + t)
  }

  datatype Scan = Scan(arg: string, rest: string)

  /** Section 7: the inside of a quoted argument up to its closing quote, with
      the four escaped characters undone. */
  function Unquote(s: string): Option<Scan>
  {
    if s == "" then None
    else if s[0] == QUOTE then Some(Scan("", s[1..]))
    else if s[0] == BACKSLASH then
      if |s| == 1 || !(NeedsEscape(s[1]) || s[1] == BACKSLASH) then None
      else Push(s[1], Unquote(s[2..]))
    else if NeedsEscape(s[0]) then None
    else Push(s[0], Unquote(s[1..]))
  }

  function Push(c: char, r: Option<Scan>): Option<Scan>
  {
    match r case None => None case Some(x) => Some(Scan([c] + x.arg, x.rest))
  }

  predicate IsReserved(c: char)
  {
    c == QUOTE || c == '\'' || c == BACKSLASH || c == '>' || c == '<' || c == '~' || c == '|' || c == '&' || c == ';'
    || c == '$' || c == '*' || c == '?' || c == '#' || c == '(' || c == ')' || c == '`' || c == '\t' || c == '\n'
  }

  predicate PlainChar(c: char) { c != ' ' && !IsReserved(c) }

  /** Section 7: arguments separated by spaces, each quoted in whole or plain. */
  function Tokenize(s: string): Option<seq<string>>
    decreases |s|
  {
    if s == "" then Some([])
    else if s[0] == ' ' then Tokenize(s[1..])
    else if s[0] == QUOTE then
      match Unquote(s[1..])
      case None => None
      case Some(x) =>
        if |x.rest| < |s| && (x.rest == "" || x.rest[0] == ' ') then Word(x.arg, Tokenize(x.rest)) else None
    else
      var n := Span(s, PlainChar);
      if n > 0 && (n == |s| || s[n] == ' ') then Word(s[..n], Tokenize(s[n..])) else None
  }

  function Word(w: string, rest: Option<seq<string>>): Option<seq<string>>
  {
    match rest case None => None case Some(t) => Some([w] + t)
  }

  /** Section 7: `%%` is a literal percent sign; any other field code is refused
      here, since the entry carries none. */
  function Expand(s: string): Option<string>
  {
    if s == "" then Some("")
    else if s[0] != '%' then Cons(s[0], Expand(s[1..]))
    else if |s| >= 2 && s[1] == '%' then Cons('%', Expand(s[2..]))
    else None
  }

  function ExpandAll(words: seq<string>): Option<seq<string>>
  {
    if words == [] then Some([])
    else match Expand(words[0]) case None => None case Some(w) => Word(w, ExpandAll(words[1..]))
  }

  /** The argument vector a launcher obtains from an Exec value. */
  function Launch(value: string): Option<seq<string>>
  {
    match Unescape(value)
    case None => None
    case Some(text) =>
      match Tokenize(text)
      case None => None
      case Some(words) => ExpandAll(words)
  }

  // --------------------------------------------------------- stage by stage

  /** An argument's characters after the string escapes are undone. */
  function HalfChar(c: char): string
  {
    if c == BACKSLASH || NeedsEscape(c) then [BACKSLASH, c]
    else if c == '%' then ['%', '%']
    else [c]
  }

  function HalfChars(arg: string): string
  {
    if arg == "" then "" else HalfChar(arg[0]) + HalfChars(arg[1..])
  }

  function Half(arg: string): string { [QUOTE] + HalfChars(arg) + [QUOTE] }

  function DoubledPercents(arg: string): string
  {
    if arg == "" then "" else (if arg[0] == '%' then ['%', '%'] else [arg[0]]) + DoubledPercents(arg[1..])
  }

  function Append(done: string, rest: Option<string>): Option<string>
  {
    match rest case None => None case Some(t) => Some(done + t)
  }

  lemma AppendCons(c: char, w: string, rest: Option<string>)
    ensures Cons(c, Append(w, rest)) == Append([c] + w, rest)
  {
    if rest.Some? { assert [c] + (w + rest.value) == [c] + w + rest.value; }
  }

  lemma AppendAppend(a: string, b: string, rest: Option<string>)
    ensures Append(a, Append(b, rest)) == Append(a + b, rest)
  {
    if rest.Some? { assert a + (b + rest.value) == a + b + rest.value; }
  }

  lemma {:induction false} UnescapeChar(c: char, rest: string)
    ensures Unescape(QuoteChar(c) + rest) == Append(HalfChar(c), Unescape(rest))
  {
    var s := QuoteChar(c) + rest;
    if c == BACKSLASH {
      assert s[2..] == [BACKSLASH, BACKSLASH] + rest;
      assert s[2..][2..] == rest;
      assert Unescape(s[2..]) == Append([BACKSLASH], Unescape(rest));
      AppendCons(BACKSLASH, [BACKSLASH], Unescape(rest));
      assert [BACKSLASH] + [BACKSLASH] == HalfChar(c);
    } else if NeedsEscape(c) {
      assert s[2..] == [c] + rest;
      assert s[2..][1..] == rest;
      assert Unescape(s[2..]) == Append([c], Unescape(rest));
      AppendCons(BACKSLASH, [c], Unescape(rest));
      assert [BACKSLASH] + [c] == HalfChar(c);
    } else if c == '%' {
      assert s[1..] == ['%'] + rest;
      assert s[1..][1..] == rest;
      assert Unescape(s[1..]) == Append(['%'], Unescape(rest));
      AppendCons('%', ['%'], Unescape(rest));
      assert ['%'] + ['%'] == HalfChar(c);
    } else {
      assert s[1..] == rest;
    }
  }

  lemma {:induction false} UnescapeChars(arg: string, rest: string)
    ensures Unescape(QuoteChars(arg) + rest) == Append(HalfChars(arg), Unescape(rest))
  {
    hide Unescape;
    if arg == "" {
      assert QuoteChars(arg) + rest == rest;
      assert Unescape(rest).Some? ==> "" + Unescape(rest).value == Unescape(rest).value;
    } else {
      var more := QuoteChars(arg[1..]) + rest;
      assert QuoteChars(arg) + rest == QuoteChar(arg[0]) + more;
      UnescapeChar(arg[0], more);
      UnescapeChars(arg[1..], rest);
      AppendAppend(HalfChar(arg[0]), HalfChars(arg[1..]), Unescape(rest));
    }
  }

  lemma {:induction false} UnescapePlainChar(c: char, rest: string)
    requires c != BACKSLASH
    ensures Unescape([c] + rest) == Append([c], Unescape(rest))
  {
    assert ([c] + rest)[1..] == rest;
  }

  lemma {:induction false} UnescapeQuoted(arg: string, rest: string)
    ensures Unescape(Quoted(arg) + rest) == Append(Half(arg), Unescape(rest))
  {
    hide Unescape;
    var tail := [QUOTE] + rest;
    assert Quoted(arg) + rest == [QUOTE] + (QuoteChars(arg) + tail);
    UnescapePlainChar(QUOTE, QuoteChars(arg) + tail);
    UnescapeChars(arg, tail);
    UnescapePlainChar(QUOTE, rest);
    AppendAppend(HalfChars(arg), [QUOTE], Unescape(rest));
    AppendAppend([QUOTE], HalfChars(arg) + [QUOTE], Unescape(rest));
    assert [QUOTE] + (HalfChars(arg) + [QUOTE]) == Half(arg);
  }

  lemma {:induction false} UnescapeText(w: string, rest: string)
    requires BACKSLASH !in w
    ensures Unescape(w + rest) == Append(w, Unescape(rest))
  {
    hide Unescape;
    if w == "" {
      assert w + rest == rest;
      assert Unescape(rest).Some? ==> "" + Unescape(rest).value == Unescape(rest).value;
    } else {
      assert w + rest == [w[0]] + (w[1..] + rest);
      UnescapePlainChar(w[0], w[1..] + rest);
      UnescapeText(w[1..], rest);
      AppendAppend([w[0]], w[1..], Unescape(rest));
      assert [w[0]] + w[1..] == w;
    }
  }

  function PushAll(done: string, r: Option<Scan>): Option<Scan>
  {
    match r case None => None case Some(x) => Some(Scan(done + x.arg, x.rest))
  }

  lemma {:induction false} UnquoteChar(c: char, rest: string)
    ensures Unquote(HalfChar(c) + rest) == PushAll(if c == '%' then ['%', '%'] else [c], Unquote(rest))
  {
    var s := HalfChar(c) + rest;
    if c == BACKSLASH || NeedsEscape(c) {
      assert s[2..] == rest;
    } else if c == '%' {
      assert s[1..] == ['%'] + rest;
      assert s[1..][1..] == rest;
      if Unquote(rest).Some? {
        assert ['%'] + (['%'] + Unquote(rest).value.arg) == ['%', '%'] + Unquote(rest).value.arg;
      }
    } else {
      assert s[1..] == rest;
    }
  }

  lemma {:induction false} UnquoteHalf(arg: string, rest: string)
    ensures Unquote(HalfChars(arg) + ([QUOTE] + rest)) == Some(Scan(DoubledPercents(arg), rest))
  {
    if arg == "" {
      assert HalfChars(arg) + ([QUOTE] + rest) == [QUOTE] + rest;
      assert ([QUOTE] + rest)[1..] == rest;
    } else {
      hide Unquote;
      var more := HalfChars(arg[1..]) + ([QUOTE] + rest);
      assert HalfChars(arg) + ([QUOTE] + rest) == HalfChar(arg[0]) + more;
      UnquoteChar(arg[0], more);
      UnquoteHalf(arg[1..], rest);
    }
  }

  lemma {:induction false} TokenizeHalf(arg: string, rest: string)
    requires rest == "" || rest[0] == ' '
    ensures Tokenize(Half(arg) + rest) == Word(DoubledPercents(arg), Tokenize(rest))
  {
    hide Unquote;
    var s := Half(arg) + rest;
    assert s[1..] == HalfChars(arg) + ([QUOTE] + rest);
    UnquoteHalf(arg, rest);
  }

  lemma {:induction false} TokenizePlain(w: string, rest: string)
    requires w != "" && (rest == "" || rest[0] == ' ')
    requires forall i :: 0 <= i < |w| ==> PlainChar(w[i])
    ensures Tokenize(w + rest) == Word(w, Tokenize(rest))
  {
    var s := w + rest;
    SpanUnique(s, PlainChar, |w|);
    assert s[..|w|] == w && s[|w|..] == rest;
    assert s[0] == w[0];
  }

  lemma {:induction false} ExpandDoubled(arg: string)
    ensures Expand(DoubledPercents(arg)) == Some(arg)
  {
    if arg != "" {
      ExpandDoubled(arg[1..]);
      var d := DoubledPercents(arg[1..]);
      assert (['%', '%'] + d)[2..] == d && ([arg[0]] + d)[1..] == d;
      assert [arg[0]] + arg[1..] == arg;
    }
  }

  // ----------------------------------------------------------- whole command

  /** The unescaped command line from argument `exe :: args` on. */
  function HalfLine(args: seq<string>): string
  {
    if args == [] then "--tray" else Half(args[0]) + ([' '] + HalfLine(args[1..]))
  }

  function DoubledAll(args: seq<string>): (d: seq<string>)
    ensures |d| == |args|
  {
    if args == [] then [] else [DoubledPercents(args[0])] + DoubledAll(args[1..])
  }

  lemma {:induction false} JoinStep(w: string, rest: seq<string>)
    requires rest != []
    ensures Join([w] + rest) == w + ([' '] + Join(rest))
  {
    assert ([w] + rest)[1..] == rest;
    assert w + [' '] + Join(rest) == w + ([' '] + Join(rest));
  }

  lemma {:induction false} UnescapeLine(args: seq<string>)
    ensures Unescape(Join(QuotedAll(args) + ["--tray"])) == Some(HalfLine(args))
  {
    hide Unescape, Quoted, Half;
    if args == [] {
      assert QuotedAll(args) + ["--tray"] == ["--tray"];
      UnescapeEnd("--tray");
    } else {
      var rest := QuotedAll(args[1..]) + ["--tray"];
      assert QuotedAll(args) + ["--tray"] == [Quoted(args[0])] + rest;
      JoinStep(Quoted(args[0]), rest);
      UnescapeQuoted(args[0], [' '] + Join(rest));
      UnescapePlainChar(' ', Join(rest));
      UnescapeLine(args[1..]);
    }
  }

  lemma {:induction false} UnescapeEnd(w: string)
    requires BACKSLASH !in w
    ensures Unescape(w) == Some(w)
  {
    UnescapeText(w, "");
    assert w + "" == w;
  }

  lemma {:induction false} TokenizeSpace(s: string)
    ensures Tokenize([' '] + s) == Tokenize(s)
  {
    assert ([' '] + s)[1..] == s;
  }

  lemma {:induction false} TokenizeLine(args: seq<string>)
    ensures Tokenize(HalfLine(args)) == Some(DoubledAll(args) + ["--tray"])
  {
    if args == [] {
      var t := "--tray";
      TokenizePlain(t, "");
      assert t + "" == t;
      assert [t] + [] == [] + [t];
    } else {
      hide Tokenize, Half;
      var rest := HalfLine(args[1..]);
      TokenizeHalf(args[0], [' '] + rest);
      TokenizeSpace(rest);
      TokenizeLine(args[1..]);
      assert [DoubledPercents(args[0])] + (DoubledAll(args[1..]) + ["--tray"]) == DoubledAll(args) + ["--tray"];
    }
  }

  lemma {:induction false} ExpandLine(args: seq<string>)
    ensures ExpandAll(DoubledAll(args) + ["--tray"]) == Some(args + ["--tray"])
  {
    var words := DoubledAll(args) + ["--tray"];
    if args == [] {
      ExpandPlain("--tray");
      assert words == ["--tray"] && words[1..] == [];
      assert ["--tray"] + [] == args + ["--tray"];
    } else {
      hide Expand;
      assert words[1..] == DoubledAll(args[1..]) + ["--tray"];
      ExpandDoubled(args[0]);
      ExpandLine(args[1..]);
      assert [args[0]] + (args[1..] + ["--tray"]) == args + ["--tray"];
    }
  }

  lemma {:induction false} ExpandPlain(w: string)
    requires '%' !in w
    ensures Expand(w) == Some(w)
  {
    if w != "" {
      ExpandPlain(w[1..]);
      assert [w[0]] + w[1..] == w;
    }
  }

  lemma {:induction false} LaunchQuoted(args: seq<string>)
    ensures Launch(Join(QuotedAll(args) + ["--tray"])) == Some(args + ["--tray"])
  {
    hide Unescape, Tokenize, ExpandAll;
    UnescapeLine(args);
    TokenizeLine(args);
    ExpandLine(args);
  }

  lemma PlainEnv()
    ensures forall c :: c in "/usr/bin/env" || c in "--" ==> PlainChar(c) && c != BACKSLASH && c != '%'
  {
  }

  lemma LaunchPlainWord(w: string, value: string, argv: seq<string>)
    requires w != "" && forall i :: 0 <= i < |w| ==> PlainChar(w[i]) && w[i] != '%'
    requires Launch(value) == Some(argv)
    ensures Launch(w + ([' '] + value)) == Some([w] + argv)
  {
    hide Unescape, Tokenize;
    var text := Unescape(value).value;
    UnescapeText(w, [' '] + value);
    UnescapePlainChar(' ', value);
    assert Unescape(w + ([' '] + value)) == Some(w + ([' '] + text));
    TokenizePlain(w, [' '] + text);
    TokenizeSpace(text);
    var words := Tokenize(text).value;
    ExpandPlain(w);
    assert ([w] + words)[1..] == words;
  }

  /** For every executable path and argument list without control characters, a
      launcher reading the generated Exec value starts exactly that command with
      --tray added, through env when the path holds a percent sign. */
  lemma ExecRoundTrip(exe: string, args: seq<string>)
    ensures Launch(ExecValue(exe, args))
         == Some((if '%' in exe then ["/usr/bin/env", "--"] else []) + [exe] + args + ["--tray"])
  {
    hide Launch, Quoted;
    var all := [exe] + args;
    var tail := [Quoted(exe)] + QuotedAll(args) + ["--tray"];
    assert all[1..] == args;
    assert tail == QuotedAll(all) + ["--tray"];
    LaunchQuoted(all);
    assert all + ["--tray"] == [exe] + args + ["--tray"];
    if '%' in exe {
      PlainEnv();
      var argv := all + ["--tray"];
      JoinStep("--", tail);
      LaunchPlainWord("--", Join(tail), argv);
      JoinStep("/usr/bin/env", ["--"] + tail);
      LaunchPlainWord("/usr/bin/env", Join(["--"] + tail), ["--"] + argv);
      assert Command(exe, args) == ["/usr/bin/env"] + (["--"] + tail);
      assert ["/usr/bin/env"] + (["--"] + argv) == EnvPrefix(exe) + [exe] + args + ["--tray"];
    } else {
      assert Command(exe, args) == tail;
      assert [] + [exe] + args + ["--tray"] == all + ["--tray"];
    }
  }

  lemma {:induction false} QuotedIsClean(arg: string)
    requires Clean(arg)
    ensures Clean(QuoteChars(arg))
  {
    if arg != "" {
      QuotedIsClean(arg[1..]);
    }
  }

  lemma {:induction false} JoinIsClean(words: seq<string>)
    requires AllClean(words)
    ensures Clean(Join(words))
  {
    if |words| > 1 {
      JoinIsClean(words[1..]);
    }
  }

  lemma {:induction false} QuotedAllClean(args: seq<string>)
    requires AllClean(args)
    ensures AllClean(QuotedAll(args))
  {
    if args != [] {
      QuotedIsClean(args[0]);
      QuotedAllClean(args[1..]);
    }
  }

  /** An accepted command stays on one line of the entry: the value it produces
      holds no newline and no other control character. */
  lemma ExecValueIsOneLine(exe: string, args: seq<string>)
    requires Clean(exe) && AllClean(args)
    ensures Clean(ExecValue(exe, args)) && '\n' !in ExecValue(exe, args)
  {
    hide Join, QuoteChars;
    QuotedIsClean(exe);
    QuotedAllClean(args);
    assert Clean("/usr/bin/env") && Clean("--") && Clean("--tray");
    JoinIsClean(Command(exe, args));
  }
}
