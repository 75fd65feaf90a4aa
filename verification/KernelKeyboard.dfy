/** The keyboard channel of the driver (kernel/clevo-cc/clevo-cc.c): what it sends
    the firmware, and what it caches. */
module KernelKeyboard {
  import opened Arith
  import opened Text

  type Rgb = s: seq<byte> | |s| == 3 witness [0, 0, 0]

  const RAW_MAX: nat := 191
  const FADE_STEPS: nat := 24

  function PercentRaw(p: byte): (raw: byte)
    requires p <= 100
    ensures raw == Scale(p, 100, RAW_MAX) && raw <= RAW_MAX
  {
    (p * 191 + 50) / 100
  }

  function RawPercent(raw: byte): (p: byte)
    ensures p == Scale(raw, RAW_MAX, 100) && (raw <= RAW_MAX ==> p <= 100)
  {
    (raw * 100 + 95) / 191
  }

  /** Both are to nearest, halves up. */
  lemma LevelIsNearest(p: byte)
    requires p <= 100
    ensures Nearest(191 * p, 100, PercentRaw(p))
  {
    DivBounds(p * 191 + 50, 100);
  }

  lemma ReportIsNearest(raw: byte)
    ensures Nearest(100 * raw, 191, RawPercent(raw))
  {
    DivBounds(raw * 100 + 95, 191);
  }

  // ------------------------------------------------------------ command words

  const POWER_ON := 0xE0071007
  const POWER_OFF := 0xE0000007

  /** Selector, blue, red, green; one colour is replaced by the vendor's entry. */
  function ColorWord(selector: byte, c: Rgb): nat
  {
    var red: int, green: int, blue: int := c[0], c[1], c[2];
    selector * 0x1000000 + (if c == [0, 255, 127] then 0x460000 else blue * 0x10000) + red * 0x100 + green
  }

  function LevelWord(raw: byte): nat { 0xF4000000 + raw }

  function PowerWord(on: bool): nat { if on then POWER_ON else POWER_OFF }

  /** Command 103 with a word, or command 121/24 stopping the sleep timer. */
  datatype Command = Word(word: nat) | StopTimer

  /** What the acknowledged words have asked of the one physical channel. */
  datatype Panel = Panel(on: bool, level: byte, shown: Rgb)

  function Obey(p: Panel, c: Command): Panel
  {
    match c
    case StopTimer => p
    case Word(w) =>
      if w == POWER_ON then p.(on := true)
      else if w == POWER_OFF then p.(on := false)
      else if w / 0x1000000 == 0xF4 then p.(level := w % 0x100)
      else if w / 0x1000000 == 0xF0 then p.(shown := [w / 0x100 % 0x100, w % 0x100, w / 0x10000 % 0x100])
      else p
  }

  function ObeyAll(p: Panel, cmds: seq<Command>): Panel
    decreases |cmds|
  {
    if cmds == [] then p else ObeyAll(Obey(p, cmds[0]), cmds[1..])
  }

  /** The colour the channel shows for a requested one. */
  function Palette(c: Rgb): Rgb { if c == [0, 255, 127] then [0, 255, 70] else c }

  // --------------------------------------------------------------------- fade

  /** One component at one step; C division truncates toward zero. */
  function FadeByte(from: byte, target: byte, step: nat): (b: byte)
    requires step <= FADE_STEPS
  {
    FadeBetween(from, target, step);
    from + TruncDiv((target - from) * step, 24)
  }

  function FadeColor(from: Rgb, target: Rgb, step: nat): Rgb
    requires step <= FADE_STEPS
  {
    [FadeByte(from[0], target[0], step), FadeByte(from[1], target[1], step), FadeByte(from[2], target[2], step)]
  }

  function Color(c: Rgb): Command { Word(ColorWord(0xF0, c)) }

  /** The words of steps `step`..24. */
  function FadeWords(from: Rgb, target: Rgb, step: nat): seq<Command>
    requires 1 <= step <= FADE_STEPS + 1
    decreases FADE_STEPS + 1 - step
  {
    if step > FADE_STEPS then [] else [Color(FadeColor(from, target, step))] + FadeWords(from, target, step + 1)
  }

  // --------------------------------------------------------- requests and cache

  datatype Mode = Unknown | Off | Static

  datatype Cache = Cache(color: seq<Rgb>, known: seq<bool>, percent: byte, raw: byte, led: byte, mode: Mode)

  /** After probe. */
  const INITIAL := Cache([[0, 0, 0], [0, 0, 0], [0, 0, 0]], [false, false, false], 100, 191, 191, Unknown)

  /** LED-class writes and the keyboard_rgb operations; left, middle and right are
      spellings of `Paint`. */
  datatype Request =
    | LedSet(led: nat)
    | ModeOff
    | ModeStatic
    | Brightness(percent: nat)
    | RawBrightness(raw: nat)
    | Paint(color: Rgb)
    | Probe(zone: nat, color: Rgb)

  function Dark(): seq<Command> { [Word(LevelWord(0)), Word(PowerWord(false)), StopTimer] }

  function Lit(raw: byte): seq<Command> { [Word(PowerWord(true)), Word(LevelWord(raw)), StopTimer] }

  /** The commands a request asks for; None: rejected before any. */
  function Commands(c: Cache, r: Request): Option<seq<Command>>
    requires Shaped(c)
  {
    match r
    case LedSet(b) => if b > RAW_MAX then None else Some(if b == 0 then Dark() else Lit(b))
    case ModeOff => Some(Dark())
    case ModeStatic =>
      Some([Word(PowerWord(true)), Word(LevelWord(c.raw))] + (if c.known[0] then [Color(c.color[0])] else [])
           + [StopTimer])
    case Brightness(p) =>
      if p > 100 then None
      else Some([Word(LevelWord(PercentRaw(p))), if p == 0 then Word(PowerWord(false)) else StopTimer])
    case RawBrightness(raw) => if raw > 255 then None else Some(Lit(raw))
    case Paint(x) => Some((if c.known[0] then FadeWords(c.color[0], x, 1) else [Color(x)]) + [StopTimer])
    case Probe(z, x) => if z >= 3 then None else Some([Word(ColorWord(0xF0 + z, x)), StopTimer])
  }

  /** What the cache becomes once they all succeed. */
  function Cached(c: Cache, r: Request): Cache
    requires Commands.requires(c, r) && Commands(c, r).Some?
  {
    match r
    case LedSet(b) => c.(raw := b, percent := RawPercent(b), led := b)
    case ModeOff => c.(mode := Off, led := 0)
    case ModeStatic => c.(mode := Static, led := c.raw)
    case Brightness(p) => c.(percent := p, raw := PercentRaw(p), led := PercentRaw(p))
    case Paint(x) => c.(color := [x, x, x], known := [true, true, true])
    case RawBrightness(_) => c
    case Probe(_, _) => c
  }

  predicate Shaped(c: Cache) { |c.color| == 3 && |c.known| == 3 }

  /** How the firmware treats one command; a failing one leaves any panel. */
  datatype Fault = Answers | Fails(after: Panel)

  datatype Channel = Channel(panel: Panel, script: seq<Fault>, sent: seq<Command>)

  datatype Sent = Sent(ok: bool, channel: Channel)

  function SendOne(h: Channel, c: Command): Sent
  {
    var rest := if h.script == [] then [] else h.script[1..];
    if h.script == [] || h.script[0].Answers? then Sent(true, Channel(Obey(h.panel, c), rest, h.sent + [c]))
    else Sent(false, Channel(h.script[0].after, rest, h.sent + [c]))
  }

  /** In order, up to the first failure. */
  function Send(h: Channel, cmds: seq<Command>): Sent
    decreases |cmds|
  {
    if cmds == [] then Sent(true, h)
    else
      var r := SendOne(h, cmds[0]);
      if r.ok then Send(r.channel, cmds[1..]) else r
  }

  datatype Done = Done(ok: bool, cache: Cache, channel: Channel)

  /** One request, whatever the firmware does. */
  function Handle(c: Cache, h: Channel, r: Request): (d: Done)
    requires Shaped(c)
    ensures Shaped(d.cache)
  {
    match Commands(c, r)
    case None => Done(false, c, h)
    case Some(cmds) =>
      var s := Send(h, cmds);
      Done(s.ok, if s.ok then Cached(c, r) else c, s.channel)
  }

  function Run(c: Cache, h: Channel, rs: seq<Request>): (d: Done)
    requires Shaped(c)
    ensures Shaped(d.cache)
    decreases |rs|
  {
    if rs == [] then Done(true, c, h)
    else
      var d := Handle(c, h, rs[0]);
      Run(d.cache, d.channel, rs[1..])
  }

  // -------------------------------------------------------------------- theorems

  lemma FadeBetween(from: byte, target: byte, step: nat)
    requires step <= FADE_STEPS
    ensures var b := from + TruncDiv((target - from) * step, 24);
            from <= b <= target || target <= b <= from
  {
    var delta := Abs(target - from);
    MulMono(step, 24, delta);
    assert Abs((target - from) * step) == delta * step;
  }

  /** Each step lies between the last one and the target, and step 24 is it. */
  lemma FadeApproaches(from: byte, target: byte, step: nat)
    requires step < FADE_STEPS
    ensures var b, next := FadeByte(from, target, step), FadeByte(from, target, step + 1);
            b <= next <= target || target <= next <= b
    ensures FadeByte(from, target, 0) == from && FadeByte(from, target, FADE_STEPS) == target
  {
    FadeBetween(from, target, step + 1);
    var delta: int, less: int := target - from, step;
    assert delta * (less + 1) == delta * less + delta;
    var x, y := delta * less, delta * (less + 1);
    assert delta >= 0 ==> 0 <= x <= y by { MulMono(0, delta, less); }
    assert delta <= 0 ==> y <= x <= 0 by { MulMono(delta, 0, less); }
  }

  /** And it is the linear interpolation, cut toward the start. */
  lemma FadeIsLinear(from: byte, target: byte, step: nat)
    requires step <= FADE_STEPS
    ensures var moved := Abs(FadeByte(from, target, step) - from);
            24 * moved <= step * Abs(target - from) < 24 * moved + 24
  {
    FadeBetween(from, target, step);
    var d: int := target - from;
    assert Abs(d * step) == step * Abs(d) by {
      if d >= 0 { MulMono(0, d, step); } else { MulMono(d, 0, step); }
      assert (-d) * step == -(d * step);
    }
  }

  /** Two colours are sent as one word only if they are one colour, or are the
      reserved palette entry and the colour standing in for it. */
  lemma ColorWordIff(selector: byte, c: Rgb, d: Rgb)
    ensures ColorWord(selector, c) == ColorWord(selector, d) <==> Palette(c) == Palette(d)
    ensures Palette(c) == Palette(d) <==> c == d || {c, d} == {[0, 255, 127], [0, 255, 70]}
  {
    WordDigits(selector, c);
    WordDigits(selector, d);
    assert Palette(c) == [Palette(c)[0], Palette(c)[1], Palette(c)[2]];
    assert Palette(d) == [Palette(d)[0], Palette(d)[1], Palette(d)[2]];
    if Palette(c) == Palette(d) && c != d {
      if c == [0, 255, 127] { assert d == [0, 255, 70]; } else { assert c == [0, 255, 70] && d == [0, 255, 127]; }
    }
  }

  lemma WordDigits(selector: byte, c: Rgb)
    ensures var w := ColorWord(selector, c);
            && w / 0x1000000 == selector && w / 0x100 % 0x100 == Palette(c)[0]
            && w % 0x100 == Palette(c)[1] && w / 0x10000 % 0x100 == Palette(c)[2]
  {
    var p := Palette(c);
    Digits(selector, p[2], p[0], p[1]);
  }

  lemma Digits(s: int, b: int, r: int, g: int)
    requires 0 <= b < 0x100 && 0 <= r < 0x100 && 0 <= g < 0x100
    ensures var w := s * 0x1000000 + b * 0x10000 + r * 0x100 + g;
            && w / 0x1000000 == s && w / 0x100 % 0x100 == r
            && w % 0x100 == g && w / 0x10000 % 0x100 == b
  {
    var w := s * 0x1000000 + b * 0x10000 + r * 0x100 + g;
    DivMod(w, 0x1000000, s, b * 0x10000 + r * 0x100 + g);
    DivMod(w, 0x10000, s * 0x100 + b, r * 0x100 + g);
    DivMod(w, 0x100, s * 0x10000 + b * 0x100 + r, g);
    DivMod(s * 0x10000 + b * 0x100 + r, 0x100, s * 0x100 + b, r);
    DivMod(s * 0x100 + b, 0x100, s, b);
  }

  lemma ObeyColor(p: Panel, selector: byte, c: Rgb)
    requires 0xF0 <= selector <= 0xF2
    ensures Obey(p, Word(ColorWord(selector, c))) == if selector == 0xF0 then p.(shown := Palette(c)) else p
  {
    WordDigits(selector, c);
    var x := Palette(c);
    assert x == [x[0], x[1], x[2]];
  }

  lemma ObeyLevel(p: Panel, raw: byte)
    ensures Obey(p, Word(LevelWord(raw))) == p.(level := raw)
  {
  }

  lemma {:induction false} SendOk(h: Channel, cmds: seq<Command>)
    ensures var s := Send(h, cmds);
            && (s.ok ==> s.channel.panel == ObeyAll(h.panel, cmds) && s.channel.sent == h.sent + cmds)
            && (h.script == [] ==> s.ok && s.channel.script == [])
    decreases |cmds|
  {
    hide Obey;
    if cmds != [] {
      var r := SendOne(h, cmds[0]);
      SendOk(r.channel, cmds[1..]);
      assert h.sent + [cmds[0]] + cmds[1..] == h.sent + cmds;
    } else {
      assert h.sent + cmds == h.sent;
    }
  }

  lemma {:induction false} SendSplit(h: Channel, a: seq<Command>, b: seq<Command>)
    ensures var s := Send(h, a);
            Send(h, a + b) == if s.ok then Send(s.channel, b) else s
    decreases |a|
  {
    if a == [] {
      assert a + b == b;
    } else {
      assert (a + b)[0] == a[0] && (a + b)[1..] == a[1..] + b;
      SendSplit(SendOne(h, a[0]).channel, a[1..], b);
    }
  }

  /** What the driver may rely on between any two requests. */
  predicate Coherent(c: Cache)
  {
    && Shaped(c) && c.raw <= RAW_MAX && c.percent == RawPercent(c.raw) && (c.led == 0 || c.led == c.raw)
    && c.color == [c.color[0], c.color[0], c.color[0]] && c.known == [c.known[0], c.known[0], c.known[0]]
  }

  lemma HandleKeepsCoherent(c: Cache, h: Channel, r: Request)
    requires Coherent(c)
    ensures var d := Handle(c, h, r);
            Coherent(d.cache) && (!d.ok ==> d.cache == c)
  {
    hide Send, FadeWords, ColorWord;
    if r.Brightness? && r.percent <= 100 {
      ScaleRoundTrip(r.percent, 100, RAW_MAX);
    }
  }

  /** Over every sequence of requests and every pattern of firmware failures. */
  lemma {:induction false} CacheStaysCoherent(c: Cache, h: Channel, rs: seq<Request>)
    requires Coherent(c)
    ensures Coherent(Run(c, h, rs).cache)
    decreases |rs|
  {
    hide Handle, Coherent;
    assert Shaped(c) by { CoherentIsShaped(c); }
    if rs != [] {
      HandleKeepsCoherent(c, h, rs[0]);
      var d := Handle(c, h, rs[0]);
      CacheStaysCoherent(d.cache, d.channel, rs[1..]);
    }
  }

  lemma CoherentIsShaped(c: Cache)
    requires Coherent(c)
    ensures Shaped(c)
  {
  }

  lemma ProbedIsCoherent()
    ensures Coherent(INITIAL) && INITIAL.raw == INITIAL.led == 191 && INITIAL.percent == 100 && INITIAL.mode == Unknown
  {
  }

  /** So from probe on. */
  lemma {:induction false} CoherentSinceProbe(h: Channel, rs: seq<Request>)
    ensures Shaped(INITIAL) && Coherent(Run(INITIAL, h, rs).cache)
  {
    ProbedIsCoherent();
    hide Run, Coherent;
    CacheStaysCoherent(INITIAL, h, rs);
  }

  /** The percentage that is reported, written back, moves the LED by at most one. */
  lemma ReportedPercentIsClose(raw: byte)
    requires raw <= RAW_MAX
    ensures Abs(PercentRaw(RawPercent(raw)) - raw) <= 1
  {
    var p: int := RawPercent(raw);
    DivBounds(raw * 100 + 95, 191);
    DivBounds(p * 191 + 50, 100);
  }

  /** The LED value tells what the channel was last asked to show. */
  predicate Truthful(c: Cache, p: Panel)
  {
    c.led == if p.on then p.level else 0
  }

  lemma {:induction false} ObeyColors(p: Panel, from: Rgb, target: Rgb, step: nat)
    requires 1 <= step <= FADE_STEPS
    ensures ObeyAll(p, FadeWords(from, target, step)) == p.(shown := Palette(target))
    decreases FADE_STEPS - step
  {
    hide Obey, Palette, ColorWord, FadeByte;
    var words := FadeWords(from, target, step);
    var c := FadeColor(from, target, step);
    ObeyColor(p, 0xF0, c);
    assert words[1..] == FadeWords(from, target, step + 1);
    if step < FADE_STEPS {
      ObeyColors(p.(shown := Palette(c)), from, target, step + 1);
    } else {
      FadeApproaches(from[0], target[0], 23);
      FadeApproaches(from[1], target[1], 23);
      FadeApproaches(from[2], target[2], 23);
      assert c == target;
    }
  }

  lemma {:induction false} ObeySplit(p: Panel, a: seq<Command>, b: seq<Command>)
    ensures ObeyAll(p, a + b) == ObeyAll(ObeyAll(p, a), b)
    decreases |a|
  {
    hide Obey;
    if a == [] {
      assert a + b == b;
    } else {
      assert (a + b)[0] == a[0] && (a + b)[1..] == a[1..] + b;
      ObeySplit(Obey(p, a[0]), a[1..], b);
    }
  }

  lemma {:induction false} ObeyTwo(p: Panel, a: Command, b: Command)
    ensures ObeyAll(p, [a]) == Obey(p, a)
    ensures ObeyAll(p, [a, b]) == Obey(Obey(p, a), b)
  {
    hide Obey;
    assert [a, b][1..] == [b] && [a][1..] == [];
    assert ObeyAll(Obey(p, a), [b]) == ObeyAll(Obey(Obey(p, a), b), []);
  }

  lemma {:induction false} ObeyDark(p: Panel)
    ensures ObeyAll(p, Dark()) == p.(level := 0, on := false)
  {
    var off, dim := Word(PowerWord(false)), Word(LevelWord(0));
    assert Dark() == [dim, off] + [StopTimer];
    ObeySplit(p, [dim, off], [StopTimer]);
    ObeyTwo(p, dim, off);
    ObeyTwo(ObeyAll(p, [dim, off]), StopTimer, StopTimer);
  }

  lemma {:induction false} ObeyLit(p: Panel, raw: byte)
    ensures ObeyAll(p, [Word(PowerWord(true)), Word(LevelWord(raw))]) == p.(level := raw, on := true)
    ensures ObeyAll(p, Lit(raw)) == p.(level := raw, on := true)
  {
    var on, level := Word(PowerWord(true)), Word(LevelWord(raw));
    assert Lit(raw) == [on, level] + [StopTimer];
    ObeySplit(p, [on, level], [StopTimer]);
    ObeyTwo(p, on, level);
    ObeyTwo(ObeyAll(p, [on, level]), StopTimer, StopTimer);
  }

  /** The panel after each request that succeeded, stated without the words. */
  function PanelAfter(p: Panel, c: Cache, r: Request): Panel
    requires Shaped(c)
  {
    match r
    case LedSet(b) => if b == 0 || b > RAW_MAX then p.(on := false, level := 0) else p.(on := true, level := b)
    case ModeOff => p.(on := false, level := 0)
    case ModeStatic => Panel(true, c.raw, if c.known[0] then Palette(c.color[0]) else p.shown)
    case Brightness(n) => if n == 0 || n > 100 then p.(on := false, level := 0) else p.(level := PercentRaw(n))
    case RawBrightness(raw) => p.(on := true, level := if raw <= 255 then raw else 0)
    case Paint(x) => p.(shown := Palette(x))
    case Probe(z, x) => if z == 0 then p.(shown := Palette(x)) else p
  }

  lemma SuccessPanel(c: Cache, h: Channel, r: Request)
    requires Shaped(c) && Handle(c, h, r).ok
    ensures Handle(c, h, r).channel.panel == PanelAfter(h.panel, c, r)
  {
    hide Send, Obey, ObeyAll, FadeWords, ColorWord, Palette, Dark, Lit, PercentRaw, RawPercent, PowerWord, LevelWord;
    var p := h.panel;
    var cmds := Commands(c, r).value;
    SendOk(h, cmds);
    match r {
      case LedSet(b) => ObeyDark(p); ObeyLit(p, b);
      case ModeOff => ObeyDark(p);
      case ModeStatic =>
        var wake := [Word(PowerWord(true)), Word(LevelWord(c.raw))];
        ObeyLit(p, c.raw);
        var q := ObeyAll(p, wake);
        if c.known[0] {
          assert cmds == wake + [Color(c.color[0]), StopTimer];
          ObeySplit(p, wake, [Color(c.color[0]), StopTimer]);
          ObeyTwo(q, Color(c.color[0]), StopTimer);
          ObeyColor(q, 0xF0, c.color[0]);
          ObeyTimer(Obey(q, Color(c.color[0])));
        } else {
          assert cmds == wake + [StopTimer];
          ObeySplit(p, wake, [StopTimer]);
          ObeyTwo(q, StopTimer, StopTimer);
          ObeyTimer(q);
        }
      case Brightness(n) =>
        var level := Word(LevelWord(PercentRaw(n)));
        var follow := if n == 0 then Word(PowerWord(false)) else StopTimer;
        assert cmds == [level, follow];
        ObeyTwo(p, level, follow);
        ObeyLevel(p, PercentRaw(n));
        ObeyTimer(Obey(p, level));
        ObeyPowerOff(Obey(p, level));
        assert PercentRaw(0) == 0 by { RawOfZero(); }
      case RawBrightness(raw) => ObeyLit(p, raw);
      case Paint(x) =>
        var words := if c.known[0] then FadeWords(c.color[0], x, 1) else [Color(x)];
        ObeySplit(p, words, [StopTimer]);
        if c.known[0] {
          ObeyColors(p, c.color[0], x, 1);
        } else {
          ObeyTwo(p, Color(x), StopTimer);
          ObeyColor(p, 0xF0, x);
        }
        ObeyTwo(ObeyAll(p, words), StopTimer, StopTimer);
        ObeyTimer(ObeyAll(p, words));
      case Probe(z, x) =>
        ObeyTwo(p, Word(ColorWord(0xF0 + z, x)), StopTimer);
        ObeyColor(p, 0xF0 + z, x);
        ObeyTimer(Obey(p, Word(ColorWord(0xF0 + z, x))));
    }
  }

  /** The very words a request that succeeds has sent. */
  lemma SuccessSends(c: Cache, h: Channel, r: Request)
    requires Shaped(c) && Handle(c, h, r).ok
    ensures var sent := Handle(c, h, r).channel.sent;
            var off := h.sent + [Word(0xF4000000), Word(0xE0000007), StopTimer];
            match r
            case LedSet(b) => sent == if b == 0 then off
              else h.sent + [Word(0xE0071007), Word(0xF4000000 + b), StopTimer]
            case ModeOff => sent == off
            case ModeStatic =>
              var lit := h.sent + [Word(0xE0071007), Word(0xF4000000 + c.raw)];
              sent == if c.known[0] then lit + [Word(ColorWord(0xF0, c.color[0])), StopTimer] else lit + [StopTimer]
            case Brightness(p) =>
              && p <= 100
              && sent == h.sent + [Word(0xF4000000 + PercentRaw(p)), if p == 0 then Word(0xE0000007) else StopTimer]
            case RawBrightness(raw) => sent == h.sent + [Word(0xE0071007), Word(0xF4000000 + raw), StopTimer]
            case Paint(x) =>
              && |sent| == |h.sent| + (if c.known[0] then 25 else 2) && h.sent <= sent
              && sent[|sent| - 1] == StopTimer && sent[|sent| - 2] == Word(ColorWord(0xF0, x))
            case Probe(z, x) => z < 3 && sent == h.sent + [Word(ColorWord(0xF0 + z, x)), StopTimer]
  {
    hide Send, Obey, ColorWord, PercentRaw, FadeWords;
    var cmds := Commands(c, r).value;
    SendOk(h, cmds);
    match r {
      case ModeStatic =>
        var lit := [Word(0xE0071007), Word(0xF4000000 + c.raw)];
        assert cmds == lit + (if c.known[0] then [Word(ColorWord(0xF0, c.color[0])), StopTimer] else [StopTimer]);
      case Paint(x) =>
        if c.known[0] { FadeEnds(c.color[0], x, 1); }
      case _ =>
    }
  }

  lemma {:induction false} FadeEnds(from: Rgb, target: Rgb, step: nat)
    requires 1 <= step <= FADE_STEPS
    ensures var words := FadeWords(from, target, step);
            |words| == 25 - step && words[|words| - 1] == Word(ColorWord(0xF0, target))
    decreases FADE_STEPS - step
  {
    hide ColorWord, FadeByte;
    var words := FadeWords(from, target, step);
    assert words[1..] == FadeWords(from, target, step + 1);
    if step < FADE_STEPS {
      FadeEnds(from, target, step + 1);
    } else {
      FadeApproaches(from[0], target[0], 23);
      FadeApproaches(from[1], target[1], 23);
      FadeApproaches(from[2], target[2], 23);
      assert FadeColor(from, target, step) == target;
    }
  }

  /** With a firmware that answers, exactly these requests are refused, and a
      refused one sends nothing. */
  lemma HealthyOkIff(c: Cache, h: Channel, r: Request)
    requires Shaped(c) && h.script == []
    ensures var d := Handle(c, h, r);
            && (d.ok <==> match r
                          case LedSet(b) => b <= 191
                          case Brightness(p) => p <= 100
                          case RawBrightness(raw) => raw <= 255
                          case Probe(z, _) => z < 3
                          case _ => true)
            && (!d.ok ==> d.channel == h && d.cache == c)
  {
    hide Send, FadeWords, ColorWord, PercentRaw;
    if Commands(c, r).Some? { SendOk(h, Commands(c, r).value); }
  }

  /** What the cache says after a success. */
  lemma SuccessCache(c: Cache, h: Channel, r: Request)
    requires Coherent(c) && Handle(c, h, r).ok
    ensures var d := Handle(c, h, r).cache;
            && d.mode == (if r.ModeOff? then Off else if r.ModeStatic? then Static else c.mode)
            && d.raw == (if r.LedSet? then r.led else if r.Brightness? then PercentRaw(r.percent) else c.raw)
            && (r.Brightness? ==> d.percent == r.percent)
            && (r.Paint? ==> d.color == [r.color, r.color, r.color] && d.known == [true, true, true])
            && (!r.Paint? ==> d.color == c.color && d.known == c.known)
  {
    hide Send, FadeWords, ColorWord, PercentRaw, RawPercent;
  }

  lemma ObeyTimer(p: Panel)
    ensures Obey(p, StopTimer) == p
  {
  }

  lemma ObeyPowerOff(p: Panel)
    ensures Obey(p, Word(PowerWord(false))) == p.(on := false)
  {
  }

  lemma RawOfZero()
    ensures PercentRaw(0) == 0
  {
  }

  /** Exactly which successful requests leave the LED value truthful. Writing a
      percentage above zero never powers the channel on, so it needs the channel
      on already; the raw diagnostic is uncached. */
  lemma TruthIff(c: Cache, h: Channel, r: Request)
    requires Coherent(c) && Handle(c, h, r).ok
    ensures var d := Handle(c, h, r);
            Truthful(d.cache, d.channel.panel) <==>
              match r
              case LedSet(_) => true
              case ModeOff => true
              case ModeStatic => true
              case Brightness(p) => p == 0 || h.panel.on
              case RawBrightness(raw) => c.led == raw
              case Paint(_) => Truthful(c, h.panel)
              case Probe(_, _) => Truthful(c, h.panel)
  {
    SuccessPanel(c, h, r);
    hide Send, FadeWords, ColorWord, Palette;
    if r.Brightness? { RawIsPositive(r.percent); }
  }

  lemma RawIsPositive(p: nat)
    requires p <= 100
    ensures p == 0 <==> PercentRaw(p) == 0
  {
  }

  /** Dimming to 0 % and back up through keyboard_rgb: the cache reports a lit
      keyboard while the last power word was "off", until a mode or LED write. */
  lemma {:induction false} DimmedStaysDark(c: Cache, h: Channel, p: nat)
    requires Coherent(c) && h.script == [] && 0 < p <= 100
    ensures var d := Run(c, h, [Brightness(0), Brightness(p)]);
            d.cache.led > 0 && !d.channel.panel.on
    ensures var d := Run(c, h, [Brightness(0), Brightness(p), ModeStatic]);
            d.channel.panel.on && d.channel.panel.level == d.cache.led == PercentRaw(p)
  {
    hide Send, FadeWords, ColorWord, Palette, PercentRaw, RawPercent;
    RawIsPositive(p);
    var a := Step(c, h, Brightness(0));
    var b := Step(a.cache, a.channel, Brightness(p));
    var s := Step(b.cache, b.channel, ModeStatic);
    var two, three := [Brightness(0), Brightness(p)], [Brightness(0), Brightness(p), ModeStatic];
    assert two[1..] == [Brightness(p)] && [Brightness(p)][1..] == [];
    assert three[1..] == [Brightness(p), ModeStatic] && three[1..][1..] == [ModeStatic] && [ModeStatic][1..] == [];
    assert Run(a.cache, a.channel, [Brightness(p)]) == Run(b.cache, b.channel, []);
    assert Run(a.cache, a.channel, three[1..]) == Run(b.cache, b.channel, [ModeStatic]);
    assert Run(b.cache, b.channel, [ModeStatic]) == Run(s.cache, s.channel, []);
  }

  /** One request that the firmware answers throughout. */
  lemma Step(c: Cache, h: Channel, r: Request) returns (d: Done)
    requires Coherent(c) && h.script == [] && Commands(c, r).Some?
    ensures d == Handle(c, h, r) && d.ok && d.cache == Cached(c, r) && Coherent(d.cache)
    ensures d.channel.script == [] && d.channel.panel == PanelAfter(h.panel, c, r)
  {
    hide Send, Coherent, Commands, Cached, PanelAfter;
    assert Shaped(c) by { CoherentIsShaped(c); }
    d := Handle(c, h, r);
    SendOk(h, Commands(c, r).value);
    SuccessPanel(c, h, r);
    HandleKeepsCoherent(c, h, r);
  }
}
