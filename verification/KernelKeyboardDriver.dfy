/** keyboard_rgb_store and clevo_cc_keyboard_led_set as the driver runs them. */
module KernelKeyboardDriver {
  import opened Arith
  import opened KernelKeyboard

  class Driver {
    const color: array<Rgb>
    const known: array<bool>
    var percent: byte
    var raw: byte
    var led: byte
    var mode: Mode
    /** The firmware behind command 103 and 121/24. */
    var panel: Panel
    var script: seq<Fault>
    var sent: seq<Command>

    ghost predicate Valid() { color.Length == 3 && known.Length == 3 }

    ghost function State(): (c: Cache)
      requires Valid()
      reads this, color, known
      ensures Shaped(c)
    {
      Cache(color[..], known[..], percent, raw, led, mode)
    }

    ghost function Wire(): Channel
      reads this
    {
      Channel(panel, script, sent)
    }

    /** clevo_cc_probe. */
    constructor (panel: Panel, script: seq<Fault>)
      ensures Valid() && fresh(color) && fresh(known)
      ensures State() == INITIAL && Wire() == Channel(panel, script, [])
    {
      color := new Rgb[3](_ => [0, 0, 0]);
      known := new bool[3](_ => false);
      percent, raw, led, mode := 100, 191, 191, Unknown;
      this.panel, this.script, this.sent := panel, script, [];
      new;
      assert color[..] == INITIAL.color && known[..] == INITIAL.known;
    }

    /** clevo_cc_keyboard_command, or 121/24. */
    method Send103(c: Command) returns (ok: bool)
      modifies `panel, `script, `sent
      ensures Sent(ok, Wire()) == SendOne(old(Wire()), c)
    {
      sent := sent + [c];
      var fault := if script == [] then Answers else script[0];
      if script != [] { script := script[1..]; }
      match fault
      case Answers => panel := Obey(panel, c); ok := true;
      case Fails(after) => panel := after; ok := false;
    }

    /** clevo_cc_keyboard_led_set. */
    method LedWrite(brightness: nat) returns (ok: bool)
      requires Valid()
      modifies this
      ensures Done(ok, State(), Wire()) == Handle(old(State()), old(Wire()), LedSet(brightness))
    {
      hide Obey, Send;
      if brightness > RAW_MAX { return false; }
      SendThree(Wire(), Dark());
      SendThree(Wire(), Lit(brightness));
      if brightness == 0 {
        ok := Send103(Word(LevelWord(PercentRaw(0))));
        if ok { ok := Send103(Word(PowerWord(false))); }
      } else {
        ok := Send103(Word(PowerWord(true)));
        if ok { ok := Send103(Word(LevelWord(brightness))); }
      }
      if ok { ok := Send103(StopTimer); }
      if ok { raw, percent, led := brightness, RawPercent(brightness), brightness; }
    }

    /** clevo_cc_transition_keyboard_color. */
    method Transition(target: Rgb) returns (ok: bool)
      requires Valid()
      modifies `panel, `script, `sent
      ensures Sent(ok, Wire())
           == Send(old(Wire()), if known[0] then FadeWords(color[0], target, 1) else [KernelKeyboard.Color(target)])
    {
      hide Obey, ColorWord, FadeByte, Send;
      if !known[0] {
        SendLast(Wire(), KernelKeyboard.Color(target));
        ok := Send103(KernelKeyboard.Color(target));
        return;
      }
      var from := color[0];
      ghost var before := Wire();
      for step := 1 to 25
        invariant 1 <= step <= 25
        invariant Send(before, FadeWords(from, target, 1)) == Send(Wire(), FadeWords(from, target, step))
      {
        var mixed := Mix(from, target, step);
        SendFirst(Wire(), KernelKeyboard.Color(mixed), FadeWords(from, target, step + 1));
        ok := Send103(KernelKeyboard.Color(mixed));
        if !ok { return; }
      }
      SendNone(Wire());
      ok := true;
    }

    /** The three components of one step. */
    method Mix(from: Rgb, target: Rgb, step: nat) returns (mixed: Rgb)
      requires step <= FADE_STEPS
      ensures mixed == FadeColor(from, target, step)
    {
      hide FadeByte;
      var bytes := new byte[3](_ => 0);
      for component := 0 to 3
        invariant forall j :: 0 <= j < component ==> bytes[j] == FadeByte(from[j], target[j], step)
      {
        bytes[component] := FadeByte(from[component], target[component], step);
      }
      mixed := bytes[..];
    }

    /** clevo_cc_apply_keyboard_static. */
    method ApplyStatic() returns (ok: bool)
      requires Valid()
      modifies this
      ensures Done(ok, State(), Wire()) == Handle(old(State()), old(Wire()), ModeStatic)
    {
      hide Obey, Send, ColorWord;
      ghost var before := Wire();
      ghost var tail := (if known[0] then [KernelKeyboard.Color(color[0])] else []) + [StopTimer];
      assert Commands(State(), ModeStatic).value == [Word(PowerWord(true))] + ([Word(LevelWord(raw))] + tail);
      SendFirst(Wire(), Word(PowerWord(true)), [Word(LevelWord(raw))] + tail);
      ok := Send103(Word(PowerWord(true)));
      if !ok { return; }
      SendFirst(Wire(), Word(LevelWord(raw)), tail);
      ok := Send103(Word(LevelWord(raw)));
      if !ok { return; }
      if known[0] {
        assert tail == [KernelKeyboard.Color(color[0])] + [StopTimer];
        SendFirst(Wire(), KernelKeyboard.Color(color[0]), [StopTimer]);
        ok := Send103(KernelKeyboard.Color(color[0]));
      } else {
        assert tail == [StopTimer];
      }
      if !ok { return; }
      SendLast(Wire(), StopTimer);
      ok := Send103(StopTimer);
      if !ok { return; }
      mode, led := Static, raw;
    }

    /** The branches of keyboard_rgb_store. */
    method TurnOff() returns (ok: bool)
      requires Valid()
      modifies this
      ensures Done(ok, State(), Wire()) == Handle(old(State()), old(Wire()), ModeOff)
    {
      hide Obey, Send;
      SendThree(Wire(), Dark());
      ok := Send103(Word(LevelWord(PercentRaw(0))));
      if ok { ok := Send103(Word(PowerWord(false))); }
      if ok { ok := Send103(StopTimer); }
      if ok { mode, led := Off, 0; }
    }

    method SetPercent(p: nat) returns (ok: bool)
      requires Valid()
      modifies this
      ensures Done(ok, State(), Wire()) == Handle(old(State()), old(Wire()), Brightness(p))
    {
      hide Obey, Send, PercentRaw;
      if p > 100 { return false; }
      SendTwo(Wire(), Word(LevelWord(PercentRaw(p))), if p == 0 then Word(PowerWord(false)) else StopTimer);
      ok := Send103(Word(LevelWord(PercentRaw(p))));
      if ok && p == 0 { ok := Send103(Word(PowerWord(false))); }
      if ok && p != 0 { ok := Send103(StopTimer); }
      if ok { percent := p; }
      if ok { raw := PercentRaw(p); led := raw; }
    }

    method SetRaw(level: nat) returns (ok: bool)
      requires Valid()
      modifies `panel, `script, `sent
      ensures Done(ok, State(), Wire()) == Handle(old(State()), old(Wire()), RawBrightness(level))
    {
      hide Obey, Send;
      if level > 255 { return false; }
      SendThree(Wire(), Lit(level));
      ok := Send103(Word(PowerWord(true)));
      if ok { ok := Send103(Word(LevelWord(level))); }
      if ok { ok := Send103(StopTimer); }
    }

    method ProbeColor(zone: nat, target: Rgb) returns (ok: bool)
      requires Valid()
      modifies `panel, `script, `sent
      ensures Done(ok, State(), Wire()) == Handle(old(State()), old(Wire()), Probe(zone, target))
    {
      hide Obey, Send, ColorWord;
      if zone >= 3 { return false; }
      SendTwo(Wire(), Word(ColorWord(0xF0 + zone, target)), StopTimer);
      ok := Send103(Word(ColorWord(0xF0 + zone, target)));
      if ok { ok := Send103(StopTimer); }
    }

    method PaintAll(target: Rgb) returns (ok: bool)
      requires Valid()
      modifies this, color, known
      ensures Done(ok, State(), Wire()) == Handle(old(State()), old(Wire()), Paint(target))
    {
      hide Obey, Send, ColorWord, FadeWords;
      ghost var words := if known[0] then FadeWords(color[0], target, 1) else [KernelKeyboard.Color(target)];
      SendSplit(Wire(), words, [StopTimer]);
      ok := Transition(target);
      if ok {
        SendLast(Wire(), StopTimer);
        ok := Send103(StopTimer);
      }
      if ok {
        for zone := 0 to 3
          modifies color, known
          invariant forall j :: 0 <= j < zone ==> color[j] == target && known[j]
          invariant Wire() == Channel(panel, script, sent)
        {
          color[zone] := target;
          known[zone] := true;
        }
        assert color[..] == [target, target, target] && known[..] == [true, true, true];
      }
    }

    /** keyboard_rgb_store after its words are split; refused spellings never get
        here. The cache changes only when every command succeeded, and stays
        coherent. */
    method Store(r: Request) returns (ok: bool)
      requires Valid() && !r.LedSet?
      modifies this, color, known
      ensures Done(ok, State(), Wire()) == Handle(old(State()), old(Wire()), r)
      ensures old(Coherent(State())) ==> Coherent(State())
      ensures !ok ==> State() == old(State())
    {
      if Coherent(State()) { HandleKeepsCoherent(State(), Wire(), r); }
      FailureKeepsCache(State(), Wire(), r);
      hide Handle, Coherent;
      match r {
        case ModeOff => ok := TurnOff();
        case ModeStatic => ok := ApplyStatic();
        case Brightness(p) => ok := SetPercent(p);
        case RawBrightness(level) => ok := SetRaw(level);
        case Paint(target) => ok := PaintAll(target);
        case Probe(zone, target) => ok := ProbeColor(zone, target);
        case LedSet(_) => assert false; ok := false;
      }
    }
  }

  lemma FailureKeepsCache(c: Cache, h: Channel, r: Request)
    requires Shaped(c)
    ensures !Handle(c, h, r).ok ==> Handle(c, h, r).cache == c
  {
    hide Send, Commands, Cached;
  }

  // ---------------------------------------------------------- unrolling Send

  lemma {:induction false} SendNone(h: Channel)
    ensures Send(h, []) == Sent(true, h)
  {
  }

  lemma {:induction false} SendFirst(h: Channel, c: Command, rest: seq<Command>)
    ensures Send(h, [c] + rest) == var r := SendOne(h, c); if r.ok then Send(r.channel, rest) else r
  {
    assert ([c] + rest)[1..] == rest;
  }

  lemma {:induction false} SendLast(h: Channel, c: Command)
    ensures Send(h, [c]) == SendOne(h, c)
  {
    SendFirst(h, c, []);
    assert [c] == [c] + [];
    SendNone(SendOne(h, c).channel);
  }

  lemma {:induction false} SendTwo(h: Channel, a: Command, b: Command)
    ensures Send(h, [a, b]) == var r := SendOne(h, a); if r.ok then SendOne(r.channel, b) else r
  {
    SendFirst(h, a, [b]);
    assert [a, b] == [a] + [b];
    SendLast(SendOne(h, a).channel, b);
  }

  lemma {:induction false} SendThree(h: Channel, cmds: seq<Command>)
    requires |cmds| == 3
    ensures Send(h, cmds) ==
            var r := SendOne(h, cmds[0]);
            if !r.ok then r
            else
              var s := SendOne(r.channel, cmds[1]);
              if s.ok then SendOne(s.channel, cmds[2]) else s
  {
    SendFirst(h, cmds[0], [cmds[1], cmds[2]]);
    assert cmds == [cmds[0]] + [cmds[1], cmds[2]];
    SendTwo(SendOne(h, cmds[0]).channel, cmds[1], cmds[2]);
  }
}
