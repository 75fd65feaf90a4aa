/** Standard charge-threshold attributes (crates/clevod/src/power.rs,
    set_thresholds_using and write_window) and the daemon's stored windows. */
module ChargeStandard {
  import opened Arith
  import opened Text
  import opened ChargeNative

  /** How the battery driver treats one attribute access. A read that is not
      `Obeys` fails; a write may be refused, or store another value. */
  datatype Access = Obeys | Refuses | Stores(value: nat, ok: bool)

  /** The two threshold files (None: the file does not exist), how the next
      accesses go, and the attribute values after each write. */
  datatype Bat = Bat(start: Option<nat>, end: Option<nat>, script: seq<Access>, trace: seq<Attrs>)

  datatype Attrs = Attrs(start: Option<nat>, end: Option<nat>)

  function Next(b: Bat): Access { if b.script == [] then Obeys else b.script[0] }

  function Step(b: Bat): Bat { if b.script == [] then b else b.(script := b.script[1..]) }

  /** The attribute as `percent` reads it: missing, failing or above 100 is None. */
  function Percent(attr: Option<nat>, access: Access): Option<byte>
  {
    if attr.Some? && access.Obeys? && attr.value <= 100 then Some(attr.value) else None
  }

  datatype BatteryRead = BatteryRead(thresholds: Option<ChargeThresholds>, bat: Bat)

  /** read_battery's thresholds: start first, then end; no end, no thresholds. */
  function ReadBattery(b: Bat): BatteryRead
  {
    var c := Step(b);
    var start, end := Percent(b.start, Next(b)), Percent(b.end, Next(c));
    BatteryRead(if end.Some? then Some(ChargeThresholds(None, start, end.value)) else None, Step(c))
  }

  datatype WriteRead = WriteRead(ok: bool, bat: Bat)

  function Logged(b: Bat): Bat { b.(trace := b.trace + [Attrs(b.start, b.end)]) }

  datatype Attr = StartAttr | EndAttr

  function Store(b: Bat, a: Attr, v: nat): Bat
  {
    if a == StartAttr then b.(start := Some(v)) else b.(end := Some(v))
  }

  /** One attribute write; a missing file is an error and changes nothing. */
  function WriteAttr(b: Bat, a: Attr, v: byte): WriteRead
  {
    var missing := if a == StartAttr then b.start.None? else b.end.None?;
    var c := Step(b);
    if missing then WriteRead(false, Logged(b))
    else match Next(b)
         case Obeys => WriteRead(true, Logged(Store(c, a, v)))
         case Refuses => WriteRead(false, Logged(c))
         case Stores(x, ok) => WriteRead(ok, Logged(Store(c, a, x)))
  }

  function WriteOptional(b: Bat, a: Attr, v: Option<byte>): WriteRead
  {
    match v case None => WriteRead(true, b) case Some(x) => WriteAttr(b, a, x)
  }

  function StartChange(from: ChargeThresholds, to: ChargeThresholds): Option<byte>
  {
    if to.start.Some? && to.start != from.start then to.start else None
  }

  function EndChange(from: ChargeThresholds, to: ChargeThresholds): Option<byte>
  {
    if to.end != from.end then Some(to.end) else None
  }

  predicate EndFirst(from: ChargeThresholds, to: ChargeThresholds)
  {
    StartChange(from, to).Some? && StartChange(from, to).value >= from.end
  }

  /** write_window. */
  function WriteWindow(b: Bat, from: ChargeThresholds, to: ChargeThresholds): WriteRead
  {
    var s, e := StartChange(from, to), EndChange(from, to);
    var first := if EndFirst(from, to) then WriteOptional(b, EndAttr, e) else WriteOptional(b, StartAttr, s);
    if !first.ok then first
    else if EndFirst(from, to) then WriteOptional(first.bat, StartAttr, s) else WriteOptional(first.bat, EndAttr, e)
  }

  datatype StdResult = StdResult(outcome: Outcome, bat: Bat)

  function WindowChecked(b: Bat, from: ChargeThresholds, to: ChargeThresholds): WriteRead
  {
    var w := WriteWindow(b, from, to);
    if !w.ok then w
    else
      var r := ReadBattery(w.bat);
      WriteRead(r.thresholds == Some(to), r.bat)
  }

  /** The rollback, from whatever the attributes show now. */
  function Rollback(b: Bat, previous: ChargeThresholds): StdResult
  {
    var r := ReadBattery(b);
    match r.thresholds
    case None => StdResult(RestoreFailed, r.bat)
    case Some(current) =>
      var w := WindowChecked(r.bat, current, previous);
      StdResult(if w.ok then Restored else RestoreFailed, w.bat)
  }

  function StdTarget(requested: ChargeThresholds, previous: ChargeThresholds): ChargeThresholds
  {
    ChargeThresholds(None, if requested.start.Some? then requested.start else previous.start, requested.end)
  }

  /** set_thresholds_using on a battery whose end attribute exists. */
  function SetStandard(b: Bat, requested: ChargeThresholds): StdResult
  {
    var r := ReadBattery(b);
    if !ThresholdsValid(requested) then StdResult(Invalid, b)
    else if requested.enabled.Some? || (requested.start.Some? && b.start.None?) then StdResult(Unsupported, r.bat)
    else match r.thresholds
         case None => StdResult(ReadFailed, r.bat)
         case Some(previous) =>
           var target := StdTarget(requested, previous);
           if b.start.Some? && previous.start.None? then StdResult(ReadFailed, r.bat)
           else if !ThresholdsValid(target) then StdResult(Invalid, r.bat)
           else if target == previous then StdResult(Applied(previous), r.bat)
           else
             var w := WindowChecked(r.bat, previous, target);
             if w.ok then StdResult(Applied(target), w.bat) else Rollback(w.bat, previous)
  }

  // ------------------------------------------------------------- imperative form

  class Battery {
    var start: Option<nat>
    var end: Option<nat>
    var script: seq<Access>
    var trace: seq<Attrs>

    constructor (b: Bat)
      ensures Model() == b
    {
      start, end, script, trace := b.start, b.end, b.script, b.trace;
    }

    ghost function Model(): Bat
      reads this
    {
      Bat(start, end, script, trace)
    }

    method Take() returns (a: Access)
      modifies `script
      ensures a == Next(old(Model())) && Model() == Step(old(Model()))
    {
      if script == [] { return Obeys; }
      a := script[0];
      script := script[1..];
    }

    method Read() returns (t: Option<ChargeThresholds>)
      modifies `script
      ensures BatteryRead(t, Model()) == ReadBattery(old(Model()))
    {
      var a := Take();
      var s := Percent(start, a);
      a := Take();
      var e := Percent(end, a);
      t := if e.Some? then Some(ChargeThresholds(None, s, e.value)) else None;
    }

    method WriteOne(a: Attr, v: byte) returns (ok: bool)
      modifies this
      ensures WriteRead(ok, Model()) == WriteAttr(old(Model()), a, v)
    {
      var missing := if a == StartAttr then start.None? else end.None?;
      if missing {
        trace := trace + [Attrs(start, end)];
        return false;
      }
      var access := Take();
      ok := access.Obeys? || (access.Stores? && access.ok);
      var stored := if access.Obeys? then v else if access.Stores? then access.value else 0;
      if !access.Refuses? {
        if a == StartAttr { start := Some(stored); } else { end := Some(stored); }
      }
      trace := trace + [Attrs(start, end)];
    }

    /** write_window: the two operations in the order that keeps start below end. */
    method ApplyWindow(from: ChargeThresholds, to: ChargeThresholds) returns (ok: bool)
      modifies this
      ensures WriteRead(ok, Model()) == WriteWindow(old(Model()), from, to)
    {
      var s, e := StartChange(from, to), EndChange(from, to);
      var operations := if s.Some? && s.value >= from.end
                        then [(EndAttr, e), (StartAttr, s)]
                        else [(StartAttr, s), (EndAttr, e)];
      ghost var before := Model();
      for i := 0 to 2
        invariant i == 0 ==> Model() == before
        invariant i == 1 ==> WriteOptional(before, operations[0].0, operations[0].1) == WriteRead(true, Model())
        invariant i == 2 ==> WriteWindow(before, from, to) == WriteRead(true, Model())
      {
        var (attr, value) := operations[i];
        if value.Some? {
          var done := WriteOne(attr, value.value);
          if !done { return false; }
        }
      }
      ok := true;
    }

    /** set_thresholds_using, standard path. */
    method SetThresholds(requested: ChargeThresholds) returns (outcome: Outcome)
      modifies this
      ensures StdResult(outcome, Model()) == SetStandard(old(Model()), requested)
      ensures outcome.Applied? ==>
                Shows(Model(), outcome.thresholds) && Asked(old(Model()), requested, outcome.thresholds)
      ensures old(script) == [] ==> (outcome.Applied? <==> Settable(old(Model()), requested))
    {
      AppliedIsShown(Model(), requested);
      if script == [] { ObeyedOutcome(Model(), requested); }
      hide ReadBattery, WriteWindow, Asked, Settable;
      if !ThresholdsValid(requested) { return Invalid; }
      var before := Read();
      if requested.enabled.Some? || (requested.start.Some? && start.None?) { return Unsupported; }
      if before.None? { return ReadFailed; }
      var previous := before.value;
      if start.Some? && previous.start.None? { return ReadFailed; }
      var target := StdTarget(requested, previous);
      if !ThresholdsValid(target) { return Invalid; }
      if target == previous { return Applied(previous); }
      var ok := ApplyWindow(previous, target);
      if ok {
        var after := Read();
        ok := after == Some(target);
      }
      if ok { return Applied(target); }
      var current := Read();
      if current.None? { return RestoreFailed; }
      ok := ApplyWindow(current.value, previous);
      if ok {
        var after := Read();
        ok := after == Some(previous);
      }
      outcome := if ok then Restored else RestoreFailed;
    }
  }

  // -------------------------------------------------------------------- theorems

  /** The attributes hold exactly these thresholds (an unreadable start shows as
      absent). */
  ghost predicate Shows(b: Bat, t: ChargeThresholds)
  {
    && t.enabled.None? && b.end == Some(t.end as nat)
    && (t.start.Some? ==> b.start == Some(t.start.value as nat))
  }

  lemma ReadShows(b: Bat)
    ensures var r := ReadBattery(b);
            && r.bat.start == b.start && r.bat.end == b.end && r.bat.trace == b.trace
            && (r.thresholds.Some? ==> Shows(b, r.thresholds.value))
  {
  }

  lemma CheckedShows(b: Bat, from: ChargeThresholds, to: ChargeThresholds)
    ensures var w := WindowChecked(b, from, to);
            w.ok ==> Shows(w.bat, to)
  {
    hide ReadBattery, WriteWindow;
    ReadShows(WriteWindow(b, from, to).bat);
  }

  /** t is what was asked for: the end, and the start or else the one there was. */
  predicate Asked(b: Bat, requested: ChargeThresholds, t: ChargeThresholds)
  {
    && requested.enabled.None? && t.enabled.None? && t.end == requested.end
    && (requested.start.Some? ==> t.start == requested.start)
    && (requested.start.None? ==> Same(b.start, t.start))
  }

  predicate Same(attr: Option<nat>, v: Option<byte>)
  {
    if attr.None? then v.None? else v.Some? && v.value as nat == attr.value
  }

  /** With a driver that clamps, stores anything or refuses: Ok is said only when
      the attributes hold the target, "restored" only when they hold the window
      read before the first write. */
  lemma AppliedIsShown(b: Bat, requested: ChargeThresholds)
    ensures var r := SetStandard(b, requested);
            match r.outcome
            case Applied(t) => Shows(r.bat, t) && Asked(b, requested, t)
            case Restored => Shows(r.bat, ReadBattery(b).thresholds.value)
            case RestoreFailed => true
            case _ => r.bat.start == b.start && r.bat.end == b.end && r.bat.trace == b.trace
  {
    hide ReadBattery, WindowChecked;
    ReadShows(b);
    var r := ReadBattery(b);
    if r.thresholds.Some? {
      var previous := r.thresholds.value;
      var target := StdTarget(requested, previous);
      CheckedShows(r.bat, previous, target);
      var w := WindowChecked(r.bat, previous, target);
      ReadShows(w.bat);
      var now := ReadBattery(w.bat);
      if now.thresholds.Some? { CheckedShows(now.bat, now.thresholds.value, previous); }
    }
  }

  // ------------------------------------------------------- a driver that obeys

  /** Both files, as far as they exist, hold percentages. */
  predicate Percents(b: Bat)
  {
    b.end.Some? && b.end.value <= 100 && (b.start.Some? ==> b.start.value <= 100)
  }

  /** A request that the files there are can serve. */
  predicate Settable(b: Bat, requested: ChargeThresholds)
  {
    && 0 < requested.end <= 100 && requested.enabled.None? && Percents(b)
    && (requested.start.Some? ==> b.start.Some? && requested.start.value < requested.end)
    && (requested.start.None? && b.start.Some? ==> b.start.value < requested.end as nat)
  }

  /** Without a misbehaving access, exactly what comes of a request; an applied one
      leaves the requested end and the requested start, or else the old one, and
      writes only what changes. */
  lemma ObeyedOutcome(b: Bat, requested: ChargeThresholds)
    requires b.script == []
    ensures SetStandard(b, requested).outcome.Applied? <==> Settable(b, requested)
    ensures var r := SetStandard(b, requested);
            var end := requested.end as nat;
            var start := if requested.start.Some? then Some(requested.start.value as nat) else b.start;
            if end == 0 || end > 100 || (requested.start.Some? && requested.start.value >= requested.end)
            then r.outcome == Invalid
            else if requested.enabled.Some? || (requested.start.Some? && b.start.None?) then r.outcome == Unsupported
            else if !Percents(b) then r.outcome == ReadFailed
            else if start.Some? && start.value >= end then r.outcome == Invalid
            else && r.outcome.Applied? && Asked(b, requested, r.outcome.thresholds)
                 && r.bat.start == start && r.bat.end == Some(end)
                 && |r.bat.trace| == |b.trace| + (if start == b.start then 0 else 1)
                   + (if b.end == Some(end) then 0 else 1)
  {
    hide WindowChecked, Rollback;
    var r := ReadBattery(b);
    assert r.bat == b;
    if Percents(b) {
      var previous := r.thresholds.value;
      var target := StdTarget(requested, previous);
      if ThresholdsValid(target) && (requested.start.Some? ==> b.start.Some?) { ObeyedWindow(b, previous, target); }
    }
  }

  /** A request that the files meet already touches them no more than to read them. */
  lemma MetIsLeftAlone(b: Bat, requested: ChargeThresholds)
    requires var r := ReadBattery(b);
             && r.thresholds.Some? && Asked(r.bat, requested, r.thresholds.value) && ThresholdsValid(requested)
             && (requested.start.Some? ==> b.start.Some?) && (b.start.Some? ==> r.thresholds.value.start.Some?)
             && (r.thresholds.value.start.Some? ==> r.thresholds.value.start.value < requested.end)
    ensures var r := ReadBattery(b);
            SetStandard(b, requested) == StdResult(Applied(r.thresholds.value), r.bat)
  {
    hide ReadBattery, WindowChecked, Rollback;
  }

  /** t is what the files hold. */
  predicate Holds(b: Bat, t: ChargeThresholds)
  {
    t.enabled.None? && b.end == Some(t.end as nat) && Same(b.start, t.start)
  }

  lemma ObeyedWindow(b: Bat, from: ChargeThresholds, to: ChargeThresholds)
    requires b.script == [] && Percents(b) && Holds(b, from) && to.enabled.None? && to.end <= 100
    requires (to.start.Some? <==> b.start.Some?) && (to.start.Some? ==> to.start.value <= 100)
    ensures var w := WindowChecked(b, from, to);
            && w.ok && Holds(w.bat, to)
            && |w.bat.trace| == |b.trace| + (if from.start == to.start then 0 else 1)
              + (if from.end == to.end then 0 else 1)
  {
    var w := WriteWindow(b, from, to);
    assert w.ok && w.bat.script == [] && Holds(w.bat, to);
    hide WriteWindow;
    assert ReadBattery(w.bat).bat == w.bat && to.start == (if to.start.Some? then Some(to.start.value) else None);
  }

  // ---------------------------------------------------------------- one slip

  /** Accesses that do not do as they are told. */
  function Slips(script: seq<Access>): nat
  {
    if script == [] then 0 else (if script[0].Obeys? then 0 else 1) + Slips(script[1..])
  }

  /** Whatever the driver stores instead is still a percentage. */
  ghost predicate Tame(b: Bat)
  {
    Percents(b) && forall i :: 0 <= i < |b.script| && b.script[i].Stores? ==> b.script[i].value <= 100
  }

  /** From b to c the driver slipped less often than it still could. */
  ghost predicate Slipped(b: Bat, c: Bat)
  {
    Tame(c) && (c.start.Some? <==> b.start.Some?) && Slips(c.script) < Slips(b.script)
  }

  ghost predicate Obeyed(b: Bat, c: Bat)
  {
    Tame(c) && (c.start.Some? <==> b.start.Some?) && Slips(c.script) == Slips(b.script)
  }

  lemma WriteSlips(b: Bat, a: Attr, v: byte)
    requires Tame(b) && v <= 100 && (a == StartAttr ==> b.start.Some?)
    ensures var w := WriteAttr(b, a, v);
            || Slipped(b, w.bat)
            || (Obeyed(b, w.bat) && w.ok && w.bat.start == Store(b, a, v).start && w.bat.end == Store(b, a, v).end)
  {
    StepTame(b);
  }

  lemma StepTame(b: Bat)
    requires Tame(b)
    ensures Tame(Step(b)) && Slips(Step(b).script) == Slips(b.script) - (if Next(b).Obeys? then 0 else 1)
    ensures Next(b).Stores? ==> Next(b).value <= 100
  {
    if b.script != [] { assert Step(b).script == b.script[1..]; }
  }

  lemma OptionalSlips(b: Bat, a: Attr, v: Option<byte>)
    requires Tame(b) && (v.Some? ==> v.value <= 100 && (a == StartAttr ==> b.start.Some?))
    ensures var w := WriteOptional(b, a, v);
            var c := if v.Some? then Store(b, a, v.value) else b;
            Slipped(b, w.bat) || (Obeyed(b, w.bat) && w.ok && w.bat.start == c.start && w.bat.end == c.end)
  {
    hide WriteAttr, Slipped, Tame;
    if v.Some? { WriteSlips(b, a, v.value); }
  }

  lemma WindowSlips(b: Bat, from: ChargeThresholds, to: ChargeThresholds)
    requires Tame(b) && Holds(b, from) && Shaped(b, to)
    ensures var w := WriteWindow(b, from, to);
            Slipped(b, w.bat) || (Obeyed(b, w.bat) && w.ok && Holds(w.bat, to))
  {
    hide WriteAttr, WriteOptional, Tame;
    var s, e := StartChange(from, to), EndChange(from, to);
    if EndFirst(from, to) {
      OptionalSlips(b, EndAttr, e);
      var first := WriteOptional(b, EndAttr, e);
      if first.ok { OptionalSlips(first.bat, StartAttr, s); }
    } else {
      OptionalSlips(b, StartAttr, s);
      var first := WriteOptional(b, StartAttr, s);
      if first.ok { OptionalSlips(first.bat, EndAttr, e); }
    }
  }

  /** t fits the files there are. */
  predicate Shaped(b: Bat, t: ChargeThresholds)
  {
    && t.enabled.None? && t.end <= 100 && (t.start.Some? <==> b.start.Some?)
    && (t.start.Some? ==> t.start.value <= 100)
  }

  lemma ReadSlips(b: Bat)
    requires Tame(b)
    ensures var r := ReadBattery(b);
            && r.bat.start == b.start && r.bat.end == b.end
            && (Slipped(b, r.bat) || (Obeyed(b, r.bat) && r.thresholds.Some? && Holds(b, r.thresholds.value)))
  {
    StepTame(b);
    StepTame(Step(b));
  }

  lemma CheckedSlips(b: Bat, from: ChargeThresholds, to: ChargeThresholds)
    requires Tame(b) && Holds(b, from) && Shaped(b, to)
    ensures var w := WindowChecked(b, from, to);
            Slipped(b, w.bat) || (Obeyed(b, w.bat) && w.ok && Holds(w.bat, to))
  {
    WindowSlips(b, from, to);
    var w := WriteWindow(b, from, to);
    ReadSlips(w.bat);
    hide WriteWindow, ReadBattery, Tame;
    assert Holds(w.bat, to) ==> to.start == (if to.start.Some? then Some(to.start.value) else None);
  }

  lemma RollbackWithoutSlip(b: Bat, previous: ChargeThresholds)
    requires Tame(b) && Slips(b.script) == 0 && Shaped(b, previous)
    ensures var r := Rollback(b, previous);
            r.outcome == Restored && Holds(r.bat, previous)
  {
    ReadSlips(b);
    hide ReadBattery, WindowChecked, Tame;
    var r := ReadBattery(b);
    CheckedSlips(r.bat, r.thresholds.value, previous);
  }

  /** One access that fails, is refused or stores another percentage, anywhere in
      reading, writing, confirming and restoring: the request is applied, or the
      attributes are what they were, and the daemon never says they are lost. */
  lemma OneSlipIsUndone(b: Bat, requested: ChargeThresholds)
    requires Slips(b.script) <= 1
    requires forall i :: 0 <= i < |b.script| && b.script[i].Stores? ==> b.script[i].value <= 100
    ensures var r := SetStandard(b, requested);
            r.outcome != RestoreFailed && (!r.outcome.Applied? ==> r.bat.start == b.start && r.bat.end == b.end)
  {
    ReadShows(b);
    if Percents(b) {
      ReadSlips(b);
      hide ReadBattery, WindowChecked, Tame, Rollback;
      var r := ReadBattery(b);
      if r.thresholds.Some? && (b.start.Some? ==> r.thresholds.value.start.Some?) {
        var previous := r.thresholds.value;
        var target := StdTarget(requested, previous);
        MissingStart(b);
        if ThresholdsValid(target) && !(requested.start.Some? && b.start.None?) {
          CheckedSlips(r.bat, previous, target);
          var w := WindowChecked(r.bat, previous, target);
          if !w.ok { RollbackWithoutSlip(w.bat, previous); }
        }
      }
    } else {
      hide WindowChecked, Rollback;
    }
  }

  lemma MissingStart(b: Bat)
    ensures var r := ReadBattery(b);
            r.thresholds.Some? && b.start.None? ==> r.thresholds.value.start.None?
  {
  }

  // -------------------------------------------------------------- start below end

  predicate Ordered(start: Option<nat>, end: Option<nat>)
  {
    start.Some? && end.Some? ==> start.value < end.value
  }

  /** The driver stores what it is told or refuses; it never alters a value. */
  ghost predicate Honest(script: seq<Access>) { forall i :: 0 <= i < |script| ==> !script[i].Stores? }

  /** Every attribute state from the `from`-th write on has start < end. */
  ghost predicate TraceOrdered(b: Bat, from: nat)
  {
    && Ordered(b.start, b.end) && Honest(b.script) && from <= |b.trace|
    && forall i :: from <= i < |b.trace| ==> Ordered(b.trace[i].start, b.trace[i].end)
  }

  lemma WriteKeepsOrder(b: Bat, a: Attr, v: byte, from: nat)
    requires TraceOrdered(b, from) && Ordered(Store(b, a, v).start, Store(b, a, v).end)
    ensures TraceOrdered(WriteAttr(b, a, v).bat, from)
    ensures var w := WriteAttr(b, a, v);
            w.ok ==> w.bat.start == Store(b, a, v).start && w.bat.end == Store(b, a, v).end
    ensures WriteAttr(b, a, v).bat.start.Some? == b.start.Some? && WriteAttr(b, a, v).bat.end.Some? == b.end.Some?
  {
  }

  /** Between two ordered windows every attribute state has start < end, also when
      a write fails part-way. `from` is what the attributes were read as: a start
      that could not be read is absent from it. */
  lemma WindowStaysOrdered(b: Bat, current: ChargeThresholds, to: ChargeThresholds, from: nat)
    requires TraceOrdered(b, from) && Shows(b, current)
    requires ThresholdsValid(to) && (b.start.Some? ==> to.start.Some?)
    ensures TraceOrdered(WriteWindow(b, current, to).bat, from)
    ensures WriteWindow(b, current, to).bat.start.Some? == b.start.Some?
  {
    hide TraceOrdered, WriteAttr;
    var s, e := StartChange(current, to), EndChange(current, to);
    if b.start.Some? {
      if EndFirst(current, to) {
        if e.Some? {
          WriteKeepsOrder(b, EndAttr, e.value, from) by { EndRaise(b, current, to, from); }
        }
        var first := WriteOptional(b, EndAttr, e);
        if first.ok { WriteKeepsOrder(first.bat, StartAttr, s.value, from); }
      } else {
        if s.Some? {
          WriteKeepsOrder(b, StartAttr, s.value, from);
        }
        var first := WriteOptional(b, StartAttr, s);
        if first.ok && e.Some? { WriteKeepsOrder(first.bat, EndAttr, e.value, from); }
      }
    } else {
      EndOnly(b, current, to, from);
    }
  }

  lemma EndRaise(b: Bat, current: ChargeThresholds, to: ChargeThresholds, from: nat)
    requires TraceOrdered(b, from) && Shows(b, current) && ThresholdsValid(to) && EndFirst(current, to)
    ensures TraceOrdered(b, from)
    ensures Ordered(Store(b, EndAttr, to.end).start, Store(b, EndAttr, to.end).end)
  {
  }

  lemma EndOnly(b: Bat, current: ChargeThresholds, to: ChargeThresholds, from: nat)
    requires TraceOrdered(b, from) && Shows(b, current) && b.start.None?
    ensures TraceOrdered(WriteWindow(b, current, to).bat, from)
    ensures WriteWindow(b, current, to).bat.start.None?
  {
  }

  lemma ReadKeepsTrace(b: Bat, from: nat)
    requires TraceOrdered(b, from)
    ensures TraceOrdered(ReadBattery(b).bat, from)
  {
  }

  /** A whole request, rollback included, with a driver that obeys or refuses:
      start stays below end in every state the attributes pass through. */
  lemma RequestStaysOrdered(b: Bat, requested: ChargeThresholds)
    requires Ordered(b.start, b.end) && Honest(b.script)
    ensures TraceOrdered(SetStandard(b, requested).bat, |b.trace|)
  {
    var from := |b.trace|;
    hide TraceOrdered, WriteWindow, ReadBattery, ThresholdsValid;
    assert TraceOrdered(b, from) by { TraceStarts(b); }
    ReadKeepsTrace(b, from);
    ReadShows(b);
    var r := ReadBattery(b);
    if r.thresholds.Some? {
      var previous := r.thresholds.value;
      var target := StdTarget(requested, previous);
      if ThresholdsValid(target) && (b.start.Some? ==> previous.start.Some?)
        && (b.start.None? ==> requested.start.None?) {
        WindowStaysOrdered(r.bat, previous, target, from);
        var w := WriteWindow(r.bat, previous, target);
        ReadKeepsTrace(w.bat, from);
        ReadShows(w.bat);
        var c := WindowChecked(r.bat, previous, target);
        if !c.ok {
          PreviousValid(b, previous);
          RollbackStaysOrdered(c.bat, previous, from);
        }
      }
    }
  }

  lemma TraceStarts(b: Bat)
    requires Ordered(b.start, b.end) && Honest(b.script)
    ensures TraceOrdered(b, |b.trace|)
  {
  }

  lemma PreviousValid(b: Bat, previous: ChargeThresholds)
    requires Ordered(b.start, b.end) && ReadBattery(b).thresholds == Some(previous)
    ensures previous.start.Some? ==> previous.start.value < previous.end <= 100
  {
  }

  lemma RollbackStaysOrdered(b: Bat, previous: ChargeThresholds, from: nat)
    requires TraceOrdered(b, from) && (b.start.Some? ==> previous.start.Some?)
    requires previous.start.Some? ==> previous.start.value < previous.end <= 100
    ensures TraceOrdered(Rollback(b, previous).bat, from)
  {
    hide TraceOrdered, WriteWindow, ReadBattery;
    ReadKeepsTrace(b, from);
    ReadShows(b);
    var r := ReadBattery(b);
    if r.thresholds.Some? {
      var current := r.thresholds.value;
      if b.start.Some? {
        WindowStaysOrdered(r.bat, current, previous, from);
      } else {
        EndOnly(r.bat, current, previous, from);
      }
      var w := WriteWindow(r.bat, current, previous);
      ReadKeepsTrace(w.bat, from);
    }
  }

  /** The order is forced: writing the start first crosses the end that is still in
      place exactly when the code writes the end first. */
  lemma StartFirstCrossesIff(b: Bat, from: ChargeThresholds, to: ChargeThresholds)
    requires Shows(b, from) && StartChange(from, to).Some?
    ensures Ordered(Store(b, StartAttr, to.start.value).start, b.end) <==> !EndFirst(from, to)
  {
  }

  // --------------------------------------------------------- the stored windows

  /** The power_supply directory of a name: its type file cannot be read, says
      something else, or says Battery, with what read_battery makes of `present`. */
  datatype Supply = Unreadable | NotBattery | IsBattery(present: bool)

  predicate NameChar(c: char) { 'a' <= c <= 'z' || 'A' <= c <= 'Z' || '0' <= c <= '9' || c == '_' || c == '-' }

  /** A name that stays inside the directory. */
  predicate NameValid(name: string) { name != "" && forall i :: 0 <= i < |name| ==> NameChar(name[i]) }

  /** Everything that is refused before an attribute is touched. */
  predicate Admitted(name: string, supply: Supply, requested: ChargeThresholds)
  {
    ThresholdsValid(requested) && NameValid(name) && supply == IsBattery(true)
  }

  /** The part of Service that set_charge_window touches, over one power supply. */
  class ChargeService {
    const native: NativeFile
    const battery: Battery
    const supply: Supply
    const matches: bool
    /** baseline.charge_thresholds. */
    var stored: map<string, ChargeThresholds>
    /** The same field of the config file, and how the next saves go. */
    var file: map<string, ChargeThresholds>
    var saves: seq<bool>

    constructor (native: NativeFile, battery: Battery, supply: Supply, matches: bool,
                 stored: map<string, ChargeThresholds>, saves: seq<bool>)
      ensures this.native == native && this.battery == battery && this.supply == supply && this.matches == matches
      ensures this.stored == this.file == stored && this.saves == saves
    {
      this.native, this.battery, this.supply, this.matches := native, battery, supply, matches;
      this.stored, this.file, this.saves := stored, stored, saves;
    }

    method CheckName(name: string) returns (ok: bool)
      ensures ok == NameValid(name)
    {
      if name == "" { return false; }
      for i := 0 to |name|
        invariant forall j :: 0 <= j < i ==> NameChar(name[j])
      {
        if !NameChar(name[i]) { return false; }
      }
      ok := true;
    }

    /** set_charge_window: the stored map changes only at this battery, only on
        success, and only to a window that a read-back confirmed; the file follows
        if the save succeeds. */
    method SetChargeWindow(name: string, requested: ChargeThresholds) returns (applied: Option<ChargeThresholds>)
      modifies `stored, `file, `saves, native`io, native.dev`script, native.dev`window, native.dev`writes, battery
      ensures applied.None? ==> stored == old(stored) && file == old(file) && saves == old(saves)
      ensures applied.Some? ==> Admitted(name, supply, requested) && stored == old(stored)[name := applied.value]
      ensures applied.Some? ==> file == if old(saves) == [] || old(saves)[0] then stored else old(file)
      ensures applied.Some? && old(battery.end).None? ==>
                FromWindow(native.dev.window) == applied.value
                && Meets(applied.value, requested, old(native.dev.window))
      ensures applied.Some? && old(battery.end).Some? ==>
                Shows(battery.Model(), applied.value) && Asked(old(battery.Model()), requested, applied.value)
      ensures Admitted(name, supply, requested) && old(battery.end).None? && TotalFaults(old(native.Model())) == 0 ==>
                (applied.Some? <==> Grants(old(native.Model()), requested, matches))
      ensures Admitted(name, supply, requested) && old(battery.end).Some? && old(battery.script) == [] ==>
                (applied.Some? <==> Settable(old(battery.Model()), requested))
      ensures !Admitted(name, supply, requested) ==>
                native.dev.writes == old(native.dev.writes) && battery.trace == old(battery.trace)
    {
      hide Grants, Settable, Asked, Meets, TotalFaults;
      applied := None;
      if !ThresholdsValid(requested) { return; }
      var named := CheckName(name);
      if !named || supply != IsBattery(true) { return; }
      if battery.end.None? {
        var outcome := native.SetNativeUsing(requested, matches);
        match outcome {
          case Applied(t) => applied := Some(t);
          case _ =>
        }
      } else {
        var outcome := battery.SetThresholds(requested);
        match outcome {
          case Applied(t) => applied := Some(t);
          case _ =>
        }
      }
      if applied.Some? {
        stored := stored[name := applied.value];
        if saves == [] || saves[0] { file := stored; }
        if saves != [] { saves := saves[1..]; }
      }
    }
  }
}
