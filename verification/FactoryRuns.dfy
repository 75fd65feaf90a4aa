/** Which curve a session records as the factory curve. */
module FactoryRuns {
  import opened Text
  import opened FanCurves
  import opened CurvePipeline
  import opened Daemon
  import opened DaemonRuns
  import KB = Keyboards
  import Hid = HidBackend

  /** Two curves ask for the same points wherever both populate a fan. */
  predicate SamePoints(a: Channel, b: Channel) { Absent(a) || Absent(b) || (a[1] == b[1] && a[2] == b[2]) }

  predicate SameCurves(a: FanCurve, b: FanCurve)
  {
    SamePoints(a.cpu, b.cpu) && SamePoints(a.gpu1, b.gpu1) && SamePoints(a.gpu2, b.gpu2)
  }

  lemma ReadBackCompares(table: Table, a: FanCurve, b: FanCurve)
    requires CurveValid(a) && CurveValid(b) && SameWritableState(a, ReadCurve(table))
    ensures SameWritableState(a, ReadCurve(Written(table, b))) <==> SameCurves(a, b)
  {
    WrittenReadBack(table, b);
    hide ReadChannel, Written, CurveValid;
    assert FanReadBack(ReadChannel(table, 0), b.Fan(0), ReadChannel(Written(table, b), 0));
    assert FanReadBack(ReadChannel(table, 1), b.Fan(1), ReadChannel(Written(table, b), 1));
    assert FanReadBack(ReadChannel(table, 2), b.Fan(2), ReadChannel(Written(table, b), 2));
  }

  /** set_curve on a healthy machine that does not know the factory curve yet. */
  lemma HealthySetCurve(w: World, c: FanCurve)
    requires CurveValid(c) && Unknown(w)
    ensures var v := SetCurve(w, c).world;
            var shown := ReadCurve(w.table);
            && SetCurve(w, c).ok && Healthy(v) && v.table == Written(w.table, c)
            && v.baseline == if w.baseline.fanCurve.Some? && SameWritableState(w.baseline.fanCurve.value, shown)
                             then w.baseline else w.baseline.(factoryCurve := Some(shown))
  {
    CaptureIff(w);
    CaptureFacts(w);
    var a := Capture(w);
    WriteEcFacts(a, c);
    hide Capture, WriteEc, Written, ReadCurve, SameWritableState, CurveValid, ToConfig;
    assert a.baseline == w.baseline.(factoryCurve := a.baseline.factoryCurve);
  }

  predicate Healthy(w: World) { w.writable && w.readIo == [] && w.writeIo == [] && w.saveIo == [] && !w.applying }

  predicate Unknown(w: World) { Healthy(w) && w.baseline.factoryCurve.None? }

  // ---------------------------------------------------- a session of curve writes

  function Writes(cs: seq<FanCurve>): seq<Action>
    decreases |cs|
  {
    if cs == [] then [] else [WriteCurve(cs[0])] + Writes(cs[1..])
  }

  function TableAfter(t: Table, cs: seq<FanCurve>): Table
    decreases |cs|
  {
    if cs == [] then t else TableAfter(Written(t, cs[0]), cs[1..])
  }

  /** The first of the curves that differs from `a` where both populate a fan. */
  function FirstDifferent(a: FanCurve, cs: seq<FanCurve>): (k: nat)
    ensures k <= |cs|
    decreases |cs|
  {
    if cs == [] || !SameCurves(a, cs[0]) then 0 else 1 + FirstDifferent(a, cs[1..])
  }

  /** Nothing fails in a session of nothing but curve writes that starts while the
      EC still shows the saved curve `a` and the factory curve is unknown: set_curve
      does not move the comparison point, so of any list of curves the first that
      differs from `a` is what the next write records as the factory curve, as the
      EC read it back. */
  lemma {:induction false} WritesRecordFirstDifferent(w: World, a: FanCurve, cs: seq<FanCurve>)
    requires Unknown(w) && w.baseline.fanCurve == Some(a) && CurveValid(a) && SameWritableState(a, ReadCurve(w.table))
    requires forall i :: 0 <= i < |cs| ==> CurveValid(cs[i])
    ensures var k := FirstDifferent(a, cs);
            Run(w, Writes(cs)).baseline.factoryCurve
              == if k + 1 < |cs| then Some(ReadCurve(TableAfter(w.table, cs[..k + 1]))) else None
  {
    hide Run, SameWritableState, ReadCurve, Written, SameCurves, CurveValid, FirstRecord, FirstDifferent;
    var k := FirstDifferent(a, cs);
    OnlyWrites(cs);
    FirstRecordDecides(w, Writes(cs));
    HealthyFirstRecord(w, a, cs);
    WritesPrefix(cs, if k < |cs| then k + 1 else |cs|);
    if k + 1 < |cs| { HealthyTable(w, cs[..k + 1]); }
  }

  lemma {:induction false} HealthyFirstRecord(w: World, a: FanCurve, cs: seq<FanCurve>)
    requires Unknown(w) && w.baseline.fanCurve == Some(a) && CurveValid(a) && SameWritableState(a, ReadCurve(w.table))
    requires forall i :: 0 <= i < |cs| ==> CurveValid(cs[i])
    ensures var k := FirstDifferent(a, cs);
            FirstRecord(w, Writes(cs)) == if k + 1 < |cs| then k + 1 else |cs|
    decreases |cs|
  {
    hide SetCurve, SameWritableState, ReadCurve, Written, SameCurves, CurveValid;
    if cs != [] {
      var v := SetCurve(w, cs[0]).world;
      HealthySetCurve(w, cs[0]);
      ReadBackCompares(w.table, a, cs[0]);
      assert Writes(cs)[0] == WriteCurve(cs[0]) && Writes(cs)[1..] == Writes(cs[1..]);
      if SameCurves(a, cs[0]) {
        HealthyFirstRecord(v, a, cs[1..]);
      } else if |cs| > 1 {
        assert Writes(cs[1..])[0] == WriteCurve(cs[1]);
        assert FirstRecord(v, Writes(cs[1..])) == 0;
      }
    }
  }

  lemma {:induction false} HealthyTable(w: World, cs: seq<FanCurve>)
    requires w.writable && w.writeIo == [] && forall i :: 0 <= i < |cs| ==> CurveValid(cs[i])
    ensures Run(w, Writes(cs)).table == TableAfter(w.table, cs)
    decreases |cs|
  {
    hide SetCurve, Active, Written, CurveValid, ToConfig;
    if cs != [] {
      SetCurveFacts(w, cs[0]);
      ActTable(w, WriteCurve(cs[0]));
      assert Writes(cs)[0] == WriteCurve(cs[0]) && Writes(cs)[1..] == Writes(cs[1..]);
      HealthyTable(SetCurve(w, cs[0]).world, cs[1..]);
    }
  }

  lemma {:induction false} WritesPrefix(cs: seq<FanCurve>, n: nat)
    requires n <= |cs|
    ensures |Writes(cs)| == |cs| && Writes(cs)[..n] == Writes(cs[..n])
    decreases |cs|
  {
    if cs != [] {
      WritesPrefix(cs[1..], if n == 0 then 0 else n - 1);
      if n > 0 { assert cs[..n][1..] == cs[1..][..n - 1]; }
    }
  }

  lemma {:induction false} OnlyWrites(cs: seq<FanCurve>)
    ensures forall i :: 0 <= i < |Writes(cs)| ==> Writes(cs)[i].WriteCurve?
    decreases |cs|
  {
    if cs != [] { OnlyWrites(cs[1..]); }
  }

  /** Two writes, nothing failing: the first is recorded exactly when it differs. */
  lemma {:induction false} SecondCurveRecordsFirst(w: World, a: FanCurve, b: FanCurve, c: FanCurve)
    requires Unknown(w) && w.baseline.fanCurve == Some(a) && SameWritableState(a, ReadCurve(w.table))
    requires CurveValid(a) && CurveValid(b) && CurveValid(c)
    ensures Run(w, Writes([b, c])).baseline.factoryCurve
         == if SameCurves(a, b) then None else Some(ReadCurve(Written(w.table, b)))
  {
    hide Run, SameWritableState, ReadCurve, Written, SameCurves, CurveValid, Unknown;
    var cs := [b, c];
    assert forall i :: 0 <= i < |cs| ==> CurveValid(cs[i]);
    WritesRecordFirstDifferent(w, a, cs);
    assert cs[1..] == [c] && [c][1..] == [];
    assert !SameCurves(a, b) ==> FirstDifferent(a, cs) == 0;
    assert SameCurves(a, b) ==> FirstDifferent(a, cs) == 1 + FirstDifferent(a, [c]);
    assert cs[..1] == [b] && [b][1..] == [];
    assert TableAfter(w.table, cs[..1]) == TableAfter(Written(w.table, b), []);
  }

  /** How such a session begins: a warm restart onto a file that has a curve but no
      factory curve. */
  lemma WarmStartStaysUnknown(w: World, a: FanCurve)
    requires Stored(w, a) && w.disk.value.factoryCurve.None? && Healthy(w) && SameWritableState(a, ReadCurve(w.table))
    ensures var v := Boot(w, Warm, true);
            Unknown(v) && v.baseline.fanCurve == Some(a) && SameWritableState(a, ReadCurve(v.table))
  {
    hide Capture, SetCurve, CurveValid, Hid.ReplaySaved, ToConfig, ReadCurve, SameWritableState;
    var cfg := w.disk.value;
    var start := Rebooted(w, Warm).(baseline := cfg);
    CaptureIff(start);
    CaptureFacts(start);
    var v := Capture(start).(applying := true);
    var s := v.(savedCurve := Some(a));
    SetCurveFacts(s, a);
    SetCurveUnknown(s, a);
    var x := SetCurve(s, a).world;
    assert RestoreCurve(v, cfg) == x && RestoreMode(x, cfg) == x;
    PerfUnknown(x, cfg);
    PerfKeeps(x, cfg, a);
  }

  /** So the default can be wrong, with nothing failing: a daemon updated while its
      curve is active, then nothing but curve writes of which one before the last
      differs from it, records that one, the user's own, as the factory's. */
  lemma {:induction false} WarmWritesRecordUsersCurve(w: World, a: FanCurve, cs: seq<FanCurve>)
    requires Stored(w, a) && w.disk.value.factoryCurve.None? && Healthy(w) && SameWritableState(a, ReadCurve(w.table))
    requires forall i :: 0 <= i < |cs| ==> CurveValid(cs[i])
    ensures var v := Run(Boot(w, Warm, true), Writes(cs));
            var k := FirstDifferent(a, cs);
            if k + 1 < |cs|
            then v.baseline.factoryCurve.Some? && SameWritableState(cs[k], v.baseline.factoryCurve.value)
            else v.baseline.factoryCurve == None
  {
    assert CurveValid(a);
    WarmStartStaysUnknown(w, a);
    hide *;
    RecordsOneOf(Boot(w, Warm, true), a, cs);
  }

  lemma {:induction false} RecordsOneOf(w: World, a: FanCurve, cs: seq<FanCurve>)
    requires Unknown(w) && w.baseline.fanCurve == Some(a) && CurveValid(a) && SameWritableState(a, ReadCurve(w.table))
    requires forall i :: 0 <= i < |cs| ==> CurveValid(cs[i])
    ensures var v := Run(w, Writes(cs));
            var k := FirstDifferent(a, cs);
            if k + 1 < |cs|
            then v.baseline.factoryCurve.Some? && SameWritableState(cs[k], v.baseline.factoryCurve.value)
            else v.baseline.factoryCurve == None
  {
    hide *;
    WritesRecordFirstDifferent(w, a, cs);
    var k := FirstDifferent(a, cs);
    if k + 1 < |cs| { LastIsShown(w.table, cs, k); }
  }

  lemma {:induction false} LastIsShown(t: Table, cs: seq<FanCurve>, k: nat)
    requires k < |cs| && CurveValid(cs[k])
    ensures SameWritableState(cs[k], ReadCurve(TableAfter(t, cs[..k + 1])))
  {
    hide *;
    TableAfterLast(t, cs[..k], cs[k]);
    assert cs[..k] + [cs[k]] == cs[..k + 1];
    WrittenReadBack(TableAfter(t, cs[..k]), cs[k]);
  }

  lemma {:induction false} TableAfterLast(t: Table, cs: seq<FanCurve>, c: FanCurve)
    ensures TableAfter(t, cs + [c]) == Written(TableAfter(t, cs), c)
    decreases |cs|
  {
    hide Written;
    if cs == [] {
      assert cs + [c] == [c] && [c][1..] == [];
      assert TableAfter(t, [c]) == TableAfter(Written(t, c), []);
    } else {
      assert (cs + [c])[0] == cs[0] && (cs + [c])[1..] == cs[1..] + [c];
      TableAfterLast(Written(t, cs[0]), cs[1..], c);
    }
  }

  lemma SetCurveUnknown(w: World, a: FanCurve)
    requires w.writable && w.readIo == [] && w.writeIo == [] && w.saveIo == [] && w.baseline.factoryCurve.None?
    requires CurveValid(a) && w.baseline.fanCurve == Some(a) && SameWritableState(a, ReadCurve(w.table)) && w.applying
    ensures var v := SetCurve(w, a).world;
            v.baseline == w.baseline && v.readIo == [] && v.saveIo == []
  {
    CaptureIff(w);
    CaptureFacts(w);
    WriteEcFacts(Capture(w), a);
    hide Capture, WriteEc, ReadCurve, SameWritableState, CurveValid, ToConfig;
  }

  lemma PerfUnknown(w: World, cfg: Config)
    requires w.applying && w.readIo == [] && w.saveIo == []
    ensures var v := RestoreKeyboard(RestorePerf(w, cfg), cfg);
            v.readIo == [] && v.saveIo == [] && v.baseline == w.baseline
  {
    hide Hid.ReplaySaved, ToConfig;
  }

  // --------------------------------------------------------- which read decides

  /** This action reads the curve for a capture, successfully. */
  predicate Captures(w: World, a: Action) { a.WriteCurve? && w.writable && ReadsOk(w) }

  /** And records what it read: it does not look like the saved curve, if any. */
  predicate RecordsIn(w: World, a: Action) { a.WriteCurve? && w.writable && Records(w) }

  /** This action's command 14 reaches the EC, reported or not. */
  predicate Lands(w: World, a: Action) { a.WriteCurve? && w.writable && CurveValid(a.curve) && Applied(NextWrite(w)) }

  function FirstCapture(w: World, actions: seq<Action>): (k: nat)
    ensures k <= |actions|
    decreases |actions|
  {
    if actions == [] || Captures(w, actions[0]) then 0 else 1 + FirstCapture(Act(w, actions[0]), actions[1..])
  }

  function FirstRecord(w: World, actions: seq<Action>): (k: nat)
    ensures k <= |actions|
    decreases |actions|
  {
    if actions == [] || RecordsIn(w, actions[0]) then 0 else 1 + FirstRecord(Act(w, actions[0]), actions[1..])
  }

  function FirstLanding(w: World, actions: seq<Action>): (k: nat)
    ensures k <= |actions|
    decreases |actions|
  {
    if actions == [] || Lands(w, actions[0]) then 0 else 1 + FirstLanding(Act(w, actions[0]), actions[1..])
  }

  predicate Session(actions: seq<Action>) { forall i :: 0 <= i < |actions| ==> !actions[i].Start? }

  /** Nothing is saved or recorded yet. */
  predicate Blank(w: World) { w.baseline.factoryCurve.None? && w.baseline.fanCurve.None? }

  lemma WriteEcTable(w: World, c: FanCurve)
    requires CurveValid(c)
    ensures WriteEc(w, c).world.table == if Applied(NextWrite(w)) then Written(w.table, c) else w.table
  {
    CurveWritePipeline(w.table, c);
    hide DriverWrite, Written, CurveValid, EncodeForm, Bytes;
  }

  /** One action of a session in which nothing is recorded yet. */
  lemma UnknownAct(w: World, a: Action)
    requires w.baseline.factoryCurve.None? && !a.Start?
    ensures Act(w, a).baseline.factoryCurve == if RecordsIn(w, a) then Some(ReadCurve(w.table)) else None
    ensures Act(w, a).baseline.fanCurve == w.baseline.fanCurve
  {
    if a.WriteCurve? {
      CaptureIff(w);
      SetCurveBaseline(w, a.curve);
      hide ReadCurve, SetCurve, Capture, SameWritableState, ToConfig;
    } else {
      OthersKeepBaseline(w, a);
      hide Act;
    }
  }

  lemma SetCurveBaseline(w: World, c: FanCurve)
    ensures SetCurve(w, c).world.baseline == if w.writable then Capture(w).baseline else w.baseline
  {
    hide WriteEc, Capture, CurveValid, ToConfig;
    if CurveValid(c) { WriteEcFacts(Capture(w), c); }
  }

  lemma OthersKeepBaseline(w: World, a: Action)
    requires !a.Start? && !a.WriteCurve?
    ensures Act(w, a).baseline.factoryCurve == w.baseline.factoryCurve
    ensures Act(w, a).baseline.fanCurve == w.baseline.fanCurve
  {
    hide ToConfig;
  }

  lemma ActTable(w: World, a: Action)
    requires !a.Start?
    ensures Act(w, a).table == if Lands(w, a) then Written(w.table, a.curve) else w.table
  {
    CaptureFacts(w);
    hide WriteEc, Capture, CurveValid, ToConfig, Written;
    if a.WriteCurve? && CurveValid(a.curve) { WriteEcTable(Capture(w), a.curve); }
  }

  /** Under any failures and with any other actions in between, a session that
      starts without a factory curve records what the EC shows at the first curve
      write whose capture read succeeds while the EC does not show the saved curve,
      and none if there is no such write. */
  lemma {:induction false} FirstRecordDecides(w: World, actions: seq<Action>)
    requires w.baseline.factoryCurve.None? && Session(actions)
    ensures var k := FirstRecord(w, actions);
            Run(w, actions).baseline.factoryCurve
              == if k < |actions| then Some(ReadCurve(Run(w, actions[..k]).table)) else None
    decreases |actions|
  {
    hide Act, ReadCurve, RecordsIn;
    if actions != [] {
      var a, rest := actions[0], actions[1..];
      UnknownAct(w, a);
      var k := FirstRecord(w, actions);
      if RecordsIn(w, a) {
        SessionFactoryNeverChanges(Act(w, a), rest, ReadCurve(w.table));
        assert Run(w, actions[..0]) == w;
      } else {
        FirstRecordDecides(Act(w, a), rest);
        assert actions[..k][0] == a && actions[..k][1..] == rest[..k - 1];
      }
    }
  }

  /** Without a saved curve there is nothing to compare with. */
  lemma {:induction false} BlankRecords(w: World, actions: seq<Action>)
    requires Blank(w) && Session(actions)
    ensures FirstRecord(w, actions) == FirstCapture(w, actions)
    decreases |actions|
  {
    hide Act, ReadCurve;
    if actions != [] && !Captures(w, actions[0]) {
      UnknownAct(w, actions[0]);
      BlankRecords(Act(w, actions[0]), actions[1..]);
    }
  }

  /** So there the first successful capture read decides. */
  lemma {:induction false} FirstReadDecides(w: World, actions: seq<Action>)
    requires Blank(w) && Session(actions)
    ensures var k := FirstCapture(w, actions);
            Run(w, actions).baseline.factoryCurve
              == if k < |actions| then Some(ReadCurve(Run(w, actions[..k]).table)) else None
  {
    hide Run, ReadCurve, FirstRecord, FirstCapture;
    BlankRecords(w, actions);
    FirstRecordDecides(w, actions);
  }

  lemma {:induction false} FirstRecordMeets(w: World, actions: seq<Action>)
    requires w.baseline.factoryCurve.None? && Session(actions) && FirstRecord(w, actions) < |actions|
    ensures var v := Run(w, actions[..FirstRecord(w, actions)]);
            Records(v) && v.baseline.fanCurve == w.baseline.fanCurve
    decreases |actions|
  {
    hide Act, ReadCurve, Records;
    var a, rest := actions[0], actions[1..];
    var k := FirstRecord(w, actions);
    if RecordsIn(w, a) {
      assert Run(w, actions[..0]) == w;
    } else {
      UnknownAct(w, a);
      FirstRecordMeets(Act(w, a), rest);
      assert actions[..k][0] == a && actions[..k][1..] == rest[..k - 1];
    }
  }

  /** Until a write lands the EC keeps its table. */
  lemma {:induction false} TableBeforeLanding(w: World, actions: seq<Action>, n: nat)
    requires Session(actions) && n <= FirstLanding(w, actions)
    ensures Run(w, actions[..n]).table == w.table
    decreases |actions|
  {
    hide Act, Lands;
    if n == 0 {
      assert actions[..0] == [];
    } else {
      ActTable(w, actions[0]);
      assert actions[..n][0] == actions[0] && actions[..n][1..] == actions[1..][..n - 1];
      TableBeforeLanding(Act(w, actions[0]), actions[1..], n - 1);
    }
  }

  /** Compared as the daemon compares, f is one of the curves the user writes. */
  ghost predicate WrittenIn(f: FanCurve, all: seq<Action>)
  {
    exists i :: 0 <= i < |all| && all[i].WriteCurve? && CurveValid(all[i].curve) && SameWritableState(all[i].curve, f)
  }

  ghost predicate ShowsOneOf(t: Table, all: seq<Action>) { WrittenIn(ReadCurve(t), all) }

  lemma LandedShows(w: World, a: Action, all: seq<Action>)
    requires !a.Start? && a in all
    ensures Lands(w, a) || ShowsOneOf(w.table, all) ==> ShowsOneOf(Act(w, a).table, all)
  {
    ActTable(w, a);
    if Lands(w, a) {
      WrittenReadBack(w.table, a.curve);
      hide Act, ReadCurve, Written, CurveValid, SameWritableState;
      var i :| 0 <= i < |all| && all[i] == a;
      assert all[i].WriteCurve? && CurveValid(all[i].curve)
        && SameWritableState(all[i].curve, ReadCurve(Act(w, a).table));
    } else {
      hide Act;
    }
  }

  /** From the first write that lands on, the EC shows one of them. */
  lemma {:induction false} TableAfterLanding(w: World, actions: seq<Action>, n: nat, all: seq<Action>)
    requires Session(actions) && n <= |actions| && forall i :: 0 <= i < |actions| ==> actions[i] in all
    requires FirstLanding(w, actions) < n || ShowsOneOf(w.table, all)
    ensures ShowsOneOf(Run(w, actions[..n]).table, all)
    decreases |actions|
  {
    hide Act, Lands, ShowsOneOf;
    if n == 0 {
      assert actions[..0] == [];
    } else {
      LandedShows(w, actions[0], all);
      assert actions[..n][0] == actions[0] && actions[..n][1..] == actions[1..][..n - 1];
      TableAfterLanding(Act(w, actions[0]), actions[1..], n - 1, all);
    }
  }

  /** A session on a cold EC without a factory curve, whatever curve is saved, with
      reads, writes and saves failing at will and none of the curves written looking
      like the shipped one: the factory curve ends up right exactly when a capture
      records no later than the first write that reaches the EC. */
  lemma {:induction false} SessionFactoryIsShippedIff(w: World, actions: seq<Action>)
    requires w.baseline.factoryCurve.None? && Session(actions)
    ensures var k := FirstRecord(w, actions);
            var right := Run(w, actions).baseline.factoryCurve == Some(ReadCurve(w.shipped));
            w.table == w.shipped && !ShowsOneOf(w.shipped, actions) ==>
              (right <==> k < |actions| && k <= FirstLanding(w, actions))
  {
    hide Run, ReadCurve, FirstRecord, FirstLanding, ShowsOneOf;
    var k := FirstRecord(w, actions);
    FirstRecordDecides(w, actions);
    if k <= FirstLanding(w, actions) {
      TableBeforeLanding(w, actions, k);
    } else {
      TableAfterLanding(w, actions, k, actions);
      ShowsByCurve(Run(w, actions[..k]).table, w.shipped, actions);
    }
  }

  lemma ShowsByCurve(t: Table, u: Table, all: seq<Action>)
    ensures ReadCurve(t) == ReadCurve(u) ==> (ShowsOneOf(t, all) <==> ShowsOneOf(u, all))
  {
  }

  /** A start from no file: the capture read of the start itself counts first. */
  lemma EmptyStart(w: World, kind: Restart)
    requires w.disk.None?
    ensures var v := Boot(w, kind, true);
            && v.table == (if kind.PowerLoss? then w.shipped else w.table) && v.shipped == w.shipped
            && v.baseline.fanCurve.None?
            && v.baseline.factoryCurve == if ReadsOk(w) then Some(ReadCurve(v.table)) else None
  {
    var start := Rebooted(w, kind).(baseline := DefaultConfig());
    CaptureIff(start);
    CaptureFacts(start);
    hide Capture, ReadCurve, Hid.ReplaySaved, KB.Fresh;
  }

  /** From no file and a cold EC: right after a session exactly when the read of the
      start succeeds, or a later one no later than the first write that lands. */
  lemma {:induction false} FirstSessionFactoryIff(w: World, kind: Restart, actions: seq<Action>)
    requires w.disk.None? && (kind.PowerLoss? || w.table == w.shipped) && Session(actions)
    requires !ShowsOneOf(w.shipped, actions)
    ensures var v := Boot(w, kind, true);
            var early := FirstCapture(v, actions) < |actions| && FirstCapture(v, actions) <= FirstLanding(v, actions);
            Run(v, actions).baseline.factoryCurve == Some(ReadCurve(w.shipped)) <==> ReadsOk(w) || early
  {
    EmptyStart(w, kind);
    hide Boot, Run, ReadCurve, ShowsOneOf, FirstCapture, FirstLanding;
    var v := Boot(w, kind, true);
    if ReadsOk(w) {
      SessionFactoryNeverChanges(v, actions, ReadCurve(w.shipped));
    } else {
      BlankRecords(v, actions);
      SessionFactoryIsShippedIff(v, actions);
    }
  }

  /** Once such a factory curve is in the file it is the shipped one for good, as
      long as every start that refuses the file finds it in the EC again. */
  lemma {:induction false} SavedFactoryIsShipped(w: World, actions: seq<Action>, more: seq<Action>)
    requires w.baseline.factoryCurve.None? && w.table == w.shipped && Session(actions) && !w.applying
    requires FirstRecord(w, actions) < |actions| && FirstRecord(w, actions) <= FirstLanding(w, actions)
    requires var v := Run(w, actions); v.disk.Some? && v.disk.value.factoryCurve == v.baseline.factoryCurve
    ensures var v := Run(w, actions);
            var f := ReadCurve(w.shipped);
            && (FactoryStays(v, more, f) <==> AlwaysShowsAgain(v, more, f))
            && ((forall i :: 0 <= i < |more| && more[i].Start? ==> more[i].loadOk) ==> FactoryIs(Run(v, more), f))
  {
    hide ReadCurve, FirstRecord, FirstLanding, FactoryStays, AlwaysShowsAgain;
    FirstRecordDecides(w, actions);
    TableBeforeLanding(w, actions, FirstRecord(w, actions));
    SessionKeepsApplying(w, actions);
    hide Run;
    FactoryStaysIff(Run(w, actions), more, ReadCurve(w.shipped));
    if forall i :: 0 <= i < |more| && more[i].Start? ==> more[i].loadOk {
      FactoryNeverChanges(Run(w, actions), more, ReadCurve(w.shipped));
    }
  }

  lemma {:induction false} SessionKeepsApplying(w: World, actions: seq<Action>)
    requires Session(actions)
    ensures Run(w, actions).applying == w.applying
    decreases |actions|
  {
    hide Act;
    if actions != [] {
      ActKeepsApplying(w, actions[0]);
      SessionKeepsApplying(Act(w, actions[0]), actions[1..]);
    }
  }

  lemma ActKeepsApplying(w: World, a: Action)
    requires !a.Start?
    ensures Act(w, a).applying == w.applying
  {
    CaptureFacts(w);
    hide WriteEc, Capture, CurveValid, ToConfig;
    if a.WriteCurve? && CurveValid(a.curve) { WriteEcFacts(Capture(w), a.curve); }
  }

  /** The replay writes the saved curve, and so reads a second time. */
  predicate ReplaysCurve(w: World, cfg: Config)
  {
    && cfg.applyOnStart && w.writable && cfg.fanCurve.Some? && CurveValid(cfg.fanCurve.value)
    && (cfg.fanMode == None || cfg.fanMode == Some(CUSTOM))
  }

  // ------------------------------------------------- the user's curve as default

  /** A session without a factory curve that starts while the EC shows the saved
      curve `a`: whatever fails and whatever else happens in it, a factory curve it
      records is one of the curves the user wrote in it. */
  lemma {:induction false} RecordsUsersCurve(w: World, a: FanCurve, actions: seq<Action>)
    requires w.baseline.factoryCurve.None? && w.baseline.fanCurve == Some(a) && SameWritableState(a, ReadCurve(w.table))
    requires Session(actions)
    ensures var f := Run(w, actions).baseline.factoryCurve;
            && (f.Some? <==> FirstRecord(w, actions) < |actions|)
            && (f.Some? ==> WrittenIn(f.value, actions))
  {
    hide Run, ReadCurve, FirstRecord, FirstLanding, SameWritableState, CurveValid;
    FirstRecordDecides(w, actions);
    var k := FirstRecord(w, actions);
    if k < |actions| {
      FirstRecordMeets(w, actions);
      if k <= FirstLanding(w, actions) { TableBeforeLanding(w, actions, k); }
      TableAfterLanding(w, actions, k, actions);
    }
  }

  /** So with a daemon updated, or its factory curve lost, while its curve is
      active: from a warm start on, whatever fails, the factory curve stays unknown
      or becomes the user's own. */
  lemma {:induction false} UserCurveRecordedAsFactory(w: World, a: FanCurve, actions: seq<Action>)
    requires w.disk.Some? && w.disk.value.fanCurve == Some(a) && w.disk.value.factoryCurve.None?
    requires SameWritableState(a, ReadCurve(w.table)) && Session(actions)
    ensures var v := Boot(w, Warm, true);
            var f := Run(v, actions).baseline.factoryCurve;
            && (f.Some? <==> FirstRecord(v, actions) < |actions|)
            && (f.Some? ==> WrittenIn(f.value, actions))
  {
    WarmStartShowsSaved(w, a);
    hide Boot, Run, FirstRecord, WrittenIn, ReadCurve, SameWritableState;
    RecordsUsersCurve(Boot(w, Warm, true), a, actions);
  }

  lemma WarmStartShowsSaved(w: World, a: FanCurve)
    requires w.disk.Some? && w.disk.value.fanCurve == Some(a) && w.disk.value.factoryCurve.None?
    requires SameWritableState(a, ReadCurve(w.table))
    ensures var v := Boot(w, Warm, true);
            && v.baseline.factoryCurve.None? && v.baseline.fanCurve == Some(a)
            && SameWritableState(a, ReadCurve(v.table))
  {
    StartRecordsIff(w, Warm);
    ApplyTable(Rebooted(w, Warm), w.disk.value);
    if CurveValid(a) { WrittenReadBack(w.table, a); }
    hide ApplySaved, SameWritableState, ReadCurve, Written, CurveValid;
  }

  lemma ApplyTable(w: World, cfg: Config)
    ensures var v, c := ApplySaved(w, cfg), cfg.fanCurve;
            && (v.table == w.table || (c.Some? && CurveValid(c.value) && v.table == Written(w.table, c.value)))
            && v.baseline.fanCurve == c
  {
    var start := w.(baseline := cfg);
    CaptureFacts(start);
    var v := Capture(start).(applying := true);
    ReplayTable(v, cfg);
    ReplayBaseline(v, cfg);
    hide Capture, Replay, SetCurve, Written, CurveValid, Active, ToConfig;
    if cfg.fanCurve.Some? { SetCurveFacts(v.(savedCurve := cfg.fanCurve), cfg.fanCurve.value); }
  }

  /** A replay leaves the EC's table or writes the saved curve over it. */
  lemma ReplayTable(w: World, cfg: Config)
    ensures var t, saved := Replay(w, cfg).table, cfg.fanCurve;
            t == w.table || (saved.Some? && CurveValid(saved.value) && t == Written(w.table, saved.value))
  {
    hide SetCurve, CurveValid, Written, Hid.ReplaySaved, ToConfig;
    if cfg.fanCurve.Some? { ActTable(w.(savedCurve := cfg.fanCurve), WriteCurve(cfg.fanCurve.value)); }
    var x := RestoreCurve(w, cfg);
    hide RestoreCurve, Lands;
    PerfKeepsEc(RestoreMode(x, cfg), cfg);
    PerfKeepsEc(w, cfg);
    assert RestoreMode(x, cfg).table == x.table;
  }

  /** If it was not saved before the next restart, that start decides afresh from
      what the EC shows then: after a warm restart, the user's own table. */
  lemma StartRecordsIff(w: World, kind: Restart)
    requires Loaded(w, true).factoryCurve.None?
    ensures var cfg := Loaded(w, true);
            var shown := Shown(w, kind);
            var known := ReadsOk(w) || (ReplaysCurve(w, cfg) && ReadsOk(w.(readIo := Tail(w.readIo))));
            Boot(w, kind, true).baseline.factoryCurve
              == if known && !(cfg.fanCurve.Some? && SameWritableState(cfg.fanCurve.value, shown))
                 then Some(shown) else None
  {
    hide ApplySaved, SameWritableState, ReadCurve, CurveValid;
    ApplyRecordsIff(Rebooted(w, kind), Loaded(w, true));
  }

  lemma ApplyRecordsIff(w: World, cfg: Config)
    requires cfg.factoryCurve.None?
    ensures var shown := ReadCurve(w.table);
            var known := ReadsOk(w) || (ReplaysCurve(w, cfg) && ReadsOk(w.(readIo := Tail(w.readIo))));
            ApplySaved(w, cfg).baseline.factoryCurve
              == if known && !(cfg.fanCurve.Some? && SameWritableState(cfg.fanCurve.value, shown))
                 then Some(shown) else None
  {
    var start := w.(baseline := cfg);
    CaptureIff(start);
    CaptureFacts(start);
    hide Capture, Replay, SameWritableState, ReadCurve, ToConfig, CurveValid;
    var v := Capture(start).(applying := true);
    if cfg.applyOnStart {
      if v.baseline.factoryCurve.Some? {
        ReplayKeepsFactory(v, cfg, v.baseline.factoryCurve.value);
      } else {
        ReplayRecordsIff(v, cfg);
      }
    }
  }

  /** A replay touches the baseline in set_curve only. */
  lemma ReplayBaseline(w: World, cfg: Config)
    ensures Replay(w, cfg).baseline == if w.writable then RestoreCurve(w, cfg).baseline else w.baseline
  {
    var a := RestoreCurve(w, cfg);
    hide RestoreCurve;
    ModesKeepBaseline(a, cfg);
    hide RestoreMode, RestorePerf, Hid.ReplaySaved;
  }

  lemma ModesKeepBaseline(w: World, cfg: Config)
    ensures RestorePerf(RestoreMode(w, cfg), cfg).baseline == w.baseline
  {
    hide ToConfig;
    var b := RestoreMode(w, cfg);
    assert b.baseline == w.baseline;
    hide RestoreMode;
  }

  lemma ReplayKeepsFactory(w: World, cfg: Config, f: FanCurve)
    requires w.baseline.factoryCurve == Some(f)
    ensures Replay(w, cfg).baseline.factoryCurve == Some(f)
  {
    ReplayBaseline(w, cfg);
    hide Replay, SetCurve, CurveValid;
    if cfg.fanCurve.Some? { KnownStays(w.(savedCurve := cfg.fanCurve), cfg.fanCurve.value, f); }
  }

  lemma KnownStays(w: World, c: FanCurve, f: FanCurve)
    requires w.baseline.factoryCurve == Some(f)
    ensures SetCurve(w, c).world.baseline.factoryCurve == Some(f)
  {
    SetCurveBaseline(w, c);
    hide SetCurve;
  }

  lemma ReplayRecordsIff(w: World, cfg: Config)
    requires w.baseline.factoryCurve.None? && cfg.applyOnStart
    ensures Replay(w, cfg).baseline.factoryCurve
         == if ReplaysCurve(w, cfg) && Records(w) then Some(ReadCurve(w.table)) else None
  {
    ReplayBaseline(w, cfg);
    hide Replay, SetCurve, Capture, CurveValid, SameWritableState, ReadCurve;
    if cfg.fanCurve.Some? {
      var v := w.(savedCurve := cfg.fanCurve);
      CaptureIff(v);
      SetCurveBaseline(v, cfg.fanCurve.value);
    }
  }
}
