/** Concurrent set_curve calls (crates/clevod/src/service.rs): the steps of
    capture_factory_curve and of the write behind it, in every interleaving. */
module CaptureRace {
  import opened Text
  import opened FanCurves
  import opened CurvePipeline
  import opened Daemon
  import opened DaemonRuns
  import F = FactoryRuns

  /** Where a call is: before its first look at the factory curve, before its read
      of the EC, before its re-check under the lock with what it read, before its
      command 14, behind it. */
  datatype Phase = Asks | Reads | Keeps(seen: FanCurve) | Sends | Done

  datatype Call = Call(curve: FanCurve, phase: Phase)

  /** The EC's table, the factory and the saved curve of the baseline, the calls. */
  datatype Race = Race(table: Table, factory: Option<FanCurve>, saved: Option<FanCurve>, calls: seq<Call>)

  /** Call t takes its next step; how the read or the write goes, if it is one. */
  datatype Turn = Turn(t: nat, readOk: bool, io: Io)

  predicate LooksSaved(saved: Option<FanCurve>, c: FanCurve) { saved.Some? && SameWritableState(saved.value, c) }

  function At(r: Race, t: nat, phase: Phase): Race
    requires t < |r.calls|
  {
    r.(calls := r.calls[t := r.calls[t].(phase := phase)])
  }

  function Step(r: Race, e: Turn): Race
    requires e.t < |r.calls|
  {
    var call := r.calls[e.t];
    match call.phase
    case Asks => At(r, e.t, if r.factory.Some? then Sends else Reads)
    case Reads => At(r, e.t, if e.readOk then Keeps(ReadCurve(r.table)) else Sends)
    case Keeps(seen) =>
      var records := r.factory.None? && !LooksSaved(r.saved, seen);
      At(r.(factory := if records then Some(seen) else r.factory), e.t, Sends)
    case Sends =>
      var lands := CurveValid(call.curve) && Applied(e.io);
      At(r.(table := if lands then Written(r.table, call.curve) else r.table), e.t, Done)
    case Done => r
  }

  /** A schedule; turns of calls that do not exist are skipped. */
  function Races(r: Race, es: seq<Turn>): Race
    decreases |es|
  {
    if es == [] then r else Races(if es[0].t < |r.calls| then Step(r, es[0]) else r, es[1..])
  }

  /** One call that nobody disturbs does to the EC's table and to the factory curve
      what set_curve does, whatever fails. */
  lemma {:induction false} CallIsSetCurve(w: World, c: FanCurve)
    requires w.writable
    ensures var e := Turn(0, ReadsOk(w), NextWrite(w));
            var r := Races(Race(w.table, w.baseline.factoryCurve, w.baseline.fanCurve, [Call(c, Asks)]), [e, e, e, e]);
            var v := SetCurve(w, c).world;
            r.table == v.table && r.factory == v.baseline.factoryCurve && r.calls == [Call(c, Done)]
  {
    CaptureIff(w);
    F.SetCurveBaseline(w, c);
    F.ActTable(w, WriteCurve(c));
    var e := Turn(0, ReadsOk(w), NextWrite(w));
    var r := Alone(w.table, w.baseline.factoryCurve, w.baseline.fanCurve, c, Asks);
    hide NextWrite, Capture, SetCurve, CurveValid, Written, ReadCurve, SameWritableState, ToConfig, Applied, Step,
      Races;
    FourTurns(r, e);
    FourSteps(w.table, w.baseline.factoryCurve, w.baseline.fanCurve, c, e);
  }

  function Alone(table: Table, factory: Option<FanCurve>, saved: Option<FanCurve>, c: FanCurve, phase: Phase): Race
  {
    Race(table, factory, saved, [Call(c, phase)])
  }

  lemma FourSteps(table: Table, factory: Option<FanCurve>, saved: Option<FanCurve>, c: FanCurve, e: Turn)
    requires e.t == 0
    ensures var records := factory.None? && e.readOk && !LooksSaved(saved, ReadCurve(table));
            Step(Step(Step(Step(Alone(table, factory, saved, c, Asks), e), e), e), e)
              == Alone(if CurveValid(c) && Applied(e.io) then Written(table, c) else table,
                       if records then Some(ReadCurve(table)) else factory, saved, c, Done)
  {
    var seen := ReadCurve(table);
    var kept := if LooksSaved(saved, seen) then factory else Some(seen);
    StepAlone(table, factory, saved, c, e);
    StepAlone(table, kept, saved, c, e);
    hide Step, Alone, ReadCurve, LooksSaved, CurveValid, Applied, Written;
  }

  /** The step of a lone call in each phase. */
  lemma StepAlone(table: Table, factory: Option<FanCurve>, saved: Option<FanCurve>, c: FanCurve, e: Turn)
    requires e.t == 0
    ensures var seen := ReadCurve(table);
            var sent := if CurveValid(c) && Applied(e.io) then Written(table, c) else table;
            var kept := if factory.None? && !LooksSaved(saved, seen) then Some(seen) else factory;
            && Step(Alone(table, factory, saved, c, Asks), e)
                 == Alone(table, factory, saved, c, if factory.Some? then Sends else Reads)
            && Step(Alone(table, factory, saved, c, Reads), e)
                 == Alone(table, factory, saved, c, if e.readOk then Keeps(seen) else Sends)
            && Step(Alone(table, factory, saved, c, Keeps(seen)), e)
                 == Alone(table, kept, saved, c, Sends)
            && Step(Alone(table, factory, saved, c, Sends), e) == Alone(sent, factory, saved, c, Done)
            && Step(Alone(sent, factory, saved, c, Done), e) == Alone(sent, factory, saved, c, Done)
  {
    hide SameWritableState, ReadCurve, Written, CurveValid, Applied;
    assert forall x: Call, y: Call :: [x][0 := y] == [y];
  }

  lemma {:induction false} FourTurns(r: Race, e: Turn)
    requires e.t < |r.calls|
    ensures Races(r, [e, e, e, e]) == Step(Step(Step(Step(r, e), e), e), e)
  {
    hide Step;
    OneTurn(r, e, [e, e, e]);
    OneTurn(Step(r, e), e, [e, e]);
    OneTurn(Step(Step(r, e), e), e, [e]);
    OneTurn(Step(Step(Step(r, e), e), e), e, []);
    hide Races;
    assert [e] + [e, e, e] == [e, e, e, e] && [e] + [e, e] == [e, e, e] && [e] + [e] == [e, e] && [e] + [] == [e];
  }

  lemma {:induction false} OneTurn(r: Race, e: Turn, es: seq<Turn>)
    requires e.t < |r.calls|
    ensures Races(r, [e] + es) == Races(Step(r, e), es)
    ensures Races(r, []) == r && |Step(r, e).calls| == |r.calls|
  {
    assert ([e] + es)[1..] == es;
  }

  // ---------------------------------------------------------------- what is recorded

  /** Until the factory curve is recorded nobody has got as far as the write, and
      whoever has read the EC has seen the shipped table; what is recorded is that. */
  ghost predicate Shipped(r: Race, shipped: Table)
  {
    if r.factory.Some? then r.factory == Some(ReadCurve(shipped))
    else
      && r.table == shipped
      && forall t :: 0 <= t < |r.calls| ==> r.calls[t].phase in {Asks, Reads, Keeps(ReadCurve(shipped))}
  }

  lemma StepShipped(r: Race, e: Turn, shipped: Table)
    requires e.readOk && e.t < |r.calls|
    ensures Shipped(r, shipped) && !LooksSaved(r.saved, ReadCurve(shipped)) ==> Shipped(Step(r, e), shipped)
  {
    hide SameWritableState, ReadCurve, Written, CurveValid;
  }

  /** On a cold EC, with the capture reads succeeding and the saved curve, if any,
      not looking like the shipped one: in every interleaving of any set_curve calls,
      writes failing at will, nothing but the shipped curve is ever recorded, and it
      is before any call gets to its write. A call that read the EC after another
      one's write keeps quiet, because it looks again under the lock. */
  lemma {:induction false} RacesRecordShipped(r: Race, es: seq<Turn>, shipped: Table)
    requires Shipped(r, shipped) && !LooksSaved(r.saved, ReadCurve(shipped))
    requires forall i :: 0 <= i < |es| ==> es[i].readOk
    ensures Shipped(Races(r, es), shipped)
    decreases |es|
  {
    hide Shipped, Step, LooksSaved;
    if es != [] {
      if es[0].t < |r.calls| {
        StepShipped(r, es[0], shipped);
        StepSaved(r, es[0]);
        RacesRecordShipped(Step(r, es[0]), es[1..], shipped);
      } else {
        RacesRecordShipped(r, es[1..], shipped);
      }
    }
  }

  lemma StepSaved(r: Race, e: Turn)
    requires e.t < |r.calls|
    ensures Step(r, e).saved == r.saved && |Step(r, e).calls| == |r.calls|
  {
  }

  /** So once any of them is done the factory curve is the shipped one. */
  lemma {:induction false} ConcurrentWritesRecordShipped(
    table: Table, saved: Option<FanCurve>, curves: seq<FanCurve>, es: seq<Turn>)
    requires !LooksSaved(saved, ReadCurve(table)) && forall i :: 0 <= i < |es| ==> es[i].readOk
    ensures var r := Races(Race(table, None, saved, Fresh(curves)), es);
            (exists t :: 0 <= t < |r.calls| && r.calls[t].phase.Done?) ==> r.factory == Some(ReadCurve(table))
  {
    hide Races, LooksSaved, ReadCurve;
    RacesRecordShipped(Race(table, None, saved, Fresh(curves)), es, table);
  }

  function Fresh(curves: seq<FanCurve>): seq<Call>
  {
    seq(|curves|, i requires 0 <= i < |curves| => Call(curves[i], Asks))
  }
}
