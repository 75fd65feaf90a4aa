/** Dragging curve points in the UI (ui/src/components/CurveCard.tsx), and what the
    daemon's JSON reader (crates/clevod/src/service.rs) makes of the result. */
module CurveCard {
  import opened Text
  import opened FanCurves
  import opened CurvePipeline

  datatype CurvePoint = CurvePoint(temp: int, duty: int)

  const MIN_GAP := 2

  /** Math.round: halves go up. */
  function JsRound(x: real): int { (x + 0.5).Floor }

  /** Math.min(hi, Math.max(lo, value)): hi wins when the bounds cross. */
  function JsClamp(value: int, lo: int, hi: int): int
  {
    var raised := if value < lo then lo else value;
    if raised > hi then hi else raised
  }

  function LowerBound(points: seq<CurvePoint>, index: nat): int
    requires index < |points|
  {
    if index == 0 then 0 else points[index - 1].temp + MIN_GAP
  }

  function UpperBound(points: seq<CurvePoint>, index: nat): int
    requires index < |points|
  {
    if index == |points| - 1 then 100 else points[index + 1].temp - MIN_GAP
  }

  function Moved(points: seq<CurvePoint>, index: nat, temp: real, duty: real): seq<CurvePoint>
    requires index < |points|
  {
    points[index := CurvePoint(JsClamp(JsRound(temp), LowerBound(points, index), UpperBound(points, index)),
                               JsClamp(JsRound(duty), 0, 100))]
  }

  predicate IsEditable(index: nat) { index == 1 || index == 2 }

  /** t is x to the nearest integer, halves up. */
  predicate Rounds(x: real, t: int) { t as real - 0.5 <= x < t as real + 0.5 }

  /** Where a drop ends: at t if the bounds allow it, else at the nearer bound. */
  predicate Lands(at: int, t: int, lo: int, hi: int)
  {
    (lo <= t <= hi ==> at == t) && (t < lo <= hi ==> at == lo) && (lo <= hi < t ==> at == hi)
  }

  /** A point lands where it is dropped, two degrees off its neighbours and within
      the percentages; no other point moves. */
  lemma MoveLands(p: seq<CurvePoint>, index: nat, temp: real, duty: real, t: int, d: int)
    requires index < |p| && Rounds(temp, t) && Rounds(duty, d)
    ensures var q := Moved(p, index, temp, duty);
            && |q| == |p| && (forall i :: 0 <= i < |p| && i != index ==> q[i] == p[i])
            && Lands(q[index].temp, t, if index == 0 then 0 else p[index - 1].temp + 2,
                     if index == |p| - 1 then 100 else p[index + 1].temp - 2)
            && Lands(q[index].duty, d, 0, 100)
  {
    RoundsOnce(temp, t);
    RoundsOnce(duty, d);
    hide JsRound;
  }

  lemma RoundsOnce(x: real, t: int)
    requires Rounds(x, t)
    ensures JsRound(x) == t
  {
    assert t as real <= x + 0.5 < (t + 1) as real;
  }

  /** movePoint: a copy of the points, then the two fields of one. */
  method MovePoint(points: seq<CurvePoint>, index: nat, temp: real, duty: real) returns (next: seq<CurvePoint>)
    requires index < |points|
    ensures next == Moved(points, index, temp, duty)
    ensures forall i :: 0 <= i < |points| && i != index ==> next[i] == points[i]
    ensures 0 <= next[index].duty <= 100
    ensures var lo, hi := LowerBound(points, index), UpperBound(points, index);
            lo <= hi ==> lo <= next[index].temp <= hi
    ensures forall t, d :: Rounds(temp, t) && Rounds(duty, d) ==>
              && Lands(next[index].temp, t, if index == 0 then 0 else points[index - 1].temp + 2,
                       if index == |points| - 1 then 100 else points[index + 1].temp - 2)
              && Lands(next[index].duty, d, 0, 100)
  {
    forall t, d | Rounds(temp, t) && Rounds(duty, d)
      ensures JsRound(temp) == t && JsRound(duty) == d
    {
      RoundsOnce(temp, t);
      RoundsOnce(duty, d);
    }
    hide JsRound, Rounds;
    var copy := new CurvePoint[|points|](i requires 0 <= i < |points| => points[i]);
    var lo, hi := LowerBound(points, index), UpperBound(points, index);
    copy[index] := copy[index].(temp := JsClamp(JsRound(temp), lo, hi));
    copy[index] := copy[index].(duty := JsClamp(JsRound(duty), 0, 100));
    next := copy[..];
  }

  /** What the card shows of a fan that can be dragged. */
  predicate Draggable(p: seq<CurvePoint>)
  {
    && |p| == 4 && p[0].temp + MIN_GAP <= p[1].temp && p[1].temp + MIN_GAP <= p[2].temp
    && p[2].temp + MIN_GAP <= p[3].temp
    && forall i :: 0 <= i < 4 ==> 0 <= p[i].temp <= 100 && 0 <= p[i].duty <= 100
  }

  /** One drag event on an editable point of the CPU or the GPU1 fan. */
  datatype Drag = Drag(cpu: bool, index: nat, temp: real, duty: real)

  datatype Card = Card(cpu: seq<CurvePoint>, gpu1: seq<CurvePoint>)

  function Dragged(c: Card, d: Drag): Card
    requires |c.cpu| == 4 && |c.gpu1| == 4 && IsEditable(d.index)
  {
    if d.cpu then c.(cpu := Moved(c.cpu, d.index, d.temp, d.duty))
    else c.(gpu1 := Moved(c.gpu1, d.index, d.temp, d.duty))
  }

  function AllDragged(c: Card, ds: seq<Drag>): (r: Card)
    requires |c.cpu| == 4 && |c.gpu1| == 4 && forall i :: 0 <= i < |ds| ==> IsEditable(ds[i].index)
    ensures |r.cpu| == 4 && |r.gpu1| == 4
    decreases |ds|
  {
    if ds == [] then c else AllDragged(Dragged(c, ds[0]), ds[1..])
  }

  // ----------------------------------------------------------- the daemon's reader

  /** One fan of the JSON: [temp, duty] pairs; as_u64 refuses negative numbers. */
  function FanFromJson(entries: seq<seq<int>>): Option<Channel>
  {
    if |entries| != 4 || exists i :: 0 <= i < 4 && !EntryValid(entries[i]) then None
    else Some([EntryPoint(entries[0]), EntryPoint(entries[1]), EntryPoint(entries[2]), EntryPoint(entries[3])])
  }

  predicate EntryValid(e: seq<int>) { |e| == 2 && 0 <= e[0] <= 255 && 0 <= e[1] <= 100 }

  function EntryPoint(e: seq<int>): FanPoint
    requires EntryValid(e)
  {
    FanPoint(e[0], e[1])
  }

  function CurveFromJson(cpu: seq<seq<int>>, gpu1: seq<seq<int>>, gpu2: seq<seq<int>>): Option<FanCurve>
  {
    var a, b, c := FanFromJson(cpu), FanFromJson(gpu1), FanFromJson(gpu2);
    if a.Some? && b.Some? && c.Some? then Some(FanCurve(a.value, b.value, c.value)) else None
  }

  /** The inner `fan` of curve_from_json. */
  method ReadFan(entries: seq<seq<int>>) returns (fan: Option<Channel>)
    ensures fan == FanFromJson(entries)
    ensures fan.Some? <==>
              |entries| == 4 && forall i :: 0 <= i < 4 ==>
                |entries[i]| == 2 && 0 <= entries[i][0] <= 255 && 0 <= entries[i][1] <= 100
    ensures fan.Some? ==> forall i :: 0 <= i < 4 ==> fan.value[i] == FanPoint(entries[i][0], entries[i][1])
  {
    if |entries| != 4 { return None; }
    var points := new FanPoint[4](_ => FanPoint(0, 0));
    for i := 0 to 4
      invariant forall j :: 0 <= j < i ==> EntryValid(entries[j]) && points[j] == EntryPoint(entries[j])
    {
      var pair := entries[i];
      if |pair| != 2 { return None; }
      if pair[0] < 0 || pair[1] < 0 { return None; }
      if pair[0] > 255 { return None; }
      if pair[1] > 100 { return None; }
      points[i] := FanPoint(pair[0], pair[1]);
    }
    assert points[..] == [points[0], points[1], points[2], points[3]];
    fan := Some(points[..]);
  }

  function Json(p: seq<CurvePoint>): seq<seq<int>>
  {
    seq(|p|, i requires 0 <= i < |p| => [p[i].temp, p[i].duty])
  }

  // -------------------------------------------------------------------- theorems

  lemma MovedStaysDraggable(p: seq<CurvePoint>, index: nat, temp: real, duty: real)
    requires Draggable(p) && IsEditable(index)
    ensures var q := Moved(p, index, temp, duty);
            Draggable(q) && q[0] == p[0] && q[3] == p[3]
  {
    hide JsRound;
  }

  /** Any sequence of drags keeps the gaps, the ranges and the two end points. */
  lemma {:induction false} DragsStayDraggable(c: Card, ds: seq<Drag>)
    requires Draggable(c.cpu) && Draggable(c.gpu1) && forall i :: 0 <= i < |ds| ==> IsEditable(ds[i].index)
    ensures var r := AllDragged(c, ds);
            && Draggable(r.cpu) && r.cpu[0] == c.cpu[0] && r.cpu[3] == c.cpu[3]
            && Draggable(r.gpu1) && r.gpu1[0] == c.gpu1[0] && r.gpu1[3] == c.gpu1[3]
    decreases |ds|
  {
    if ds != [] {
      var d := ds[0];
      MovedStaysDraggable(if d.cpu then c.cpu else c.gpu1, d.index, d.temp, d.duty);
      hide Moved;
      DragsStayDraggable(Dragged(c, d), ds[1..]);
    }
  }

  lemma DraggableIsAccepted(p: seq<CurvePoint>)
    requires Draggable(p)
    ensures FanFromJson(Json(p)).Some? && ChannelValid(FanFromJson(Json(p)).value)
  {
    var e := Json(p);
    assert forall i :: 0 <= i < 4 ==> EntryValid(e[i]) && e[i] == [p[i].temp, p[i].duty];
  }

  /** The last of any drags ends where it is dropped, on the fan and at the point it
      names; every other point of both fans stays. */
  lemma {:induction false} LastDragLands(c: Card, ds: seq<Drag>, d: Drag, t: int, duty: int)
    requires |c.cpu| == 4 && |c.gpu1| == 4 && forall i :: 0 <= i < |ds| ==> IsEditable(ds[i].index)
    requires IsEditable(d.index) && Rounds(d.temp, t) && Rounds(d.duty, duty)
    ensures forall i :: 0 <= i < |ds + [d]| ==> IsEditable((ds + [d])[i].index)
    ensures var was, now := AllDragged(c, ds), AllDragged(c, ds + [d]);
            var from, into := if d.cpu then was.cpu else was.gpu1, if d.cpu then now.cpu else now.gpu1;
            && Lands(into[d.index].temp, t, from[d.index - 1].temp + 2, from[d.index + 1].temp - 2)
            && Lands(into[d.index].duty, duty, 0, 100)
            && (forall i :: 0 <= i < 4 && i != d.index ==> into[i] == from[i])
            && (if d.cpu then now.gpu1 == was.gpu1 else now.cpu == was.cpu)
  {
    DragsSnoc(c, ds, d);
    var was := AllDragged(c, ds);
    hide AllDragged, Lands, Rounds;
    MoveLands(if d.cpu then was.cpu else was.gpu1, d.index, d.temp, d.duty, t, duty);
    hide Moved;
  }

  lemma {:induction false} DragsSnoc(c: Card, ds: seq<Drag>, d: Drag)
    requires |c.cpu| == 4 && |c.gpu1| == 4 && IsEditable(d.index)
    requires forall i :: 0 <= i < |ds| ==> IsEditable(ds[i].index)
    ensures forall i :: 0 <= i < |ds + [d]| ==> IsEditable((ds + [d])[i].index)
    ensures AllDragged(c, ds + [d]) == Dragged(AllDragged(c, ds), d)
    decreases |ds|
  {
    assert ds != [] ==> |Dragged(c, ds[0]).cpu| == |Dragged(c, ds[0]).gpu1| == 4;
    hide Moved;
    var all := ds + [d];
    if ds == [] {
      assert all == [d] && [d][1..] == [];
    } else {
      assert all[0] == ds[0] && all[1..] == ds[1..] + [d];
      DragsSnoc(Dragged(c, ds[0]), ds[1..], d);
    }
  }

  /** Whatever the user drags, the daemon accepts it exactly when it accepts the
      GPU2 fan, which the card sends back untouched; and then the EC shows it. */
  lemma {:induction false} DraggedCurveIsSaved(c: Card, ds: seq<Drag>, gpu2: seq<seq<int>>, table: Table)
    requires Draggable(c.cpu) && Draggable(c.gpu1) && forall i :: 0 <= i < |ds| ==> IsEditable(ds[i].index)
    ensures var r := AllDragged(c, ds);
            var curve := CurveFromJson(Json(r.cpu), Json(r.gpu1), gpu2);
            var third := FanFromJson(gpu2);
            && (curve.Some? && EncodeCurve(curve.value).Some? <==> third.Some? && ChannelValid(third.value))
            && (third.Some? && ChannelValid(third.value) ==>
                  DriverWrite(table, curve.value).Some?
                  && SameWritableState(curve.value, ReadCurve(DriverWrite(table, curve.value).value)))
  {
    hide AllDragged, FanFromJson, ChannelValid, Json, ReadCurve, DriverWrite, Written, SameWritableState, EncodeForm,
      Bytes;
    DragsStayDraggable(c, ds);
    var r := AllDragged(c, ds);
    DraggableIsAccepted(r.cpu);
    DraggableIsAccepted(r.gpu1);
    ValidIsStored(table, CurveFromJson(Json(r.cpu), Json(r.gpu1), gpu2));
  }

  /** And what the EC shows then is what the card shows: the CPU's and the GPU1's
      middle points are those of their own fans, the third fan is the one that was
      sent along, and the end points are the EC's. */
  lemma {:induction false} DraggedCurveIsShown(c: Card, ds: seq<Drag>, gpu2: seq<seq<int>>, table: Table)
    requires Draggable(c.cpu) && Draggable(c.gpu1) && forall i :: 0 <= i < |ds| ==> IsEditable(ds[i].index)
    requires FanFromJson(gpu2).Some? && ChannelValid(FanFromJson(gpu2).value)
    ensures var r := AllDragged(c, ds);
            var curve := CurveFromJson(Json(r.cpu), Json(r.gpu1), gpu2);
            curve.Some? && DriverWrite(table, curve.value).Some? &&
            var was, shown := ReadCurve(table), ReadCurve(DriverWrite(table, curve.value).value);
            && ShowsPoints(shown.cpu, r.cpu) && shown.cpu[0] == was.cpu[0] && shown.cpu[3] == was.cpu[3]
            && ShowsPoints(shown.gpu1, r.gpu1) && shown.gpu1[0] == was.gpu1[0] && shown.gpu1[3] == was.gpu1[3]
            && |gpu2| == 4 && |gpu2[1]| == 2 && |gpu2[2]| == 2
            && if gpu2[1][0] == 0 && gpu2[2][0] == 0 then shown.gpu2 == was.gpu2
               else && PointIs(shown.gpu2[1], gpu2[1][0], gpu2[1][1]) && PointIs(shown.gpu2[2], gpu2[2][0], gpu2[2][1])
                    && shown.gpu2[0] == was.gpu2[0] && shown.gpu2[3] == was.gpu2[3]
  {
    DragsStayDraggable(c, ds);
    var r := AllDragged(c, ds);
    hide AllDragged, ReadChannel, DriverWrite, Written, EncodeForm, Bytes;
    DraggableIsAccepted(r.cpu);
    DraggableIsAccepted(r.gpu1);
    DraggablePoints(r.cpu);
    DraggablePoints(r.gpu1);
    hide Json, ChannelValid, Draggable;
    var curve := CurveFromJson(Json(r.cpu), Json(r.gpu1), gpu2).value;
    CurveWritePipeline(table, curve);
    WrittenReadBack(table, curve);
    hide FanFromJson;
    var now := Written(table, curve);
    assert FanReadBack(ReadChannel(table, 0), curve.Fan(0), ReadChannel(now, 0));
    assert FanReadBack(ReadChannel(table, 1), curve.Fan(1), ReadChannel(now, 1));
    assert FanReadBack(ReadChannel(table, 2), curve.Fan(2), ReadChannel(now, 2));
  }

  predicate PointIs(p: FanPoint, temp: int, duty: int) { p.temp == temp && p.dutyPct == duty }

  predicate ShowsPoints(shown: Channel, p: seq<CurvePoint>)
  {
    |p| == 4 && PointIs(shown[1], p[1].temp, p[1].duty) && PointIs(shown[2], p[2].temp, p[2].duty)
  }

  lemma DraggablePoints(p: seq<CurvePoint>)
    requires Draggable(p) && FanFromJson(Json(p)).Some?
    ensures ShowsPoints(FanFromJson(Json(p)).value, p) && !Absent(FanFromJson(Json(p)).value)
  {
    var e := Json(p);
    assert e[1] == [p[1].temp, p[1].duty] && e[2] == [p[2].temp, p[2].duty];
  }

  lemma ValidIsStored(table: Table, curve: Option<FanCurve>)
    ensures curve.Some? && CurveValid(curve.value) ==>
              && DriverWrite(table, curve.value).Some?
              && SameWritableState(curve.value, ReadCurve(DriverWrite(table, curve.value).value))
  {
    hide ReadCurve, Written, SameWritableState, CurveValid, DriverWrite;
    if curve.Some? {
      CurveWritePipeline(table, curve.value);
      if CurveValid(curve.value) { WrittenReadBack(table, curve.value); }
    }
  }

  /** Without the starting gaps: a move leaves its point strictly between its
      neighbours exactly when they are at least three degrees apart. */
  lemma MoveStaysBetweenIff(p: seq<CurvePoint>, index: nat, duty: real)
    requires |p| == 4 && IsEditable(index)
    ensures (forall temp: real :: Between(Moved(p, index, temp, duty), index))
            <==> p[index + 1].temp - p[index - 1].temp >= 3
  {
    var witnessed := Between(Moved(p, index, 0.0, duty), index);
    hide JsRound;
  }

  predicate Between(p: seq<CurvePoint>, index: nat)
    requires 0 < index < |p| - 1
  {
    p[index - 1].temp < p[index].temp < p[index + 1].temp
  }
}
