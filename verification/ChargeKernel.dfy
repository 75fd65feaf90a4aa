/** The kernel's charge-window transaction (kernel/clevo-cc/clevo-cc.c,
    clevo_cc_charge_*) against firmware that may misbehave on any call. */
module ChargeKernel {
  import opened Arith

  datatype Window = Window(enabled: byte, start: byte, end: byte)

  type Values = s: seq<byte> | |s| == 16 witness [0, 0, 0, 0, 0, 0, 0, 0, 0, 0, 0, 0, 0, 0, 0, 0]

  datatype Ack = Normal | ShortReply | Failed

  /** How the firmware treats one call. A misbehaving read fails, with an error or
      a short reply, but does not lie. A misbehaving write leaves any window at all
      behind, and is acknowledged normally, acknowledged short, or fails. */
  datatype Fault = Healthy | Misbehaves(after: Window, ack: Ack)

  datatype Errno = Zero | EINVAL | EIO | EPROTO | EOPNOTSUPP

  /** `script` says how the next calls go (beyond it, healthy); `writes` logs the
      windows the firmware was asked to store. */
  datatype Fw = Fw(window: Window, starts: Values, ends: Values, script: seq<Fault>, writes: seq<Window>)

  function Faults(script: seq<Fault>): nat
  {
    if script == [] then 0 else (if script[0].Healthy? then 0 else 1) + Faults(script[1..])
  }

  function NextFault(fw: Fw): Fault { if fw.script == [] then Healthy else fw.script[0] }

  function Step(fw: Fw): Fw { if fw.script == [] then fw else fw.(script := fw.script[1..]) }

  // ---------------------------------------------------------------- value lists

  /** Increasing percentages, then zero padding. */
  predicate ValuesValid(v: Values)
  {
    && v[0] != 0
    && (forall i :: 0 <= i < 16 ==> v[i] <= 100)
    && (forall i :: 1 <= i < 16 && v[i] != 0 ==> v[i - 1] != 0 && v[i - 1] < v[i])
  }

  /** x stands in the list before any zero. */
  predicate Advertised(v: Values, x: int)
  {
    exists i :: 0 <= i < 16 && v[i] == x && forall j :: 0 <= j <= i ==> v[j] != 0
  }

  /** Percentages in increasing order, at least one, then zeros. */
  predicate Lists(v: Values, n: nat)
  {
    && 1 <= n <= 16 && (forall i :: 0 <= i < n ==> 0 < v[i] <= 100)
    && (forall i, j :: 0 <= i < j < n ==> v[i] < v[j]) && (forall i :: n <= i < 16 ==> v[i] == 0)
  }

  lemma ValuesValidIff(v: Values)
    ensures ValuesValid(v) <==> exists n :: Lists(v, n)
  {
    if ValuesValid(v) {
      var n := FirstZero(v);
      forall i, j | 0 <= i < j < n
        ensures v[i] < v[j]
      {
        Increasing(v, n, i, j);
      }
      assert Lists(v, n);
    }
  }

  lemma {:induction false} Increasing(v: Values, n: nat, i: nat, j: nat)
    requires ValuesValid(v) && i < j < n <= 16 && forall k :: 0 <= k < n ==> v[k] != 0
    ensures v[i] < v[j]
    decreases j
  {
    if i + 1 < j { Increasing(v, n, i, j - 1); }
  }

  lemma FirstZero(v: Values) returns (n: nat)
    requires ValuesValid(v)
    ensures 1 <= n <= 16 && (forall i :: 0 <= i < n ==> v[i] != 0) && forall i :: n <= i < 16 ==> v[i] == 0
  {
    n := 1;
    while n < 16 && v[n] != 0
      invariant 1 <= n <= 16 && forall i :: 0 <= i < n ==> v[i] != 0
    {
      n := n + 1;
    }
    var k := n;
    while k < 16
      invariant n <= k <= 16 && forall i :: n <= i < k ==> v[i] == 0
    {
      assert k > n ==> v[k - 1] == 0;
      k := k + 1;
    }
  }

  /** A valid list offers its entries but the padding. */
  predicate Listed(v: Values, x: int) { x != 0 && exists i :: 0 <= i < 16 && v[i] == x }

  lemma AdvertisedIff(v: Values, x: int)
    requires ValuesValid(v)
    ensures Advertised(v, x) <==> Listed(v, x)
  {
    var n := FirstZero(v);
    if Listed(v, x) {
      var i :| 0 <= i < 16 && v[i] == x;
      assert i < n;
    }
  }

  method ChargeContains(values: Values, value: int) returns (found: bool)
    ensures found == Advertised(values, value)
  {
    var i := 0;
    while i < 16 && values[i] != 0
      invariant 0 <= i <= 16
      invariant forall j :: 0 <= j < i ==> values[j] != 0 && values[j] != value
    {
      if values[i] == value { return true; }
      i := i + 1;
    }
    found := false;
  }

  method ChargeValuesValid(values: Values) returns (ok: bool)
    ensures ok == ValuesValid(values)
  {
    var ended := false;
    if values[0] == 0 { return false; }
    for i := 0 to 16
      invariant forall j :: 0 <= j < i ==> values[j] <= 100
      invariant forall j :: 1 <= j < i && values[j] != 0 ==> values[j - 1] != 0 && values[j - 1] < values[j]
      invariant ended <==> i > 0 && values[i - 1] == 0
    {
      if values[i] == 0 {
        ended := true;
      } else {
        if ended || values[i] > 100 || (i != 0 && values[i] <= values[i - 1]) { return false; }
      }
    }
    ok := true;
  }

  // --------------------------------------------------------------- the protocol

  /** A window the kernel accepts from the firmware. */
  predicate Acceptable(fw: Fw, w: Window)
  {
    w.enabled <= 1 && w.start < w.end && Advertised(fw.starts, w.start) && Advertised(fw.ends, w.end)
  }

  /** clevo_cc_charge_read on a healthy reply. */
  function ReadStatus(fw: Fw): Errno
  {
    if !ValuesValid(fw.starts) || !ValuesValid(fw.ends) then EOPNOTSUPP
    else if !Acceptable(fw, fw.window) then EPROTO
    else Zero
  }

  datatype Read = Read(err: Errno, window: Window, fw: Fw)

  const NO_WINDOW := Window(0, 0, 0)

  function ChargeRead(fw: Fw): Read
  {
    match NextFault(fw)
    case Misbehaves(_, ack) => Read(if ack == Failed then EIO else EPROTO, NO_WINDOW, Step(fw))
    case Healthy => Read(ReadStatus(fw), if ReadStatus(fw) == Zero then fw.window else NO_WINDOW, Step(fw))
  }

  /** The firmware's lists are lists and its window is one they offer. */
  predicate Readable(fw: Fw)
  {
    && ValuesValid(fw.starts) && ValuesValid(fw.ends)
    && fw.window.enabled <= 1 && fw.window.start < fw.window.end
    && Listed(fw.starts, fw.window.start) && Listed(fw.ends, fw.window.end)
  }

  /** A call that goes well says so, and shows the window, exactly then; broken
      lists mean unsupported. A call that does not go well never succeeds. */
  lemma ReadIff(fw: Fw)
    ensures var r := ChargeRead(fw);
            && (r.err == Zero <==> NextFault(fw).Healthy? && Readable(fw))
            && (r.err == Zero ==> r.window == fw.window)
            && (r.err == EOPNOTSUPP <==> NextFault(fw).Healthy? && !(ValuesValid(fw.starts) && ValuesValid(fw.ends)))
            && r.fw == Step(fw) && r.err != EINVAL
    ensures ReadStatus(fw) == Zero <==> Readable(fw)
  {
    hide ValuesValid, Advertised, Listed;
    if ValuesValid(fw.starts) && ValuesValid(fw.ends) {
      AdvertisedIff(fw.starts, fw.window.start);
      AdvertisedIff(fw.ends, fw.window.end);
    }
  }

  datatype Reply = Reply(err: Errno, fw: Fw)

  function AckStatus(ack: Ack): Errno
  {
    match ack case Normal => Zero case ShortReply => EPROTO case Failed => EIO
  }

  function ChargeWrite(fw: Fw, w: Window): Reply
  {
    match NextFault(fw)
    case Misbehaves(after, ack) => Reply(AckStatus(ack), Step(fw).(window := after, writes := fw.writes + [w]))
    case Healthy => Reply(Zero, Step(fw).(window := w, writes := fw.writes + [w]))
  }

  /** Read back and compare. */
  function Confirm(fw: Fw, w: Window): Reply
  {
    var r := ChargeRead(fw);
    Reply(if r.err != Zero then r.err else if r.window != w then EIO else Zero, r.fw)
  }

  function WriteConfirmed(fw: Fw, w: Window): Reply
  {
    var r := ChargeWrite(fw, w);
    if r.err == Zero then Confirm(r.fw, w) else r
  }

  predicate ValidRequest(enabled: nat, start: nat, end: nat) { enabled <= 1 && start < end <= 100 }

  function Target(enabled: nat, start: nat, end: nat): Window
    requires ValidRequest(enabled, start, end)
  {
    Window(enabled, start, end)
  }

  /** clevo_cc_charge_set. */
  function ChargeSet(fw: Fw, enabled: nat, start: nat, end: nat): Reply
  {
    if !ValidRequest(enabled, start, end) then Reply(EINVAL, fw)
    else
      var prior := ChargeRead(fw);
      if prior.err != Zero then Reply(prior.err, prior.fw)
      else if !Advertised(fw.starts, start) || !Advertised(fw.ends, end) then Reply(EINVAL, prior.fw)
      else if prior.window == Target(enabled, start, end) then Reply(Zero, prior.fw)
      else
        var r := WriteConfirmed(prior.fw, Target(enabled, start, end));
        if r.err == Zero then r
        else Reply(r.err, WriteConfirmed(r.fw, prior.window).fw)
  }

  /** The firmware behind the driver, changed by its calls. */
  class Firmware {
    const starts: Values
    const ends: Values
    var window: Window
    var script: seq<Fault>
    var writes: seq<Window>

    constructor (fw: Fw)
      ensures Model() == fw
    {
      starts, ends, window, script, writes := fw.starts, fw.ends, fw.window, fw.script, fw.writes;
    }

    ghost function Model(): Fw
      reads this
    {
      Fw(window, starts, ends, script, writes)
    }

    method Next() returns (f: Fault)
      modifies `script
      ensures f == NextFault(old(Model())) && Model() == Step(old(Model()))
    {
      if script == [] { return Healthy; }
      f := script[0];
      script := script[1..];
    }

    /** PK04/30: err, reply bytes. */
    method ReadCall() returns (err: bool, reply: seq<byte>)
      modifies `script
      ensures Model() == Step(old(Model()))
      ensures match NextFault(old(Model()))
              case Healthy =>
                !err && |reply| >= 48 && reply[..3] == [window.enabled, window.start, window.end]
                && reply[16..32] == starts && reply[32..48] == ends
              case Misbehaves(_, ack) => err == (ack == Failed) && |reply| < 48
    {
      var f := Next();
      match f
      case Healthy =>
        err, reply := false, [window.enabled, window.start, window.end] + Zeros(13) + starts + ends + Zeros(208);
      case Misbehaves(_, ack) => err, reply := ack == Failed, [];
    }

    /** PK04/31: err, reply length. */
    method WriteCall(w: Window) returns (err: bool, len: nat)
      modifies `script, `window, `writes
      ensures Model() == ChargeWrite(old(Model()), w).fw
      ensures ChargeWrite(old(Model()), w).err == if err then EIO else if len == 256 then Zero else EPROTO
    {
      writes := writes + [w];
      var f := Next();
      match f
      case Healthy => window := w; err, len := false, 256;
      case Misbehaves(after, ack) =>
        window := after;
        err, len := ack == Failed, if ack == Normal then 256 else 0;
    }
  }

  /** clevo_cc_charge_read. */
  method DriverRead(dev: Firmware) returns (err: Errno, w: Window)
    modifies dev`script
    ensures Read(err, w, dev.Model()) == ChargeRead(old(dev.Model()))
  {
    var failed, reply := dev.ReadCall();
    if failed { return EIO, NO_WINDOW; }
    if |reply| < 48 { return EPROTO, NO_WINDOW; }
    w := Window(reply[0], reply[1], reply[2]);
    assert reply[..3][0] == reply[0] && reply[..3][1] == reply[1] && reply[..3][2] == reply[2];
    var starts: Values, ends: Values := reply[16..32], reply[32..48];
    var okStarts := ChargeValuesValid(starts);
    var okEnds := ChargeValuesValid(ends);
    if !okStarts || !okEnds { return EOPNOTSUPP, NO_WINDOW; }
    var hasStart := ChargeContains(starts, w.start);
    var hasEnd := ChargeContains(ends, w.end);
    if w.enabled > 1 || w.start >= w.end || !hasStart || !hasEnd { return EPROTO, NO_WINDOW; }
    err := Zero;
  }

  /** clevo_cc_charge_write. */
  method DriverWrite(dev: Firmware, w: Window) returns (err: Errno)
    modifies dev`script, dev`window, dev`writes
    ensures Reply(err, dev.Model()) == ChargeWrite(old(dev.Model()), w)
  {
    var failed, len := dev.WriteCall(w);
    err := if failed then EIO else if len == 256 then Zero else EPROTO;
  }

  /** clevo_cc_charge_set, statement by statement; and what it guarantees. */
  method DriverSet(dev: Firmware, enabled: nat, start: nat, end: nat) returns (err: Errno)
    modifies dev`script, dev`window, dev`writes
    ensures Reply(err, dev.Model()) == ChargeSet(old(dev.Model()), enabled, start, end)
    ensures err == Zero ==> ValidRequest(enabled, start, end) && dev.window == Target(enabled, start, end)
    ensures Faults(old(dev.script)) <= 1 && err != Zero ==> dev.window == old(dev.window)
  {
    SuccessMeansTarget(dev.Model(), enabled, start, end);
    if Faults(dev.script) <= 1 { SingleFaultTolerance(dev.Model(), enabled, start, end); }
    hide Acceptable, ReadStatus;
    if enabled > 1 || start >= end || end > 100 { return EINVAL; }
    var prior;
    err, prior := DriverRead(dev);
    if err != Zero { return; }
    var hasStart := ChargeContains(dev.starts, start);
    var hasEnd := ChargeContains(dev.ends, end);
    if !hasStart || !hasEnd { return EINVAL; }
    var target := Window(enabled, start, end);
    if prior == target { return Zero; }
    var confirmed;
    err := DriverWrite(dev, target);
    if err == Zero {
      err, confirmed := DriverRead(dev);
      if err == Zero && confirmed != target { err := EIO; }
    }
    if err == Zero { return; }
    var restore := DriverWrite(dev, prior);
    if restore == Zero {
      restore, confirmed := DriverRead(dev);
    }
  }

  // -------------------------------------------------------------------- theorems

  lemma StepFaults(fw: Fw)
    ensures Faults(fw.script) == Faults(Step(fw).script) + (if NextFault(fw).Healthy? then 0 else 1)
  {
  }

  lemma WriteConfirmedFacts(fw: Fw, w: Window)
    ensures var r := WriteConfirmed(fw, w);
            && r.fw.starts == fw.starts && r.fw.ends == fw.ends
            && r.fw.writes == fw.writes + [w]
            && (r.err == Zero ==> r.fw.window == w)
            && Faults(r.fw.script) <= Faults(fw.script)
  {
    hide Faults, ReadStatus;
    StepFaults(fw);
    StepFaults(Step(fw));
    var r := ChargeWrite(fw, w);
    assert r.fw.script == Step(fw).script;
    StepFaults(r.fw);
  }

  /** Without a fault left, writing an acceptable window succeeds. */
  lemma HealthyWrite(fw: Fw, w: Window)
    requires Faults(fw.script) == 0 && ValuesValid(fw.starts) && ValuesValid(fw.ends) && Acceptable(fw, w)
    ensures WriteConfirmed(fw, w).err == Zero
    ensures WriteConfirmed(fw, w).fw.window == w
    ensures Faults(WriteConfirmed(fw, w).fw.script) == 0
  {
    hide ValuesValid, Advertised;
    StepFaults(fw);
    var r := ChargeWrite(fw, w);
    StepFaults(r.fw);
  }

  /** A write that does not confirm has used up a fault. */
  lemma FailedWriteCostsFault(fw: Fw, w: Window)
    requires ValuesValid(fw.starts) && ValuesValid(fw.ends) && Acceptable(fw, w)
    requires WriteConfirmed(fw, w).err != Zero
    ensures Faults(WriteConfirmed(fw, w).fw.script) < Faults(fw.script)
  {
    hide ValuesValid, Advertised;
    StepFaults(fw);
    var r := ChargeWrite(fw, w);
    StepFaults(r.fw);
  }

  /** Under any number of faults, success means the firmware holds the target. */
  lemma SuccessMeansTarget(fw: Fw, enabled: nat, start: nat, end: nat)
    ensures var r := ChargeSet(fw, enabled, start, end);
            r.err == Zero ==> ValidRequest(enabled, start, end) && r.fw.window == Target(enabled, start, end)
  {
    hide WriteConfirmed, Acceptable;
    if ValidRequest(enabled, start, end) {
      WriteConfirmedFacts(ChargeRead(fw).fw, Target(enabled, start, end));
    }
  }

  /** If at most one firmware call misbehaves, the firmware ends with the target on
      success and with its previous window on error. */
  lemma SingleFaultTolerance(fw: Fw, enabled: nat, start: nat, end: nat)
    requires Faults(fw.script) <= 1
    ensures var r := ChargeSet(fw, enabled, start, end);
            if r.err == Zero
            then ValidRequest(enabled, start, end) && r.fw.window == Target(enabled, start, end)
            else r.fw.window == fw.window
  {
    hide WriteConfirmed, ValuesValid, Advertised, Faults;
    SuccessMeansTarget(fw, enabled, start, end);
    var prior := ChargeRead(fw);
    if ValidRequest(enabled, start, end) && prior.err == Zero
       && Advertised(fw.starts, start) && Advertised(fw.ends, end)
    {
      var target := Target(enabled, start, end);
      var r := WriteConfirmed(prior.fw, target);
      StepFaults(fw);
      WriteConfirmedFacts(prior.fw, target);
      if r.err != Zero {
        FailedWriteCostsFault(prior.fw, target);
        HealthyWrite(r.fw, prior.window);
      }
    }
  }

  /** What a request asks of a firmware that can serve it. */
  predicate Servable(fw: Fw, enabled: nat, start: nat, end: nat)
  {
    ValidRequest(enabled, start, end) && ReadStatus(fw) == Zero && Advertised(fw.starts, start)
      && Advertised(fw.ends, end)
  }

  /** The request is valid, the firmware readable, both percentages on its lists. */
  predicate Grantable(fw: Fw, enabled: nat, start: nat, end: nat)
  {
    enabled <= 1 && start < end <= 100 && Readable(fw) && Listed(fw.starts, start) && Listed(fw.ends, end)
  }

  lemma ServableIff(fw: Fw, enabled: nat, start: nat, end: nat)
    ensures Servable(fw, enabled, start, end) <==> Grantable(fw, enabled, start, end)
  {
    hide ValuesValid, Advertised, Listed, ReadStatus;
    ReadIff(fw);
    if ValuesValid(fw.starts) && ValuesValid(fw.ends) {
      AdvertisedIff(fw.starts, start);
      AdvertisedIff(fw.ends, end);
    }
  }

  /** With no fault, a request succeeds exactly when it is valid, the firmware's
      current state is readable, and both percentages are advertised; and then one
      write is sent, none if the window is there already, and none else. */
  lemma HealthySuccessIff(fw: Fw, enabled: nat, start: nat, end: nat)
    requires Faults(fw.script) == 0
    ensures var r := ChargeSet(fw, enabled, start, end);
            if Grantable(fw, enabled, start, end)
            then var w := Window(enabled, start, end);
                 r.err == Zero && r.fw.window == w && r.fw.writes == fw.writes + (if fw.window == w then [] else [w])
            else r.err != Zero && r.fw.window == fw.window && r.fw.writes == fw.writes
  {
    hide WriteConfirmed, ValuesValid, Advertised, Faults, Grantable;
    StepFaults(fw);
    ServableIff(fw, enabled, start, end);
    if Servable(fw, enabled, start, end) && fw.window != Target(enabled, start, end) {
      HealthyWrite(Step(fw), Target(enabled, start, end));
      WriteConfirmedFacts(Step(fw), Target(enabled, start, end));
    }
  }

  /** A servable request that fails has met a fault. */
  lemma FailureCostsFault(fw: Fw, enabled: nat, start: nat, end: nat)
    requires Servable(fw, enabled, start, end) && ChargeSet(fw, enabled, start, end).err != Zero
    ensures Faults(ChargeSet(fw, enabled, start, end).fw.script) < Faults(fw.script)
  {
    hide WriteConfirmed, ValuesValid, Advertised, Faults;
    StepFaults(fw);
    var prior := ChargeRead(fw);
    if prior.err == Zero {
      var r := WriteConfirmed(prior.fw, Target(enabled, start, end));
      FailedWriteCostsFault(prior.fw, Target(enabled, start, end));
      WriteConfirmedFacts(r.fw, prior.window);
    }
  }

  /** What is written: the target, then, if that goes wrong, the window there was;
      nothing for a request that cannot be served or is met already; every window
      written is acceptable to the firmware's own lists. */
  lemma WritesAreFew(fw: Fw, enabled: nat, start: nat, end: nat)
    ensures var r := ChargeSet(fw, enabled, start, end);
            && r.fw.starts == fw.starts && r.fw.ends == fw.ends
            && (r.fw.writes == fw.writes
                || r.fw.writes == fw.writes + [Window(enabled, start, end)]
                || (r.err != Zero && r.fw.writes == fw.writes + [Window(enabled, start, end), fw.window]))
            && (Servable(fw, enabled, start, end) && fw.window == Window(enabled, start, end) ==>
                  r.fw.writes == fw.writes)
            && (!Servable(fw, enabled, start, end) ==> r.fw == ChargeRead(fw).fw || r.fw == fw)
            && (forall i :: |fw.writes| <= i < |r.fw.writes| ==> Acceptable(fw, r.fw.writes[i]))
            && Faults(r.fw.script) <= Faults(fw.script)
  {
    hide WriteConfirmed, ValuesValid, Advertised, Faults;
    StepFaults(fw);
    if Servable(fw, enabled, start, end) {
      var prior := ChargeRead(fw);
      var target := Target(enabled, start, end);
      var r := WriteConfirmed(prior.fw, target);
      WriteConfirmedFacts(prior.fw, target);
      WriteConfirmedFacts(r.fw, prior.window);
    }
  }

  /** A list that offers just two percentages. */
  function TwoValues(a: byte, b: byte): Values { [a, b] + Zeros(14) }

  lemma TwoValuesOffered(a: byte, b: byte)
    requires 0 < a < b <= 100
    ensures ValuesValid(TwoValues(a, b))
    ensures Advertised(TwoValues(a, b), a) && Advertised(TwoValues(a, b), b)
  {
    var v := TwoValues(a, b);
    assert v[0] == a && v[1] == b;
    assert forall i :: 2 <= i < 16 ==> v[i] == 0;
  }

  lemma {:induction false} FaultsCons(f: Fault, rest: seq<Fault>)
    ensures Faults([f] + rest) == (if f.Healthy? then 0 else 1) + Faults(rest)
    ensures ([f] + rest)[0] == f && ([f] + rest)[1..] == rest
  {
    assert ([f] + rest)[1..] == rest;
  }

  /** The bound is sharp: a write that clamps followed by a restore that errs
      leaves a window nobody asked for. */
  lemma TwoFaultsAreTooMany()
    ensures exists fw: Fw ::
              && Faults(fw.script) == 2
              && ChargeSet(fw, 1, 50, 90).err != Zero
              && ChargeSet(fw, 1, 50, 90).fw.window != fw.window
              && ChargeSet(fw, 1, 50, 90).fw.window != Target(1, 50, 90)
  {
    hide ValuesValid, Advertised, Faults, TwoValues;
    var odd := Misbehaves(Window(1, 50, 80), Normal);
    var last := Misbehaves(Window(1, 50, 80), Failed);
    FaultsCons(last, []);
    FaultsCons(Healthy, [last] + []);
    FaultsCons(odd, [Healthy] + ([last] + []));
    FaultsCons(Healthy, [odd] + ([Healthy] + ([last] + [])));
    assert Faults([]) == 0 by { NoFaults(); }
    var script := [Healthy] + ([odd] + ([Healthy] + ([last] + [])));
    TwoValuesOffered(40, 50);
    TwoValuesOffered(80, 90);
    var fw := Fw(Window(0, 40, 90), TwoValues(40, 50), TwoValues(80, 90), script, []);
    var prior := ChargeRead(fw);
    assert prior == Read(Zero, Window(0, 40, 90), Step(fw));
    var w := ChargeWrite(prior.fw, Target(1, 50, 90));
    assert w.err == Zero && w.fw.window == Window(1, 50, 80);
    var c := Confirm(w.fw, Target(1, 50, 90));
    assert c.err == EIO;
    var back := ChargeWrite(c.fw, prior.window);
    assert back.err == EIO && back.fw.window == Window(1, 50, 80);
    assert ChargeSet(fw, 1, 50, 90).fw == back.fw;
  }

  lemma NoFaults()
    ensures Faults([]) == 0
  {
  }
}
