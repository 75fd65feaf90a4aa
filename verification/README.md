# Verified model of clevo-cc

Dafny model of the Clevo Control Center stack: the kernel driver (`kernel/clevo-cc`), the protocol and
transport crates, the daemon, and two pieces of the UI. Each component is stated twice: as functions on values,
which the theorems are about, and, where the source changes things step by step, as methods and classes over
arrays and fields that are proved to do what the functions say. Firmware, the EC, sysfs files and the disk are
objects whose calls may fail, misbehave or be refused, as a script of outcomes says; every theorem quantifies over
those scripts unless its hypotheses restrict them.

`dafny verify dfyconfig.toml` checks everything.

## Layout

| files | component |
|---|---|
| `Arith`, `Text` | rounding divisions of C and Rust, the rescaling lemma, decimal text, splitting and trimming |
| `FanCurves` | curve protocol: encoder, slopes, read-back comparison, what command 14 does in the EC |
| `KernelCurve`, `KernelDriver` | `fan_curve` sysfs text and read-modify-write merge; the same in place on payload buffers |
| `DriverText`, `CurvePipeline`, `DriverTransport` | the transport's text, and the whole path composed |
| `Slopes`, `Rpm`, `FanStatus` | two slope encoders, period/rpm arithmetic, fan status path |
| `Records`, `Autostart` | response record codec, desktop `Exec` value |
| `ChargeKernel`, `ChargeNative`, `ChargeStandard` | charge-window transactions, kernel and daemon |
| `Daemon`, `DaemonService` | the daemon's fan state: semantics and imperative form |
| `DaemonRuns`, `ModeRuns`, `FactoryRuns`, `FileRuns` | whole runs: the saved curve and custom mode; performance and normal fan modes; which curve counts as factory curve; what the file says and the keyboard it brings back |
| `CaptureRace` | concurrent `set_curve` calls and the factory curve they record |
| `Persistence` | interleavings of concurrent operations and saves |
| `KernelKeyboard`, `KernelKeyboardDriver` | keyboard channel and cache of the driver |
| `Keyboards`, `HidBackend`, `AcpiBackend` | keyboard grid, sparse config, replay on both backends |
| `CurveCard` | dragging points in the UI, and the daemon's reader |

## What the proofs found

- In a session that starts without a factory curve, the factory curve becomes what the EC shows at the first curve
  write whose capture read succeeds while the EC does not show the saved curve, whatever else happens or fails
  (`FactoryRuns.FirstRecordDecides`). From a cold EC, with no written curve that looks like the shipped one, that is
  the shipped curve exactly when it comes no later than the first curve write that reaches the EC
  (`FactoryRuns.SessionFactoryIsShippedIff`, `FactoryRuns.FirstSessionFactoryIff`); from a warm start on the saved
  curve it is always one of the user's own (`FactoryRuns.UserCurveRecordedAsFactory`). When nothing fails and nothing
  but curves is written, it is the first one that differs from the saved curve, recorded by the write after it
  (`FactoryRuns.WritesRecordFirstDifferent`).
- Once recorded and saved, the factory curve changes in no run while the file loads. Only a start that refuses the
  file (of a newer schema, say) can take it away, from memory or from the file too, and it does unless it reads the EC
  and the EC shows that curve (`DaemonRuns.FactoryStaysIff`). Such a start replaces the file by defaults exactly when
  its curve read and its save succeed (`DaemonRuns.RefusedFileIsReplaced`).
- A start that records a factory curve saves the file before the keyboard is replayed, so the saved keyboard is
  replaced by that of a backend just opened; without `apply_on_start` the next save does the same.
  `FileRuns.KeyboardFate` says exactly when the saved keyboard survives a run, curve reads, commands and saves failing
  at will.
- A HID zone write that the controller cuts short changes the snapshot without a save. It is lost exactly when a key
  that got through had another colour (`Persistence.RefusedZoneSavedIff`); no refusal can lose it exactly when every
  key of the zone but the last has the colour already (`Persistence.NoRefusalLosesIff`); nothing else in the file is
  ever lost with it (`Persistence.OnlyKeysAreLost`).
- On the HID backend a keyboard saved as off is lit again by the replay unless its brightness is below 13 %
  (`HidBackend.OffSurvivesReplayIff`); the ACPI replay restores it (`AcpiBackend.HealthyReplay`).
- `brightness` in `keyboard_rgb` never powers the channel on: after 0 % and back up, the cached LED value says lit
  while the last power word was off (`KernelKeyboard.TruthIff`, `KernelKeyboard.DimmedStaysDark`).

Two remarks that are single inputs: the two slope encoders do differ, 41 against 48 for one percent over one degree
(`Slopes.SlopesCanDiffer`), and the rotation period 65535 comes back as 65341 (`Rpm.PeriodIsLossy`).

## Model

| member | source | states |
|---|---|---|
| Arith.ScaleRoundTrip | kernel/clevo-cc/clevo-cc.c:665-678 | rounding to nearest from 0..M to 0..N and back is the identity whenever N > M; behind both the duty and the brightness conversions |
| Arith.ScaleIsNearest | kernel/clevo-cc/clevo-cc.c:660-678 | the rescaling is to nearest, halves up |
| Arith.RoundingsAgree | kernel/clevo-cc/clevo-cc.c:1325-1351 | the kernel's DIV_ROUND_CLOSEST and Rust's round are one function, negative numerators included |
| Text.DecimalRoundTrip | crates/clevo-transport/src/driver.rs:270-291 | the digits printed for a number denote it |
| FanCurves.DutyRoundTrip | crates/clevo-proto/src/fan_curve.rs:243-251 | a percentage survives the conversion to a raw duty byte and back |
| FanCurves.DutyIsNearest | crates/clevo-proto/src/fan_curve.rs:248-250 | the raw duty byte is the percentage on 0..255 to nearest, halves up; above 100 the cast keeps its low eight bits |
| FanCurves.PercentIsNearest | crates/clevo-proto/src/fan_curve.rs:243-246 | and back the same way |
| FanCurves.SlopeIsNearest | crates/clevo-proto/src/fan_curve.rs:222-241 | the slope word is the rise over the run in sixteenths of a duty step, to nearest, zero for a fan left alone or falling |
| FanCurves.EncodedCarries | crates/clevo-proto/src/fan_curve.rs:112-146 | every byte of an accepted curve's payload: temperatures, duties to nearest, slope big-endian, the rest zero |
| FanCurves.Encode | crates/clevo-proto/src/fan_curve.rs:112-146 | the buffer filled in place carries the curve byte by byte; encoding succeeds exactly when every fan is left alone or has rising middle temperatures and percentages |
| FanCurves.EncodeInto | crates/clevo-proto/src/fan_curve.rs:203-220 | one fan's pairs and slope word go to its own bytes, all others stay |
| KernelCurve.StoreKeepsSlopes | kernel/clevo-cc/clevo-cc.c:1325-1387 | through the whole store loop, for any text over any table, each R2 slot stays the slope of the points beside it, to nearest |
| KernelCurve.ParseThreeLines | kernel/clevo-cc/clevo-cc.c:1289-1313 | the kernel parser reads back exactly the points that were printed, for every three channels of byte pairs |
| KernelCurve.StoreThreeLines | kernel/clevo-cc/clevo-cc.c:1443-1567 | three channel lines merge independently, and one refused channel refuses the store |
| KernelCurve.StorePrintedIff | kernel/clevo-cc/clevo-cc.c:1480-1530 | a text of three channel lines is stored exactly when every fan is left alone, rises, or is what the EC holds; then exactly its middle points are the EC's |
| KernelCurve.ScanSpaced | kernel/clevo-cc/clevo-cc.c:1289-1313 | points are read whatever blanks, tabs and commas separate them and whatever follows the fourth |
| KernelCurve.FewPointsAreRefused | kernel/clevo-cc/clevo-cc.c:1480-1490 | a channel of fewer than four points refuses the line |
| KernelCurve.LargeNumbersAreRefused | kernel/clevo-cc/clevo-cc.c:1289-1313 | so does a number whose low 32 bits do not fit a byte |
| KernelCurve.OtherLines | kernel/clevo-cc/clevo-cc.c:1455-1480 | without a colon only blank and information lines are ignored |
| KernelCurve.LeadingBlanks | kernel/clevo-cc/clevo-cc.c:1455-1465 | leading blanks of a line do not matter |
| KernelCurve.EchoRestore | kernel/clevo-cc/clevo-cc.c:1249-1275 | storing what the attribute printed leaves every byte of the EC as it was, for every table, non-increasing channels included |
| KernelDriver.ParsePoints | kernel/clevo-cc/clevo-cc.c:1289-1313 | fills the two arrays with the points the text denotes, or reports that it denotes none |
| KernelDriver.CurveToWritePayload | kernel/clevo-cc/clevo-cc.c:1401-1418 | copies points 2 and 3 of every fan from the read layout to the write layout and nothing else |
| KernelDriver.FillSlopes | kernel/clevo-cc/clevo-cc.c:1360-1387 | completes the seeded payload with the slopes its own points imply, zero for absent and non-increasing fans |
| KernelDriver.SeedWritePayload | kernel/clevo-cc/clevo-cc.c:1425-1441 | a successful seed is the EC's own table in the write layout |
| KernelDriver.EncodeFan | kernel/clevo-cc/clevo-cc.c:1325-1351 | changes one fan of the payload, or refuses a non-increasing pair and writes nothing |
| KernelDriver.StoreChannel | kernel/clevo-cc/clevo-cc.c:1480-1530 | one channel line merges into the payload or is refused |
| KernelDriver.FanCurveStore | kernel/clevo-cc/clevo-cc.c:1443-1567 | whatever fails, the EC keeps its table with nothing sent or is sent exactly the merge of the text into its own table; with a firmware that answers it fails exactly for a refused text, as EINVAL |
| KernelDriver.FanCurveShow | kernel/clevo-cc/clevo-cc.c:1249-1275 | prints the EC's own table or fails |
| KernelDriver.EchoBack | kernel/clevo-cc/clevo-cc.c:1249-1275 | the cat-and-restore a user performs leaves the EC unchanged |
| DriverText.DecodeCurveForDriver | crates/clevo-transport/src/driver.rs:270-291 | the text is the payload's points, and non-increasing populated fans are refused |
| DriverText.FanCurveReply | crates/clevo-transport/src/driver.rs:162-200 | the buffer rebuilt from the text holds what its lines say |
| DriverText.ReadPrintedCurve | crates/clevo-transport/src/driver.rs:162-200 | the reply rebuilt from a printed curve carries the EC's table byte for byte |
| DriverText.CarriageReturnsAreStripped | crates/clevo-transport/src/driver.rs:162-200 | lines ending in a carriage return read the same |
| DriverText.BadPiecesAreSkipped | crates/clevo-transport/src/driver.rs:162-200 | a piece that is no byte is left out, and nothing else |
| CurvePipeline.CurveWritePipeline | crates/clevo-transport/src/driver.rs:155-160 | encode, print, parse and merge: every accepted curve over every EC table leaves exactly its middle points on populated fans and every other byte; a rejected curve reaches nothing |
| CurvePipeline.DeliverIff | crates/clevo-transport/src/driver.rs:270-291 | any payload, from whatever encoder, gets through exactly when every fan rises or is left alone, and then the EC's middle points are its bytes |
| CurvePipeline.WrittenBytes | crates/clevo-proto/src/fan_curve.rs:112-146 | what the EC's table holds after a write, byte by byte, duties to nearest |
| CurvePipeline.CurveReadPipeline | crates/clevo-proto/src/fan_curve.rs:88-110 | reading through the text loses only the init mode |
| CurvePipeline.WrittenReadBack | crates/clevo-proto/src/fan_curve.rs:285-298 | the read-back keeps the EC's end points and absent fans, shows the written points exactly, and is recognised as the written curve |
| CurvePipeline.WriteThenRead | crates/clevo-proto/src/fan_curve.rs:285-298 | a write followed by a read, entirely through the driver's text, satisfies same_writable_state |
| CurvePipeline.RewriteIsIdempotent | crates/clevod/src/service.rs:486-505 | writing a curve twice leaves what writing it once leaves |
| DriverTransport.WriteCurve | crates/clevo-transport/src/driver.rs:155-160 | over buffers and a failing EC: success means the EC holds the written curve, an invalid curve sends nothing |
| DriverTransport.ReadCurveInfo | crates/clevod/src/service.rs:464-470 | a successful read is the EC's table |
| Slopes.SlopesAgree | crates/clevo-proto/src/fan_curve.rs:222-241 | percent-based and raw-byte slopes differ by at most 16/dt + 1, clamping included |
| Rpm.RecipThrice | crates/clevo-proto/src/fan_status.rs:196-213 | with f(x) = round(S/x), f(f(f(p))) = f(p) for every S and every p with f(p) > 0 |
| Rpm.ConversionsAreNearest | crates/clevo-proto/src/fan_status.rs:190-213 | all three conversions are the scale over their argument to nearest, zero of zero, periods cut to 65535 below 33 rpm |
| Rpm.ClampNeverBites | crates/clevo-proto/src/fan_status.rs:207-213 | the u16 clamp never applies to an rpm the kernel reports |
| Rpm.DisplayedRpmIsExact | kernel/clevo-cc/clevo-cc.c:1002-1009 | for every 16-bit period the daemon shows exactly the hwmon rpm |
| Rpm.PeriodRecoveredIff | crates/clevo-proto/src/fan_status.rs:190-213 | the period itself comes back exactly when its product with the reported rpm misses the scale by at most half that rpm |
| Rpm.FastPeriodsRecovered | crates/clevo-proto/src/fan_status.rs:190-213 | every period up to 1468, that is every fan at 1469 rpm or more, comes back |
| FanStatus.FanStatusReply | crates/clevo-transport/src/driver.rs:115-135 | the synthetic reply is a record of the readings and of the raw temperature bytes when there are enough |
| FanStatus.KernelReadsIff | kernel/clevo-cc/clevo-cc.c:988-1009 | a reply is read exactly from 22 bytes on; the rpms are those of bytes 2 and 3 and of bytes 4 and 5 |
| FanStatus.StatusReadsBack | crates/clevo-transport/src/driver.rs:115-135 | reported rpms, a GPU that cannot be read, and any raw dump, through record and parser: those rpms, zero, and the dump's bytes 18, 21 and 24 if it has them |
| FanStatus.StatusOfBytes | crates/clevo-proto/src/fan_status.rs:160-190 | which byte of a payload means what |
| FanStatus.DisplayedStatusIsExact | crates/clevo-transport/src/driver.rs:115-135 | from firmware reply through hwmon text, record and parser: the rpms shown are those of the reply's period bytes to nearest, the temperatures its own |
| Records.ParseResponse | crates/clevo-proto/src/response.rs:32-66 | the loop over a moving offset computes the recursive parse |
| Records.ParseSerialized | crates/clevo-proto/src/response.rs:32-66 | serialise, pad with anything, parse gives the same records |
| Records.ReserializePrefix | crates/clevo-proto/src/response.rs:32-66 | every successful parse re-serialises to a prefix of the buffer, with the count the buffer states |
| Records.OverrunNamesFirstMisfit | crates/clevo-proto/src/response.rs:32-66 | an overrun error is returned exactly when it names the first record that does not fit |
| Records.WrapRecord | crates/clevo-transport/src/driver.rs:343-353 | builds one result record |
| Records.WrapAsDchuResponse | crates/clevo-transport/src/acpi_call.rs:310-325 | builds one result record, padded with zeros to 0x40C bytes |
| Records.WrappedReadsBack | crates/clevo-proto/src/response.rs:81-104 | a wrapped payload reads back cut to its 16-bit length |
| Records.WrapUndoneIff | crates/clevo-proto/src/response.rs:81-104 | wrapping is undone exactly for payloads shorter than 64 KiB |
| Records.IntegerReadsBack | crates/clevo-transport/src/driver.rs:339-341 | response_integer undoes wrap_integer for every 32-bit value and whatever follows it; a shorter record is an error |
| Records.FirstResultIff | crates/clevo-proto/src/response.rs:81-104 | the result is the data of the first record with tag 0, and missing exactly when there is none |
| Records.ResultReadsBack | crates/clevo-proto/src/response.rs:81-104 | so it is for records as they lie in a response, whatever precedes and follows |
| Records.ParseFailsIff | crates/clevo-proto/src/response.rs:32-66 | every buffer parses, is shorter than its header, or overruns |
| Autostart.ExecArg | ui/src-tauri/src/autostart.rs:55-73 | quotes every argument and refuses exactly those with a character of U+0000-U+001F or U+007F-U+009F |
| Autostart.DesktopExec | ui/src-tauri/src/autostart.rs:75-114 | the Exec value of a launcher, refused if any part is |
| Autostart.ExecRoundTrip | ui/src-tauri/src/autostart.rs:55-114 | read by sections 4 and 7 of the Desktop Entry Specification the value starts exactly that command with --tray, through env when the path holds a percent sign |
| Autostart.ExecValueIsOneLine | ui/src-tauri/src/autostart.rs:55-73 | an accepted command stays on one line of the entry |
| ChargeKernel.ChargeContains | kernel/clevo-cc/clevo-cc.c:1742-1750 | finds exactly the values before the first zero |
| ChargeKernel.ChargeValuesValid | kernel/clevo-cc/clevo-cc.c:1752-1769 | accepts exactly increasing percentages followed by zero padding |
| ChargeKernel.ValuesValidIff | kernel/clevo-cc/clevo-cc.c:1752-1769 | that is some increasing percentages, at least one, then zeros |
| ChargeKernel.AdvertisedIff | kernel/clevo-cc/clevo-cc.c:1742-1750 | a valid list offers its entries but the padding |
| ChargeKernel.ReadIff | kernel/clevo-cc/clevo-cc.c:1771-1800 | a read succeeds exactly when the call goes well and lists and window are sound, and is unsupported exactly when the lists are not |
| ChargeKernel.DriverSet | kernel/clevo-cc/clevo-cc.c:1821-1859 | the transaction statement by statement; success means the target, an error under one fault the previous window |
| ChargeKernel.SuccessMeansTarget | kernel/clevo-cc/clevo-cc.c:1821-1859 | under any number of faults success means the firmware holds the target |
| ChargeKernel.SingleFaultTolerance | kernel/clevo-cc/clevo-cc.c:1821-1859 | at most one misbehaving call: the target on success, the previous window on error |
| ChargeKernel.HealthySuccessIff | kernel/clevo-cc/clevo-cc.c:1771-1859 | without faults a request succeeds exactly when it is valid, the firmware readable and both percentages listed; then one write is sent, none if the window is there already |
| ChargeKernel.FailureCostsFault | kernel/clevo-cc/clevo-cc.c:1821-1859 | a servable request that fails has met a fault |
| ChargeKernel.WritesAreFew | kernel/clevo-cc/clevo-cc.c:1821-1859 | what is written under any faults: nothing, the target, or on error the target and then the window there was; nothing for a request that cannot be served or is met already |
| ChargeKernel.TwoFaultsAreTooMany | kernel/clevo-cc/clevo-cc.c:1821-1859 | the single-fault bound is sharp |
| ChargeNative.NativeFile.SetNativeUsing | crates/clevod/src/power.rs:263-327 | the daemon's transaction on top; success means what was asked for is there, "confirms previous" and "restored" what they say; without faults it succeeds exactly for a request that can be served |
| ChargeNative.OutcomesAreTruthful | crates/clevod/src/power.rs:263-327 | under any number of faults in firmware and file: Ok means the firmware holds the requested end, the requested or else its old start, enabled unless asked otherwise; confirmed or restored the old window; refusals leave it untouched |
| ChargeNative.RecoverConfirms | crates/clevod/src/power.rs:296-312 | after a failed write, a clean read that still shows the old window ends the call with "previous confirmed" and no further write |
| ChargeNative.HealthyOutcome | crates/clevod/src/power.rs:263-327 | without faults, exactly which outcome a request has, and that an applied one sends one write or none |
| ChargeNative.OneFaultAcrossLayers | crates/clevod/src/power.rs:263-327 | one fault anywhere through both layers: no restore failure, and no third window |
| ChargeNative.CheckedWriteUnderOneFault | crates/clevod/src/power.rs:296-313 | a checked write under one fault leaves the old or the new window, and failing uses the fault up |
| ChargeStandard.Battery.ApplyWindow | crates/clevod/src/power.rs:458-484 | the two attribute writes in the order that the windows ask for, stopping at the first failure |
| ChargeStandard.Battery.SetThresholds | crates/clevod/src/power.rs:173-261 | the standard transaction; Ok only when the attributes show what was asked for; with a driver that obeys, exactly for a request the files can serve |
| ChargeStandard.AppliedIsShown | crates/clevod/src/power.rs:195-261 | with a driver that clamps, stores anything or refuses: Ok only when the attributes show the requested end and the requested or else the old start, "restored" only for the old window, refusals write nothing |
| ChargeStandard.MetIsLeftAlone | crates/clevod/src/power.rs:228-236 | a request the battery files meet already is answered with what they show and writes nothing |
| ChargeStandard.ObeyedOutcome | crates/clevod/src/power.rs:195-261 | with a driver that obeys, exactly which outcome a request has, what the attributes hold then, and that only changes are written |
| ChargeStandard.OneSlipIsUndone | crates/clevod/src/power.rs:230-261 | one access that fails, is refused or stores another percentage, anywhere: the request is applied or the attributes are what they were |
| ChargeStandard.WindowStaysOrdered | crates/clevod/src/power.rs:458-484 | between two ordered windows every attribute state has start below end, also when a write fails part-way |
| ChargeStandard.RequestStaysOrdered | crates/clevod/src/power.rs:195-261 | the same over a whole request with its rollback |
| ChargeStandard.ChargeService.SetChargeWindow | crates/clevod/src/service.rs:245-278 | name, supply type and presence are checked first; the stored map changes only for this battery, only on success, only to the window asked for and confirmed by a read-back, and the file follows if the save succeeds; with firmware or driver well-behaved, exactly which requests succeed |
| DaemonService.Service.CaptureFactoryCurve | crates/clevod/src/service.rs:506-534 | one capture on the running daemon is the modelled one |
| DaemonService.Service.SetCurve | crates/clevod/src/service.rs:543-567 | an accepted curve runs in custom mode; a refused one leaves mode and curve remembered as they were |
| DaemonService.Service.ReplaySaved | crates/clevod/src/service.rs:675-799 | the replay of curve, modes and keyboard is the modelled one, and asks for the stored performance mode last |
| DaemonService.Service.ToConfig | crates/clevod/src/service.rs:808-831 | overlays exactly what this session set on the loaded file |
| DaemonService.Service.SetFanMode | crates/clevod/src/service.rs:585-592 | a mode that was set is the EC's, and the file's when its save succeeds |
| DaemonService.Service.SetPerfMode | crates/clevod/src/service.rs:595-611 | a performance mode that was set was asked for, is remembered, and is the file's when its save succeeds |
| DaemonService.Service.SyncModes | crates/clevod/src/service.rs:613-634 | adopts the shown fan mode and a known performance mode, saves exactly on a new one, and keeps the file in step |
| DaemonService.Service.ApplySaved | crates/clevod/src/service.rs:649-672 | with a stored curve, custom mode is only selected directly behind it |
| DaemonService.Start | crates/clevod/src/main.rs:98-172 | after load, construct and apply: a stored curve is active when its two commands succeed, the stored performance mode was asked for, the keyboard of the file is the one in memory, a refused file is replaced or left |
| DaemonRuns.CaptureIff | crates/clevod/src/service.rs:506-534 | the factory curve is recorded, as the EC's table, exactly when none is, the read succeeds and the EC does not show the saved curve; into the file exactly when that is saved |
| DaemonRuns.SetCurveFacts | crates/clevod/src/service.rs:543-567 | succeeds exactly for a valid curve on a writable EC whose two commands succeed; what it may and may not change, for any failures |
| DaemonRuns.AcceptedIsStored | crates/clevod/src/service.rs:543-567 | an accepted curve whose save succeeded is active and is what the file will bring back |
| DaemonRuns.BootKeepsCurve | crates/clevod/src/service.rs:649-749 | a start from such a file, cold or warm, asks for the curve again whatever fails and is captured, and makes it active when its two commands succeed |
| DaemonRuns.CurveSurvives | crates/clevod/src/service.rs:649-749 | over any run of power losses, warm restarts, polls and other settings, with reads, saves and commands failing at will: file and memory keep asking for the curve, and the EC is in custom mode with it whenever the two commands of the last start succeeded |
| DaemonRuns.AcceptedCurveSurvives | crates/clevod/src/service.rs:543-567 | the same from an accepting call on whose save succeeded |
| DaemonRuns.HealthyStartsSend | crates/clevod/src/service.rs:649-749 | when no command fails, every start counts |
| DaemonRuns.NormalModeComesBack | crates/clevod/src/service.rs:689-737 | a saved mode other than custom, or custom without a curve, is selected again by a start whose mode command succeeds, which sends no curve and leaves the EC's table alone |
| DaemonRuns.ToConfigIs | crates/clevod/src/service.rs:808-831 | to_config field by field: what this session set, else what was loaded |
| ModeRuns.SetFanModeIff | crates/clevod/src/service.rs:585-592 | set_fan_mode succeeds exactly on a writable machine whose command succeeds; what it sends, remembers and saves |
| ModeRuns.SetPerfModeIff | crates/clevod/src/service.rs:595-611 | set_perf_mode succeeds exactly for an advertised mode on a writable machine whose capability read and command succeed; what it sends, remembers and saves |
| ModeRuns.PollFacts | crates/clevod/src/service.rs:613-634 | what a poll adopts; it sends nothing and attempts a save exactly when what the file says about the performance mode changes |
| ModeRuns.StartSendsPerf | crates/clevod/src/service.rs:739-747 | a start asks for the stored performance mode, last of all, exactly when it is one of the four, advertised and writable with the capability read succeeding, and remembers it exactly when the command succeeds |
| ModeRuns.PerfComesBack | crates/clevod/src/service.rs:739-747 | so a stored performance mode comes back when nothing fails |
| ModeRuns.AcceptedPerfIsHeld | crates/clevod/src/service.rs:595-611 | an accepted performance mode whose save succeeded is held from then on |
| ModeRuns.PerfSurvives | crates/clevod/src/service.rs:649-749 | over any run in which nobody asks for and the driver shows no other mode, with reads, saves and commands failing at will: file and every later save say it, and the machine is asked for no other |
| ModeRuns.UnappliedSendsNothing | crates/clevod/src/service.rs:660-662 | without apply_on_start a start sends no command and remembers no mode or curve |
| ModeRuns.StoredCurveIsRemembered | crates/clevod/src/service.rs:693-706 | a start that replays remembers a valid stored curve, also one it does not write |
| ModeRuns.CurveWithoutModeIsApplied | crates/clevod/src/service.rs:689-712 | a stored curve without a stored mode is written and custom mode selected |
| ModeRuns.UnknownModeIsSkipped | crates/clevod/src/service.rs:714-737 | a stored fan mode that is none of the five sends nothing |
| ModeRuns.ModeSurvives | crates/clevod/src/service.rs:689-737 | the same for the normal fan modes: file and memory keep asking, and the EC is in the mode whenever the last start's mode command succeeded |
| FileRuns.ActSaves | crates/clevod/src/service.rs:839-855 | exactly which actions save, and that the others change nothing that would be saved |
| FileRuns.FileFollowsMemory | crates/clevod/src/service.rs:839-855 | over runs with restarts and saves succeeding: from the first action after each start that saves, the file equals to_config after every action, whichever commands failed |
| FileRuns.SessionInStep | crates/clevod/src/service.rs:839-855 | without a start in between nothing falls out of step |
| FileRuns.SetFanModeSaves | crates/clevod/src/service.rs:585-592 | a mode that was set is the EC's and the file's; a failing call changes nothing that is saved |
| DaemonRuns.FactoryStaysIff | crates/clevod/src/service.rs:506-534 | once recorded and saved the factory curve is in memory and file after every action of a run, under any failures, exactly when every start that refuses the file reads the EC and finds that curve in it |
| DaemonRuns.FactoryNeverChanges | crates/clevod/src/service.rs:506-534 | so it never changes, in any run with any failures, while the file loads |
| DaemonRuns.RefusedFileIsReplaced | crates/clevod/src/main.rs:98-104 | a start that cannot load the file replaces it, by defaults, the captured curve and a fresh keyboard, exactly when its curve read and its save succeed, and leaves it otherwise |
| DaemonRuns.SessionFactoryNeverChanges | crates/clevod/src/service.rs:506-534 | once in memory it never changes in the session, failed saves included |
| DaemonRuns.FirstStartCaptures | crates/clevod/src/service.rs:649-672 | a start that sees the shipped table records exactly it |
| DaemonRuns.FactoryIsShipped | crates/clevod/src/service.rs:506-534 | from no file and a cold EC, the read and the save of the first start succeeding: the factory curve is the shipped one in every later state exactly when every start that refuses the file finds it again, so always while the file loads |
| FactoryRuns.FirstRecordDecides | crates/clevod/src/service.rs:506-534 | under any failures and with any other actions in between, a session that starts without a factory curve records what the EC shows at the first curve write whose capture read succeeds while the EC does not show the saved curve, and none without such a write |
| FactoryRuns.RecordsUsersCurve | crates/clevod/src/service.rs:511-533 | if the EC showed the saved curve at the start of it, what is recorded is always a curve the user wrote in this session, compared as the daemon compares |
| FactoryRuns.UserCurveRecordedAsFactory | crates/clevod/src/service.rs:511-562 | so from a warm start on, under any failures, the factory curve stays unknown or becomes one that the user wrote, compared as the daemon compares |
| FactoryRuns.WritesRecordFirstDifferent | crates/clevod/src/service.rs:511-533 | nothing failing and nothing but curve writes, in a session that starts on the saved curve without a factory curve: the first curve that differs from the saved one on a fan both populate is recorded, as read back, if and only if another write follows it |
| FactoryRuns.SecondCurveRecordsFirst | crates/clevod/src/service.rs:511-533 | the same for two writes, nothing failing |
| FactoryRuns.FirstReadDecides | crates/clevod/src/service.rs:506-534 | without a saved curve the first successful capture read decides |
| FactoryRuns.SessionFactoryIsShippedIff | crates/clevod/src/service.rs:506-534 | on a cold EC, any saved curve, any failures, with written curves that do not look like the shipped one: right exactly when a capture records no later than the first write that reaches the EC |
| FactoryRuns.FirstSessionFactoryIff | crates/clevod/src/service.rs:649-672 | the same from no file, the capture read of the start counting first |
| FactoryRuns.SavedFactoryIsShipped | crates/clevod/src/service.rs:506-534 | once such a factory curve is in the file it stays through every later run exactly when every start that refuses the file finds it in the EC again |
| FactoryRuns.StartRecordsIff | crates/clevod/src/service.rs:649-672 | if it was not saved, the next start decides afresh from what the EC shows then, with the read of the capture or that of the replayed curve write |
| FactoryRuns.WarmStartShowsSaved | crates/clevod/src/service.rs:524-530 | how such a session begins, whatever fails: after a warm start on a file without a factory curve the EC still shows the saved curve and nothing is recorded |
| FactoryRuns.WarmWritesRecordUsersCurve | crates/clevod/src/service.rs:511-562 | from a warm start on, nothing failing and nothing but curve writes: the recorded factory curve is the user's first different curve when another write follows it, else none |
| CaptureRace.CallIsSetCurve | crates/clevod/src/service.rs:506-567 | the four steps of one call, undisturbed, do to the table and the factory curve what set_curve does, whatever fails |
| CaptureRace.RacesRecordShipped | crates/clevod/src/service.rs:521-534 | on a cold EC with capture reads succeeding, every interleaving of any set_curve calls, writes failing at will, records nothing but the shipped curve, and before any call gets to its write |
| CaptureRace.ConcurrentWritesRecordShipped | crates/clevod/src/service.rs:521-534 | so once any of them is done the factory curve is the shipped one |
| DaemonRuns.SetCurveSendsInOrder | crates/clevod/src/service.rs:543-567 | custom mode is sent only directly after a successful command 14 with this curve's encoding |
| DaemonRuns.FailedSetCurveChangesNothing | crates/clevod/src/service.rs:543-567 | an erring set_curve leaves fan mode, saved curve and the fan fields of to_config unchanged |
| DaemonRuns.ReplaySendsInOrder | crates/clevod/src/service.rs:689-737 | every replay with a stored curve: the same, whatever fails and whatever mode is stored |
| DaemonRuns.CustomNeverBare | crates/clevod/src/service.rs:689-737 | over whole runs in which nobody picks custom by name: never on the wire without a successful write before it, never remembered without a curve |
| FileRuns.CaptureSavesFreshKeyboard | crates/clevod/src/service.rs:649-672 | the file's keyboard after a start, loading or not and whatever fails, is that of a fresh backend exactly when the start records and saves a factory curve, else unchanged |
| FileRuns.KeyboardComesBack | crates/clevod/src/service.rs:751-797 | a start that applies rebuilds in memory the snapshot whose saved form the file holds |
| FileRuns.ActFile | crates/clevod/src/service.rs:839-855 | what any action but a keyboard request leaves in the file, reads, commands and saves failing at will |
| FileRuns.KeyboardFate | crates/clevod/src/service.rs:649-672 | exactly when the saved keyboard survives a run with restarts, refused files included, in the file and in memory, by the starts that apply or capture and the saves that succeed; reads, commands and saves fail at will |
| FileRuns.KeyboardSurvives | crates/clevod/src/service.rs:649-672 | with apply_on_start and a known factory curve it survives every run in which the file loads, whatever fails |
| FileRuns.UnappliedKeyboardIsLost | crates/clevod/src/service.rs:660-662 | without apply_on_start, a start and any action whose save succeeds lose it |
| Persistence.NoLostUpdate | crates/clevod/src/service.rs:808-855 | in every interleaving of any threads of fan, performance, curve, charge, keyboard and poll operations, curve writes that fail after a capture included, with saves failing at will: once all are done and the last save succeeded, the file is to_config of memory |
| Persistence.SyncSavesIff | crates/clevod/src/service.rs:613-634 | a poll saves exactly when the performance mode it found makes the saved form of memory different |
| Persistence.OnlyKeysAreLost | crates/clevod/src/service.rs:391-397 | with zone writes that are cut short anywhere in the schedule, everything but the keyboard is still never lost |
| Persistence.NextSaveHeals | crates/clevod/src/service.rs:839-855 | and the keyboard is right again once a save begins after the last of them |
| Persistence.NoSaveNoChange | crates/clevod/src/service.rs:613-634 | if nothing was saved at all, nothing that is saved has changed |
| Persistence.QuietSync | crates/clevod/src/service.rs:613-634 | the poll path that does not save changes no config, finished or half-read |
| Persistence.ConfigOfWorld | crates/clevod/src/service.rs:808-831 | the five separate reads, uninterrupted, are to_config |
| Persistence.ModeProgramsAreOperations | crates/clevod/src/service.rs:585-634 | the step programs do to memory what the daemon's mode operations and polls do |
| Persistence.ChargeProgramIsOperation | crates/clevod/src/service.rs:267-278 | the same for charge windows |
| Persistence.HidProgramIsOperation | crates/clevod/src/service.rs:367-404 | the same for every keyboard request on the HID backend, and it saves exactly when the backend succeeded |
| Persistence.AcpiProgramIsOperation | crates/clevod/src/service.rs:367-404 | the same on the single channel behind the driver |
| Persistence.CurveProgramIsOperation | crates/clevod/src/service.rs:543-567 | the same for a curve write and the capture inside it, failing ones included |
| Persistence.CutZoneSavedIff | crates/clevod/src/service.rs:391-397 | a zone write cut short after k keys, last in any schedule on a file in step: the file ends up right exactly when the first k keys of the zone had the colour already |
| Persistence.RefusedZoneSavedIff | crates/clevo-transport/src/keyboard.rs:344-364 | the same after any schedule of completed operations, with the keys the controller accepts before its first refusal |
| Persistence.NoRefusalLosesIff | crates/clevo-transport/src/keyboard.rs:344-364 | no refusal can lose the write exactly when every key of the zone but the last has the colour already |
| Persistence.RefusedZoneIsLost | crates/clevo-transport/src/keyboard.rs:344-364 | on a keyboard just opened any zone and any colour but black is lost when the second report is refused |
| KernelKeyboard.FadeApproaches | kernel/clevo-cc/clevo-cc.c:596-626 | each fade step lies between the last one and the target, and the last step is the target |
| KernelKeyboard.FadeIsLinear | kernel/clevo-cc/clevo-cc.c:596-626 | and it is the linear interpolation, cut toward the start |
| KernelKeyboard.LevelIsNearest | kernel/clevo-cc/clevo-cc.c:660-678 | the raw level is the percentage on 0..191 to nearest, halves up |
| KernelKeyboard.ReportIsNearest | kernel/clevo-cc/clevo-cc.c:660-678 | and back the same way |
| KernelKeyboard.ColorWordIff | kernel/clevo-cc/clevo-cc.c:574-583 | two colours share a command word exactly when they are equal or are the reserved entry and its stand-in |
| KernelKeyboard.HandleKeepsCoherent | kernel/clevo-cc/clevo-cc.c:701-730 | a failed request changes no cached field, a successful one keeps the cache coherent |
| KernelKeyboard.CacheStaysCoherent | kernel/clevo-cc/clevo-cc.c:841-958 | over every sequence of LED and keyboard_rgb writes with any failures: percent is that of the raw byte, raw at most 191, LED zero or raw, zones agree |
| KernelKeyboard.CoherentSinceProbe | kernel/clevo-cc/clevo-cc.c:1963-1968 | so over every sequence from probe on |
| KernelKeyboard.ReportedPercentIsClose | kernel/clevo-cc/clevo-cc.c:665-678 | writing the reported percentage back moves the raw byte by at most one |
| KernelKeyboard.SuccessPanel | kernel/clevo-cc/clevo-cc.c:758-783 | what the channel was asked for after each successful request, from the words sent |
| KernelKeyboard.SuccessSends | kernel/clevo-cc/clevo-cc.c:701-958 | the very words each successful request has sent |
| KernelKeyboard.HealthyOkIff | kernel/clevo-cc/clevo-cc.c:841-958 | with a firmware that answers, exactly which requests are refused, and that those send nothing |
| KernelKeyboard.SuccessCache | kernel/clevo-cc/clevo-cc.c:701-958 | what the cache says after each successful request |
| KernelKeyboard.TruthIff | kernel/clevo-cc/clevo-cc.c:892-915 | exactly which requests leave the LED value equal to what the channel was asked to show |
| KernelKeyboard.DimmedStaysDark | kernel/clevo-cc/clevo-cc.c:892-915 | 0 % and back up leaves a lit cache over a channel last powered off, until a mode write |
| KernelKeyboardDriver.Driver.LedWrite | kernel/clevo-cc/clevo-cc.c:701-730 | the LED-class write, command by command |
| KernelKeyboardDriver.Driver.Transition | kernel/clevo-cc/clevo-cc.c:596-626 | the fade loop sends exactly the 24 step colours up to the first failure, or one word for an unknown colour |
| KernelKeyboardDriver.Driver.ApplyStatic | kernel/clevo-cc/clevo-cc.c:758-783 | re-arms the channel from the cache |
| KernelKeyboardDriver.Driver.Store | kernel/clevo-cc/clevo-cc.c:841-958 | every keyboard_rgb request on the driver's own fields; coherent stays coherent, failure changes no cached field |
| Keyboards.FromSnapshot | crates/clevod/src/config.rs:108-127 | the nested loops produce the non-black cells in row-major order |
| Keyboards.SparseRoundTrip | crates/clevod/src/config.rs:108-127 | painted onto black, the sparse list is the whole grid again, cell by cell |
| Keyboards.ModeNamesRead | crates/clevod/src/service.rs:755-763 | the two mode names, and that any other restores as static |
| HidBackend.KeyCodeInjective | crates/clevo-transport/src/keyboard.rs:353-364 | the row is in the upper three bits and the column in the lower five, so two keys share a report code only if they are one key |
| HidBackend.BrightnessIsNearest | crates/clevo-transport/src/keyboard.rs:232-249 | the vendor's level of the nearest quarter, refused above 100 |
| HidBackend.ZoneWritten | crates/clevo-transport/src/keyboard.rs:344-351 | a zone write that succeeds leaves the colour in the columns of its zone, everything else as it was |
| HidBackend.RequestTells | crates/clevo-transport/src/keyboard.rs:332-376 | what each accepted request tells the controller and changes of the snapshot, and what not |
| HidBackend.HidKeyboard.SetZone | crates/clevo-transport/src/keyboard.rs:344-351 | the nested loops over the zone, stopping at the first refused report |
| HidBackend.ZonePainted | crates/clevo-transport/src/keyboard.rs:344-364 | a zone write paints exactly the cells it reached; a failing one stops inside the zone and is not undone |
| HidBackend.ZoneChangesNothingIff | crates/clevo-transport/src/keyboard.rs:344-364 | it succeeds exactly when every report is accepted, and leaves the snapshot alone exactly when the keys that got through had the colour already |
| HidBackend.NoRefusalChangesIff | crates/clevo-transport/src/keyboard.rs:344-364 | no pattern of refusals leaves a change behind exactly when every key of the zone but the last has the colour already |
| HidBackend.RunAgrees | crates/clevo-transport/src/keyboard.rs:332-376 | in any run with any refused reports, every non-black key of the snapshot is what the controller was told |
| HidBackend.ReplayKeysFrame | crates/clevod/src/service.rs:790-796 | keys the saved list does not name are left as the controller had them |
| HidBackend.HidKeyboard.ReplayConfig | crates/clevod/src/service.rs:783-796 | mode, brightness, keys, counting failures |
| HidBackend.ReplayRebuilds | crates/clevod/src/service.rs:783-796 | a replay without a reported failure rebuilds mode, brightness and every cell on a fresh backend and tells the controller every non-black key |
| HidBackend.RefusedReplayCounts | crates/clevod/src/service.rs:783-797 | under a controller that refuses everything the replay reports every one of its requests as failed and changes nothing |
| HidBackend.OffSurvivesReplayIff | crates/clevod/src/service.rs:783-789 | a keyboard saved as off is dark after the replay exactly when its saved brightness is below 13 |
| AcpiBackend.AcpiKeyboard.SetZone | crates/clevo-transport/src/keyboard.rs:431-489 | one channel: success makes the whole grid that colour, failure changes nothing |
| AcpiBackend.RunReachable | crates/clevo-transport/src/keyboard.rs:471-514 | every reachable snapshot has one colour, over a driver cache that stays coherent |
| AcpiBackend.ReplayRebuildsIff | crates/clevod/src/service.rs:764-782 | a replay without failures rebuilds exactly the uniform snapshots |
| AcpiBackend.HealthyReplay | crates/clevod/src/service.rs:764-782 | colour, brightness, mode in this order leave the channel dark or lit at the saved level, with a truthful LED value |
| CurveCard.MovePoint | ui/src/components/CurveCard.tsx:99-114 | moves one point to where it is dropped, or to the nearer bound, and no other |
| CurveCard.LastDragLands | ui/src/components/CurveCard.tsx:99-114 | after any drags, the last one ends where it is dropped, on its own fan and point, and nothing else moves |
| CurveCard.ReadFan | crates/clevod/src/service.rs:884-930 | accepts exactly four pairs of a byte and a percentage, and keeps their order |
| CurveCard.DragsStayDraggable | ui/src/components/CurveCard.tsx:39-114 | any sequence of drags keeps gaps, ranges and end points |
| CurveCard.DraggedCurveIsSaved | crates/clevod/src/service.rs:880-937 | the result is accepted exactly when the untouched GPU2 fan is, and then the EC shows it |
| CurveCard.DraggedCurveIsShown | crates/clevod/src/service.rs:880-937 | and the EC shows the card's CPU points on the CPU fan, its GPU1 points on GPU1 and the third fan as sent along, end points its own |
| CurveCard.MoveStaysBetweenIff | ui/src/components/CurveCard.tsx:99-114 | without the starting gaps, moves stay strictly between the neighbours exactly when those are three degrees apart |

## Left out

- D-Bus, PolicyKit, logind, the polling timer, the command-line interface, the HTTP bridge, tray and snapshot formatting: plumbing around the modelled calls.
- ACPI evaluation, hwmon, LED and platform-profile registration, procfs, HID discovery: replaced by objects whose calls may fail.
- TOML and JSON text: parsing what was printed is taken as the identity on the data; the schema migration of old files is not modelled, and a file that does not load is the `loadOk` flag of a start.
- The text of the `flexicharger` attribute and its parser (`crates/clevod/src/power/native.rs`): one file access is one kernel read or one kernel transaction that may also fail before reaching the driver.
- The tokenising and hex parsing of `keyboard_rgb`: requests arrive as values; a refused spelling changes nothing in the source either.
- KernelCurve.ParseThreeLines: numbers of any length wrap to 32 bits as Linux `sscanf` does; `sscanf` itself is not part of this model's source. NUL bytes and buffers longer than a page are not modelled.
- CurvePipeline.CurveReadPipeline: the init mode reads back as zero, because the driver's text does not carry it.
- Rpm.DisplayedRpmIsExact: f64 formulas are exact rationals with halves away from zero and a scale of 2156250.
- The raw_status hex dump read by the transport is a given byte sequence; the CPU temperature curve and per-mode name tables are finite tables.
- Autostart.ExecRoundTrip: `%%` inside quotes is read as one literal percent sign, which the specification leaves to the launcher; checks of the executable path and file writing are not modelled.
- ChargeStandard.Battery.SetThresholds: the name, type and presence checks come before it, in ChargeStandard.ChargeService.SetChargeWindow.
- DaemonService.Service.ReplaySaved: does not replay charge windows, which touch neither fan nor keyboard, and replays the keyboard on the HID backend; the replay on the ACPI backend is AcpiBackend.AcpiKeyboard.ReplayConfig.
- DaemonService.Start: the start-up read that only detects the keyboard type and fills the displayed curve is omitted.
- KernelKeyboardDriver.Driver.Store: takes the request as a value; splitting the text into words and parsing its numbers is not modelled.
- DaemonRuns.CurveSurvives: charge replay at start-up is not part of the world, since it touches neither curve nor mode; the start-up read that only detects the keyboard type is omitted.
- FileRuns.KeyboardComesBack: the keyboard in the daemon world is a HID controller that accepts every report; refused reports are covered in HidBackend.
- FactoryRuns.WritesRecordFirstDifferent: nothing fails and only curves are written, because its condition is on the curves alone; FactoryRuns.FirstRecordDecides is the statement for every session.
- FactoryRuns.SecondCurveRecordsFirst: the same restriction, two writes.
- FactoryRuns.WarmWritesRecordUsersCurve: the same restriction; FactoryRuns.UserCurveRecordedAsFactory is the statement for every session.
- CaptureRace.ConcurrentWritesRecordShipped: the capture reads succeed; with failing ones the first call that records may have read after another one's write, as FactoryRuns.SessionFactoryIsShippedIff says for calls one after another.
- Persistence.NoLostUpdate: starts after start-up, when `applying` is false; the swap of the performance mode and the test behind it are one step, since the baseline's performance mode never changes then. State that is not saved (readings, the cached EC curve) is not in it.
- Concurrent `set_fan_mode` calls hold no lock across the hardware write, so nothing is claimed about which mode the EC ends in.
- `dutyAtTemp`, plotting and theming of the UI: presentation.
- HidBackend.OffSurvivesReplayIff: the controller is known only by the reports it accepts; what it shows for a black key that was never sent is unknown.
- KernelKeyboard.DimmedStaysDark: states what the command words ask for; whether a particular EC lights up on a level word alone is not known.
