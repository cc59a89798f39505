/**
 The C++ firmware: fixed-width fields updated in place, a line tokenized in its buffer, and 32-bit
 wrap-around time. Each step is proved to simulate the firmware model of module Firmware.
 */
module CppProtocol {
  import opened Common
  import opened Codec
  import opened CppParsing
  import opened Decimal
  import opened Firmware
  import opened Millis
  import opened Tokens
  import opened Wire

  newtype int16 = x: int | -0x8000 <= x < 0x8000
  newtype uint16 = x: int | 0 <= x < 0x1_0000

  datatype Kind = KindNone | KindSet | KindCenter | KindEnable | KindDisable | KindStatus

  /** What the sketch must do to the servos after a step. */
  datatype Action = ActionNone | AttachCenter | Write | Detach

  datatype StepResult = StepResult(action: Action, response: string)

  function Seconds(ms: int): real {
    ms as real / 1000.0
  }

  function KindOf(command: Command): Kind {
    match command
    case Hello(_) => KindNone
    case Set(_, _, _) => KindSet
    case Center(_) => KindCenter
    case Enable(_) => KindEnable
    case Disable(_) => KindDisable
    case Status(_) => KindStatus
  }

  function PanArgument(command: Command): int16 {
    if command.Set? then command.pan as int16 else 0
  }

  function TiltArgument(command: Command): int16 {
    if command.Set? then command.tilt as int16 else 0
  }

  lemma SameCommand(a: Command, b: Command)
    ensures a == b <==> && a.sequence == b.sequence
                        && KindOf(a) == KindOf(b)
                        && PanArgument(a) == PanArgument(b)
                        && TiltArgument(a) == TiltArgument(b)
  {
  }

  // ---- response text ----

  /** Formatting into the 64-byte response buffer cuts off what does not fit. */
  function Fit(text: string): string {
    if |text| <= MAX_FRAME then text else text[..MAX_FRAME]
  }

  lemma JoinSeveral(a: string, b: string, c: string, d: string, e: string, f: string)
    ensures Join([a, b, c]) == a + " " + b + " " + c
    ensures Join([a, b, c, d]) == a + " " + b + " " + c + " " + d
    ensures Join([a, b, c, d, e]) == a + " " + b + " " + c + " " + d + " " + e
    ensures Join([a, b, c, d, e, f]) == a + " " + b + " " + c + " " + d + " " + e + " " + f
  {
    JoinTwo(a, b);
    JoinSnoc([a, b], c);
    JoinSnoc([a, b, c], d);
    JoinSnoc([a, b, c, d], e);
    JoinSnoc([a, b, c, d, e], f);
    assert [a, b] + [c] == [a, b, c];
    assert [a, b, c] + [d] == [a, b, c, d];
    assert [a, b, c, d] + [e] == [a, b, c, d, e];
    assert [a, b, c, d, e] + [f] == [a, b, c, d, e, f];
  }

  /**
   `text` renders responses. State proofs use it through this predicate, which keeps the rendering
   itself out of their sight.
   */
  ghost predicate Renders(text: Response -> string) {
    forall r {:trigger ResponseText(r)} :: text(r) == ResponseText(r)
  }

  method FormatError(n: ReplySequence, code: ErrorCode, ghost text: Response -> string) returns (s: string)
    requires Renders(text)
    ensures s == text(Error(n, code))
  {
    JoinSeveral("ERR", Print(n), CodeName(code), "", "", "");
    ResponseTextFits(Error(n, code));
    s := Fit("ERR" + " " + Print(n) + " " + CodeName(code));
  }

  method FormatReady(n: ReplySequence, ghost text: Response -> string) returns (s: string)
    requires Renders(text)
    ensures s == text(Ready(n, PROTOCOL_VERSION, FIRMWARE_VERSION))
  {
    JoinSeveral("READY", Print(n), PROTOCOL_VERSION, FIRMWARE_VERSION, "", "");
    ResponseTextFits(Ready(n, PROTOCOL_VERSION, FIRMWARE_VERSION));
    s := Fit("READY" + " " + Print(n) + " " + PROTOCOL_VERSION + " " + FIRMWARE_VERSION);
  }

  method FormatAck(n: Sequence, acked: Acked, pan: Degree, tilt: Degree, ghost text: Response -> string)
    returns (s: string)
    requires Renders(text)
    ensures s == text(Ack(n, acked, pan, tilt))
  {
    JoinSeveral("ACK", Print(n), AckedName(acked), Print(pan), Print(tilt), "");
    ResponseTextFits(Ack(n, acked, pan, tilt));
    s := Fit("ACK" + " " + Print(n) + " " + AckedName(acked) + " " + Print(pan) + " " + Print(tilt));
  }

  method FormatStatus(n: Sequence, enabled: bool, pan: Degree, tilt: Degree, watchdog: Watchdog,
                      ghost text: Response -> string)
    returns (s: string)
    requires Renders(text)
    ensures s == text(Report(n, enabled, pan, tilt, watchdog))
  {
    var flag := Print(if enabled then 1 else 0);
    JoinSeveral("STATUS", Print(n), flag, Print(pan), Print(tilt), WatchdogName(watchdog));
    ResponseTextFits(Report(n, enabled, pan, tilt, watchdog));
    s := Fit("STATUS" + " " + Print(n) + " " + flag + " " + Print(pan) + " " + Print(tilt) + " " + WatchdogName(watchdog));
  }

  /** strncpy between two response buffers. */
  method CopyResponse(buffer: string, ghost response: Response, ghost text: Response -> string) returns (copy: string)
    requires Renders(text) && buffer == text(response)
    requires response.Ready? ==> |response.protocol| <= 7 && |response.firmware| <= 7
    ensures copy == buffer
  {
    ResponseTextFits(response);
    copy := Fit(buffer);
  }

  /** strstr: whether `needle` occurs in `text`. */
  predicate Occurs(text: string, needle: string) {
    exists i :: 0 <= i <= |text| && OccursAt(text, needle, i)
  }

  predicate OccursAt(text: string, needle: string, i: nat) {
    i + |needle| <= |text| && text[i..i + |needle|] == needle
  }

  /** The text of an error tells the two rejections of a SET apart. */
  lemma RejectionText(n: Sequence, code: ErrorCode)
    requires code == OutOfRange || code == NotEnabled
    ensures Occurs(ResponseText(Error(n, code)), " OUT_OF_RANGE") <==> code == OutOfRange
  {
    var digits, name := Print(n), CodeName(code);
    JoinSeveral("ERR", digits, name, "", "", "");
    PrintedIsPlain(n);
    assert ResponseText(Error(n, code)) == ErrorFields(digits, name);
    RejectionFields(digits, name);
  }

  function ErrorFields(digits: string, name: string): string {
    "ERR" + " " + digits + " " + name
  }

  lemma RejectionFields(digits: string, name: string)
    requires NoSpace(digits) && digits != "" && digits[0] != 'O' && name in {"OUT_OF_RANGE", "NOT_ENABLED"}
    ensures Occurs(ErrorFields(digits, name), " OUT_OF_RANGE") <==> name == "OUT_OF_RANGE"
  {
    var text, needle, k := ErrorFields(digits, name), " OUT_OF_RANGE", 4 + |digits|;
    assert text[k..] == " " + name;
    assert " " + "OUT_OF_RANGE" == needle;
    if name == "OUT_OF_RANGE" {
      assert OccursAt(text, needle, k);
    } else {
      forall i | 0 <= i <= |text|
        ensures !OccursAt(text, needle, i)
      {
        assert needle[0] == ' ' && needle[1] == 'O';
        if i + |needle| <= |text| {
          var found := text[i..i + |needle|];
          assert found[0] == text[i] && found[1] == text[i + 1];
        }
      }
    }
  }

  lemma RepeatTouchesDeadline(cfg: Config, m: Machine, command: Command, now: real)
    requires m.last.Some?
    ensures Repeat(cfg, m, command, now).0.last == m.last && Repeat(cfg, m, command, now).0.rejected == m.rejected
  {
  }

  lemma ExecuteIsRecordable(cfg: Config, m: Machine, command: Command, now: real)
    requires !command.Hello?
    ensures var (after, response) := Firmware.Execute(cfg, m, command, now);
            && Recordable(command, response)
            && after.last == m.last && after.rejected == m.rejected
  {
  }

  /** A response the firmware produces fits its buffer, and a cached rejection can be told from its text. */
  lemma ResponseIsKept(command: Command, response: Response, text: Response -> string)
    requires Recordable(command, response) && Renders(text)
    ensures |text(response)| <= MAX_FRAME
    ensures CachedError(command, response) ==>
              (Occurs(text(response), " OUT_OF_RANGE") <==> response.code == OutOfRange)
  {
    ResponseTextFits(response);
    if CachedError(command, response) {
      RejectionText(command.sequence, response.code);
    }
  }

  // ---- reading a line ----

  method BestEffort(line: array<char>, starts: seq<nat>, ghost tokens: seq<string>) returns (n: ReplySequence)
    requires |tokens| >= 1 && |starts| == (if |tokens| < MAX_TOKENS then |tokens| else MAX_TOKENS)
    requires TokensAt(line[..], starts, tokens)
    ensures n == SequenceOrZero(tokens)
  {
    if |starts| < 2 {
      return 0;
    }
    var token := Load(line, starts[1], tokens[1]);
    var parsed := ParseInt32Strict(token);
    if parsed.None? || !(MIN_SEQUENCE <= parsed.value as int <= MAX_SEQUENCE) {
      return 0;
    }
    return parsed.value as int;
  }

  lemma EmptyAt(a: seq<char>, start: nat, token: string)
    requires CStringAt(a, start, token)
    ensures a[start] == NUL <==> token == ""
  {
    if token != "" {
      assert token[0] != NUL;
    }
  }

  method HasEmptyToken(line: array<char>, starts: seq<nat>, ghost tokens: seq<string>) returns (found: bool)
    requires TokensAt(line[..], starts, tokens)
    ensures found <==> exists i :: 0 <= i < |starts| && tokens[i] == ""
  {
    for i := 0 to |starts|
      invariant forall j :: 0 <= j < i ==> tokens[j] != ""
    {
      EmptyAt(line[..], starts[i], tokens[i]);
      if line[starts[i]] == NUL {
        return true;
      }
    }
    return false;
  }

  /** Tokenize in place and read the command, in the order the firmware checks. */
  method ReadLine(line: array<char>, ghost text: string) returns (outcome: Outcome)
    requires CStringAt(line[..], 0, text)
    modifies line
    ensures outcome == CppOutcome(Split(text))
  {
    ghost var tokens := Split(text);
    var starts := TokenizePreservingEmpty(line, text);
    var name := Load(line, starts[0], tokens[0]);
    if name == "" {
      return Refused(0, BadCommand);
    }
    var expected := ExpectedTokens(name);
    if expected.None? {
      var n := BestEffort(line, starts, tokens);
      return Refused(n, BadCommand);
    }
    var empty := HasEmptyToken(line, starts, tokens);
    if |starts| != expected.value || empty {
      var n := BestEffort(line, starts, tokens);
      return Refused(n, BadTokenCount);
    }
    outcome := ReadCounted(line, starts, name, tokens);
  }

  method ReadCounted(line: array<char>, starts: seq<nat>, name: string, ghost tokens: seq<string>)
    returns (outcome: Outcome)
    requires |starts| == |tokens| && TokensAt(line[..], starts, tokens)
    requires ExpectedTokens(name).Some? && CountOk(tokens, ExpectedTokens(name).value) && tokens[0] == name
    ensures outcome == CppOutcome(tokens)
  {
    var token := Load(line, starts[1], tokens[1]);
    var parsed := ParseInt32Strict(token);
    if parsed.None? {
      return Refused(0, BadInteger);
    }
    var n := parsed.value as int;
    if !(MIN_SEQUENCE <= n <= MAX_SEQUENCE) {
      return Refused(0, BadSequence);
    }
    if name != "SET" {
      return Accepted(Unnumbered(name, n));
    }
    var panToken := Load(line, starts[2], tokens[2]);
    var tiltToken := Load(line, starts[3], tokens[3]);
    var pan := ParseInt32Strict(panToken);
    if pan.None? {
      return Refused(n, BadInteger);
    }
    var tilt := ParseInt32Strict(tiltToken);
    if tilt.None? {
      return Refused(n, BadInteger);
    }
    if pan.value < 0 || pan.value > 180 || tilt.value < 0 || tilt.value > 180 {
      return Refused(n, OutOfRange);
    }
    return Accepted(Set(n, pan.value as int, tilt.value as int));
  }

  /** What the struct needs of an exchange to keep it: short text, and a SET either moved or was refused. */
  predicate Recordable(command: Command, response: Response) {
    && SequenceOf(response) == command.sequence
    && (response.Ready? ==> |response.protocol| <= 7 && |response.firmware| <= 7)
    && (command.Set? ==> response.Ack? || CachedError(command, response))
  }

  /** The servo action that goes with handling a command. */
  function ActionFor(m: Machine, command: Command, response: Response): Action {
    if !RouteOf(m, command).Fresh? || !response.Ack? then ActionNone
    else
      match command
      case Set(_, _, _) => Write
      case Center(_) => Write
      case Enable(_) => AttachCenter
      case _ => Detach
  }

  // ---- the state struct ----

  class ProtocolState {
    const cfg: Config
    const timeoutMs: uint32

    var enabled: bool
    var panDeg: int16
    var tiltDeg: int16
    var watchdog: Watchdog
    var watchdogDeadlineMs: uint32
    var hasSequence: bool
    var lastSequence: uint16
    var lastCommand: Kind
    var lastPanArgument: int16
    var lastTiltArgument: int16
    var lastSetAccepted: bool
    var lastResponse: string
    var hasRejectedSet: bool
    var rejectedSetSequence: uint16
    var rejectedSetPanArgument: int16
    var rejectedSetTiltArgument: int16
    var rejectedSetOutOfRange: bool

    /** How responses are rendered. */
    ghost const text: Response -> string

    /** The unbounded time the 32-bit deadline stands for. */
    ghost var deadlineMs: int

    ghost predicate Constants()
      reads this
    {
      && ValidConfig(cfg)
      && Renders(text)
      && 0 < timeoutMs <= 60000
      && cfg.timeout == Seconds(timeoutMs as int)
    }

    ghost predicate SimOutputs(m: Machine)
      reads this
    {
      && enabled == m.enabled
      && panDeg as int == m.pan
      && tiltDeg as int == m.tilt
      && watchdog == m.watchdog
      && (m.deadline.Some? ==> m.deadline.value == Seconds(deadlineMs) && watchdogDeadlineMs == Reading(deadlineMs))
    }

    ghost predicate SimLast(last: Option<Memory>, reply: string)
      reads this
    {
      && hasSequence == last.Some?
      && (last.Some? ==>
            var command, response := last.value.command, last.value.response;
            && lastSequence as int == command.sequence
            && lastCommand == KindOf(command)
            && lastPanArgument == PanArgument(command)
            && lastTiltArgument == TiltArgument(command)
            && lastResponse == reply
            && lastSetAccepted == (command.Set? && response.Ack?)
            && Recordable(command, response))
    }

    ghost predicate SimRejected(cache: Option<Memory>)
      reads this
    {
      && hasRejectedSet == cache.Some?
      && (cache.Some? ==>
            var command, response := cache.value.command, cache.value.response;
            && rejectedSetSequence as int == command.sequence
            && rejectedSetPanArgument == PanArgument(command)
            && rejectedSetTiltArgument == TiltArgument(command)
            && CachedError(command, response)
            && SequenceOf(response) == command.sequence
            && rejectedSetOutOfRange == (response.code == OutOfRange))
    }

    /** The text of the response kept for replay. */
    ghost function LastText(m: Machine): string
    {
      if m.last.Some? then text(m.last.value.response) else ""
    }

    /** The struct and the model stand for the same firmware state. */
    ghost predicate Sim(m: Machine)
      reads this
    {
      && Constants()
      && SimOutputs(m)
      && SimLast(m.last, LastText(m))
      && SimRejected(m.rejected)
      && (m.rejected.Some? ==> m.last.Some?)
    }

    constructor (cfg: Config, timeoutMs: uint32)
      requires ValidConfig(cfg) && 0 < timeoutMs <= 60000 && cfg.timeout == Seconds(timeoutMs as int)
      ensures this.cfg == cfg && this.timeoutMs == timeoutMs && Sim(Initial(cfg))
    {
      this.cfg, this.timeoutMs, text := cfg, timeoutMs, r => ResponseText(r);
      enabled, panDeg, tiltDeg := false, cfg.neutralPan as int16, cfg.neutralTilt as int16;
      watchdog, watchdogDeadlineMs := Idle, 0;
      hasSequence, lastSequence, lastCommand := false, 0, KindNone;
      lastPanArgument, lastTiltArgument, lastSetAccepted, lastResponse := 0, 0, false, "";
      hasRejectedSet, rejectedSetSequence := false, 0;
      rejectedSetPanArgument, rejectedSetTiltArgument, rejectedSetOutOfRange := 0, 0, false;
      deadlineMs := 0;
    }

    /** A tick looks at the deadline within 2^31 ms of its passing, as every live loop does. */
    method TickWatchdog(nowMs: uint32, ghost now: int, ghost m: Machine) returns (result: StepResult)
      requires Sim(m) && Inv(cfg, m) && nowMs == Reading(now)
      requires m.deadline.Some? ==> deadlineMs - HALF <= now < deadlineMs + HALF
      modifies `enabled, `watchdog
      ensures Sim(Tick(m, Seconds(now)))
      ensures result == StepResult(if m.enabled && !enabled then Detach else ActionNone, "")
    {
      result := StepResult(ActionNone, "");
      ComparisonRight(now, if m.deadline.Some? then deadlineMs else now);
      if enabled && watchdog == Armed && DeadlineReached(nowMs, watchdogDeadlineMs) {
        enabled := false;
        watchdog := Expired;
        result := StepResult(Detach, "");
      }
    }

    method ArmWatchdog(nowMs: uint32, ghost now: int)
      requires Constants() && nowMs == Reading(now)
      modifies `watchdog, `watchdogDeadlineMs, `deadlineMs
      ensures watchdog == Armed && watchdogDeadlineMs == Reading(deadlineMs)
      ensures Seconds(deadlineMs) == Seconds(now) + cfg.timeout && deadlineMs == now + timeoutMs as int
    {
      ReadingAdds(now, timeoutMs as int);
      watchdog := Armed;
      watchdogDeadlineMs := Add32(nowMs, timeoutMs);
      deadlineMs := now + timeoutMs as int;
    }

    method Remember(n: uint16, kind: Kind, pan: int16, tilt: int16, result: StepResult,
                    ghost m: Machine, ghost command: Command, ghost response: Response)
      requires SimRejected(m.rejected) && Recordable(command, response)
      requires n as int == command.sequence && kind == KindOf(command)
      requires pan == PanArgument(command) && tilt == TiltArgument(command)
      requires |result.response| <= MAX_FRAME
      requires CachedError(command, response) ==> (Occurs(result.response, " OUT_OF_RANGE") <==> response.code == OutOfRange)
      requires command.Set? ==> (result.action == Write <==> response.Ack?)
      modifies `hasSequence, `lastSequence, `lastCommand, `lastPanArgument, `lastTiltArgument, `lastSetAccepted,
               `lastResponse, `hasRejectedSet, `rejectedSetSequence, `rejectedSetPanArgument,
               `rejectedSetTiltArgument, `rejectedSetOutOfRange
      ensures SimLast(Some(Memory(command, response)), result.response)
      ensures SimRejected(Cache(m.rejected, command, response))
    {
      if hasRejectedSet && n == rejectedSetSequence {
        hasRejectedSet := false;
      }
      RememberLast(n, kind, pan, tilt, result, command, response);
      if kind == KindSet && !lastSetAccepted {
        CacheRejected(n, pan, tilt, result, command, response);
      }
    }

    method RememberLast(n: uint16, kind: Kind, pan: int16, tilt: int16, result: StepResult,
                        ghost command: Command, ghost response: Response)
      requires Recordable(command, response) && n as int == command.sequence && kind == KindOf(command)
      requires pan == PanArgument(command) && tilt == TiltArgument(command) && |result.response| <= MAX_FRAME
      requires command.Set? ==> (result.action == Write <==> response.Ack?)
      modifies `hasSequence, `lastSequence, `lastCommand, `lastPanArgument, `lastTiltArgument, `lastSetAccepted,
               `lastResponse
      ensures SimLast(Some(Memory(command, response)), result.response)
      ensures lastSetAccepted == (command.Set? && response.Ack?)
    {
      hasSequence := true;
      lastSequence := n;
      lastCommand := kind;
      lastPanArgument := pan;
      lastTiltArgument := tilt;
      lastSetAccepted := kind == KindSet && result.action == Write;
      lastResponse := Fit(result.response);
    }

    method CacheRejected(n: uint16, pan: int16, tilt: int16, result: StepResult,
                         ghost command: Command, ghost response: Response)
      requires n as int == command.sequence && pan == PanArgument(command) && tilt == TiltArgument(command)
      requires CachedError(command, response) && SequenceOf(response) == command.sequence
      requires Occurs(result.response, " OUT_OF_RANGE") <==> response.code == OutOfRange
      modifies `hasRejectedSet, `rejectedSetSequence, `rejectedSetPanArgument, `rejectedSetTiltArgument,
               `rejectedSetOutOfRange
      ensures SimRejected(Some(Memory(command, response)))
    {
      hasRejectedSet := true;
      rejectedSetSequence := n;
      rejectedSetPanArgument := pan;
      rejectedSetTiltArgument := tilt;
      rejectedSetOutOfRange := Occurs(result.response, " OUT_OF_RANGE");
    }

    method HandleDuplicate(n: uint16, kind: Kind, pan: int16, tilt: int16, nowMs: uint32,
                           ghost now: int, ghost m: Machine, ghost command: Command)
      returns (handled: bool, result: StepResult)
      requires Constants() && SimOutputs(m) && SimLast(m.last, LastText(m)) && nowMs == Reading(now) && !command.Hello?
      requires n as int == command.sequence && kind == KindOf(command)
      requires pan == PanArgument(command) && tilt == TiltArgument(command)
      modifies `watchdog, `watchdogDeadlineMs, `deadlineMs
      ensures handled <==> RouteOf(m, command).Repeated? || RouteOf(m, command).Conflicting?
      ensures RouteOf(m, command).Repeated? ==>
                var (after, response) := Repeat(cfg, m, command, Seconds(now));
                SimOutputs(after) && result == StepResult(ActionNone, text(response))
      ensures RouteOf(m, command).Conflicting? ==>
                result == StepResult(ActionNone, text(Error(command.sequence, StaleSequence)))
      ensures !RouteOf(m, command).Repeated? ==> SimOutputs(m)
    {
      handled, result := true, StepResult(ActionNone, "");
      if !hasSequence || n != lastSequence {
        return false, result;
      }
      SameCommand(command, m.last.value.command);
      if kind != lastCommand || pan != lastPanArgument || tilt != lastTiltArgument {
        var reply := FormatError(n as int, StaleSequence, text);
        result := StepResult(ActionNone, reply);
        return;
      }
      if kind == KindSet {
        var copy := CopyResponse(lastResponse, m.last.value.response, text);
        if !lastSetAccepted {
          result := StepResult(ActionNone, copy);
          return;
        }
        if !enabled {
          var reply := FormatError(n as int, NotEnabled, text);
          result := StepResult(ActionNone, reply);
          return;
        }
        ArmWatchdog(nowMs, now);
        result := StepResult(ActionNone, copy);
        return;
      }
      if (kind == KindCenter || kind == KindEnable) && !enabled {
        var reply := FormatError(n as int, NotEnabled, text);
        result := StepResult(ActionNone, reply);
        return;
      }
      if kind == KindStatus {
        var reply := FormatStatus(n as int, enabled, panDeg as int, tiltDeg as int, watchdog, text);
        result := StepResult(ActionNone, reply);
        return;
      }
      var copy := CopyResponse(lastResponse, m.last.value.response, text);
      result := StepResult(ActionNone, copy);
    }

    method HandleCachedRejectedSet(n: uint16, kind: Kind, pan: int16, tilt: int16,
                                   ghost m: Machine, ghost command: Command)
      returns (handled: bool, result: StepResult)
      requires Constants() && SimLast(m.last, LastText(m)) && SimRejected(m.rejected) && !command.Hello?
      requires n as int == command.sequence && kind == KindOf(command)
      requires pan == PanArgument(command) && tilt == TiltArgument(command)
      requires m.rejected.Some? ==> m.last.Some?
      requires !RouteOf(m, command).Repeated? && !RouteOf(m, command).Conflicting?
      ensures handled <==> RouteOf(m, command).CachedRejection? || RouteOf(m, command).CachedConflict?
      ensures RouteOf(m, command).CachedRejection? ==>
                result == StepResult(ActionNone, text(m.rejected.value.response))
      ensures RouteOf(m, command).CachedConflict? ==>
                result == StepResult(ActionNone, text(Error(command.sequence, StaleSequence)))
    {
      handled, result := true, StepResult(ActionNone, "");
      if !hasRejectedSet || n != rejectedSetSequence
         || (hasSequence && n as int == NextSequence(lastSequence as int))
      {
        return false, result;
      }
      SameCommand(command, m.rejected.value.command);
      if kind != KindSet || pan != rejectedSetPanArgument || tilt != rejectedSetTiltArgument {
        var reply := FormatError(n as int, StaleSequence, text);
        result := StepResult(ActionNone, reply);
        return;
      }
      var reply := FormatError(n as int, if rejectedSetOutOfRange then OutOfRange else NotEnabled, text);
      result := StepResult(ActionNone, reply);
    }

    method Execute(n: uint16, kind: Kind, pan: int16, tilt: int16, nowMs: uint32,
                   ghost now: int, ghost m: Machine, ghost command: Command)
      returns (result: StepResult)
      requires Constants() && SimOutputs(m) && nowMs == Reading(now) && RouteOf(m, command).Fresh?
      requires n as int == command.sequence && kind == KindOf(command)
      requires pan == PanArgument(command) && tilt == TiltArgument(command)
      modifies `enabled, `panDeg, `tiltDeg, `watchdog, `watchdogDeadlineMs, `deadlineMs
      ensures var (after, response) := Firmware.Execute(cfg, m, command, Seconds(now));
              SimOutputs(after) && result == StepResult(ActionFor(m, command, response), text(response))
    {
      match kind {
        case KindSet =>
          if pan as int < cfg.panMin || pan as int > cfg.panMax || tilt as int < cfg.tiltMin || tilt as int > cfg.tiltMax {
            var reply := FormatError(n as int, OutOfRange, text);
            return StepResult(ActionNone, reply);
          } else if !enabled {
            var reply := FormatError(n as int, NotEnabled, text);
            return StepResult(ActionNone, reply);
          } else {
            panDeg := pan;
            tiltDeg := tilt;
            ArmWatchdog(nowMs, now);
            var reply := FormatAck(n as int, AckSet, panDeg as int, tiltDeg as int, text);
            return StepResult(Write, reply);
          }
        case KindCenter =>
          if !enabled {
            var reply := FormatError(n as int, NotEnabled, text);
            return StepResult(ActionNone, reply);
          } else {
            panDeg := cfg.neutralPan as int16;
            tiltDeg := cfg.neutralTilt as int16;
            var reply := FormatAck(n as int, AckCenter, panDeg as int, tiltDeg as int, text);
            return StepResult(Write, reply);
          }
        case KindEnable =>
          enabled := true;
          panDeg := cfg.neutralPan as int16;
          tiltDeg := cfg.neutralTilt as int16;
          ArmWatchdog(nowMs, now);
          var reply := FormatAck(n as int, AckEnable, panDeg as int, tiltDeg as int, text);
          return StepResult(AttachCenter, reply);
        case KindDisable =>
          enabled := false;
          watchdog := Idle;
          watchdogDeadlineMs := 0;
          var reply := FormatAck(n as int, AckDisable, panDeg as int, tiltDeg as int, text);
          return StepResult(Detach, reply);
        case KindStatus =>
          var reply := FormatStatus(n as int, enabled, panDeg as int, tiltDeg as int, watchdog, text);
          return StepResult(ActionNone, reply);
      }
    }

    /** What handling a readable command must amount to. */
    ghost predicate Handled(m: Machine, command: Command, now: int, result: StepResult)
      reads this
    {
      var (after, response) := HandleTicked(cfg, m, command, Seconds(now));
      Sim(after) && result == StepResult(ActionFor(m, command, response), text(response))
    }

    method HandleHello(n: Sequence, ghost m: Machine) returns (result: StepResult)
      requires Sim(m)
      modifies this
      ensures var ready := Ready(n, PROTOCOL_VERSION, FIRMWARE_VERSION);
              && Sim(Firmware.Remember(m.(rejected := None), Hello(n), ready))
              && result == StepResult(ActionNone, text(ready))
    {
      ghost var ready := Ready(n, PROTOCOL_VERSION, FIRMWARE_VERSION);
      ghost var cleared := m.(rejected := None);
      var reply := FormatReady(n, text);
      result := StepResult(ActionNone, reply);
      hasRejectedSet := false;
      ResponseIsKept(Hello(n), ready, text);
      Remember(n as uint16, KindNone, 0, 0, result, cleared, Hello(n), ready);
      RememberedIsSim(cleared, Hello(n), ready);
    }

    /** With the exchange remembered, the whole struct is related again. */
    lemma RememberedIsSim(m: Machine, command: Command, response: Response)
      requires Constants() && SimOutputs(m)
      requires SimLast(Some(Memory(command, response)), text(response))
      requires SimRejected(Cache(m.rejected, command, response))
      ensures Sim(Firmware.Remember(m, command, response))
    {
    }

    /** Answering a duplicate is what the model does with it. */
    lemma DuplicateIsHandled(m: Machine, command: Command, now: int, result: StepResult)
      requires Constants() && SimLast(m.last, LastText(m)) && SimRejected(m.rejected) && m.last.Some?
      requires RouteOf(m, command).Repeated? || RouteOf(m, command).Conflicting?
      requires var (after, response) := if RouteOf(m, command).Repeated? then Repeat(cfg, m, command, Seconds(now))
                                        else (m, Error(command.sequence, StaleSequence));
               SimOutputs(after) && result == StepResult(ActionNone, text(response))
      ensures Handled(m, command, now, result)
    {
      if RouteOf(m, command).Repeated? {
        RepeatTouchesDeadline(cfg, m, command, Seconds(now));
      }
    }

    method HandleSequenced(command: Command, nowMs: uint32, ghost now: int, ghost m: Machine) returns (result: StepResult)
      requires Sim(m) && nowMs == Reading(now) && !command.Hello?
      modifies this
      ensures Handled(m, command, now, result)
    {
      var handled;
      handled, result := HandleDuplicate(command.sequence as uint16, KindOf(command), PanArgument(command),
                                         TiltArgument(command), nowMs, now, m, command);
      if handled {
        DuplicateIsHandled(m, command, now, result);
      } else {
        result := HandleUnrepeated(command, nowMs, now, m);
      }
    }

    /** How a command is refused that is neither a duplicate nor expected. */
    ghost function RefusalOf(m: Machine, command: Command): Response {
      match RouteOf(m, command)
      case CachedRejection => m.rejected.value.response
      case CachedConflict => Error(command.sequence, StaleSequence)
      case _ => Error(command.sequence, BadSequence)
    }

    lemma RefusalIsHandled(m: Machine, command: Command, now: int, result: StepResult)
      requires Sim(m) && !command.Hello?
      requires !RouteOf(m, command).Repeated? && !RouteOf(m, command).Conflicting? && !RouteOf(m, command).Fresh?
      requires result == StepResult(ActionNone, text(RefusalOf(m, command)))
      ensures Handled(m, command, now, result)
    {
    }

    method HandleUnrepeated(command: Command, nowMs: uint32, ghost now: int, ghost m: Machine) returns (result: StepResult)
      requires Sim(m) && nowMs == Reading(now) && !command.Hello?
      requires !RouteOf(m, command).Repeated? && !RouteOf(m, command).Conflicting?
      modifies this
      ensures Handled(m, command, now, result)
    {
      var n, kind := command.sequence as uint16, KindOf(command);
      var pan, tilt := PanArgument(command), TiltArgument(command);
      var handled;
      handled, result := HandleCachedRejectedSet(n, kind, pan, tilt, m, command);
      if handled {
        RefusalIsHandled(m, command, now, result);
      } else if !hasSequence || n as int != NextSequence(lastSequence as int) {
        var reply := FormatError(command.sequence, BadSequence, text);
        result := StepResult(ActionNone, reply);
        RefusalIsHandled(m, command, now, result);
      } else {
        result := ExecuteFresh(n, kind, pan, tilt, nowMs, now, m, command);
      }
    }

    method HandleCommand(command: Command, nowMs: uint32, ghost now: int, ghost m: Machine) returns (result: StepResult)
      requires Sim(m) && nowMs == Reading(now)
      modifies this
      ensures Handled(m, command, now, result)
    {
      if command.Hello? {
        result := HandleHello(command.sequence, m);
      } else {
        result := HandleSequenced(command, nowMs, now, m);
      }
    }

    method ExecuteFresh(n: uint16, kind: Kind, pan: int16, tilt: int16, nowMs: uint32,
                        ghost now: int, ghost m: Machine, ghost command: Command)
      returns (result: StepResult)
      requires Sim(m) && nowMs == Reading(now) && RouteOf(m, command).Fresh?
      requires n as int == command.sequence && kind == KindOf(command)
      requires pan == PanArgument(command) && tilt == TiltArgument(command)
      modifies this
      ensures var (after, response) := Firmware.Execute(cfg, m, command, Seconds(now));
              && Sim(Firmware.Remember(after, command, response))
              && result == StepResult(ActionFor(m, command, response), text(response))
    {
      ExecuteIsRecordable(cfg, m, command, Seconds(now));
      ghost var (after, response) := Firmware.Execute(cfg, m, command, Seconds(now));
      ResponseIsKept(command, response, text);
      result := Execute(n, kind, pan, tilt, nowMs, now, m, command);
      Remember(n, kind, pan, tilt, result, after, command, response);
      RememberedIsSim(after, command, response);
    }

    /** Handle one framed line held in `line`; the watchdog is looked at elsewhere. */
    method HandleLine(line: array<char>, nowMs: uint32, ghost content: string, ghost now: int, ghost m: Machine)
      returns (result: StepResult)
      requires Sim(m) && nowMs == Reading(now)
      requires CStringAt(line[..], 0, content)
      modifies this, line
      ensures match CppOutcome(Split(content))
              case Accepted(command) => Handled(m, command, now, result)
              case Refused(n, code) => Sim(m) && result == StepResult(ActionNone, text(Error(n, code)))
    {
      var outcome := ReadLine(line, content);
      match outcome {
        case Accepted(command) =>
          result := HandleCommand(command, nowMs, now, m);
        case Refused(n, code) =>
          var reply := FormatError(n, code, text);
          result := StepResult(ActionNone, reply);
      }
    }
  }
}
