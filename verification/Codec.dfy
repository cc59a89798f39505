/**
 Text of commands and responses, and the strict parsers for both. The parsers accept exactly the
 printed texts: each theorem here is an equivalence, not just a round trip.
 */
module Codec {
  import opened Common
  import opened Decimal
  import opened Tokens
  import opened Wire

  datatype ProtocolError =
    | FrameTooLong
    | FrameEncoding
    | BadCommandError
    | TokenCount
    | IntegerValue
    | SequenceValue
    | DegreeValue
    | Malformed

  predicate Printable(c: char) {
    ' ' <= c <= '~'
  }

  predicate AllPrintable(s: string) {
    forall i :: 0 <= i < |s| ==> Printable(s[i])
  }

  // ---- framing of one message ----

  function WithoutTerminator(frame: string): string {
    if |frame| == 0 || frame[|frame| - 1] != '\n' then frame
    else if |frame| >= 2 && frame[|frame| - 2] == '\r' then frame[..|frame| - 2]
    else frame[..|frame| - 1]
  }

  function DecodeFrame(frame: string): Result<string, ProtocolError> {
    var raw := WithoutTerminator(frame);
    if '\n' in raw || '\r' in raw then Err(FrameEncoding)
    else if |raw| > MAX_FRAME then Err(FrameTooLong)
    else if !AllPrintable(raw) then Err(FrameEncoding)
    else Ok(raw)
  }

  function EncodeLine(text: string, terminator: string): Result<string, ProtocolError> {
    if |text| > MAX_FRAME then Err(FrameTooLong) else Ok(text + terminator)
  }

  lemma DecodeEncoded(text: string, terminator: string)
    requires |text| <= MAX_FRAME && AllPrintable(text) && terminator in {"", "\n", "\r\n"}
    ensures DecodeFrame(text + terminator) == Ok(text)
  {
    assert forall c :: c in text ==> Printable(c);
    assert WithoutTerminator(text + terminator) == text;
  }

  // ---- commands ----

  function CommandTokens(command: Command): (tokens: seq<string>)
    ensures |tokens| == if command.Set? then 4 else 2
  {
    match command
    case Hello(n) => ["HELLO", Print(n)]
    case Set(n, pan, tilt) => ["SET", Print(n), Print(pan), Print(tilt)]
    case Center(n) => ["CENTER", Print(n)]
    case Enable(n) => ["ENABLE", Print(n)]
    case Disable(n) => ["DISABLE", Print(n)]
    case Status(n) => ["STATUS", Print(n)]
  }

  function CommandText(command: Command): string {
    Join(CommandTokens(command))
  }

  function EncodeCommand(command: Command): Result<string, ProtocolError> {
    EncodeLine(CommandText(command), "\n")
  }

  function ExpectedTokens(name: string): Option<nat> {
    if name == "SET" then Some(4)
    else if name in ["HELLO", "CENTER", "ENABLE", "DISABLE", "STATUS"] then Some(2)
    else None
  }

  predicate CountOk(tokens: seq<string>, expected: nat) {
    |tokens| == expected && forall i :: 0 <= i < |tokens| ==> tokens[i] != ""
  }

  function ParseSequence(token: string): Result<Sequence, ProtocolError> {
    match ParseInteger(token)
    case None => Err(IntegerValue)
    case Some(n) => if MIN_SEQUENCE <= n <= MAX_SEQUENCE then Ok(n) else Err(SequenceValue)
  }

  function ParseReplySequence(token: string): Result<ReplySequence, ProtocolError> {
    match ParseInteger(token)
    case None => Err(IntegerValue)
    case Some(n) => if 0 <= n <= MAX_SEQUENCE then Ok(n) else Err(SequenceValue)
  }

  function ParseDegree(token: string): Result<Degree, ProtocolError> {
    match ParseInteger(token)
    case None => Err(IntegerValue)
    case Some(n) => if 0 <= n <= MAX_DEGREES then Ok(n) else Err(DegreeValue)
  }

  function ParseCommandTokens(tokens: seq<string>): Result<Command, ProtocolError>
    requires |tokens| >= 1
  {
    var name := tokens[0];
    match ExpectedTokens(name)
    case None => Err(BadCommandError)
    case Some(expected) =>
      if !CountOk(tokens, expected) then Err(TokenCount)
      else
        match ParseSequence(tokens[1])
        case Err(e) => Err(e)
        case Ok(n) =>
          if name == "HELLO" then Ok(Hello(n))
          else if name == "SET" then
            match ParseDegree(tokens[2])
            case Err(e) => Err(e)
            case Ok(pan) =>
              match ParseDegree(tokens[3])
              case Err(e) => Err(e)
              case Ok(tilt) => Ok(Set(n, pan, tilt))
          else if name == "CENTER" then Ok(Center(n))
          else if name == "ENABLE" then Ok(Enable(n))
          else if name == "DISABLE" then Ok(Disable(n))
          else Ok(Status(n))
  }

  function ParseCommand(frame: string): Result<Command, ProtocolError> {
    match DecodeFrame(frame)
    case Err(e) => Err(e)
    case Ok(text) => ParseCommandTokens(Split(text))
  }

  lemma PrintedIsPlain(n: nat)
    ensures Print(n) != "" && AllPrintable(Print(n)) && NoSpace(Print(n))
  {
    var d := Digits(n);
    assert forall i :: 0 <= i < |d| ==> IsDigit(d[i]);
  }

  lemma DecodedSequence(token: string, n: Sequence)
    ensures ParseSequence(token) == Ok(n) <==> token == Print(n)
  {
    ParseAcceptsExactlyPrinted(token, n);
  }

  lemma DecodedReplySequence(token: string, n: ReplySequence)
    ensures ParseReplySequence(token) == Ok(n) <==> token == Print(n)
  {
    ParseAcceptsExactlyPrinted(token, n);
  }

  lemma DecodedDegree(token: string, n: Degree)
    ensures ParseDegree(token) == Ok(n) <==> token == Print(n)
  {
    ParseAcceptsExactlyPrinted(token, n);
  }

  lemma PlainCommandTokens(command: Command)
    ensures AllNoSpace(CommandTokens(command))
    ensures forall i :: 0 <= i < |CommandTokens(command)| ==> CommandTokens(command)[i] != ""
  {
    PrintedIsPlain(command.sequence);
    if command.Set? {
      PrintedIsPlain(command.pan);
      PrintedIsPlain(command.tilt);
    }
  }

  lemma CommandTokensParse(tokens: seq<string>, command: Command)
    requires |tokens| >= 1
    ensures ParseCommandTokens(tokens) == Ok(command) <==> tokens == CommandTokens(command)
  {
    PlainCommandTokens(command);
    if |tokens| >= 2 {
      DecodedSequence(tokens[1], command.sequence);
    }
    if |tokens| == 4 && command.Set? {
      DecodedDegree(tokens[2], command.pan);
      DecodedDegree(tokens[3], command.tilt);
    }
  }

  /** A frame parses to a command exactly when it decodes to that command's text. */
  lemma ParseCommandExact(frame: string, command: Command)
    ensures ParseCommand(frame) == Ok(command) <==> DecodeFrame(frame) == Ok(CommandText(command))
  {
    PlainCommandTokens(command);
    SplitOfJoin(CommandTokens(command));
    if DecodeFrame(frame).Ok? {
      var text := DecodeFrame(frame).value;
      JoinOfSplit(text);
      CommandTokensParse(Split(text), command);
    }
  }

  lemma JoinTwo(a: string, b: string)
    ensures Join([a, b]) == a + " " + b
  {
    assert [a, b][..1] == [a];
  }

  lemma {:induction false} JoinPrintable(tokens: seq<string>)
    requires |tokens| >= 1 && forall i :: 0 <= i < |tokens| ==> AllPrintable(tokens[i])
    ensures AllPrintable(Join(tokens))
  {
    if |tokens| > 1 {
      JoinPrintable(tokens[..|tokens| - 1]);
    }
  }

  /** A line of short tokens is short. */
  lemma {:induction false} JoinLength(tokens: seq<string>, longest: nat)
    requires |tokens| >= 1 && forall i :: 0 <= i < |tokens| ==> |tokens[i]| <= longest
    ensures |Join(tokens)| <= |tokens| * (longest + 1) - 1
  {
    if |tokens| > 1 {
      JoinLength(tokens[..|tokens| - 1], longest);
      assert |tokens| * (longest + 1) == (|tokens| - 1) * (longest + 1) + longest + 1;
    }
  }

  lemma CommandTextFits(command: Command)
    ensures |CommandText(command)| <= MAX_FRAME && AllPrintable(CommandText(command))
  {
    PrintedIsPlain(command.sequence);
    PrintedLength(command.sequence, 5);
    if command.Set? {
      PrintedIsPlain(command.pan);
      PrintedIsPlain(command.tilt);
      PrintedLength(command.pan, 3);
      PrintedLength(command.tilt, 3);
    }
    JoinPrintable(CommandTokens(command));
    JoinLength(CommandTokens(command), 7);
  }

  /** Encoding a command never fails, and parsing what was encoded gives it back. */
  lemma CommandRoundTrip(command: Command)
    ensures EncodeCommand(command) == Ok(CommandText(command) + "\n")
    ensures ParseCommand(CommandText(command) + "\n") == Ok(command)
    ensures ParseCommand(CommandText(command)) == Ok(command)
  {
    var text := CommandText(command);
    CommandTextFits(command);
    DecodeEncoded(text, "\n");
    DecodeEncoded(text, "");
    assert text + "" == text;
    ParseCommandExact(text + "\n", command);
    ParseCommandExact(text, command);
  }

  // ---- responses ----

  function AckedName(acked: Acked): string {
    match acked
    case AckSet => "SET"
    case AckCenter => "CENTER"
    case AckEnable => "ENABLE"
    case AckDisable => "DISABLE"
  }

  function WatchdogName(watchdog: Watchdog): string {
    match watchdog
    case Idle => "IDLE"
    case Armed => "ARMED"
    case Expired => "EXPIRED"
  }

  function CodeName(code: ErrorCode): string {
    match code
    case BadCommand => "BAD_COMMAND"
    case BadTokenCount => "BAD_TOKEN_COUNT"
    case BadInteger => "BAD_INTEGER"
    case BadSequence => "BAD_SEQUENCE"
    case OutOfRange => "OUT_OF_RANGE"
    case LineTooLong => "LINE_TOO_LONG"
    case NonAscii => "NON_ASCII"
    case NotEnabled => "NOT_ENABLED"
    case StaleSequence => "STALE_SEQUENCE"
    case Internal => "INTERNAL"
  }

  function AckedOf(name: string): Option<Acked> {
    if name == "SET" then Some(AckSet)
    else if name == "CENTER" then Some(AckCenter)
    else if name == "ENABLE" then Some(AckEnable)
    else if name == "DISABLE" then Some(AckDisable)
    else None
  }

  function WatchdogOf(name: string): Option<Watchdog> {
    if name == "IDLE" then Some(Idle)
    else if name == "ARMED" then Some(Armed)
    else if name == "EXPIRED" then Some(Expired)
    else None
  }

  function CodeOf(name: string): Option<ErrorCode> {
    if name == "BAD_COMMAND" then Some(BadCommand)
    else if name == "BAD_TOKEN_COUNT" then Some(BadTokenCount)
    else if name == "BAD_INTEGER" then Some(BadInteger)
    else if name == "BAD_SEQUENCE" then Some(BadSequence)
    else if name == "OUT_OF_RANGE" then Some(OutOfRange)
    else if name == "LINE_TOO_LONG" then Some(LineTooLong)
    else if name == "NON_ASCII" then Some(NonAscii)
    else if name == "NOT_ENABLED" then Some(NotEnabled)
    else if name == "STALE_SEQUENCE" then Some(StaleSequence)
    else if name == "INTERNAL" then Some(Internal)
    else None
  }

  function ResponseTokens(response: Response): (tokens: seq<string>)
    ensures |tokens| == match response case Ready(_, _, _) => 4 case Ack(_, _, _, _) => 5
                                       case Report(_, _, _, _, _) => 6 case Error(_, _) => 3
  {
    match response
    case Ready(n, protocol, firmware) => ["READY", Print(n), protocol, firmware]
    case Ack(n, acked, pan, tilt) => ["ACK", Print(n), AckedName(acked), Print(pan), Print(tilt)]
    case Report(n, enabled, pan, tilt, watchdog) =>
      ["STATUS", Print(n), Print(if enabled then 1 else 0), Print(pan), Print(tilt), WatchdogName(watchdog)]
    case Error(n, code) => ["ERR", Print(n), CodeName(code)]
  }

  function ResponseText(response: Response): string {
    Join(ResponseTokens(response))
  }

  function EncodeResponse(response: Response): Result<string, ProtocolError> {
    EncodeLine(ResponseText(response), "\r\n")
  }

  function ParseReady(tokens: seq<string>): Result<Response, ProtocolError>
    requires |tokens| == 4
  {
    match ParseReplySequence(tokens[1])
    case Err(e) => Err(e)
    case Ok(n) =>
      if IsVersion(tokens[2]) && IsVersion(tokens[3]) then Ok(Ready(n, tokens[2], tokens[3]))
      else Err(Malformed)
  }

  function ParseAck(tokens: seq<string>): Result<Response, ProtocolError>
    requires |tokens| == 5
  {
    match ParseSequence(tokens[1])
    case Err(e) => Err(e)
    case Ok(n) =>
      match ParseDegree(tokens[3])
      case Err(e) => Err(e)
      case Ok(pan) =>
        match ParseDegree(tokens[4])
        case Err(e) => Err(e)
        case Ok(tilt) =>
          match AckedOf(tokens[2])
          case None => Err(Malformed)
          case Some(acked) => Ok(Ack(n, acked, pan, tilt))
  }

  function ParseReport(tokens: seq<string>): Result<Response, ProtocolError>
    requires |tokens| == 6
  {
    match ParseInteger(tokens[2])
    case None => Err(IntegerValue)
    case Some(flag) =>
      if flag != 0 && flag != 1 then Err(Malformed)
      else
        match WatchdogOf(tokens[5])
        case None => Err(Malformed)
        case Some(watchdog) =>
          match ParseSequence(tokens[1])
          case Err(e) => Err(e)
          case Ok(n) =>
            match ParseDegree(tokens[3])
            case Err(e) => Err(e)
            case Ok(pan) =>
              match ParseDegree(tokens[4])
              case Err(e) => Err(e)
              case Ok(tilt) => Ok(Report(n, flag == 1, pan, tilt, watchdog))
  }

  function ParseError(tokens: seq<string>): Result<Response, ProtocolError>
    requires |tokens| == 3
  {
    match ParseReplySequence(tokens[1])
    case Err(e) => Err(e)
    case Ok(n) =>
      match CodeOf(tokens[2])
      case None => Err(Malformed)
      case Some(code) => Ok(Error(n, code))
  }

  function ParseResponseTokens(tokens: seq<string>): Result<Response, ProtocolError>
    requires |tokens| >= 1
  {
    if tokens[0] == "READY" then
      if CountOk(tokens, 4) then ParseReady(tokens) else Err(TokenCount)
    else if tokens[0] == "ACK" then
      if CountOk(tokens, 5) then ParseAck(tokens) else Err(TokenCount)
    else if tokens[0] == "STATUS" then
      if CountOk(tokens, 6) then ParseReport(tokens) else Err(TokenCount)
    else if tokens[0] == "ERR" then
      if CountOk(tokens, 3) then ParseError(tokens) else Err(TokenCount)
    else Err(BadCommandError)
  }

  function ParseResponse(frame: string): Result<Response, ProtocolError> {
    match DecodeFrame(frame)
    case Err(e) => Err(e)
    case Ok(text) => ParseResponseTokens(Split(text))
  }

  predicate Plain(token: string) {
    token != "" && AllPrintable(token) && NoSpace(token)
  }

  lemma AckedNames(acked: Acked, name: string)
    ensures AckedOf(name) == Some(acked) <==> name == AckedName(acked)
    ensures Plain(AckedName(acked)) && |AckedName(acked)| <= 7
  {
  }

  lemma WatchdogNames(watchdog: Watchdog, name: string)
    ensures WatchdogOf(name) == Some(watchdog) <==> name == WatchdogName(watchdog)
    ensures Plain(WatchdogName(watchdog)) && |WatchdogName(watchdog)| <= 7
  {
  }

  lemma CodeNameDecodes(code: ErrorCode)
    ensures CodeOf(CodeName(code)) == Some(code)
  {
  }

  lemma DecodedCodeName(name: string)
    ensures CodeOf(name).Some? ==> CodeName(CodeOf(name).value) == name
  {
  }

  predicate BadInput(code: ErrorCode) {
    code.BadCommand? || code.BadTokenCount? || code.BadInteger? || code.BadSequence? || code.OutOfRange?
  }

  lemma PlainBadInput(code: ErrorCode)
    requires BadInput(code)
    ensures Plain(CodeName(code)) && |CodeName(code)| <= 15
  {
    match code
    case BadCommand => assert Plain("BAD_COMMAND");
    case BadTokenCount => assert Plain("BAD_TOKEN_COUNT");
    case BadInteger => assert Plain("BAD_INTEGER");
    case BadSequence => assert Plain("BAD_SEQUENCE");
    case OutOfRange => assert Plain("OUT_OF_RANGE");
  }

  lemma PlainOtherCode(code: ErrorCode)
    requires !BadInput(code)
    ensures Plain(CodeName(code)) && |CodeName(code)| <= 15
  {
    match code
    case LineTooLong => assert Plain("LINE_TOO_LONG");
    case NonAscii => assert Plain("NON_ASCII");
    case NotEnabled => assert Plain("NOT_ENABLED");
    case StaleSequence => assert Plain("STALE_SEQUENCE");
    case Internal => assert Plain("INTERNAL");
  }

  lemma PlainCodeName(code: ErrorCode)
    ensures Plain(CodeName(code)) && |CodeName(code)| <= 15
  {
    if BadInput(code) {
      PlainBadInput(code);
    } else {
      PlainOtherCode(code);
    }
  }

  predicate AllPlain(tokens: seq<string>) {
    forall i :: 0 <= i < |tokens| ==> Plain(tokens[i])
  }

  lemma PlainPrint(n: nat)
    ensures Plain(Print(n))
  {
    PrintedIsPlain(n);
  }

  lemma PlainHeads()
    ensures Plain("READY") && Plain("ACK") && Plain("STATUS") && Plain("ERR")
  {
  }

  lemma PlainReport(response: Response)
    requires response.Report?
    ensures AllPlain(ResponseTokens(response))
  {
    PlainHeads();
    PlainPrint(response.reportSequence);
    PlainPrint(if response.enabled then 1 else 0);
    PlainPrint(response.pan);
    PlainPrint(response.tilt);
    WatchdogNames(response.watchdog, "");
  }

  lemma PlainAck(response: Response)
    requires response.Ack?
    ensures AllPlain(ResponseTokens(response))
  {
    PlainHeads();
    PlainPrint(response.ackSequence);
    PlainPrint(response.pan);
    PlainPrint(response.tilt);
    AckedNames(response.acked, "");
  }

  lemma PlainResponseTokens(response: Response)
    ensures AllPlain(ResponseTokens(response))
  {
    match response
    case Ready(n, _, _) =>
      PlainHeads();
      PlainPrint(n);
    case Ack(_, _, _, _) =>
      PlainAck(response);
    case Report(_, _, _, _, _) =>
      PlainReport(response);
    case Error(n, code) =>
      PlainHeads();
      PlainPrint(n);
      PlainCodeName(code);
  }

  lemma ReadyParses(tokens: seq<string>, n: ReplySequence, protocol: Version, firmware: Version)
    requires |tokens| == 4
    ensures ParseReady(tokens) == Ok(Ready(n, protocol, firmware)) <==>
            tokens[1..] == [Print(n), protocol, firmware]
  {
    DecodedReplySequence(tokens[1], n);
  }

  lemma AckParses(tokens: seq<string>, n: Sequence, acked: Acked, pan: Degree, tilt: Degree)
    requires |tokens| == 5
    ensures ParseAck(tokens) == Ok(Ack(n, acked, pan, tilt)) <==>
            && tokens[1] == Print(n)
            && tokens[2] == AckedName(acked)
            && tokens[3] == Print(pan)
            && tokens[4] == Print(tilt)
  {
    DecodedSequence(tokens[1], n);
    AckedNames(acked, tokens[2]);
    DecodedDegree(tokens[3], pan);
    DecodedDegree(tokens[4], tilt);
  }

  lemma FlagParses(token: string, enabled: bool)
    ensures ParseInteger(token) == Some(if enabled then 1 else 0) <==> token == Print(if enabled then 1 else 0)
  {
    ParseAcceptsExactlyPrinted(token, if enabled then 1 else 0);
  }

  lemma ReportParses(tokens: seq<string>, n: Sequence, enabled: bool, pan: Degree, tilt: Degree, watchdog: Watchdog)
    requires |tokens| == 6
    ensures ParseReport(tokens) == Ok(Report(n, enabled, pan, tilt, watchdog)) <==>
            && tokens[1] == Print(n)
            && tokens[2] == Print(if enabled then 1 else 0)
            && tokens[3] == Print(pan)
            && tokens[4] == Print(tilt)
            && tokens[5] == WatchdogName(watchdog)
  {
    DecodedSequence(tokens[1], n);
    FlagParses(tokens[2], enabled);
    DecodedDegree(tokens[3], pan);
    DecodedDegree(tokens[4], tilt);
    WatchdogNames(watchdog, tokens[5]);
  }

  lemma ErrorParses(tokens: seq<string>, n: ReplySequence, code: ErrorCode)
    requires |tokens| == 3
    ensures ParseError(tokens) == Ok(Error(n, code)) <==> tokens[1..] == [Print(n), CodeName(code)]
  {
    DecodedReplySequence(tokens[1], n);
    CodeNameDecodes(code);
    DecodedCodeName(tokens[2]);
  }

  lemma ReadyTokensParse(tokens: seq<string>, response: Response)
    requires |tokens| >= 1 && response.Ready?
    ensures ParseResponseTokens(tokens) == Ok(response) <==> tokens == ResponseTokens(response)
  {
    PlainResponseTokens(response);
    if |tokens| == 4 {
      ReadyParses(tokens, response.sequence, response.protocol, response.firmware);
      assert tokens == [tokens[0]] + tokens[1..];
    }
  }

  lemma AckTokensParse(tokens: seq<string>, response: Response)
    requires |tokens| >= 1 && response.Ack?
    ensures ParseResponseTokens(tokens) == Ok(response) <==> tokens == ResponseTokens(response)
  {
    PlainAck(response);
    if |tokens| == 5 {
      AckParses(tokens, response.ackSequence, response.acked, response.pan, response.tilt);
      assert tokens == [tokens[0]] + tokens[1..];
    }
  }

  lemma ReportTokensParse(tokens: seq<string>, response: Response)
    requires |tokens| >= 1 && response.Report?
    ensures ParseResponseTokens(tokens) == Ok(response) <==> tokens == ResponseTokens(response)
  {
    PlainReport(response);
    if |tokens| == 6 {
      ReportParses(tokens, response.reportSequence, response.enabled, response.pan, response.tilt, response.watchdog);
      assert tokens == [tokens[0]] + tokens[1..];
    }
  }

  lemma ErrorTokensParse(tokens: seq<string>, response: Response)
    requires |tokens| >= 1 && response.Error?
    ensures ParseResponseTokens(tokens) == Ok(response) <==> tokens == ResponseTokens(response)
  {
    PlainResponseTokens(response);
    if |tokens| == 3 {
      ErrorParses(tokens, response.sequence, response.code);
      assert tokens == [tokens[0]] + tokens[1..];
    }
  }

  lemma ResponseTokensParse(tokens: seq<string>, response: Response)
    requires |tokens| >= 1
    ensures ParseResponseTokens(tokens) == Ok(response) <==> tokens == ResponseTokens(response)
  {
    match response
    case Ready(_, _, _) => ReadyTokensParse(tokens, response);
    case Ack(_, _, _, _) => AckTokensParse(tokens, response);
    case Report(_, _, _, _, _) => ReportTokensParse(tokens, response);
    case Error(_, _) => ErrorTokensParse(tokens, response);
  }

  /** A frame parses to a response exactly when it decodes to that response's text. */
  lemma ParseResponseExact(frame: string, response: Response)
    ensures ParseResponse(frame) == Ok(response) <==> DecodeFrame(frame) == Ok(ResponseText(response))
  {
    PlainResponseTokens(response);
    SplitOfJoin(ResponseTokens(response));
    if DecodeFrame(frame).Ok? {
      var text := DecodeFrame(frame).value;
      JoinOfSplit(text);
      ResponseTokensParse(Split(text), response);
    }
  }

  lemma ReportTextFits(response: Response)
    requires response.Report?
    ensures |ResponseText(response)| <= 47
  {
    PrintedLength(response.reportSequence, 5);
    WatchdogNames(response.watchdog, "");
    PrintedLength(if response.enabled then 1 else 0, 1);
    PrintedLength(response.pan, 3);
    PrintedLength(response.tilt, 3);
    JoinLength(ResponseTokens(response), 7);
  }

  lemma AckTextFits(response: Response)
    requires response.Ack?
    ensures |ResponseText(response)| <= 47
  {
    PrintedLength(response.ackSequence, 5);
    AckedNames(response.acked, "");
    PrintedLength(response.pan, 3);
    PrintedLength(response.tilt, 3);
    JoinLength(ResponseTokens(response), 7);
  }

  /** Every response but READY fits a frame; READY does with the protocol's own versions. */
  lemma ResponseTextFits(response: Response)
    requires response.Ready? ==> |response.protocol| <= 7 && |response.firmware| <= 7
    ensures |ResponseText(response)| <= 47
  {
    match response
    case Ready(n, _, _) =>
      PrintedLength(n, 5);
      JoinLength(ResponseTokens(response), 7);
    case Ack(_, _, _, _) =>
      AckTextFits(response);
    case Report(_, _, _, _, _) =>
      ReportTextFits(response);
    case Error(n, code) =>
      PrintedLength(n, 5);
      PlainCodeName(code);
      JoinLength(ResponseTokens(response), 15);
  }

  /** Encoding fails exactly on a response too long for a frame; otherwise parsing undoes it. */
  lemma ResponseRoundTrip(response: Response)
    ensures EncodeResponse(response).Ok? <==> |ResponseText(response)| <= MAX_FRAME
    ensures EncodeResponse(response).Ok? ==>
              ParseResponse(EncodeResponse(response).value) == Ok(response) == ParseResponse(ResponseText(response))
    ensures AllPrintable(ResponseText(response))
  {
    var text := ResponseText(response);
    PlainResponseTokens(response);
    JoinPrintable(ResponseTokens(response));
    if |text| <= MAX_FRAME {
      DecodeEncoded(text, "\r\n");
      DecodeEncoded(text, "");
      assert text + "" == text;
      ParseResponseExact(text + "\r\n", response);
      ParseResponseExact(text, response);
    }
  }
}
