/**
 How the C++ firmware reads a framed line, as a function, and exactly where that differs from the
 host's model of the firmware.
 */
module CppParsing {
  import opened Common
  import opened Codec
  import opened Decimal
  import opened Firmware
  import opened Tokens
  import opened Wire

  datatype Outcome = Accepted(command: Command) | Refused(sequence: ReplySequence, code: ErrorCode)

  function SequenceOrZero(tokens: seq<string>): ReplySequence {
    if |tokens| < 2 then 0
    else
      match ParseInteger(tokens[1])
      case None => 0
      case Some(value) => if MIN_SEQUENCE <= value <= MAX_SEQUENCE then value else 0
  }

  predicate WireDegree(value: int) {
    0 <= value <= MAX_DEGREES
  }

  function Unnumbered(name: string, n: Sequence): Command {
    if name == "HELLO" then Hello(n)
    else if name == "CENTER" then Center(n)
    else if name == "ENABLE" then Enable(n)
    else if name == "DISABLE" then Disable(n)
    else Status(n)
  }

  /** Reading in the C++ order: both angles are parsed before either is range-checked. */
  function CppOutcome(tokens: seq<string>): Outcome
    requires |tokens| >= 1
  {
    var name := tokens[0];
    if name == "" then Refused(0, BadCommand)
    else if ExpectedTokens(name).None? then Refused(SequenceOrZero(tokens), BadCommand)
    else if !CountOk(tokens, ExpectedTokens(name).value) then Refused(SequenceOrZero(tokens), BadTokenCount)
    else
      match ParseInteger(tokens[1])
      case None => Refused(0, BadInteger)
      case Some(n) =>
        if !(MIN_SEQUENCE <= n <= MAX_SEQUENCE) then Refused(0, BadSequence)
        else if name != "SET" then Accepted(Unnumbered(name, n))
        else
          var pan, tilt := ParseInteger(tokens[2]), ParseInteger(tokens[3]);
          if pan.None? || tilt.None? then Refused(n, BadInteger)
          else if !WireDegree(pan.value) || !WireDegree(tilt.value) then Refused(n, OutOfRange)
          else Accepted(Set(n, pan.value, tilt.value))
  }

  /** Reading as the host's firmware model does. */
  function ModelOutcome(tokens: seq<string>): Outcome
    requires |tokens| >= 1
  {
    match ParseCommandTokens(tokens)
    case Ok(command) => Accepted(command)
    case Err(e) => Refused(SequenceOrZero(tokens), CodeFor(e))
  }

  /** An empty name in front of a recoverable number, as in " 5". */
  predicate EmptyNameNumbered(tokens: seq<string>) {
    |tokens| >= 1 && tokens[0] == "" && SequenceOrZero(tokens) != 0
  }

  /** A SET whose pan is an integer out of the wire range and whose tilt is no integer. */
  predicate RangeBeforeInteger(tokens: seq<string>) {
    && CountOk(tokens, 4)
    && tokens[0] == "SET"
    && SequenceOrZero(tokens) != 0
    && ParseInteger(tokens[2]).Some? && !WireDegree(ParseInteger(tokens[2]).value)
    && ParseInteger(tokens[3]).None?
  }

  /** On framed lines the model's reading depends on the tokens alone. */
  lemma FramedText(text: string)
    requires |text| <= MAX_FRAME && AllPrintable(text)
    ensures ParseCommand(text) == ParseCommandTokens(Split(text))
    ensures BestEffortSequence(text) == SequenceOrZero(Split(text))
  {
    DecodeEncoded(text, "");
    assert text + "" == text;
  }

  lemma SetReadings(tokens: seq<string>)
    requires CountOk(tokens, 4) && tokens[0] == "SET"
    ensures CppOutcome(tokens) == ModelOutcome(tokens) <==> !RangeBeforeInteger(tokens)
    ensures CppOutcome(tokens).Accepted? || ModelOutcome(tokens).Accepted? ==> CppOutcome(tokens) == ModelOutcome(tokens)
  {
    var n := SequenceOrZero(tokens);
    if n == 0 {
      assert ParseSequence(tokens[1]).Err?;
    } else {
      assert ParseSequence(tokens[1]) == Ok(n);
    }
  }

  lemma OtherReadings(tokens: seq<string>)
    requires |tokens| >= 1 && !(CountOk(tokens, 4) && tokens[0] == "SET")
    ensures CppOutcome(tokens) == ModelOutcome(tokens) <==> !EmptyNameNumbered(tokens)
    ensures CppOutcome(tokens).Accepted? || ModelOutcome(tokens).Accepted? ==> CppOutcome(tokens) == ModelOutcome(tokens)
  {
    var name := tokens[0];
    if ExpectedTokens(name).Some? && CountOk(tokens, ExpectedTokens(name).value) {
      assert |tokens| == 2;
      assert ParseSequence(tokens[1]).Ok? ==> SequenceOrZero(tokens) == ParseSequence(tokens[1]).value;
    }
  }

  /**
   Both readings accept the same commands, and they refuse identically exactly outside the two
   families above.
   */
  lemma ReadingsAgreeExactly(tokens: seq<string>)
    requires |tokens| >= 1
    ensures CppOutcome(tokens) == ModelOutcome(tokens) <==> !EmptyNameNumbered(tokens) && !RangeBeforeInteger(tokens)
    ensures CppOutcome(tokens).Accepted? || ModelOutcome(tokens).Accepted? ==> CppOutcome(tokens) == ModelOutcome(tokens)
  {
    if CountOk(tokens, 4) && tokens[0] == "SET" {
      SetReadings(tokens);
    } else {
      OtherReadings(tokens);
    }
  }

  lemma NumberedExample(n: nat, token: string)
    requires token == Print(n) && n <= MAX_INT32
    ensures ParseInteger(token) == Some(n)
  {
    ParseAcceptsExactlyPrinted(token, n);
  }

  lemma EmptyNameReadings(tokens: seq<string>)
    requires EmptyNameNumbered(tokens)
    ensures CppOutcome(tokens) == Refused(0, BadCommand)
    ensures ModelOutcome(tokens) == Refused(SequenceOrZero(tokens), BadCommand)
  {
  }

  lemma RangeBeforeIntegerReadings(tokens: seq<string>)
    requires RangeBeforeInteger(tokens)
    ensures CppOutcome(tokens) == Refused(SequenceOrZero(tokens), BadInteger)
    ensures ModelOutcome(tokens) == Refused(SequenceOrZero(tokens), OutOfRange)
  {
    assert ParseSequence(tokens[1]) == Ok(SequenceOrZero(tokens));
  }

  lemma SplitEmptyName(token: string)
    requires NoSpace(token)
    ensures Split(" " + token) == ["", token]
  {
    SplitOfJoin(["", token]);
    JoinTwo("", token);
    assert "" + " " == " ";
  }

  /** The first divergence is real: a line " 5". */
  lemma EmptyNameExample()
    ensures Split(" 5") == ["", "5"]
    ensures CppOutcome(["", "5"]) == Refused(0, BadCommand)
    ensures ModelOutcome(["", "5"]) == Refused(5, BadCommand)
  {
    SplitEmptyName("5");
    assert " " + "5" == " 5";
    NumberedExample(5, "5");
    EmptyNameReadings(["", "5"]);
  }

  /** The second divergence is real: a line "SET 4 200 nope". */
  lemma RangeBeforeIntegerExample()
    ensures CppOutcome(["SET", "4", "200", "nope"]) == Refused(4, BadInteger)
    ensures ModelOutcome(["SET", "4", "200", "nope"]) == Refused(4, OutOfRange)
  {
    NumberedExample(4, "4");
    assert Digits(2) == "2" && Digits(20) == "20";
    NumberedExample(200, "200");
    assert !Canonical("nope");
    assert CountOk(["SET", "4", "200", "nope"], 4);
    RangeBeforeIntegerReadings(["SET", "4", "200", "nope"]);
  }
}
