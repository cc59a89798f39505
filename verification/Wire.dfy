/** Commands, responses and sequence numbers of the serial protocol. */
module Wire {

  const MIN_SEQUENCE := 1
  const MAX_SEQUENCE := 65535
  const MAX_DEGREES := 180
  const MAX_FRAME := 63

  type Sequence = n: int | MIN_SEQUENCE <= n <= MAX_SEQUENCE witness 1
  type ReplySequence = n: int | 0 <= n <= MAX_SEQUENCE
  type Degree = n: int | 0 <= n <= MAX_DEGREES

  function NextSequence(n: Sequence): Sequence {
    if n == MAX_SEQUENCE then MIN_SEQUENCE else n + 1
  }

  datatype ErrorCode =
    | BadCommand
    | BadTokenCount
    | BadInteger
    | BadSequence
    | OutOfRange
    | LineTooLong
    | NonAscii
    | NotEnabled
    | StaleSequence
    | Internal

  datatype Watchdog = Idle | Armed | Expired

  datatype Command =
    | Hello(sequence: Sequence)
    | Set(sequence: Sequence, pan: Degree, tilt: Degree)
    | Center(sequence: Sequence)
    | Enable(sequence: Sequence)
    | Disable(sequence: Sequence)
    | Status(sequence: Sequence)

  predicate IsMotion(command: Command) {
    command.Set? || command.Center? || command.Enable?
  }

  /** The commands an ACK can name. */
  datatype Acked = AckSet | AckCenter | AckEnable | AckDisable

  predicate IsWordStart(c: char) {
    'A' <= c <= 'Z' || 'a' <= c <= 'z' || '0' <= c <= '9'
  }

  predicate IsVersion(s: string) {
    && s != ""
    && IsWordStart(s[0])
    && forall i :: 0 <= i < |s| ==> IsWordStart(s[i]) || s[i] == '.' || s[i] == '_' || s[i] == '-'
  }

  type Version = s: string | IsVersion(s) witness "1"

  datatype Response =
    | Ready(sequence: ReplySequence, protocol: Version, firmware: Version)
    | Ack(ackSequence: Sequence, acked: Acked, pan: Degree, tilt: Degree)
    | Report(reportSequence: Sequence, enabled: bool, pan: Degree, tilt: Degree, watchdog: Watchdog)
    | Error(sequence: ReplySequence, code: ErrorCode)

  function SequenceOf(response: Response): ReplySequence {
    match response
    case Ack(n, _, _, _) => n
    case Report(n, _, _, _, _) => n
    case _ => response.sequence
  }

  const PROTOCOL_VERSION: Version := "1"
  const FIRMWARE_VERSION: Version := "0.1.0"
}
