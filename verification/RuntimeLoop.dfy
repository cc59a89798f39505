/**
 The bounded firmware loop. Whatever the budgets, the transmit capacity and the clock readings, it
 emits what the unbounded stream model answers to the bytes it has consumed, in order and complete.
 */
module RuntimeLoop {
  import opened Common
  import opened Codec
  import opened Firmware
  import opened Framing
  import opened Wire

  // ---- the unbounded stream ----

  /** What reaches the firmware, with the clock reading it happens at. */
  datatype Input = Tock(now: real) | Byte(now: real, value: char)

  datatype Stream = Stream(machine: Machine, framer: State)

  function FaultReply(fault: Fault): Response {
    Error(0, match fault case TooLong => LineTooLong case Encoding => NonAscii)
  }

  function Respond(cfg: Config, m: Machine, event: Event, now: real): (Machine, Response) {
    match event
    case Issue(fault) => (m, FaultReply(fault))
    case Line(text) => HandleFrame(cfg, m, text, now)
  }

  function Frame(response: Response): string {
    ResponseText(response) + "\r\n"
  }

  function Advance(cfg: Config, s: Stream, input: Input): (Stream, seq<string>) {
    match input
    case Tock(now) => (s.(machine := Tick(s.machine, now)), [])
    case Byte(now, value) =>
      var (framer, events) := Step(MAX_FRAME, s.framer, value);
      if events == [] then (Stream(s.machine, framer), [])
      else
        var (machine, response) := Respond(cfg, s.machine, events[0], now);
        (Stream(machine, framer), [Frame(response)])
  }

  function StreamAfter(cfg: Config, start: Machine, log: seq<Input>): Stream {
    if log == [] then Stream(start, FRESH)
    else Advance(cfg, StreamAfter(cfg, start, log[..|log| - 1]), log[|log| - 1]).0
  }

  /** Everything the stream model answers to the log. */
  function Replies(cfg: Config, start: Machine, log: seq<Input>): seq<string> {
    if log == [] then []
    else
      var front := log[..|log| - 1];
      Replies(cfg, start, front) + Advance(cfg, StreamAfter(cfg, start, front), log[|log| - 1]).1
  }

  function BytesOf(log: seq<Input>): string {
    if log == [] then ""
    else BytesOf(log[..|log| - 1]) + (if log[|log| - 1].Byte? then [log[|log| - 1].value] else "")
  }

  lemma LogSnoc(cfg: Config, start: Machine, log: seq<Input>, input: Input)
    ensures var s := StreamAfter(cfg, start, log);
            && StreamAfter(cfg, start, log + [input]) == Advance(cfg, s, input).0
            && Replies(cfg, start, log + [input]) == Replies(cfg, start, log) + Advance(cfg, s, input).1
    ensures BytesOf(log + [input]) == BytesOf(log) + if input.Byte? then [input.value] else ""
  {
    assert (log + [input])[..|log|] == log;
  }

  lemma TockLeavesReplies(cfg: Config, start: Machine, log: seq<Input>, now: real)
    ensures Replies(cfg, start, log + [Tock(now)]) == Replies(cfg, start, log)
    ensures BytesOf(log + [Tock(now)]) == BytesOf(log)
    ensures StreamAfter(cfg, start, log + [Tock(now)]) ==
            StreamAfter(cfg, start, log).(machine := Tick(StreamAfter(cfg, start, log).machine, now))
  {
    LogSnoc(cfg, start, log, Tock(now));
    assert Replies(cfg, start, log) + [] == Replies(cfg, start, log) && BytesOf(log) + "" == BytesOf(log);
  }

  lemma AdvanceKeepsInv(cfg: Config, s: Stream, input: Input)
    requires ValidConfig(cfg) && Inv(cfg, s.machine)
    ensures Inv(cfg, Advance(cfg, s, input).0.machine)
    ensures |Advance(cfg, s, input).1| <= 1
    ensures Advance(cfg, s, input).1 != [] ==> 0 < |First(Advance(cfg, s, input).1)| <= 65
  {
    TickKeepsInv(cfg, s.machine, input.now);
    if input.Byte? {
      var events := Step(MAX_FRAME, s.framer, input.value).1;
      if events != [] {
        match events[0] {
          case Issue(fault) => ResponseTextFits(FaultReply(fault));
          case Line(text) => FrameRepliesFit(cfg, s.machine, text, input.now);
        }
      }
    }
  }

  /** The stream answers every completed line exactly once, and nothing else. */
  lemma {:induction false} OneReplyPerLine(cfg: Config, start: Machine, log: seq<Input>)
    ensures |Replies(cfg, start, log)| == |Lines(BytesOf(log))|
    ensures StreamAfter(cfg, start, log).framer == Partial(MAX_FRAME, Tail(BytesOf(log)))
  {
    if log != [] {
      var front, input := log[..|log| - 1], log[|log| - 1];
      OneReplyPerLine(cfg, start, front);
      if input.Byte? {
        var bytes := BytesOf(front);
        assert (bytes + [input.value])[..|bytes|] == bytes;
        if input.value != '\n' {
          StepPartial(MAX_FRAME, Tail(bytes), input.value);
        }
      } else {
        assert BytesOf(front) + "" == BytesOf(front);
      }
    }
  }

  function Flatten(frames: seq<string>): string {
    if frames == [] then "" else Flatten(frames[..|frames| - 1]) + frames[|frames| - 1]
  }

  lemma FlattenSnoc(frames: seq<string>, frame: string)
    ensures Flatten(frames + [frame]) == Flatten(frames) + frame
  {
    assert (frames + [frame])[..|frames|] == frames;
  }

  function First(frames: seq<string>): string {
    if frames == [] then "" else frames[0]
  }

  lemma AppendReply(startup: string, replies: seq<string>, frames: seq<string>, sent: string)
    requires |frames| <= 1 && sent == startup + Flatten(replies)
    ensures sent + First(frames) == startup + Flatten(replies + frames)
  {
    if frames == [] {
      assert replies + frames == replies && sent + "" == sent;
    } else {
      FlattenSnoc(replies, frames[0]);
      assert frames == [frames[0]];
      assert startup + (Flatten(replies) + frames[0]) == startup + Flatten(replies) + frames[0];
    }
  }

  /** Consuming one byte adds its reply, if any, to what must have been sent. */
  lemma ByteConsumed(cfg: Config, start: Machine, log: seq<Input>, input: Input, startup: string, sent: string)
    requires input.Byte? && ValidConfig(cfg) && Inv(cfg, StreamAfter(cfg, start, log).machine)
    requires sent == startup + Flatten(Replies(cfg, start, log))
    ensures var (next, frames) := Advance(cfg, StreamAfter(cfg, start, log), input);
            && StreamAfter(cfg, start, log + [input]) == next
            && |frames| <= 1 && |First(frames)| <= 65 && (frames == [] <==> First(frames) == "")
            && sent + First(frames) == startup + Flatten(Replies(cfg, start, log + [input]))
    ensures BytesOf(log + [input]) == BytesOf(log) + [input.value]
  {
    var s := StreamAfter(cfg, start, log);
    LogSnoc(cfg, start, log, input);
    AdvanceKeepsInv(cfg, s, input);
    AppendReply(startup, Replies(cfg, start, log), Advance(cfg, s, input).1, sent);
  }

  lemma HeadMoves<T>(front: seq<T>, rest: seq<T>)
    requires rest != []
    ensures (front + [rest[0]]) + rest[1..] == front + rest
  {
  }

  lemma EndsEmpty<T>(a: seq<T>)
    ensures a + [] == a
  {
  }

  lemma PrefixNext<T>(a: seq<T>, k: nat)
    requires k < |a|
    ensures a[..k + 1] == a[..k] + [a[k]]
  {
  }

  lemma StartsEmpty<T>(a: seq<T>)
    ensures [] + a == a
  {
  }

  lemma Associates<T>(a: seq<T>, b: seq<T>, c: seq<T>)
    ensures a + b + c == a + (b + c)
  {
  }

  function Min(a: nat, b: nat): nat {
    if a < b then a else b
  }

  lemma FeedOne(maximum: nat, state: State, value: char)
    ensures Feed(maximum, state, [value]) == Step(maximum, state, value)
  {
    assert [value][..0] == "";
    assert [] + Step(maximum, state, value).1 == Step(maximum, state, value).1;
  }

  // ---- what a run records ----

  /** The bytes, each with the clock reading it is consumed at. */
  function Stamped(bytes: string, clock: seq<real>): seq<Input>
    requires |bytes| <= |clock|
  {
    if bytes == "" then []
    else Stamped(bytes[..|bytes| - 1], clock) + [Byte(clock[|bytes| - 1], bytes[|bytes| - 1])]
  }

  lemma TakeNext(taken: string, rest: string, clock: seq<real>)
    requires rest != "" && |taken| < |clock|
    ensures (taken + [rest[0]]) + rest[1..] == taken + rest
    ensures Stamped(taken + [rest[0]], clock) == Stamped(taken, clock) + [Byte(clock[|taken|], rest[0])]
  {
    assert (taken + [rest[0]])[..|taken|] == taken;
  }

  /** What happens to the loop: bytes arrive, or it runs once with these readings and this transmit capacity. */
  datatype Action =
    | Arrive(data: string)
    | Turn(capacity: nat, before: real, clock: seq<real>, after: real)

  /** One pass: the watchdog is looked at, the bytes taken are consumed, the watchdog is looked at again. */
  function TurnLog(turn: Action, taken: string): seq<Input>
    requires turn.Turn? && |taken| <= |turn.clock|
  {
    [Tock(turn.before)] + Stamped(taken, turn.clock) + [Tock(turn.after)]
  }

  lemma TurnRecorded(log: seq<Input>, turn: Action, taken: string)
    requires turn.Turn? && |taken| <= |turn.clock|
    ensures log + [Tock(turn.before)] + Stamped(taken, turn.clock) + [Tock(turn.after)] == log + TurnLog(turn, taken)
  {
  }

  /** A pass takes no more bytes than it has readings for, and an arrival takes none. */
  predicate Fits(action: Action, bytes: string) {
    if action.Turn? then |bytes| <= |action.clock| else bytes == ""
  }

  predicate CanTake(actions: seq<Action>, taken: seq<string>) {
    |actions| == |taken| && forall k :: 0 <= k < |actions| ==> Fits(actions[k], taken[k])
  }

  function LogOf(action: Action, bytes: string): seq<Input>
    requires Fits(action, bytes)
  {
    if action.Turn? then TurnLog(action, bytes) else []
  }

  function DataOf(action: Action): string {
    if action.Arrive? then action.data else ""
  }

  /** The log of a run in which each pass took these bytes. */
  function Record(actions: seq<Action>, taken: seq<string>): seq<Input>
    requires CanTake(actions, taken)
  {
    if actions == [] then []
    else Record(actions[..|actions| - 1], taken[..|taken| - 1]) + LogOf(actions[|actions| - 1], taken[|taken| - 1])
  }

  function FirstTurns(turns: nat -> Action, n: nat): (actions: seq<Action>)
    ensures |actions| == n
  {
    if n == 0 then [] else FirstTurns(turns, n - 1) + [turns(n - 1)]
  }

  function Arrived(actions: seq<Action>): string {
    if actions == [] then "" else Arrived(actions[..|actions| - 1]) + DataOf(actions[|actions| - 1])
  }

  lemma RecordNext(actions: seq<Action>, taken: seq<string>, action: Action, bytes: string)
    requires CanTake(actions, taken) && Fits(action, bytes)
    ensures CanTake(actions + [action], taken + [bytes])
    ensures Record(actions + [action], taken + [bytes]) == Record(actions, taken) + LogOf(action, bytes)
    ensures Arrived(actions + [action]) == Arrived(actions) + DataOf(action)
  {
    assert (actions + [action])[..|actions|] == actions && (taken + [bytes])[..|taken|] == taken;
  }

  /** What has been consumed, received and sent. */
  datatype Traces = Traces(log: seq<Input>, fed: string, emitted: string)

  /** The traces grew by exactly these actions, with these bytes taken and these sent. */
  predicate Traced(actions: seq<Action>, taken: seq<string>, outs: seq<string>, was: Traces, now: Traces) {
    && CanTake(actions, taken)
    && now.log == was.log + Record(actions, taken)
    && now.fed == was.fed + Arrived(actions)
    && now.emitted == was.emitted + Flatten(outs)
  }

  function Extended(t: Traces, action: Action, bytes: string, out: string): Traces
    requires Fits(action, bytes)
  {
    Traces(t.log + LogOf(action, bytes), t.fed + DataOf(action), t.emitted + out)
  }

  lemma TracedNothing(t: Traces)
    ensures Traced([], [], [], t, t)
  {
    assert t.log + [] == t.log && t.fed + "" == t.fed && t.emitted + "" == t.emitted;
  }

  lemma TracedNext(actions: seq<Action>, taken: seq<string>, outs: seq<string>, was: Traces, now: Traces,
                   action: Action, bytes: string, out: string)
    requires Traced(actions, taken, outs, was, now) && Fits(action, bytes)
    ensures Traced(actions + [action], taken + [bytes], outs + [out], was, Extended(now, action, bytes, out))
  {
    RecordNext(actions, taken, action, bytes);
    FlattenSnoc(outs, out);
    Associates(was.log, Record(actions, taken), LogOf(action, bytes));
    Associates(was.fed, Arrived(actions), DataOf(action));
    Associates(was.emitted, Flatten(outs), out);
  }

  // ---- the loop object ----

  class FirmwareRuntimeModel {
    const machine: FirmwareStateMachine
    const framer: LineFramer
    const rxBudget: nat
    const commandBudget: nat
    const txBudget: nat
    var rx: string
    var pending: string

    ghost const start: Machine
    ghost const startup: string
    ghost var log: seq<Input>   // what was consumed, and when
    ghost var fed: string       // everything ever received
    ghost var emitted: string   // everything ever sent

    ghost predicate Connected()
      reads this, machine, framer
    {
      && ValidConfig(machine.cfg) && machine.Valid() && framer.maximum == MAX_FRAME
      && rxBudget > 0 && commandBudget > 0 && txBudget > 0
      && StreamAfter(machine.cfg, start, log) == Stream(machine.Abstract(), framer.Abstract())
    }

    /** Nothing is lost, duplicated or reordered, on the way in or on the way out. */
    ghost predicate Conserved()
      reads this, machine
    {
      && emitted + pending == startup + Flatten(Replies(machine.cfg, start, log))
      && BytesOf(log) + rx == fed
    }

    ghost predicate Valid()
      reads this, machine, framer
    {
      Connected() && Conserved()
    }

    ghost function History(): Traces
      reads this
    {
      Traces(log, fed, emitted)
    }

    constructor (machine: FirmwareStateMachine, announce: bool, rxBudget: nat, commandBudget: nat, txBudget: nat)
      requires rxBudget > 0 && commandBudget > 0 && txBudget > 0
      requires ValidConfig(machine.cfg) && machine.Valid()
      ensures Valid() && fresh(framer) && this.machine == machine
      ensures log == [] && fed == "" && emitted == "" && start == machine.Abstract()
      ensures this.rxBudget == rxBudget && machine.Abstract() == old(machine.Abstract())
      ensures pending == startup == if announce then Frame(Ready(0, PROTOCOL_VERSION, FIRMWARE_VERSION)) else ""
    {
      this.machine, this.rxBudget, this.commandBudget, this.txBudget := machine, rxBudget, commandBudget, txBudget;
      framer := new LineFramer(MAX_FRAME);
      rx := "";
      var first := if announce then Frame(Ready(0, PROTOCOL_VERSION, FIRMWARE_VERSION)) else "";
      pending := first;
      startup, start, log, fed, emitted := first, machine.Abstract(), [], "", "";
    }

    method FeedRx(data: string)
      requires Valid()
      modifies this
      ensures Valid() && log == old(log) && emitted == old(emitted) && pending == old(pending)
      ensures fed == old(fed) + data && rx == old(rx) + data
    {
      rx := rx + data;
      fed := fed + data;
      Associates(BytesOf(log), old(rx), data);
    }

    method Service(now: real)
      requires Valid()
      modifies this`log, machine
      ensures Valid() && log == old(log) + [Tock(now)]
    {
      TockLeavesReplies(machine.cfg, start, log, now);
      machine.DoTick(now);
      log := log + [Tock(now)];
    }

    method ReplyTo(event: Event, now: real) returns (reply: string)
      requires ValidConfig(machine.cfg) && machine.Valid()
      modifies machine
      ensures machine.Valid()
      ensures var (after, response) := Respond(machine.cfg, old(machine.Abstract()), event, now);
              machine.Abstract() == after && reply == Frame(response)
    {
      match event {
        case Issue(fault) =>
          reply := Frame(FaultReply(fault));
        case Line(text) =>
          reply := machine.ReplyToFrame(text, now);
      }
    }

    /** Frame one byte and answer the line it completes, if any. */
    method Accept(value: char, now: real) returns (frames: seq<string>)
      requires ValidConfig(machine.cfg) && machine.Valid() && framer.maximum == MAX_FRAME
      modifies machine, framer
      ensures machine.Valid()
      ensures (Stream(machine.Abstract(), framer.Abstract()), frames) ==
              Advance(machine.cfg, old(Stream(machine.Abstract(), framer.Abstract())), Byte(now, value))
    {
      FeedOne(MAX_FRAME, framer.Abstract(), value);
      var events := framer.FeedBytes([value]);
      frames := [];
      if events != [] {
        var reply := ReplyTo(events[0], now);
        frames := [reply];
      }
    }

    /** The reply to the next byte continues what must have been sent. */
    method AcceptNext(value: char, now: real) returns (reply: string)
      requires Connected() && emitted == startup + Flatten(Replies(machine.cfg, start, log))
      modifies machine, framer
      ensures machine.Valid()
      ensures StreamAfter(machine.cfg, start, log + [Byte(now, value)]) == Stream(machine.Abstract(), framer.Abstract())
      ensures emitted + reply == startup + Flatten(Replies(machine.cfg, start, log + [Byte(now, value)]))
      ensures BytesOf(log + [Byte(now, value)]) == BytesOf(log) + [value] && |reply| <= 65
    {
      ByteConsumed(machine.cfg, start, log, Byte(now, value), startup, emitted);
      var responses := Accept(value, now);
      reply := First(responses);
    }

    /** Consume one byte at a clock reading; at most one reply becomes pending. */
    method ConsumeByte(now: real) returns (replied: bool)
      requires Valid() && rx != "" && pending == ""
      modifies this`rx, this`pending, this`log, machine, framer
      ensures Valid() && rx == old(rx)[1..] && log == old(log) + [Byte(now, old(rx)[0])]
      ensures |pending| <= 65 && (replied <==> pending != "")
    {
      HeadMoves(BytesOf(log), rx);
      EndsEmpty(emitted);
      var value := rx[0];
      rx := rx[1..];
      pending := AcceptNext(value, now);
      replied := pending != "";
      log := log + [Byte(now, value)];
    }

    method EmitPending(capacity: nat) returns (out: string)
      requires Valid()
      modifies this`pending, this`emitted
      ensures Valid() && emitted == old(emitted) + out && old(pending) == out + pending
      ensures |out| == Min(capacity, |old(pending)|)
    {
      var count := Min(capacity, |pending|);
      out := pending[..count];
      emitted := emitted + out;
      pending := pending[count..];
      Associates(old(emitted), out, pending);
    }

    /** Consume bytes in order, one reading each, until a reply is pending, a budget is used up or none is left. */
    method Receive(clock: seq<real>) returns (ghost taken: string)
      requires Valid() && |clock| >= rxBudget && pending == ""
      modifies this`rx, this`pending, this`log, machine, framer
      ensures Valid() && old(rx) == taken + rx && |taken| <= rxBudget
      ensures log == old(log) + Stamped(taken, clock)
      ensures |pending| <= 65 && (old(rx) != "" ==> taken != "") && (taken == "" ==> pending == "")
      ensures pending == "" ==> rx == "" || |taken| == rxBudget
    {
      var bytesProcessed, commandsProcessed := 0, 0;
      taken := "";
      while rx != "" && bytesProcessed < rxBudget && commandsProcessed < commandBudget && pending == ""
        invariant Valid() && old(rx) == taken + rx && |taken| == bytesProcessed <= rxBudget
        invariant log == old(log) + Stamped(taken, clock)
        invariant |pending| <= 65 && (bytesProcessed == 0 ==> pending == "")
        invariant commandsProcessed == if pending == "" then 0 else 1
        decreases |rx|
      {
        TakeNext(taken, rx, clock);
        Associates(old(log), Stamped(taken, clock), [Byte(clock[bytesProcessed], rx[0])]);
        taken := taken + [rx[0]];
        var replied := ConsumeByte(clock[bytesProcessed]);
        bytesProcessed := bytesProcessed + 1;
        if replied {
          commandsProcessed := commandsProcessed + 1;
        }
      }
    }

    /** With a reply pending nothing is consumed. */
    method ReceiveWhenIdle(clock: seq<real>) returns (ghost taken: string)
      requires Valid() && |clock| >= rxBudget
      modifies this`rx, this`pending, this`log, machine, framer
      ensures Valid() && old(rx) == taken + rx && |taken| <= rxBudget
      ensures log == old(log) + Stamped(taken, clock)
      ensures old(pending) != "" ==> taken == "" && pending == old(pending)
      ensures old(pending) == "" && pending == "" ==> rx == "" || |taken| == rxBudget
      ensures 66 * |rx| + |pending| <= 66 * |old(rx)| + |old(pending)|
      ensures old(rx) != "" && pending == "" ==> |rx| < |old(rx)|
    {
      taken := "";
      if pending == "" {
        taken := Receive(clock);
      } else {
        assert log == log + [] && rx == "" + rx;
      }
    }

    /** Between the two looks at the watchdog: receive, then emit. */
    method ReceiveAndEmit(capacity: nat, clock: seq<real>) returns (out: string, ghost taken: string)
      requires Valid() && |clock| >= rxBudget
      modifies this`rx, this`pending, this`log, this`emitted, machine, framer
      ensures Valid() && emitted == old(emitted) + out && |out| <= capacity
      ensures old(rx) == taken + rx && |taken| <= rxBudget && log == old(log) + Stamped(taken, clock)
      ensures old(pending) != "" ==> taken == "" && old(pending) == out + pending
      ensures old(pending) == "" && out + pending == "" ==> rx == "" || |taken| == rxBudget
      ensures capacity >= 1 && (old(rx) != "" || old(pending) != "") ==>
                66 * |rx| + |pending| < 66 * |old(rx)| + |old(pending)|
    {
      taken := ReceiveWhenIdle(clock);
      out := EmitPending(capacity);
    }

    /**
     One pass. It consumes the oldest bytes at the readings given, stopping early only for a reply.
     With any transmit capacity at all it makes progress: 66 for every queued byte plus 1 for every
     pending byte strictly falls until everything is drained.
     */
    method Pass(turn: Action) returns (out: string, ghost taken: string)
      requires Valid() && turn.Turn? && |turn.clock| >= rxBudget
      modifies this`rx, this`pending, this`log, this`emitted, machine, framer
      ensures Valid() && emitted == old(emitted) + out
      ensures old(rx) == taken + rx && |taken| <= rxBudget && log == old(log) + TurnLog(turn, taken)
      ensures |out| <= turn.capacity && |out| <= txBudget
      ensures old(pending) != "" ==> taken == "" && old(pending) == out + pending
      ensures old(pending) == "" && out + pending == "" ==> rx == "" || |taken| == rxBudget
      ensures turn.capacity >= 1 && (old(rx) != "" || old(pending) != "") ==>
                66 * |rx| + |pending| < 66 * |old(rx)| + |old(pending)|
    {
      Service(turn.before);
      out, taken := ReceiveAndEmit(Min(turn.capacity, txBudget), turn.clock);
      Service(turn.after);
      TurnRecorded(old(log), turn, taken);
    }

    /**
     Any arrivals and passes, in any order: what has been sent and what is pending is the startup
     frame and every reply of the stream model to the bytes consumed, at exactly the readings of the
     passes that consumed them.
     */
    method Run(actions: seq<Action>) returns (outs: seq<string>, ghost taken: seq<string>)
      requires Valid()
      requires forall k :: 0 <= k < |actions| && actions[k].Turn? ==> |actions[k].clock| >= rxBudget
      modifies this, machine, framer
      ensures Valid() && Traced(actions, taken, outs, old(History()), History())
      ensures emitted + pending == startup + Flatten(Replies(machine.cfg, start, log)) && BytesOf(log) + rx == fed
    {
      outs, taken := [], [];
      ghost var done: seq<Action> := [];
      TracedNothing(History());
      for k := 0 to |actions|
        invariant Valid() && Traced(done, taken, outs, old(History()), History()) && done == actions[..k]
      {
        ghost var before := History();
        var out, bytes := Act(actions[k]);
        TracedNext(done, taken, outs, old(History()), before, actions[k], bytes, out);
        outs, taken := outs + [out], taken + [bytes];
        PrefixNext(actions, k);
        done := done + [actions[k]];
      }
      assert done == actions;
    }

    method Act(action: Action) returns (out: string, ghost taken: string)
      requires Valid() && (action.Turn? ==> |action.clock| >= rxBudget)
      modifies this, machine, framer
      ensures Valid() && Fits(action, taken) && History() == Extended(old(History()), action, taken, out)
    {
      match action {
        case Arrive(data) =>
          FeedRx(data);
          out, taken := "", "";
          assert log + [] == log && emitted + "" == emitted;
        case Turn(_, _, _, _) =>
          out, taken := Pass(action);
          assert fed + "" == fed;
      }
    }

    /**
     Passes with any positive capacities and any clock readings drain the loop, having emitted the
     startup frame and every reply of the stream model to every byte fed, at the readings of the
     passes that consumed them.
     */
    method Drain(turns: nat -> Action) returns (passes: nat, outs: seq<string>, ghost taken: seq<string>)
      requires Valid()
      requires forall k: nat :: turns(k).Turn? && turns(k).capacity >= 1 && |turns(k).clock| >= rxBudget
      modifies this, machine, framer
      ensures Valid() && rx == "" && pending == ""
      ensures passes <= 66 * |old(rx)| + |old(pending)|
      ensures Traced(FirstTurns(turns, passes), taken, outs, old(History()), History())
      ensures BytesOf(log) == fed && emitted == startup + Flatten(Replies(machine.cfg, start, log))
    {
      passes, outs, taken := 0, [], [];
      ghost var done: seq<Action> := [];
      TracedNothing(History());
      while rx != "" || pending != ""
        invariant Valid() && Traced(done, taken, outs, old(History()), History()) && done == FirstTurns(turns, passes)
        invariant passes + 66 * |rx| + |pending| <= 66 * |old(rx)| + |old(pending)|
        decreases 66 * |rx| + |pending|
      {
        ghost var before := History();
        var turn := turns(passes);
        var out, bytes := DrainOnce(turn);
        TracedNext(done, taken, outs, old(History()), before, turn, bytes, out);
        done := done + [turn];
        passes, outs, taken := passes + 1, outs + [out], taken + [bytes];
      }
      AllSent();
    }

    /** With nothing queued and nothing pending, everything received is consumed and everything answered is sent. */
    lemma AllSent()
      requires Valid() && rx == "" && pending == ""
      ensures BytesOf(log) == fed && emitted == startup + Flatten(Replies(machine.cfg, start, log))
    {
      EndsEmpty(BytesOf(log));
      EndsEmpty(emitted);
    }

    method DrainOnce(turn: Action) returns (out: string, ghost taken: string)
      requires Valid() && turn.Turn? && turn.capacity >= 1 && |turn.clock| >= rxBudget
      requires rx != "" || pending != ""
      modifies this, machine, framer
      ensures Valid() && Fits(turn, taken) && History() == Extended(old(History()), turn, taken, out)
      ensures 66 * |rx| + |pending| < 66 * |old(rx)| + |old(pending)|
    {
      out, taken := Pass(turn);
      assert fed + "" == fed;
    }
  }

  /** The same from power-on: a new loop around a state machine in any valid state. */
  method Serve(machine: FirmwareStateMachine, announce: bool, rxBudget: nat, commandBudget: nat, txBudget: nat,
               actions: seq<Action>)
    returns (loop: FirmwareRuntimeModel, outs: seq<string>, ghost taken: seq<string>)
    requires rxBudget > 0 && commandBudget > 0 && txBudget > 0 && ValidConfig(machine.cfg) && machine.Valid()
    requires forall k :: 0 <= k < |actions| && actions[k].Turn? ==> |actions[k].clock| >= rxBudget
    modifies machine
    ensures CanTake(actions, taken)
    ensures var startup := if announce then Frame(Ready(0, PROTOCOL_VERSION, FIRMWARE_VERSION)) else "";
            Flatten(outs) + loop.pending ==
            startup + Flatten(Replies(machine.cfg, old(machine.Abstract()), Record(actions, taken)))
    ensures BytesOf(Record(actions, taken)) + loop.rx == Arrived(actions)
  {
    loop := new FirmwareRuntimeModel(machine, announce, rxBudget, commandBudget, txBudget);
    outs, taken := loop.Run(actions);
    assert loop.log == Record(actions, taken) && loop.emitted == Flatten(outs) && loop.fed == Arrived(actions) by {
      StartsEmpty(Record(actions, taken));
      StartsEmpty(Flatten(outs));
      StartsEmpty(Arrived(actions));
    }
  }
}
