/** The bridge and the device joined by a bus that may lose frames but keeps their order. The device does not restart
    here while a goal's frames arrive; Restarts says what changes if it does. */
module RetryOnce {
  import opened Common
  import opened Outcomes
  import opened CanProtocol
  import opened DeviceBridge
  import opened BridgeWire
  import opened VirtualDevice

  /** `delivered` is what such a bus may hand over when `sent` was put on it. */
  ghost predicate Lossy<T(!new)>(sent: seq<T>, delivered: seq<T>) {
    if delivered == [] then true
    else if sent == [] then false
    else Lossy(sent[1..], delivered) || (sent[0] == delivered[0] && Lossy(sent[1..], delivered[1..]))
  }

  /** The device and everything it answered so far. */
  datatype Link = Link(device: Device, replies: seq<RawFrame>)

  function Reply(response: Option<Response>): seq<RawFrame> {
    if response.Some? then [EncodeResponse(response.value)] else []
  }

  /** One delivered frame; a malformed one is ignored. */
  function DeliverOne(behaviour: Behaviour, capacity: nat, link: Link, frame: RawFrame): (r: Link)
    requires Valid(behaviour, capacity, link.device)
    ensures Valid(behaviour, capacity, r.device)
  {
    var decoded := DecodeCommand(frame);
    if decoded.Malformed? then link
    else
      var (device, reply) := Process(behaviour, capacity, link.device, decoded.value);
      Link(device, link.replies + Reply(reply))
  }

  function Deliver(behaviour: Behaviour, capacity: nat, link: Link, frames: seq<RawFrame>): (r: Link)
    requires Valid(behaviour, capacity, link.device)
    ensures Valid(behaviour, capacity, r.device)
    decreases |frames|
  {
    if frames == [] then link
    else Deliver(behaviour, capacity, DeliverOne(behaviour, capacity, link, frames[0]), frames[1..])
  }

  lemma RepeatOnce<T>(x: T)
    ensures Repeat(x, 1) == [x]
  {
  }

  lemma OneAndOne<T>(x: T, y: T)
    ensures Repeat(x, 1) + Repeat(y, 1) == [x, y] && Repeat(x, 0) + Repeat(y, 1) == [y]
  {
  }

  function Replies(response: Option<Response>, n: nat): seq<RawFrame> {
    if response.Some? then Repeat(EncodeResponse(response.value), n) else []
  }

  lemma {:induction false} LossyCopies<T(!new)>(x: T, n: nat, tail: seq<T>, delivered: seq<T>)
    requires Lossy(Repeat(x, n) + tail, delivered)
    ensures exists m: nat, rest :: m <= n && delivered == Repeat(x, m) + rest && Lossy(tail, rest)
  {
    if n == 0 {
      assert Repeat(x, 0) + tail == tail;
      assert delivered == Repeat(x, 0) + delivered;
    } else if delivered == [] {
      assert delivered == Repeat(x, 0) + [];
      assert Lossy(tail, []);
    } else {
      var sent := Repeat(x, n) + tail;
      assert sent[1..] == Repeat(x, n - 1) + tail;
      if Lossy(sent[1..], delivered) {
        LossyCopies(x, n - 1, tail, delivered);
      } else {
        LossyCopies(x, n - 1, tail, delivered[1..]);
        var m: nat, rest :| m <= n - 1 && delivered[1..] == Repeat(x, m) + rest && Lossy(tail, rest);
        assert Repeat(x, m + 1) == [x] + Repeat(x, m);
        assert delivered == Repeat(x, m + 1) + rest;
      }
    }
  }

  lemma {:induction false} DeliverConcat(
      behaviour: Behaviour, capacity: nat, link: Link, a: seq<RawFrame>, b: seq<RawFrame>)
    requires Valid(behaviour, capacity, link.device)
    ensures Deliver(behaviour, capacity, link, a + b)
            == Deliver(behaviour, capacity, Deliver(behaviour, capacity, link, a), b)
    decreases |a|
  {
    if a == [] {
      assert a + b == b;
    } else {
      assert (a + b)[1..] == a[1..] + b && (a + b)[0] == a[0];
      DeliverConcat(behaviour, capacity, DeliverOne(behaviour, capacity, link, a[0]), a[1..], b);
    }
  }

  /** Copies of one command: the first is executed if its id is not cached, every other one only repeats its answer. */
  lemma {:induction false} DeliverCopies(behaviour: Behaviour, capacity: nat, link: Link, command: Command, n: nat)
    requires Valid(behaviour, capacity, link.device) && n >= 1
    ensures var (device, reply) := Process(behaviour, capacity, link.device, command);
            Deliver(behaviour, capacity, link, Repeat(EncodeCommand(command), n))
            == Link(device, link.replies + Replies(reply, n))
    decreases n
  {
    var frames := Repeat(EncodeCommand(command), n);
    var (device, reply) := Process(behaviour, capacity, link.device, command);
    var next := Link(device, link.replies + Reply(reply));
    CommandRoundTrip(command);
    assert DeliverOne(behaviour, capacity, link, frames[0]) == next;
    assert frames[1..] == Repeat(EncodeCommand(command), n - 1);
    assert link.replies + Replies(reply, n) == next.replies + Replies(reply, n - 1);
    if n > 1 {
      RepeatIsInert(behaviour, capacity, link.device, command, command);
      DeliverCopies(behaviour, capacity, next, command, n - 1);
    }
  }

  /** How the delivered part of a goal's frames can look. */
  ghost predicate DeliveredAs(
      command: Command, stopId: uint16, s: Script, delivered: seq<RawFrame>, copies: nat, stops: nat)
  {
    && copies <= CommandsSent(command, s)
    && stops <= |StopWire(command, stopId, s)|
    && delivered == Repeat(EncodeCommand(command), copies)
                    + Repeat(EncodeCommand(StopCommand(stopId, command)), stops)
  }

  lemma DeliveredShape(command: Command, stopId: uint16, s: Script, delivered: seq<RawFrame>)
    requires Lossy(Frames(GoalWire(command, stopId, s)), delivered)
    ensures exists copies: nat, stops: nat :: DeliveredAs(command, stopId, s, delivered, copies, stops)
  {
    FramesOnTheBus(command, stopId, s);
    var frame, stopFrame := EncodeCommand(command), EncodeCommand(StopCommand(stopId, command));
    var n := CommandsSent(command, s);
    var k := if StopWire(command, stopId, s) != [] && s.stopSendOk then 1 else 0;
    assert Frames(GoalWire(command, stopId, s)) == Repeat(frame, n) + Repeat(stopFrame, k);
    LossyCopies(frame, n, Repeat(stopFrame, k), delivered);
    var copies: nat, rest :|
      copies <= n && delivered == Repeat(frame, copies) + rest && Lossy(Repeat(stopFrame, k), rest);
    assert Repeat(stopFrame, k) == Repeat(stopFrame, k) + [];
    LossyCopies(stopFrame, k, [], rest);
    var stops: nat, none :| stops <= k && rest == Repeat(stopFrame, stops) + none && Lossy([], none);
    assert none == [];
    assert DeliveredAs(command, stopId, s, delivered, copies, stops);
  }

  ghost function Executed(d: Device, command: Command, copies: nat): seq<Command> {
    if copies >= 1 && command.commandId !in d.cache then [command] else []
  }

  /** The device when `copies` of a command have arrived. */
  ghost function Middle(behaviour: Behaviour, capacity: nat, d: Device, command: Command, copies: nat): (r: Device)
    requires Valid(behaviour, capacity, d)
    ensures Valid(behaviour, capacity, r)
  {
    if copies >= 1 then Process(behaviour, capacity, d, command).0 else d
  }

  /** The service a goal gets from the device when `copies` of its command and `stops` STOP frames arrive: the
      command is executed once if any copy arrived and its id was not cached, then the STOP likewise, and every copy is
      answered alike. */
  ghost predicate Served(
      behaviour: Behaviour, capacity: nat, d: Device, command: Command, stop: Command, copies: nat, stops: nat,
      after: Link)
    requires Valid(behaviour, capacity, d)
  {
    var middle, reply := Middle(behaviour, capacity, d, command, copies), Process(behaviour, capacity, d, command).1;
    && middle.applied == d.applied + Executed(d, command, copies)
    && after.device == Middle(behaviour, capacity, middle, stop, stops)
    && after.device.applied == middle.applied + Executed(middle, stop, stops)
    && after.replies == Replies(reply, copies) + Replies(Process(behaviour, capacity, middle, stop).1, stops)
    && (command.commandId !in d.cache ==> reply == FreshResponse(behaviour, command))
  }

  lemma ProcessExecutes(behaviour: Behaviour, capacity: nat, d: Device, command: Command)
    requires Valid(behaviour, capacity, d)
    ensures Process(behaviour, capacity, d, command).0.applied == d.applied + Executed(d, command, 1)
    ensures command.commandId !in d.cache ==>
              Process(behaviour, capacity, d, command).1 == FreshResponse(behaviour, command)
  {
  }

  lemma CopiesAreServed(behaviour: Behaviour, capacity: nat, link: Link, command: Command, copies: nat)
    requires Valid(behaviour, capacity, link.device)
    ensures var after := Deliver(behaviour, capacity, link, Repeat(EncodeCommand(command), copies));
            var (device, reply) := Process(behaviour, capacity, link.device, command);
            && after.device == (if copies >= 1 then device else link.device)
            && after.device.applied == link.device.applied + Executed(link.device, command, copies)
            && after.replies == link.replies + Replies(reply, copies)
  {
    hide Valid, Process;
    ProcessExecutes(behaviour, capacity, link.device, command);
    var reply := Process(behaviour, capacity, link.device, command).1;
    if copies >= 1 {
      DeliverCopies(behaviour, capacity, link, command, copies);
    } else {
      assert Repeat(EncodeCommand(command), copies) == [];
      assert Replies(reply, copies) == [];
    }
  }

  lemma DeliveredIsServed(
      behaviour: Behaviour, capacity: nat, d: Device, command: Command, stop: Command, copies: nat, stops: nat)
    requires Valid(behaviour, capacity, d)
    ensures Served(behaviour, capacity, d, command, stop, copies, stops,
              Deliver(behaviour, capacity, Link(d, []),
                Repeat(EncodeCommand(command), copies) + Repeat(EncodeCommand(stop), stops)))
  {
    hide Valid, Process, FreshResponse, Deliver, DeliverOne;
    ProcessExecutes(behaviour, capacity, d, command);
    var start := Link(d, []);
    CopiesAreServed(behaviour, capacity, start, command, copies);
    var middle := Deliver(behaviour, capacity, start, Repeat(EncodeCommand(command), copies));
    CopiesAreServed(behaviour, capacity, middle, stop, stops);
    DeliverConcat(
      behaviour, capacity, start, Repeat(EncodeCommand(command), copies), Repeat(EncodeCommand(stop), stops));
  }

  /** Retry is exactly-once-or-less. Whatever the bus loses and for every cache, one goal makes the device execute its
      command exactly once if any copy arrives and its id is not cached, and never otherwise, and nothing else but at
      most one STOP after it. */
  lemma RetryAppliesOnce(
      behaviour: Behaviour, capacity: nat, d: Device,
      command: Command, stopId: uint16, s: Script, delivered: seq<RawFrame>)
    requires Valid(behaviour, capacity, d)
    requires Lossy(Frames(GoalWire(command, stopId, s)), delivered)
    ensures exists copies: nat, stops: nat ::
              && stops <= 1
              && DeliveredAs(command, stopId, s, delivered, copies, stops)
              && Served(behaviour, capacity, d, command, StopCommand(stopId, command), copies, stops,
                        Deliver(behaviour, capacity, Link(d, []), delivered))
  {
    DeliveredShape(command, stopId, s, delivered);
    var copies: nat, stops: nat :| DeliveredAs(command, stopId, s, delivered, copies, stops);
    WireGrammar(command, stopId, s);
    DeliveredIsServed(behaviour, capacity, d, command, StopCommand(stopId, command), copies, stops);
  }

  /** Every well-formed frame with id `id` that the bridge hears in the window is one of the device's replies. */
  ghost predicate HearsReplies(w: Window, id: uint16, replies: seq<RawFrame>) {
    forall i :: 0 <= i < |w.polls| && Matching(w.polls[i].rx, id).Some? ==> w.polls[i].rx.frame in replies
  }

  lemma ReplyCarriesId(behaviour: Behaviour, capacity: nat, d: Device, command: Command)
    requires Valid(behaviour, capacity, d)
    ensures var reply := Process(behaviour, capacity, d, command).1;
            reply.Some? ==> reply.value.commandId == command.commandId
  {
    hide QueueMatchesCache, Store;
    if command.commandId in d.cache {
      assert d.cache[command.commandId].response == FreshResponse(behaviour, d.cache[command.commandId].command);
    }
  }

  lemma InReplies(reply: Option<Response>, n: nat, response: Response)
    requires EncodeResponse(response) in Replies(reply, n)
    ensures n >= 1 && reply == Some(response)
  {
    ResponseRoundTrip(response);
    ResponseRoundTrip(reply.value);
  }

  /** A reply under the STOP id comes from a STOP that arrived, unless the id is cached by then. */
  lemma ReplyToStop(
      behaviour: Behaviour, capacity: nat, d: Device, command: Command, stop: Command, copies: nat, stops: nat,
      after: Link, response: Response)
    requires Valid(behaviour, capacity, d)
    requires Served(behaviour, capacity, d, command, stop, copies, stops, after)
    requires EncodeResponse(response) in after.replies && response.commandId == stop.commandId
    ensures stop.commandId !in Middle(behaviour, capacity, d, command, copies).cache ==> stops >= 1
  {
    hide Valid;
    var reply := Process(behaviour, capacity, d, command).1;
    if EncodeResponse(response) in Replies(reply, copies) {
      InReplies(reply, copies, response);
      ReplyCarriesId(behaviour, capacity, d, command);
    }
  }

  lemma CanceledHearsReply(command: Command, stopId: uint16, s: Script, replies: seq<RawFrame>)
    returns (response: Response)
    requires HearsReplies(s.stopWindow, stopId, replies)
    requires GoalOutcome(command, stopId, s).outcome == CANCELED && !s.first.cancelingBefore
    ensures EncodeResponse(response) in replies && response.commandId == stopId
  {
    CanceledIsHonest(command, stopId, s);
    var heard: Response, k: nat :| FirstMatch(s.stopWindow, stopId, false, heard, k);
    MatchingIsEncoding(s.stopWindow.polls[k].rx, stopId, heard);
    response := heard;
  }

  /** What a cancel after a send leaves the device with, for every cache. If what the bridge hears under the STOP id are
      the device's replies to this goal, the command was executed at most once, exactly if a copy arrived and its id was
      not cached, and the STOP last, exactly if its id was not cached when it arrived. */
  lemma CanceledMeansDeviceStopped(
      behaviour: Behaviour, capacity: nat, d: Device,
      command: Command, stopId: uint16, s: Script, delivered: seq<RawFrame>)
    returns (copies: nat)
    requires Valid(behaviour, capacity, d)
    requires Lossy(Frames(GoalWire(command, stopId, s)), delivered)
    requires HearsReplies(s.stopWindow, stopId, Deliver(behaviour, capacity, Link(d, []), delivered).replies)
    requires GoalOutcome(command, stopId, s).outcome == CANCELED && !s.first.cancelingBefore
    ensures copies <= 2
    ensures var middle := Middle(behaviour, capacity, d, command, copies);
            && middle.applied == d.applied + Executed(d, command, copies)
            && Deliver(behaviour, capacity, Link(d, []), delivered).device.applied
               == middle.applied + if stopId in middle.cache then [] else [StopCommand(stopId, command)]
  {
    var after, stop := Deliver(behaviour, capacity, Link(d, []), delivered), StopCommand(stopId, command);
    var response := CanceledHearsReply(command, stopId, s, after.replies);
    RetryAppliesOnce(behaviour, capacity, d, command, stopId, s, delivered);
    var n: nat, stops: nat :|
      && stops <= 1
      && DeliveredAs(command, stopId, s, delivered, n, stops)
      && Served(behaviour, capacity, d, command, stop, n, stops, after);
    ReplyToStop(behaviour, capacity, d, command, stop, n, stops, after, response);
    WireGrammar(command, stopId, s);
    copies := n;
  }

  /** When the STOP id is cached on arrival: if it is the command's own, or was cached before the goal and not evicted
      by the command, which happens exactly if the command is new and the id is the oldest of a full cache. A cache of
      one id never keeps the STOP's over another command. */
  lemma CachedOnArrivalExactlyWhen(
      behaviour: Behaviour, capacity: nat, d: Device, command: Command, copies: nat, stopId: uint16)
    requires Valid(behaviour, capacity, d)
    ensures stopId in Middle(behaviour, capacity, d, command, copies).cache <==>
              || (copies >= 1 && stopId == command.commandId)
              || (stopId in d.cache
                  && !(copies >= 1 && command.commandId !in d.cache && |d.order| >= capacity && d.order[0] == stopId))
    ensures capacity == 1 && copies >= 1 && stopId != command.commandId ==>
              stopId !in Middle(behaviour, capacity, d, command, copies).cache
  {
  }

  /** With two different ids that are both fresh, the STOP is executed last, and the command at most once before it. */
  lemma FreshStopIsExecuted(
      behaviour: Behaviour, capacity: nat, d: Device,
      command: Command, stopId: uint16, s: Script, delivered: seq<RawFrame>)
    requires Valid(behaviour, capacity, d)
    requires command.commandId !in d.cache && stopId !in d.cache && stopId != command.commandId
    requires Lossy(Frames(GoalWire(command, stopId, s)), delivered)
    requires HearsReplies(s.stopWindow, stopId, Deliver(behaviour, capacity, Link(d, []), delivered).replies)
    requires GoalOutcome(command, stopId, s).outcome == CANCELED && !s.first.cancelingBefore
    ensures var applied := Deliver(behaviour, capacity, Link(d, []), delivered).device.applied;
            var stop := StopCommand(stopId, command);
            applied == d.applied + [stop] || applied == d.applied + [command, stop]
  {
    var copies := CanceledMeansDeviceStopped(behaviour, capacity, d, command, stopId, s, delivered);
    assert stopId !in Middle(behaviour, capacity, d, command, copies).cache;
    assert d.applied + [] == d.applied;
    var stop := StopCommand(stopId, command);
    assert d.applied + [command] + [stop] == d.applied + [command, stop];
  }

  lemma CompletedHearsReply(command: Command, stopId: uint16, s: Script, replies: seq<RawFrame>)
    requires HearsReplies(s.first.window, command.commandId, replies)
    requires HearsReplies(s.second.window, command.commandId, replies)
    requires GoalOutcome(command, stopId, s).outcome == COMPLETED
    ensures StopWire(command, stopId, s) == []
    ensures exists heard: Response ::
              heard.resultCode == 0 && heard.commandId == command.commandId && EncodeResponse(heard) in replies
  {
    CompletedIsHonest(command, stopId, s);
    var a := if AttemptEnding(command, s.first, false).AckTimeout? then s.second else s.first;
    var heard: Response, k: nat :| FirstMatch(a.window, command.commandId, true, heard, k);
    MatchingIsEncoding(a.window.polls[k].rx, command.commandId, heard);
  }

  lemma CompletedDelivers(command: Command, stopId: uint16, s: Script, delivered: seq<RawFrame>) returns (copies: nat)
    requires Lossy(Frames(GoalWire(command, stopId, s)), delivered) && StopWire(command, stopId, s) == []
    ensures delivered == Repeat(EncodeCommand(command), copies)
  {
    DeliveredShape(command, stopId, s, delivered);
    var n: nat, stops: nat :| DeliveredAs(command, stopId, s, delivered, n, stops);
    copies := n;
  }

  /** A cached id answers with result 0 only for the very command that was cached with that result. */
  lemma AnsweredZero(behaviour: Behaviour, capacity: nat, d: Device, command: Command)
    requires Valid(behaviour, capacity, d) && command.commandId in d.cache
    ensures var answer := Process(behaviour, capacity, d, command).1;
            answer.Some? && answer.value.resultCode == 0 ==>
              d.cache[command.commandId].command == command && d.cache[command.commandId].response == answer
  {
  }

  /** COMPLETED means done, for every cache. If what the bridge hears under the command's id are the device's replies to
      this goal, the device executed exactly this command, exactly once, exactly if its id was not cached; and if it
      was, it was cached for this very command, with result 0. */
  lemma CompletedMeansExecuted(
      behaviour: Behaviour, capacity: nat, d: Device,
      command: Command, stopId: uint16, s: Script, delivered: seq<RawFrame>)
    requires Valid(behaviour, capacity, d)
    requires Lossy(Frames(GoalWire(command, stopId, s)), delivered)
    requires var replies := Deliver(behaviour, capacity, Link(d, []), delivered).replies;
             && HearsReplies(s.first.window, command.commandId, replies)
             && HearsReplies(s.second.window, command.commandId, replies)
    requires GoalOutcome(command, stopId, s).outcome == COMPLETED
    ensures Deliver(behaviour, capacity, Link(d, []), delivered).device.applied
            == d.applied + if command.commandId in d.cache then [] else [command]
    ensures command.commandId in d.cache ==>
              var entry := d.cache[command.commandId];
              entry.command == command && entry.response.Some? && entry.response.value.resultCode == 0
  {
    hide Valid, Process, HearsReplies, Deliver, EncodeCommand, EncodeResponse, GoalOutcome, GoalWire, Frames, Lossy;
    var after := Deliver(behaviour, capacity, Link(d, []), delivered);
    CompletedHearsReply(command, stopId, s, after.replies);
    var copies := CompletedDelivers(command, stopId, s, delivered);
    CopiesAreServed(behaviour, capacity, Link(d, []), command, copies);
    var heard: Response :|
      heard.resultCode == 0 && heard.commandId == command.commandId && EncodeResponse(heard) in after.replies;
    InReplies(Process(behaviour, capacity, d, command).1, copies, heard);
    if command.commandId in d.cache {
      AnsweredZero(behaviour, capacity, d, command);
    }
  }

  /** A cached STOP id only replays: the device answers STOPPED again and executes nothing. */
  lemma CachedStopReplaysWithoutActing(behaviour: Behaviour, capacity: nat, d: Device, stop: Command)
    requires Valid(behaviour, capacity, d) && stop.opcode == STOP_OPCODE && !behaviour.DropStopAck?
    requires stop.commandId in d.cache && d.cache[stop.commandId].command == stop
    ensures Process(behaviour, capacity, d, stop)
            == (d, Some(Response(stop.commandId, 0, MODE_STOPPED, 0, 0, 0)))
  {
  }

  /** The cancel is seen after the first copy, and the STOP is answered as confirmed. */
  function CancelScript(stopId: uint16): Script {
    var quiet := Window([], true, false);
    var confirmed := RxFrame(EncodeResponse(Response(stopId, 0, MODE_STOPPED, 0, 0, 0)));
    Script(Attempt(false, true, Window([], true, true), false), Attempt(false, true, quiet, false),
           true, Window([Poll(true, false, confirmed)], true, false))
  }

  const EMPTY := Device(map[], [], [])

  /** The goal of that script ends CANCELED over the device's own replies when `delivered` arrive. */
  ghost predicate EndsCanceled(
      behaviour: Behaviour, capacity: nat, d: Device, command: Command, stopId: uint16, delivered: seq<RawFrame>)
  {
    var s := CancelScript(stopId);
    && Valid(behaviour, capacity, d)
    && Lossy(Frames(GoalWire(command, stopId, s)), delivered)
    && HearsReplies(s.stopWindow, stopId, Deliver(behaviour, capacity, Link(d, []), delivered).replies)
    && GoalOutcome(command, stopId, s).outcome == CANCELED
  }

  lemma CancelScriptEnds(command: Command, stopId: uint16)
    ensures GoalOutcome(command, stopId, CancelScript(stopId)).outcome == CANCELED
    ensures Frames(GoalWire(command, stopId, CancelScript(stopId)))
            == [EncodeCommand(command), EncodeCommand(StopCommand(stopId, command))]
  {
    var s := CancelScript(stopId);
    assert Receive(s.first.window, command.commandId, true) == CancelSeen;
    ResponseRoundTrip(Response(stopId, 0, MODE_STOPPED, 0, 0, 0));
    assert Matching(s.stopWindow.polls[0].rx, stopId) == Some(Response(stopId, 0, MODE_STOPPED, 0, 0, 0));
    FramesOnTheBus(command, stopId, s);
    RepeatOnce(EncodeCommand(command));
  }

  lemma {:induction false} LossyKeepsAll<T(!new)>(sent: seq<T>)
    ensures Lossy(sent, sent)
  {
    if sent != [] {
      LossyKeepsAll(sent[1..]);
    }
  }

  lemma CancelScriptLoses(frame: RawFrame, stopFrame: RawFrame, copies: nat)
    requires copies <= 1
    ensures Lossy([frame, stopFrame], Repeat(frame, copies) + Repeat(stopFrame, 1))
  {
    OneAndOne(frame, stopFrame);
    assert [frame, stopFrame][1..] == [stopFrame];
    LossyKeepsAll([stopFrame]);
    LossyKeepsAll([frame, stopFrame]);
  }

  lemma CancelScriptHears(stopId: uint16, replies: seq<RawFrame>)
    requires EncodeResponse(Response(stopId, 0, MODE_STOPPED, 0, 0, 0)) in replies
    ensures HearsReplies(CancelScript(stopId).stopWindow, stopId, replies)
  {
  }

  lemma CancelScriptServes(
      behaviour: Behaviour, capacity: nat, d: Device, command: Command, stopId: uint16, copies: nat, after: Link)
    requires Valid(behaviour, capacity, d) && copies <= 1
    requires after == Deliver(behaviour, capacity, Link(d, []),
                        Repeat(EncodeCommand(command), copies) + Repeat(EncodeCommand(StopCommand(stopId, command)), 1))
    requires EncodeResponse(Response(stopId, 0, MODE_STOPPED, 0, 0, 0)) in after.replies
    ensures EndsCanceled(behaviour, capacity, d, command, stopId,
              Repeat(EncodeCommand(command), copies) + Repeat(EncodeCommand(StopCommand(stopId, command)), 1))
  {
    hide Valid, Deliver, GoalOutcome, GoalWire, Frames, Lossy, HearsReplies, Repeat, EncodeCommand, EncodeResponse,
      CancelScript;
    CancelScriptEnds(command, stopId);
    CancelScriptLoses(EncodeCommand(command), EncodeCommand(StopCommand(stopId, command)), copies);
    CancelScriptHears(stopId, after.replies);
  }

  /** The STOP arrives when the command has, or has not; the device answers it, and the answer is heard. */
  lemma StopIsAnswered(
      behaviour: Behaviour, capacity: nat, d: Device, command: Command, stop: Command, copies: nat, response: Response)
    returns (after: Link)
    requires Valid(behaviour, capacity, d)
    requires Process(behaviour, capacity, Middle(behaviour, capacity, d, command, copies), stop).1 == Some(response)
    ensures after == Deliver(behaviour, capacity, Link(d, []),
                       Repeat(EncodeCommand(command), copies) + Repeat(EncodeCommand(stop), 1))
    ensures after.device == Process(behaviour, capacity, Middle(behaviour, capacity, d, command, copies), stop).0
    ensures EncodeResponse(response) in after.replies
  {
    hide Valid, Process, Executed, EncodeCommand, EncodeResponse, FreshResponse, Deliver, Repeat;
    DeliveredIsServed(behaviour, capacity, d, command, stop, copies, 1);
    RepeatOnce(EncodeResponse(response));
    after := Deliver(behaviour, capacity, Link(d, []),
               Repeat(EncodeCommand(command), copies) + Repeat(EncodeCommand(stop), 1));
  }

  /** The device after the STOP alone, and then after the command: the STOP is answered as confirmed again. */
  lemma StoppedFirst(behaviour: Behaviour, capacity: nat, command: Command, stop: Command)
    requires !behaviour.DropStopAck? && capacity >= 2 && stop.opcode == STOP_OPCODE
    requires stop.commandId != command.commandId
    ensures var confirmed := Some(Response(stop.commandId, 0, MODE_STOPPED, 0, 0, 0));
            var (d, answer) := Process(behaviour, capacity, EMPTY, stop);
            var middle := Middle(behaviour, capacity, d, command, 1);
            && answer == confirmed
            && middle.applied == [stop, command]
            && Process(behaviour, capacity, middle, stop) == (middle, confirmed)
  {
    assert [stop] + [command] == [stop, command];
  }

  /** A confirmed STOP may be a replay, with every cache of at least two ids. From an empty device, a goal ends CANCELED
      of which only the STOP arrived; then the bridge's ids start over, the same goal loses nothing and ends CANCELED
      again, and the last thing the device executed is the command that was to be stopped. */
  lemma CachedStopMayLeaveTheCommandRunning(
      behaviour: Behaviour, capacity: nat, command: Command, stopId: uint16)
    requires !behaviour.DropStopAck? && capacity >= 2 && stopId != command.commandId
    ensures var frame, stopFrame := EncodeCommand(command), EncodeCommand(StopCommand(stopId, command));
            && EndsCanceled(behaviour, capacity, EMPTY, command, stopId, [stopFrame])
            && var d := Deliver(behaviour, capacity, Link(EMPTY, []), [stopFrame]).device;
               && EndsCanceled(behaviour, capacity, d, command, stopId, [frame, stopFrame])
               && Deliver(behaviour, capacity, Link(d, []), [frame, stopFrame]).device.applied
                  == [StopCommand(stopId, command), command]
  {
    hide Deliver, EndsCanceled, EncodeCommand, EncodeResponse, Repeat, Process;
    var stop, confirmed := StopCommand(stopId, command), Response(stopId, 0, MODE_STOPPED, 0, 0, 0);
    OneAndOne(EncodeCommand(command), EncodeCommand(stop));
    StoppedFirst(behaviour, capacity, command, stop);
    var first := StopIsAnswered(behaviour, capacity, EMPTY, command, stop, 0, confirmed);
    CancelScriptServes(behaviour, capacity, EMPTY, command, stopId, 0, first);
    var second := StopIsAnswered(behaviour, capacity, first.device, command, stop, 1, confirmed);
    CancelScriptServes(behaviour, capacity, first.device, command, stopId, 1, second);
  }

  /** A confirmed cancel may have done nothing at all: the same goal after one that lost nothing. */
  lemma RepeatedGoalMayDoNothing(behaviour: Behaviour, capacity: nat, command: Command, stopId: uint16)
    requires !behaviour.DropStopAck? && capacity >= 2 && stopId != command.commandId
    ensures var frames := [EncodeCommand(command), EncodeCommand(StopCommand(stopId, command))];
            && EndsCanceled(behaviour, capacity, EMPTY, command, stopId, frames)
            && var d := Deliver(behaviour, capacity, Link(EMPTY, []), frames).device;
               && EndsCanceled(behaviour, capacity, d, command, stopId, frames)
               && Deliver(behaviour, capacity, Link(d, []), frames).device == d
  {
    hide Deliver, EndsCanceled, EncodeCommand, EncodeResponse, Repeat;
    var stop, confirmed := StopCommand(stopId, command), Response(stopId, 0, MODE_STOPPED, 0, 0, 0);
    OneAndOne(EncodeCommand(command), EncodeCommand(stop));
    var first := StopIsAnswered(behaviour, capacity, EMPTY, command, stop, 1, confirmed);
    CancelScriptServes(behaviour, capacity, EMPTY, command, stopId, 1, first);
    var second := StopIsAnswered(behaviour, capacity, first.device, command, stop, 1, confirmed);
    CancelScriptServes(behaviour, capacity, first.device, command, stopId, 1, second);
  }
}
