/** A goal during which the device may restart. */
module Restarts {
  import opened Common
  import opened Outcomes
  import opened CanProtocol
  import opened DeviceBridge
  import opened BridgeWire
  import opened VirtualDevice
  import opened RetryOnce

  datatype Arrival = Arrives(frame: RawFrame) | Restart

  function FramesOf(arrivals: seq<Arrival>): seq<RawFrame> {
    if arrivals == [] then []
    else (if arrivals[0].Arrives? then [arrivals[0].frame] else []) + FramesOf(arrivals[1..])
  }

  /** A restarted device has forgotten every id; the history of what was done stays. */
  function Restarted(behaviour: Behaviour, capacity: nat, d: Device): (r: Device)
    requires Valid(behaviour, capacity, d)
    ensures Valid(behaviour, capacity, r)
  {
    Device(map[], [], d.applied)
  }

  function Next(behaviour: Behaviour, capacity: nat, link: Link, arrival: Arrival): (r: Link)
    requires Valid(behaviour, capacity, link.device)
    ensures Valid(behaviour, capacity, r.device)
  {
    match arrival
    case Arrives(frame) => DeliverOne(behaviour, capacity, link, frame)
    case Restart => link.(device := Restarted(behaviour, capacity, link.device))
  }

  function DeliverAll(behaviour: Behaviour, capacity: nat, link: Link, arrivals: seq<Arrival>): (r: Link)
    requires Valid(behaviour, capacity, link.device)
    ensures Valid(behaviour, capacity, r.device)
    decreases |arrivals|
  {
    if arrivals == [] then link
    else DeliverAll(behaviour, capacity, Next(behaviour, capacity, link, arrivals[0]), arrivals[1..])
  }

  /** How often a command is executed whose frame is `frame`: once for every life of the device that it reaches, except
      that the first one may have the id cached. */
  function Turns(frame: RawFrame, cached: bool, arrivals: seq<Arrival>): nat
    decreases |arrivals|
  {
    if arrivals == [] then 0
    else match arrivals[0]
      case Restart => Turns(frame, false, arrivals[1..])
      case Arrives(f) =>
        if f != frame then Turns(frame, cached, arrivals[1..])
        else (if cached then 0 else 1) + Turns(frame, true, arrivals[1..])
  }

  /** Arrival `i` is a copy, and if the id was cached at first, a restart came before it. */
  ghost predicate CopyAt(frame: RawFrame, cached: bool, arrivals: seq<Arrival>, i: int) {
    0 <= i < |arrivals| && arrivals[i] == Arrives(frame) && (cached ==> Restart in arrivals[..i])
  }

  ghost predicate Reaches(frame: RawFrame, cached: bool, arrivals: seq<Arrival>) {
    exists i :: CopyAt(frame, cached, arrivals, i)
  }

  /** A restart separates two copies of which the first was executed. */
  ghost predicate Separated(frame: RawFrame, cached: bool, arrivals: seq<Arrival>) {
    exists i :: CopyAt(frame, cached, arrivals, i) && Reaches(frame, true, arrivals[i + 1..])
  }

  /** Whether the id is cached after an arrival. */
  function CachedAfter(frame: RawFrame, cached: bool, arrival: Arrival): bool {
    arrival.Arrives? && (cached || arrival.frame == frame)
  }

  lemma NothingArrives(frame: RawFrame, cached: bool)
    ensures !Reaches(frame, cached, []) && !Separated(frame, cached, [])
  {
  }

  lemma CopyInRest(frame: RawFrame, cached: bool, arrivals: seq<Arrival>, i: int)
    requires 0 < i && arrivals != []
    requires arrivals[0] == Arrives(frame) ==> cached
    ensures CopyAt(frame, cached, arrivals, i)
            <==> CopyAt(frame, CachedAfter(frame, cached, arrivals[0]), arrivals[1..], i - 1)
  {
    if i < |arrivals| {
      assert arrivals[..i] == [arrivals[0]] + arrivals[1..][..i - 1];
    }
  }

  lemma ReachesInRest(frame: RawFrame, cached: bool, arrivals: seq<Arrival>)
    requires arrivals != []
    ensures Reaches(frame, cached, arrivals)
            <==> (arrivals[0] == Arrives(frame) && !cached)
                 || Reaches(frame, CachedAfter(frame, cached, arrivals[0]), arrivals[1..])
  {
    var rest, after := arrivals[1..], CachedAfter(frame, cached, arrivals[0]);
    if arrivals[0] == Arrives(frame) && !cached {
      assert CopyAt(frame, cached, arrivals, 0);
    } else {
      if i :| CopyAt(frame, cached, arrivals, i) {
        CopyInRest(frame, cached, arrivals, i);
      }
      if i :| CopyAt(frame, after, rest, i) {
        CopyInRest(frame, cached, arrivals, i + 1);
      }
    }
  }

  lemma ReachesLater(frame: RawFrame, arrivals: seq<Arrival>, a: nat, b: nat)
    requires a <= b <= |arrivals| && Reaches(frame, true, arrivals[b..])
    ensures Reaches(frame, true, arrivals[a..])
  {
    var k :| CopyAt(frame, true, arrivals[b..], k);
    assert arrivals[b..][..k] == arrivals[b..b + k];
    assert arrivals[a..][..b - a + k] == arrivals[a..b] + arrivals[b..b + k];
    assert CopyAt(frame, true, arrivals[a..], b - a + k);
  }

  lemma SeparatedInRest(frame: RawFrame, cached: bool, arrivals: seq<Arrival>)
    requires arrivals != []
    ensures Separated(frame, cached, arrivals)
            <==> (if arrivals[0] == Arrives(frame) && !cached then Reaches(frame, true, arrivals[1..])
                  else Separated(frame, CachedAfter(frame, cached, arrivals[0]), arrivals[1..]))
  {
    hide Reaches;
    var rest, after := arrivals[1..], CachedAfter(frame, cached, arrivals[0]);
    if arrivals[0] == Arrives(frame) && !cached {
      assert CopyAt(frame, cached, arrivals, 0);
      if i :| CopyAt(frame, cached, arrivals, i) && Reaches(frame, true, arrivals[i + 1..]) {
        ReachesLater(frame, arrivals, 1, i + 1);
      }
    } else {
      if i :| CopyAt(frame, cached, arrivals, i) && Reaches(frame, true, arrivals[i + 1..]) {
        CopyInRest(frame, cached, arrivals, i);
        assert arrivals[i + 1..] == rest[i..];
      }
      if i :| CopyAt(frame, after, rest, i) && Reaches(frame, true, rest[i + 1..]) {
        CopyInRest(frame, cached, arrivals, i + 1);
        assert arrivals[i + 2..] == rest[i + 1..];
      }
    }
  }

  lemma {:induction false} TurnsAtLeastOnce(frame: RawFrame, cached: bool, arrivals: seq<Arrival>)
    ensures Turns(frame, cached, arrivals) >= 1 <==> Reaches(frame, cached, arrivals)
    decreases |arrivals|
  {
    hide Reaches;
    if arrivals == [] {
      NothingArrives(frame, cached);
    } else {
      ReachesInRest(frame, cached, arrivals);
      TurnsAtLeastOnce(frame, CachedAfter(frame, cached, arrivals[0]), arrivals[1..]);
    }
  }

  lemma {:induction false} TurnsMoreThanOnce(frame: RawFrame, cached: bool, arrivals: seq<Arrival>)
    ensures Turns(frame, cached, arrivals) >= 2 <==> Separated(frame, cached, arrivals)
    decreases |arrivals|
  {
    hide Separated, Reaches;
    if arrivals == [] {
      NothingArrives(frame, cached);
    } else {
      SeparatedInRest(frame, cached, arrivals);
      TurnsAtLeastOnce(frame, true, arrivals[1..]);
      TurnsMoreThanOnce(frame, CachedAfter(frame, cached, arrivals[0]), arrivals[1..]);
    }
  }

  // What the device does

  lemma {:induction false} DeliverAllConcat(
      behaviour: Behaviour, capacity: nat, link: Link, a: seq<Arrival>, b: seq<Arrival>)
    requires Valid(behaviour, capacity, link.device)
    ensures DeliverAll(behaviour, capacity, link, a + b)
            == DeliverAll(behaviour, capacity, DeliverAll(behaviour, capacity, link, a), b)
    decreases |a|
  {
    hide Valid, Next;
    if a == [] {
      assert a + b == b;
    } else {
      assert (a + b)[1..] == a[1..] + b && (a + b)[0] == a[0];
      DeliverAllConcat(behaviour, capacity, Next(behaviour, capacity, link, a[0]), a[1..], b);
    }
  }

  /** No frame but `frame` arrives. */
  ghost predicate OnlyCopies(frame: RawFrame, arrivals: seq<Arrival>) {
    forall i :: 0 <= i < |arrivals| && arrivals[i].Arrives? ==> arrivals[i].frame == frame
  }

  /** One arrival of a command executes it exactly if its id is not cached; whatever is answered carries the id. */
  lemma NextOfCopy(behaviour: Behaviour, capacity: nat, link: Link, command: Command, arrival: Arrival)
    requires Valid(behaviour, capacity, link.device)
    requires arrival.Arrives? ==> arrival.frame == EncodeCommand(command)
    ensures var next := Next(behaviour, capacity, link, arrival);
            var cached := command.commandId in link.device.cache;
            && next.device.applied
               == link.device.applied + (if arrival.Arrives? && !cached then [command] else [])
            && (command.commandId in next.device.cache
                <==> CachedAfter(EncodeCommand(command), cached, arrival))
            && (next.replies == link.replies
                || exists r: Response ::
                     r.commandId == command.commandId && arrival.Arrives?
                     && next.replies == link.replies + [EncodeResponse(r)])
  {
    hide Valid, EncodeCommand, EncodeResponse;
    if arrival.Arrives? {
      CommandRoundTrip(command);
      ProcessExecutes(behaviour, capacity, link.device, command);
      ReplyCarriesId(behaviour, capacity, link.device, command);
    }
  }

  /** Every reply in `replies` is in `earlier` or carries the id. */
  ghost predicate AnswersCarry(replies: seq<RawFrame>, earlier: seq<RawFrame>, id: uint16) {
    forall f :: f in replies ==> f in earlier || exists r: Response :: r.commandId == id && f == EncodeResponse(r)
  }

  lemma RepeatMore<T>(s: seq<T>, x: T, n: nat)
    ensures s + [] + Repeat(x, n) == s + Repeat(x, n) && s + [x] + Repeat(x, n) == s + Repeat(x, 1 + n)
    ensures s + Repeat(x, 0) == s
  {
  }

  lemma RepeatNever<T>(x: T)
    ensures Repeat(x, 0) == []
  {
  }

  /** Copies of one command, with restarts among them. */
  lemma {:induction false} CopiesExecute(
      behaviour: Behaviour, capacity: nat, link: Link, command: Command, arrivals: seq<Arrival>)
    requires Valid(behaviour, capacity, link.device) && OnlyCopies(EncodeCommand(command), arrivals)
    ensures var after := DeliverAll(behaviour, capacity, link, arrivals);
            var turns := Turns(EncodeCommand(command), command.commandId in link.device.cache, arrivals);
            && after.device.applied == link.device.applied + Repeat(command, turns)
            && AnswersCarry(after.replies, link.replies, command.commandId)
            && (Arrives(EncodeCommand(command)) !in arrivals ==> after.replies == link.replies)
    decreases |arrivals|
  {
    hide Valid, EncodeCommand, EncodeResponse, Next, Repeat;
    var frame := EncodeCommand(command);
    if arrivals == [] {
      RepeatMore(link.device.applied, command, 0);
    } else {
      var rest, next := arrivals[1..], Next(behaviour, capacity, link, arrivals[0]);
      NextOfCopy(behaviour, capacity, link, command, arrivals[0]);
      CopiesExecute(behaviour, capacity, next, command, rest);
      RepeatMore(link.device.applied, command, Turns(frame, command.commandId in next.device.cache, rest));
    }
  }

  lemma {:induction false} SplitArrivals(arrivals: seq<Arrival>, x: seq<RawFrame>, y: seq<RawFrame>) returns (cut: nat)
    requires FramesOf(arrivals) == x + y
    ensures cut <= |arrivals|
    ensures FramesOf(arrivals[..cut]) == x && FramesOf(arrivals[cut..]) == y
    decreases |arrivals|
  {
    if x == [] {
      cut := 0;
    } else {
      var rest := arrivals[1..];
      var fewer := if arrivals[0].Arrives? then x[1..] else x;
      if arrivals[0].Arrives? {
        assert FramesOf(arrivals)[1..] == FramesOf(rest) && (x + y)[1..] == fewer + y;
      }
      var n := SplitArrivals(rest, fewer, y);
      cut := n + 1;
      assert arrivals[..cut] == [arrivals[0]] + rest[..n] && arrivals[cut..] == rest[n..];
    }
  }

  lemma {:induction false} FramesAreCopies(frame: RawFrame, arrivals: seq<Arrival>, n: nat)
    requires FramesOf(arrivals) == Repeat(frame, n)
    ensures OnlyCopies(frame, arrivals)
    ensures forall cached: bool :: Turns(frame, cached, arrivals) <= n
    ensures n >= 1 <==> Arrives(frame) in arrivals
    decreases |arrivals|
  {
    if arrivals != [] {
      var rest := arrivals[1..];
      assert arrivals == [arrivals[0]] + rest;
      if arrivals[0].Arrives? {
        assert Repeat(frame, n)[0] == arrivals[0].frame;
        assert FramesOf(rest) == Repeat(frame, n)[1..] == Repeat(frame, n - 1);
        FramesAreCopies(frame, rest, n - 1);
      } else {
        FramesAreCopies(frame, rest, n);
      }
    }
  }

  lemma {:induction false} TurnsConcat(frame: RawFrame, cached: bool, a: seq<Arrival>, b: seq<Arrival>)
    requires Arrives(frame) !in b
    ensures Turns(frame, cached, a + b) == Turns(frame, cached, a)
    decreases |a| + |b|
  {
    if a != [] {
      assert (a + b)[0] == a[0] && (a + b)[1..] == a[1..] + b;
      TurnsConcat(frame, CachedAfter(frame, cached, a[0]), a[1..], b);
    } else if b != [] {
      assert a + b == b && [] + b[1..] == b[1..];
      TurnsConcat(frame, CachedAfter(frame, cached, b[0]), [], b[1..]);
    }
  }

  // One goal

  /** The copies of the command arrive first, then the STOP. */
  lemma GoalArrives(command: Command, stopId: uint16, s: Script, arrivals: seq<Arrival>)
    returns (cut: nat, copies: nat, stops: nat)
    requires Lossy(Frames(GoalWire(command, stopId, s)), FramesOf(arrivals))
    ensures cut <= |arrivals| && copies <= CommandsSent(command, s) <= 2 && stops <= |StopWire(command, stopId, s)| <= 1
    ensures FramesOf(arrivals[..cut]) == Repeat(EncodeCommand(command), copies)
    ensures FramesOf(arrivals[cut..]) == Repeat(EncodeCommand(StopCommand(stopId, command)), stops)
  {
    hide Lossy, GoalWire, EncodeCommand, FramesOf, Frames, StopWire;
    WireGrammar(command, stopId, s);
    DeliveredShape(command, stopId, s, FramesOf(arrivals));
    copies, stops :| DeliveredAs(command, stopId, s, FramesOf(arrivals), copies, stops);
    cut := SplitArrivals(arrivals, Repeat(EncodeCommand(command), copies),
             Repeat(EncodeCommand(StopCommand(stopId, command)), stops));
  }

  lemma {:induction false} FramesOfConcat(a: seq<Arrival>, b: seq<Arrival>)
    ensures FramesOf(a + b) == FramesOf(a) + FramesOf(b)
  {
    if a == [] {
      assert a + b == b;
    } else {
      assert (a + b)[0] == a[0] && (a + b)[1..] == a[1..] + b;
      FramesOfConcat(a[1..], b);
    }
  }

  lemma JoinArrivals(arrivals: seq<Arrival>, cut: nat, frame: RawFrame, copies: nat)
    requires cut <= |arrivals|
    requires FramesOf(arrivals[..cut]) == Repeat(frame, copies) && FramesOf(arrivals[cut..]) == []
    ensures FramesOf(arrivals) == Repeat(frame, copies)
  {
    assert arrivals[..cut] + arrivals[cut..] == arrivals;
    FramesOfConcat(arrivals[..cut], arrivals[cut..]);
  }

  /** Retry across restarts, for every cache: the command is executed once for every life of the device that a copy
      reaches, the first one excepted if it has the id cached, and twice exactly if a restart separates two copies of
      which the first was executed; then the STOP is executed at most once. */
  lemma RetryAcrossRestarts(
      behaviour: Behaviour, capacity: nat, d: Device,
      command: Command, stopId: uint16, s: Script, arrivals: seq<Arrival>)
    returns (cut: nat)
    requires Valid(behaviour, capacity, d)
    requires Lossy(Frames(GoalWire(command, stopId, s)), FramesOf(arrivals))
    ensures cut <= |arrivals|
    ensures OnlyCopies(EncodeCommand(command), arrivals[..cut])
    ensures OnlyCopies(EncodeCommand(StopCommand(stopId, command)), arrivals[cut..])
    ensures var frame, stop := EncodeCommand(command), StopCommand(stopId, command);
            var cached := command.commandId in d.cache;
            var middle := DeliverAll(behaviour, capacity, Link(d, []), arrivals[..cut]).device;
            var turns := Turns(frame, cached, arrivals[..cut]);
            var stopTurns := Turns(EncodeCommand(stop), stopId in middle.cache, arrivals[cut..]);
            && DeliverAll(behaviour, capacity, Link(d, []), arrivals).device.applied
               == d.applied + Repeat(command, turns) + Repeat(stop, stopTurns)
            && turns <= 2 && stopTurns <= 1
            && (turns == 2 <==> Separated(frame, cached, arrivals[..cut]))
  {
    hide Valid, Lossy, GoalWire, EncodeCommand, FramesOf, Frames, Repeat, Turns, Separated, OnlyCopies, DeliverAll;
    var n, copies, stops := GoalArrives(command, stopId, s, arrivals);
    cut := n;
    var a, b, stop := arrivals[..cut], arrivals[cut..], StopCommand(stopId, command);
    assert a + b == arrivals;
    FramesAreCopies(EncodeCommand(command), a, copies);
    FramesAreCopies(EncodeCommand(stop), b, stops);
    DeliverAllConcat(behaviour, capacity, Link(d, []), a, b);
    CopiesExecute(behaviour, capacity, Link(d, []), command, a);
    CopiesExecute(behaviour, capacity, DeliverAll(behaviour, capacity, Link(d, []), a), stop, b);
    TurnsMoreThanOnce(EncodeCommand(command), command.commandId in d.cache, a);
  }

  /** COMPLETED means done, also across restarts: nothing but the command was executed; at least once if its id was not
      cached, and twice exactly if a restart separates two copies of which the first was executed. */
  lemma CompletedAcrossRestarts(
      behaviour: Behaviour, capacity: nat, d: Device,
      command: Command, stopId: uint16, s: Script, arrivals: seq<Arrival>)
    requires Valid(behaviour, capacity, d)
    requires Lossy(Frames(GoalWire(command, stopId, s)), FramesOf(arrivals))
    requires var replies := DeliverAll(behaviour, capacity, Link(d, []), arrivals).replies;
             && HearsReplies(s.first.window, command.commandId, replies)
             && HearsReplies(s.second.window, command.commandId, replies)
    requires GoalOutcome(command, stopId, s).outcome == COMPLETED
    ensures var frame, cached := EncodeCommand(command), command.commandId in d.cache;
            var turns := Turns(frame, cached, arrivals);
            && DeliverAll(behaviour, capacity, Link(d, []), arrivals).device.applied
               == d.applied + Repeat(command, turns)
            && turns <= 2 && (!cached ==> turns >= 1)
            && (turns == 2 <==> Separated(frame, cached, arrivals))
  {
    hide Valid, Lossy, GoalWire, EncodeCommand, FramesOf, Frames, Repeat, Turns, Separated, OnlyCopies, DeliverAll,
      HearsReplies, GoalOutcome, StopWire;
    var frame, cached := EncodeCommand(command), command.commandId in d.cache;
    CompletedHearsReply(command, stopId, s, DeliverAll(behaviour, capacity, Link(d, []), arrivals).replies);
    var cut, copies, stops := GoalArrives(command, stopId, s, arrivals);
    RepeatNever(EncodeCommand(StopCommand(stopId, command)));
    JoinArrivals(arrivals, cut, frame, copies);
    FramesAreCopies(frame, arrivals, copies);
    CopiesExecute(behaviour, capacity, Link(d, []), command, arrivals);
    TurnsMoreThanOnce(frame, cached, arrivals);
    var i :| 0 <= i < |arrivals| && arrivals[i] == Arrives(frame);
    assert !cached ==> CopyAt(frame, cached, arrivals, i);
    TurnsAtLeastOnce(frame, cached, arrivals);
  }

  lemma {:induction false} FirstFrame(arrivals: seq<Arrival>, y: RawFrame) returns (at: nat)
    requires FramesOf(arrivals) == [y]
    ensures at < |arrivals| && arrivals[at] == Arrives(y)
    ensures FramesOf(arrivals[..at]) == [] && FramesOf(arrivals[at + 1..]) == []
    decreases |arrivals|
  {
    if arrivals[0].Arrives? {
      at := 0;
      assert FramesOf(arrivals)[0] == arrivals[0].frame;
      assert FramesOf(arrivals)[1..] == FramesOf(arrivals[1..]);
    } else {
      var n := FirstFrame(arrivals[1..], y);
      at := n + 1;
      assert arrivals[..at] == [arrivals[0]] + arrivals[1..][..n] && arrivals[at + 1..] == arrivals[1..][n + 1..];
    }
  }

  lemma SplitAtLast(arrivals: seq<Arrival>, x: seq<RawFrame>, y: RawFrame) returns (at: nat)
    requires FramesOf(arrivals) == x + [y]
    ensures at < |arrivals| && arrivals[at] == Arrives(y)
    ensures FramesOf(arrivals[..at]) == x && FramesOf(arrivals[at + 1..]) == []
  {
    var cut := SplitArrivals(arrivals, x, [y]);
    var b := arrivals[cut..];
    var p := FirstFrame(b, y);
    at := cut + p;
    assert arrivals[..at] == arrivals[..cut] + b[..p] && arrivals[at + 1..] == b[p + 1..];
    FramesOfConcat(arrivals[..cut], b[..p]);
    assert x + [] == x;
  }

  lemma RestartsExecuteNothing(
      behaviour: Behaviour, capacity: nat, link: Link, command: Command, arrivals: seq<Arrival>)
    requires Valid(behaviour, capacity, link.device) && FramesOf(arrivals) == []
    ensures DeliverAll(behaviour, capacity, link, arrivals).device.applied == link.device.applied
  {
    hide Valid, EncodeCommand, FramesOf, Repeat, Turns, OnlyCopies, DeliverAll;
    RepeatNever(EncodeCommand(command));
    FramesAreCopies(EncodeCommand(command), arrivals, 0);
    CopiesExecute(behaviour, capacity, link, command, arrivals);
    RepeatMore(link.device.applied, command, 0);
  }

  /** One copy, and restarts after it. */
  lemma OneCopyExecutes(behaviour: Behaviour, capacity: nat, link: Link, command: Command, arrivals: seq<Arrival>)
    requires Valid(behaviour, capacity, link.device)
    requires arrivals != [] && arrivals[0] == Arrives(EncodeCommand(command)) && FramesOf(arrivals[1..]) == []
    ensures DeliverAll(behaviour, capacity, link, arrivals).device.applied
            == link.device.applied + if command.commandId in link.device.cache then [] else [command]
  {
    hide Valid, EncodeCommand, FramesOf, Repeat, Turns, OnlyCopies, Next;
    var next, rest := Next(behaviour, capacity, link, arrivals[0]), arrivals[1..];
    NextOfCopy(behaviour, capacity, link, command, arrivals[0]);
    RestartsExecuteNothing(behaviour, capacity, next, command, rest);
  }

  /** What a cancelled goal leaves the device with when the STOP arrives as arrival `at`. */
  lemma StopArrivesAt(
      behaviour: Behaviour, capacity: nat, d: Device, command: Command, stop: Command, copies: nat,
      arrivals: seq<Arrival>)
    returns (at: nat)
    requires Valid(behaviour, capacity, d)
    requires FramesOf(arrivals) == Repeat(EncodeCommand(command), copies) + [EncodeCommand(stop)]
    ensures at < |arrivals| && arrivals[at] == Arrives(EncodeCommand(stop))
    ensures OnlyCopies(EncodeCommand(command), arrivals[..at])
    ensures var before := DeliverAll(behaviour, capacity, Link(d, []), arrivals[..at]).device;
            && Turns(EncodeCommand(command), command.commandId in d.cache, arrivals[..at]) <= copies
            && before.applied == d.applied
                 + Repeat(command, Turns(EncodeCommand(command), command.commandId in d.cache, arrivals[..at]))
            && DeliverAll(behaviour, capacity, Link(d, []), arrivals).device.applied
               == before.applied + if stop.commandId in before.cache then [] else [stop]
  {
    hide Valid, EncodeCommand, FramesOf, Repeat, Turns, OnlyCopies, DeliverAll;
    at := SplitAtLast(arrivals, Repeat(EncodeCommand(command), copies), EncodeCommand(stop));
    var a, b := arrivals[..at], arrivals[at..];
    assert a + b == arrivals;
    FramesAreCopies(EncodeCommand(command), a, copies);
    CopiesExecute(behaviour, capacity, Link(d, []), command, a);
    DeliverAllConcat(behaviour, capacity, Link(d, []), a, b);
    OneCopyExecutes(behaviour, capacity, DeliverAll(behaviour, capacity, Link(d, []), a), stop, b);
  }

  lemma RepeatLast<T>(x: T, n: nat)
    requires n >= 1
    ensures Repeat(x, n) == Repeat(x, n - 1) + [x]
  {
  }

  lemma FramesEndWithRestarts(arrivals: seq<Arrival>, at: nat)
    requires at <= |arrivals| && FramesOf(arrivals[at..]) == []
    ensures FramesOf(arrivals[..at]) == FramesOf(arrivals)
  {
    assert arrivals[..at] + arrivals[at..] == arrivals;
    FramesOfConcat(arrivals[..at], arrivals[at..]);
  }

  lemma CopyIsCached(behaviour: Behaviour, capacity: nat, link: Link, command: Command, arrivals: seq<Arrival>)
    requires Valid(behaviour, capacity, link.device)
    requires arrivals != [] && arrivals[|arrivals| - 1] == Arrives(EncodeCommand(command))
    ensures command.commandId in DeliverAll(behaviour, capacity, link, arrivals).device.cache
  {
    hide Valid, EncodeCommand, Next;
    var a, last := arrivals[..|arrivals| - 1], arrivals[|arrivals| - 1];
    assert a + [last] == arrivals && [last][1..] == [];
    DeliverAllConcat(behaviour, capacity, link, a, [last]);
    NextOfCopy(behaviour, capacity, DeliverAll(behaviour, capacity, link, a), command, last);
  }

  /** What it leaves the device with when what was heard was the answer to the command. */
  lemma CommandArrivesLast(
      behaviour: Behaviour, capacity: nat, d: Device, command: Command, copies: nat, arrivals: seq<Arrival>)
    returns (at: nat)
    requires Valid(behaviour, capacity, d) && copies >= 1
    requires FramesOf(arrivals) == Repeat(EncodeCommand(command), copies)
    ensures at <= |arrivals| && OnlyCopies(EncodeCommand(command), arrivals[..at])
    ensures var before := DeliverAll(behaviour, capacity, Link(d, []), arrivals[..at]).device;
            && Turns(EncodeCommand(command), command.commandId in d.cache, arrivals[..at]) <= copies
            && before.applied == d.applied
                 + Repeat(command, Turns(EncodeCommand(command), command.commandId in d.cache, arrivals[..at]))
            && DeliverAll(behaviour, capacity, Link(d, []), arrivals).device.applied == before.applied
            && command.commandId in before.cache
  {
    hide Valid, EncodeCommand, FramesOf, Repeat, Turns, OnlyCopies, DeliverAll, Next;
    var frame := EncodeCommand(command);
    RepeatLast(frame, copies);
    var last := SplitAtLast(arrivals, Repeat(frame, copies - 1), frame);
    at := last + 1;
    var a, b := arrivals[..at], arrivals[at..];
    assert a + b == arrivals;
    FramesEndWithRestarts(arrivals, at);
    FramesAreCopies(frame, a, copies);
    CopiesExecute(behaviour, capacity, Link(d, []), command, a);
    DeliverAllConcat(behaviour, capacity, Link(d, []), a, b);
    CopyIsCached(behaviour, capacity, Link(d, []), command, a);
    RestartsExecuteNothing(behaviour, capacity, DeliverAll(behaviour, capacity, Link(d, []), a), command, b);
  }

  lemma ReplyIsToCommand(replies: seq<RawFrame>, id: uint16, response: Response)
    requires AnswersCarry(replies, [], id) && EncodeResponse(response) in replies
    ensures response.commandId == id
  {
    var r: Response :| r.commandId == id && EncodeResponse(response) == EncodeResponse(r);
    ResponseRoundTrip(response);
    ResponseRoundTrip(r);
  }

  /** What a cancel after a send leaves the device with, for every cache and also across restarts. If what the bridge
      hears under the STOP id are the device's replies to this goal, then, from some arrival on, which is the STOP
      unless it has the command's own id, nothing is executed but the STOP, exactly if its id is not cached at that
      point; before it only the command was executed, twice at most. */
  lemma CanceledAcrossRestarts(
      behaviour: Behaviour, capacity: nat, d: Device,
      command: Command, stopId: uint16, s: Script, arrivals: seq<Arrival>)
    returns (at: nat)
    requires Valid(behaviour, capacity, d)
    requires Lossy(Frames(GoalWire(command, stopId, s)), FramesOf(arrivals))
    requires HearsReplies(s.stopWindow, stopId, DeliverAll(behaviour, capacity, Link(d, []), arrivals).replies)
    requires GoalOutcome(command, stopId, s).outcome == CANCELED && !s.first.cancelingBefore
    ensures at <= |arrivals| && OnlyCopies(EncodeCommand(command), arrivals[..at])
    ensures stopId == command.commandId
            || (at < |arrivals| && arrivals[at] == Arrives(EncodeCommand(StopCommand(stopId, command))))
    ensures var before := DeliverAll(behaviour, capacity, Link(d, []), arrivals[..at]).device;
            var turns := Turns(EncodeCommand(command), command.commandId in d.cache, arrivals[..at]);
            && turns <= 2
            && before.applied == d.applied + Repeat(command, turns)
            && DeliverAll(behaviour, capacity, Link(d, []), arrivals).device.applied
               == before.applied + if stopId in before.cache then [] else [StopCommand(stopId, command)]
  {
    hide Valid, Lossy, GoalWire, EncodeCommand, EncodeResponse, FramesOf, Frames, Repeat, Turns, OnlyCopies, DeliverAll,
      HearsReplies, GoalOutcome, StopWire;
    var stop := StopCommand(stopId, command);
    var after := DeliverAll(behaviour, capacity, Link(d, []), arrivals);
    var response := CanceledHearsReply(command, stopId, s, after.replies);
    var cut, copies, stops := GoalArrives(command, stopId, s, arrivals);
    assert arrivals[..cut] + arrivals[cut..] == arrivals;
    FramesOfConcat(arrivals[..cut], arrivals[cut..]);
    if stops == 1 {
      RepeatOnce(EncodeCommand(stop));
      at := StopArrivesAt(behaviour, capacity, d, command, stop, copies, arrivals);
    } else {
      RepeatNever(EncodeCommand(stop));
      assert FramesOf(arrivals) == Repeat(EncodeCommand(command), copies);
      FramesAreCopies(EncodeCommand(command), arrivals, copies);
      CopiesExecute(behaviour, capacity, Link(d, []), command, arrivals);
      ReplyIsToCommand(after.replies, command.commandId, response);
      at := CommandArrivesLast(behaviour, capacity, d, command, copies, arrivals);
    }
  }

  // Twice

  /** The first wait hears nothing; the second hears the acknowledgement. */
  function RetryScript(id: uint16): Script {
    var quiet := Window([], true, false);
    var acknowledged := RxFrame(EncodeResponse(Response(id, 0, MODE_NORMAL, 0, 0, 0)));
    Script(Attempt(false, true, quiet, false),
           Attempt(false, true, Window([Poll(true, false, acknowledged)], true, false), false), true, quiet)
  }

  lemma RetryScriptEnds(command: Command, stopId: uint16)
    ensures var s := RetryScript(command.commandId);
            && GoalOutcome(command, stopId, s).outcome == COMPLETED
            && Frames(GoalWire(command, stopId, s)) == [EncodeCommand(command), EncodeCommand(command)]
  {
    var s, id := RetryScript(command.commandId), command.commandId;
    ResponseRoundTrip(Response(id, 0, MODE_NORMAL, 0, 0, 0));
    assert Matching(s.second.window.polls[0].rx, id) == Some(Response(id, 0, MODE_NORMAL, 0, 0, 0));
    FramesOnTheBus(command, stopId, s);
    assert Repeat(EncodeCommand(command), 2) == [EncodeCommand(command), EncodeCommand(command)];
  }

  /** The device restarts after the first copy. */
  function RestartBetween(command: Command): seq<Arrival> {
    [Arrives(EncodeCommand(command)), Restart, Arrives(EncodeCommand(command))]
  }

  lemma CopyIsAnswered(behaviour: Behaviour, capacity: nat, link: Link, command: Command)
    requires Valid(behaviour, capacity, link.device) && command.commandId !in link.device.cache
    ensures var next := Next(behaviour, capacity, link, Arrives(EncodeCommand(command)));
            && next.device.applied == link.device.applied + [command]
            && next.replies == link.replies + Reply(FreshResponse(behaviour, command))
  {
    CommandRoundTrip(command);
  }

  lemma RestartForgets(behaviour: Behaviour, capacity: nat, link: Link)
    requires Valid(behaviour, capacity, link.device)
    ensures var next := Next(behaviour, capacity, link, Restart);
            next.device.cache == map[] && next.device.applied == link.device.applied && next.replies == link.replies
  {
  }

  lemma DeliverThree(behaviour: Behaviour, capacity: nat, link: Link, a: Arrival, b: Arrival, c: Arrival)
    requires Valid(behaviour, capacity, link.device)
    ensures DeliverAll(behaviour, capacity, link, [a, b, c])
            == Next(behaviour, capacity, Next(behaviour, capacity, Next(behaviour, capacity, link, a), b), c)
    ensures a.Arrives? && b.Restart? && c.Arrives? ==> FramesOf([a, b, c]) == [a.frame, c.frame]
  {
    hide Valid, Next;
    assert [a, b, c][1..] == [b, c] && [b, c][1..] == [c] && [c][1..] == [];
    var second := Next(behaviour, capacity, Next(behaviour, capacity, link, a), b);
    assert DeliverAll(behaviour, capacity, second, [c]) == Next(behaviour, capacity, second, c);
    assert FramesOf([b, c]) == (if b.Arrives? then [b.frame] else []) + FramesOf([c]);
  }

  lemma RestartBetweenServes(behaviour: Behaviour, capacity: nat, d: Device, command: Command)
    requires Valid(behaviour, capacity, d) && command.commandId !in d.cache
    ensures var after := DeliverAll(behaviour, capacity, Link(d, []), RestartBetween(command));
            && after.device.applied == d.applied + [command, command]
            && after.replies == Reply(FreshResponse(behaviour, command)) + Reply(FreshResponse(behaviour, command))
    ensures FramesOf(RestartBetween(command)) == [EncodeCommand(command), EncodeCommand(command)]
  {
    hide Valid, EncodeCommand, FreshResponse, Next, DeliverAll, FramesOf;
    var copy := Arrives(EncodeCommand(command));
    var first := Next(behaviour, capacity, Link(d, []), copy);
    DeliverThree(behaviour, capacity, Link(d, []), copy, Restart, copy);
    CopyIsAnswered(behaviour, capacity, Link(d, []), command);
    var restarted := Next(behaviour, capacity, first, Restart);
    RestartForgets(behaviour, capacity, first);
    CopyIsAnswered(behaviour, capacity, restarted, command);
    assert d.applied + [command] + [command] == d.applied + [command, command];
  }

  /** A completed goal may have been executed twice: the bus loses nothing, the device restarts after the first copy,
      its answer goes unheard, and the second copy is executed and acknowledged. */
  lemma CompletedGoalMayExecuteTwice(
      behaviour: Behaviour, capacity: nat, d: Device, command: Command, stopId: uint16)
    requires Valid(behaviour, capacity, d) && command.commandId !in d.cache
    requires FreshResponse(behaviour, command) == Some(Response(command.commandId, 0, MODE_NORMAL, 0, 0, 0))
    ensures var s, arrivals := RetryScript(command.commandId), RestartBetween(command);
            var after := DeliverAll(behaviour, capacity, Link(d, []), arrivals);
            && FramesOf(arrivals) == Frames(GoalWire(command, stopId, s))
            && HearsReplies(s.first.window, command.commandId, after.replies)
            && HearsReplies(s.second.window, command.commandId, after.replies)
            && GoalOutcome(command, stopId, s).outcome == COMPLETED
            && after.device.applied == d.applied + [command, command]
  {
    hide Valid, EncodeCommand, EncodeResponse, DeliverAll, GoalOutcome, GoalWire, Frames, FramesOf, FreshResponse;
    RetryScriptEnds(command, stopId);
    RestartBetweenServes(behaviour, capacity, d, command);
  }
}
