/** The simulated ECU: executes each command id once and answers repeats from a bounded FIFO replay cache. */
module VirtualDevice {
  import opened Common
  import opened CanProtocol

  const MODE_NORMAL: uint8 := 0
  const MODE_FAULT: uint8 := 2
  const MODE_STOPPED: uint8 := 3

  datatype Behaviour = Normal | DelayAck | DropAck | DropStopAck | Reject | Fault

  datatype CacheEntry = CacheEntry(command: Command, response: Option<Response>)

  /** `applied` records the commands the device acted on, oldest first. */
  datatype Device = Device(cache: map<uint16, CacheEntry>, order: seq<uint16>, applied: seq<Command>)

  /** The answer of a command seen for the first time; None is a silent device. */
  function FreshResponse(behaviour: Behaviour, command: Command): Option<Response> {
    if command.opcode == STOP_OPCODE then
      if behaviour.DropStopAck? then None
      else Some(Response(command.commandId, 0, MODE_STOPPED, 0, 0, 0))
    else match behaviour
      case DropAck | DropStopAck => None
      case Reject => Some(Response(command.commandId, 1, MODE_NORMAL, 0, 0, 0))
      case Fault => Some(Response(command.commandId, 2, MODE_FAULT, 0, 0, 0))
      case Normal | DelayAck => Some(Response(command.commandId, 0, MODE_NORMAL, 0, 0, 0))
  }

  function ConflictResponse(command: Command): Response {
    Response(command.commandId, 3, MODE_FAULT, 0, 0, 0)
  }

  /** The eviction queue lists the cached ids once each. */
  ghost predicate QueueMatchesCache(d: Device) {
    && (forall i, j :: 0 <= i < j < |d.order| ==> d.order[i] != d.order[j])
    && (forall id :: id in d.cache <==> id in d.order)
  }

  ghost predicate Valid(behaviour: Behaviour, capacity: nat, d: Device) {
    && 1 <= capacity
    && |d.order| <= capacity
    && QueueMatchesCache(d)
    && (forall id :: id in d.cache ==>
          && d.cache[id].command.commandId == id
          && d.cache[id].response == FreshResponse(behaviour, d.cache[id].command))
  }

  /** The cache after storing a command that is not cached: the oldest entry leaves when the cache is full. */
  function Store(behaviour: Behaviour, capacity: nat, d: Device, command: Command): Device
    requires Valid(behaviour, capacity, d)
  {
    var entry := CacheEntry(command, FreshResponse(behaviour, command));
    if |d.order| >= capacity then
      Device((d.cache - {d.order[0]})[command.commandId := entry],
             d.order[1..] + [command.commandId], d.applied + [command])
    else
      Device(d.cache[command.commandId := entry], d.order + [command.commandId], d.applied + [command])
  }

  /** Dropping the head of a queue without repetitions drops just that id. */
  lemma TailOfQueue(order: seq<uint16>)
    requires order != [] && forall i, j :: 0 <= i < j < |order| ==> order[i] != order[j]
    ensures forall id :: id in order[1..] <==> id in order && id != order[0]
  {
    assert order == [order[0]] + order[1..];
  }

  lemma StoreKeepsQueue(behaviour: Behaviour, capacity: nat, d: Device, command: Command)
    requires Valid(behaviour, capacity, d) && command.commandId !in d.cache
    ensures QueueMatchesCache(Store(behaviour, capacity, d, command))
  {
    hide FreshResponse;
    var e := Store(behaviour, capacity, d, command);
    assert command.commandId !in d.order;
    if |d.order| >= capacity {
      TailOfQueue(d.order);
    }
    var kept := if |d.order| >= capacity then d.order[1..] else d.order;
    assert e.order == kept + [command.commandId];
    assert forall id :: id in kept <==> id in e.cache && id != command.commandId;
  }

  lemma StoreKeepsValid(behaviour: Behaviour, capacity: nat, d: Device, command: Command)
    requires Valid(behaviour, capacity, d) && command.commandId !in d.cache
    ensures Valid(behaviour, capacity, Store(behaviour, capacity, d, command))
    ensures command.commandId in Store(behaviour, capacity, d, command).cache
  {
    StoreKeepsQueue(behaviour, capacity, d, command);
  }

  /** One received command: the new device and the response put on the bus, if any. */
  function Process(behaviour: Behaviour, capacity: nat, d: Device, command: Command): (r: (Device, Option<Response>))
    requires Valid(behaviour, capacity, d)
    ensures Valid(behaviour, capacity, r.0)
    ensures command.commandId in r.0.cache
  {
    if command.commandId in d.cache then
      var entry := d.cache[command.commandId];
      (d, if entry.command != command then Some(ConflictResponse(command)) else entry.response)
    else
      StoreKeepsValid(behaviour, capacity, d, command);
      (Store(behaviour, capacity, d, command), FreshResponse(behaviour, command))
  }

  /** The device object. `cacheOrder` is the eviction queue; `applied` is a ghost history. */
  class CanDevice {
    const behaviour: Behaviour
    const capacity: nat
    var cache: map<uint16, CacheEntry>
    var cacheOrder: seq<uint16>
    ghost var applied: seq<Command>

    ghost function View(): Device
      reads this
    {
      Device(cache, cacheOrder, applied)
    }

    constructor (behaviour: Behaviour, capacity: nat)
      requires 1 <= capacity <= 65536
      ensures Valid(behaviour, capacity, View())
      ensures this.behaviour == behaviour && this.capacity == capacity && View() == Device(map[], [], [])
    {
      this.behaviour := behaviour;
      this.capacity := capacity;
      cache := map[];
      cacheOrder := [];
      applied := [];
    }

    method CacheCommand(command: Command, response: Option<Response>)
      requires Valid(behaviour, capacity, View())
      requires command.commandId !in cache && response == FreshResponse(behaviour, command)
      modifies this
      ensures View() == Store(behaviour, capacity, old(View()), command)
    {
      if |cacheOrder| >= capacity {
        cache := cache - {cacheOrder[0]};
        cacheOrder := cacheOrder[1..];
      }
      cache := cache[command.commandId := CacheEntry(command, response)];
      cacheOrder := cacheOrder + [command.commandId];
      applied := applied + [command];
    }

    method ProcessCommand(command: Command) returns (sent: Option<Response>)
      requires Valid(behaviour, capacity, View())
      modifies this
      ensures Valid(behaviour, capacity, View())
      ensures (View(), sent) == Process(behaviour, capacity, old(View()), command)
    {
      if command.commandId in cache {
        var entry := cache[command.commandId];
        if entry.command != command {
          return Some(ConflictResponse(command));
        }
        return entry.response;
      }
      StoreKeepsValid(behaviour, capacity, View(), command);
      if command.opcode == STOP_OPCODE {
        if behaviour == DropStopAck {
          CacheCommand(command, None);
          return None;
        }
        var stopResponse := Response(command.commandId, 0, MODE_STOPPED, 0, 0, 0);
        CacheCommand(command, Some(stopResponse));
        return Some(stopResponse);
      }
      if behaviour == DropAck || behaviour == DropStopAck {
        CacheCommand(command, None);
        return None;
      }
      var resultCode: uint8, deviceMode: uint8 := 0, MODE_NORMAL;
      if behaviour == Reject {
        resultCode := 1;
      } else if behaviour == Fault {
        resultCode, deviceMode := 2, MODE_FAULT;
      }
      var response := Response(command.commandId, resultCode, deviceMode, 0, 0, 0);
      CacheCommand(command, Some(response));
      return Some(response);
    }
  }

  /** A repeat of a cached command gets the answer of its first execution; a different command under a cached id
      gets the conflict answer; neither changes the device. Only an uncached id is acted on. */
  lemma RepeatIsInert(behaviour: Behaviour, capacity: nat, d: Device, first: Command, second: Command)
    requires Valid(behaviour, capacity, d) && first.commandId == second.commandId
    ensures var (d1, r1) := Process(behaviour, capacity, d, first);
            var (d2, r2) := Process(behaviour, capacity, d1, second);
            && d2 == d1
            && (first.commandId !in d.cache ==>
                  && d1.applied == d.applied + [first]
                  && r2 == if second == first then r1 else Some(ConflictResponse(second)))
            && (first.commandId in d.cache ==> d1 == d)
  {
  }

  /** How the device answers a command it sees for the first time: a STOP is confirmed; any other command gets success
      exactly in the two working behaviours, 1 when rejecting, 2 with mode FAULT when faulty; the dropping behaviours
      keep silent. */
  lemma FreshAnswers(behaviour: Behaviour, capacity: nat, d: Device, command: Command)
    requires Valid(behaviour, capacity, d) && command.commandId !in d.cache
    ensures var answer, id := Process(behaviour, capacity, d, command).1, command.commandId;
            if command.opcode == 0xFF then
              answer == if behaviour.DropStopAck? then None else Some(Response(id, 0, 3, 0, 0, 0))
            else
              && (behaviour.Normal? || behaviour.DelayAck? <==> answer == Some(Response(id, 0, 0, 0, 0, 0)))
              && (behaviour.Reject? <==> answer == Some(Response(id, 1, 0, 0, 0, 0)))
              && (behaviour.Fault? <==> answer == Some(Response(id, 2, 2, 0, 0, 0)))
              && (behaviour.DropAck? || behaviour.DropStopAck? <==> answer == None)
  {
  }

  /** A different command under a cached id is refused: it gets result 3 and mode FAULT under its id, and nothing else
      happens. */
  lemma ConflictIsRefused(behaviour: Behaviour, capacity: nat, d: Device, command: Command)
    requires Valid(behaviour, capacity, d)
    requires command.commandId in d.cache && d.cache[command.commandId].command != command
    ensures Process(behaviour, capacity, d, command) == (d, Some(Response(command.commandId, 3, 2, 0, 0, 0)))
  {
  }

  ghost predicate CachedWereApplied(d: Device) {
    forall id :: id in d.cache ==> d.cache[id].command in d.applied
  }

  lemma StoreKeepsApplied(behaviour: Behaviour, capacity: nat, d: Device, command: Command)
    requires Valid(behaviour, capacity, d) && CachedWereApplied(d) && command.commandId !in d.cache
    ensures var e := Store(behaviour, capacity, d, command);
            CachedWereApplied(e) && command in e.applied
  {
    var e := Store(behaviour, capacity, d, command);
    assert e.applied[|d.applied|] == command;
    forall id | id in e.cache
      ensures e.cache[id].command in e.applied
    {
      if id != command.commandId {
        assert e.cache[id] == d.cache[id];
      }
    }
  }

  /** A response answers the command it was sent for, and one reporting STOPPED answers a STOP the device acted on. */
  lemma StoppedMeansStopApplied(behaviour: Behaviour, capacity: nat, d: Device, command: Command)
    requires Valid(behaviour, capacity, d) && CachedWereApplied(d)
    ensures var (e, reply) := Process(behaviour, capacity, d, command);
            && CachedWereApplied(e)
            && (reply.Some? ==> reply.value.commandId == command.commandId)
            && (reply.Some? && reply.value.deviceMode == MODE_STOPPED ==>
                  command.opcode == STOP_OPCODE && command in e.applied)
  {
    if command.commandId in d.cache {
      var entry := d.cache[command.commandId];
      assert entry.command in d.applied && entry.response == FreshResponse(behaviour, entry.command);
    } else {
      StoreKeepsApplied(behaviour, capacity, d, command);
    }
  }

  /** The device after a sequence of delivered commands. */
  function Run(behaviour: Behaviour, capacity: nat, d: Device, commands: seq<Command>): (r: Device)
    requires Valid(behaviour, capacity, d)
    ensures Valid(behaviour, capacity, r)
    decreases |commands|
  {
    if commands == [] then d
    else
      var last := |commands| - 1;
      Process(behaviour, capacity, Run(behaviour, capacity, d, commands[..last]), commands[last]).0
  }

  lemma RunConcat(behaviour: Behaviour, capacity: nat, d: Device, a: seq<Command>, b: seq<Command>)
    requires Valid(behaviour, capacity, d)
    ensures Run(behaviour, capacity, d, a + b)
            == Run(behaviour, capacity, Run(behaviour, capacity, d, a), b)
    decreases |b|
  {
    if b == [] {
      assert a + b == a;
    } else {
      var last := |b| - 1;
      assert (a + b)[..|a + b| - 1] == a + b[..last];
      RunConcat(behaviour, capacity, d, a, b[..last]);
    }
  }

  function FromBack<T>(s: seq<T>, k: nat): T
    requires 1 <= k <= |s|
  {
    s[|s| - k]
  }

  /** If at most `capacity` commands were executed after the first `base`, all of them are still cached: counted
      from the back, the eviction queue and the execution history agree. */
  ghost predicate RecentAreCached(capacity: nat, d: Device, base: nat) {
    && base <= |d.applied|
    && (|d.applied| - base <= capacity ==>
          && |d.applied| - base <= |d.order|
          && forall k :: 1 <= k <= |d.applied| - base ==>
               FromBack(d.order, k) == FromBack(d.applied, k).commandId)
  }

  lemma StoreShiftsQueue(behaviour: Behaviour, capacity: nat, d: Device, command: Command, k: nat)
    requires Valid(behaviour, capacity, d)
    ensures var e := Store(behaviour, capacity, d, command);
            && |e.order| == (if |d.order| >= capacity then |d.order| else |d.order| + 1)
            && (2 <= k <= |e.order| ==> FromBack(e.order, k) == FromBack(d.order, k - 1))
            && FromBack(e.order, 1) == command.commandId
  {
  }

  lemma ProcessKeepsRecentCached(behaviour: Behaviour, capacity: nat, d: Device, base: nat, command: Command)
    requires Valid(behaviour, capacity, d) && RecentAreCached(capacity, d, base)
    ensures var e := Process(behaviour, capacity, d, command).0;
            RecentAreCached(capacity, e, base) && d.applied <= e.applied
  {
    var e := Process(behaviour, capacity, d, command).0;
    if command.commandId !in d.cache && |e.applied| - base <= capacity {
      StoreShiftsQueue(behaviour, capacity, d, command, 1);
      forall k | 1 <= k <= |e.applied| - base
        ensures FromBack(e.order, k) == FromBack(e.applied, k).commandId
      {
        StoreShiftsQueue(behaviour, capacity, d, command, k);
        if k >= 2 {
          assert FromBack(e.applied, k) == FromBack(d.applied, k - 1);
        }
      }
    }
  }

  lemma RecentIdsAreDistinct(behaviour: Behaviour, capacity: nat, e: Device, base: nat, i: nat, j: nat)
    requires Valid(behaviour, capacity, e) && RecentAreCached(capacity, e, base)
    requires base <= i < j < |e.applied| <= base + capacity
    ensures e.applied[i].commandId != e.applied[j].commandId
  {
    var n := |e.applied|;
    assert FromBack(e.order, n - i) == FromBack(e.applied, n - i).commandId;
    assert FromBack(e.order, n - j) == FromBack(e.applied, n - j).commandId;
  }

  lemma RunKeepsRecentCached(behaviour: Behaviour, capacity: nat, d: Device, commands: seq<Command>)
    requires Valid(behaviour, capacity, d)
    ensures var e := Run(behaviour, capacity, d, commands);
            RecentAreCached(capacity, e, |d.applied|) && d.applied <= e.applied
    decreases |commands|
  {
    if commands != [] {
      var last := |commands| - 1;
      RunKeepsRecentCached(behaviour, capacity, d, commands[..last]);
      ProcessKeepsRecentCached(
        behaviour, capacity, Run(behaviour, capacity, d, commands[..last]), |d.applied|, commands[last]);
    }
  }

  /** Exactly-once-or-less in a window: as long as at most `capacity` commands are executed, no id is executed twice,
      whatever was delivered, in whatever order and however often. */
  lemma NoIdAppliedTwiceInWindow(
      behaviour: Behaviour, capacity: nat, d: Device, commands: seq<Command>, i: nat, j: nat)
    requires Valid(behaviour, capacity, d)
    requires |d.applied| <= i < j < |Run(behaviour, capacity, d, commands).applied| <= |d.applied| + capacity
    ensures var e := Run(behaviour, capacity, d, commands);
            e.applied[i].commandId != e.applied[j].commandId
  {
    RunKeepsRecentCached(behaviour, capacity, d, commands);
    RecentIdsAreDistinct(behaviour, capacity, Run(behaviour, capacity, d, commands), |d.applied|, i, j);
  }
}
