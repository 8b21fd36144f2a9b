/** The two command-id allocators: the executor's application ids and the bridge's STOP ids. */
module CommandIds {
  import opened Common
  import opened CanProtocol

  /** One cyclic range of ids. */
  datatype Range = Range(first: uint16, last: uint16)

  const APPLICATION := Range(1, APPLICATION_COMMAND_ID_MAX)
  const STOP := Range(STOP_COMMAND_ID_MIN, 0xFFFF)

  ghost predicate Proper(range: Range) {
    1 <= range.first <= range.last
  }

  function Size(range: Range): int {
    range.last - range.first + 1
  }

  /** The `k`-th id issued after the counter stood at `next`. */
  function IssuedId(range: Range, next: uint16, k: nat): (id: int)
    requires Proper(range)
  {
    var start := if range.first <= next <= range.last then next else range.first;
    range.first + (start - range.first + k) % Size(range)
  }

  lemma WrapOnce(id: uint16, k: nat)
    requires 1 <= id <= APPLICATION_COMMAND_ID_MAX
    ensures IssuedId(APPLICATION, id + 1, k) == IssuedId(APPLICATION, id, k + 1)
  {
    if id == APPLICATION_COMMAND_ID_MAX {
      assert (Size(APPLICATION) + k) % Size(APPLICATION) == k % Size(APPLICATION);
    }
  }

  /** The executor's counter: checked before use, incremented after. */
  class CommandIdAllocator {
    var next: uint16

    constructor (initial: uint16)
      requires 1 <= initial <= APPLICATION_COMMAND_ID_MAX
      ensures next == initial
    {
      next := initial;
    }

    method Allocate() returns (id: uint16)
      modifies this
      ensures id == IssuedId(APPLICATION, old(next), 0)
      ensures forall k: nat :: IssuedId(APPLICATION, next, k) == IssuedId(APPLICATION, old(next), k + 1)
    {
      if next == 0 || next > APPLICATION_COMMAND_ID_MAX {
        next := 1;
      }
      id := next;
      next := next + 1;
      forall k: nat
        ensures IssuedId(APPLICATION, next, k) == IssuedId(APPLICATION, old(next), k + 1)
      {
        WrapOnce(id, k);
      }
    }
  }

  /** The bridge's counter is used first, then advanced, wrapping from 0xFFFF to 0x8000. */
  function NextStopId(id: uint16): (next: uint16)
    requires STOP_COMMAND_ID_MIN <= id
  {
    if id == 0xFFFF then STOP_COMMAND_ID_MIN else id + 1
  }

  lemma NextStopIdAdvances(id: uint16, k: nat)
    requires STOP_COMMAND_ID_MIN <= id
    ensures IssuedId(STOP, id, 0) == id
    ensures IssuedId(STOP, NextStopId(id), k) == IssuedId(STOP, id, k + 1)
  {
    if id == 0xFFFF {
      assert (Size(STOP) + k) % Size(STOP) == k % Size(STOP);
    }
  }

  /** No multiple of `n` but zero lies strictly between `-n` and `n`. */
  lemma MultiplesAreSpaced(n: int, q: int)
    requires n > 0
    ensures q == 0 || n * q >= n || n * q <= -n
  {
    if q > 0 {
      assert n * (q - 1) >= 0;
    } else if q < 0 {
      assert n * (-q - 1) >= 0;
    }
  }

  lemma ModOfShift(n: int, a: int, d: int)
    requires n > 0
    ensures a % n == (a + d) % n <==> exists q :: d == n * q
  {
    var x, y := a / n, (a + d) / n;
    assert a == n * x + a % n && a + d == n * y + (a + d) % n;
    if a % n == (a + d) % n {
      assert d == n * (y - x);
    } else if q :| d == n * q {
      assert (a + d) % n - a % n == n * (q - y + x);
      MultiplesAreSpaced(n, q - y + x);
    }
  }

  /** Every issued id stays in its range, and two issues carry the same id exactly when a whole number of cycles
      lies between them. */
  lemma SameIdExactlyAfterWholeCycles(range: Range, next: uint16, i: nat, j: nat)
    requires Proper(range)
    ensures range.first <= IssuedId(range, next, i) <= range.last
    ensures IssuedId(range, next, i) == IssuedId(range, next, j) <==> exists q :: j - i == Size(range) * q
  {
    var start := if range.first <= next <= range.last then next else range.first;
    ModOfShift(Size(range), start - range.first + i, j - i);
  }

  /** Any window of fewer issues than the range has ids contains no id twice. */
  lemma IssuedIdsDistinct(range: Range, next: uint16, i: nat, j: nat)
    requires Proper(range)
    ensures range.first <= IssuedId(range, next, i) <= range.last
    ensures i < j < i + Size(range) ==> IssuedId(range, next, i) != IssuedId(range, next, j)
  {
    SameIdExactlyAfterWholeCycles(range, next, i, j);
    if i < j < i + Size(range) && IssuedId(range, next, i) == IssuedId(range, next, j) {
      var q :| j - i == Size(range) * q;
      MultiplesAreSpaced(Size(range), q);
    }
  }

  /** A response issued for the `i`-th application command cannot answer the `j`-th one inside the window,
      and never answers a STOP. */
  lemma StaleResponseIsUnmatched(next: uint16, nextStop: uint16, i: nat, j: nat, k: nat, response: Response)
    requires response.commandId == IssuedId(APPLICATION, next, i)
    ensures i < j < i + 32767 ==> response.commandId != IssuedId(APPLICATION, next, j)
    ensures response.commandId != IssuedId(STOP, nextStop, k)
  {
    IssuedIdsDistinct(APPLICATION, next, i, j);
    IssuedIdsDistinct(STOP, nextStop, k, k);
  }

  lemma StaleStopResponseIsUnmatched(next: uint16, nextStop: uint16, i: nat, j: nat, k: nat, response: Response)
    requires response.commandId == IssuedId(STOP, nextStop, i)
    ensures i < j < i + 32768 ==> response.commandId != IssuedId(STOP, nextStop, j)
    ensures response.commandId != IssuedId(APPLICATION, next, k)
  {
    IssuedIdsDistinct(STOP, nextStop, i, j);
    IssuedIdsDistinct(APPLICATION, next, k, k);
  }
}
