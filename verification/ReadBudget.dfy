/** The expansion cap on archive streams: a reader that fails once its source yields more than
    the budget. */
module ReadBudget {
  import opened Wrappers

  const MAX_U64: nat := 0xFFFF_FFFF_FFFF_FFFF

  datatype Budget = Budget(remaining: nat, consumed: nat)

  predicate Valid(b: Budget) { b.remaining + b.consumed <= MAX_U64 }

  /** How much a read asks of its source: one byte beyond the budget, so that the end of the
      stream can be told from a stream that goes on. */
  function Request(b: Budget, capacity: nat): nat {
    var request := if b.remaining == MAX_U64 then MAX_U64 else b.remaining + 1;
    if request < capacity then request else capacity
  }

  /** Accounting for `count` bytes received; `None` is the "expanded archive limit" error, which
      leaves the budget as it was. */
  function Settle(b: Budget, count: nat): (r: Option<Budget>)
    ensures r.Some? <==> count <= b.remaining
    ensures r.Some? ==>
      r.value.consumed + r.value.remaining == b.consumed + b.remaining && r.value.consumed == b.consumed + count
  {
    if count > b.remaining then None else Some(Budget(b.remaining - count, b.consumed + count))
  }

  /** A source with `left` bytes to go may return any non-empty part of what is asked for. */
  predicate MayReturn(left: nat, request: nat, count: nat) {
    count <= request && count <= left && (count == 0 ==> request == 0 || left == 0)
  }

  /** A stream behind a budget. */
  class BudgetReader {
    var left: nat
    var budget: Budget

    /** `count` is what the source returned. */
    method Read(capacity: nat) returns (r: Option<nat>, ghost count: nat)
      modifies this
      ensures MayReturn(old(left), Request(old(budget), capacity), count) && left == old(left) - count
      ensures if count <= old(budget).remaining
              then r == Some(count) && Some(budget) == Settle(old(budget), count)
              else r.None? && budget == old(budget)
    {
      if capacity == 0 {
        return Some(0), 0;
      }
      var received: nat := *;
      if !MayReturn(left, Request(budget, capacity), received) {
        received := if Request(budget, capacity) < left then Request(budget, capacity) else left;
      }
      count := received;
      left := left - received;
      var settled := Settle(budget, received);
      if settled.None? {
        return None, count;
      }
      budget := settled.value;
      r := Some(received);
    }

    /** `drain_expanded_stream`: reads to the end in 64 KiB pieces. */
    method Drain() returns (ok: bool)
      requires Valid(budget)
      modifies this
      ensures ok <==> old(left) <= old(budget).remaining
      ensures ok ==> left == 0 && budget.consumed == old(budget).consumed + old(left)
      ensures budget.consumed + budget.remaining == old(budget).consumed + old(budget).remaining
    {
      while true
        invariant budget.consumed + left == old(budget).consumed + old(left)
        invariant budget.consumed + budget.remaining == old(budget).consumed + old(budget).remaining
        decreases left
      {
        var count, _ := Read(64 * 1024);
        if count.None? {
          return false;
        }
        if count.value == 0 {
          return true;
        }
      }
    }
  }

  /******* Any caller *******/

  /** One read as a caller makes it: its buffer size, and how much the source returned. */
  datatype Attempt = Attempt(capacity: nat, count: nat)

  datatype Stream = Reading(left: nat, budget: Budget) | AtEnd(budget: Budget) | Stopped(budget: Budget)

  /** A caller that stops at the first error and at the end of the stream. */
  function ReadOnce(s: Stream, a: Attempt): Stream
    requires Possible(s, a)
  {
    if !s.Reading? then s
    else
      var settled := Settle(s.budget, a.count);
      if settled.None? then Stopped(s.budget)
      else if a.count == 0 then AtEnd(s.budget)
      else Reading(s.left - a.count, settled.value)
  }

  predicate Possible(s: Stream, a: Attempt) {
    s.Reading? ==> a.capacity > 0 && MayReturn(s.left, Request(s.budget, a.capacity), a.count)
  }

  function ReadMany(s: Stream, attempts: seq<Attempt>): Stream
    requires AllPossible(s, attempts)
    decreases |attempts|
  {
    if attempts == [] then s else ReadMany(ReadOnce(s, attempts[0]), attempts[1..])
  }

  predicate AllPossible(s: Stream, attempts: seq<Attempt>)
    decreases |attempts|
  {
    attempts == [] || (Possible(s, attempts[0]) && AllPossible(ReadOnce(s, attempts[0]), attempts[1..]))
  }

  /** The budget is exact.  Whatever buffer sizes the caller uses and however short the reads
      are, a stream of at most the limit is read to its end with every byte accounted for, and a
      longer one ends in an error after no more than the limit was delivered. */
  lemma {:induction false} BudgetIsExact(left: nat, budget: Budget, attempts: seq<Attempt>)
    requires Valid(budget) && AllPossible(Reading(left, budget), attempts)
    ensures var end := ReadMany(Reading(left, budget), attempts);
      && end.budget.consumed + end.budget.remaining == budget.consumed + budget.remaining
      && end.budget.consumed <= budget.consumed + left
      && (end.AtEnd? ==> left <= budget.remaining && end.budget.consumed == budget.consumed + left)
      && (end.Stopped? ==> left > budget.remaining)
    decreases |attempts|
  {
    if attempts != [] {
      var next := ReadOnce(Reading(left, budget), attempts[0]);
      if next.Reading? {
        BudgetIsExact(next.left, next.budget, attempts[1..]);
      } else {
        StaysPut(next, attempts[1..]);
      }
    }
  }

  lemma {:induction false} StaysPut(s: Stream, attempts: seq<Attempt>)
    requires !s.Reading? && AllPossible(s, attempts)
    ensures ReadMany(s, attempts) == s
    decreases |attempts|
  {
    if attempts != [] {
      StaysPut(s, attempts[1..]);
    }
  }

  /** Every caller gets to an end: each read makes progress. */
  lemma {:induction false} ReadingEnds(left: nat, budget: Budget, attempts: seq<Attempt>)
    requires AllPossible(Reading(left, budget), attempts) && |attempts| > left
    ensures !ReadMany(Reading(left, budget), attempts).Reading?
    decreases |attempts|
  {
    var next := ReadOnce(Reading(left, budget), attempts[0]);
    if next.Reading? {
      ReadingEnds(next.left, next.budget, attempts[1..]);
    } else {
      StaysPut(next, attempts[1..]);
    }
  }

  /******* Two caps around one source *******/

  /** A budget around a budget; `NestedOnce` is one read through both. */
  datatype Nested = Nested(stream: Stream, outer: Budget)

  /** The outer cap asks the inner one, which asks the source. */
  predicate NestedPossible(s: Nested, a: Attempt) {
    s.stream.Reading? ==>
      a.capacity > 0 && MayReturn(s.stream.left, Request(s.stream.budget, Request(s.outer, a.capacity)), a.count)
  }

  /** An error of either cap reaches the caller; the outer budget is charged only for what the
      inner one let through. */
  function NestedOnce(s: Nested, a: Attempt): Nested
    requires NestedPossible(s, a)
  {
    if !s.stream.Reading? then s
    else
      var inner := Settle(s.stream.budget, a.count);
      if inner.None? then s.(stream := Stopped(s.stream.budget))
      else
        var outer := Settle(s.outer, a.count);
        if outer.None? then s.(stream := Stopped(inner.value))
        else if a.count == 0 then Nested(AtEnd(inner.value), outer.value)
        else Nested(Reading(s.stream.left - a.count, inner.value), outer.value)
  }

  predicate AllNestedPossible(s: Nested, attempts: seq<Attempt>)
    decreases |attempts|
  {
    attempts == [] || (NestedPossible(s, attempts[0]) && AllNestedPossible(NestedOnce(s, attempts[0]), attempts[1..]))
  }

  function NestedMany(s: Nested, attempts: seq<Attempt>): Nested
    requires AllNestedPossible(s, attempts)
    decreases |attempts|
  {
    if attempts == [] then s else NestedMany(NestedOnce(s, attempts[0]), attempts[1..])
  }

  /** Two equal nested caps behave as one: the source can be read in exactly the same ways, and
      every run ends the same, with both budgets charged alike. */
  lemma {:induction false} NestedBudgetsAreOne(s: Stream, attempts: seq<Attempt>)
    ensures AllNestedPossible(Nested(s, s.budget), attempts) <==> AllPossible(s, attempts)
    ensures AllPossible(s, attempts) ==>
      var end := ReadMany(s, attempts);
      NestedMany(Nested(s, s.budget), attempts) == Nested(end, end.budget)
    decreases |attempts|
  {
    if attempts != [] {
      var nested := Nested(s, s.budget);
      assert NestedPossible(nested, attempts[0]) <==> Possible(s, attempts[0]);
      if Possible(s, attempts[0]) {
        var next := ReadOnce(s, attempts[0]);
        assert NestedOnce(nested, attempts[0]) == Nested(next, next.budget);
        NestedBudgetsAreOne(next, attempts[1..]);
      }
    }
  }

  /** The error is not remembered: a caller that reads again after it sees the end of the stream
      exactly when the rejected read had emptied the source. */
  lemma RetryAfterError(left: nat, budget: Budget, capacity: nat, count: nat)
    requires MayReturn(left, Request(budget, capacity), count) && Settle(budget, count).None?
    requires capacity > 0
    ensures count == budget.remaining + 1
    ensures MayReturn(left - count, Request(budget, capacity), 0) <==> left == budget.remaining + 1
  {
  }
}
