/** The one-shot password broker: an accept loop and its connection workers, sharing atomics. */
module Broker {

  const MAX_IN_FLIGHT: nat := 8

  /** The accept loop: testing `open()`, accepting, having counted a connection, or over.
      `SawUnserved` and `SawUnstopped` are the points between the loads that `open()` makes. */
  datatype AcceptPc = Polling | SawUnserved | SawUnstopped | Accepting | Counted(previous: int) | Over

  /** A connection worker.  `Unserved`, `Unstopped` and `InTime` are the points after each load
      that `open()` makes, so that other threads can act between them. */
  datatype WorkerPc = ReadingToken | TokenRead | Unserved | Unstopped | InTime | Leaving

  datatype Worker = Worker(pc: WorkerPc, rightToken: bool)

  /** `granted` lists the workers that were handed the password, with the token they showed. */
  datatype State = State(
    served: bool, stopped: bool, expired: bool, inFlight: int,
    accept: AcceptPc, workers: map<nat, Worker>, started: nat, granted: seq<Worker>)

  /** What a connection sends within its time budget. */
  datatype Presented = Incomplete | WrongToken | RightToken

  datatype Event =
    | Poll                             // the accept loop makes the next load of open()
    | Ignore                           // accept() fails or returns a peer that is not local
    | Count                            // a local connection: fetch_add on the in-flight counter
    | Dispatch(spawned: bool)          // too many in flight, or the worker thread starts, or not
    | Work(id: nat, token: Presented)  // a worker's next step; `token` matters to its read only
    | Expire                           // the lifetime passes
    | Stop                             // the broker is dropped

  predicate Enabled(s: State, e: Event) {
    match e
    case Poll => s.accept in {Polling, SawUnserved, SawUnstopped}
    case Ignore => s.accept == Accepting
    case Count => s.accept == Accepting
    case Dispatch(_) => s.accept.Counted?
    case Work(id, _) => id in s.workers
    case Expire => true
    case Stop => true
  }

  function SetPc(s: State, id: nat, pc: WorkerPc): State
    requires id in s.workers
  {
    s.(workers := s.workers[id := s.workers[id].(pc := pc)])
  }

  function StepWorker(s: State, id: nat, token: Presented): State
    requires id in s.workers
  {
    var w := s.workers[id];
    match w.pc
    case ReadingToken =>
      if token.Incomplete? then SetPc(s, id, Leaving)
      else s.(workers := s.workers[id := Worker(TokenRead, token.RightToken?)])
    case TokenRead => SetPc(s, id, if w.rightToken && !s.served then Unserved else Leaving)
    case Unserved => SetPc(s, id, if s.stopped then Leaving else Unstopped)
    case Unstopped => SetPc(s, id, if s.expired then Leaving else InTime)
    case InTime =>
      // compare_exchange(false, true)
      if s.served then SetPc(s, id, Leaving)
      else SetPc(s, id, Leaving).(served := true, granted := s.granted + [w])
    case Leaving => s.(workers := s.workers - {id}, inFlight := s.inFlight - 1)
  }

  function Step(s: State, e: Event): State
    requires Enabled(s, e)
  {
    match e
    case Poll =>
      var closed := if s.accept == Polling then s.served else if s.accept == SawUnserved then s.stopped else s.expired;
      s.(accept :=
           if closed then Over
           else if s.accept == Polling then SawUnserved
           else if s.accept == SawUnserved then SawUnstopped
           else Accepting)
    case Ignore => s.(accept := Polling)
    case Count => s.(inFlight := s.inFlight + 1, accept := Counted(s.inFlight))
    case Dispatch(spawned) =>
      if s.accept.previous >= MAX_IN_FLIGHT || !spawned then s.(inFlight := s.inFlight - 1, accept := Polling)
      else
        s.(accept := Polling, started := s.started + 1,
           workers := s.workers[s.started := Worker(ReadingToken, false)])
    case Work(id, token) => StepWorker(s, id, token)
    case Expire => s.(expired := true)
    case Stop => s.(stopped := true)
  }

  /** Counter, workers and grants fit together. */
  predicate Inv(s: State) {
    && s.inFlight == |s.workers| + (if s.accept.Counted? then 1 else 0)
    && |s.workers| <= MAX_IN_FLIGHT
    && (s.accept.Counted? ==> |s.workers| <= s.accept.previous)
    && (forall id | id in s.workers :: id < s.started)
    && (forall id | id in s.workers :: s.workers[id].pc in {Unserved, Unstopped, InTime} ==> s.workers[id].rightToken)
    && |s.granted| == (if s.served then 1 else 0)
    && (forall i | 0 <= i < |s.granted| :: s.granted[i].rightToken)
  }

  predicate Initial(s: State) { s == State(false, false, false, 0, Polling, map[], 0, []) }

  /** Changing one worker in place keeps counter and counts. */
  lemma UpdateKeepsInv(s: State, id: nat, w: Worker)
    requires Inv(s) && id in s.workers
    requires w.pc in {Unserved, Unstopped, InTime} ==> w.rightToken
    ensures Inv(s.(workers := s.workers[id := w]))
  {
    assert s.workers[id := w].Keys == s.workers.Keys;
  }

  lemma WorkerKeepsInv(s: State, id: nat, token: Presented)
    requires Inv(s) && id in s.workers
    ensures Inv(StepWorker(s, id, token))
  {
    assert id in s.workers.Keys && |s.workers.Keys| == |s.workers|;
    var w := s.workers[id];
    match w.pc
    case ReadingToken =>
      UpdateKeepsInv(s, id, if token.Incomplete? then w.(pc := Leaving) else Worker(TokenRead, token.RightToken?));
    case TokenRead => UpdateKeepsInv(s, id, w.(pc := if w.rightToken && !s.served then Unserved else Leaving));
    case Unserved => UpdateKeepsInv(s, id, w.(pc := if s.stopped then Leaving else Unstopped));
    case Unstopped => UpdateKeepsInv(s, id, w.(pc := if s.expired then Leaving else InTime));
    case InTime => UpdateKeepsInv(s, id, w.(pc := Leaving));
    case Leaving => assert (s.workers - {id}).Keys == s.workers.Keys - {id};
  }

  lemma SpawnKeepsInv(s: State)
    requires Inv(s) && s.accept.Counted? && s.accept.previous < MAX_IN_FLIGHT
    ensures Inv(Step(s, Dispatch(true)))
  {
    var t := Step(s, Dispatch(true));
    assert s.started !in s.workers;
    assert t.workers.Keys == s.workers.Keys + {s.started};
    assert |t.workers| == |t.workers.Keys| == |s.workers.Keys| + 1 == |s.workers| + 1;
  }

  lemma StepKeepsInv(s: State, e: Event)
    requires Inv(s) && Enabled(s, e)
    ensures Inv(Step(s, e))
  {
    if e.Work? {
      WorkerKeepsInv(s, e.id, e.token);
    } else if e == Dispatch(true) && s.accept.previous < MAX_IN_FLIGHT {
      SpawnKeepsInv(s);
    }
  }

  /** An interleaving: each event can happen when its turn comes. */
  predicate CanHappen(s: State, events: seq<Event>)
    decreases |events|
  {
    events == [] ||
    (Enabled(s, events[0]) && CanHappen(Step(s, events[0]), events[1..]))
  }

  function Run(s: State, events: seq<Event>): State
    requires CanHappen(s, events)
    decreases |events|
  {
    if events == [] then s else Run(Step(s, events[0]), events[1..])
  }

  lemma {:induction false} RunKeepsInv(s: State, events: seq<Event>)
    requires Inv(s) && CanHappen(s, events)
    ensures Inv(Run(s, events))
    decreases |events|
  {
    if events != [] {
      StepKeepsInv(s, events[0]);
      RunKeepsInv(Step(s, events[0]), events[1..]);
    }
  }

  /** Over every interleaving of the accept loop, the workers, expiry and drop: the password is
      handed out at most once and only for the exact token, never more than eight workers are
      alive, and the counter is the live workers plus a connection just being counted. */
  lemma AtMostOnce(s: State, events: seq<Event>)
    requires Initial(s) && CanHappen(s, events)
    ensures var t := Run(s, events);
      && |t.granted| <= 1 && (forall i | 0 <= i < |t.granted| :: t.granted[i].rightToken)
      && |t.workers| <= MAX_IN_FLIGHT
      && t.inFlight == |t.workers| + (if t.accept.Counted? then 1 else 0)
  {
    RunKeepsInv(s, events);
  }

  /** Nothing but a worker with the right token ever uses the password up. */
  lemma OnlyTheTokenConsumes(s: State, e: Event)
    requires Inv(s) && Enabled(s, e) && !s.served && Step(s, e).served
    ensures e.Work? && s.workers[e.id].pc == InTime && s.workers[e.id].rightToken
    ensures Step(s, e).granted == [s.workers[e.id]]
  {
  }

  /******* The accept loop ends *******/

  predicate IsClosed(s: State) { s.served || s.stopped || s.expired }

  /** How many steps the accept loop of a closed broker has left at most. */
  function StepsLeft(s: State): nat
    requires IsClosed(s)
  {
    var fromTheTop := if s.served then 1 else if s.stopped then 2 else 3;
    match s.accept
    case Over => 0
    case Polling => fromTheTop
    case SawUnserved => if s.stopped then 1 else if s.expired then 2 else 4 + fromTheTop
    case SawUnstopped => if s.expired then 1 else 3 + fromTheTop
    case Accepting => 2 + fromTheTop
    case Counted(_) => 1 + fromTheTop
  }

  predicate IsLoopStep(e: Event) { e.Poll? || e.Ignore? || e.Count? || e.Dispatch? }

  /** Once the password is served, the broker dropped or its lifetime over, every step of the
      accept loop brings it nearer its end, and nothing else that happens takes it further away. */
  lemma ClosedLoopEnds(s: State, e: Event)
    requires IsClosed(s) && Enabled(s, e)
    ensures IsClosed(Step(s, e)) && StepsLeft(Step(s, e)) <= StepsLeft(s)
    ensures IsLoopStep(e) ==> StepsLeft(Step(s, e)) < StepsLeft(s)
    ensures StepsLeft(s) == 0 <==> s.accept == Over
  {
  }

  /** While nothing of that has happened, the loop goes on accepting. */
  lemma OpenLoopGoesOn(s: State, e: Event)
    requires !IsClosed(s) && s.accept != Over && Enabled(s, e) && IsLoopStep(e)
    ensures Step(s, e).accept != Over && !IsClosed(Step(s, e))
    ensures forall end | end in {Expire, Stop} :: Enabled(s, end) && IsClosed(Step(s, end))
  {
  }

  /** A connection beyond the eighth, or one whose thread cannot start, is turned away; any other
      gets a worker of its own that has shown nothing yet. */
  lemma NinthIsTurnedAway(s: State, spawned: bool)
    requires Inv(s) && s.accept.Counted?
    ensures s.started !in s.workers
    ensures Step(s, Dispatch(spawned)) ==
      if s.accept.previous < 8 && spawned
      then s.(accept := Polling, started := s.started + 1, workers := s.workers[s.started := Worker(ReadingToken, false)])
      else s.(accept := Polling, inFlight := |s.workers|)
  {
  }

  /** A worker with the right token takes the password if nothing closes the broker before it has
      made its four tests. */
  lemma TokenIsServed(s: State, id: nat)
    requires !IsClosed(s) && id in s.workers && s.workers[id].pc == ReadingToken
    ensures var w := Work(id, RightToken);
      CanHappen(s, [w] + ([w] + ([w] + ([w] + ([w] + []))))) &&
      Run(s, [w] + ([w] + ([w] + ([w] + ([w] + []))))).granted == s.granted + [Worker(InTime, true)]
  {
    var w := Work(id, RightToken);
    var s1 := s.(workers := s.workers[id := Worker(TokenRead, true)]);
    var s2 := s.(workers := s.workers[id := Worker(Unserved, true)]);
    var s3 := s.(workers := s.workers[id := Worker(Unstopped, true)]);
    var s4 := s.(workers := s.workers[id := Worker(InTime, true)]);
    assert Step(s, w) == s1 && Step(s1, w) == s2 && Step(s2, w) == s3 && Step(s3, w) == s4;
    Prepend(s4, w, []);
    Prepend(s3, w, [w] + []);
    Prepend(s2, w, [w] + ([w] + []));
    Prepend(s1, w, [w] + ([w] + ([w] + [])));
    Prepend(s, w, [w] + ([w] + ([w] + ([w] + []))));
  }

  /******* After the broker is dropped *******/

  /** A worker that has already seen `stopped` unset, and can still take the password. */
  predicate CanStillTake(s: State, w: Worker) { w.pc == InTime || (w.pc == Unstopped && !s.expired) }

  /** The password is gone, or no worker is in a position to take it any more. */
  predicate Settled(s: State) {
    s.stopped && (s.served || forall id | id in s.workers :: !CanStillTake(s, s.workers[id]))
  }

  lemma SettledStep(s: State, e: Event)
    requires Inv(s) && Settled(s) && Enabled(s, e)
    ensures Settled(Step(s, e)) && Step(s, e).granted == s.granted
  {
    if e.Work? && !s.served {
      assert !CanStillTake(s, s.workers[e.id]);
    }
  }

  lemma {:induction false} NothingServedOnceSettled(s: State, events: seq<Event>)
    requires Inv(s) && Settled(s) && CanHappen(s, events)
    ensures Run(s, events).granted == s.granted
    decreases |events|
  {
    if events != [] {
      SettledStep(s, events[0]);
      StepKeepsInv(s, events[0]);
      NothingServedOnceSettled(Step(s, events[0]), events[1..]);
    }
  }

  /** A worker past the stop test takes the password although the broker is stopped. */
  lemma TakenAfterStop(s: State, id: nat) returns (events: seq<Event>)
    requires Inv(s) && s.stopped && !s.served && id in s.workers && CanStillTake(s, s.workers[id])
    ensures CanHappen(s, events) && Run(s, events).granted == s.granted + [s.workers[id].(pc := InTime)]
  {
    var e := Work(id, Incomplete);
    if s.workers[id].pc == InTime {
      Prepend(s, e, []);
      events := [e] + [];
    } else {
      Prepend(Step(s, e), e, []);
      Prepend(s, e, [e] + []);
      events := [e] + ([e] + []);
    }
  }

  /** "Never serves after drop" is false, because test and exchange are separate steps; it holds
      exactly when, at the drop, the password is gone or every worker still has the stop test
      before it or has seen the lifetime pass. */
  lemma ServesAfterStopExactlyWhenUnsettled(s: State)
    requires Inv(s) && s.stopped
    ensures Settled(s) <==> forall events | CanHappen(s, events) :: Run(s, events).granted == s.granted
  {
    if Settled(s) {
      forall events | CanHappen(s, events) ensures Run(s, events).granted == s.granted {
        NothingServedOnceSettled(s, events);
      }
    } else {
      var id :| id in s.workers && CanStillTake(s, s.workers[id]);
      var events := TakenAfterStop(s, id);
      assert |Run(s, events).granted| == |s.granted| + 1;
    }
  }

  /** The accept loop of an open broker gets to accept. */
  lemma AcceptsWhileOpen(s: State, rest: seq<Event>)
    requires s.accept == Polling && !s.served && !s.stopped && !s.expired
    requires CanHappen(s.(accept := Accepting), rest)
    ensures CanHappen(s, [Poll, Poll, Poll] + rest)
    ensures Run(s, [Poll, Poll, Poll] + rest) == Run(s.(accept := Accepting), rest)
  {
    Prepend(s.(accept := SawUnstopped), Poll, rest);
    Prepend(s.(accept := SawUnserved), Poll, [Poll] + rest);
    Prepend(s, Poll, [Poll] + ([Poll] + rest));
    assert [Poll] + ([Poll] + ([Poll] + rest)) == [Poll, Poll, Poll] + rest;
  }

  /** A worker with the right token passes the stop test, and then the broker is dropped. */
  lemma OvertakenByDrop(s: State)
    requires 0 in s.workers && s.workers[0].pc == ReadingToken && !s.served && !s.stopped
    ensures var w := Work(0, RightToken); var t := s.(workers := s.workers[0 := Worker(Unstopped, true)], stopped := true);
      CanHappen(s, [w, w, w, Stop]) && Run(s, [w, w, w, Stop]) == t
  {
    var w := Work(0, RightToken);
    var s1 := s.(workers := s.workers[0 := Worker(TokenRead, true)]);
    var s2 := s.(workers := s.workers[0 := Worker(Unserved, true)]);
    var s3 := s.(workers := s.workers[0 := Worker(Unstopped, true)]);
    assert Step(s, w) == s1 && Step(s1, w) == s2 && Step(s2, w) == s3;
    Prepend(s3, Stop, []);
    Prepend(s2, w, [Stop]);
    Prepend(s1, w, [w, Stop]);
    Prepend(s, w, [w, w, Stop]);
    assert [w] + [w, w, Stop] == [w, w, w, Stop];
  }

  /** An ordinary connection, overtaken by the drop between its test and its exchange, is still
      in a position to be served. */
  lemma DropCanOvertakeAWorker(s: State)
    requires Initial(s)
    ensures var w := Work(0, RightToken);
      var events := [Poll, Poll, Poll] + [Count, Dispatch(true), w, w, w, Stop];
      CanHappen(s, events) && Run(s, events).stopped && !Settled(Run(s, events))
  {
    var w := Work(0, RightToken);
    var s1 := s.(accept := Accepting);
    var s2 := Step(s1, Count);
    var s3 := Step(s2, Dispatch(true));
    OvertakenByDrop(s3);
    Prepend(s2, Dispatch(true), [w, w, w, Stop]);
    Prepend(s1, Count, [Dispatch(true), w, w, w, Stop]);
    AcceptsWhileOpen(s, [Count, Dispatch(true), w, w, w, Stop]);
    var t := s3.(workers := s3.workers[0 := Worker(Unstopped, true)], stopped := true);
    assert CanStillTake(t, t.workers[0]);
  }

  lemma Prepend(s: State, e: Event, rest: seq<Event>)
    requires Enabled(s, e) && CanHappen(Step(s, e), rest)
    ensures CanHappen(s, [e] + rest) && Run(s, [e] + rest) == Run(Step(s, e), rest)
  {
    assert ([e] + rest)[1..] == rest;
  }

  /******* Token comparison *******/

  /** The fold of `constant_time_equal`. */
  function Difference(left: seq<bv8>, right: seq<bv8>): bv8
    requires |left| == |right|
  {
    if left == [] then 0 else Difference(left[..|left| - 1], right[..|left| - 1]) | (left[|left| - 1] ^ right[|left| - 1])
  }

  predicate ConstantTimeEqual(left: seq<bv8>, right: seq<bv8>) {
    |left| == |right| && Difference(left, right) == 0
  }

  lemma {:induction false} ConstantTimeEqualIsEquality(left: seq<bv8>, right: seq<bv8>)
    ensures ConstantTimeEqual(left, right) <==> left == right
  {
    if |left| == |right| && left != [] {
      var n := |left| - 1;
      ConstantTimeEqualIsEquality(left[..n], right[..n]);
      OrIsZero(Difference(left[..n], right[..n]), left[n], right[n]);
      assert left == left[..n] + [left[n]] && right == right[..n] + [right[n]];
    }
  }

  lemma OrIsZero(d: bv8, a: bv8, b: bv8)
    ensures d | (a ^ b) == 0 <==> d == 0 && a == b
  {
  }
}
