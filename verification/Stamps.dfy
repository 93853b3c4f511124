// Write stamps (next_write_ns of core/tabayyun-core/src/cache.rs) as a concurrent protocol: any
// number of threads share one atomic counter and interleave their steps. Loads, and the value a
// failed exchange returns, may be any value the counter has ever held, and an exchange may fail
// for no reason, so this is no stronger than the source's relaxed orderings.
module Stamps {
  import opened Int64
  import S = Store

  // Where one call of next_write_ns stands, with its clock reading and the value it last saw.
  datatype Progress = Begun(at: nat, now: int) | Trying(at: nat, now: int, prev: int)

  // A finished call: the steps at which it began and returned, its clock reading and its stamp.
  datatype Call = Call(begun: nat, returned: nat, now: int, stamp: int)

  // `counter` lists every value of the atomic in its modification order; the last one is current.
  datatype State = State(time: nat, counter: seq<int>, pending: map<nat, Progress>, calls: seq<Call>)

  datatype Action =
    | Begin(thread: nat, now: int)
    | Load(thread: nat, seen: int)
    | Fail(thread: nat, seen: int)
    | Exchange(thread: nat)

  function Current(s: State): int
    requires s.counter != []
  {
    s.counter[|s.counter| - 1]
  }

  // prev + 1, which wraps in a release build.
  function Increment(prev: int): int {
    if prev == MAX then MIN else prev + 1
  }

  function NextStamp(now: int, prev: int): int {
    Max(now, Increment(prev))
  }

  ghost predicate Init(s: State) {
    s == State(0, [0], map[], [])
  }

  ghost predicate Next(s: State, a: Action, s': State) {
    && s.counter != []
    && match a
       case Begin(t, now) =>
         && t !in s.pending && InRange(now)
         && s' == s.(time := s.time + 1, pending := s.pending[t := Begun(s.time, now)])
       case Load(t, seen) =>
         && t in s.pending && s.pending[t].Begun? && seen in s.counter
         && s' == s.(time := s.time + 1, pending := s.pending[t := Trying(s.pending[t].at, s.pending[t].now, seen)])
       case Fail(t, seen) =>
         && t in s.pending && s.pending[t].Trying? && seen in s.counter
         && s' == s.(time := s.time + 1, pending := s.pending[t := s.pending[t].(prev := seen)])
       case Exchange(t) =>
         && t in s.pending && s.pending[t].Trying? && s.pending[t].prev == Current(s)
         && var next := NextStamp(s.pending[t].now, s.pending[t].prev);
            s' == State(s.time + 1, s.counter + [next], s.pending - {t},
                        s.calls + [Call(s.pending[t].at, s.time, s.pending[t].now, next)])
  }

  ghost predicate IsRun(states: seq<State>, actions: seq<Action>) {
    && |states| == |actions| + 1 && Init(states[0])
    && forall i :: 0 <= i < |actions| ==> Next(states[i], actions[i], states[i + 1])
  }

  // ---- One exchange ----------------------------------------------------------------------

  // An exchange raises the counter exactly when the counter has not reached i64::MAX: there the
  // increment wraps.
  lemma ExchangeRaises(s: State, t: nat, s': State)
    requires Next(s, Exchange(t), s') && InRange(Current(s)) && InRange(s.pending[t].now)
    ensures Current(s') > Current(s) <==> Current(s) < MAX
  {
    assert Current(s') == NextStamp(s.pending[t].now, Current(s));
  }

  // ---- Whole runs, for any clock readings -----------------------------------------------------

  // The counter's value before call i stored its stamp.
  function Before(calls: seq<Call>, i: nat): int
    requires i <= |calls|
  {
    if i == 0 then 0 else calls[i - 1].stamp
  }

  // Call i stored its stamp over the one before it.
  predicate Stored(calls: seq<Call>, i: nat)
    requires i < |calls|
  {
    && InRange(calls[i].now) && calls[i].begun < calls[i].returned
    && calls[i].stamp == NextStamp(calls[i].now, Before(calls, i))
  }

  predicate InTurn(calls: seq<Call>) {
    forall i, j :: 0 <= i < j < |calls| ==> calls[i].returned < calls[j].returned
  }

  // The calls are the exchanges in the order they happened.
  ghost predicate Chain(calls: seq<Call>) {
    InTurn(calls) && forall i :: 0 <= i < |calls| ==> Stored(calls, i)
  }

  ghost predicate CounterIs(counter: seq<int>, calls: seq<Call>) {
    && |counter| == |calls| + 1
    && forall i :: 0 <= i <= |calls| ==> counter[i] == Before(calls, i)
  }

  ghost predicate Inv(s: State) {
    && Chain(s.calls) && CounterIs(s.counter, s.calls)
    && (forall i :: 0 <= i < |s.calls| ==> s.calls[i].returned < s.time)
    && (forall t :: t in s.pending ==> s.pending[t].at < s.time && InRange(s.pending[t].now))
  }

  lemma ChainMore(calls: seq<Call>, c: Call)
    requires Chain(calls) && InRange(c.now) && c.begun < c.returned
    requires forall i :: 0 <= i < |calls| ==> calls[i].returned < c.returned
    requires c.stamp == NextStamp(c.now, Before(calls, |calls|))
    ensures Chain(calls + [c])
  {
    hide NextStamp;
    var more := calls + [c];
    forall i | 0 <= i < |more| ensures Stored(more, i) {
      assert i < |calls| ==> Stored(calls, i);
      BeforeMore(calls, c, i);
    }
  }

  lemma BeforeMore(calls: seq<Call>, c: Call, i: nat)
    requires i <= |calls|
    ensures Before(calls + [c], i) == Before(calls, i)
  {
  }

  lemma CounterMore(counter: seq<int>, calls: seq<Call>, c: Call)
    requires CounterIs(counter, calls)
    ensures CounterIs(counter + [c.stamp], calls + [c])
  {
    forall i | 0 <= i <= |calls| + 1 ensures (counter + [c.stamp])[i] == Before(calls + [c], i) {
      if i <= |calls| { BeforeMore(calls, c, i); }
    }
    hide Before;
  }

  lemma ExchangeKeepsInv(s: State, t: nat, s': State)
    requires Next(s, Exchange(t), s') && Inv(s)
    ensures Inv(s')
  {
    var c := s'.calls[|s.calls|];
    assert Current(s) == Before(s.calls, |s.calls|);
    ChainMore(s.calls, c);
    CounterMore(s.counter, s.calls, c);
    hide Chain, CounterIs, NextStamp;
  }

  lemma StepKeepsInv(s: State, a: Action, s': State)
    requires Next(s, a, s') && Inv(s)
    ensures Inv(s')
  {
    if a.Exchange? { ExchangeKeepsInv(s, a.thread, s'); }
  }

  // In every run each finished call took the counter from the stamp of the call before it to its own.
  lemma {:induction false} RunKeepsInv(states: seq<State>, actions: seq<Action>, n: nat)
    requires IsRun(states, actions) && n <= |actions|
    ensures Inv(states[n])
  {
    if n == 0 {
    } else {
      RunKeepsInv(states, actions, n - 1);
      assert Next(states[n - 1], actions[n - 1], states[n]);
      hide Next, Inv;
      StepKeepsInv(states[n - 1], actions[n - 1], states[n]);
    }
  }

  // Stamps rise strictly in the order of the exchanges.
  ghost predicate Rising(calls: seq<Call>) {
    forall i, j :: 0 <= i < j < |calls| ==> calls[i].stamp < calls[j].stamp
  }

  // No exchange starts from a counter at i64::MAX.
  ghost predicate NeverFull(calls: seq<Call>) {
    forall i :: 0 <= i < |calls| - 1 ==> calls[i].stamp < MAX
  }

  lemma {:induction false} StampsInRange(calls: seq<Call>, i: nat)
    requires Chain(calls) && i <= |calls|
    ensures InRange(Before(calls, i))
  {
    if i > 0 {
      StampsInRange(calls, i - 1);
      assert Stored(calls, i - 1);
      hide Chain;
    }
  }

  lemma RisesNext(calls: seq<Call>, i: nat)
    requires Chain(calls) && 0 < i < |calls| && calls[i - 1].stamp < MAX
    ensures calls[i - 1].stamp < calls[i].stamp
  {
    assert Stored(calls, i);
    hide Chain;
  }

  lemma {:induction false} RisesTo(calls: seq<Call>, i: nat, j: nat)
    requires Chain(calls) && NeverFull(calls) && i < j < |calls|
    ensures calls[i].stamp < calls[j].stamp
  {
    assert calls[j - 1].stamp < MAX;
    hide Chain, NeverFull;
    RisesNext(calls, j);
    if i < j - 1 { RisesTo(calls, i, j - 1); }
  }

  // Whatever the clocks read, stamps rise strictly if and only if no exchange finds the counter full.
  lemma RisingIffNeverFull(states: seq<State>, actions: seq<Action>)
    requires IsRun(states, actions)
    ensures var calls := states[|actions|].calls; Rising(calls) <==> NeverFull(calls)
  {
    RunKeepsInv(states, actions, |actions|);
    var calls := states[|actions|].calls;
    hide Next, Init, Chain;
    if Rising(calls) {
      forall i | 0 <= i < |calls| - 1 ensures calls[i].stamp < MAX { StampsInRange(calls, i + 2); }
    }
    if NeverFull(calls) {
      forall i, j | 0 <= i < j < |calls| ensures calls[i].stamp < calls[j].stamp { RisesTo(calls, i, j); }
    }
  }

  // Every stamp is the clock's reading, or one more than the stamp before it when the clock has not
  // passed that; after i64::MAX it is the reading again, because the increment wraps.
  lemma StampsAre(states: seq<State>, actions: seq<Action>, i: nat)
    requires IsRun(states, actions) && i < |states[|actions|].calls|
    ensures var calls := states[|actions|].calls;
            var prev := if i == 0 then 0 else calls[i - 1].stamp;
            && calls[i].stamp == (if calls[i].now > prev || prev == MAX then calls[i].now else prev + 1)
            && calls[i].stamp >= calls[i].now
  {
    RunKeepsInv(states, actions, |actions|);
    hide IsRun;
    assert Stored(states[|actions|].calls, i);
  }

  // ---- The same condition on the clocks ---------------------------------------------------------

  // The reading of call j leaves room for the increments up to call i.
  predicate Leaves(now: int, j: int, i: int) {
    now + (i - j) < MAX
  }

  // Every reading leaves room for one increment per exchange after it, and so does the initial 0.
  ghost predicate Room(calls: seq<Call>, n: nat)
    requires n <= |calls|
  {
    n < MAX && forall j, i :: 0 <= j <= i < n ==> Leaves(calls[j].now, j, i)
  }

  ghost predicate BelowMax(calls: seq<Call>, n: nat)
    requires n <= |calls|
  {
    forall i :: 0 <= i < n ==> calls[i].stamp < MAX
  }

  // The latest of the readings so far, each advanced by one per later exchange.
  function Latest(calls: seq<Call>, n: nat): int
    requires n <= |calls|
  {
    if n == 0 then 0 else Max(calls[n - 1].now, Latest(calls, n - 1) + 1)
  }

  lemma {:induction false} LatestIsMax(calls: seq<Call>, n: nat)
    requires n <= |calls|
    ensures n <= Latest(calls, n)
    ensures forall j :: 0 <= j < n ==> calls[j].now + (n - 1 - j) <= Latest(calls, n)
    ensures Latest(calls, n) == n || exists j :: 0 <= j < n && calls[j].now + (n - 1 - j) == Latest(calls, n)
  {
    if n > 0 {
      LatestIsMax(calls, n - 1);
      var m := Latest(calls, n);
      if m == calls[n - 1].now {
        assert calls[n - 1].now + (n - 1 - (n - 1)) == m;
      } else if m != n {
        var j :| 0 <= j < n - 1 && calls[j].now + (n - 2 - j) == Latest(calls, n - 1);
        assert calls[j].now + (n - 1 - j) == m;
      }
    }
  }

  lemma NoCalls(calls: seq<Call>)
    ensures Room(calls, 0) && Latest(calls, 0) == Before(calls, 0)
  {
  }

  lemma {:induction false} BelowMaxIffRoom(calls: seq<Call>, n: nat)
    requires Chain(calls) && n <= |calls|
    ensures BelowMax(calls, n) <==> Room(calls, n)
    ensures BelowMax(calls, n) ==> Before(calls, n) == Latest(calls, n)
  {
    hide Chain, Room;
    if n == 0 {
      NoCalls(calls);
    } else {
      BelowMaxIffRoom(calls, n - 1);
      LatestIsMax(calls, n);
      hide Latest;
      assert BelowMax(calls, n) <==> BelowMax(calls, n - 1) && calls[n - 1].stamp < MAX;
      RoomStep(calls, n);
      if BelowMax(calls, n - 1) { StampIsLatest(calls, n); }
    }
  }

  lemma StampIsLatest(calls: seq<Call>, n: nat)
    requires Chain(calls) && 0 < n <= |calls| && BelowMax(calls, n - 1) && Before(calls, n - 1) == Latest(calls, n - 1)
    ensures calls[n - 1].stamp == Latest(calls, n)
  {
    assert n > 1 ==> calls[n - 2].stamp < MAX;
    assert Stored(calls, n - 1);
    hide Chain, BelowMax;
  }

  lemma RoomStep(calls: seq<Call>, n: nat)
    requires 0 < n <= |calls|
    requires n <= Latest(calls, n)
    requires forall j :: 0 <= j < n ==> calls[j].now + (n - 1 - j) <= Latest(calls, n)
    requires Latest(calls, n) == n || exists j :: 0 <= j < n && calls[j].now + (n - 1 - j) == Latest(calls, n)
    ensures Room(calls, n) <==> Room(calls, n - 1) && Latest(calls, n) < MAX
  {
    hide Latest;
    var m := Latest(calls, n);
    if Room(calls, n) && m != n {
      var j :| 0 <= j < n && calls[j].now + (n - 1 - j) == m;
      assert Leaves(calls[j].now, j, n - 1);
    }
    if Room(calls, n - 1) && m < MAX {
      forall j, i | 0 <= j <= i < n ensures Leaves(calls[j].now, j, i) {
        if i == n - 1 { assert calls[j].now + (n - 1 - j) <= m; }
      }
    }
  }

  // No exchange finds the counter full if and only if every clock reading before the last exchange leaves
  // room for one increment per exchange that follows it.
  lemma NeverFullIffRoom(states: seq<State>, actions: seq<Action>)
    requires IsRun(states, actions) && states[|actions|].calls != []
    ensures var calls := states[|actions|].calls; NeverFull(calls) <==> Room(calls, |calls| - 1)
  {
    RunKeepsInv(states, actions, |actions|);
    var calls := states[|actions|].calls;
    hide Next, Init;
    hide Chain, Room, Latest;
    BelowMaxIffRoom(calls, |calls| - 1);
  }

  // One thread whose clock reads i64::MAX twice gets the same stamp twice, although its second call began
  // after its first returned.
  lemma FullCounterTies() returns (states: seq<State>, actions: seq<Action>)
    ensures IsRun(states, actions) && |actions| == 6
    ensures var calls := states[6].calls;
            |calls| == 2 && calls[0].returned <= calls[1].begun && calls[0].stamp == calls[1].stamp == MAX
  {
    var s0 := State(0, [0], map[], []);
    var s1 := State(1, [0], map[0 := Begun(0, MAX)], []);
    var s2 := State(2, [0], map[0 := Trying(0, MAX, 0)], []);
    var s3 := State(3, [0, MAX], map[], [Call(0, 2, MAX, MAX)]);
    var s4 := State(4, [0, MAX], map[0 := Begun(3, MAX)], [Call(0, 2, MAX, MAX)]);
    var s5 := State(5, [0, MAX], map[0 := Trying(3, MAX, MAX)], [Call(0, 2, MAX, MAX)]);
    var s6 := State(6, [0, MAX, MAX], map[], [Call(0, 2, MAX, MAX), Call(3, 5, MAX, MAX)]);
    FirstCall(s0, s1, s2, s3);
    SecondCall(s3, s4, s5, s6);
    hide Next;
    states := [s0, s1, s2, s3, s4, s5, s6];
    actions := [Begin(0, MAX), Load(0, 0), Exchange(0), Begin(0, MAX), Load(0, MAX), Exchange(0)];
  }

  lemma FirstCall(s0: State, s1: State, s2: State, s3: State)
    requires s0 == State(0, [0], map[], []) && s1 == State(1, [0], map[0 := Begun(0, MAX)], [])
    requires s2 == State(2, [0], map[0 := Trying(0, MAX, 0)], [])
    requires s3 == State(3, [0, MAX], map[], [Call(0, 2, MAX, MAX)])
    ensures Init(s0) && Next(s0, Begin(0, MAX), s1) && Next(s1, Load(0, 0), s2) && Next(s2, Exchange(0), s3)
  {
    assert map[0 := Begun(0, MAX)][0 := Trying(0, MAX, 0)] == map[0 := Trying(0, MAX, 0)];
    assert s2.pending - {0} == map[];
  }

  lemma SecondCall(s3: State, s4: State, s5: State, s6: State)
    requires s3 == State(3, [0, MAX], map[], [Call(0, 2, MAX, MAX)])
    requires s4 == State(4, [0, MAX], map[0 := Begun(3, MAX)], [Call(0, 2, MAX, MAX)])
    requires s5 == State(5, [0, MAX], map[0 := Trying(3, MAX, MAX)], [Call(0, 2, MAX, MAX)])
    requires s6 == State(6, [0, MAX, MAX], map[], [Call(0, 2, MAX, MAX), Call(3, 5, MAX, MAX)])
    ensures Next(s3, Begin(0, MAX), s4) && Next(s4, Load(0, MAX), s5) && Next(s5, Exchange(0), s6)
  {
    assert map[0 := Begun(3, MAX)][0 := Trying(3, MAX, MAX)] == map[0 := Trying(3, MAX, MAX)];
    assert s5.pending - {0} == map[];
    assert s4.counter[1] == MAX;
  }

  // When no exchange finds the counter full: all stamps are distinct and positive, and a call begun after
  // another returned gets the larger stamp.
  lemma StampsDistinctAndOrdered(states: seq<State>, actions: seq<Action>)
    requires IsRun(states, actions) && NeverFull(states[|actions|].calls)
    ensures var calls := states[|actions|].calls;
            && (forall i, j :: 0 <= i < j < |calls| ==> calls[i].stamp != calls[j].stamp)
            && (forall i :: 0 <= i < |calls| ==> 0 < calls[i].stamp <= MAX)
            && (forall i, j :: 0 <= i < |calls| && 0 <= j < |calls| && calls[i].returned <= calls[j].begun ==>
                  calls[i].stamp < calls[j].stamp)
  {
    RisingIffNeverFull(states, actions);
    RunKeepsInv(states, actions, |actions|);
    var calls := states[|actions|].calls;
    hide Next, Init, Chain, NeverFull;
    forall i | 0 <= i < |calls| ensures 0 < calls[i].stamp <= MAX {
      StampsInRange(calls, i + 1);
      FirstPositive(calls);
      if i > 0 { RisesTo(calls, 0, i); }
    }
    forall i, j | 0 <= i < |calls| && 0 <= j < |calls| && calls[i].returned <= calls[j].begun
      ensures calls[i].stamp < calls[j].stamp
    {
      LaterCall(calls, i, j);
    }
  }

  lemma FirstPositive(calls: seq<Call>)
    requires Chain(calls) && calls != []
    ensures calls[0].stamp > 0
  {
    assert Stored(calls, 0);
    hide Chain;
  }

  lemma LaterCall(calls: seq<Call>, i: nat, j: nat)
    requires Chain(calls) && i < |calls| && j < |calls| && calls[i].returned <= calls[j].begun
    ensures i < j
  {
    assert Stored(calls, j);
    hide Stored;
  }

  // So with clocks at most k there is room for MAX - k calls.
  lemma ClocksBelowNeverFill(states: seq<State>, actions: seq<Action>, k: int)
    requires IsRun(states, actions) && 0 <= k && k + |states[|actions|].calls| <= MAX
    requires forall i :: 0 <= i < |states[|actions|].calls| ==> states[|actions|].calls[i].now <= k
    ensures NeverFull(states[|actions|].calls)
  {
    var calls := states[|actions|].calls;
    hide Next, Init;
    if calls != [] { NeverFullIffRoom(states, actions); }
  }

  // ---- What that gives the cache --------------------------------------------------------------

  // h is a history whose writes took their stamps from these calls, write i from calls[of[i]].
  ghost predicate StampedBy(h: seq<S.Write>, calls: seq<Call>, of: seq<nat>) {
    && |of| == |h|
    && (forall i :: 0 <= i < |of| ==> of[i] < |calls| && h[i].stamp == calls[of[i]].stamp)
    && (forall i, j :: 0 <= i < j < |of| ==> of[i] != of[j])
  }

  // Writes of one process never tie; when each began after the one before had its stamp, the
  // cache's map is plain overwriting in that order.
  lemma LaterWriteWinsInOneProcess(states: seq<State>, actions: seq<Action>, h: seq<S.Write>, of: seq<nat>)
    requires IsRun(states, actions) && NeverFull(states[|actions|].calls)
    requires StampedBy(h, states[|actions|].calls, of) && forall w :: w in h ==> S.ValidWrite(w)
    ensures S.DistinctStamps(h)
    ensures (forall i, j :: 0 <= i < j < |h| ==>
               states[|actions|].calls[of[i]].returned <= states[|actions|].calls[of[j]].begun)
            ==> S.LastWriteWins(h) == S.Overwrite(h)
  {
    hide S.LastWriteWins, S.Overwrite, S.ValidWrite, Next, NeverFull;
    StampsDistinctAndOrdered(states, actions);
    var calls := states[|actions|].calls;
    forall i, j | 0 <= i < j < |h| ensures h[i].stamp != h[j].stamp {
      assert of[i] != of[j];
      assert calls[of[i]].stamp != calls[of[j]].stamp by {
        if of[i] < of[j] { } else { assert of[j] < of[i]; }
      }
    }
    if forall i, j :: 0 <= i < j < |h| ==> calls[of[i]].returned <= calls[of[j]].begun {
      forall i, j | 0 <= i < j < |h| ensures h[i].stamp < h[j].stamp {
        assert calls[of[i]].stamp < calls[of[j]].stamp;
      }
      S.LaterWriteOverwrites(h);
    }
  }
}
