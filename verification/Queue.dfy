/** A queue between two channels with an overflow list, as one goroutine runs it. */
module Queue {

  datatype Phase = Running | Draining | Closed | Stopped

  /** `sent`, `received` and `dropped` are what has gone out, come in and been discarded so far. */
  datatype State<T> = State(
    phase: Phase, overflow: seq<T>, overflowLen: int, received: seq<T>, sent: seq<T>, dropped: nat)

  datatype Event<T> =
    | Receive(item: T, outReady: bool)   // an item comes in; whether the out channel would take one now
    | OutReady                           // the out channel takes an item
    | CloseIn                            // the in channel has been closed
    | Quit

  function Empty<T>(): State<T> {
    State(Running, [], 0, [], [], 0)
  }

  /** Drops the oldest item of a list that exceeds the cap; a cap of 0 means none. */
  function Trim<T>(q: State<T>, cap: nat): State<T> {
    if cap > 0 && |q.overflow| > cap
    then q.(overflow := q.overflow[1..], overflowLen := q.overflowLen - 1, dropped := q.dropped + 1)
    else q
  }

  /** With one more item at the end. */
  function Grown<T>(q: State<T>, item: T): State<T> {
    q.(received := q.received + [item], overflow := q.overflow + [item], overflowLen := q.overflowLen + 1)
  }

  function Push<T>(q: State<T>, item: T, cap: nat): State<T> {
    Trim(Grown(q, item), cap)
  }

  function Pop<T>(q: State<T>): State<T>
    requires q.overflow != []
  {
    q.(sent := q.sent + [q.overflow[0]], overflow := q.overflow[1..], overflowLen := q.overflowLen - 1)
  }

  /** One round of the loop. Events that no select case waits for have no effect. */
  function Step<T>(q: State<T>, e: Event<T>, cap: nat): State<T> {
    match q.phase
    case Running => (
      match e
      case Receive(item, outReady) =>
        if q.overflow == [] && outReady then q.(received := q.received + [item], sent := q.sent + [item])
        else Push(q, item, cap)
      case OutReady => if q.overflow == [] then q else Pop(q)
      case CloseIn => q.(phase := if q.overflow == [] then Closed else Draining)
      case Quit => q.(phase := Stopped))
    case Draining => (
      match e
      case OutReady =>
        if q.overflow == [] then q.(phase := Closed) else
        var q' := Pop(q);
        if q'.overflow == [] then q'.(phase := Closed) else q'
      case Quit => q.(phase := Stopped)
      case _ => q)
    case _ => q
  }

  function Run<T>(events: seq<Event<T>>, cap: nat): State<T> {
    if events == [] then Empty() else Step(Run(events[..|events| - 1], cap), events[|events| - 1], cap)
  }

  // ----- What the queue promises -----

  ghost predicate IsSuffix<T(!new)>(s: seq<T>, t: seq<T>) {
    |s| <= |t| && s == t[|t| - |s|..]
  }

  /** `s` can be had from `t` by leaving items out. */
  ghost predicate IsSubsequence<T(!new)>(s: seq<T>, t: seq<T>) {
    if s == [] then true
    else if t == [] then false
    else
      || (s[|s| - 1] == t[|t| - 1] && IsSubsequence(s[..|s| - 1], t[..|t| - 1]))
      || IsSubsequence(s, t[..|t| - 1])
  }

  lemma {:induction false} AppendBoth<T(!new)>(s: seq<T>, t: seq<T>, x: T)
    requires IsSubsequence(s, t)
    ensures IsSubsequence(s + [x], t + [x])
  {
    assert (s + [x])[..|s|] == s && (t + [x])[..|t|] == t;
  }

  /** Leaving out one more item. */
  lemma {:induction false} LeaveOut<T(!new)>(s: seq<T>, x: T, r: seq<T>, t: seq<T>)
    requires IsSubsequence(s + [x] + r, t)
    ensures IsSubsequence(s + r, t)
    decreases |t|
  {
    var u := s + [x] + r;
    var front := t[..|t| - 1];
    if IsSubsequence(u, front) {
      LeaveOut(s, x, r, front);
      StillSubsequence(s + r, t);
    } else if r == [] {
      assert u[..|u| - 1] == s && s + r == s;
      StillSubsequence(s, t);
    } else {
      assert u[..|u| - 1] == s + [x] + r[..|r| - 1];
      LeaveOut(s, x, r[..|r| - 1], front);
      assert (s + r)[..|s + r| - 1] == s + r[..|r| - 1];
    }
  }

  lemma StillSubsequence<T(!new)>(s: seq<T>, t: seq<T>)
    requires t != [] && IsSubsequence(s, t[..|t| - 1])
    ensures IsSubsequence(s, t)
  {
  }

  /**
   * The counter is exact and the cap is kept; nothing is reordered, invented or duplicated; the overflow
   * list holds the latest items; every item is sent, waiting or counted as dropped, and without a cap
   * none is dropped.
   */
  ghost predicate Inv<T(!new)>(q: State<T>, cap: nat) {
    && q.overflowLen == |q.overflow|
    && (cap > 0 ==> |q.overflow| <= cap)
    && IsSubsequence(q.sent + q.overflow, q.received)
    && IsSuffix(q.overflow, q.received)
    && |q.received| == |q.sent| + |q.overflow| + q.dropped
    && (cap == 0 ==> q.received == q.sent + q.overflow)
    && (q.phase == Closed ==> q.overflow == [])
    && (q.phase == Draining ==> q.overflow != [])
  }

  lemma SuffixPush<T(!new)>(s: seq<T>, t: seq<T>, x: T)
    requires IsSuffix(s, t)
    ensures IsSuffix(s + [x], t + [x]) && IsSuffix((s + [x])[1..], t + [x])
  {
  }

  lemma GrownKeeps<T(!new)>(q: State<T>, item: T, cap: nat)
    requires Inv(q, cap) && q.phase == Running
    ensures var g := Grown(q, item);
            && (cap == 0 ==> g.received == g.sent + g.overflow)
            && IsSubsequence(g.sent + g.overflow, g.received) && IsSuffix(g.overflow, g.received)
            && |g.received| == |g.sent| + |g.overflow| + g.dropped
  {
    hide IsSubsequence, IsSuffix;
    SuffixPush(q.overflow, q.received, item);
    AppendBoth(q.sent + q.overflow, q.received, item);
    Regroup(q.sent, q.overflow, item);
  }

  lemma Regroup<T(!new)>(s: seq<T>, t: seq<T>, x: T)
    ensures s + t + [x] == s + (t + [x])
  {
  }

  lemma TrimKeeps<T(!new)>(g: State<T>, cap: nat)
    requires g.overflow != [] && cap > 0
    requires IsSubsequence(g.sent + g.overflow, g.received) && IsSuffix(g.overflow, g.received)
    ensures var t := Trim(g, cap);
            IsSubsequence(t.sent + t.overflow, t.received) && IsSuffix(t.overflow, t.received)
  {
    hide IsSubsequence;
    assert g.sent + g.overflow == g.sent + [g.overflow[0]] + g.overflow[1..];
    LeaveOut(g.sent, g.overflow[0], g.overflow[1..], g.received);
  }

  lemma PushKeeps<T(!new)>(q: State<T>, item: T, cap: nat)
    requires Inv(q, cap) && q.phase == Running
    ensures Inv(Push(q, item, cap), cap)
  {
    hide IsSubsequence, IsSuffix;
    GrownKeeps(q, item, cap);
    if cap > 0 { TrimKeeps(Grown(q, item), cap); }
  }

  lemma PopKeeps<T(!new)>(q: State<T>, cap: nat)
    requires Inv(q, cap) && q.overflow != []
    ensures var q' := Pop(q);
            && Inv(if q'.overflow == [] then q'.(phase := Closed) else q'.(phase := Draining), cap)
            && Inv(q'.(phase := Running), cap)
            && q'.phase == q.phase
  {
    hide IsSubsequence;
    assert q.sent + q.overflow == q.sent + [q.overflow[0]] + q.overflow[1..];
  }

  lemma StepKeeps<T(!new)>(q: State<T>, e: Event<T>, cap: nat)
    requires Inv(q, cap)
    ensures Inv(Step(q, e, cap), cap)
  {
    hide IsSubsequence, Push, Pop;
    if e.OutReady? && q.overflow != [] { PopKeeps(q, cap); }
    if e.Receive? && q.phase == Running {
      PushKeeps(q, e.item, cap);
      if q.overflow == [] { PassKeeps(q, e.item, cap); }
    }
  }

  lemma PassKeeps<T(!new)>(q: State<T>, item: T, cap: nat)
    requires Inv(q, cap) && q.overflow == []
    ensures Inv(q.(received := q.received + [item], sent := q.sent + [item]), cap)
  {
    hide IsSubsequence;
    AppendBoth(q.sent + q.overflow, q.received, item);
    assert q.sent + q.overflow + [item] == q.sent + [item] + q.overflow;
  }

  /** The promises hold after every run. */
  lemma {:induction false} RunKeeps<T(!new)>(events: seq<Event<T>>, cap: nat)
    ensures Inv(Run(events, cap), cap)
  {
    hide Inv;
    if events == [] {
      assert Inv(Empty<T>(), cap) by { EmptyKeeps<T>(cap); }
    } else {
      RunKeeps(events[..|events| - 1], cap);
      StepKeeps(Run(events[..|events| - 1], cap), events[|events| - 1], cap);
    }
  }

  lemma EmptyKeeps<T(!new)>(cap: nat)
    ensures Inv(Empty<T>(), cap)
  {
  }

  /** When the out channel is closed, an uncapped queue has sent everything it received, in order. */
  lemma ClosedMeansDelivered<T(!new)>(events: seq<Event<T>>, cap: nat)
    requires Run(events, cap).phase == Closed
    ensures var q := Run(events, cap);
            && IsSubsequence(q.sent, q.received) && |q.received| == |q.sent| + q.dropped
            && (cap == 0 ==> q.sent == q.received)
  {
    hide Run;
    RunKeeps(events, cap);
    var q := Run(events, cap);
    assert q.sent + q.overflow == q.sent;
  }

  /** Whenever the out channel takes an item and one is waiting, it gets the oldest one. */
  lemma OldestGoesFirst<T(!new)>(events: seq<Event<T>>, cap: nat)
    requires var q := Run(events, cap); (q.phase == Running || q.phase == Draining) && q.overflow != []
    ensures var q, q' := Run(events, cap), Run(events + [OutReady], cap);
            && |q.overflow| <= |q.received|
            && q'.sent == q.sent + [q.received[|q.received| - |q.overflow|]]
            && q'.overflow == q.overflow[1..] && q'.received == q.received && q'.dropped == q.dropped
  {
    hide Run;
    RunKeeps(events, cap);
    NextEvent(events, OutReady, cap);
  }

  lemma NextEvent<T(!new)>(events: seq<Event<T>>, e: Event<T>, cap: nat)
    ensures Run(events + [e], cap) == Step(Run(events, cap), e, cap)
  {
    assert (events + [e])[..|events|] == events;
  }

  function Takes<T>(n: nat): seq<Event<T>> {
    if n == 0 then [] else Takes(n - 1) + [OutReady]
  }

  /** Draining sends the waiting items in order, and no others. */
  lemma {:induction false} DrainingSends<T(!new)>(events: seq<Event<T>>, cap: nat, n: nat)
    requires Run(events, cap).phase == Draining && n <= |Run(events, cap).overflow|
    ensures var q, q' := Run(events, cap), Run(events + Takes(n), cap);
            && q'.sent == q.sent + q.overflow[..n] && q'.overflow == q.overflow[n..]
            && q'.phase == if n < |q.overflow| then Draining else Closed
  {
    hide Run;
    var q := Run(events, cap);
    RunKeeps(events, cap);
    if n == 0 {
      assert events + Takes(0) == events;
      assert q.overflow[..0] == [];
    } else {
      DrainingSends(events, cap, n - 1);
      assert events + Takes(n) == (events + Takes(n - 1)) + [OutReady];
      NextEvent(events + Takes(n - 1), OutReady, cap);
      assert q.overflow[..n] == q.overflow[..n - 1] + [q.overflow[n - 1]];
    }
  }

  lemma {:induction false} ClosedStays<T(!new)>(events: seq<Event<T>>, cap: nat, n: nat)
    requires Run(events, cap).phase == Closed
    ensures Run(events + Takes(n), cap) == Run(events, cap)
  {
    hide Run;
    if n == 0 {
      assert events + Takes(0) == events;
    } else {
      ClosedStays(events, cap, n - 1);
      assert events + Takes(n) == (events + Takes(n - 1)) + [OutReady];
      NextEvent(events + Takes(n - 1), OutReady, cap);
    }
  }

  lemma {:induction false} TakesAdd<T(!new)>(m: nat, n: nat)
    ensures Takes<T>(m + n) == Takes<T>(m) + Takes<T>(n)
  {
    if n > 0 {
      TakesAdd<T>(m, n - 1);
      assert Takes<T>(m + n) == Takes<T>(m + n - 1) + [OutReady];
    } else {
      assert Takes<T>(m) + [] == Takes<T>(m);
    }
  }

  /** Once the in channel is closed, taking every waiting item closes the out channel, with all of them sent. */
  lemma CloseDrains<T(!new)>(events: seq<Event<T>>, cap: nat, n: nat)
    requires Run(events, cap).phase == Running && n >= |Run(events, cap).overflow|
    ensures var q, q' := Run(events, cap), Run(events + [CloseIn] + Takes(n), cap);
            q'.phase == Closed && q'.sent == q.sent + q.overflow && q'.received == q.received
  {
    hide Run;
    var q := Run(events, cap);
    var closing := events + [CloseIn];
    NextEvent(events, CloseIn, cap);
    var m := |q.overflow|;
    TakesAdd<T>(m, n - m);
    assert closing + Takes(n) == (closing + Takes(m)) + Takes(n - m);
    if m > 0 {
      DrainingSends(closing, cap, m);
      assert q.overflow[..m] == q.overflow;
    } else {
      assert closing + Takes(0) == closing;
    }
    ClosedStays(closing + Takes(m), cap, n - m);
    ReceivedStays(closing, cap, n);
  }

  lemma {:induction false} ReceivedStays<T(!new)>(events: seq<Event<T>>, cap: nat, n: nat)
    ensures Run(events + Takes(n), cap).received == Run(events, cap).received
  {
    hide Run;
    if n == 0 {
      assert events + Takes(0) == events;
    } else {
      ReceivedStays(events, cap, n - 1);
      assert events + Takes(n) == (events + Takes(n - 1)) + [OutReady];
      NextEvent(events + Takes(n - 1), OutReady, cap);
    }
  }

  // ----- The goroutine -----

  class ConcurrentQueue<T(!new)> {
    const maxOverflow: nat
    var overflow: seq<T>
    var overflowLen: int
    ghost var received: seq<T>
    ghost var sent: seq<T>
    ghost var dropped: nat

    ghost function View(phase: Phase): State<T>
      reads this
    {
      State(phase, overflow, overflowLen, received, sent, dropped)
    }

    constructor (maxOverflow: nat)
      ensures this.maxOverflow == maxOverflow && View(Running) == Empty()
    {
      this.maxOverflow := maxOverflow;
      overflow, overflowLen, received, sent, dropped := [], 0, [], [], 0;
    }

    method TrimOverflow()
      modifies this
      ensures forall phase :: View(phase) == Trim(old(View(phase)), maxOverflow)
    {
      if maxOverflow > 0 && |overflow| > maxOverflow {
        overflow := overflow[1..];
        overflowLen := overflowLen - 1;
        dropped := dropped + 1;
      }
    }

    method PushBack(item: T)
      modifies this
      ensures forall phase :: View(phase) == Push(old(View(phase)), item, maxOverflow)
    {
      received := received + [item];
      overflow := overflow + [item];
      overflowLen := overflowLen + 1;
      TrimOverflow();
    }

    method SendFront() returns (item: T)
      requires overflow != []
      modifies this
      ensures item == old(overflow)[0]
      ensures forall phase :: View(phase) == Pop(old(View(phase)))
    {
      item := overflow[0];
      overflow := overflow[1..];
      overflowLen := overflowLen - 1;
      sent := sent + [item];
    }

    /** The loop of the goroutine over the events it meets; `out` is what it puts on the out channel. */
    method Start(events: seq<Event<T>>) returns (out: seq<T>, phase: Phase)
      requires View(Running) == Empty()
      modifies this
      ensures View(phase) == Run(events, maxOverflow) && out == sent
      ensures Inv(View(phase), maxOverflow)
    {
      hide Inv, Trim, Push;
      out, phase := [], Running;
      var i := 0;
      assert events[..0] == [];
      while i < |events|
        invariant 0 <= i <= |events|
        invariant View(phase) == Run(events[..i], maxOverflow) && out == sent
      {
        var e := events[i];
        assert events[..i + 1][..i] == events[..i];
        RunKeeps(events[..i], maxOverflow);
        if phase == Running {
          match e {
            case Receive(item, outReady) =>
              if overflow == [] && outReady {
                received, sent := received + [item], sent + [item];
                out := out + [item];
              } else {
                ghost var was := View(phase);
                PushBack(item);
                PushSends(was, item, maxOverflow);
              }
            case OutReady =>
              if overflow != [] {
                var item := SendFront();
                out := out + [item];
              }
            case CloseIn => phase := if overflow == [] then Closed else Draining;
            case Quit => phase := Stopped;
          }
        } else if phase == Draining {
          if e.OutReady? {
            if overflow != [] {
              var item := SendFront();
              out := out + [item];
            }
            if overflow == [] { phase := Closed; }
          } else if e.Quit? {
            phase := Stopped;
          }
        }
        i := i + 1;
      }
      assert events[..i] == events;
      RunKeeps(events, maxOverflow);
    }
  }

  lemma PushSends<T>(q: State<T>, item: T, cap: nat)
    ensures Push(q, item, cap).sent == q.sent
  {
  }
}
