/** The updater's event loop: when it reconciles, and why it never sleeps while there is work. */
module UpdaterLoop {
  import opened Bytes
  import opened BackupState
  import opened BackupUpdater

  /** The delays; a delay that is not positive is replaced by a default when the updater is made. */
  type Delay = d: nat | d > 0 witness 1

  const DEBOUNCE: Delay
  const RETRY_INTERVAL: Delay

  datatype Timer = Timer(deadline: nat, retrying: bool)

  datatype LoopEvent =
    | Changed                  // a wallet notification
    | Fired(world: World)      // the armed timer
    | Sync(world: World)       // an explicit request

  datatype Timed = Timed(at: nat, event: LoopEvent)

  /** Beside the loop's own variables: whether the last reconcile left something undone, and the first change since. */
  datatype Loop = Loop(updater: State, timer: Option<Timer>, troubled: bool, changedAt: Option<nat>)

  /** A reconcile at `at`; it arms the retry timer if anything is left to do. */
  ghost function ReconcileStep(l: Loop, at: nat, w: World, force: bool): Loop {
    var (s, failed, err) := Reconciled(l.updater, w, force);
    var troubled := err.Some? || failed > 0;
    Loop(s, if troubled then Some(Timer(at + RETRY_INTERVAL, true)) else None, troubled, None)
  }

  /** An unarmed timer cannot fire. */
  ghost function LoopStep(l: Loop, e: Timed): Loop {
    match e.event
    case Changed =>
      var arm := l.timer.None? || l.timer.value.retrying;
      l.(timer := if arm then Some(Timer(e.at + DEBOUNCE, false)) else l.timer,
         changedAt := if l.changedAt.None? then Some(e.at) else l.changedAt)
    case Fired(w) => if l.timer.None? then l else ReconcileStep(l, e.at, w, false)
    case Sync(w) => ReconcileStep(l, e.at, w, false)
  }

  /** The loop begins with a forced write. */
  ghost function LoopStart(s: State, at: nat, w: World): Loop {
    ReconcileStep(Loop(s, None, false, None), at, w, true)
  }

  ghost function LoopRun(l: Loop, events: seq<Timed>): Loop {
    if events == [] then l else LoopStep(LoopRun(l, events[..|events| - 1]), events[|events| - 1])
  }

  ghost predicate HasWork(l: Loop) {
    l.updater.dirty || l.troubled || l.changedAt.Some?
  }

  /**
   * A timer is armed exactly when there is work. After a change it is the debounce timer of the first
   * change since the last reconcile, which later changes do not move.
   */
  ghost predicate Awake(l: Loop) {
    && (l.timer.Some? <==> HasWork(l))
    && (l.changedAt.Some? ==> l.timer == Some(Timer(l.changedAt.value + DEBOUNCE, false)))
    && (l.changedAt.None? && l.timer.Some? ==> l.timer.value.retrying && l.troubled)
  }

  lemma ReconcileStepAwake(l: Loop, at: nat, w: World, force: bool, tracked: set<EntryKey>)
    requires Inv(l.updater, tracked)
    ensures var l' := ReconcileStep(l, at, w, force);
            Awake(l') && Inv(l'.updater, TrackedAfter(l.updater, w, force, tracked))
  {
    hide Inv, Reconciled, TrackedAfter;
    ReconcileKeepsInv(l.updater, w, force, tracked);
  }

  lemma LoopStepAwake(l: Loop, e: Timed)
    requires Awake(l) && exists tracked :: Inv(l.updater, tracked)
    ensures Awake(LoopStep(l, e)) && exists tracked :: Inv(LoopStep(l, e).updater, tracked)
  {
    hide Inv, ReconcileStep, TrackedAfter;
    var tracked :| Inv(l.updater, tracked);
    if e.event.Changed? {
      assert Inv(LoopStep(l, e).updater, tracked);
    } else {
      ReconcileStepAwake(l, e.at, e.event.world, false, tracked);
    }
  }

  /** At every wait point of every run, a timer is armed exactly when there is work. */
  lemma {:induction false} LoopNeverSleepsOnWork(disk: Disk, at: nat, w: World, events: seq<Timed>)
    ensures var l := LoopRun(LoopStart(State(map[], {}, false, disk), at, w), events);
            Awake(l) && exists tracked :: Inv(l.updater, tracked)
  {
    hide Inv, LoopStep, LoopStart, Awake;
    var start := State(map[], {}, false, disk);
    if events == [] {
      StartAwake(start, at, w);
    } else {
      LoopNeverSleepsOnWork(disk, at, w, events[..|events| - 1]);
      LoopStepAwake(LoopRun(LoopStart(start, at, w), events[..|events| - 1]), events[|events| - 1]);
    }
  }

  lemma StartAwake(s: State, at: nat, w: World)
    requires s == Restarted(s)
    ensures Awake(LoopStart(s, at, w)) && exists tracked :: Inv(LoopStart(s, at, w).updater, tracked)
  {
    hide Inv, ReconcileStep, TrackedAfter;
    RestartedInv(s);
    ReconcileStepAwake(Loop(s, None, false, None), at, w, true, {});
  }

  /** A burst of changes leaves the timer where the first one put it. */
  lemma {:induction false} BurstKeepsDeadline(l: Loop, events: seq<Timed>)
    requires Awake(l) && l.changedAt.Some?
    requires forall i :: 0 <= i < |events| ==> events[i].event.Changed?
    ensures LoopRun(l, events).timer == l.timer
    ensures LoopRun(l, events) == l
  {
    if events != [] { BurstKeepsDeadline(l, events[..|events| - 1]); }
  }

  /**
   * Changes during a retry replace it by the debounce timer of the first of them, however many follow. The
   * next reconcile then comes later than the retry would have, exactly if the retry was due within the
   * debounce delay, and less than that delay later as long as the retry has not fired.
   */
  lemma {:induction false} ChangesDuringRetry(l: Loop, events: seq<Timed>)
    requires Awake(l) && l.timer.Some? && l.timer.value.retrying && events != []
    requires forall i :: 0 <= i < |events| ==> events[i].event.Changed?
    ensures var due, timer := l.timer.value.deadline, LoopRun(l, events).timer;
            && timer == Some(Timer(events[0].at + DEBOUNCE, false))
            && (timer.value.deadline > due <==> due - events[0].at < DEBOUNCE)
            && (events[0].at < due ==> timer.value.deadline < due + DEBOUNCE)
  {
    hide Awake;
    var first, rest := events[0], events[1..];
    var l1 := LoopStep(l, first);
    assert Awake(l1) && l1.changedAt.Some? by { FirstChange(l, first); }
    RunFromFirst(l, events);
    BurstKeepsDeadline(l1, rest);
  }

  lemma FirstChange(l: Loop, e: Timed)
    requires Awake(l) && l.timer.Some? && l.timer.value.retrying && e.event.Changed?
    ensures Awake(LoopStep(l, e)) && LoopStep(l, e).changedAt.Some?
  {
  }

  lemma {:induction false} RunFromFirst(l: Loop, events: seq<Timed>)
    requires events != []
    ensures LoopRun(l, events) == LoopRun(LoopStep(l, events[0]), events[1..])
  {
    hide LoopStep;
    var n := |events| - 1;
    if n > 0 {
      RunFromFirst(l, events[..n]);
      assert events[..n][1..] == events[1..][..n - 1];
    } else {
      assert events[..0] == [] && LoopRun(l, events[..0]) == l;
      assert events[1..] == [];
    }
  }

  /** A first reconcile that fails, and a change just before the retry: the retry is pushed back. */
  lemma RetryCanBePushedBack(disk: Disk, w: World, at: nat)
    requires w.fetch == None && at < RETRY_INTERVAL < at + DEBOUNCE
    ensures var l := LoopStart(State(map[], {}, false, disk), 0, w);
            && l.timer == Some(Timer(RETRY_INTERVAL, true))
            && LoopRun(l, [Timed(at, Changed)]).timer == Some(Timer(at + DEBOUNCE, false))
            && RETRY_INTERVAL < at + DEBOUNCE < RETRY_INTERVAL + DEBOUNCE
  {
    var l := LoopStart(State(map[], {}, false, disk), 0, w);
    ChangesDuringRetry(l, [Timed(at, Changed)]);
  }

  /** The loop itself, over the events it receives until it is told to quit. */
  method MainLoop(u: Updater, at: nat, w: World, events: seq<Timed>) returns (timer: Option<Timer>)
    requires u.View() == Restarted(u.View())
    modifies u
    ensures var l := LoopRun(LoopStart(old(u.View()), at, w), events);
            u.View() == l.updater && timer == l.timer
  {
    hide Inv, Reconciled, Awake;
    ghost var start := LoopStart(u.View(), at, w);
    ghost var l := start;
    timer := None;
    var failed, err := u.Reconcile(w, true);
    if err.Some? || failed > 0 { timer := Some(Timer(at + RETRY_INTERVAL, true)); }
    var i := 0;
    StartAwake(old(u.View()), at, w);
    assert events[..0] == [];
    while i < |events|
      invariant 0 <= i <= |events|
      invariant l == LoopRun(start, events[..i]) && u.View() == l.updater && timer == l.timer
      invariant Awake(l) && exists tracked :: Inv(l.updater, tracked)
    {
      var e := events[i];
      assert events[..i + 1][..i] == events[..i];
      LoopStepAwake(l, e);
      l := LoopStep(l, e);
      match e.event {
        case Changed =>
          if timer.None? || timer.value.retrying { timer := Some(Timer(e.at + DEBOUNCE, false)); }
        case Fired(world) =>
          if timer.Some? {
            timer := None;
            failed, err := u.Reconcile(world, false);
            if err.Some? || failed > 0 { timer := Some(Timer(e.at + RETRY_INTERVAL, true)); }
          }
        case Sync(world) =>
          timer := None;
          failed, err := u.Reconcile(world, false);
          if err.Some? || failed > 0 { timer := Some(Timer(e.at + RETRY_INTERVAL, true)); }
      }
      i := i + 1;
    }
    assert events[..i] == events;
  }
}
