/**
  The poll scheduler: an asynchronous chain of ticks and timers, restarted by login and
  visibility changes and guarded by an epoch against the ticks still in flight.
 */
module PollChain {
  import opened Wrappers

  type TimerId = nat

  /**
    The scheduler's variables (epoch, timer, loggedIn) with the browser around them: whether
    the page is hidden, how many visibility events are still to be delivered, the timers that
    have not fired, and the epochs of the ticks in flight.
   */
  datatype State = State(
    epoch: nat,
    timer: Option<TimerId>,
    loggedIn: bool,
    hidden: bool,
    due: nat,
    pending: map<TimerId, nat>,
    nextId: TimerId,
    ticks: multiset<nat>)

  const BOOT: State := State(0, None, false, false, 0, map[], 0, multiset{})

  // ----------------------------------------------------- the scheduler's functions

  function Cleared(s: State): State {
    if s.timer.Some? then s.(pending := s.pending - {s.timer.value}) else s
  }

  function Stopped(s: State): State {
    Cleared(s).(epoch := s.epoch + 1, timer := None)
  }

  /** poll(e) up to its first await: a tick is in flight, or nothing happens. */
  function Polled(s: State, e: nat): State {
    if e != s.epoch || s.hidden || !s.loggedIn then s else s.(ticks := s.ticks + multiset{e})
  }

  function Started(s: State): State {
    Polled(Stopped(s), s.epoch + 1)
  }

  function LoggedOut(s: State): State {
    Stopped(s.(loggedIn := false))
  }

  function LoggedIn(s: State): State {
    Started(s.(loggedIn := true))
  }

  /** The rest of poll(e) after its tick: schedule the next one unless the chain is stale. */
  function Rescheduled(s: State, e: nat): State {
    if e == s.epoch && !s.hidden && s.loggedIn
    then s.(timer := Some(s.nextId), pending := s.pending[s.nextId := e], nextId := s.nextId + 1)
    else s
  }

  function VisibilityHandled(s: State): State {
    if s.hidden then Stopped(s) else if s.loggedIn then Started(s) else s
  }

  // -------------------------------------------------------------------------- runs

  /** Everything that can happen, in any order; a tick ends well, badly, or unauthorized. */
  datatype Event =
    | Login
    | Logout
    | Flip
    | VisibilityChange
    | TimerFires(id: TimerId)
    | TickEnds(e: nat)
    | TickUnauthorized(e: nat)

  predicate Enabled(s: State, ev: Event) {
    match ev
    case Login => true
    case Logout => true
    case Flip => true
    case VisibilityChange => s.due > 0
    case TimerFires(id) => id in s.pending
    case TickEnds(e) => e in s.ticks
    case TickUnauthorized(e) => e in s.ticks
  }

  function Apply(s: State, ev: Event): State
    requires Enabled(s, ev)
  {
    match ev
    case Login => LoggedIn(s)
    case Logout => LoggedOut(s)
    case Flip => s.(hidden := !s.hidden, due := s.due + 1)
    case VisibilityChange => VisibilityHandled(s.(due := s.due - 1))
    case TimerFires(id) => Polled(s.(pending := s.pending - {id}), s.pending[id])
    case TickEnds(e) => Rescheduled(s.(ticks := s.ticks - multiset{e}), e)
    case TickUnauthorized(e) => LoggedOut(s.(ticks := s.ticks - multiset{e}))
  }

  /** The state after a run from the boot of a page that may start hidden, if the run can happen. */
  function Exec(run: seq<Event>, hidden: bool): Option<State> {
    if run == [] then Some(BOOT.(hidden := hidden))
    else
      var before, ev := Exec(run[..|run| - 1], hidden), run[|run| - 1];
      if before.None? || !Enabled(before.value, ev) then None else Some(Apply(before.value, ev))
  }

  ghost predicate Reached(s: State, run: seq<Event>, hidden: bool) {
    Exec(run, hidden) == Some(s)
  }

  // ------------------------------------------------------------------- invariants

  /** Chains of the current epoch: ticks in flight and timers that have not fired. */
  function Alive(s: State): nat {
    s.ticks[s.epoch] + |s.pending|
  }

  /**
    The one timer that can be pending is the recorded one and belongs to the current epoch;
    no tick is from the future; there is at most one chain, exactly one when logged in, visible
    and no visibility event is outstanding, and none when logged out or settled hidden.
   */
  ghost predicate Inv(s: State) {
    && (forall id :: id in s.pending ==> s.timer == Some(id) && s.pending[id] == s.epoch && id < s.nextId)
    && (forall e :: e in s.ticks ==> e <= s.epoch)
    && Alive(s) <= 1
    && (!s.loggedIn ==> Alive(s) == 0)
    && (s.due == 0 ==> Alive(s) == if s.loggedIn && !s.hidden then 1 else 0)
  }

  lemma PendingSize(s: State)
    requires forall id :: id in s.pending ==> s.timer == Some(id)
    ensures |s.pending| == if s.timer.Some? && s.timer.value in s.pending then 1 else 0
  {
    if s.timer.Some? && s.timer.value in s.pending {
      assert s.pending.Keys == {s.timer.value};
      assert |s.pending| == |s.pending.Keys|;
    } else {
      assert s.pending.Keys == {};
      assert |s.pending| == |s.pending.Keys|;
    }
  }

  /** Stopping leaves no chain of the new epoch and no timer at all. */
  lemma StoppedIdle(s: State)
    requires Inv(s)
    ensures Stopped(s).pending == map[] && Alive(Stopped(s)) == 0
    ensures forall e :: e in Stopped(s).ticks ==> e <= s.epoch
  {
    var t := Stopped(s);
    assert t.pending.Keys == {};
  }

  lemma StartedKeepsInv(s: State)
    requires forall id :: id in s.pending ==> s.timer == Some(id)
    requires forall e :: e in s.ticks ==> e <= s.epoch
    ensures Inv(Started(s))
  {
    var t := Stopped(s);
    assert t.pending.Keys == {};
    assert t.pending == map[];
    assert s.epoch + 1 !in t.ticks;
  }

  lemma LoggedOutKeepsInv(s: State)
    requires forall id :: id in s.pending ==> s.timer == Some(id)
    requires forall e :: e in s.ticks ==> e <= s.epoch
    ensures Inv(LoggedOut(s))
  {
    var t := LoggedOut(s);
    assert t.pending.Keys == {};
    assert t.pending == map[];
    assert s.epoch + 1 !in t.ticks;
  }

  lemma TimerFiresKeepsInv(s: State, id: TimerId)
    requires Inv(s) && id in s.pending
    ensures Inv(Apply(s, TimerFires(id)))
  {
    PendingSize(s);
    var t := s.(pending := s.pending - {id});
    assert t.pending.Keys == {};
    assert t.pending == map[];
  }

  lemma TickEndsKeepsInv(s: State, e: nat)
    requires Inv(s) && e in s.ticks
    ensures Inv(Apply(s, TickEnds(e)))
  {
    PendingSize(s);
    var t := s.(ticks := s.ticks - multiset{e});
    if e == s.epoch {
      assert s.pending.Keys == {};
      assert s.pending == map[];
      var u := Apply(s, TickEnds(e));
      if u != t {
        assert u.pending == map[s.nextId := e];
        assert u.pending.Keys == {s.nextId};
        PendingSize(u);
      }
    }
  }

  lemma InvMeans(s: State)
    requires Inv(s)
    ensures forall id :: id in s.pending ==> s.timer == Some(id)
    ensures forall e :: e in s.ticks ==> e <= s.epoch
  {
  }

  lemma VisibilityKeepsInv(s: State)
    requires Inv(s) && s.due > 0
    ensures Inv(Apply(s, VisibilityChange))
  {
    var t := s.(due := s.due - 1);
    if t.hidden {
      StoppedIdle(s);
      assert Stopped(t) == Stopped(s).(due := t.due);
    } else if t.loggedIn {
      hide Started;
      StartedKeepsInv(t);
    }
  }

  lemma LoginKeepsInv(s: State)
    requires Inv(s)
    ensures Inv(Apply(s, Login))
  {
    InvMeans(s);
    hide Inv, Started;
    StartedKeepsInv(s.(loggedIn := true));
  }

  lemma LogoutKeepsInv(s: State)
    requires Inv(s)
    ensures Inv(Apply(s, Logout))
  {
    InvMeans(s);
    hide Inv, LoggedOut;
    LoggedOutKeepsInv(s);
  }

  lemma UnauthorizedKeepsInv(s: State, e: nat)
    requires Inv(s) && e in s.ticks
    ensures Inv(Apply(s, TickUnauthorized(e)))
  {
    InvMeans(s);
    hide Inv, LoggedOut;
    LoggedOutKeepsInv(s.(ticks := s.ticks - multiset{e}));
  }

  lemma FlipKeepsInv(s: State)
    requires Inv(s)
    ensures Inv(Apply(s, Flip))
  {
  }

  lemma StepKeepsInv(s: State, ev: Event)
    requires Inv(s) && Enabled(s, ev)
    ensures Inv(Apply(s, ev))
  {
    assert ev.VisibilityChange? ==> s.due > 0;
    assert ev.TimerFires? ==> ev.id in s.pending;
    assert ev.TickEnds? || ev.TickUnauthorized? ==> ev.e in s.ticks;
    hide *;
    match ev
    case Login => LoginKeepsInv(s);
    case Logout => LogoutKeepsInv(s);
    case Flip => FlipKeepsInv(s);
    case VisibilityChange => VisibilityKeepsInv(s);
    case TimerFires(id) => TimerFiresKeepsInv(s, id);
    case TickEnds(e) => TickEndsKeepsInv(s, e);
    case TickUnauthorized(e) => UnauthorizedKeepsInv(s, e);
  }

  /** In every interleaving the scheduler's invariant holds. */
  lemma {:induction false} ReachedKeepsInv(s: State, run: seq<Event>, hidden: bool)
    requires Reached(s, run, hidden)
    ensures Inv(s)
    decreases |run|
  {
    if run != [] {
      var before, ev := Exec(run[..|run| - 1], hidden).value, run[|run| - 1];
      ReachedKeepsInv(before, run[..|run| - 1], hidden);
      StepKeepsInv(before, ev);
    }
  }

  /**
    Exactly one chain when logged in and visible, none otherwise: in every reached state whose
    visibility events have been delivered. Until then there is never more than one.
   */
  lemma OneChain(s: State, run: seq<Event>, hidden: bool)
    requires Reached(s, run, hidden)
    ensures Alive(s) <= 1
    ensures s.due == 0 ==> (Alive(s) == 1 <==> s.loggedIn && !s.hidden)
    ensures forall id :: id in s.pending ==> s.pending[id] == s.epoch
  {
    ReachedKeepsInv(s, run, hidden);
  }

  lemma PolledBegins(s: State, current: nat, e: nat)
    ensures var t := Polled(s, current);
      && t == s.(ticks := t.ticks)
      && t.ticks[e] == s.ticks[e] + if e == current == s.epoch && s.loggedIn && !s.hidden then 1 else 0
  {
  }

  lemma StoppedOnly(s: State)
    ensures Stopped(s) == s.(epoch := s.epoch + 1, timer := None, pending := Stopped(s).pending)
  {
  }

  lemma StartedBegins(s: State, e: nat)
    ensures var t := Started(s);
      && t.epoch == s.epoch + 1 && t.loggedIn == s.loggedIn && t.hidden == s.hidden
      && t.ticks[e] == s.ticks[e] + if e == t.epoch && t.loggedIn && !t.hidden then 1 else 0
  {
    hide Polled, Stopped;
    StoppedOnly(s);
    PolledBegins(Stopped(s), s.epoch + 1, e);
  }

  /**
    A tick begins exactly when somebody logs in, a visibility event arrives or a timer of the
    current epoch fires, on a page that is then visible with somebody logged in; it is of the
    epoch then current, and there is one.
   */
  lemma TickBegins(s: State, ev: Event, e: nat)
    requires Enabled(s, ev)
    ensures var t := Apply(s, ev);
      && (t.ticks[e] > s.ticks[e] <==>
            (e == t.epoch && t.loggedIn && !t.hidden
             && (ev.Login? || ev.VisibilityChange? || (ev.TimerFires? && s.pending[ev.id] == s.epoch))))
      && t.ticks[e] <= s.ticks[e] + 1
  {
    hide Started, Stopped, Polled;
    match ev
    case Login => StartedBegins(s.(loggedIn := true), e);
    case Logout => StoppedOnly(s.(loggedIn := false));
    case Flip =>
    case VisibilityChange =>
      StartedBegins(s.(due := s.due - 1), e);
      StoppedOnly(s.(due := s.due - 1));
    case TimerFires(id) => PolledBegins(s.(pending := s.pending - {id}), s.pending[id], e);
    case TickEnds(_) =>
    case TickUnauthorized(e') => StoppedOnly(s.(ticks := s.ticks - multiset{e'}, loggedIn := false));
  }

  /**
    A timer is set exactly when a tick of the current epoch ends, not unauthorized, on a visible
    page with somebody logged in; it is recorded, and of that epoch.
   */
  lemma TimerSet(s: State, ev: Event, id: TimerId)
    requires Enabled(s, ev) && id !in s.pending
    ensures var t := Apply(s, ev);
      && (id in t.pending <==>
            (ev == TickEnds(s.epoch) && s.loggedIn && !s.hidden && id == s.nextId))
      && (id in t.pending ==> t.timer == Some(id) && t.pending[id] == t.epoch)
  {
  }

  /** A stale tick that ends, well or badly, only leaves: it schedules nothing. */
  lemma StaleTickInert(s: State, run: seq<Event>, hidden: bool, e: nat)
    requires Reached(s, run, hidden) && e in s.ticks && e != s.epoch
    ensures Apply(s, TickEnds(e)) == s.(ticks := s.ticks - multiset{e})
    ensures Alive(Apply(s, TickEnds(e))) == Alive(s)
  {
    ReachedKeepsInv(s, run, hidden);
  }

  /** The end of a stale tick spares the session and its chain exactly unless it logs a session out. */
  lemma StaleTickHarmless(s: State, run: seq<Event>, hidden: bool, e: nat, ev: Event)
    requires Reached(s, run, hidden) && e in s.ticks && e != s.epoch
    requires ev == TickEnds(e) || ev == TickUnauthorized(e)
    ensures Apply(s, ev).loggedIn == s.loggedIn && Alive(Apply(s, ev)) == Alive(s)
       <==> ev.TickEnds? || !s.loggedIn
  {
    ReachedKeepsInv(s, run, hidden);
    if ev.TickEnds? {
      StaleTickInert(s, run, hidden, e);
    } else {
      StepKeepsInv(s, ev);
    }
  }

  /**
    A stale tick that ends unauthorized is not inert: it logs the current session out. Here a
    tick of a first session ends after a second one has begun.
   */
  lemma StaleUnauthorizedLogsOut()
    ensures exists s, run, e :: Reached(s, run, false) && e in s.ticks && e != s.epoch
              && s.loggedIn && !Apply(s, TickUnauthorized(e)).loggedIn
  {
    var s1, s2, s3 := LoggedIn(BOOT), LoggedOut(LoggedIn(BOOT)), LoggedIn(LoggedOut(LoggedIn(BOOT)));
    assert s3.epoch == 3 && 1 in s3.ticks && s3.loggedIn;
    assert !Apply(s3, TickUnauthorized(1)).loggedIn;
    hide Apply, LoggedIn, LoggedOut;
    ExecLogin([], BOOT, false);
    ExecLogin([], BOOT, true);
    ExecLogin([Login], s1, false);
    ExecLogin([Login, Logout], s2, true);
    assert [] + [Login] == [Login] && [Login] + [Logout] == [Login, Logout];
    assert Reached(s3, [Login, Logout] + [Login], false);
  }

  lemma ExecLogin(run: seq<Event>, s: State, login: bool)
    requires Exec(run, false) == Some(s)
    ensures Exec(run + [if login then Login else Logout], false) == Some(if login then LoggedIn(s) else LoggedOut(s))
  {
    hide LoggedIn, LoggedOut;
    var ev := if login then Login else Logout;
    assert (run + [ev])[..|run|] == run;
  }

  // ----------------------------------------------------------------- the handlers

  class Scheduler {
    var pollTimer: Option<TimerId>
    var pollEpoch: nat
    var loggedIn: bool
    var hidden: bool
    var due: nat
    var pending: map<TimerId, nat>
    var nextId: TimerId
    var ticks: multiset<nat>

    ghost function View(): State
      reads this
    {
      State(pollEpoch, pollTimer, loggedIn, hidden, due, pending, nextId, ticks)
    }

    constructor (hidden: bool)
      ensures View() == BOOT.(hidden := hidden)
    {
      pollTimer, pollEpoch, loggedIn := None, 0, false;
      this.hidden, due, pending, nextId, ticks := hidden, 0, map[], 0, multiset{};
    }

    method StopPolling()
      modifies this
      ensures View() == Stopped(old(View()))
    {
      pollEpoch := pollEpoch + 1;
      if pollTimer.Some? { pending := pending - {pollTimer.value}; }
      pollTimer := None;
    }

    method Poll(epoch: nat)
      modifies this
      ensures View() == Polled(old(View()), epoch)
    {
      if epoch != pollEpoch || hidden || !loggedIn { return; }
      ticks := ticks + multiset{epoch};
    }

    /** poll(epoch) once its tick has ended, unless it ended unauthorized. */
    method AfterTick(epoch: nat)
      modifies this
      ensures View() == Rescheduled(old(View()), epoch)
    {
      if epoch == pollEpoch && !hidden && loggedIn {
        pollTimer := Some(nextId);
        pending := pending[nextId := epoch];
        nextId := nextId + 1;
      }
    }

    method StartPolling()
      modifies this
      ensures View() == Started(old(View()))
    {
      StopPolling();
      Poll(pollEpoch);
    }

    method ShowLogin()
      modifies this
      ensures View() == LoggedOut(old(View()))
    {
      loggedIn := false;
      StopPolling();
    }

    method ShowApp()
      modifies this
      ensures View() == LoggedIn(old(View()))
    {
      loggedIn := true;
      StartPolling();
    }

    method OnVisibilityChange()
      requires due > 0
      modifies this
      ensures View() == Apply(old(View()), VisibilityChange)
    {
      hide Stopped, Started;
      due := due - 1;
      if hidden {
        StopPolling();
      } else if loggedIn {
        StartPolling();
      }
    }

    method OnTimer(id: TimerId)
      requires id in pending
      modifies this
      ensures View() == Apply(old(View()), TimerFires(id))
    {
      var epoch := pending[id];
      pending := pending - {id};
      Poll(epoch);
    }

    /** A tick ends; unauthorized says whether with an authentication error. */
    method OnTick(epoch: nat, unauthorized: bool)
      requires epoch in ticks
      modifies this
      ensures View() == Apply(old(View()), if unauthorized then TickUnauthorized(epoch) else TickEnds(epoch))
    {
      ticks := ticks - multiset{epoch};
      if unauthorized {
        ShowLogin();
        return;
      }
      AfterTick(epoch);
    }
  }
}
