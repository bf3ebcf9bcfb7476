/** How a call that borrows an unlock ends: what it hands on to its caller, over all runs. */
module UnlockOutcomes {
  import opened UnlockProtocol
  import opened Wrappers

  /** Only a wallet with private keys whose lock time is known and zero is locked; each state in its own words. */
  lemma EncryptionExactly(info: Option<Info>)
    ensures EncryptionState(info) == Unknown <==> info == None
    ensures EncryptionState(info) == NoKeys <==> exists until :: info == Some(Info(false, until))
    ensures EncryptionState(info) == Unencrypted <==> info == Some(Info(true, None))
    ensures EncryptionState(info) == Locked <==> info == Some(Info(true, Some(0)))
    ensures EncryptionState(info) == Unlocked <==> exists until :: until > 0 && info == Some(Info(true, Some(until)))
  {
    assert info.Some? ==> info == Some(Info(info.value.privateKeysEnabled, info.value.unlockedUntil));
  }

  /** What a run holds of one call: ends of its action, well or badly, of its lock, and reads that failed. */
  datatype Trace = Trace(done: bool, threw: bool, lockFailed: bool, readFailed: bool)

  function TraceOf(run: seq<Event>, sid: SessionId): Trace {
    Trace(ActionEnds(sid, true) in run, ActionEnds(sid, false) in run, LockEnds(sid, false) in run,
          ReadFails(sid) in run)
  }

  const UNTOUCHED := Trace(false, false, false, false)

  lemma TraceSnoc(run: seq<Event>, ev: Event, sid: SessionId)
    ensures var t := TraceOf(run, sid);
      TraceOf(run + [ev], sid) == Trace(t.done || ev == ActionEnds(sid, true), t.threw || ev == ActionEnds(sid, false),
        t.lockFailed || ev == LockEnds(sid, false), t.readFailed || ev == ReadFails(sid))
  {
  }

  /** Where a call stands, against what has happened to it. */
  predicate Agrees(c: Session, t: Trace) {
    && (t.done ==> !t.threw)
    && (t.lockFailed ==> c.beganLocked && (t.done || t.threw))
    && (c.prompt.Some? ==> c.beganLocked)
    && match c.phase
       case ReadingFirst => t == UNTOUCHED && !c.beganLocked && c.actions == 0
       case Prompting(_) => t == UNTOUCHED && c.prompt.Some? && c.actions == 0
       case ReadingAgain(_) => t == UNTOUCHED && c.prompt.Some? && c.actions == 0
       case Acting => t == UNTOUCHED && c.actions == 1 && (c.beganLocked ==> c.prompt.Some?)
       case Locking(ok) => t == Trace(ok, !ok, false, false) && c.actions == 1 && c.prompt.Some?
       case Unwinding(ok) => t == Trace(ok, !ok, false, false) && c.actions == 1 && c.prompt.Some?
       case Returned => t == Trace(true, false, false, false) && c.actions == 1 && (c.beganLocked ==> c.prompt.Some?)
       case Failed =>
         && (t.readFailed || t.threw || t.lockFailed || (c.beganLocked && c.prompt == None))
         && (t.done ==> t.lockFailed) && (t.done || t.threw ==> c.actions == 1)
       case Cancelled => t == UNTOUCHED && c.prompt.Some? && c.actions == 0
  }

  ghost predicate Traced(s: State, run: seq<Event>, sid: SessionId) {
    if sid in s.sessions then Agrees(s.sessions[sid], TraceOf(run, sid)) else TraceOf(run, sid) == UNTOUCHED
  }

  lemma StepAgrees(s: State, ev: Event, sid: SessionId, t: Trace)
    requires Enabled(s, ev) && !ev.OnPage? && ev.sid == sid && !ev.Begin? && Agrees(s.sessions[sid], t)
    ensures Agrees(SessionAct(s, ev), Trace(t.done || ev == ActionEnds(sid, true),
      t.threw || ev == ActionEnds(sid, false), t.lockFailed || ev == LockEnds(sid, false),
      t.readFailed || ev == ReadFails(sid)))
  {
    hide PageAfter, EncryptionState;
  }

  /** A call's own events are the only ones that change it or its trace. */
  lemma OthersKeep(s: State, ev: Event, sid: SessionId)
    requires Enabled(s, ev) && (ev.OnPage? || ev.sid != sid)
    ensures sid in Step(s, ev).sessions <==> sid in s.sessions
    ensures sid in s.sessions ==> Step(s, ev).sessions[sid] == s.sessions[sid]
    ensures ev != ActionEnds(sid, true) && ev != ActionEnds(sid, false)
    ensures ev != LockEnds(sid, false) && ev != ReadFails(sid)
  {
    hide PageAfter, SessionAct;
  }

  lemma OwnStep(s: State, ev: Event)
    requires Enabled(s, ev) && !ev.OnPage?
    ensures ev.sid in Step(s, ev).sessions && Step(s, ev).sessions[ev.sid] == SessionAct(s, ev)
    ensures ev.Begin? ==> ev.sid !in s.sessions && SessionAct(s, ev) == BEGUN
    ensures !ev.Begin? ==> ev.sid in s.sessions
  {
    hide PageAfter;
  }

  lemma BegunAgrees()
    ensures Agrees(BEGUN, UNTOUCHED)
  {
  }

  lemma StepTraced(s: State, ev: Event, run: seq<Event>, sid: SessionId)
    requires Enabled(s, ev) && Traced(s, run, sid)
    ensures Traced(Step(s, ev), run + [ev], sid)
  {
    hide Agrees, SessionAct, PageAfter, TraceOf, Enabled, Step, UNTOUCHED, BEGUN;
    TraceSnoc(run, ev, sid);
    if ev.OnPage? || ev.sid != sid {
      OthersKeep(s, ev, sid);
    } else {
      OwnStep(s, ev);
      if ev.Begin? { BegunAgrees(); } else { StepAgrees(s, ev, sid, TraceOf(run, sid)); }
    }
  }

  lemma {:induction false} ReachedTraced(s: State, run: seq<Event>, sid: SessionId)
    requires Reached(s, run)
    ensures Traced(s, run, sid)
    decreases |run|
  {
    if run != [] {
      var m := |run| - 1;
      var before := Exec(run[..m]).value;
      assert run[..m] + [run[m]] == run;
      hide Traced, Step, Enabled;
      ReachedTraced(before, run[..m], sid);
      StepTraced(before, run[m], run[..m], sid);
    }
  }

  /**
    A call returns exactly when its action ended well and the lock after it, if any, did not
    fail. It fails exactly when a read failed, the action threw, the lock failed, or the wallet
    began locked and no prompt could be raised. It is cancelled exactly when it is over, has
    raised a prompt and never acted.
   */
  lemma CallOutcome(s: State, run: seq<Event>, sid: SessionId)
    requires Reached(s, run) && sid in s.sessions
    ensures var c, t := s.sessions[sid], TraceOf(run, sid);
      && (c.phase.Returned? <==> Final(c.phase) && t.done && !t.lockFailed)
      && (c.phase.Failed? <==>
            (t.readFailed || t.lockFailed || (t.threw && Final(c.phase)) || (c.beganLocked && c.prompt == None)))
      && (c.phase.Cancelled? <==> Final(c.phase) && c.prompt.Some? && c.actions == 0 && !t.readFailed)
  {
    hide *;
    ReachedTraced(s, run, sid);
    Outcome(s.sessions[sid], TraceOf(run, sid));
    TracedIs(s, run, sid);
  }

  lemma TracedIs(s: State, run: seq<Event>, sid: SessionId)
    requires Traced(s, run, sid) && sid in s.sessions
    ensures Agrees(s.sessions[sid], TraceOf(run, sid))
  {
  }

  lemma Outcome(c: Session, t: Trace)
    ensures Agrees(c, t) ==>
      && (c.phase.Returned? <==> Final(c.phase) && t.done && !t.lockFailed)
      && (c.phase.Failed? <==>
            (t.readFailed || t.lockFailed || (t.threw && Final(c.phase)) || (c.beganLocked && c.prompt == None)))
      && (c.phase.Cancelled? <==> Final(c.phase) && c.prompt.Some? && c.actions == 0 && !t.readFailed)
  {
  }
}
