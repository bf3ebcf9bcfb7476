/**
  Borrowing an unlock: operations that need the wallet's keys, the prompts they raise, and
  the one security panel those prompts share, in every interleaving with the user (who may
  also log out, which resets the page), the node and each other.
 */
module UnlockProtocol {
  import opened Wrappers

  // --------------------------------------------------------- encryption state

  /** What getwalletinfo says about keys; unlockedUntil is None when the field is absent. */
  datatype Info = Info(privateKeysEnabled: bool, unlockedUntil: Option<nat>)

  datatype Encryption = Unknown | NoKeys | Unencrypted | Locked | Unlocked

  function EncryptionState(info: Option<Info>): Encryption {
    if info.None? then Unknown
    else if !info.value.privateKeysEnabled then NoKeys
    else if info.value.unlockedUntil.None? then Unencrypted
    else if info.value.unlockedUntil.value == 0 then Locked
    else Unlocked
  }

  // --------------------------------------------------------------------- page

  type PromptId = nat
  type SessionId = nat

  /**
    A prompt, with step numbers: when the node granted its own unlock, when the form then
    raised the prompt's flag, and when the prompt settled, with which answer.
   */
  datatype Prompt = Prompt(grantedAt: Option<nat>, flaggedAt: Option<nat>, settledAt: Option<nat>, answer: bool)

  /** A submitted unlock form: the node is asked, has granted, or the flag is up and the panel is to close. */
  datatype Stage = Asking | Granted | Flagged

  /**
    The page's element references: none after a reset, a set built without a container, or
    the real page with the prompt form, if any, that stands in its panel.
   */
  datatype View = Absent | Detached | Shown(form: Option<PromptId>)

  /** The node's lock: an unlock is a prompt's own or somebody else's. */
  datatype Lock = Sealed | Unsealed(owner: Option<PromptId>)

  /**
    onClose is the prompt that the panel owes an answer; tasks counts the other submissions in
    flight that close the panel when they succeed (backups, restores, the unload button).
   */
  datatype Page = Page(
    now: nat,
    view: View,
    onClose: Option<PromptId>,
    prompts: map<PromptId, Prompt>,
    submitting: map<PromptId, Stage>,
    tasks: nat,
    lock: Lock)

  /** A prompt that has not settled and is owed by nobody: it never will. */
  predicate Lost(p: Page, id: PromptId) {
    id in p.prompts && p.prompts[id].settledAt.None? && p.onClose != Some(id)
  }

  /**
    Closing clears the callback, then hides the panel, then fires: without element references
    it throws in between, and the callback is gone unfired.
   */
  function ClosePanel(p: Page): Page {
    if p.view.Absent? then p.(onClose := None)
    else
      var q := p.(onClose := None, view := if p.view.Shown? then Shown(None) else p.view);
      if p.onClose.Some? && p.onClose.value in p.prompts then
        var owed := p.prompts[p.onClose.value];
        q.(prompts := p.prompts[p.onClose.value := owed.(settledAt := Some(p.now), answer := owed.flaggedAt.Some?)])
      else q
  }

  /** Opening closes what was open; if that throws, nothing is opened. */
  function OpenPanel(p: Page, onClose: Option<PromptId>): Page {
    if p.view.Absent? then ClosePanel(p) else ClosePanel(p).(onClose := onClose)
  }

  /** Without a container the page is rebuilt in vain: it throws, and leaves detached references. */
  function RaisePrompt(p: Page, id: PromptId): Page {
    if p.view.Absent? then p.(view := Detached)
    else
      var q := OpenPanel(p, Some(id));
      q.(prompts := q.prompts[id := Prompt(None, None, None, false)],
         view := if q.view.Shown? then Shown(Some(id)) else q.view)
  }

  /** The node grants the unlock that prompt id's form asked for. */
  function Grant(p: Page, id: PromptId): Page
    requires id in p.prompts
  {
    p.(prompts := p.prompts[id := p.prompts[id].(grantedAt := Some(p.now))],
       submitting := p.submitting[id := Granted], lock := Unsealed(Some(id)))
  }

  /** The wallet's state has been read again and the flag goes up; the panel is still to close. */
  function RaiseFlag(p: Page, id: PromptId): Page
    requires id in p.prompts
  {
    p.(prompts := p.prompts[id := p.prompts[id].(flaggedAt := Some(p.now))], submitting := p.submitting[id := Flagged])
  }

  /**
    What happens to the page outside the calls that borrow: the user logs out, opens the wallet
    view, opens or cancels a form or submits one; submissions end; the node's lock changes.
   */
  datatype PageEvent =
    | Reset
    | ViewShown
    | PanelOpened
    | PanelClosed
    | TaskBegins
    | TaskEnds(closes: bool)
    | Submit(id: PromptId)
    | UnlockGranted(id: PromptId)
    | FlagRaised(id: PromptId)
    | SubmitFails(id: PromptId)
    | SubmitEnds(id: PromptId)
    | LockChanges(sealed: bool)

  /** After the grant a submission fails only if the page is gone when it would show an error. */
  predicate PageEnabled(p: Page, ev: PageEvent) {
    match ev
    case Reset => true
    case ViewShown => true
    case PanelOpened => p.view.Shown?
    case PanelClosed => p.view.Shown?
    case TaskBegins => p.view.Shown?
    case TaskEnds(_) => p.tasks > 0
    case Submit(id) => p.view == Shown(Some(id)) && id !in p.submitting
    case UnlockGranted(id) => id in p.prompts && id in p.submitting && p.submitting[id] == Asking
    case FlagRaised(id) => id in p.prompts && id in p.submitting && p.submitting[id] == Granted
    case SubmitFails(id) =>
      id in p.submitting && (p.submitting[id] == Asking || (p.submitting[id] == Granted && p.view.Absent?))
    case SubmitEnds(id) => id in p.submitting && p.submitting[id] == Flagged
    case LockChanges(_) => true
  }

  function PageAct(p: Page, ev: PageEvent): Page
    requires PageEnabled(p, ev)
  {
    match ev
    case Reset => p.(view := Absent)
    case ViewShown => if p.view.Shown? then p else p.(view := Shown(None))
    case PanelOpened => OpenPanel(p, None)
    case PanelClosed => ClosePanel(p)
    case TaskBegins => p.(tasks := p.tasks + 1)
    case TaskEnds(closes) =>
      var q := p.(tasks := p.tasks - 1);
      if closes then ClosePanel(q) else q
    case Submit(id) => p.(submitting := p.submitting[id := Asking])
    case UnlockGranted(id) => Grant(p, id)
    case FlagRaised(id) => RaiseFlag(p, id)
    case SubmitFails(id) => p.(submitting := p.submitting - {id})
    case SubmitEnds(id) => ClosePanel(p.(submitting := p.submitting - {id}))
    case LockChanges(sealed) => p.(lock := if sealed then Sealed else Unsealed(None))
  }

  function Tick(p: Page): Page { p.(now := p.now + 1) }

  // ----------------------------------------------------------------- sessions

  /** Where one withUnlocked call stands between its awaits. */
  datatype Phase =
    | ReadingFirst
    | Prompting(id: PromptId)
    | ReadingAgain(id: PromptId)
    | Acting
    | Locking(ok: bool)
    | Unwinding(ok: bool)
    | Returned
    | Failed
    | Cancelled

  predicate Final(phase: Phase) { phase.Returned? || phase.Failed? || phase.Cancelled? }

  /**
    One withUnlocked call: its phase, the last encryption state it read, whether the first read
    found the wallet locked, the prompt it raised, how often it has started its action and
    called lock, and whether the node took the lock or refused it.
   */
  datatype Session = Session(phase: Phase, lastRead: Encryption, beganLocked: bool, prompt: Option<PromptId>,
                             actions: nat, locks: nat, relocked: bool, refused: bool)

  const BEGUN := Session(ReadingFirst, Unknown, false, None, 0, 0, false, false)

  datatype State = State(page: Page, sessions: map<SessionId, Session>)

  const IDLE: State := State(Page(0, Absent, None, map[], map[], 0, Sealed), map[])

  /**
    A read resolves with whatever object the page holds, fresh or stale: an error of the node
    is shown and swallowed. It fails only when the page is gone and the error cannot be shown.
    The same holds for the refresh at the end of lock, whose walletlock call may be refused.
   */
  datatype Event =
    | Begin(sid: SessionId)
    | Read(sid: SessionId, info: Option<Info>, newId: PromptId)
    | ReadFails(sid: SessionId)
    | Answered(sid: SessionId)
    | ActionEnds(sid: SessionId, ok: bool)
    | Walletlock(sid: SessionId, taken: bool)
    | LockEnds(sid: SessionId, settles: bool)
    | OnPage(ev: PageEvent)

  predicate Reading(phase: Phase) { phase.ReadingFirst? || phase.ReadingAgain? }

  predicate Enabled(s: State, ev: Event) {
    match ev
    case Begin(sid) => sid !in s.sessions
    case Read(sid, _, newId) => sid in s.sessions && Reading(s.sessions[sid].phase) && newId !in s.page.prompts
    case ReadFails(sid) => sid in s.sessions && Reading(s.sessions[sid].phase) && s.page.view.Absent?
    case Answered(sid) =>
      && sid in s.sessions && s.sessions[sid].phase.Prompting?
      && s.sessions[sid].phase.id in s.page.prompts && s.page.prompts[s.sessions[sid].phase.id].settledAt.Some?
    case ActionEnds(sid, _) => sid in s.sessions && s.sessions[sid].phase.Acting?
    case Walletlock(sid, _) => sid in s.sessions && s.sessions[sid].phase.Locking?
    case LockEnds(sid, settles) =>
      sid in s.sessions && s.sessions[sid].phase.Unwinding? && (settles || s.page.view.Absent?)
    case OnPage(ev) => PageEnabled(s.page, ev)
  }

  /** Does this read raise a prompt? */
  predicate Raises(c: Session, e: Encryption) { c.phase.ReadingFirst? && e == Locked }

  /** A read has resolved: run the action, raise the prompt (on a page that is there), or give up. */
  function AfterRead(c: Session, e: Encryption, view: View, newId: PromptId): Session {
    var d := c.(lastRead := e);
    if e != Locked then d.(phase := Acting, actions := c.actions + 1)
    else if !c.phase.ReadingFirst? then d.(phase := Cancelled)
    else if view.Absent? then d.(phase := Failed, beganLocked := true)
    else d.(phase := Prompting(newId), beganLocked := true, prompt := Some(newId))
  }


  /** What an event makes of its own call. */
  function SessionAct(s: State, ev: Event): Session
    requires Enabled(s, ev) && !ev.OnPage?
  {
    if ev.Begin? then BEGUN
    else
      var c := s.sessions[ev.sid];
      match ev
      case Read(_, info, newId) => AfterRead(c, EncryptionState(info), s.page.view, newId)
      case ReadFails(_) => c.(phase := Failed)
      case Answered(_) => c.(phase := if s.page.prompts[c.phase.id].answer then ReadingAgain(c.phase.id) else Cancelled)
      case ActionEnds(_, ok) =>
        if c.beganLocked then c.(phase := Locking(ok), locks := c.locks + 1)
        else c.(phase := if ok then Returned else Failed)
      case Walletlock(_, taken) => c.(phase := Unwinding(c.phase.ok), relocked := taken, refused := !taken)
      case LockEnds(_, settles) => c.(phase := if c.phase.ok && settles then Returned else Failed)
  }

  /** What an event makes of the page. */
  function PageAfter(s: State, ev: Event): Page
    requires Enabled(s, ev)
  {
    match ev
    case OnPage(pageEvent) => PageAct(s.page, pageEvent)
    case Read(sid, info, newId) =>
      if Raises(s.sessions[sid], EncryptionState(info)) then RaisePrompt(s.page, newId) else s.page
    case Walletlock(_, taken) => if taken then s.page.(lock := Sealed) else s.page
    case _ => s.page
  }

  function Step(s: State, ev: Event): State
    requires Enabled(s, ev)
  {
    State(Tick(PageAfter(s, ev)), if ev.OnPage? then s.sessions else s.sessions[ev.sid := SessionAct(s, ev)])
  }

  function Exec(run: seq<Event>): Option<State> {
    if run == [] then Some(IDLE)
    else
      var before, ev := Exec(run[..|run| - 1]), run[|run| - 1];
      if before.None? || !Enabled(before.value, ev) then None else Some(Step(before.value, ev))
  }

  ghost predicate Reached(s: State, run: seq<Event>) {
    Exec(run) == Some(s)
  }

  // ------------------------------------------------------------- page invariants

  /** The order of a prompt's events, and the yes exactly for a flag raised before it settled. */
  predicate PromptOk(q: Prompt, now: nat) {
    && (q.grantedAt.Some? ==> q.grantedAt.value < now)
    && (q.flaggedAt.Some? ==> q.grantedAt.Some? && q.grantedAt.value < q.flaggedAt.value < now)
    && (q.settledAt.Some? ==> q.settledAt.value < now)
    && (q.answer <==> q.settledAt.Some? && q.flaggedAt.Some? && q.flaggedAt.value < q.settledAt.value)
  }

  /** A prompt against the page: who owes it, what its form may still do. */
  predicate PromptInv(p: Page, id: PromptId)
    requires id in p.prompts
  {
    var q := p.prompts[id];
    && PromptOk(q, p.now)
    && (q.settledAt.Some? ==> p.onClose != Some(id))
    && (q.flaggedAt.Some? && p.view == Shown(Some(id)) ==> id in p.submitting)
    && (id in p.submitting ==> (q.flaggedAt.Some? <==> p.submitting[id] == Flagged))
    && (id in p.submitting && p.submitting[id] == Granted ==> q.grantedAt.Some?)
    && (p.lock == Unsealed(Some(id)) ==> q.grantedAt.Some?)
  }

  ghost predicate PageInv(p: Page) {
    && (forall id :: id in p.prompts ==> PromptInv(p, id))
    && (p.onClose.Some? ==> p.onClose.value in p.prompts)
    && (p.view.Shown? && p.view.form.Some? ==> p.onClose == p.view.form)
    && (p.lock.Unsealed? && p.lock.owner.Some? ==> p.lock.owner.value in p.prompts)
    && p.submitting.Keys <= p.prompts.Keys
  }

  /** A settled prompt keeps its answer, and no prompt disappears. */
  ghost predicate PromptsKept(s: map<PromptId, Prompt>, t: map<PromptId, Prompt>) {
    forall id :: id in s ==>
      id in t && (s[id].settledAt.Some? ==> t[id].settledAt == s[id].settledAt && t[id].answer == s[id].answer)
  }

  lemma PromptUntouched(p: Page, q: Page, id: PromptId)
    requires id in p.prompts && PromptInv(p, id) && id in q.prompts && q.prompts[id] == p.prompts[id]
    requires q.now == p.now && q.submitting == p.submitting && q.lock == p.lock
    requires q.onClose == p.onClose || q.onClose != Some(id)
    requires q.view == p.view || q.view != Shown(Some(id))
    ensures PromptInv(Tick(q), id)
  {
  }

  lemma ClosedPrompt(p: Page, id: PromptId)
    requires id in p.prompts && PromptInv(p, id) && p.onClose == Some(id) && !p.view.Absent?
    ensures id in ClosePanel(p).prompts && PromptInv(Tick(ClosePanel(p)), id)
    ensures ClosePanel(p).prompts[id].settledAt == Some(p.now)
    ensures ClosePanel(p).prompts[id].answer == p.prompts[id].flaggedAt.Some?
  {
  }

  /** Closing touches only the prompt the panel owes. */
  lemma CloseFrame(p: Page, id: PromptId)
    requires id in p.prompts && (p.onClose != Some(id) || p.view.Absent?)
    ensures id in ClosePanel(p).prompts && ClosePanel(p).prompts[id] == p.prompts[id]
  {
  }

  lemma CloseRest(p: Page)
    requires p.onClose.Some? ==> p.onClose.value in p.prompts
    ensures var q := ClosePanel(p);
      && q.prompts.Keys == p.prompts.Keys && q.now == p.now && q.onClose == None && q.submitting == p.submitting
      && q.lock == p.lock && q.tasks == p.tasks
      && q.view == (if p.view.Shown? then Shown(None) else p.view)
  {
  }

  lemma CloseKeepsPrompt(p: Page, id: PromptId)
    requires id in p.prompts && PromptInv(p, id) && (p.onClose.Some? ==> p.onClose.value in p.prompts)
    ensures id in ClosePanel(p).prompts && PromptInv(Tick(ClosePanel(p)), id)
    ensures p.prompts[id].settledAt.Some? ==> ClosePanel(p).prompts[id] == p.prompts[id]
  {
    assert p.prompts[id].settledAt.Some? ==> p.onClose != Some(id);
    hide PromptInv, ClosePanel;
    if p.onClose == Some(id) && !p.view.Absent? {
      ClosedPrompt(p, id);
    } else {
      CloseRest(p);
      CloseFrame(p, id);
      PromptUntouched(p, ClosePanel(p), id);
    }
  }

  lemma CloseKeeps(p: Page)
    requires PageInv(p)
    ensures PageInv(Tick(ClosePanel(p))) && PromptsKept(p.prompts, ClosePanel(p).prompts)
    ensures ClosePanel(p).prompts.Keys == p.prompts.Keys && ClosePanel(p).now == p.now
  {
    hide ClosePanel, PromptInv;
    CloseRest(p);
    forall id | id in p.prompts
      ensures id in ClosePanel(p).prompts && PromptInv(Tick(ClosePanel(p)), id)
      ensures p.prompts[id].settledAt.Some? ==> ClosePanel(p).prompts[id] == p.prompts[id]
    {
      CloseKeepsPrompt(p, id);
    }
  }

  lemma OpenKeeps(p: Page)
    requires PageInv(p)
    ensures PageInv(Tick(OpenPanel(p, None))) && PromptsKept(p.prompts, OpenPanel(p, None).prompts)
  {
    hide PageInv, PromptsKept;
    CloseKeeps(p);
    assert OpenPanel(p, None) == ClosePanel(p);
  }

  /** The raised prompt is fresh and owed; the others are as closing left them. */
  lemma RaiseFrame(p: Page, id: PromptId)
    requires !p.view.Absent? && id !in p.prompts && (p.onClose.Some? ==> p.onClose.value in p.prompts)
    ensures var q, closed := RaisePrompt(p, id), ClosePanel(p);
      && q.prompts == closed.prompts[id := Prompt(None, None, None, false)] && q.onClose == Some(id)
      && q.now == closed.now == p.now && q.submitting == closed.submitting && q.lock == closed.lock
      && q.view == (if p.view.Shown? then Shown(Some(id)) else p.view) && closed.onClose == None
      && closed.prompts.Keys == p.prompts.Keys
  {
  }

  lemma FreshPrompt(q: Page, id: PromptId)
    requires id in q.prompts && q.prompts[id] == Prompt(None, None, None, false)
    requires id !in q.submitting && q.lock != Unsealed(Some(id))
    ensures PromptInv(q, id)
  {
  }

  lemma RaiseKeeps(p: Page, id: PromptId)
    requires PageInv(p) && id !in p.prompts
    ensures PageInv(Tick(RaisePrompt(p, id))) && PromptsKept(p.prompts, RaisePrompt(p, id).prompts)
  {
    if p.view.Absent? {
      FrameKeeps(p, p.(view := Detached));
    } else {
      hide ClosePanel, RaisePrompt, OpenPanel, PromptInv;
      var q, closed := RaisePrompt(p, id), ClosePanel(p);
      CloseKeeps(p);
      CloseRest(p);
      RaiseFrame(p, id);
      assert id !in q.submitting && q.lock != Unsealed(Some(id));
      forall other | other in q.prompts
        ensures PromptInv(Tick(q), other)
      {
        if other == id {
          FreshPrompt(Tick(q), id);
        } else {
          TimelessPrompt(Tick(closed), Tick(q), other);
        }
      }
    }
  }

  lemma TimelessPrompt(p: Page, q: Page, id: PromptId)
    requires id in p.prompts && PromptInv(p, id) && id in q.prompts && q.prompts[id] == p.prompts[id]
    requires q.now == p.now && q.lock == p.lock
    requires q.onClose == p.onClose || q.onClose != Some(id)
    requires q.view == p.view || q.view != Shown(Some(id))
    requires id in q.submitting ==> id in p.submitting && q.submitting[id] == p.submitting[id]
    requires id in p.submitting && id !in q.submitting ==> q.view != Shown(Some(id))
    ensures PromptInv(q, id)
  {
  }

  /** Changes of the page that leave the prompts themselves alone. */
  lemma FrameKeeps(p: Page, q: Page)
    requires PageInv(p) && q.prompts == p.prompts && q.now == p.now && q.onClose == p.onClose
    requires q.view == p.view || q.view == Shown(None) || q.view == Absent || q.view == Detached
    requires q.lock == p.lock || q.lock == Sealed || q.lock == Unsealed(None)
    requires q.submitting == p.submitting
    ensures PageInv(Tick(q))
  {
    forall id | id in q.prompts
      ensures PromptInv(Tick(q), id)
    {
      assert PromptInv(p, id);
    }
  }

  lemma GrantKeeps(p: Page, id: PromptId)
    requires PageInv(p) && PageEnabled(p, UnlockGranted(id))
    ensures PageInv(Tick(Grant(p, id))) && PromptsKept(p.prompts, Grant(p, id).prompts)
  {
    var q := Tick(Grant(p, id));
    forall other | other in q.prompts
      ensures PromptInv(q, other)
    {
      assert PromptInv(p, other);
    }
  }

  lemma FlagKeeps(p: Page, id: PromptId)
    requires PageInv(p) && PageEnabled(p, FlagRaised(id))
    ensures PageInv(Tick(RaiseFlag(p, id))) && PromptsKept(p.prompts, RaiseFlag(p, id).prompts)
  {
    var q := Tick(RaiseFlag(p, id));
    forall other | other in q.prompts
      ensures PromptInv(q, other)
    {
      assert PromptInv(p, other);
    }
  }

  lemma SubmitKeeps(p: Page, id: PromptId)
    requires PageInv(p) && PageEnabled(p, Submit(id))
    ensures PageInv(Tick(PageAct(p, Submit(id))))
  {
    var q := Tick(PageAct(p, Submit(id)));
    forall other | other in q.prompts
      ensures PromptInv(q, other)
    {
      assert PromptInv(p, other);
    }
  }

  lemma SubmitFailsKeeps(p: Page, id: PromptId)
    requires PageInv(p) && PageEnabled(p, SubmitFails(id))
    ensures PageInv(Tick(PageAct(p, SubmitFails(id))))
  {
    var q := Tick(PageAct(p, SubmitFails(id)));
    forall other | other in q.prompts
      ensures PromptInv(q, other)
    {
      assert PromptInv(p, other);
    }
  }

  /** A submission that succeeds is over when it closes the panel. */
  lemma SubmitEndsKeeps(p: Page, id: PromptId)
    requires PageInv(p) && PageEnabled(p, SubmitEnds(id))
    ensures var q := PageAct(p, SubmitEnds(id)); PageInv(Tick(q)) && PromptsKept(p.prompts, q.prompts)
  {
    var closed, q := Tick(ClosePanel(p)), Tick(PageAct(p, SubmitEnds(id)));
    assert q == closed.(submitting := p.submitting - {id});
    CloseRest(p);
    CloseKeeps(p);
    hide ClosePanel, PromptInv, PageAct;
    forall other | other in q.prompts
      ensures PromptInv(q, other)
    {
      TimelessPrompt(closed, q, other);
    }
  }

  lemma TasksOnly(p: Page, tasks: nat)
    requires PageInv(p)
    ensures PageInv(p.(tasks := tasks))
  {
    hide PromptOk;
    forall id | id in p.prompts
      ensures PromptInv(p.(tasks := tasks), id)
    {
      assert PromptInv(p, id);
    }
  }

  lemma TaskEndsKeeps(p: Page, closes: bool)
    requires PageInv(p) && PageEnabled(p, TaskEnds(closes))
    ensures var q := PageAct(p, TaskEnds(closes)); PageInv(Tick(q)) && PromptsKept(p.prompts, q.prompts)
  {
    hide PageInv, ClosePanel;
    var fewer := p.(tasks := p.tasks - 1);
    TasksOnly(p, p.tasks - 1);
    if closes { CloseKeeps(fewer); } else { FrameKeeps(p, fewer); }
  }

  lemma PageStepKeeps(p: Page, ev: PageEvent)
    requires PageInv(p) && PageEnabled(p, ev)
    ensures PageInv(Tick(PageAct(p, ev))) && PromptsKept(p.prompts, PageAct(p, ev).prompts)
  {
    hide PageInv, ClosePanel, OpenPanel;
    match ev
    case PanelOpened => OpenKeeps(p);
    case PanelClosed => CloseKeeps(p);
    case TaskEnds(closes) => TaskEndsKeeps(p, closes);
    case Submit(id) => SubmitKeeps(p, id);
    case UnlockGranted(id) => GrantKeeps(p, id);
    case FlagRaised(id) => FlagKeeps(p, id);
    case SubmitFails(id) => SubmitFailsKeeps(p, id);
    case SubmitEnds(id) => SubmitEndsKeeps(p, id);
    case _ => FrameKeeps(p, PageAct(p, ev));
  }

  // ---------------------------------------------------------- session invariants

  /** What one call may have done by the time it is in its phase, given the prompts. */
  predicate SessionOk(c: Session, prompts: map<PromptId, Prompt>) {
    && c.actions <= 1 && c.locks <= c.actions
    && (c.actions == 1 ==> c.lastRead != Locked)
    && (c.beganLocked && c.lastRead != Locked ==> c.actions == 1)
    && (c.actions == 1 && c.beganLocked ==>
          c.prompt.Some? && c.prompt.value in prompts && prompts[c.prompt.value].answer)
    && (c.prompt.Some? ==> c.beganLocked && c.prompt.value in prompts)
    && (c.beganLocked && c.prompt.None? ==> c.phase.Failed?)
    && (c.locks == 1 ==> c.beganLocked)
    && (c.relocked || c.refused ==> c.locks == 1 && c.relocked != c.refused)
    && match c.phase
       case ReadingFirst => c.actions == 0 && !c.beganLocked && c.lastRead == Unknown
       case Prompting(id) => c.actions == 0 && c.beganLocked && c.prompt == Some(id)
       case ReadingAgain(id) =>
         c.actions == 0 && c.beganLocked && c.prompt == Some(id) && id in prompts && prompts[id].answer
       case Acting => c.actions == 1 && c.locks == 0
       case Locking(_) => c.actions == 1 && c.beganLocked && c.locks == 1 && !c.relocked && !c.refused
       case Unwinding(_) => c.actions == 1 && c.beganLocked && c.locks == 1 && (c.relocked || c.refused)
       case Returned => c.actions == 1 && EndOk(c)
       case Failed => EndOk(c)
       case Cancelled => c.actions == 0
  }

  predicate EndOk(c: Session) {
    && (c.locks == 1 <==> c.beganLocked && c.actions == 1)
    && (c.locks == 1 ==> c.relocked || c.refused)
  }

  /** What a call has relocked is not open through its own prompt. */
  predicate RelockOk(c: Session, lock: Lock) {
    c.relocked && c.prompt.Some? ==> lock != Unsealed(c.prompt)
  }

  ghost predicate Inv(s: State) {
    && PageInv(s.page)
    && forall sid :: sid in s.sessions ==>
      SessionOk(s.sessions[sid], s.page.prompts) && RelockOk(s.sessions[sid], s.page.lock)
  }

  lemma PageAfterKeeps(s: State, ev: Event)
    requires Inv(s) && Enabled(s, ev)
    ensures PageInv(Tick(PageAfter(s, ev))) && PromptsKept(s.page.prompts, PageAfter(s, ev).prompts)
  {
    hide PageInv, PageAct, RaisePrompt;
    match ev
    case OnPage(pageEvent) => PageStepKeeps(s.page, pageEvent);
    case Read(sid, info, newId) =>
      if Raises(s.sessions[sid], EncryptionState(info)) {
        RaiseKeeps(s.page, newId);
      } else {
        FrameKeeps(s.page, s.page);
      }
    case Walletlock(_, taken) => FrameKeeps(s.page, PageAfter(s, ev));
    case _ => FrameKeeps(s.page, s.page);
  }

  /** Sessions rely on prompts only through answers already given. */
  lemma SessionKept(c: Session, p: Page, prompts: map<PromptId, Prompt>)
    requires SessionOk(c, p.prompts) && PageInv(p) && PromptsKept(p.prompts, prompts)
    ensures SessionOk(c, prompts)
  {
    if c.prompt.Some? { assert PromptInv(p, c.prompt.value); }
  }

  lemma RaiseAdds(p: Page, id: PromptId)
    ensures !p.view.Absent? ==> id in RaisePrompt(p, id).prompts
  {
  }

  lemma ReadOk(c: Session, e: Encryption, view: View, newId: PromptId, prompts: map<PromptId, Prompt>)
    requires SessionOk(c, prompts) && Reading(c.phase)
    requires Raises(c, e) && !view.Absent? ==> newId in prompts
    ensures SessionOk(AfterRead(c, e, view, newId), prompts) && !AfterRead(c, e, view, newId).relocked
  {
  }

  lemma ClosePanelLock(p: Page)
    ensures ClosePanel(p).lock == p.lock && (!p.view.Absent? ==> OpenPanel(p, None).lock == p.lock)
    ensures forall id :: RaisePrompt(p, id).lock == p.lock
  {
  }

  /** A prompt's own unlock comes from its grant. */
  lemma LockAfter(s: State, ev: Event)
    requires Enabled(s, ev)
    ensures var lock := PageAfter(s, ev).lock;
      || lock == s.page.lock || lock == Sealed || lock == Unsealed(None)
      || (ev.OnPage? && ev.ev.UnlockGranted? && lock == Unsealed(Some(ev.ev.id)))
    ensures ev.Walletlock? && ev.taken ==> PageAfter(s, ev).lock == Sealed
  {
    ClosePanelLock(s.page);
    hide ClosePanel, RaisePrompt;
    if ev.OnPage? {
      match ev.ev
      case TaskEnds(_) => ClosePanelLock(s.page.(tasks := s.page.tasks - 1));
      case SubmitEnds(id) => ClosePanelLock(s.page.(submitting := s.page.submitting - {id}));
      case _ =>
    }
  }

  lemma RelockedAnswered(c: Session, p: Page)
    requires SessionOk(c, p.prompts) && PageInv(p) && c.relocked
    ensures c.prompt.Some? && c.prompt.value in p.prompts && p.prompts[c.prompt.value].flaggedAt.Some?
    ensures c.prompt.value in p.submitting ==> p.submitting[c.prompt.value] == Flagged
  {
    assert PromptInv(p, c.prompt.value);
  }

  /** No unlock is granted for a prompt whose call has already relocked. */
  lemma RelocksOnce(s: State, ev: Event, sid: SessionId)
    requires Inv(s) && Enabled(s, ev) && sid in s.sessions
    ensures RelockOk(s.sessions[sid], PageAfter(s, ev).lock)
  {
    var c := s.sessions[sid];
    if c.relocked && c.prompt.Some? {
      assert ev.OnPage? && ev.ev.UnlockGranted? ==> s.page.submitting[ev.ev.id] == Asking;
      assert RelockOk(c, s.page.lock) && SessionOk(c, s.page.prompts);
      hide PageInv, SessionOk, PageAfter, Enabled;
      RelockedAnswered(c, s.page);
      LockAfter(s, ev);
    }
  }

  lemma OwnActOk(s: State, ev: Event)
    requires Inv(s) && Enabled(s, ev) && !ev.OnPage? && !ev.Read? && !ev.Begin?
    ensures SessionOk(SessionAct(s, ev), s.page.prompts)
    ensures SessionAct(s, ev).relocked ==> s.sessions[ev.sid].relocked || (ev.Walletlock? && ev.taken)
    ensures SessionAct(s, ev).prompt == s.sessions[ev.sid].prompt
  {
    hide PageInv, RelockOk;
    var c := s.sessions[ev.sid];
    assert SessionOk(c, s.page.prompts);
    hide Inv;
  }

  lemma SessionActOk(s: State, ev: Event)
    requires Inv(s) && Enabled(s, ev) && !ev.OnPage?
    ensures SessionOk(SessionAct(s, ev), PageAfter(s, ev).prompts)
    ensures RelockOk(SessionAct(s, ev), PageAfter(s, ev).lock)
  {
    PageAfterKeeps(s, ev);
    if ev.Read? {
      ReadActOk(s, ev.sid, ev.info, ev.newId);
    } else if !ev.Begin? {
      hide SessionAct, SessionOk, PageInv, PromptsKept;
      OwnActOk(s, ev);
      RelocksOnce(s, ev, ev.sid);
      LockAfter(s, ev);
    }
  }

  lemma ReadActOk(s: State, sid: SessionId, info: Option<Info>, newId: PromptId)
    requires Inv(s) && Enabled(s, Read(sid, info, newId))
    ensures var ev := Read(sid, info, newId);
      SessionOk(SessionAct(s, ev), PageAfter(s, ev).prompts) && RelockOk(SessionAct(s, ev), PageAfter(s, ev).lock)
  {
    var c, e, page := s.sessions[sid], EncryptionState(info), PageAfter(s, Read(sid, info, newId));
    assert SessionOk(c, s.page.prompts);
    PageAfterKeeps(s, Read(sid, info, newId));
    RaiseAdds(s.page, newId);
    hide SessionOk, PageInv, PromptsKept, RaisePrompt, AfterRead;
    SessionKept(c, s.page, page.prompts);
    ReadOk(c, e, s.page.view, newId, page.prompts);
  }

  lemma StepKeeps(s: State, ev: Event)
    requires Inv(s) && Enabled(s, ev)
    ensures Inv(Step(s, ev)) && PromptsKept(s.page.prompts, Step(s, ev).page.prompts)
  {
    var t := Step(s, ev);
    PageAfterKeeps(s, ev);
    assert t.page.prompts == PageAfter(s, ev).prompts && t.page.lock == PageAfter(s, ev).lock;
    forall sid | sid in t.sessions
      ensures SessionOk(t.sessions[sid], t.page.prompts) && RelockOk(t.sessions[sid], t.page.lock)
    {
      hide *;
      SessionKeeps(s, ev, sid);
    }
    hide PageInv, SessionOk, RelockOk, PromptsKept, PageAfter, SessionAct;
  }

  lemma SessionKeeps(s: State, ev: Event, sid: SessionId)
    requires Inv(s) && Enabled(s, ev) && sid in Step(s, ev).sessions
    ensures var t := Step(s, ev); SessionOk(t.sessions[sid], t.page.prompts) && RelockOk(t.sessions[sid], t.page.lock)
  {
    if !ev.OnPage? && sid == ev.sid {
      hide PageInv, SessionOk, RelockOk, PageAfter, SessionAct, Inv, Enabled;
      SessionActOk(s, ev);
    } else {
      PageAfterKeeps(s, ev);
      SessionKept(s.sessions[sid], s.page, PageAfter(s, ev).prompts);
      RelocksOnce(s, ev, sid);
      hide PageInv, SessionOk, RelockOk, PageAfter, SessionAct, Inv, Enabled;
    }
  }

  lemma {:induction false} ReachedInv(s: State, run: seq<Event>)
    requires Reached(s, run)
    ensures Inv(s)
    decreases |run|
  {
    if run != [] {
      var before := Exec(run[..|run| - 1]).value;
      ReachedInv(before, run[..|run| - 1]);
      StepKeeps(before, run[|run| - 1]);
    }
  }

  // ---------------------------------------------------------- calls that borrow

  /**
    Over all runs: a call starts its action at most once, never after reading that the wallet
    is locked, and calls lock at most once. One that is over has called lock exactly if the
    wallet began locked and the action ran, and the action ran on such a wallet exactly if the
    second read found it no longer locked. A cancelled call has neither acted nor locked.
   */
  lemma BorrowedUnlock(s: State, run: seq<Event>, sid: SessionId)
    requires Reached(s, run) && sid in s.sessions
    ensures var c := s.sessions[sid];
            && c.actions <= 1 && c.locks <= 1
            && (c.actions == 1 ==> c.lastRead != Locked)
            && (c.locks == 1 ==> c.beganLocked && c.actions == 1)
            && (Final(c.phase) ==> (c.locks == 1 <==> c.beganLocked && c.lastRead != Locked))
            && (c.beganLocked ==> (c.actions == 1 <==> c.lastRead != Locked))
            && (c.phase.Cancelled? ==> c.actions == 0 && c.locks == 0)
  {
    ReachedInv(s, run);
  }

  /** An action that throws is followed by the lock all the same, if the wallet began locked. */
  lemma LockEvenWhenActionThrows(s: State, run: seq<Event>, sid: SessionId, ok: bool)
    requires Reached(s, run) && Enabled(s, ActionEnds(sid, ok))
    ensures Step(s, ActionEnds(sid, ok)).sessions[sid].locks == if s.sessions[sid].beganLocked then 1 else 0
  {
    ReachedInv(s, run);
  }

  /** A call acts on a wallet that began locked only after its own prompt answered yes. */
  lemma ActsOnlyAfterYes(s: State, run: seq<Event>, sid: SessionId)
    requires Reached(s, run) && sid in s.sessions
    requires s.sessions[sid].beganLocked && s.sessions[sid].actions == 1
    ensures var id, prompts := s.sessions[sid].prompt, s.page.prompts;
            id.Some? && id.value in prompts && prompts[id.value].answer && prompts[id.value].flaggedAt.Some?
  {
    ReachedInv(s, run);
    assert PromptInv(s.page, s.sessions[sid].prompt.value);
  }

  /**
    Giving the unlock back: a call that is over has had the wallet relocked exactly if its second
    read found it no longer locked and the node did not refuse; from then on the wallet is never
    open through this call's prompt. So an unlock that outlives its call was granted to a prompt
    that answered no, or whose call then read locked or could not read, or was refused the lock.
   */
  lemma UnlockGivenBack(s: State, run: seq<Event>, sid: SessionId)
    requires Reached(s, run) && sid in s.sessions
    requires Final(s.sessions[sid].phase) && s.sessions[sid].prompt.Some?
    ensures var c := s.sessions[sid];
            && (c.relocked <==> c.lastRead != Locked && !c.refused)
            && (c.relocked ==> s.page.lock != Unsealed(c.prompt))
            && (s.page.lock == Unsealed(c.prompt) ==> c.lastRead == Locked || c.refused)
            && c.prompt.value in s.page.prompts
            && (c.lastRead != Locked ==> s.page.prompts[c.prompt.value].answer)
  {
    ReachedInv(s, run);
    assert SessionOk(s.sessions[sid], s.page.prompts) && RelockOk(s.sessions[sid], s.page.lock);
  }

  // -------------------------------------------------------------------- prompts

  /**
    A prompt settles at most once, and answers yes exactly if its own form had raised the flag
    before: after the node's grant and the refresh that follows it, not at the grant. A prompt
    that the panel owes has not settled.
   */
  lemma PromptSettlesOnce(s: State, run: seq<Event>, id: PromptId)
    requires Reached(s, run) && id in s.page.prompts
    ensures var q := s.page.prompts[id];
            && (q.answer <==> q.settledAt.Some? && q.flaggedAt.Some? && q.flaggedAt.value < q.settledAt.value)
            && (q.flaggedAt.Some? ==> q.grantedAt.Some? && q.grantedAt.value < q.flaggedAt.value)
            && (s.page.onClose == Some(id) ==> q.settledAt.None?)
    ensures forall ev :: Enabled(s, ev) ==>
      var prompts := Step(s, ev).page.prompts;
      id in prompts && (s.page.prompts[id].settledAt.Some? ==>
        prompts[id].settledAt == s.page.prompts[id].settledAt && prompts[id].answer == s.page.prompts[id].answer)
  {
    ReachedInv(s, run);
    assert PromptInv(s.page, id);
    hide Step, Inv, PageInv;
    forall ev | Enabled(s, ev)
      ensures PromptsKept(s.page.prompts, Step(s, ev).page.prompts)
    {
      StepKeeps(s, ev);
    }
  }

  /** A form in flight closes a page that is gone: the callback is dropped unfired. */
  predicate Drops(s: State, ev: Event, id: PromptId) {
    && s.page.view.Absent? && s.page.onClose == Some(id)
    && ev.OnPage? && (ev.ev.SubmitEnds? || (ev.ev.TaskEnds? && ev.ev.closes))
  }

  lemma CloseLoses(p: Page, id: PromptId)
    requires PageInv(p)
    ensures Lost(Tick(ClosePanel(p)), id) <==> Lost(p, id) || (p.view.Absent? && p.onClose == Some(id))
  {
    hide PromptInv, ClosePanel;
    CloseRest(p);
    if id in p.prompts {
      if p.onClose == Some(id) && !p.view.Absent? {
        assert PromptInv(p, id);
        ClosedPrompt(p, id);
      } else {
        CloseFrame(p, id);
        if p.onClose == Some(id) { OwedUnsettled(p, id); }
      }
    }
  }

  lemma OwedUnsettled(p: Page, id: PromptId)
    requires PageInv(p) && p.onClose == Some(id)
    ensures id in p.prompts && p.prompts[id].settledAt.None?
  {
    assert PromptInv(p, id);
  }

  lemma RaiseLoses(p: Page, newId: PromptId, id: PromptId)
    requires PageInv(p) && newId !in p.prompts
    ensures Lost(Tick(RaisePrompt(p, newId)), id) <==> Lost(p, id)
  {
    if !p.view.Absent? {
      hide ClosePanel, PromptInv, RaisePrompt, OpenPanel;
      CloseLoses(p, id);
      RaiseFrame(p, newId);
    }
  }

  /** One step loses a prompt exactly if it drops its callback; a lost prompt stays lost. */
  lemma StepLoses(s: State, ev: Event, id: PromptId)
    requires Inv(s) && Enabled(s, ev)
    ensures Lost(Step(s, ev).page, id) <==> Lost(s.page, id) || Drops(s, ev, id)
  {
    hide ClosePanel, RaisePrompt, PageInv, SessionAct, SessionOk;
    if ev.OnPage? {
      PageLoses(s.page, ev.ev, id);
    } else if ev.Read? && Raises(s.sessions[ev.sid], EncryptionState(ev.info)) {
      RaiseLoses(s.page, ev.newId, id);
    }
  }

  lemma PageLoses(p: Page, ev: PageEvent, id: PromptId)
    requires PageInv(p) && PageEnabled(p, ev)
    ensures Lost(Tick(PageAct(p, ev)), id) <==>
      Lost(p, id) || (p.view.Absent? && p.onClose == Some(id) && (ev.SubmitEnds? || (ev.TaskEnds? && ev.closes)))
  {
    match ev
    case PanelOpened => hide ClosePanel, PromptInv; CloseLoses(p, id);
    case PanelClosed => hide ClosePanel, PromptInv; CloseLoses(p, id);
    case TaskEnds(closes) =>
      hide ClosePanel, PromptInv, PageInv;
      TasksOnly(p, p.tasks - 1);
      CloseLoses(p.(tasks := p.tasks - 1), id);
    case SubmitEnds(form) =>
      assert PageAct(p, ev) == ClosePanel(p).(submitting := p.submitting - {form});
      hide ClosePanel, PromptInv, PageAct;
      CloseLoses(p, id);
    case _ => hide ClosePanel, PromptInv, PageInv;
  }

  /** The step of the run, if any, that drops the callback of prompt id. */
  predicate DropsAt(run: seq<Event>, k: nat, id: PromptId)
    requires k < |run|
  {
    var before := Exec(run[..k]);
    before.Some? && Drops(before.value, run[k], id)
  }

  lemma DropsSnoc(run: seq<Event>, init: seq<Event>, id: PromptId)
    requires run != [] && init == run[..|run| - 1]
    ensures (exists k: nat :: k < |run| && DropsAt(run, k, id)) <==>
      (exists k: nat :: k < |init| && DropsAt(init, k, id)) || DropsAt(run, |init|, id)
  {
    forall k: nat | k < |init|
      ensures DropsAt(run, k, id) <==> DropsAt(init, k, id)
    {
      assert run[..k] == init[..k];
    }
    hide DropsAt;
    if exists k: nat :: k < |run| && DropsAt(run, k, id) {
      var k: nat :| k < |run| && DropsAt(run, k, id);
      assert k < |init| ==> DropsAt(init, k, id);
    }
    if exists k: nat :: k < |init| && DropsAt(init, k, id) {
      var k: nat :| k < |init| && DropsAt(init, k, id);
      assert DropsAt(run, k, id);
    }
  }

  /**
    A prompt is left hanging, unsettled and owed by nobody, exactly if some form in flight closed
    the panel while the page was reset and the panel still owed that prompt.
   */
  lemma {:induction false} LostExactly(s: State, run: seq<Event>, id: PromptId)
    requires Reached(s, run)
    ensures Lost(s.page, id) <==> exists k: nat :: k < |run| && DropsAt(run, k, id)
    decreases |run|
  {
    if run != [] {
      var m := |run| - 1;
      var before := Exec(run[..m]).value;
      assert DropsAt(run, m, id) <==> Drops(before, run[m], id);
      hide Drops, DropsAt, Lost, Step, Enabled;
      LostExactly(before, run[..m], id);
      ReachedInv(before, run[..m]);
      StepLoses(before, run[m], id);
      DropsSnoc(run, run[..m], id);
    }
  }

  /** A lost prompt never settles, and the call that waits for it waits for ever. */
  lemma {:induction false} LostForever(s: State, run: seq<Event>, t: State, more: seq<Event>,
                                       id: PromptId, sid: SessionId)
    requires Reached(s, run) && Reached(t, run + more) && Lost(s.page, id)
    requires sid in s.sessions && s.sessions[sid].phase == Prompting(id)
    ensures Lost(t.page, id) && sid in t.sessions && t.sessions[sid].phase == Prompting(id)
    decreases |more|
  {
    if more == [] {
      assert run + more == run;
    } else {
      var m := |more| - 1;
      var init, ev := run + more[..m], more[m];
      assert (run + more)[..|run + more| - 1] == init;
      var before := Exec(init).value;
      LostForever(s, run, before, more[..m], id, sid);
      ReachedInv(before, init);
      StepLoses(before, ev, id);
      WaitsOn(before, ev, id, sid);
    }
  }

  lemma WaitsOn(s: State, ev: Event, id: PromptId, sid: SessionId)
    requires Enabled(s, ev) && Lost(s.page, id)
    requires sid in s.sessions && s.sessions[sid].phase == Prompting(id)
    ensures sid in Step(s, ev).sessions && Step(s, ev).sessions[sid].phase == Prompting(id)
  {
    hide PageAfter, SessionAct;
  }

  // ------------------------------------------------------- submissions that are late

  /** The step leaves prompt id as it was, and owed if it was owed. */
  predicate Spares(s: State, ev: Event, id: PromptId)
    requires Enabled(s, ev)
  {
    var t := Step(s, ev);
    && id in s.page.prompts && id in t.page.prompts && t.page.prompts[id] == s.page.prompts[id]
    && (s.page.onClose == Some(id) <==> t.page.onClose == Some(id))
  }

  /**
    A submission outlives its panel. When it succeeds it spares every other prompt exactly if
    the panel owes no other one.
   */
  lemma SubmitSparesOthers(s: State, run: seq<Event>, id: PromptId)
    requires Reached(s, run) && Enabled(s, OnPage(SubmitEnds(id)))
    ensures (forall other :: other in s.page.prompts && other != id ==> Spares(s, OnPage(SubmitEnds(id)), other))
       <==> s.page.onClose.None? || s.page.onClose == Some(id)
  {
    ReachedInv(s, run);
    var p, q := s.page, s.page.(submitting := s.page.submitting - {id});
    assert Step(s, OnPage(SubmitEnds(id))).page == Tick(ClosePanel(q));
    CloseRest(q);
    hide ClosePanel, PromptInv;
    forall other | other in p.prompts && other != id && p.onClose != Some(other)
      ensures Spares(s, OnPage(SubmitEnds(id)), other)
    {
      CloseFrame(q, other);
    }
    if p.onClose.Some? && p.onClose != Some(id) {
      assert !Spares(s, OnPage(SubmitEnds(id)), p.onClose.value);
    }
  }

  /**
    The other prompt that the panel owes settles at once, with no unless its own flag is up; on
    a reset page it is lost instead.
   */
  lemma LateSubmitClosesNewPanel(s: State, run: seq<Event>, older: PromptId, newer: PromptId)
    requires Reached(s, run) && older != newer
    requires Enabled(s, OnPage(SubmitEnds(older))) && s.page.onClose == Some(newer)
    ensures var p, q := s.page, Step(s, OnPage(SubmitEnds(older))).page;
      && q.onClose == None && newer in q.prompts && older in q.prompts && q.prompts[older] == p.prompts[older]
      && (p.view.Absent? <==> Lost(q, newer))
      && (!p.view.Absent? ==>
            q.prompts[newer].settledAt == Some(p.now) && q.prompts[newer].answer == p.prompts[newer].flaggedAt.Some?)
  {
    ReachedInv(s, run);
    var q := s.page.(submitting := s.page.submitting - {older});
    assert Step(s, OnPage(SubmitEnds(older))).page == Tick(ClosePanel(q));
    OwedUnsettled(s.page, newer);
    assert older in s.page.prompts;
  }

  // ----------------------------------------------------------------------- runs

  const LOCKED_INFO := Some(Info(true, Some(0)))

  lemma ExecSnoc(run: seq<Event>, s: State, ev: Event)
    requires Reached(s, run) && Enabled(s, ev)
    ensures Reached(Step(s, ev), run + [ev])
  {
    hide Enabled, Step;
    assert (run + [ev])[..|run|] == run;
  }

  /** One more step of a run, spelled out. */
  lemma Extend(run: seq<Event>, s: State, ev: Event, t: State)
    requires Reached(s, run) && Enabled(s, ev) && t == Step(s, ev)
    ensures Reached(t, run + [ev])
  {
    ExecSnoc(run, s, ev);
  }

  const FRESH := Prompt(None, None, None, false)
  const ASKED := BEGUN.(phase := Prompting(0), lastRead := Locked, beganLocked := true, prompt := Some(0))

  /** The wallet view is opened, and a call raises prompt 0, whose form is submitted. */
  const ASK: seq<Event> := [OnPage(ViewShown), Begin(0), Read(0, LOCKED_INFO, 0)]

  function AfterAsk(): State {
    State(Page(3, Shown(Some(0)), Some(0), map[0 := FRESH], map[], 0, Sealed), map[0 := ASKED])
  }

  function AfterSubmit(): State {
    State(Page(4, Shown(Some(0)), Some(0), map[0 := FRESH], map[0 := Asking], 0, Sealed), map[0 := ASKED])
  }

  lemma AskReached()
    ensures Reached(AfterAsk(), ASK)
  {
    var s1 := State(IDLE.page.(now := 1, view := Shown(None)), map[]);
    var s2 := State(s1.page.(now := 2), map[0 := BEGUN]);
    var e1, e2, e3: Event := OnPage(ViewShown), Begin(0), Read(0, LOCKED_INFO, 0);
    assert Step(IDLE, e1) == s1 && Step(s1, e2) == s2;
    assert Step(s2, e3) == AfterAsk();
    assert ASK == [] + [e1] + [e2] + [e3];
    assert Reached(IDLE, []);
    hide Step, AfterAsk;
    Extend([], IDLE, e1, s1);
    Extend([] + [e1], s1, e2, s2);
    Extend([] + [e1] + [e2], s2, e3, AfterAsk());
  }

  lemma SubmitReached()
    ensures Reached(AfterSubmit(), ASK + [OnPage(Submit(0))])
  {
    AskReached();
    assert Enabled(AfterAsk(), OnPage(Submit(0))) && Step(AfterAsk(), OnPage(Submit(0))) == AfterSubmit();
    hide Step, AfterAsk, AfterSubmit, Enabled, ASK;
    Extend(ASK, AfterAsk(), OnPage(Submit(0)), AfterSubmit());
  }

  // A prompt that hangs: a backup in flight succeeds after the user has logged out.

  function BackupState(now: nat, view: View, tasks: nat, onClose: Option<PromptId>): State {
    State(Page(now, view, onClose, map[0 := FRESH], map[], tasks, Sealed), map[0 := ASKED])
  }

  lemma BackupBegins()
    ensures Enabled(AfterAsk(), OnPage(TaskBegins))
    ensures Step(AfterAsk(), OnPage(TaskBegins)) == BackupState(4, Shown(Some(0)), 1, Some(0))
  {
  }

  lemma BackupReset()
    ensures var s := BackupState(4, Shown(Some(0)), 1, Some(0));
      Enabled(s, OnPage(Reset)) && Step(s, OnPage(Reset)) == BackupState(5, Absent, 1, Some(0))
  {
  }

  lemma BackupEnds()
    ensures var s, ev := BackupState(5, Absent, 1, Some(0)), OnPage(TaskEnds(true));
      Enabled(s, ev) && Step(s, ev) == BackupState(6, Absent, 0, None)
  {
  }

  const BACKUP: seq<Event> := ASK + [OnPage(TaskBegins)] + [OnPage(Reset)] + [OnPage(TaskEnds(true))]

  /**
    A prompt that hangs for ever: while a backup is in flight the user logs out, and the backup
    then succeeds.
   */
  lemma BackupLosesPrompt()
    ensures exists s ::
      Reached(s, BACKUP) && Lost(s.page, 0) && 0 in s.sessions && s.sessions[0].phase == Prompting(0)
  {
    var begins, ends := OnPage(TaskBegins), OnPage(TaskEnds(true));
    var s1, s2 := BackupState(4, Shown(Some(0)), 1, Some(0)), BackupState(5, Absent, 1, Some(0));
    var s3 := BackupState(6, Absent, 0, None);
    assert Lost(s3.page, 0) && s3.sessions[0].phase == Prompting(0);
    hide Step, AfterAsk, Enabled, BackupState, ASK, Reached, Lost;
    AskReached();
    BackupBegins();
    BackupReset();
    BackupEnds();
    Extend(ASK, AfterAsk(), begins, s1);
    Extend(ASK + [begins], s1, OnPage(Reset), s2);
    Extend(ASK + [begins] + [OnPage(Reset)], s2, ends, s3);
  }

  // A submission whose panel a second call's prompt has taken over.

  const REPLACED := FRESH.(settledAt := Some(5))
  const GRANTED := REPLACED.(grantedAt := Some(6))
  const FLAGGED := GRANTED.(flaggedAt := Some(7))
  const BOTH := map[0 := ASKED, 1 := ASKED.(phase := Prompting(1), prompt := Some(1))]

  function Second(): State {
    State(Page(5, Shown(Some(0)), Some(0), map[0 := FRESH], map[0 := Asking], 0, Sealed), map[0 := ASKED, 1 := BEGUN])
  }

  function TakenOver(now: nat, older: Prompt, stage: Stage, lock: Lock): State {
    State(Page(now, Shown(Some(1)), Some(1), map[0 := older, 1 := FRESH], map[0 := stage], 0, lock), BOTH)
  }

  lemma SecondBegins()
    ensures Enabled(AfterSubmit(), Begin(1)) && Step(AfterSubmit(), Begin(1)) == Second()
  {
  }

  lemma SecondTakesOver()
    ensures var ev := Read(1, LOCKED_INFO, 1);
      Enabled(Second(), ev) && Step(Second(), ev) == TakenOver(6, REPLACED, Asking, Sealed)
  {
  }

  lemma FirstGranted()
    ensures var s, ev := TakenOver(6, REPLACED, Asking, Sealed), OnPage(UnlockGranted(0));
      Enabled(s, ev) && Step(s, ev) == TakenOver(7, GRANTED, Granted, Unsealed(Some(0)))
  {
  }

  lemma FirstFlagged()
    ensures var s, ev := TakenOver(7, GRANTED, Granted, Unsealed(Some(0))), OnPage(FlagRaised(0));
      Enabled(s, ev) && Step(s, ev) == TakenOver(8, FLAGGED, Flagged, Unsealed(Some(0)))
  {
  }

  const LATE: seq<Event> :=
    ASK + [OnPage(Submit(0))] + [Begin(1)] + [Read(1, LOCKED_INFO, 1)] + [OnPage(UnlockGranted(0))]
    + [OnPage(FlagRaised(0))]

  /** A submission can be about to close the panel of the prompt that has replaced its own. */
  lemma LateSubmitReached()
    ensures exists s :: Reached(s, LATE) && Enabled(s, OnPage(SubmitEnds(0))) && s.page.onClose == Some(1)
  {
    var s1, s2 := Second(), TakenOver(6, REPLACED, Asking, Sealed);
    var s3 := TakenOver(7, GRANTED, Granted, Unsealed(Some(0)));
    var s4 := TakenOver(8, FLAGGED, Flagged, Unsealed(Some(0)));
    var submitted := ASK + [OnPage(Submit(0))];
    assert Enabled(s4, OnPage(SubmitEnds(0))) && s4.page.onClose == Some(1);
    hide Step, AfterSubmit, Second, TakenOver, Enabled, ASK, Reached;
    SubmitReached();
    SecondBegins();
    SecondTakesOver();
    FirstGranted();
    FirstFlagged();
    Extend(submitted, AfterSubmit(), Begin(1), s1);
    Extend(submitted + [Begin(1)], s1, Read(1, LOCKED_INFO, 1), s2);
    Extend(submitted + [Begin(1)] + [Read(1, LOCKED_INFO, 1)], s2, OnPage(UnlockGranted(0)), s3);
    Extend(submitted + [Begin(1)] + [Read(1, LOCKED_INFO, 1)] + [OnPage(UnlockGranted(0))],
      s3, OnPage(FlagRaised(0)), s4);
  }

  // An unlock that arrives when its prompt has been cancelled and its call is over.

  function Cancelling(now: nat, no: Prompt, stage: Stage, lock: Lock, phase: Phase): State {
    State(Page(now, Shown(None), None, map[0 := no], map[0 := stage], 0, lock), map[0 := ASKED.(phase := phase)])
  }

  const NO := FRESH.(settledAt := Some(4))

  lemma PanelCancelled()
    ensures Enabled(AfterSubmit(), OnPage(PanelClosed))
    ensures Step(AfterSubmit(), OnPage(PanelClosed)) == Cancelling(5, NO, Asking, Sealed, Prompting(0))
  {
  }

  lemma CallGivesUp()
    ensures var s := Cancelling(5, NO, Asking, Sealed, Prompting(0));
      Enabled(s, Answered(0)) && Step(s, Answered(0)) == Cancelling(6, NO, Asking, Sealed, Cancelled)
  {
  }

  lemma GrantedTooLate()
    ensures var s, ev := Cancelling(6, NO, Asking, Sealed, Cancelled), OnPage(UnlockGranted(0));
      && Enabled(s, ev)
      && Step(s, ev) == Cancelling(7, NO.(grantedAt := Some(6)), Granted, Unsealed(Some(0)), Cancelled)
  {
  }

  const CANCELLED: seq<Event> :=
    ASK + [OnPage(Submit(0))] + [OnPage(PanelClosed)] + [Answered(0)] + [OnPage(UnlockGranted(0))]

  /**
    An unlock that nobody gives back: the panel is cancelled while its form is in flight, the
    call gives up, and the node grants the unlock after that. The prompt has answered no.
   */
  lemma UnlockLeftBehind()
    ensures exists s ::
      && Reached(s, CANCELLED) && s.page.lock == Unsealed(Some(0))
      && 0 in s.sessions && s.sessions[0].phase == Cancelled && s.sessions[0].locks == 0
  {
    var s1, s2 := Cancelling(5, NO, Asking, Sealed, Prompting(0)), Cancelling(6, NO, Asking, Sealed, Cancelled);
    var s3 := Cancelling(7, NO.(grantedAt := Some(6)), Granted, Unsealed(Some(0)), Cancelled);
    var submitted := ASK + [OnPage(Submit(0))];
    assert s3.page.lock == Unsealed(Some(0)) && s3.sessions[0].phase == Cancelled && s3.sessions[0].locks == 0;
    hide Step, AfterSubmit, Cancelling, Enabled, ASK, Reached;
    SubmitReached();
    PanelCancelled();
    CallGivesUp();
    GrantedTooLate();
    Extend(submitted, AfterSubmit(), OnPage(PanelClosed), s1);
    Extend(submitted + [OnPage(PanelClosed)], s1, Answered(0), s2);
    Extend(submitted + [OnPage(PanelClosed)] + [Answered(0)], s2, OnPage(UnlockGranted(0)), s3);
  }

  // ------------------------------------------------------------ the panel's code

  /** The panel's part of the page, with the prompts its callbacks settle. */
  class SecurityPanel {
    var view: View
    var onClose: Option<PromptId>
    var prompts: map<PromptId, Prompt>
    var now: nat

    /** The page p with this object's fields in it. */
    ghost function On(p: Page): Page
      reads this
    {
      p.(now := now, view := view, onClose := onClose, prompts := prompts)
    }

    constructor ()
      ensures forall p :: On(p) == p.(now := 0, view := Absent, onClose := None, prompts := map[])
    {
      view, onClose, prompts, now := Absent, None, map[], 0;
    }

    /** On logout: the references go, the callback stays. */
    method ResetWallet()
      modifies this`view
      ensures forall p :: On(p) == PageAct(old(On(p)), Reset)
    {
      view := Absent;
    }

    /** The wallet view is opened with its container: it is built unless it stands. */
    method ShowWallet()
      modifies this`view
      ensures forall p :: On(p) == PageAct(old(On(p)), ViewShown)
    {
      if !view.Shown? { view := Shown(None); }
    }

    /** Settle the prompt a closed panel owed. */
    method FireOnClose(id: PromptId)
      modifies this`prompts
      ensures prompts == if id in old(prompts)
        then old(prompts)[id := old(prompts)[id].(settledAt := Some(now), answer := old(prompts)[id].flaggedAt.Some?)]
        else old(prompts)
    {
      if id in prompts {
        prompts := prompts[id := prompts[id].(settledAt := Some(now), answer := prompts[id].flaggedAt.Some?)];
      }
    }

    method CloseSecPanel() returns (threw: bool)
      modifies this`view, this`onClose, this`prompts
      ensures threw <==> old(view).Absent?
      ensures forall p :: On(p) == ClosePanel(old(On(p)))
    {
      var owed := onClose;
      onClose := None;
      if view.Absent? { return true; }
      if view.Shown? { view := Shown(None); }
      if owed.Some? { FireOnClose(owed.value); }
      return false;
    }

    method OpenSecPanel(callback: Option<PromptId>) returns (threw: bool)
      modifies this`view, this`onClose, this`prompts
      ensures threw <==> old(view).Absent?
      ensures forall p :: On(p) == OpenPanel(old(On(p)), callback)
    {
      threw := CloseSecPanel();
      if threw { return; }
      onClose := callback;
    }

    /** Building the page without its container throws once the references have been set. */
    method PromptUnlock(id: PromptId) returns (threw: bool)
      modifies this`view, this`onClose, this`prompts
      ensures threw <==> old(view).Absent?
      ensures forall p :: On(p) == RaisePrompt(old(On(p)), id)
    {
      if view.Absent? {
        view := Detached;
        return true;
      }
      threw := OpenSecPanel(Some(id));
      prompts := prompts[id := Prompt(None, None, None, false)];
      if view.Shown? { view := Shown(Some(id)); }
    }
  }
}
