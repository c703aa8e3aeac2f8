/**
 * The hook that keeps a compile answer for the document on screen: an effect per committed
 * render, a debounce timer, one request at a time, and a second look when a reply lands.
 * A run is any interleaving of store actions, renders, late effects, timers and replies.
 */
module CompileLoop {
  import opened Options
  import opened DraftStore

  const COMPILE_DEBOUNCE_MS: nat := 600

  /**
   * `committed` is the document the last render saw; `ran` the one the effect last ran
   * for in this mount. `requests` are the compile requests not yet answered. `asked` and
   * `nextDoc` are bookkeeping: the last document a request was made for, and the next
   * document identity to hand out.
   */
  datatype Loop = Loop(
    draft: Draft,
    committed: Option<Doc>,
    ran: Option<Option<Doc>>,
    timer: Option<nat>,
    inFlight: bool,
    requests: seq<Doc>,
    mounted: bool,
    asked: Option<Doc>,
    nextDoc: nat)

  /** What else may happen to the store. An edit or an opened draft is always a new object. */
  datatype Action =
    | Open(revision: Option<nat>, cases: Cases)
    | Close
    | Edit
    | EditCases(edited: Cases)
    | SetSave(status: SaveStatus)
    | SaveSucceeded(sent: Doc, at: nat)

  datatype Reply = Planned(body: nat) | TurnedDown(reasons: seq<string>) | Broken(message: string)

  datatype Event =
    | Store(action: Action)
    | Commit
    | Effect
    | TimerFires
    | Lands(i: nat, reply: Reply)
    | Unmount
    | Remount

  // ------------------------------------------------------------------- steps

  function Acted(l: Loop, a: Action): Loop
  {
    match a
    case Open(revision, cases) => l.(draft := Opened(l.nextDoc, revision, cases), nextDoc := l.nextDoc + 1)
    case Close => l.(draft := CLOSED)
    case Edit => l.(draft := Edited(l.draft, l.nextDoc), nextDoc := l.nextDoc + 1)
    case EditCases(cases) => l.(draft := CasesEdited(l.draft, cases))
    case SetSave(status) => l.(draft := l.draft.(save := status))
    case SaveSucceeded(sent, at) => l.(draft := SaveLanded(l.draft, sent, at))
  }

  /** `run`: ask for the document as it is now. */
  function Asked(l: Loop): Loop
  {
    match l.draft.ir
    case None => l
    case Some(d) => l.(draft := CompileAsked(l.draft, d), inFlight := true, requests := l.requests + [d], asked := Some(d))
  }

  /** The effect: the previous run's timer is cleared, then a new one may be set. */
  function EffectRan(l: Loop): Loop
  {
    var l := l.(ran := Some(l.committed), timer := None);
    if l.committed.None? || l.inFlight then l
    else l.(timer := Some(if l.draft.compile.status.Idle? then 0 else COMPILE_DEBOUNCE_MS))
  }

  function Told(d: Draft, askedFor: Doc, reply: Reply): Draft
  {
    match reply
    case Planned(body) => CompileAnswered(d, askedFor, Answer(askedFor, body))
    case TurnedDown(reasons) => CompileTurnedDown(d, askedFor, reasons)
    case Broken(message) => CompileBroke(d, askedFor, message)
  }

  function Landed(l: Loop, i: nat, reply: Reply): Loop
    requires i < |l.requests|
  {
    var askedFor := l.requests[i];
    var told := l.(draft := if l.mounted then Told(l.draft, askedFor, reply) else l.draft,
                   requests := l.requests[..i] + l.requests[i + 1..],
                   inFlight := false);
    if told.mounted && told.draft.ir.Some? && told.draft.ir != Some(askedFor) then Asked(told) else told
  }

  predicate Enabled(l: Loop, e: Event)
  {
    match e
    case Store(_) => true
    case Commit => l.mounted
    case Effect => l.mounted && l.ran != Some(l.committed)
    case TimerFires => l.timer.Some?
    case Lands(i, _) => i < |l.requests|
    case Unmount => l.mounted
    case Remount => !l.mounted
  }

  function Step(l: Loop, e: Event): Loop
    requires Enabled(l, e)
  {
    match e
    case Store(a) => Acted(l, a)
    case Commit => l.(committed := l.draft.ir)
    case Effect => EffectRan(l)
    case TimerFires => Asked(l.(timer := None))
    case Lands(i, reply) => Landed(l, i, reply)
    case Unmount => l.(mounted := false, timer := None)
    case Remount => l.(mounted := true, ran := None)
  }

  /** The hook as it starts, over any store that nothing has been asked about. */
  function Start(draft: Draft, nextDoc: nat): Loop
  {
    Loop(draft, draft.ir, None, None, false, [], true, None, nextDoc)
  }

  predicate Startable(draft: Draft, nextDoc: nat)
  {
    draft.compile == IDLE_COMPILE && (draft.ir.Some? ==> draft.ir.value < nextDoc)
  }

  /** `end` is where the events lead from `start`, each enabled in its turn. */
  predicate Leads(start: Loop, events: seq<Event>, end: Loop)
    decreases |events|
  {
    if events == [] then end == start
    else Enabled(start, events[0]) && Leads(Step(start, events[0]), events[1..], end)
  }

  // --------------------------------------------------------------- invariant

  /** Nothing the hook reacts to is still outstanding. */
  predicate Quiet(l: Loop)
  {
    l.mounted && l.committed == l.draft.ir && l.ran == Some(l.committed) && l.timer.None? && l.requests == []
  }

  /** The status says something about the current document, not about an earlier one. */
  predicate StatusTells(d: Draft)
  {
    match d.compile.status
    case Idle => d.compile.askedFor.None?
    case Stale => true
    case Pending => d.ir.Some? && d.compile.askedFor == d.ir
    case Current => d.ir.Some? && d.compile.askedFor == d.ir
                    && d.compile.result.Some? && Some(d.compile.result.value.about) == d.ir
    case Refused => d.ir.Some? && d.compile.askedFor == d.ir
    case Failed => d.ir.Some? && d.compile.askedFor == d.ir
  }

  predicate Below(d: Option<Doc>, nextDoc: nat) { d.Some? ==> d.value < nextDoc }

  predicate Inv(l: Loop)
  {
    // one request at a time, and no timer beside it
    && (if l.inFlight then |l.requests| == 1 && l.asked == Some(l.requests[0]) else l.requests == [])
    && (l.timer.Some? ==> !l.inFlight && l.mounted)
    // identities handed out so far
    && Below(l.draft.ir, l.nextDoc) && Below(l.committed, l.nextDoc)
    && (l.ran.Some? ==> Below(l.ran.value, l.nextDoc))
    // an effect that ran for the current document has asked for it, unless it still will
    && (l.mounted && l.draft.ir.Some? && l.ran == Some(l.draft.ir) && l.timer.None? && !l.inFlight ==>
          && l.asked == l.draft.ir
          && (l.draft.compile.status.Current? || l.draft.compile.status.Refused? || l.draft.compile.status.Failed?))
    && StatusTells(l.draft)
  }

  lemma ActionKeepsInv(l: Loop, a: Action)
    requires Inv(l)
    ensures Inv(Acted(l, a))
  {
    match a
    case Open(revision, cases) => OpenKeepsInv(l, revision, cases);
    case Edit => EditKeepsInv(l);
    case _ =>
  }

  lemma OpenKeepsInv(l: Loop, revision: Option<nat>, cases: Cases)
    requires Inv(l)
    ensures Inv(Acted(l, Open(revision, cases)))
  {}

  lemma EditKeepsInv(l: Loop)
    requires Inv(l)
    ensures Inv(Acted(l, Edit))
  {}

  /** A reply is shown, and a document that changed meanwhile is asked for at once. */
  lemma LandingKeepsInv(l: Loop, reply: Reply)
    requires Inv(l) && l.requests != []
    ensures Inv(Landed(l, 0, reply))
  {
    assert l.requests[..0] + l.requests[1..] == [];
    assert StatusTells(Told(l.draft, l.requests[0], reply));
  }

  lemma StepKeepsInv(l: Loop, e: Event)
    requires Inv(l) && Enabled(l, e)
    ensures Inv(Step(l, e))
  {
    match e
    case Store(a) => ActionKeepsInv(l, a);
    case Commit =>
    case Effect =>
    case TimerFires => if l.draft.ir.Some? { FiringKeepsInv(l); }
    case Lands(i, reply) => LandingKeepsInv(l, reply);
    case Unmount =>
    case Remount =>
  }

  lemma FiringKeepsInv(l: Loop)
    requires Inv(l) && l.timer.Some? && l.draft.ir.Some?
    ensures Inv(Asked(l.(timer := None)))
  {}

  lemma {:induction false} RunKeepsInv(start: Loop, events: seq<Event>, end: Loop)
    requires Inv(start) && Leads(start, events, end)
    ensures Inv(end)
    decreases |events|
  {
    if events != [] {
      StepKeepsInv(start, events[0]);
      RunKeepsInv(Step(start, events[0]), events[1..], end);
    }
  }

  // ----------------------------------------------------------- main results

  /**
   * At every point of every run there is at most one compile request, and no timer beside
   * it; the status never speaks of a document other than the current one; and whenever
   * nothing is outstanding, the last document asked for is the current one and its own
   * answer, refusal or failure is what is shown.
   */
  lemma CompileRuns(draft: Draft, nextDoc: nat, events: seq<Event>, end: Loop)
    requires Startable(draft, nextDoc) && Leads(Start(draft, nextDoc), events, end)
    ensures |end.requests| <= 1
    ensures end.timer.Some? ==> end.requests == []
    ensures StatusTells(end.draft)
    ensures Quiet(end) && end.draft.ir.Some? ==>
              && end.asked == end.draft.ir && end.draft.compile.askedFor == end.draft.ir
              && (end.draft.compile.status.Current? || end.draft.compile.status.Refused? || end.draft.compile.status.Failed?)
  {
    RunKeepsInv(Start(draft, nextDoc), events, end);
  }

  // ---------------------------------------------------------- what is shown

  /** A reply shown, and the document it was about. */
  datatype Heard = Heard(about: Doc, reply: Reply)

  /** What a run has come to since the draft was opened: the replies shown, and whether
      anything was asked or heard at all. */
  datatype History = History(heard: seq<Heard>, asked: bool)

  function Remembered(l: Loop, e: Event, h: History): History
    requires Enabled(l, e)
  {
    match e
    case Store(Open(_, _)) => History([], false)
    case Store(Close) => History([], false)
    case TimerFires => if l.draft.ir.Some? then h.(asked := true) else h
    case Lands(i, reply) => if l.mounted then History(h.heard + [Heard(l.requests[i], reply)], true) else h
    case _ => h
  }

  function HistoryOf(l: Loop, events: seq<Event>, h: History): History
    decreases |events|
  {
    if events == [] || !Enabled(l, events[0]) then h
    else HistoryOf(Step(l, events[0]), events[1..], Remembered(l, events[0], h))
  }

  /** The plan last heard. */
  function LastPlan(heard: seq<Heard>): Option<Answer>
  {
    if heard == [] then None else
      var last := heard[|heard| - 1];
      if last.reply.Planned? then Some(Answer(last.about, last.reply.body)) else LastPlan(heard[..|heard| - 1])
  }

  /** The reasons last heard, unless a plan has come since; a broken request takes none back. */
  function LastReasons(heard: seq<Heard>): seq<string>
  {
    if heard == [] then [] else
      match heard[|heard| - 1].reply
      case Planned(_) => []
      case TurnedDown(reasons) => reasons
      case Broken(_) => LastReasons(heard[..|heard| - 1])
  }

  /** The store shows what was heard, and a status that is about a reply is about the last one. */
  predicate Shows(c: CompileState, h: History)
  {
    var last := if h.heard == [] then None else Some(h.heard[|h.heard| - 1]);
    && (c.status.Idle? <==> !h.asked)
    && c.result == LastPlan(h.heard)
    && c.refusals == LastReasons(h.heard)
    && c.failure == (if last.Some? && last.value.reply.Broken? then Some(last.value.reply.message) else None)
    && (c.status.Current? ==> last.Some? && last.value.reply.Planned? && c.askedFor == Some(last.value.about))
    && (c.status.Refused? ==> last.Some? && last.value.reply.TurnedDown? && c.askedFor == Some(last.value.about))
    && (c.status.Failed? ==> last.Some? && last.value.reply.Broken? && c.askedFor == Some(last.value.about))
  }

  lemma ToldShows(d: Draft, h: History, about: Doc, reply: Reply)
    requires Shows(d.compile, h)
    ensures Shows(Told(d, about, reply).compile, History(h.heard + [Heard(about, reply)], true))
  {
    assert (h.heard + [Heard(about, reply)])[..|h.heard|] == h.heard;
  }

  lemma AskingShows(l: Loop, h: History)
    requires Shows(l.draft.compile, h)
    ensures Shows(Asked(l).draft.compile, if l.draft.ir.Some? then h.(asked := true) else h)
  {}

  lemma StepShows(l: Loop, e: Event, h: History)
    requires Enabled(l, e) && Shows(l.draft.compile, h)
    ensures Shows(Step(l, e).draft.compile, Remembered(l, e, h))
  {
    match e
    case Lands(i, reply) =>
      ToldShows(l.draft, h, l.requests[i], reply);
      hide Shows, Told;
      if l.mounted {
        var told := l.(draft := Told(l.draft, l.requests[i], reply),
                       requests := l.requests[..i] + l.requests[i + 1..], inFlight := false);
        AskingShows(told, Remembered(l, e, h));
      }
    case TimerFires => AskingShows(l.(timer := None), h);
    case _ =>
  }

  lemma {:induction false} RunShows(start: Loop, events: seq<Event>, end: Loop, h: History)
    requires Leads(start, events, end) && Shows(start.draft.compile, h)
    ensures Shows(end.draft.compile, HistoryOf(start, events, h))
    decreases |events|
  {
    if events != [] {
      StepShows(start, events[0], h);
      RunShows(Step(start, events[0]), events[1..], end, Remembered(start, events[0], h));
    }
  }

  /**
   * What is shown in every run: the last plan heard since the draft was opened, the last
   * reasons unless a plan came after them, and a failure only if that was the last reply.
   * And when nothing is outstanding, the last reply heard is about the document on screen,
   * and its own kind is the status.
   */
  lemma ShownIsHeard(draft: Draft, nextDoc: nat, events: seq<Event>, end: Loop)
    requires Startable(draft, nextDoc) && Leads(Start(draft, nextDoc), events, end)
    ensures var h := HistoryOf(Start(draft, nextDoc), events, History([], false));
            && Shows(end.draft.compile, h)
            && (Quiet(end) && end.draft.ir.Some? ==>
                  && h.heard != []
                  && var last := h.heard[|h.heard| - 1];
                     && Some(last.about) == end.draft.ir
                     && match last.reply
                        case Planned(body) =>
                          end.draft.compile.status.Current? && end.draft.compile.result == Some(Answer(last.about, body))
                        case TurnedDown(reasons) =>
                          end.draft.compile.status.Refused? && end.draft.compile.refusals == reasons
                        case Broken(message) =>
                          end.draft.compile.status.Failed? && end.draft.compile.failure == Some(message))
  {
    RunShows(Start(draft, nextDoc), events, end, History([], false));
    CompileRuns(draft, nextDoc, events, end);
  }

  /** The first answer for a draft is wanted at once; after that the timer waits for a pause. */
  lemma DelayExactly(draft: Draft, nextDoc: nat, events: seq<Event>, end: Loop)
    requires Startable(draft, nextDoc) && Leads(Start(draft, nextDoc), events, end)
    requires Enabled(end, Effect)
    ensures var timer := Step(end, Effect).timer;
            && (timer.Some? <==> end.committed.Some? && end.requests == [])
            && (timer.Some? ==> (timer == Some(0) <==> !HistoryOf(Start(draft, nextDoc), events, History([], false)).asked))
            && (timer.Some? ==> timer == Some(0) || timer == Some(600))
  {
    RunShows(Start(draft, nextDoc), events, end, History([], false));
    RunKeepsInv(Start(draft, nextDoc), events, end);
  }

  // ------------------------------------------------------------ the hook itself

  /** `useAutoCompile`: its refs, its timer, and the requests it has out. */
  class AutoCompile {
    const store: BuilderStore
    var committed: Option<Doc>
    var ran: Option<Option<Doc>>
    var timer: Option<nat>
    var inFlight: bool
    var mounted: bool
    var requests: seq<Doc>
    ghost var asked: Option<Doc>
    ghost var nextDoc: nat

    ghost function View(): Loop
      reads this, store
    {
      Loop(store.View(), committed, ran, timer, inFlight, requests, mounted, asked, nextDoc)
    }

    constructor (store: BuilderStore, ghost nextDoc: nat)
      ensures this.store == store && View() == Start(store.View(), nextDoc)
    {
      this.store := store;
      committed, ran, timer := store.ir, None, None;
      inFlight, mounted, requests := false, true, [];
      asked, this.nextDoc := None, nextDoc;
    }

    method RunEffect()
      requires Enabled(View(), Effect)
      modifies this
      ensures View() == Step(old(View()), Effect)
    {
      timer := None;
      ran := Some(committed);
      if committed.None? { return; }
      if inFlight { return; }
      timer := Some(if store.compile.status.Idle? then 0 else COMPILE_DEBOUNCE_MS);
    }

    /** The part of `run` before its first await. */
    method Run()
      modifies this, store
      ensures View() == Asked(old(View()))
    {
      if store.ir.None? { return; }
      var askedFor := store.ir.value;
      inFlight := true;
      store.CompileStarted(askedFor);
      requests := requests + [askedFor];
      asked := Some(askedFor);
    }

    method FireTimer()
      requires Enabled(View(), TimerFires)
      modifies this, store
      ensures View() == Step(old(View()), TimerFires)
    {
      timer := None;
      Run();
    }

    /** The part of `run` after its await, to the end of its `finally`. */
    method Land(i: nat, reply: Reply)
      requires Enabled(View(), Lands(i, reply))
      modifies this, store
      ensures View() == Step(old(View()), Lands(i, reply))
    {
      var askedFor := requests[i];
      requests := requests[..i] + requests[i + 1..];
      if mounted {
        match reply
        case Planned(body) => store.CompileSucceeded(askedFor, Answer(askedFor, body));
        case TurnedDown(reasons) => store.CompileRefused(askedFor, reasons);
        case Broken(message) => store.CompileFailed(askedFor, message);
      }
      inFlight := false;
      if mounted && store.ir.Some? && store.ir != Some(askedFor) { Run(); }
    }

    method Clean()
      requires Enabled(View(), Unmount)
      modifies this
      ensures View() == Step(old(View()), Unmount)
    {
      mounted := false;
      timer := None;
    }
  }
}
