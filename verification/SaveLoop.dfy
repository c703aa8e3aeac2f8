/**
 * Autosave over one editing session: a debounced effect in the page, one save at a time,
 * and a server that other authors save to as well. A run is any interleaving of edits,
 * renders, late effects, timers, other authors' saves, replies, and replies lost on the way.
 */
module SaveLoop {
  import opened Options
  import opened DraftStore

  // ---------------------------------------------------------------- the server

  datatype Author = Page | Other

  /** One saved version of a draft. Revision r is the r-th version saved. */
  datatype Version = Version(author: Author, ir: Doc, cases: Cases)

  datatype Saved = Accepted(revision: nat) | Stopped(current: nat)

  /** The list of no test cases. */
  const NO_CASES: Cases := 0

  /**
   * `save_draft`: refuse a revision that is not the current one; no revision is never refused.
   * A save that says nothing of test cases keeps those of the version before it.
   */
  function SaveDraft(server: seq<Version>, expected: Option<nat>, author: Author, ir: Doc, cases: Option<Cases>)
    : (seq<Version>, Saved)
  {
    var kept := if cases.Some? then cases.value else if server == [] then NO_CASES else server[|server| - 1].cases;
    if server == [] then
      if expected.Some? then (server, Stopped(0)) else ([Version(author, ir, kept)], Accepted(1))
    else if expected.Some? && expected.value != |server| then (server, Stopped(|server|))
    else (server + [Version(author, ir, kept)], Accepted(|server| + 1))
  }

  // ------------------------------------------------------------------ the page

  /** What the effect looks at. */
  datatype Snap = Snap(ir: Option<Doc>, saved: Option<Doc>, status: SaveStatus, cases: Cases)

  function SnapOf(d: Draft): Snap { Snap(d.ir, d.saved, d.save, d.cases) }

  datatype Request = Request(sent: Doc, cases: Cases, expected: Option<nat>)

  /** A save on its way: not handled yet, or handled and its reply on the way back. */
  datatype Flight = Flight(request: Request, reply: Option<Saved>)

  /**
   * `settling` counts replies shown whose `finally` has not run yet. The rest is bookkeeping:
   * `acked` is the version the page last had acknowledged; `turnedAway` says that the last
   * effect found a save in flight and stopped for it; `fired` that the timer the last effect
   * set has fired; `lost` are the revisions the server gave this page's saves in replies that
   * never arrived; `casesSince` says that test cases were edited since the save last
   * acknowledged was sent, `casesInFlight` since the one in flight was; `nextDoc` and
   * `nextCases` are the identities to hand out next, to a document and to a list of test cases.
   */
  datatype Session = Session(
    draft: Draft,
    committed: Snap,
    ran: Option<Snap>,
    timer: bool,
    inFlight: bool,
    flights: seq<Flight>,
    settling: nat,
    server: seq<Version>,
    acked: Option<Version>,
    turnedAway: bool,
    fired: bool,
    lost: set<nat>,
    casesSince: bool,
    casesInFlight: bool,
    nextDoc: nat,
    nextCases: nat)

  datatype Event =
    | Edit
    | EditCases
    | OtherSaves(expected: Option<nat>, doc: Doc, others: Option<Cases>)
    | Commit
    | Effect
    | TimerFires
    | Handle(i: nat)
    | Lands(i: nat)
    | LandsLost(i: nat)
    | Settle

  /** There is something to save. */
  predicate Wants(s: Snap) { s.ir.Some? && (s.ir != s.saved || s.status.Dirty?) }

  function EffectRan(s: Session): Session
  {
    var snap := s.committed;
    var s := s.(ran := Some(snap), timer := false, turnedAway := false, fired := false);
    if !Wants(snap) then s
    else if snap.status.Conflict? || snap.status.Saving? then s
    else if s.inFlight then s.(turnedAway := true)
    else s.(timer := true)
  }

  function Fired(s: Session): Session
  {
    if !Wants(SnapOf(s.draft)) then s.(timer := false, fired := true)
    else s.(timer := false,
            fired := true,
            inFlight := true,
            casesInFlight := false,
            draft := s.draft.(save := Saving),
            flights := s.flights + [Flight(Request(s.draft.ir.value, s.draft.cases, s.draft.revision), None)])
  }

  function Handled(s: Session, i: nat): Session
    requires i < |s.flights|
  {
    var q := s.flights[i].request;
    var (server, reply) := SaveDraft(s.server, q.expected, Page, q.sent, Some(q.cases));
    s.(server := server, flights := s.flights[i := Flight(q, Some(reply))])
  }

  function Landed(s: Session, i: nat): Session
    requires i < |s.flights| && s.flights[i].reply.Some?
  {
    var f := s.flights[i];
    var flights := s.flights[..i] + s.flights[i + 1..];
    match f.reply.value
    case Accepted(revision) =>
      s.(flights := flights,
         settling := s.settling + 1,
         draft := SaveLanded(s.draft, f.request.sent, revision),
         acked := Some(Version(Page, f.request.sent, f.request.cases)),
         casesSince := s.casesInFlight)
    case Stopped(_) =>
      s.(flights := flights, settling := s.settling + 1, draft := s.draft.(save := Conflict))
  }

  function Lost(s: Session, i: nat): Session
    requires i < |s.flights|
  {
    s.(flights := s.flights[..i] + s.flights[i + 1..], settling := s.settling + 1,
       draft := s.draft.(save := SaveFailed),
       lost := s.lost + Unheard(s.flights[i].reply))
  }

  /** The revision an accepted save was given, if the page does not hear of it. */
  function Unheard(reply: Option<Saved>): set<nat>
  {
    if reply.Some? && reply.value.Accepted? then {reply.value.revision} else {}
  }

  predicate Enabled(s: Session, e: Event)
  {
    match e
    case Effect => s.ran != Some(s.committed)
    case TimerFires => s.timer
    case Handle(i) => i < |s.flights| && s.flights[i].reply.None?
    case Lands(i) => i < |s.flights| && s.flights[i].reply.Some?
    case LandsLost(i) => i < |s.flights|
    case Settle => s.settling > 0
    case _ => true
  }

  function Step(s: Session, e: Event): Session
    requires Enabled(s, e)
  {
    match e
    case Edit => s.(draft := Edited(s.draft, s.nextDoc), nextDoc := s.nextDoc + 1)
    case EditCases => s.(draft := CasesEdited(s.draft, s.nextCases), nextCases := s.nextCases + 1,
                            casesSince := true, casesInFlight := true)
    case OtherSaves(expected, doc, cases) => s.(server := SaveDraft(s.server, expected, Other, doc, cases).0)
    case Commit => s.(committed := SnapOf(s.draft))
    case Effect => EffectRan(s)
    case TimerFires => Fired(s)
    case Handle(i) => Handled(s, i)
    case Lands(i) => Landed(s, i)
    case LandsLost(i) => Lost(s, i)
    case Settle => s.(inFlight := false, settling := s.settling - 1)
  }

  /** A session starts from the server's draft, or from a document the server has no draft of. */
  function Start(ir: Doc, server: seq<Version>, nextDoc: nat, nextCases: nat): Session
  {
    var draft := if server == [] then Opened(ir, None, NO_CASES)
                 else Opened(server[|server| - 1].ir, Some(|server|), server[|server| - 1].cases);
    Session(draft, SnapOf(draft), None, false, false, [], 0, server,
            if server == [] then None else Some(server[|server| - 1]), false, false, {}, false, false,
            nextDoc, nextCases)
  }

  predicate Startable(ir: Doc, server: seq<Version>, nextDoc: nat, nextCases: nat)
  {
    ir < nextDoc && NO_CASES < nextCases && forall v <- server :: v.ir < nextDoc && v.cases < nextCases
  }

  predicate Leads(start: Session, events: seq<Event>, end: Session)
    decreases |events|
  {
    if events == [] then end == start
    else Enabled(start, events[0]) && Leads(Step(start, events[0]), events[1..], end)
  }

  /** A render or an effect is still owed for the store as it is. */
  predicate Outstanding(s: Session)
  {
    s.committed != SnapOf(s.draft) || s.ran != Some(s.committed)
  }

  // ----------------------------------------------------------------- invariant

  predicate Acknowledged(s: Session)
  {
    match s.draft.revision
    case None => s.acked.None? && s.draft.saved.None?
    case Some(r) =>
      && 1 <= r <= |s.server| && s.acked == Some(s.server[r - 1])
      && s.draft.saved == Some(s.server[r - 1].ir)
  }

  predicate FlightOk(s: Session, f: Flight)
  {
    && f.request.expected == s.draft.revision
    && f.request.sent < s.nextDoc
    && match f.reply
       case None => true
       case Some(Stopped(_)) => true
       case Some(Accepted(r)) =>
         && 1 <= r <= |s.server|
         && s.server[r - 1] == Version(Page, f.request.sent, f.request.cases)
  }

  predicate Inv(s: Session)
  {
    && s.draft.ir.Some? && s.draft.ir.value < s.nextDoc
    && |s.flights| + s.settling <= 1
    && (s.inFlight <==> |s.flights| + s.settling == 1)
    && (s.timer ==> !s.inFlight)
    && (s.draft.save.Clean? ==> s.draft.ir == s.draft.saved)
    && (s.draft.save.Conflict? ==> s.flights == [])
    && (s.timer ==> s.ran.Some? && !s.ran.value.status.Conflict?)
    && Acknowledged(s)
    && forall f <- s.flights :: FlightOk(s, f)
  }

  lemma OneFlight(s: Session, i: nat)
    requires Inv(s) && i < |s.flights|
    ensures i == 0 && s.flights == [s.flights[0]] && FlightOk(s, s.flights[0])
    ensures s.flights[..i] + s.flights[i + 1..] == []
  {}

  lemma EditKeepsInv(s: Session)
    requires Inv(s)
    ensures Inv(Step(s, Edit))
  {
    assert forall f <- s.flights :: FlightOk(s, f) ==> FlightOk(Step(s, Edit), f);
  }

  lemma CasesKeepInv(s: Session)
    requires Inv(s)
    ensures Inv(Step(s, EditCases))
  {
    assert forall f <- s.flights :: FlightOk(s, f) ==> FlightOk(Step(s, EditCases), f);
  }

  /** Rendering and watching leave the draft, the server and the saves on their way alone. */
  lemma WatchingKeepsFlights(s: Session, t: Session)
    requires Acknowledged(s) && forall f <- s.flights :: FlightOk(s, f)
    requires t.draft == s.draft && t.server == s.server && t.acked == s.acked && t.nextDoc == s.nextDoc
    ensures Acknowledged(t) && forall f <- s.flights :: FlightOk(t, f)
  {
    forall f <- s.flights
      ensures FlightOk(t, f)
    {
      assert FlightOk(s, f);
    }
  }

  lemma CommitKeepsInv(s: Session)
    requires Inv(s)
    ensures Inv(Step(s, Commit))
  {
    WatchingKeepsFlights(s, Step(s, Commit));
  }

  lemma EffectKeepsInv(s: Session)
    requires Inv(s) && Enabled(s, Effect)
    ensures Inv(EffectRan(s))
  {
    WatchingKeepsFlights(s, EffectRan(s));
    hide Acknowledged, FlightOk;
  }

  lemma OthersKeepInv(s: Session, expected: Option<nat>, doc: Doc, cases: Option<Cases>)
    requires Inv(s)
    ensures Inv(Step(s, OtherSaves(expected, doc, cases)))
  {
    assert forall f <- s.flights :: FlightOk(s, f) ==> FlightOk(Step(s, OtherSaves(expected, doc, cases)), f);
  }

  lemma HandlingKeepsInv(s: Session, i: nat)
    requires Inv(s) && Enabled(s, Handle(i))
    ensures Inv(Handled(s, i))
  {
    assert FlightOk(s, s.flights[i]);
    var t := Handled(s, i);
    assert |t.flights| == 1 && i == 0;
    assert FlightOk(t, t.flights[0]);
  }

  lemma LandingKeepsInv(s: Session, e: Event)
    requires Inv(s) && (e.Lands? || e.LandsLost?) && Enabled(s, e)
    ensures Inv(Step(s, e))
  {
    assert s.flights == [s.flights[0]] && e.i == 0;
    assert s.flights[..0] + s.flights[1..] == [];
    assert FlightOk(s, s.flights[0]);
  }

  lemma StepKeepsInv(s: Session, e: Event)
    requires Inv(s) && Enabled(s, e)
    ensures Inv(Step(s, e))
  {
    match e
    case OtherSaves(expected, doc, cases) => OthersKeepInv(s, expected, doc, cases);
    case Handle(i) => HandlingKeepsInv(s, i);
    case Lands(_) => LandingKeepsInv(s, e);
    case LandsLost(_) => LandingKeepsInv(s, e);
    case TimerFires =>
    case Settle =>
    case Edit => EditKeepsInv(s);
    case EditCases => CasesKeepInv(s);
    case Commit => CommitKeepsInv(s);
    case Effect => EffectKeepsInv(s);
  }

  lemma {:induction false} RunKeepsInv(start: Session, events: seq<Event>, end: Session)
    requires Inv(start) && Leads(start, events, end)
    ensures Inv(end)
    decreases |events|
  {
    if events != [] {
      StepKeepsInv(start, events[0]);
      RunKeepsInv(Step(start, events[0]), events[1..], end);
    }
  }

  ghost predicate Reachable(s: Session)
  {
    exists ir, server, nextDoc, nextCases, events ::
      Startable(ir, server, nextDoc, nextCases) && Leads(Start(ir, server, nextDoc, nextCases), events, s)
  }

  lemma ReachableInv(s: Session)
    requires Reachable(s)
    ensures Inv(s)
  {
    var ir, server, nextDoc, nextCases, events :|
      Startable(ir, server, nextDoc, nextCases) && Leads(Start(ir, server, nextDoc, nextCases), events, s);
    RunKeepsInv(Start(ir, server, nextDoc, nextCases), events, s);
  }

  // ------------------------------------------------------------- main results

  /** One save at a time, and "saved" means the document on screen is the one acknowledged. */
  lemma OneSaveAtATime(s: Session)
    requires Reachable(s)
    ensures |s.flights| <= 1 && (s.timer ==> s.flights == [])
    ensures s.draft.save.Clean? ==> s.draft.ir == s.draft.saved
  {
    ReachableInv(s);
  }

  /** Handling a save lands it on top of a version its author never had acknowledged. */
  predicate Overwrites(s: Session, i: nat)
    requires Enabled(s, Handle(i))
  {
    && Handled(s, i).server != s.server
    && s.server != []
    && !(s.draft.revision == Some(|s.server|) && s.acked == Some(s.server[|s.server| - 1]))
  }

  /**
   * A save that carries a revision never overwrites anyone: it lands only on the version
   * the page last had acknowledged. A save without one overwrites whenever the server
   * holds a draft by then.
   */
  lemma OverwritesExactly(s: Session, i: nat)
    requires Reachable(s) && Enabled(s, Handle(i))
    ensures Overwrites(s, i) <==> s.flights[i].request.expected.None? && s.server != []
  {
    ReachableInv(s);
    assert FlightOk(s, s.flights[i]);
  }

  /** A conflict stays, with no save sent, at every step but one: a timer that fires on an unsaved document. */
  lemma ConflictAbsorbs(s: Session, e: Event)
    requires Reachable(s) && Enabled(s, e) && s.draft.save.Conflict?
    ensures (Step(s, e).draft.save.Conflict? && Step(s, e).flights == [])
       <==> !(e.TimerFires? && s.draft.ir != s.draft.saved)
  {
    ReachableInv(s);
    ConflictStep(s, e);
  }

  /** Such a timer can fire in a conflict only ahead of a render or an effect that is owed. */
  lemma TimerAheadOfEffect(s: Session)
    requires Reachable(s) && s.draft.save.Conflict? && Enabled(s, TimerFires)
    ensures Outstanding(s)
  {
    ReachableInv(s);
  }

  /** In conflict, with no save out, now and after every event of the run. */
  predicate StaysInConflict(s: Session, events: seq<Event>)
    decreases |events|
  {
    && s.draft.save.Conflict? && s.flights == []
    && (events != [] && Enabled(s, events[0]) ==> StaysInConflict(Step(s, events[0]), events[1..]))
  }

  /** No timer of the run fires while the document on screen is not the one saved. */
  predicate NoUnsavedTimer(s: Session, events: seq<Event>)
    decreases |events|
  {
    events != [] && Enabled(s, events[0]) ==>
      && !(events[0].TimerFires? && s.draft.ir != s.draft.saved)
      && NoUnsavedTimer(Step(s, events[0]), events[1..])
  }

  /** Over every run from a conflict: it stays throughout exactly when no such timer fires. */
  lemma {:induction false} ConflictForever(s: Session, events: seq<Event>, end: Session)
    requires Inv(s) && s.draft.save.Conflict? && Leads(s, events, end)
    ensures StaysInConflict(s, events) <==> NoUnsavedTimer(s, events)
    decreases |events|
  {
    if events != [] {
      StepKeepsInv(s, events[0]);
      ConflictStep(s, events[0]);
      if !(events[0].TimerFires? && s.draft.ir != s.draft.saved) {
        ConflictForever(Step(s, events[0]), events[1..], end);
      }
    }
  }

  lemma ConflictStep(s: Session, e: Event)
    requires Inv(s) && Enabled(s, e) && s.draft.save.Conflict?
    ensures (Step(s, e).draft.save.Conflict? && Step(s, e).flights == [])
       <==> !(e.TimerFires? && s.draft.ir != s.draft.saved)
  {
    hide Acknowledged, FlightOk, SaveDraft;
    assert s.flights == [];
  }

  // ---------------------------------------------------- when an edit is saved

  /** An effect for this snapshot is one that wants a save sent. */
  predicate Pressing(snap: Snap) { Wants(snap) && !snap.status.Conflict? && !snap.status.Saving? }

  /** The draft has been edited since the snapshot was taken. */
  predicate Ahead(d: Draft, snap: Snap)
    requires d.ir.Some? && snap.ir.Some?
  {
    d.ir.value > snap.ir.value || d.cases > snap.cases
  }

  predicate NotBefore(d: Draft, snap: Snap)
  {
    d.ir.Some? && snap.ir.Some? && snap.ir.value <= d.ir.value && snap.cases <= d.cases
  }

  /** What a session's timer, marks and snapshots have to do with each other. */
  predicate Timing(s: Session)
  {
    && (s.draft.save.Saving? ==> s.flights != [])
    && s.draft.cases < s.nextCases
    && (s.timer ==> !s.turnedAway && !s.fired)
    && NotBefore(s.draft, s.committed)
    && (forall f <- s.flights :: s.draft.ir.Some? && f.request.sent <= s.draft.ir.value)
    && (s.timer || s.turnedAway || s.fired ==> s.ran.Some?)
    && (s.ran.Some? ==> RanTiming(s))
  }

  predicate RanTiming(s: Session)
    requires s.ran.Some?
  {
    var snap := s.ran.value;
    && NotBefore(s.draft, snap)
    && (Pressing(snap) ==> s.timer || s.turnedAway || s.fired)
    && (s.timer || s.turnedAway ==> Pressing(snap))
    && (s.fired ==> Ahead(s.draft, snap) || !s.draft.save.Dirty?)
    && (s.fired ==> forall f <- s.flights :: f.request.sent >= snap.ir.value)
  }

  lemma EditsKeepTiming(s: Session, e: Event)
    requires Inv(s) && Timing(s) && (e.Edit? || e.EditCases? || e.OtherSaves?) && Enabled(s, e)
    ensures Timing(Step(s, e))
  {}

  lemma RendersKeepTiming(s: Session, e: Event)
    requires Inv(s) && Timing(s) && (e.Commit? || e.Effect? || e.Settle?) && Enabled(s, e)
    ensures Timing(Step(s, e))
  {
    hide Acknowledged, FlightOk;
  }

  lemma FiringKeepsTiming(s: Session)
    requires Inv(s) && Timing(s) && s.timer
    ensures Timing(Fired(s))
  {}

  lemma HandlingKeepsTiming(s: Session, i: nat)
    requires Inv(s) && Timing(s) && Enabled(s, Handle(i))
    ensures Timing(Handled(s, i))
  {
    assert s.flights[i] in s.flights;
    var t := Handled(s, i);
    assert t.flights == [t.flights[0]];
  }

  lemma LandingKeepsTiming(s: Session)
    requires Inv(s) && Timing(s) && Enabled(s, Lands(0))
    ensures Timing(Landed(s, 0))
  {
    OneFlight(s, 0);
    assert s.flights[0] in s.flights;
    hide Acknowledged;
  }

  lemma LosingKeepsTiming(s: Session)
    requires Inv(s) && Timing(s) && Enabled(s, LandsLost(0))
    ensures Timing(Lost(s, 0))
  {
    OneFlight(s, 0);
    hide Acknowledged, FlightOk;
  }

  lemma StepKeepsTiming(s: Session, e: Event)
    requires Inv(s) && Timing(s) && Enabled(s, e)
    ensures Timing(Step(s, e))
  {
    match e
    case Handle(i) => HandlingKeepsTiming(s, i);
    case Lands(i) =>
      OneFlight(s, i);
      LandingKeepsTiming(s);
    case LandsLost(i) =>
      OneFlight(s, i);
      LosingKeepsTiming(s);
    case TimerFires => FiringKeepsTiming(s);
    case Commit => RendersKeepTiming(s, e);
    case Effect => RendersKeepTiming(s, e);
    case Settle => RendersKeepTiming(s, e);
    case _ => EditsKeepTiming(s, e);
  }

  lemma {:induction false} RunKeepsTiming(start: Session, events: seq<Event>, end: Session)
    requires Inv(start) && Timing(start) && Leads(start, events, end)
    ensures Timing(end)
    decreases |events|
  {
    if events != [] {
      StepKeepsInv(start, events[0]);
      StepKeepsTiming(start, events[0]);
      RunKeepsTiming(Step(start, events[0]), events[1..], end);
    }
  }

  lemma ReachableTiming(s: Session)
    requires Reachable(s)
    ensures Inv(s) && Timing(s)
  {
    ReachableInv(s);
    var ir, server, nextDoc, nextCases, events :|
      Startable(ir, server, nextDoc, nextCases) && Leads(Start(ir, server, nextDoc, nextCases), events, s);
    RunKeepsTiming(Start(ir, server, nextDoc, nextCases), events, s);
  }

  /** What is on screen is not what the page last had acknowledged: the document, or the test cases. */
  predicate Unsaved(s: Session)
  {
    s.draft.ir != s.draft.saved || s.acked.None? || s.acked.value.cases != s.draft.cases
  }

  /**
   * With every render and effect done, no save in flight and no conflict, no save is to come
   * exactly when the effect sees nothing to save - the document is the one saved, and the
   * status says neither that nor the test cases have changed - or the last effect was turned
   * away by a save in flight, or a save failed for the timer of the last effect itself, so
   * that nothing the effect watches has changed since.
   */
  lemma NoSaveToComeExactly(s: Session)
    requires Reachable(s) && !Outstanding(s) && !s.inFlight && !s.draft.save.Conflict?
    ensures !s.timer <==>
      || (s.draft.ir == s.draft.saved && !s.draft.save.Dirty?)
      || s.turnedAway
      || (s.draft.save.SaveFailed? && s.fired)
  {
    ReachableTiming(s);
    hide Acknowledged, FlightOk;
  }

  /**
   * So what is unsaved is left unsaved in one of three ways: a changed document, or changed
   * test cases, behind an effect that was turned away; a failure like the one before it; or
   * test cases alone, changed while a save was in flight or in a save that failed.
   */
  lemma LeftUnsavedExactly(s: Session)
    requires Reachable(s) && !Outstanding(s) && !s.inFlight && !s.draft.save.Conflict? && Unsaved(s)
    ensures s.draft.save.Dirty? || s.draft.save.SaveFailed? || s.draft.save.Clean?
    ensures s.draft.save.Dirty? ==> (!s.timer <==> s.turnedAway)
    ensures s.draft.save.SaveFailed? ==> (!s.timer <==> s.draft.ir == s.draft.saved || s.turnedAway || s.fired)
    ensures s.draft.save.Clean? ==> !s.timer && s.draft.ir == s.draft.saved
  {
    ReachableTiming(s);
  }

  /** The one save out is handled and its reply shown. */
  function Answer(s: Session): Session
    requires |s.flights| == 1 && s.flights[0].reply.None?
  {
    Landed(Handled(s, 0), 0)
  }

  /** Over a server nobody else has saved to since, the save is the newest version, and the page knows it. */
  lemma AnswerSaves(s: Session, q: Request)
    requires s.flights == [Flight(q, None)] && q.expected == if s.server == [] then None else Some(|s.server|)
    ensures var end := Answer(s);
            && end.server == s.server + [Version(Page, q.sent, q.cases)]
            && end.draft.ir == s.draft.ir && end.draft.cases == s.draft.cases
            && end.draft.saved == Some(q.sent) && end.draft.revision == Some(|end.server|)
            && end.draft.save == if s.draft.ir == Some(q.sent) then Clean else Dirty
  {
    hide Unheard, Wants;
  }

  /**
   * A save that nothing disturbs: sent when its timer fires, handled with nobody else having
   * saved since, and answered. Then what is on screen is what the server's newest version
   * holds, document and test cases, by this page, and the page is clean at its revision.
   */
  lemma UndisturbedSave(s: Session) returns (sent: Session)
    requires Reachable(s) && Enabled(s, TimerFires) && (s.draft.ir != s.draft.saved || s.draft.save.Dirty?)
    requires s.draft.revision == if s.server == [] then None else Some(|s.server|)
    ensures sent == Step(s, TimerFires) && |sent.flights| == 1 && sent.flights[0].reply.None? && sent.draft.save.Saving?
    ensures var end := Answer(sent);
            && end.draft.ir == s.draft.ir && end.draft.cases == s.draft.cases && end.draft.save.Clean?
            && s.draft.ir.Some? && end.server == s.server + [Version(Page, s.draft.ir.value, s.draft.cases)]
            && end.draft.revision == Some(|end.server|)
  {
    ReachableInv(s);
    assert s.flights == [];
    hide Reachable, Acknowledged, FlightOk, Handled, Landed;
    sent := Fired(s);
    AnswerSaves(sent, sent.flights[0].request);
    hide Answer;
  }

  /** An edit in between is not lost to it: the page is then dirty, and the server holds what was sent. */
  lemma EditedSave(s: Session) returns (edited: Session)
    requires Reachable(s) && Enabled(s, TimerFires) && (s.draft.ir != s.draft.saved || s.draft.save.Dirty?)
    requires s.draft.revision == if s.server == [] then None else Some(|s.server|)
    ensures edited == Step(Step(s, TimerFires), Edit) && |edited.flights| == 1 && edited.flights[0].reply.None?
    ensures var end := Answer(edited);
            && end.draft.ir == Some(s.nextDoc) && end.draft.save.Dirty?
            && s.draft.ir.Some? && end.server == s.server + [Version(Page, s.draft.ir.value, s.draft.cases)]
            && end.draft.saved == s.draft.ir && end.draft.revision == Some(|end.server|)
  {
    ReachableInv(s);
    assert s.flights == [];
    hide Reachable, Acknowledged, FlightOk, Handled, Landed;
    edited := Step(Fired(s), Edit);
    AnswerSaves(edited, edited.flights[0].request);
    hide Answer;
  }

  // ------------------------------------- where a version's test cases come from

  /** What the version that an event adds at the server brought of test cases: a list, or nothing said. */
  function Brought(s: Session, e: Event): seq<Option<Cases>>
    requires Enabled(s, e)
  {
    if Step(s, e).server == s.server then []
    else match e
      case OtherSaves(_, _, cases) => [cases]
      case Handle(i) => [Some(s.flights[i].request.cases)]
      case _ => []
  }

  function BroughtOver(s: Session, events: seq<Event>): seq<Option<Cases>>
    decreases |events|
  {
    if events == [] || !Enabled(s, events[0]) then []
    else Brought(s, events[0]) + BroughtOver(Step(s, events[0]), events[1..])
  }

  function LastCases(server: seq<Version>): Cases
  {
    if server == [] then NO_CASES else server[|server| - 1].cases
  }

  /** These are the cases of the latest save up to the k-th that brought any; with none, those there were before. */
  predicate LatestBrought(before: Cases, brought: seq<Option<Cases>>, k: nat, cases: Cases)
    requires k < |brought|
  {
    || (exists j | 0 <= j <= k :: brought[j] == Some(cases) && forall i | j < i <= k :: brought[i].None?)
    || (cases == before && forall i | 0 <= i <= k :: brought[i].None?)
  }

  /** So for every version added, one for each save. */
  predicate AllLatest(start: seq<Version>, brought: seq<Option<Cases>>, end: seq<Version>)
    requires |end| == |start| + |brought|
  {
    forall n | |start| <= n < |end| :: LatestBrought(LastCases(start), brought, n - |start|, end[n].cases)
  }

  lemma StepBrings(s: Session, e: Event)
    requires Enabled(s, e)
    ensures |Brought(s, e)| <= 1 && |Step(s, e).server| == |s.server| + |Brought(s, e)|
    ensures Step(s, e).server[..|s.server|] == s.server
    ensures |Brought(s, e)| == 1 ==>
      LastCases(Step(s, e).server) == if Brought(s, e)[0].Some? then Brought(s, e)[0].value else LastCases(s.server)
  {}

  lemma LatestThroughFirst(before: Cases, first: Option<Cases>, rest: seq<Option<Cases>>, k: nat, cases: Cases)
    requires k < |rest| && LatestBrought(if first.Some? then first.value else before, rest, k, cases)
    ensures LatestBrought(before, [first] + rest, k + 1, cases)
  {
    var brought := [first] + rest;
    assert forall i | 1 <= i <= k + 1 :: brought[i] == rest[i - 1];
    if j :| 0 <= j <= k && rest[j] == Some(cases) && forall i | j < i <= k :: rest[i].None? {
      assert brought[j + 1] == Some(cases) && forall i | j + 1 < i <= k + 1 :: brought[i].None?;
    } else if first.Some? {
      assert brought[0] == Some(cases) && forall i | 0 < i <= k + 1 :: brought[i].None?;
    } else {
      assert cases == before && forall i | 0 <= i <= k + 1 :: brought[i].None?;
    }
  }

  lemma FirstLatest(before: Cases, first: Option<Cases>, rest: seq<Option<Cases>>, cases: Cases)
    requires cases == if first.Some? then first.value else before
    ensures LatestBrought(before, [first] + rest, 0, cases)
  {
    assert ([first] + rest)[0] == first;
  }

  /**
   * Over every run: a version's test cases are those of the latest save up to it that
   * brought any, whoever saved; a save that says nothing of them wipes none.
   */
  lemma {:induction false} CasesAreLatest(start: Session, events: seq<Event>, end: Session)
    requires Leads(start, events, end)
    ensures |end.server| == |start.server| + |BroughtOver(start, events)|
    ensures end.server[..|start.server|] == start.server
    ensures AllLatest(start.server, BroughtOver(start, events), end.server)
    decreases |events|
  {
    if events != [] {
      var next := Step(start, events[0]);
      StepBrings(start, events[0]);
      CasesAreLatest(next, events[1..], end);
      CasesOneEarlier(start.server, next.server, end.server, Brought(start, events[0]), BroughtOver(next, events[1..]));
    }
  }

  lemma CasesOneEarlier(
      start: seq<Version>, next: seq<Version>, end: seq<Version>, first: seq<Option<Cases>>, rest: seq<Option<Cases>>)
    requires |first| <= 1 && |next| == |start| + |first| && next[..|start|] == start
    requires |first| == 1 ==> LastCases(next) == if first[0].Some? then first[0].value else LastCases(start)
    requires |end| == |next| + |rest| && end[..|next|] == next
    requires AllLatest(next, rest, end)
    ensures end[..|start|] == start && AllLatest(start, first + rest, end)
  {
    hide LatestBrought;
    assert end[..|start|] == end[..|next|][..|start|];
    if first == [] {
      assert next == start && first + rest == rest;
    } else {
      assert first == [first[0]];
      forall n | |start| <= n < |end|
        ensures LatestBrought(LastCases(start), first + rest, n - |start|, end[n].cases)
      {
        if n == |start| {
          assert end[n] == end[..|next|][n] == next[n];
          FirstLatest(LastCases(start), first[0], rest, end[n].cases);
        } else {
          LatestThroughFirst(LastCases(start), first[0], rest, n - |next|, end[n].cases);
        }
      }
    }
  }

  // -------------------------------------------------- who is behind a conflict

  /** The revision the page builds on; before it has any, everything is past it. */
  function Base(s: Session): nat { if s.draft.revision.Some? then s.draft.revision.value else 0 }

  /** Where the versions past a revision come from, and what replies on their way tell of them. */
  predicate OriginsOf(server: seq<Version>, lost: set<nat>, flights: seq<Flight>, revision: Option<nat>)
  {
    var base := if revision.Some? then revision.value else 0;
    && (forall r <- lost :: 1 <= r <= |server| && server[r - 1].author.Page?)
    && (forall k | base <= k < |server| && server[k].author.Page? ::
          k + 1 in lost || exists f <- flights :: f.reply == Some(Accepted(k + 1)))
    && (forall f <- flights | f.reply.Some? :: ReplyTells(server, f.reply.value, revision))
  }

  predicate ReplyTells(server: seq<Version>, reply: Saved, revision: Option<nat>)
  {
    match reply
    case Accepted(r) => revision.None? || revision.value < r
    case Stopped(current) => revision.Some? && revision.value < current <= |server|
  }

  predicate Origins(s: Session)
  {
    && OriginsOf(s.server, s.lost, s.flights, s.draft.revision)
    && (s.draft.save.Conflict? ==> s.draft.revision.Some? && s.draft.revision.value < |s.server|)
  }

  lemma PageKeepsOrigins(s: Session, e: Event)
    requires Origins(s) && Enabled(s, e)
    requires e.Edit? || e.EditCases? || e.Commit? || e.Effect? || e.Settle?
    ensures Origins(Step(s, e))
  {
    hide OriginsOf;
  }

  lemma FiringKeepsOrigins(s: Session)
    requires Inv(s) && Origins(s) && s.timer
    ensures Origins(Fired(s))
  {
    assert s.flights == [];
  }

  lemma OthersKeepOrigins(s: Session, expected: Option<nat>, doc: Doc, cases: Option<Cases>)
    requires Inv(s) && Origins(s)
    ensures Origins(Step(s, OtherSaves(expected, doc, cases)))
  {
    var t := Step(s, OtherSaves(expected, doc, cases));
    assert forall k | 0 <= k < |s.server| :: t.server[k] == s.server[k];
  }

  lemma HandlingKeepsOrigins(s: Session)
    requires Inv(s) && Origins(s) && Enabled(s, Handle(0))
    ensures Origins(Handled(s, 0))
  {
    OneFlight(s, 0);
    var q, t := s.flights[0].request, Handled(s, 0);
    assert t.flights == [t.flights[0]];
    HandledOrigins(s.server, s.lost, s.flights[0], s.draft.revision);
  }

  lemma HandledOrigins(server: seq<Version>, lost: set<nat>, f: Flight, revision: Option<nat>)
    requires OriginsOf(server, lost, [f], revision) && f.reply.None? && f.request.expected == revision
    requires revision.Some? ==> 1 <= revision.value <= |server|
    ensures var q := f.request;
            var (after, reply) := SaveDraft(server, q.expected, Page, q.sent, Some(q.cases));
            OriginsOf(after, lost, [Flight(q, Some(reply))], revision)
  {
    var q := f.request;
    var (after, reply) := SaveDraft(server, q.expected, Page, q.sent, Some(q.cases));
    assert forall k | 0 <= k < |server| :: after[k] == server[k];
    assert Flight(q, Some(reply)) in [Flight(q, Some(reply))];
  }

  /** Heard, the one save out is the page's base; every save of its own past that went unheard. */
  lemma LandedOrigins(server: seq<Version>, lost: set<nat>, f: Flight, revision: Option<nat>)
    requires OriginsOf(server, lost, [f], revision) && f.reply.Some?
    ensures f.reply.value.Accepted? ==> OriginsOf(server, lost, [], Some(f.reply.value.revision))
    ensures f.reply.value.Stopped? ==> OriginsOf(server, lost, [], revision) && ReplyTells(server, f.reply.value, revision)
  {
    assert f in [f];
  }

  lemma LostOrigins(server: seq<Version>, lost: set<nat>, f: Flight, revision: Option<nat>)
    requires OriginsOf(server, lost, [f], revision)
    requires forall r <- Unheard(f.reply) :: 1 <= r <= |server| && server[r - 1].author.Page?
    ensures OriginsOf(server, lost + Unheard(f.reply), [], revision)
  {}

  lemma LandingKeepsOrigins(s: Session)
    requires Inv(s) && Origins(s) && Enabled(s, Lands(0))
    ensures Origins(Landed(s, 0))
  {
    OneFlight(s, 0);
    LandedOrigins(s.server, s.lost, s.flights[0], s.draft.revision);
    hide OriginsOf;
  }

  lemma LosingKeepsOrigins(s: Session)
    requires Inv(s) && Origins(s) && Enabled(s, LandsLost(0))
    ensures Origins(Lost(s, 0))
  {
    OneFlight(s, 0);
    LostOrigins(s.server, s.lost, s.flights[0], s.draft.revision);
    hide OriginsOf;
  }

  lemma StepKeepsOrigins(s: Session, e: Event)
    requires Inv(s) && Origins(s) && Enabled(s, e)
    ensures Origins(Step(s, e))
  {
    match e
    case OtherSaves(expected, doc, cases) => OthersKeepOrigins(s, expected, doc, cases);
    case Handle(i) =>
      OneFlight(s, i);
      HandlingKeepsOrigins(s);
    case Lands(i) =>
      OneFlight(s, i);
      LandingKeepsOrigins(s);
    case LandsLost(i) =>
      OneFlight(s, i);
      LosingKeepsOrigins(s);
    case TimerFires => FiringKeepsOrigins(s);
    case _ => PageKeepsOrigins(s, e);
  }

  lemma {:induction false} RunKeepsOrigins(start: Session, events: seq<Event>, end: Session)
    requires Inv(start) && Origins(start) && Leads(start, events, end)
    ensures Origins(end)
    decreases |events|
  {
    if events != [] {
      StepKeepsInv(start, events[0]);
      StepKeepsOrigins(start, events[0]);
      RunKeepsOrigins(Step(start, events[0]), events[1..], end);
    }
  }

  lemma ReachableOrigins(s: Session)
    requires Reachable(s)
    ensures Inv(s) && Origins(s)
  {
    ReachableInv(s);
    var ir, server, nextDoc, nextCases, events :|
      Startable(ir, server, nextDoc, nextCases) && Leads(Start(ir, server, nextDoc, nextCases), events, s);
    RunKeepsOrigins(Start(ir, server, nextDoc, nextCases), events, s);
  }

  /** Somebody else has saved past the page's revision. */
  predicate SomeoneElseSaved(s: Session)
  {
    exists k | Base(s) <= k < |s.server| :: s.server[k].author.Other?
  }

  /**
   * In conflict the page says that someone else saved the draft. There is a version past the
   * page's revision; but somebody else's is among them exactly when they are not all saves of
   * this page whose replies were lost.
   */
  lemma SomeoneElseExactly(s: Session)
    requires Reachable(s) && s.draft.save.Conflict?
    ensures Base(s) < |s.server|
    ensures SomeoneElseSaved(s) <==> exists r | Base(s) < r <= |s.server| :: r !in s.lost
  {
    ReachableOrigins(s);
    assert s.flights == [];
    if r :| Base(s) < r <= |s.server| && r !in s.lost {
      assert s.server[r - 1].author.Other?;
    }
    if k :| Base(s) <= k < |s.server| && s.server[k].author.Other? {
      assert k + 1 !in s.lost;
    }
  }

  // ------------------------------------------------- what "saved" covers

  /** These test cases are the ones on screen exactly when none was edited since. */
  predicate Dated(s: Session, cases: Cases, since: bool)
  {
    cases < s.nextCases && (cases == s.draft.cases <==> !since)
  }

  predicate Covered(s: Session)
  {
    && (s.acked.Some? ==> Dated(s, s.acked.value.cases, s.casesSince))
    && (forall f <- s.flights :: Dated(s, f.request.cases, s.casesInFlight))
  }

  lemma HandlingKeepsCovered(s: Session, i: nat)
    requires Inv(s) && Covered(s) && Enabled(s, Handle(i))
    ensures Covered(Handled(s, i))
  {
    var t := Handled(s, i);
    assert s.flights[i] in s.flights;
    assert t.flights == [t.flights[0]];
  }

  lemma LandingKeepsCovered(s: Session, e: Event)
    requires Inv(s) && Covered(s) && (e.Lands? || e.LandsLost?) && Enabled(s, e)
    ensures Covered(Step(s, e))
  {
    assert s.flights == [s.flights[0]] && e.i == 0;
    assert s.flights[0] in s.flights;
    assert s.flights[..0] + s.flights[1..] == [];
  }

  lemma EditingKeepsCovered(s: Session, e: Event)
    requires s.draft.ir.Some? && Covered(s) && (e.Edit? || e.EditCases? || e.Settle?) && Enabled(s, e)
    ensures Covered(Step(s, e))
  {}

  lemma WatchingKeepsCovered(s: Session, e: Event)
    requires Covered(s) && (e.Commit? || e.Effect? || e.OtherSaves?) && Enabled(s, e)
    ensures Covered(Step(s, e))
  {}

  lemma FiringKeepsCovered(s: Session)
    requires Inv(s) && Covered(s) && s.timer && s.draft.cases < s.nextCases
    ensures Covered(Fired(s))
  {
    assert s.flights == [];
  }

  lemma StepKeepsCovered(s: Session, e: Event)
    requires Inv(s) && Timing(s) && Covered(s) && Enabled(s, e)
    ensures Covered(Step(s, e))
  {
    match e
    case Handle(i) => HandlingKeepsCovered(s, i);
    case Lands(_) => LandingKeepsCovered(s, e);
    case LandsLost(_) => LandingKeepsCovered(s, e);
    case TimerFires => FiringKeepsCovered(s);
    case Commit => WatchingKeepsCovered(s, e);
    case Effect => WatchingKeepsCovered(s, e);
    case OtherSaves(_, _, _) => WatchingKeepsCovered(s, e);
    case _ => EditingKeepsCovered(s, e);
  }

  lemma {:induction false} RunKeepsCovered(start: Session, events: seq<Event>, end: Session)
    requires Inv(start) && Timing(start) && Covered(start) && Leads(start, events, end)
    ensures Covered(end)
    decreases |events|
  {
    if events != [] {
      StepKeepsInv(start, events[0]);
      StepKeepsTiming(start, events[0]);
      StepKeepsCovered(start, events[0]);
      RunKeepsCovered(Step(start, events[0]), events[1..], end);
    }
  }

  lemma ReachableCovered(s: Session)
    requires Reachable(s)
    ensures Inv(s) && Covered(s)
  {
    ReachableInv(s);
    var ir, server, nextDoc, nextCases, events :|
      Startable(ir, server, nextDoc, nextCases) && Leads(Start(ir, server, nextDoc, nextCases), events, s);
    RunKeepsCovered(Start(ir, server, nextDoc, nextCases), events, s);
  }

  /**
   * A session that says "saved" has its document in the server's version of the page's
   * revision, and its test cases exactly when none was edited since that save was sent.
   */
  lemma CleanCoversCasesExactly(s: Session)
    requires Reachable(s) && s.draft.save.Clean?
    ensures s.draft.revision.Some? && 1 <= s.draft.revision.value <= |s.server|
    ensures var version := s.server[s.draft.revision.value - 1];
            && Some(version.ir) == s.draft.ir
            && (version.cases == s.draft.cases <==> !s.casesSince)
  {
    ReachableCovered(s);
  }

  // ------------------------------------------------ where the promises stop

  lemma {:induction false} LeadsOn(start: Session, events: seq<Event>, s: Session, e: Event)
    requires Leads(start, events, s) && Enabled(s, e)
    ensures Leads(start, events + [e], Step(s, e))
    decreases |events|
  {
    if events == [] {
      assert [e][1..] == [];
    } else {
      assert (events + [e])[1..] == events[1..] + [e];
      LeadsOn(Step(start, events[0]), events[1..], s, e);
    }
  }

  lemma ReachableOn(s: Session, e: Event) returns (t: Session)
    requires Reachable(s) && Enabled(s, e)
    ensures t == Step(s, e) && Reachable(t)
  {
    t := Step(s, e);
    var ir, server, nextDoc, nextCases, events :|
      Startable(ir, server, nextDoc, nextCases) && Leads(Start(ir, server, nextDoc, nextCases), events, s);
    LeadsOn(Start(ir, server, nextDoc, nextCases), events, s, e);
  }

  lemma ReachableStart(ir: Doc, server: seq<Version>, nextDoc: nat, nextCases: nat) returns (s: Session)
    requires Startable(ir, server, nextDoc, nextCases)
    ensures s == Start(ir, server, nextDoc, nextCases) && Reachable(s)
  {
    s := Start(ir, server, nextDoc, nextCases);
    assert Leads(s, [], s);
  }

  /** Two authors start the same draft: the page's first save carries no revision and lands on the other's. */
  lemma FirstSaveOverwrites() returns (s: Session)
    ensures Reachable(s) && Enabled(s, Handle(0)) && Overwrites(s, 0)
    ensures s.server == [Version(Other, 7, NO_CASES)]
  {
    hide Reachable;
    s := NewDraftWaits();
    s := ReachableOn(s, OtherSaves(None, 7, None));
    s := ReachableOn(s, TimerFires);
  }

  /** A new document is on screen, and its first save is due. */
  lemma NewDraftWaits() returns (s: Session)
    ensures Reachable(s) && s.server == [] && s.timer && s.flights == [] && s.acked.None?
    ensures s.draft.ir == Some(1) && s.draft.saved.None? && s.draft.revision.None?
  {
    hide Reachable;
    s := ReachableStart(1, [], 2, 1);
    s := ReachableOn(s, Effect);
  }

  /** The page has loaded revision 1, edited it, and its save is on the way. */
  lemma SaveOnTheWay() returns (s: Session)
    ensures Reachable(s) && s.draft.revision == Some(1) && s.server == [Version(Other, 0, 0)]
    ensures s.draft.ir == Some(1) && s.draft.saved == Some(0) && s.draft.cases == 0 && s.draft.save.Saving?
    ensures s.flights == [Flight(Request(1, 0, Some(1)), None)] && s.inFlight && !s.timer && s.settling == 0
    ensures s.committed == Snap(Some(1), Some(0), Dirty, 0) && s.ran == Some(s.committed) && s.nextDoc == 2 && s.nextCases == 1
  {
    hide Reachable;
    s := EditedOnce();
    s := ReachableOn(s, Effect);
    s := ReachableOn(s, TimerFires);
  }

  lemma EditedOnce() returns (s: Session)
    ensures Reachable(s) && s.draft.revision == Some(1) && s.server == [Version(Other, 0, 0)]
    ensures s.draft.ir == Some(1) && s.draft.saved == Some(0) && s.draft.cases == 0 && s.draft.save.Dirty?
    ensures s.committed == Snap(Some(1), Some(0), Dirty, 0) && s.ran == None && s.nextDoc == 2 && s.nextCases == 1
    ensures s.flights == [] && s.settling == 0 && !s.inFlight && !s.timer
  {
    hide Reachable;
    s := ReachableStart(0, [Version(Other, 0, 0)], 1, 1);
    s := ReachableOn(s, Edit);
    s := ReachableOn(s, Commit);
  }

  /** Another author saves first, and the page is edited again: the refusal is on its way back. */
  lemma RefusalOnTheWay() returns (s: Session)
    ensures Reachable(s) && s.flights == [Flight(Request(1, 0, Some(1)), Some(Stopped(2)))]
    ensures s.settling == 0 && s.draft.saved == Some(0) && s.draft.ir == Some(2)
    ensures s.committed == Snap(Some(2), Some(0), Dirty, 0) && s.ran == Some(Snap(Some(1), Some(0), Dirty, 0))
  {
    hide Reachable;
    s := SaveOnTheWay();
    s := ReachableOn(s, OtherSaves(Some(1), 0, None));
    assert |s.server| == 2;
    s := ReachableOn(s, Handle(0));
    s := ReachableOn(s, Edit);
    s := ReachableOn(s, Commit);
  }

  /** The refusal has landed; the render from before it has not had its effect yet. */
  lemma ConflictShown() returns (s: Session)
    ensures Reachable(s) && s.draft.save.Conflict? && s.flights == [] && !s.inFlight
    ensures s.draft.saved == Some(0) && s.draft.ir == Some(2)
    ensures s.committed == Snap(Some(2), Some(0), Dirty, 0) && s.ran != Some(s.committed)
  {
    hide Reachable;
    s := RefusalOnTheWay();
    s := ReachableOn(s, Lands(0));
    s := ReachableOn(s, Settle);
  }

  /** An effect run late for a render from before the conflict lets a timer send one more save. */
  lemma ConflictOvertaken() returns (s: Session)
    ensures Reachable(s) && s.draft.save.Conflict? && Enabled(s, TimerFires) && Outstanding(s)
    ensures Step(s, TimerFires).flights != []
  {
    hide Reachable;
    s := ConflictShown();
    s := ReachableOn(s, Effect);
  }

  /** The page is edited while its save is in flight, and the save lands. */
  lemma SavedBehindEdit() returns (s: Session)
    ensures Reachable(s) && s.flights == [] && s.settling == 1 && s.inFlight && !s.timer
    ensures s.draft.ir == Some(2) && s.draft.saved == Some(1) && s.draft.save.Dirty?
    ensures s.ran == Some(Snap(Some(1), Some(0), Dirty, 0))
  {
    hide Reachable;
    s := SaveOnTheWay();
    s := ReachableOn(s, Edit);
    s := ReachableOn(s, Handle(0));
    s := ReachableOn(s, Lands(0));
  }

  /**
   * An edit made while a save is in flight can be left unsaved with nothing scheduled: the
   * effect for the landed reply runs before the hook has dropped its in-flight mark, and
   * nothing it watches changes when the mark goes.
   */
  lemma EditLeftUnsaved() returns (s: Session)
    ensures Reachable(s) && !Outstanding(s) && !s.timer && !s.inFlight && s.flights == []
    ensures s.draft.save.Dirty? && s.draft.ir != s.draft.saved
  {
    hide Reachable;
    s := TurnedAwayBehindEdit();
    s := ReachableOn(s, Settle);
  }

  lemma TurnedAwayBehindEdit() returns (s: Session)
    ensures Reachable(s) && !Outstanding(s) && !s.timer && s.settling == 1 && s.flights == []
    ensures s.draft.save.Dirty? && s.draft.ir != s.draft.saved
  {
    hide Reachable;
    s := SavedBehindEdit();
    s := ReachableOn(s, Commit);
    s := ReachableOn(s, Effect);
  }

  /** A save that fails for the second time can go unnoticed by the effect: it sees the same failure as before. */
  lemma FailureLeftUnsaved() returns (s: Session)
    ensures Reachable(s) && !Outstanding(s) && !s.timer && !s.inFlight && s.flights == []
    ensures s.draft.save.SaveFailed? && s.draft.ir != s.draft.saved && s.fired && !s.turnedAway
  {
    hide Reachable;
    s := FailedOnce();
    s := ReachableOn(s, TimerFires);
    s := ReachableOn(s, LandsLost(0));
    s := ReachableOn(s, Settle);
  }

  lemma FailureShown() returns (s: Session)
    ensures Reachable(s) && s.flights == [] && s.settling == 0 && !s.timer && !s.inFlight
    ensures SnapOf(s.draft) == Snap(Some(1), Some(0), SaveFailed, 0) && s.ran != Some(SnapOf(s.draft))
  {
    hide Reachable;
    s := SaveOnTheWay();
    s := ReachableOn(s, LandsLost(0));
    s := ReachableOn(s, Settle);
  }

  lemma FailedOnce() returns (s: Session)
    ensures Reachable(s) && s.flights == [] && s.settling == 0 && s.timer && !s.inFlight && !s.turnedAway
    ensures SnapOf(s.draft) == s.committed == Snap(Some(1), Some(0), SaveFailed, 0) && s.ran == Some(s.committed)
  {
    hide Reachable;
    s := FailureShown();
    s := ReachableOn(s, Commit);
    s := ReachableOn(s, Effect);
  }

  /** Test cases edited while a save is in flight are not in the version "saved" refers to. */
  lemma CasesLeftBehind() returns (s: Session)
    ensures Reachable(s) && s.draft.save.Clean? && s.draft.ir == s.draft.saved
    ensures s.server != [] && s.draft.revision == Some(|s.server|) && s.server[|s.server| - 1].cases != s.draft.cases
  {
    hide Reachable;
    s := SaveOnTheWay();
    s := ReachableOn(s, EditCases);
    s := ReachableOn(s, Handle(0));
    s := ReachableOn(s, Lands(0));
  }

  /** Test cases alone, in a save that failed: the document is the one saved, so nothing tries again. */
  lemma FailedCasesForgotten() returns (s: Session)
    ensures Reachable(s) && !Outstanding(s) && !s.timer && !s.inFlight && s.flights == []
    ensures s.draft.save.SaveFailed? && s.draft.ir == s.draft.saved && Unsaved(s) && !s.turnedAway && !s.fired
    ensures s.server == [Version(Other, 0, 0)] && s.draft.cases == 1
  {
    hide Reachable;
    s := CasesSaveFailed();
    s := ReachableOn(s, Settle);
    s := ReachableOn(s, Commit);
    s := ReachableOn(s, Effect);
  }

  lemma CasesSaveFailed() returns (s: Session)
    ensures Reachable(s) && s.flights == [] && s.settling == 1 && !s.timer && s.inFlight
    ensures s.server == [Version(Other, 0, 0)] && s.acked == Some(Version(Other, 0, 0)) && s.draft.cases == 1
    ensures SnapOf(s.draft) == Snap(Some(0), Some(0), SaveFailed, 1) && s.ran == Some(Snap(Some(0), Some(0), Dirty, 1))
  {
    hide Reachable;
    s := CasesEditedOnce();
    s := ReachableOn(s, Effect);
    s := ReachableOn(s, TimerFires);
    s := ReachableOn(s, LandsLost(0));
  }

  lemma CasesEditedOnce() returns (s: Session)
    ensures Reachable(s) && s.flights == [] && s.settling == 0 && !s.timer && !s.inFlight && s.ran.None?
    ensures s.server == [Version(Other, 0, 0)] && s.acked == Some(Version(Other, 0, 0)) && s.draft.cases == 1
    ensures SnapOf(s.draft) == s.committed == Snap(Some(0), Some(0), Dirty, 1)
  {
    hide Reachable;
    s := ReachableStart(0, [Version(Other, 0, 0)], 1, 1);
    s := ReachableOn(s, EditCases);
    s := ReachableOn(s, Commit);
  }

  /** A conflict with nobody: the server's last version is this page's own, saved by a request whose reply was lost. */
  lemma OwnConflict() returns (s: Session)
    ensures Reachable(s) && s.draft.save.Conflict? && !SomeoneElseSaved(s)
    ensures s.server == [Version(Other, 0, 0), Version(Page, 1, 0)] && s.draft.ir == Some(1) && s.draft.cases == 0
  {
    hide Reachable;
    s := OwnSaveRefused();
    s := ReachableOn(s, Lands(0));
  }

  lemma OwnSaveRefused() returns (s: Session)
    ensures Reachable(s) && s.flights == [Flight(Request(1, 0, Some(1)), Some(Stopped(2)))]
    ensures s.server == [Version(Other, 0, 0), Version(Page, 1, 0)] && s.draft.revision == Some(1)
    ensures s.draft.ir == Some(1) && s.draft.cases == 0
  {
    hide Reachable;
    s := OwnSaveTriedAgain();
    s := ReachableOn(s, TimerFires);
    s := ReachableOn(s, Handle(0));
  }

  lemma OwnSaveTriedAgain() returns (s: Session)
    ensures Reachable(s) && s.flights == [] && s.timer && s.draft.revision == Some(1) && s.draft.cases == 0
    ensures s.draft.ir == Some(1) && s.draft.saved == Some(0)
    ensures s.server == [Version(Other, 0, 0), Version(Page, 1, 0)]
  {
    hide Reachable;
    s := OwnSaveUnheard();
    s := ReachableOn(s, Settle);
    s := ReachableOn(s, Commit);
    s := ReachableOn(s, Effect);
  }

  lemma OwnSaveUnheard() returns (s: Session)
    ensures Reachable(s) && s.flights == [] && s.settling == 1 && s.inFlight && !s.timer && s.draft.revision == Some(1)
    ensures SnapOf(s.draft) == Snap(Some(1), Some(0), SaveFailed, 0) && s.ran == Some(Snap(Some(1), Some(0), Dirty, 0))
    ensures s.server == [Version(Other, 0, 0), Version(Page, 1, 0)]
  {
    hide Reachable;
    s := SaveOnTheWay();
    s := ReachableOn(s, Handle(0));
    s := ReachableOn(s, LandsLost(0));
  }

  // ------------------------------------------------------------ the hook itself

  /** The draft row of one form, with every version it has held. */
  class DraftRow {
    var versions: seq<Version>

    method Save(expected: Option<nat>, author: Author, ir: Doc, cases: Option<Cases>) returns (reply: Saved)
      modifies this
      ensures (versions, reply) == SaveDraft(old(versions), expected, author, ir, cases)
      ensures reply.Stopped? <==> expected.Some? && (old(versions) == [] || expected.value != |old(versions)|)
      ensures reply.Stopped? ==> versions == old(versions) && reply.current == |versions|
      ensures reply.Accepted? ==> |versions| == |old(versions)| + 1 && versions[..|old(versions)|] == old(versions)
      ensures reply.Accepted? ==> reply.revision == |versions|
      ensures reply.Accepted? ==> versions[|versions| - 1].author == author && versions[|versions| - 1].ir == ir
      ensures reply.Accepted? && cases.Some? ==> versions[|versions| - 1].cases == cases.value
      ensures reply.Accepted? && cases.None? && old(versions) != [] ==>
                versions[|versions| - 1].cases == old(versions)[|old(versions)| - 1].cases
      ensures reply.Accepted? && cases.None? && old(versions) == [] ==> versions[|versions| - 1].cases == NO_CASES
    {
      if versions == [] {
        if expected.Some? { return Stopped(0); }
        versions := [Version(author, ir, if cases.Some? then cases.value else NO_CASES)];
        return Accepted(1);
      }
      if expected.Some? && expected.value != |versions| { return Stopped(|versions|); }
      var kept := versions[|versions| - 1].cases;
      if cases.Some? { kept := cases.value; }
      versions := versions + [Version(author, ir, kept)];
      return Accepted(|versions|);
    }
  }

  /** `useAutoSave`: its ref, its timer, and the saves it has out. */
  class AutoSave {
    const store: BuilderStore
    const row: DraftRow
    var committed: Snap
    var ran: Option<Snap>
    var timer: bool
    var inFlight: bool
    var flights: seq<Flight>
    var settling: nat
    ghost var acked: Option<Version>
    ghost var turnedAway: bool
    ghost var fired: bool
    ghost var lost: set<nat>
    ghost var casesSince: bool
    ghost var casesInFlight: bool
    ghost var nextDoc: nat
    ghost var nextCases: nat

    ghost function View(): Session
      reads this, store, row
    {
      Session(store.View(), committed, ran, timer, inFlight, flights, settling, row.versions, acked, turnedAway,
              fired, lost, casesSince, casesInFlight, nextDoc, nextCases)
    }

    constructor (store: BuilderStore, row: DraftRow, ghost acked: Option<Version>, ghost nextDoc: nat, ghost nextCases: nat)
      ensures this.store == store && this.row == row
      ensures View() == Session(store.View(), SnapOf(store.View()), None, false, false, [], 0, row.versions, acked,
                                false, false, {}, false, false, nextDoc, nextCases)
    {
      this.store, this.row := store, row;
      committed := Snap(store.ir, store.saved, store.save, store.testCases);
      ran, timer, inFlight, flights, settling := None, false, false, [], 0;
      lost, casesSince, casesInFlight := {}, false, false;
      this.acked, turnedAway, fired, this.nextDoc, this.nextCases := acked, false, false, nextDoc, nextCases;
    }

    method RunEffect()
      requires Enabled(View(), Effect)
      modifies this
      ensures View() == Step(old(View()), Effect)
    {
      timer := false;
      ran := Some(committed);
      turnedAway, fired := false, false;
      if committed.ir.None? || (committed.ir == committed.saved && !committed.status.Dirty?) { return; }
      if committed.status.Conflict? || committed.status.Saving? { return; }
      if inFlight { turnedAway := true; return; }
      timer := true;
    }

    method FireTimer()
      requires Enabled(View(), TimerFires)
      modifies this, store
      ensures View() == Step(old(View()), TimerFires)
    {
      timer := false;
      fired := true;
      if store.ir.None? || (store.ir == store.saved && !store.save.Dirty?) { return; }
      var request := Request(store.ir.value, store.testCases, store.revision);
      inFlight := true;
      casesInFlight := false;
      flights := flights + [Flight(request, None)];
      store.SetSave(Saving);
    }

    /** The server's side of a save. */
    method Handle(i: nat)
      requires Enabled(View(), Event.Handle(i))
      modifies this, row
      ensures View() == Step(old(View()), Event.Handle(i))
    {
      var q := flights[i].request;
      var reply := row.Save(q.expected, Page, q.sent, Some(q.cases));
      flights := flights[i := Flight(q, Some(reply))];
    }

    /** A reply arrives: `then` for an accepted save, `catch` for a refused one. */
    method Land(i: nat)
      requires Enabled(View(), Lands(i))
      modifies this, store
      ensures View() == Step(old(View()), Lands(i))
    {
      var f := flights[i];
      flights := flights[..i] + flights[i + 1..];
      settling := settling + 1;
      match f.reply.value
      case Accepted(revision) =>
        store.SaveSucceeded(f.request.sent, revision);
        acked := Some(Version(Page, f.request.sent, f.request.cases));
        casesSince := casesInFlight;
      case Stopped(_) =>
        store.SetSave(Conflict);
    }

    /** No reply arrives, whether or not the server handled the save. */
    method LandLost(i: nat)
      requires Enabled(View(), LandsLost(i))
      modifies this, store
      ensures View() == Step(old(View()), LandsLost(i))
    {
      lost := lost + Unheard(flights[i].reply);
      flights := flights[..i] + flights[i + 1..];
      settling := settling + 1;
      store.SetSave(SaveFailed);
    }

    /** `finally`. */
    method Finish()
      requires Enabled(View(), Settle)
      modifies this
      ensures View() == Step(old(View()), Settle)
    {
      inFlight := false;
      settling := settling - 1;
    }
  }
}
