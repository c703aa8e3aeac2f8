/**
 * The principal over a pool of database connections: declared afresh by every transaction,
 * gone with the transaction's end, and never carried back to the pool.
 */
module PrincipalPool {
  import opened Options
  import opened Principals
  import opened RowSecurity

  // --------------------------------------------------------- one connection

  /**
   * A connection's settings: what the session level holds, and inside a transaction what
   * was set at session level but not committed, and what was set for the transaction only.
   */
  datatype Link = Link(
    session: map<Name, string>,
    inTransaction: bool,
    pending: map<Name, string>,
    local: map<Name, string>)

  const NEW_LINK := Link(map[], false, map[], map[])

  /** `coalesce(current_setting(name, true), '')`. */
  function Current(c: Link): Settings
  {
    (n: Name) =>
      if n in c.local then c.local[n]
      else if n in c.pending then c.pending[n]
      else if n in c.session then c.session[n]
      else ""
  }

  function Begun(c: Link): Link { c.(inTransaction := true, pending := map[], local := map[]) }

  /** `set_config(name, value, is_local)`. A local setting outside a transaction does not outlive its statement. */
  function Configured(c: Link, name: Name, value: string, isLocal: bool): Link
  {
    if isLocal then (if c.inTransaction then c.(local := c.local[name := value]) else c)
    else if c.inTransaction then c.(pending := c.pending[name := value], local := c.local - {name})
    else c.(session := c.session[name := value])
  }

  function Ended(c: Link, commit: bool): Link
  {
    Link(if commit then c.session + c.pending else c.session, false, map[], map[])
  }

  const ALL_NAMES: seq<Name> :=
    [OrgId, OrgSlug, Name.UserId, ScopeKind, VisibleUserIds, Permissions, ProjectIds, TeamIds]

  /** Set every one of these settings, for the transaction only, to what the principal says. */
  function DeclaredEach(c: Link, settings: Settings, names: seq<Name>): Link
    decreases |names|
  {
    if names == [] then c else
      DeclaredEach(Configured(c, names[0], settings(names[0]), true), settings, names[1..])
  }

  lemma DeclaredNext(c: Link, settings: Settings, names: seq<Name>, i: nat)
    requires i < |names|
    ensures DeclaredEach(c, settings, names[i..])
         == DeclaredEach(Configured(c, names[i], settings(names[i]), true), settings, names[i + 1..])
  {
    assert names[i..][1..] == names[i + 1..];
  }

  /** The declaration every transaction of a session begins with: its principal, or nobody. */
  function Declared(c: Link, principal: Option<Principal>): Link
  {
    DeclaredEach(c, AsSettings(if principal.None? then NOBODY else principal.value), ALL_NAMES)
  }

  predicate Carries(c: Link) { exists n <- ALL_NAMES :: Current(c)(n) != "" }

  lemma {:induction false} DeclaredReads(c: Link, settings: Settings, names: seq<Name>, n: Name)
    requires c.inTransaction
    ensures var d := DeclaredEach(c, settings, names);
            && d.inTransaction && d.session == c.session
            && Current(d)(n) == if n in names then settings(n) else Current(c)(n)
    decreases |names|
  {
    if names != [] {
      DeclaredReads(Configured(c, names[0], settings(names[0]), true), settings, names[1..], n);
    }
  }

  /**
   * A setting reads as it was last set, at whichever level, and no other setting changes;
   * for the transaction only, and outside one, nothing does.
   */
  lemma SettingReads(c: Link, name: Name, value: string, isLocal: bool, n: Name)
    requires !c.inTransaction ==> c.pending == map[] && c.local == map[]
    ensures Current(Configured(c, name, value, isLocal))(n)
         == if n == name && (c.inTransaction || !isLocal) then value else Current(c)(n)
  {
    if isLocal { LocalReads(c, name, value, n); } else if c.inTransaction { PendingReads(c, name, value, n); }
    else { SessionReads(c, name, value, n); }
    hide Current, Configured;
  }

  lemma LocalReads(c: Link, name: Name, value: string, n: Name)
    ensures Current(Configured(c, name, value, true))(n) == if n == name && c.inTransaction then value else Current(c)(n)
  {}

  lemma PendingReads(c: Link, name: Name, value: string, n: Name)
    requires c.inTransaction
    ensures Current(Configured(c, name, value, false))(n) == if n == name then value else Current(c)(n)
  {}

  lemma SessionReads(c: Link, name: Name, value: string, n: Name)
    requires !c.inTransaction && c.pending == map[] && c.local == map[]
    ensures Current(Configured(c, name, value, false))(n) == if n == name then value else Current(c)(n)
  {}

  /** When a transaction ends its own settings are gone, and the session's stand as they were unless it committed. */
  lemma EndingReads(c: Link, commit: bool, n: Name)
    ensures !commit ==> Current(Ended(c, commit))(n) == if n in c.session then c.session[n] else ""
    ensures commit && n !in c.local ==> Current(Ended(c, commit))(n) == Current(c)(n)
    ensures forall later: Name, value: string ::
      Current(Ended(Configured(c.(inTransaction := true), later, value, true), commit))(n) == Current(Ended(c, commit))(n)
  {}

  // ----------------------------------------------------------------- the pool

  type Holder = nat

  /** Connections idle in the pool, connections out with a holder, and each session's principal. */
  datatype Pool = Pool(idle: seq<Link>, out: map<Holder, Link>, principals: map<Holder, Option<Principal>>)

  datatype Event =
    | Assign(h: Holder, principal: Option<Principal>)
    | CheckoutNew(h: Holder)
    | CheckoutIdle(h: Holder, i: nat)
    | Begin(h: Holder)
    | Configure(h: Holder, name: Name, value: string, isLocal: bool)
    | End(h: Holder, commit: bool)
    | Checkin(h: Holder, terminateOnly: bool)

  predicate Enabled(p: Pool, e: Event)
  {
    match e
    case Assign(_, _) => true
    case CheckoutNew(h) => h !in p.out
    case CheckoutIdle(h, i) => h !in p.out && i < |p.idle|
    case Begin(h) => h in p.out && !p.out[h].inTransaction
    case Configure(h, _, _, _) => h in p.out
    case End(h, _) => h in p.out && p.out[h].inTransaction
    case Checkin(h, _) => h in p.out
  }

  function PrincipalOf(p: Pool, h: Holder): Option<Principal>
  {
    if h in p.principals then p.principals[h] else None
  }

  /** Whom a transaction of this session acts for. */
  function Who(p: Pool, h: Holder): Principal
  {
    if PrincipalOf(p, h).None? then NOBODY else PrincipalOf(p, h).value
  }

  /** A connection on its way back: a closing one is not pooled, and one that still carries a principal is discarded. */
  function Pooled(idle: seq<Link>, c: Link, terminateOnly: bool): seq<Link>
  {
    if terminateOnly then idle
    else if Carries(Ended(c, false)) then idle
    else idle + [Ended(c, false)]
  }

  function Step(p: Pool, e: Event): Pool
    requires Enabled(p, e)
  {
    match e
    case Assign(h, principal) => p.(principals := p.principals[h := principal])
    case CheckoutNew(h) => p.(out := p.out[h := NEW_LINK])
    case CheckoutIdle(h, i) => p.(out := p.out[h := p.idle[i]], idle := p.idle[..i] + p.idle[i + 1..])
    case Begin(h) => p.(out := p.out[h := Declared(Begun(p.out[h]), PrincipalOf(p, h))])
    case Configure(h, name, value, isLocal) => p.(out := p.out[h := Configured(p.out[h], name, value, isLocal)])
    case End(h, commit) => p.(out := p.out[h := Ended(p.out[h], commit)])
    case Checkin(h, terminateOnly) =>
      p.(out := p.out - {h}, idle := Pooled(p.idle, p.out[h], terminateOnly))
  }

  predicate Leads(start: Pool, events: seq<Event>, end: Pool)
    decreases |events|
  {
    if events == [] then end == start
    else Enabled(start, events[0]) && Leads(Step(start, events[0]), events[1..], end)
  }

  /** A connection with no transaction, or anything left of one, that tells nothing about anybody. */
  predicate Blank(c: Link)
  {
    c == Link(c.session, false, map[], map[]) && forall n :: Current(c)(n) == ""
  }

  predicate IdleBlank(p: Pool) { forall c <- p.idle :: Blank(c) }

  lemma EveryName(n: Name)
    ensures n in ALL_NAMES
  {
    assert ALL_NAMES[0] == OrgId && ALL_NAMES[1] == OrgSlug && ALL_NAMES[2] == Name.UserId && ALL_NAMES[3] == ScopeKind;
    assert ALL_NAMES[4] == VisibleUserIds && ALL_NAMES[5] == Permissions && ALL_NAMES[6] == ProjectIds && ALL_NAMES[7] == TeamIds;
  }

  lemma CheckinBlank(c: Link)
    requires !Carries(Ended(c, false))
    ensures Blank(Ended(c, false))
  {
    forall n ensures Current(Ended(c, false))(n) == "" {
      EveryName(n);
    }
  }

  lemma StepKeepsIdleBlank(p: Pool, e: Event)
    requires IdleBlank(p) && Enabled(p, e)
    ensures IdleBlank(Step(p, e))
  {
    if e.Checkin? && !e.terminateOnly && !Carries(Ended(p.out[e.h], false)) {
      CheckinBlank(p.out[e.h]);
    }
  }

  /** Over every run, no connection idle in the pool carries a principal. */
  lemma {:induction false} IdleNeverCarries(start: Pool, events: seq<Event>, end: Pool)
    requires IdleBlank(start) && Leads(start, events, end)
    ensures IdleBlank(end)
    decreases |events|
  {
    if events != [] {
      StepKeepsIdleBlank(start, events[0]);
      IdleNeverCarries(Step(start, events[0]), events[1..], end);
    }
  }

  // ------------------------------------------- what a run leaves on a connection

  /** The last thing the run did about the holder's transactions was to open one. */
  predicate InTransaction(events: seq<Event>, h: Holder)
  {
    events != [] &&
    var earlier := events[..|events| - 1];
    match events[|events| - 1]
    case Begin(k) => k == h || InTransaction(earlier, h)
    case End(k, _) => k != h && InTransaction(earlier, h)
    case CheckoutNew(k) => k != h && InTransaction(earlier, h)
    case CheckoutIdle(k, _) => k != h && InTransaction(earlier, h)
    case _ => InTransaction(earlier, h)
  }

  /** What the holder's open transaction has set the name to at session level, if it has. */
  function Uncommitted(events: seq<Event>, h: Holder, n: Name): Option<string>
  {
    if events == [] then None else
      var earlier := events[..|events| - 1];
      match events[|events| - 1]
      case Begin(k) => if k == h then None else Uncommitted(earlier, h, n)
      case Configure(k, name, value, isLocal) =>
        if k == h && name == n && !isLocal then Some(value) else Uncommitted(earlier, h, n)
      case _ => Uncommitted(earlier, h, n)
  }

  /**
   * The last value the run gave the name at session level, on the connection the holder has
   * now: outside a transaction, or in one that was committed.
   */
  function Committed(events: seq<Event>, h: Holder, n: Name): string
  {
    if events == [] then "" else
      var earlier := events[..|events| - 1];
      match events[|events| - 1]
      case CheckoutNew(k) => if k == h then "" else Committed(earlier, h, n)
      case CheckoutIdle(k, _) => if k == h then "" else Committed(earlier, h, n)
      case Configure(k, name, value, isLocal) =>
        if k == h && name == n && !isLocal && !InTransaction(earlier, h) then value else Committed(earlier, h, n)
      case End(k, commit) =>
        if k == h && commit && Uncommitted(earlier, h, n).Some? then Uncommitted(earlier, h, n).value
        else Committed(earlier, h, n)
      case _ => Committed(earlier, h, n)
  }

  lemma {:induction false} LeadsSplit(start: Pool, events: seq<Event>, end: Pool) returns (before: Pool)
    requires Leads(start, events, end) && events != []
    ensures Leads(start, events[..|events| - 1], before)
    ensures Enabled(before, events[|events| - 1]) && end == Step(before, events[|events| - 1])
    decreases |events|
  {
    if |events| == 1 {
      before := start;
      assert events[1..] == [];
    } else {
      before := LeadsSplit(Step(start, events[0]), events[1..], end);
      assert events[..|events| - 1][1..] == events[1..][..|events| - 2];
    }
  }

  /** What a connection says of a name, against what the run says. */
  predicate Tells(c: Link, events: seq<Event>, h: Holder, n: Name)
  {
    && c.inTransaction == InTransaction(events, h)
    && (c.inTransaction ==> (if n in c.pending then Some(c.pending[n]) else None) == Uncommitted(events, h, n))
    && (if n in c.session then c.session[n] else "") == Committed(events, h, n)
  }

  lemma {:induction false} BegunTells(c: Link, settings: Settings, names: seq<Name>)
    requires c.inTransaction
    ensures var d := DeclaredEach(c, settings, names);
            d.inTransaction && d.session == c.session && d.pending == c.pending
    decreases |names|
  {
    if names != [] { BegunTells(Configured(c, names[0], settings(names[0]), true), settings, names[1..]); }
  }

  lemma DeclarationTells(c: Link, principal: Option<Principal>)
    requires c.inTransaction
    ensures var d := Declared(c, principal);
            d.inTransaction && d.session == c.session && d.pending == c.pending
  {
    BegunTells(c, AsSettings(if principal.None? then NOBODY else principal.value), ALL_NAMES);
    hide DeclaredEach;
  }

  predicate ToldOf(p: Pool, events: seq<Event>, h: Holder, n: Name)
  {
    h in p.out ==> Tells(p.out[h], events, h, n)
  }

  lemma OthersTell(p: Pool, events: seq<Event>, e: Event, h: Holder, n: Name)
    requires Enabled(p, e) && ToldOf(p, events, h, n) && (e.Assign? || e.Checkin? || e.h != h)
    ensures ToldOf(Step(p, e), events + [e], h, n)
  {
    assert (events + [e])[..|events|] == events;
    assert h in Step(p, e).out ==> h in p.out && Step(p, e).out[h] == p.out[h];
  }

  lemma CheckoutTells(p: Pool, events: seq<Event>, e: Event, n: Name)
    requires IdleBlank(p) && Enabled(p, e) && (e.CheckoutNew? || e.CheckoutIdle?)
    ensures ToldOf(Step(p, e), events + [e], e.h, n)
  {
    assert (events + [e])[..|events|] == events;
    if e.CheckoutIdle? { BlankTells(p, e.i, n); }
  }

  lemma OpenedTells(c: Link, after: Link, events: seq<Event>, h: Holder, n: Name)
    requires Tells(c, events, h, n)
    requires after.inTransaction && after.session == c.session && after.pending == map[]
    ensures Tells(after, events + [Begin(h)], h, n)
  {
    assert (events + [Begin(h)])[..|events|] == events;
  }

  lemma BeginTells(p: Pool, events: seq<Event>, h: Holder, n: Name)
    requires Enabled(p, Begin(h)) && ToldOf(p, events, h, n)
    ensures ToldOf(Step(p, Begin(h)), events + [Begin(h)], h, n)
  {
    DeclarationTells(Begun(p.out[h]), PrincipalOf(p, h));
    hide Declared, Tells;
    OpenedTells(p.out[h], Declared(Begun(p.out[h]), PrincipalOf(p, h)), events, h, n);
  }

  lemma SettingTells(p: Pool, events: seq<Event>, e: Event, n: Name)
    requires Enabled(p, e) && (e.Configure? || e.End?) && ToldOf(p, events, e.h, n)
    ensures ToldOf(Step(p, e), events + [e], e.h, n)
  {
    assert (events + [e])[..|events|] == events;
  }

  lemma StepTells(p: Pool, events: seq<Event>, e: Event, h: Holder, n: Name)
    requires IdleBlank(p) && Enabled(p, e) && ToldOf(p, events, h, n)
    ensures ToldOf(Step(p, e), events + [e], h, n)
  {
    if e.Assign? || e.Checkin? || e.h != h {
      OthersTell(p, events, e, h, n);
    } else {
      match e
      case CheckoutNew(_) => CheckoutTells(p, events, e, n);
      case CheckoutIdle(_, _) => CheckoutTells(p, events, e, n);
      case Begin(_) => BeginTells(p, events, h, n);
      case _ => SettingTells(p, events, e, n);
    }
  }

  lemma BlankTells(p: Pool, i: nat, n: Name)
    requires IdleBlank(p) && i < |p.idle|
    ensures !p.idle[i].inTransaction && (n in p.idle[i].session ==> p.idle[i].session[n] == "")
  {
    assert Blank(p.idle[i]) && Current(p.idle[i])(n) == "";
  }

  /** In every run a connection holds at session level what the run committed there, and nothing else. */
  lemma {:induction false} RunTells(start: Pool, events: seq<Event>, end: Pool, h: Holder, n: Name)
    requires IdleBlank(start) && h !in start.out && Leads(start, events, end)
    ensures ToldOf(end, events, h, n)
    decreases |events|
  {
    if events != [] {
      var before := LeadsSplit(start, events, end);
      var earlier, e := events[..|events| - 1], events[|events| - 1];
      IdleNeverCarries(start, earlier, before);
      RunTells(start, earlier, before, h, n);
      StepTells(before, earlier, e, h, n);
      assert earlier + [e] == events;
    }
  }

  /**
   * A connection returned to the pool is discarded exactly when the run has committed a
   * value at session level on it that is not empty; otherwise the pool gets it back, blank.
   */
  lemma DiscardedExactly(start: Pool, events: seq<Event>, p: Pool, h: Holder)
    requires IdleBlank(start) && h !in start.out && Leads(start, events, p) && h in p.out
    ensures var idle := Step(p, Checkin(h, false)).idle;
            if exists n :: Committed(events, h, n) != "" then idle == p.idle
            else |idle| == |p.idle| + 1 && idle[..|p.idle|] == p.idle && Blank(idle[|p.idle|])
  {
    var c := Ended(p.out[h], false);
    forall n
      ensures Current(c)(n) == Committed(events, h, n) && n in ALL_NAMES
    {
      RunTells(start, events, p, h, n);
      EveryName(n);
    }
    if !Carries(c) { CheckinBlank(p.out[h]); }
  }

  lemma {:induction false} LocalCommitsNothing(events: seq<Event>, h: Holder, n: Name)
    requires forall e <- events | e.Configure? && e.h == h :: e.isLocal
    ensures Committed(events, h, n) == "" && Uncommitted(events, h, n).None?
  {
    if events != [] {
      assert events[|events| - 1] in events;
      LocalCommitsNothing(events[..|events| - 1], h, n);
    }
  }

  /** So a holder that declares for its transactions only, as every session does, never costs the pool a connection. */
  lemma LocalLosesNone(start: Pool, events: seq<Event>, p: Pool, h: Holder)
    requires IdleBlank(start) && h !in start.out && Leads(start, events, p) && h in p.out
    requires forall e <- events | e.Configure? && e.h == h :: e.isLocal
    ensures |Step(p, Checkin(h, false)).idle| == |p.idle| + 1
  {
    forall n
      ensures Committed(events, h, n) == ""
    {
      LocalCommitsNothing(events, h, n);
    }
    DiscardedExactly(start, events, p, h);
  }

  /**
   * Whatever was set before at whatever level, a transaction starts with exactly its
   * session's principal, or nobody, in all eight settings.
   */
  lemma BeginDeclares(p: Pool, h: Holder, n: Name)
    requires Enabled(p, Begin(h))
    ensures Current(Step(p, Begin(h)).out[h])(n) == AsSettings(Who(p, h))(n)
  {
    EveryName(n);
    DeclaredReads(Begun(p.out[h]), AsSettings(Who(p, h)), ALL_NAMES, n);
  }

  /** So its settings describe that principal, field by field. */
  lemma BeginDescribes(p: Pool, h: Holder)
    requires Enabled(p, Begin(h))
    ensures Describe(Current(Step(p, Begin(h)).out[h]), Who(p, h))
  {
    SettingsReadBack(Who(p, h));
    forall n ensures Current(Step(p, Begin(h)).out[h])(n) == AsSettings(Who(p, h))(n) {
      BeginDeclares(p, h, n);
    }
  }

  /** What other holders do in between changes nothing for an open transaction. */
  lemma OthersLeaveItAlone(p: Pool, e: Event, h: Holder)
    requires Enabled(p, e) && h in p.out && p.out[h].inTransaction
    requires e.Assign? || e.h != h
    ensures h in Step(p, e).out && Step(p, e).out[h] == p.out[h]
  {}

  lemma {:induction false} QuietUntil(p: Pool, events: seq<Event>, end: Pool, h: Holder)
    requires Leads(p, events, end) && h in p.out && p.out[h].inTransaction
    requires forall e <- events :: e.Assign? || e.h != h
    ensures h in end.out && end.out[h] == p.out[h]
    decreases |events|
  {
    if events != [] {
      OthersLeaveItAlone(p, events[0], h);
      QuietUntil(Step(p, events[0]), events[1..], end, h);
    }
  }

  /**
   * End to end: whatever became of the pool and its connections before, a statement of a
   * transaction that has set nothing itself sees exactly the rows the policies give its
   * session's principal, whatever the other connections do meanwhile: those whose chain
   * leads to a row that is the principal's by its cells.
   */
  lemma TransactionSees(p: Pool, h: Holder, between: seq<Event>, end: Pool, db: Database, table: Table)
    requires Enabled(p, Begin(h))
    requires Leads(Step(p, Begin(h)), between, end) && forall e <- between :: e.Assign? || e.h != h
    ensures h in end.out
    ensures Visible(db, Current(end.out[h]), table)
         == Visible(db, AsSettings(Who(p, h)), table)
    ensures PlainIds(Who(p, h).visibleUserIds) ==>
      forall row :: row in Visible(db, Current(end.out[h]), table) <==> Sees(db, Who(p, h), table, row)
  {
    var begun := Step(p, Begin(h));
    var principal := AsSettings(Who(p, h));
    EveryName(OrgId);
    DeclaredReads(Begun(p.out[h]), principal, ALL_NAMES, OrgId);
    QuietUntil(begun, between, end, h);
    forall n ensures Current(end.out[h])(n) == principal(n) {
      BeginDeclares(p, h, n);
    }
    SameSettings(db, Current(end.out[h]), principal, table);
    SettingsReadBack(Who(p, h));
    if PlainIds(Who(p, h).visibleUserIds) {
      forall row
        ensures row in Visible(db, principal, table) <==> Sees(db, Who(p, h), table, row)
      {
        SeenExactly(db, principal, Who(p, h), table, row);
      }
    }
  }

  /** What is seen depends on the settings' values alone. */
  lemma {:induction false} SameSettings(db: Database, s: Settings, s': Settings, table: Table)
    requires forall n :: s(n) == s'(n)
    ensures Visible(db, s, table) == Visible(db, s', table)
    decreases Depth(table)
  {
    AboveIsShallower(table);
    if Above(table).Some? { SameSettings(db, s, s', Above(table).value); }
    MoreAbove(db, s, db, s', table);
    MoreAbove(db, s', db, s, table);
  }

  // -------------------------------------------------------- connections as objects

  class Connection {
    var session: map<Name, string>
    var inTransaction: bool
    var pending: map<Name, string>
    var local: map<Name, string>

    ghost function View(): Link
      reads this
    {
      Link(session, inTransaction, pending, local)
    }

    method SetConfig(name: Name, value: string, isLocal: bool)
      modifies this
      ensures View() == Configured(old(View()), name, value, isLocal)
    {
      if isLocal {
        if inTransaction { local := local[name := value]; }
      } else if inTransaction {
        pending := pending[name := value];
        local := local - {name};
      } else {
        session := session[name := value];
      }
    }

    method Begin()
      requires !inTransaction
      modifies this
      ensures View() == Begun(old(View()))
    {
      inTransaction, pending, local := true, map[], map[];
    }

    method Rollback()
      modifies this
      ensures View() == Ended(old(View()), false)
    {
      inTransaction, pending, local := false, map[], map[];
    }

    /** `_declare_principal`, after a transaction has begun. */
    method DeclarePrincipal(principal: Option<Principal>)
      modifies this
      ensures View() == Declared(old(View()), principal)
    {
      var settings := AsSettings(if principal.None? then NOBODY else principal.value);
      for i := 0 to |ALL_NAMES|
        invariant DeclaredEach(View(), settings, ALL_NAMES[i..]) == Declared(old(View()), principal)
      {
        DeclaredNext(View(), settings, ALL_NAMES, i);
        SetConfig(ALL_NAMES[i], settings(ALL_NAMES[i]), true);
      }
    }

    /** `_refuse_a_leaked_principal`: whether the pool may keep this connection. */
    method RefuseALeakedPrincipal(terminateOnly: bool) returns (kept: bool)
      modifies this
      ensures terminateOnly ==> kept && View() == old(View())
      ensures !terminateOnly ==> View() == Ended(old(View()), false)
      ensures !terminateOnly ==> (kept <==> Blank(View()))
    {
      kept := true;
      if terminateOnly { return; }
      Rollback();
      for i := 0 to |ALL_NAMES|
        invariant View() == Ended(old(View()), false)
        invariant kept <==> forall j | 0 <= j < i :: Current(View())(ALL_NAMES[j]) == ""
      {
        if Current(Link(session, inTransaction, pending, local))(ALL_NAMES[i]) != "" { kept := false; }
      }
      if kept {
        forall n ensures Current(View())(n) == "" {
          EveryName(n);
          var j :| 0 <= j < |ALL_NAMES| && ALL_NAMES[j] == n;
        }
      }
    }
  }

  // ------------------------------------------------------------ choosing the organisation

  /** What resolving a slug comes to: an organisation, nothing, or one of two exceptions. */
  datatype Rescoped = To(orgId: string) | NoOrganization | OrganizationUnknown | SeveralFound

  /** A principal that names a slug and nothing else. */
  function SlugOnly(slug: string): Principal { NOBODY.(orgSlug := slug) }

  function OrganizationsNamed(db: Database, slug: string): set<Row>
  {
    set r <- db(PlatformOrganization) | Cell(r, Slug) == Some(slug)
  }

  /** Under settings that name the slug, the organisations of that slug are seen, all of them. */
  lemma NamedAreSeen(db: Database, settings: Settings, slug: string)
    requires settings(OrgSlug) == slug
    ensures (set o <- Visible(db, settings, PlatformOrganization) | Cell(o, Slug) == Some(slug))
         == OrganizationsNamed(db, slug)
  {}

  class SessionInfo {
    const connection: Connection
    var principal: Option<Principal>

    constructor (connection: Connection)
      ensures this.connection == connection && principal == None
    {
      this.connection, principal := connection, None;
    }

    /** A transaction begins by declaring its session's principal. */
    method BeginTransaction()
      requires !connection.inTransaction
      modifies connection
      ensures connection.View() == Declared(Begun(old(connection.View())), principal)
      ensures connection.inTransaction && connection.session == old(connection.session)
    {
      connection.Begin();
      connection.DeclarePrincipal(principal);
      var settings := AsSettings(if principal.None? then NOBODY else principal.value);
      DeclaredReads(Begun(old(connection.View())), settings, ALL_NAMES, OrgSlug);
    }

    /** The organisations of a slug, looked up in a transaction of its own. */
    method LookUp(db: Database, slug: string) returns (found: set<Row>)
      requires !connection.inTransaction && principal == Some(SlugOnly(slug))
      modifies connection
      ensures connection.inTransaction && connection.session == old(connection.session)
      ensures found == OrganizationsNamed(db, slug)
    {
      BeginTransaction();
      EveryName(OrgSlug);
      DeclaredReads(Begun(old(connection.View())), AsSettings(SlugOnly(slug)), ALL_NAMES, OrgSlug);
      var settings := Current(Link(connection.session, connection.inTransaction, connection.pending, connection.local));
      NamedAreSeen(db, settings, slug);
      found := set o <- Visible(db, settings, PlatformOrganization) | Cell(o, Slug) == Some(slug);
    }

    /**
     * `rescope_to_organization`: an open transaction is given up; the slug is looked up in a
     * transaction of its own, whose principal names only the slug; and the session is left on
     * that principal unless exactly one organisation has the slug. With several, the lookup
     * raises before its transaction is ended.
     */
    method Rescope(db: Database, slug: string, strict: bool) returns (r: Rescoped)
      modifies this, connection
      ensures r.To? <==> |OrganizationsNamed(db, slug)| == 1
      ensures r.SeveralFound? <==> |OrganizationsNamed(db, slug)| > 1
      ensures r.NoOrganization? <==> OrganizationsNamed(db, slug) == {} && !strict
      ensures r.To? ==> (exists o <- OrganizationsNamed(db, slug) :: OrganizationsNamed(db, slug) == {o} && o.id == r.orgId)
      ensures principal == Some(if r.To? then SlugOnly(slug).(orgId := r.orgId) else SlugOnly(slug))
      ensures connection.inTransaction <==> r.SeveralFound?
      ensures connection.session == old(connection.session)
      ensures r.To? ==> SlugIsOwn(db, AsSettings(principal.value))
    {
      if connection.inTransaction { connection.Rollback(); }
      principal := Some(SlugOnly(slug));
      var found := LookUp(db, slug);
      if |found| > 1 { return SeveralFound; }
      connection.Rollback();
      if found == {} { return if strict then OrganizationUnknown else NoOrganization; }
      var org :| org in found;
      OnlyOne(found, org);
      principal := Some(SlugOnly(slug).(orgId := org.id));
      OneNamedIsOwn(db, slug, org);
      return To(org.id);
    }
  }

  lemma OnlyOne(found: set<Row>, org: Row)
    requires org in found && |found| <= 1
    ensures found == {org}
  {
    assert |found - {org}| == |found| - 1;
  }

  lemma OneNamedIsOwn(db: Database, slug: string, org: Row)
    requires OrganizationsNamed(db, slug) == {org}
    ensures SlugIsOwn(db, AsSettings(SlugOnly(slug).(orgId := org.id)))
  {
    forall o | o in db(PlatformOrganization) && Cell(o, Slug) == Some(slug) ensures o == org {
      assert o in OrganizationsNamed(db, slug);
    }
  }
}
