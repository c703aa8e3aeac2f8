/**
 * Row-level security: which rows of which table a principal sees. A table is guarded by the
 * organisation its rows name, or by a row of another table that must itself be visible.
 */
module RowSecurity {
  import opened Options
  import opened Principals

  /** Every table the identity migration secures. */
  datatype Table =
    | Project | PlatformUser | Role | AuditEvent | PlatformOrgMembership | PlatformOrganization
    | PlatformSession | Submission | Environment | Team | ProjectMember | Device | ProjectKey
    | Form | EntityType | Dataset | CaseRecord | Tombstone | QualityRule | WorkflowDefinition
    | OutboxEvent | UserRole | RolePermission | FormVersion | FormDraft | FormDeployment | Entity
    | EntityRelationship | DatasetVersion | DatasetRecord | FormVersionDataset | Assignment | Visit
    | SyncCursor | WorkflowInstance | WorkflowTransition | SubmissionContentKey
    | SubmissionWrappedKey | SubmissionOp | SubmissionState | SubmissionSnapshot | Media
    | MediaUploadSession | MediaWrappedKey | MediaChunk | QualityFlag | Review

  /** The columns the policies look at. */
  datatype Column =
    | OrganizationId | Slug | Status | UserId | CreatedBy | ProjectId | RoleId | FormId
    | FormVersionId | EntityTypeId | FromEntityId | DatasetId | DatasetVersionId | CaseId
    | DeviceId | DefinitionId | InstanceId | SubmissionId | MediaId

  datatype Policy =
    | OfOrganization
    | OrganizationItself
    | OfMembers
    | OfSubmissions
    | Chained(column: Column, parent: Table)

  function PolicyOf(table: Table): Policy
  {
    match table
    case Project => OfOrganization
    case PlatformUser => OfOrganization
    case Role => OfOrganization
    case AuditEvent => OfOrganization
    case PlatformOrgMembership => OfOrganization
    case PlatformOrganization => OrganizationItself
    case PlatformSession => OfMembers
    case Submission => OfSubmissions
    case Environment => Chained(Column.ProjectId, Project)
    case Team => Chained(Column.ProjectId, Project)
    case ProjectMember => Chained(Column.ProjectId, Project)
    case Device => Chained(Column.ProjectId, Project)
    case ProjectKey => Chained(Column.ProjectId, Project)
    case Form => Chained(Column.ProjectId, Project)
    case EntityType => Chained(Column.ProjectId, Project)
    case Dataset => Chained(Column.ProjectId, Project)
    case CaseRecord => Chained(Column.ProjectId, Project)
    case Tombstone => Chained(Column.ProjectId, Project)
    case QualityRule => Chained(Column.ProjectId, Project)
    case WorkflowDefinition => Chained(Column.ProjectId, Project)
    case OutboxEvent => Chained(Column.ProjectId, Project)
    case UserRole => Chained(Column.RoleId, Role)
    case RolePermission => Chained(Column.RoleId, Role)
    case FormVersion => Chained(Column.FormId, Form)
    case FormDraft => Chained(Column.FormId, Form)
    case FormDeployment => Chained(Column.FormVersionId, FormVersion)
    case Entity => Chained(Column.EntityTypeId, EntityType)
    case EntityRelationship => Chained(Column.FromEntityId, Entity)
    case DatasetVersion => Chained(Column.DatasetId, Dataset)
    case DatasetRecord => Chained(Column.DatasetVersionId, DatasetVersion)
    case FormVersionDataset => Chained(Column.FormVersionId, FormVersion)
    case Assignment => Chained(Column.CaseId, CaseRecord)
    case Visit => Chained(Column.CaseId, CaseRecord)
    case SyncCursor => Chained(Column.DeviceId, Device)
    case WorkflowInstance => Chained(Column.DefinitionId, WorkflowDefinition)
    case WorkflowTransition => Chained(Column.InstanceId, WorkflowInstance)
    case SubmissionContentKey => Chained(Column.SubmissionId, Submission)
    case SubmissionWrappedKey => Chained(Column.SubmissionId, Submission)
    case SubmissionOp => Chained(Column.SubmissionId, Submission)
    case SubmissionState => Chained(Column.SubmissionId, Submission)
    case SubmissionSnapshot => Chained(Column.SubmissionId, Submission)
    case Media => Chained(Column.SubmissionId, Submission)
    case MediaUploadSession => Chained(Column.MediaId, Media)
    case MediaWrappedKey => Chained(Column.MediaId, Media)
    case MediaChunk => Chained(Column.MediaId, Media)
    case QualityFlag => Chained(Column.SubmissionId, Submission)
    case Review => Chained(Column.SubmissionId, Submission)
  }

  /** How many policies a table's policy goes through. */
  function Depth(table: Table): nat
  {
    match table
    case FormVersion => 2
    case FormDraft => 2
    case Entity => 2
    case DatasetVersion => 2
    case Assignment => 2
    case Visit => 2
    case SyncCursor => 2
    case WorkflowInstance => 2
    case SubmissionContentKey => 2
    case SubmissionWrappedKey => 2
    case SubmissionOp => 2
    case SubmissionState => 2
    case SubmissionSnapshot => 2
    case Media => 2
    case QualityFlag => 2
    case Review => 2
    case FormDeployment => 3
    case EntityRelationship => 3
    case DatasetRecord => 3
    case FormVersionDataset => 3
    case WorkflowTransition => 3
    case MediaUploadSession => 3
    case MediaWrappedKey => 3
    case MediaChunk => 3
    case _ => if PolicyOf(table).OfOrganization? || PolicyOf(table).OrganizationItself? then 0 else 1
  }

  /** A subquery of a policy always looks at a shallower table. */
  lemma ParentsFirst(table: Table)
    ensures PolicyOf(table).Chained? ==> Depth(PolicyOf(table).parent) < Depth(table)
    ensures PolicyOf(table).OfMembers? || PolicyOf(table).OfSubmissions? ==> Depth(table) == 1
  {}

  // --------------------------------------------------------------------- rows

  /** A row: its id, and the columns that are not NULL. */
  datatype Row = Row(id: string, columns: map<Column, string>)

  type Database = Table -> set<Row>

  function Cell(row: Row, column: Column): Option<string>
  {
    if column in row.columns then Some(row.columns[column]) else None
  }

  /** `column IN (SELECT id FROM parents)`; NULL is in nothing. */
  predicate Refers(row: Row, column: Column, parents: set<Row>)
  {
    Cell(row, column).Some? && exists p <- parents :: p.id == Cell(row, column).value
  }

  /** Some active membership among these rows is the session's user's. */
  predicate ActiveMember(session: Row, memberships: set<Row>)
  {
    Cell(session, Column.UserId).Some?
    && exists m <- memberships :: Cell(m, Column.UserId) == Cell(session, Column.UserId) && Cell(m, Status) == Some("active")
  }

  /** The part of the submission policy that is about the person. */
  predicate InScope(row: Row, settings: Settings)
  {
    || (Cell(row, CreatedBy).Some? && Cell(row, CreatedBy).value in StringToArray(settings(VisibleUserIds)))
    || settings(ScopeKind) == "organization"
  }

  /** The policy of a table, asked of one row; every subquery runs under its own policy. */
  predicate Passes(db: Database, settings: Settings, table: Table, row: Row)
    decreases Depth(table), 0
  {
    match PolicyOf(table)
    case OfOrganization => Cell(row, OrganizationId) == Some(settings(OrgId))
    case OrganizationItself => row.id == settings(OrgId) || Cell(row, Slug) == Some(settings(OrgSlug))
    case OfMembers => ActiveMember(row, Visible(db, settings, PlatformOrgMembership))
    case OfSubmissions => Refers(row, Column.ProjectId, Visible(db, settings, Project)) && InScope(row, settings)
    case Chained(column, parent) => ParentsFirst(table); Refers(row, column, Visible(db, settings, parent))
  }

  /** The rows of a table a transaction with these settings sees. */
  function Visible(db: Database, settings: Settings, table: Table): set<Row>
    decreases Depth(table), 1
  {
    set r <- db(table) | Passes(db, settings, table, r)
  }

  /** The row's chain ends in the organisation, whoever is asking. */
  predicate ChainEnds(db: Database, org: string, table: Table, row: Row)
    decreases Depth(table), 0
  {
    match PolicyOf(table)
    case OfOrganization => Cell(row, OrganizationId) == Some(org)
    case OrganizationItself => row.id == org
    case OfMembers => ActiveMember(row, Owned(db, org, PlatformOrgMembership))
    case OfSubmissions => Refers(row, Column.ProjectId, Owned(db, org, Project))
    case Chained(column, parent) => ParentsFirst(table); Refers(row, column, Owned(db, org, parent))
  }

  function Owned(db: Database, org: string, table: Table): set<Row>
    decreases Depth(table), 1
  {
    set r <- db(table) | ChainEnds(db, org, table, r)
  }

  /** The slug setting names no organisation but the principal's own. */
  ghost predicate SlugIsOwn(db: Database, settings: Settings)
  {
    forall r <- db(PlatformOrganization) :: Cell(r, Slug) == Some(settings(OrgSlug)) ==> r.id == settings(OrgId)
  }

  // ------------------------------------------------------------- main results

  /** Every visible row's chain ends in the principal's organisation. */
  lemma {:induction false} VisibleIsOwned(db: Database, settings: Settings, table: Table)
    requires table.PlatformOrganization? ==> SlugIsOwn(db, settings)
    ensures Visible(db, settings, table) <= Owned(db, settings(OrgId), table)
    decreases Depth(table)
  {
    hide PolicyOf, Visible, Owned;
    AboveIsShallower(table);
    if Above(table).Some? { VisibleIsOwned(db, settings, Above(table).value); }
    OwnedAsAbove(db, settings, table);
  }

  /** Owned in the table above, owned in the table. */
  lemma OwnedAsAbove(db: Database, settings: Settings, table: Table)
    requires table.PlatformOrganization? ==> SlugIsOwn(db, settings)
    requires Above(table).Some? ==>
      Visible(db, settings, Above(table).value) <= Owned(db, settings(OrgId), Above(table).value)
    ensures Visible(db, settings, table) <= Owned(db, settings(OrgId), table)
  {
    ParentsFirst(table);
    forall r | r in db(table) && Passes(db, settings, table, r)
      ensures ChainEnds(db, settings(OrgId), table, r)
    {}
  }

  /** The organisation table alone is also read by slug: it stays inside the principal's own
      organisation exactly when no other organisation has the slug the principal names. */
  lemma SlugOwnExactly(db: Database, settings: Settings)
    ensures Visible(db, settings, PlatformOrganization) <= Owned(db, settings(OrgId), PlatformOrganization)
       <==> SlugIsOwn(db, settings)
  {
    if SlugIsOwn(db, settings) {
      VisibleIsOwned(db, settings, PlatformOrganization);
    } else {
      var r :| r in db(PlatformOrganization) && Cell(r, Slug) == Some(settings(OrgSlug)) && r.id != settings(OrgId);
      assert r in Visible(db, settings, PlatformOrganization);
    }
  }

  /** Two databases agree on everything one organisation owns. */
  ghost predicate AgreeOn(db: Database, db': Database, org: string)
  {
    forall table :: Owned(db, org, table) == Owned(db', org, table)
  }

  /** The table the policy of a table looks into. */
  function Above(table: Table): Option<Table>
  {
    match PolicyOf(table)
    case OfMembers => Some(PlatformOrgMembership)
    case OfSubmissions => Some(Project)
    case Chained(_, parent) => Some(parent)
    case _ => None
  }

  lemma AboveIsShallower(table: Table)
    ensures Above(table).Some? ==> Depth(Above(table).value) < Depth(table) && Above(table).value != PlatformOrganization
  {
    ParentsFirst(table);
  }

  /** Whoever sees as much of the table above, and has the rows, sees as much of the table. */
  lemma MoreAbove(db: Database, settings: Settings, db': Database, settings': Settings, table: Table)
    requires forall n :: settings(n) == settings'(n)
    requires Above(table).Some? ==>
      Visible(db, settings, Above(table).value) <= Visible(db', settings', Above(table).value)
    requires Visible(db, settings, table) <= db'(table)
    ensures Visible(db, settings, table) <= Visible(db', settings', table)
  {
    ParentsFirst(table);
  }

  lemma {:induction false} SeenInBoth(db: Database, db': Database, settings: Settings, table: Table)
    requires AgreeOn(db, db', settings(OrgId))
    requires table.PlatformOrganization? ==> SlugIsOwn(db, settings) && SlugIsOwn(db', settings)
    ensures Visible(db, settings, table) <= Visible(db', settings, table)
    decreases Depth(table)
  {
    AboveIsShallower(table);
    if Above(table).Some? { SeenInBoth(db, db', settings, Above(table).value); }
    VisibleIsOwned(db, settings, table);
    assert Owned(db, settings(OrgId), table) == Owned(db', settings(OrgId), table);
    MoreAbove(db, settings, db', settings, table);
  }

  /** What other organisations own makes no difference to what a principal sees, in any table. */
  lemma Noninterference(db: Database, db': Database, settings: Settings, table: Table)
    requires AgreeOn(db, db', settings(OrgId))
    requires table.PlatformOrganization? ==> SlugIsOwn(db, settings) && SlugIsOwn(db', settings)
    ensures Visible(db, settings, table) == Visible(db', settings, table)
  {
    SeenInBoth(db, db', settings, table);
    SeenInBoth(db', db, settings, table);
  }

  // ------------------------------------------------------- one owner per row

  /** Ids are primary keys. */
  ghost predicate KeysUnique(db: Database)
  {
    forall table, a, b :: a in db(table) && b in db(table) && a.id == b.id ==> a == b
  }

  /** A person's memberships are all in one organisation, as the composite foreign key has it. */
  ghost predicate OneOrganizationEach(db: Database)
  {
    forall a <- db(PlatformOrgMembership), b <- db(PlatformOrgMembership) ::
      Cell(a, Column.UserId).Some? && Cell(a, Column.UserId) == Cell(b, Column.UserId)
      ==> Cell(a, OrganizationId) == Cell(b, OrganizationId)
  }

  /** No row belongs to two organisations. */
  lemma {:induction false} OneOwner(db: Database, a: string, b: string, table: Table)
    requires KeysUnique(db) && OneOrganizationEach(db) && a != b
    ensures Owned(db, a, table) !! Owned(db, b, table)
    decreases Depth(table)
  {
    ParentsFirst(table);
    match PolicyOf(table)
    case OfSubmissions => OneOwner(db, a, b, Project); NoSharedParent(db, a, b, Column.ProjectId, Project);
    case Chained(column, parent) => OneOwner(db, a, b, parent); NoSharedParent(db, a, b, column, parent);
    case _ =>
  }

  lemma NoSharedParent(db: Database, a: string, b: string, column: Column, parent: Table)
    requires KeysUnique(db) && Owned(db, a, parent) !! Owned(db, b, parent)
    ensures forall r :: !(Refers(r, column, Owned(db, a, parent)) && Refers(r, column, Owned(db, b, parent)))
  {
    forall r, p, q | p in Owned(db, a, parent) && q in Owned(db, b, parent)
      ensures !(Cell(r, column) == Some(p.id) && Cell(r, column) == Some(q.id))
    {
      assert p in db(parent) && q in db(parent) && p != q;
    }
  }

  /** Principals of different organisations never see a common row. */
  lemma Disjoint(db: Database, p: Settings, q: Settings, table: Table)
    requires KeysUnique(db) && OneOrganizationEach(db) && p(OrgId) != q(OrgId)
    requires table.PlatformOrganization? ==> SlugIsOwn(db, p) && SlugIsOwn(db, q)
    ensures Visible(db, p, table) !! Visible(db, q, table)
  {
    VisibleIsOwned(db, p, table);
    VisibleIsOwned(db, q, table);
    OneOwner(db, p(OrgId), q(OrgId), table);
  }

  // -------------------------------------------------------------------- writes

  /**
   * A write the policies let through: it changes one table, takes away only rows its
   * principal sees, and leaves only rows its principal sees afterwards.
   */
  ghost predicate Permitted(db: Database, db': Database, settings: Settings, written: Table)
  {
    && (forall table | table != written :: db'(table) == db(table))
    && db(written) - db'(written) <= Visible(db, settings, written)
    && db'(written) - db(written) <= Visible(db', settings, written)
  }

  /** A change to the tables, one or many, and the organisation it is made for. */
  datatype Write = Write(org: string, after: Database)

  /** Only rows of the organisation itself come or go, in whatever tables. */
  ghost predicate WithinOrganization(db: Database, w: Write)
  {
    forall t ::
      && db(t) - w.after(t) <= Owned(db, w.org, t)
      && w.after(t) - db(t) <= Owned(w.after, w.org, t)
  }

  /** What a principal may write is within its organisation. */
  lemma PermittedIsWithin(db: Database, db': Database, settings: Settings, table: Table)
    requires Permitted(db, db', settings, table)
    requires table.PlatformOrganization? ==> SlugIsOwn(db, settings) && SlugIsOwn(db', settings)
    ensures WithinOrganization(db, Write(settings(OrgId), db'))
  {
    VisibleIsOwned(db, settings, table);
    VisibleIsOwned(db', settings, table);
    hide Owned, Visible;
  }

  /** The foreign key a table's policy follows. */
  function ChainColumn(table: Table): Option<Column>
  {
    match PolicyOf(table)
    case OfSubmissions => Some(Column.ProjectId)
    case Chained(column, _) => Some(column)
    case _ => None
  }

  lemma ChainsGoUp(table: Table)
    ensures ChainColumn(table).Some? ==> Above(table).Some? && Depth(Above(table).value) < Depth(table)
  {
    ParentsFirst(table);
  }

  /** Following those keys from a row leads to the root: it falls when the root is deleted. */
  ghost predicate Falls(db: Database, table: Table, row: Row, rootTable: Table, root: Row)
    decreases Depth(table)
  {
    || (table == rootTable && row == root)
    || (ChainColumn(table).Some?
        && (ChainsGoUp(table);
            exists p <- db(Above(table).value) ::
              && Cell(row, ChainColumn(table).value) == Some(p.id)
              && Falls(db, Above(table).value, p, rootTable, root)))
  }

  /** Deleting a row takes everything that leads to it along, whether its author sees it or not. */
  ghost function Cascaded(db: Database, rootTable: Table, root: Row): Database
  {
    (t: Table) => set r <- db(t) | !Falls(db, t, r, rootTable, root)
  }

  /** Whatever falls with an owned row is owned. */
  lemma {:induction false} FallenAreOwned(
      db: Database, org: string, table: Table, row: Row, rootTable: Table, root: Row)
    requires row in db(table) && root in Owned(db, org, rootTable)
    requires Falls(db, table, row, rootTable, root)
    ensures row in Owned(db, org, table)
    decreases Depth(table)
  {
    hide PolicyOf, Owned, Falls, Above, ChainColumn, Depth;
    if !(table == rootTable && row == root) {
      ChainsGoUp(table);
      var p := FallsThrough(db, table, row, rootTable, root);
      FallenAreOwned(db, org, Above(table).value, p, rootTable, root);
      OwnedBelow(db, org, table, row, p);
    }
  }

  lemma FallsThrough(db: Database, table: Table, row: Row, rootTable: Table, root: Row) returns (p: Row)
    requires Falls(db, table, row, rootTable, root) && !(table == rootTable && row == root)
    ensures ChainColumn(table).Some? && p in db(Above(table).value)
    ensures Cell(row, ChainColumn(table).value) == Some(p.id)
    ensures Falls(db, Above(table).value, p, rootTable, root)
  {
    ChainsGoUp(table);
    hide PolicyOf, Above, ChainColumn, Depth;
    p :| p in db(Above(table).value) && Cell(row, ChainColumn(table).value) == Some(p.id)
         && Falls(db, Above(table).value, p, rootTable, root);
  }

  lemma OwnedBelow(db: Database, org: string, table: Table, row: Row, p: Row)
    requires ChainColumn(table).Some? && row in db(table) && p in Owned(db, org, Above(table).value)
    requires Cell(row, ChainColumn(table).value) == Some(p.id)
    ensures row in Owned(db, org, table)
  {
    ParentsFirst(table);
  }

  /**
   * Deleting one row an organisation owns, in any table, with all that falls with it is a
   * change within that organisation; it leaves keys unique and no chain cut off from above.
   */
  lemma CascadeIsWithin(db: Database, org: string, rootTable: Table, root: Row)
    requires root in Owned(db, org, rootTable)
    ensures WithinOrganization(db, Write(org, Cascaded(db, rootTable, root)))
    ensures root !in Cascaded(db, rootTable, root)(rootTable)
    ensures Keyed(db) ==> Keyed(Cascaded(db, rootTable, root))
    ensures NothingCutOff(db, Cascaded(db, rootTable, root))
  {
    var after := Cascaded(db, rootTable, root);
    forall t, row | row in db(t) - after(t)
      ensures row in Owned(db, org, t)
    {
      FallenAreOwned(db, org, t, row, rootTable, root);
    }
    FewerKeys(db, after);
    CascadeCutsNothingOff(db, rootTable, root);
  }

  /** Rows that stay keep the row their chain goes through. */
  ghost predicate NothingCutOff(db: Database, after: Database)
  {
    forall t, row, p | ChainColumn(t).Some? && row in after(t) && p in db(Above(t).value)
                       && Cell(row, ChainColumn(t).value) == Some(p.id) :: p in after(Above(t).value)
  }

  lemma CascadeCutsNothingOff(db: Database, rootTable: Table, root: Row)
    ensures NothingCutOff(db, Cascaded(db, rootTable, root))
  {
    forall t, row, p | ChainColumn(t).Some? && row in Cascaded(db, rootTable, root)(t) && p in db(Above(t).value)
                       && Cell(row, ChainColumn(t).value) == Some(p.id)
      ensures !Falls(db, Above(t).value, p, rootTable, root)
    {
      FallsBelow(db, t, row, p, rootTable, root);
    }
    hide Falls;
  }

  lemma FallsBelow(db: Database, table: Table, row: Row, p: Row, rootTable: Table, root: Row)
    requires ChainColumn(table).Some? && p in db(Above(table).value)
    requires Cell(row, ChainColumn(table).value) == Some(p.id)
    ensures Falls(db, Above(table).value, p, rootTable, root) ==> Falls(db, table, row, rootTable, root)
  {
    AboveIsShallower(table);
  }

  lemma FewerKeys(db: Database, after: Database)
    requires forall t :: after(t) <= db(t)
    ensures Keyed(db) ==> Keyed(after)
  {}

  /** So whatever one organisation deletes, cascades and all, another's principals see what they saw. */
  lemma CascadesStayInside(
      db: Database, org: string, rootTable: Table, root: Row, reader: Settings, table: Table)
    requires Keyed(db) && root in Owned(db, org, rootTable) && org != reader(OrgId)
    requires table.PlatformOrganization? ==> SlugIsOwn(db, reader)
    ensures Visible(db, reader, table) == Visible(Cascaded(db, rootTable, root), reader, table)
  {
    var w := Write(org, Cascaded(db, rootTable, root));
    CascadeIsWithin(db, org, rootTable, root);
    assert AfterRun(w.after, []) == w.after;
    assert [w][1..] == [];
    RunsStayInside(db, [w], reader, table);
  }

  ghost predicate Keyed(db: Database) { KeysUnique(db) && OneOrganizationEach(db) }

  /** What a write leaves of the rows another organisation owns: all of them. */
  lemma {:induction false} WriteKeepsOthers(db: Database, w: Write, org: string, table: Table)
    requires Keyed(db) && Keyed(w.after) && WithinOrganization(db, w) && org != w.org
    ensures Owned(db, org, table) == Owned(w.after, org, table)
    decreases Depth(table)
  {
    AboveIsShallower(table);
    if Above(table).Some? { WriteKeepsOthers(db, w, org, Above(table).value); }
    WrittenTable(db, w, org, table);
  }

  predicate SameAbove(db: Database, db': Database, org: string, table: Table)
  {
    Above(table).Some? ==> Owned(db, org, Above(table).value) == Owned(db', org, Above(table).value)
  }

  lemma SameChains(db: Database, db': Database, org: string, table: Table)
    requires SameAbove(db, db', org, table)
    ensures forall row :: ChainEnds(db, org, table, row) == ChainEnds(db', org, table, row)
  {}

  lemma WrittenTable(db: Database, w: Write, org: string, table: Table)
    requires Keyed(db) && Keyed(w.after) && WithinOrganization(db, w) && org != w.org
    requires SameAbove(db, w.after, org, table)
    ensures Owned(db, org, table) == Owned(w.after, org, table)
  {
    hide PolicyOf;
    SameChains(db, w.after, org, table);
    OneOwner(db, w.org, org, table);
    OneOwner(w.after, w.org, org, table);
    forall row | row in Owned(db, org, table) ensures row in w.after(table) {
      assert row !in db(table) - w.after(table);
    }
    forall row | row in Owned(w.after, org, table) ensures row in db(table) {
      assert row !in w.after(table) - db(table);
    }
  }

  /** Nothing one organisation's principal can write changes what another's sees. */
  lemma WritesStayInside(
      db: Database, db': Database, writer: Settings, written: Table, reader: Settings, table: Table)
    requires KeysUnique(db) && KeysUnique(db') && OneOrganizationEach(db) && OneOrganizationEach(db')
    requires Permitted(db, db', writer, written) && reader(OrgId) != writer(OrgId)
    requires written.PlatformOrganization? ==> SlugIsOwn(db, writer) && SlugIsOwn(db', writer)
    requires table.PlatformOrganization? ==> SlugIsOwn(db, reader) && SlugIsOwn(db', reader)
    ensures Visible(db, reader, table) == Visible(db', reader, table)
  {
    PermittedIsWithin(db, db', writer, written);
    forall t ensures Owned(db, reader(OrgId), t) == Owned(db', reader(OrgId), t) {
      WriteKeepsOthers(db, Write(writer(OrgId), db'), reader(OrgId), t);
    }
    Noninterference(db, db', reader, table);
  }

  /** A run of writes, each within its organisation, every database of it keeping the schema's keys. */
  ghost predicate RunWithin(db: Database, writes: seq<Write>)
    decreases |writes|
  {
    && Keyed(db)
    && (writes != [] ==> WithinOrganization(db, writes[0]) && RunWithin(writes[0].after, writes[1..]))
  }

  function AfterRun(db: Database, writes: seq<Write>): Database
    decreases |writes|
  {
    if writes == [] then db else AfterRun(writes[0].after, writes[1..])
  }

  /** However many organisations write, and however often, what another organisation owns stays as it is. */
  lemma {:induction false} RunKeepsOthers(db: Database, writes: seq<Write>, org: string, table: Table)
    requires RunWithin(db, writes) && forall w <- writes :: w.org != org
    ensures Owned(db, org, table) == Owned(AfterRun(db, writes), org, table)
    decreases |writes|
  {
    if writes != [] {
      WriteKeepsOthers(db, writes[0], org, table);
      RunKeepsOthers(writes[0].after, writes[1..], org, table);
    }
  }

  /** So it sees the same rows in every table, whatever the others have written. */
  lemma RunsStayInside(db: Database, writes: seq<Write>, reader: Settings, table: Table)
    requires RunWithin(db, writes) && forall w <- writes :: w.org != reader(OrgId)
    requires table.PlatformOrganization? ==> SlugIsOwn(db, reader) && SlugIsOwn(AfterRun(db, writes), reader)
    ensures Visible(db, reader, table) == Visible(AfterRun(db, writes), reader, table)
  {
    forall t ensures Owned(db, reader(OrgId), t) == Owned(AfterRun(db, writes), reader(OrgId), t) {
      RunKeepsOthers(db, writes, reader(OrgId), t);
    }
    Noninterference(db, AfterRun(db, writes), reader, table);
  }

  // ----------------------------------------------------- rows under a submission

  /** Following foreign keys from a row of one table leads to a row of another. */
  ghost predicate LeadsTo(db: Database, table: Table, row: Row, above: Table, target: Row)
    decreases Depth(table)
  {
    || (table == above && row == target)
    || (PolicyOf(table).Chained?
        && (ParentsFirst(table);
            exists p <- db(PolicyOf(table).parent) ::
              && Cell(row, PolicyOf(table).column) == Some(p.id)
              && LeadsTo(db, PolicyOf(table).parent, p, above, target)))
  }

  /** A chained row is visible exactly when the row its chain leads to is; so for every row under a submission. */
  lemma {:induction false} VisibleWithItsRoot(
      db: Database, settings: Settings, table: Table, row: Row, above: Table, target: Row)
    requires KeysUnique(db) && row in db(table)
    requires LeadsTo(db, table, row, above, target)
    ensures row in Visible(db, settings, table) <==> target in Visible(db, settings, above)
    decreases Depth(table)
  {
    if !(table == above && row == target) {
      ParentsFirst(table);
      var parent := PolicyOf(table).parent;
      var p :| p in db(parent) && Cell(row, PolicyOf(table).column) == Some(p.id)
               && LeadsTo(db, parent, p, above, target);
      VisibleWithItsRoot(db, settings, parent, p, above, target);
      VisibleWithParent(db, settings, table, row, p);
    }
  }

  lemma VisibleWithParent(db: Database, settings: Settings, table: Table, row: Row, p: Row)
    requires KeysUnique(db) && row in db(table) && PolicyOf(table).Chained?
    requires p in db(PolicyOf(table).parent) && Cell(row, PolicyOf(table).column) == Some(p.id)
    ensures row in Visible(db, settings, table) <==> p in Visible(db, settings, PolicyOf(table).parent)
  {
    var parents := Visible(db, settings, PolicyOf(table).parent);
    assert Refers(row, PolicyOf(table).column, parents) <==> p in parents;
  }

  // -------------------------------------------- exactly what a principal sees

  /** The row has this value in this column. */
  predicate Has(row: Row, column: Column, value: string) { column in row.columns && row.columns[column] == value }

  /**
   * What a principal sees of the tables that chains lead to, on cells and the principal's
   * own fields: rows of its organisation; its organisation, by id or slug; the sessions of
   * people active in it; and submissions of its projects, made by somebody it may see or,
   * with a scope as wide as the organisation, by anybody.
   */
  ghost predicate SeesRoot(db: Database, p: Principal, table: Table, row: Row)
  {
    match table
    case Project => Has(row, OrganizationId, p.orgId)
    case PlatformUser => Has(row, OrganizationId, p.orgId)
    case Role => Has(row, OrganizationId, p.orgId)
    case AuditEvent => Has(row, OrganizationId, p.orgId)
    case PlatformOrgMembership => Has(row, OrganizationId, p.orgId)
    case PlatformOrganization => row.id == p.orgId || Has(row, Slug, p.orgSlug)
    case PlatformSession =>
      Column.UserId in row.columns &&
      exists m <- db(PlatformOrgMembership) ::
        Has(m, OrganizationId, p.orgId) && Has(m, Column.UserId, row.columns[Column.UserId]) && Has(m, Status, "active")
    case Submission =>
      && (exists project <- db(Project) ::
            Has(project, OrganizationId, p.orgId) && Has(row, Column.ProjectId, project.id))
      && (p.scopeKind == "organization" || exists id <- p.visibleUserIds :: Has(row, CreatedBy, id))
    case _ => false
  }

  /** A row is in its table, and its chain leads to a row the principal sees. */
  ghost predicate Sees(db: Database, p: Principal, table: Table, row: Row)
  {
    row in db(table) && exists top, root :: root in db(top) && LeadsTo(db, table, row, top, root) && SeesRoot(db, p, top, root)
  }

  lemma RootSeenExactly(db: Database, s: Settings, p: Principal, table: Table, row: Row)
    requires Describe(s, p) && PlainIds(p.visibleUserIds) && row in db(table) && !PolicyOf(table).Chained?
    ensures row in Visible(db, s, table) <==> SeesRoot(db, p, table, row)
  {
    match PolicyOf(table)
    case OfSubmissions => SubmissionSeenExactly(db, s, p, row);
    case OfMembers => SessionSeenExactly(db, s, p, row);
    case _ =>
  }

  lemma SessionSeenExactly(db: Database, s: Settings, p: Principal, row: Row)
    requires Describe(s, p) && row in db(PlatformSession)
    ensures row in Visible(db, s, PlatformSession) <==> SeesRoot(db, p, PlatformSession, row)
  {
    assert forall m :: m in Visible(db, s, PlatformOrgMembership) <==> m in db(PlatformOrgMembership) && Has(m, OrganizationId, p.orgId);
  }

  lemma SubmissionSeenExactly(db: Database, s: Settings, p: Principal, row: Row)
    requires Describe(s, p) && PlainIds(p.visibleUserIds) && row in db(Submission)
    ensures row in Visible(db, s, Submission) <==> SeesRoot(db, p, Submission, row)
  {
    assert forall q :: q in Visible(db, s, Project) <==> q in db(Project) && Has(q, OrganizationId, p.orgId);
  }

  /**
   * Exactly what a transaction sees whose settings say what a principal is: a row of any
   * table is visible if and only if its chain leads to a row of the principal's own.
   */
  lemma {:induction false} SeenExactly(db: Database, s: Settings, p: Principal, table: Table, row: Row)
    requires Describe(s, p) && PlainIds(p.visibleUserIds)
    ensures row in Visible(db, s, table) <==> Sees(db, p, table, row)
    decreases Depth(table)
  {
    hide Visible, Sees, SeesRoot, LeadsTo;
    NotInTable(db, s, p, table, row);
    if row in db(table) {
      if PolicyOf(table).Chained? {
        ParentsFirst(table);
        forall q
          ensures q in Visible(db, s, PolicyOf(table).parent) <==> Sees(db, p, PolicyOf(table).parent, q)
        {
          SeenExactly(db, s, p, PolicyOf(table).parent, q);
        }
        ChainSeenExactly(db, s, p, table, row);
      } else {
        RootSeenExactly(db, s, p, table, row);
        OwnRootOnly(db, p, table, row);
      }
    }
  }

  lemma NotInTable(db: Database, s: Settings, p: Principal, table: Table, row: Row)
    ensures row !in db(table) ==> row !in Visible(db, s, table) && !Sees(db, p, table, row)
  {}

  lemma OwnRootOnly(db: Database, p: Principal, table: Table, row: Row)
    requires row in db(table) && !PolicyOf(table).Chained?
    ensures Sees(db, p, table, row) <==> SeesRoot(db, p, table, row)
  {
    hide SeesRoot;
    assert forall top, root :: LeadsTo(db, table, row, top, root) <==> top == table && root == row;
  }

  lemma ChainedIsNoRoot(db: Database, p: Principal, table: Table, row: Row)
    requires PolicyOf(table).Chained?
    ensures !SeesRoot(db, p, table, row)
  {}

  lemma LeadsThrough(db: Database, table: Table, row: Row, top: Table, root: Row) returns (q: Row)
    requires PolicyOf(table).Chained? && LeadsTo(db, table, row, top, root) && !(table == top && row == root)
    ensures q in db(PolicyOf(table).parent) && Cell(row, PolicyOf(table).column) == Some(q.id)
    ensures LeadsTo(db, PolicyOf(table).parent, q, top, root)
  {
    ParentsFirst(table);
    hide PolicyOf, Depth;
    q :| q in db(PolicyOf(table).parent) && Cell(row, PolicyOf(table).column) == Some(q.id)
         && LeadsTo(db, PolicyOf(table).parent, q, top, root);
  }

  lemma LeadsOn(db: Database, table: Table, row: Row, q: Row, top: Table, root: Row)
    requires PolicyOf(table).Chained? && q in db(PolicyOf(table).parent)
    requires Cell(row, PolicyOf(table).column) == Some(q.id) && LeadsTo(db, PolicyOf(table).parent, q, top, root)
    ensures LeadsTo(db, table, row, top, root)
  {
    ParentsFirst(table);
    hide PolicyOf, Depth;
  }

  lemma ChainedPasses(db: Database, s: Settings, table: Table, row: Row)
    requires row in db(table) && PolicyOf(table).Chained?
    ensures row in Visible(db, s, table) <==>
      exists q :: q in Visible(db, s, PolicyOf(table).parent) && Cell(row, PolicyOf(table).column) == Some(q.id)
  {
    ParentsFirst(table);
    hide PolicyOf, Depth;
    assert row in Visible(db, s, table) <==> Passes(db, s, table, row);
    hide Visible;
  }

  lemma SeenFromAbove(db: Database, p: Principal, table: Table, row: Row, q: Row)
    requires row in db(table) && PolicyOf(table).Chained? && Sees(db, p, PolicyOf(table).parent, q)
    requires Cell(row, PolicyOf(table).column) == Some(q.id)
    ensures Sees(db, p, table, row)
  {
    hide PolicyOf, LeadsTo, SeesRoot;
    var parent := PolicyOf(table).parent;
    var top, root :| root in db(top) && LeadsTo(db, parent, q, top, root) && SeesRoot(db, p, top, root);
    LeadsOn(db, table, row, q, top, root);
  }

  lemma SeenThroughParent(db: Database, p: Principal, table: Table, row: Row) returns (q: Row)
    requires PolicyOf(table).Chained? && Sees(db, p, table, row)
    ensures Sees(db, p, PolicyOf(table).parent, q) && Cell(row, PolicyOf(table).column) == Some(q.id)
  {
    ChainedIsNoRoot(db, p, table, row);
    hide PolicyOf, LeadsTo, SeesRoot;
    var top, root :| root in db(top) && LeadsTo(db, table, row, top, root) && SeesRoot(db, p, top, root);
    q := LeadsThrough(db, table, row, top, root);
  }

  /** One step up a chain. */
  lemma ChainSeenExactly(db: Database, s: Settings, p: Principal, table: Table, row: Row)
    requires row in db(table) && PolicyOf(table).Chained?
    requires forall q :: q in Visible(db, s, PolicyOf(table).parent) <==> Sees(db, p, PolicyOf(table).parent, q)
    ensures row in Visible(db, s, table) <==> Sees(db, p, table, row)
  {
    ChainedPasses(db, s, table, row);
    hide Visible, PolicyOf, Sees;
    if row in Visible(db, s, table) {
      var q :| q in Visible(db, s, PolicyOf(table).parent) && Cell(row, PolicyOf(table).column) == Some(q.id);
      SeenFromAbove(db, p, table, row, q);
    }
    if Sees(db, p, table, row) {
      var q := SeenThroughParent(db, p, table, row);
    }
  }

  /** Submissions, and what hangs on them. */
  predicate UnderSubmission(table: Table)
    decreases Depth(table)
  {
    AboveIsShallower(table);
    table == Submission || (Above(table).Some? && UnderSubmission(Above(table).value))
  }

  /**
   * Nothing of its own organisation is kept from a principal, but submissions and what hangs
   * on them where its scope is narrower than the organisation.
   */
  lemma {:induction false} OwnedAreSeen(db: Database, p: Principal, table: Table)
    requires UnderSubmission(table) ==> p.scopeKind == "organization"
    ensures Owned(db, p.orgId, table) <= Visible(db, AsSettings(p), table)
    decreases Depth(table)
  {
    AboveIsShallower(table);
    hide PolicyOf, Visible, Owned;
    if Above(table).Some? { OwnedAreSeen(db, p, Above(table).value); }
    SeenAsAbove(db, p, table);
  }

  lemma SeenAsAbove(db: Database, p: Principal, table: Table)
    requires table.Submission? ==> p.scopeKind == "organization"
    requires Above(table).Some? ==>
      Owned(db, p.orgId, Above(table).value) <= Visible(db, AsSettings(p), Above(table).value)
    ensures Owned(db, p.orgId, table) <= Visible(db, AsSettings(p), table)
  {
    ParentsFirst(table);
    forall r | r in db(table) && ChainEnds(db, p.orgId, table, r)
      ensures Passes(db, AsSettings(p), table, r)
    {}
  }

  /** So within its scope a principal sees exactly what its organisation owns. */
  lemma SeesItsOrganization(db: Database, p: Principal, table: Table)
    requires UnderSubmission(table) ==> p.scopeKind == "organization"
    requires table.PlatformOrganization? ==> SlugIsOwn(db, AsSettings(p))
    ensures Visible(db, AsSettings(p), table) == Owned(db, p.orgId, table)
  {
    OwnedAreSeen(db, p, table);
    VisibleIsOwned(db, AsSettings(p), table);
  }

  /** No row of a root table names the empty organisation, and no organisation has an empty id or slug. */
  ghost predicate NothingNameless(db: Database)
  {
    && (forall t, r | PolicyOf(t).OfOrganization? && r in db(t) :: Cell(r, OrganizationId) != Some(""))
    && (forall o <- db(PlatformOrganization) :: o.id != "" && Cell(o, Slug) != Some(""))
  }

  lemma NamelessRoots(db: Database, settings: Settings, table: Table)
    requires NothingNameless(db) && settings(OrgId) == "" && settings(OrgSlug) == ""
    requires Above(table).None?
    ensures Visible(db, settings, table) == {}
  {
    forall r | r in db(table) ensures !Passes(db, settings, table, r) {
      assert PolicyOf(table).OfOrganization? ==> Cell(r, OrganizationId) != Some("");
    }
  }

  /** Under a table that shows nothing, nothing is shown. */
  lemma NothingBelow(db: Database, settings: Settings, table: Table)
    requires Above(table).Some? && Visible(db, settings, Above(table).value) == {}
    ensures Visible(db, settings, table) == {}
  {
    ParentsFirst(table);
  }

  lemma {:induction false} NamelessSeesNothing(db: Database, settings: Settings, table: Table)
    requires NothingNameless(db) && settings(OrgId) == "" && settings(OrgSlug) == ""
    ensures Visible(db, settings, table) == {}
    decreases Depth(table)
  {
    hide Passes;
    hide PolicyOf;
    AboveIsShallower(table);
    if Above(table).Some? {
      NamelessSeesNothing(db, settings, Above(table).value);
      NothingBelow(db, settings, table);
    } else {
      NamelessRoots(db, settings, table);
    }
  }

  /** With nobody declared, no table shows anything. */
  lemma NobodySeesNothing(db: Database, table: Table)
    requires NothingNameless(db)
    ensures Visible(db, AsSettings(NOBODY), table) == {}
  {
    NamelessSeesNothing(db, AsSettings(NOBODY), table);
  }
}
