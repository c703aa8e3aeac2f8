/** Who a transaction acts for, and the settings the database policies read it from. */
module Principals {

  datatype Principal = Principal(
    orgId: string,
    orgSlug: string,
    userId: string,
    scopeKind: string,
    visibleUserIds: seq<string>,
    permissions: seq<string>,
    projectIds: seq<string>,
    teamIds: seq<string>)

  const NOBODY := Principal("", "", "", "", [], [], [], [])

  /** The eight settings, in the order the policies name them. */
  datatype Name = OrgId | OrgSlug | UserId | ScopeKind | VisibleUserIds | Permissions | ProjectIds | TeamIds

  /** A value for every setting; an unset setting reads as the empty string. */
  type Settings = Name -> string

  function Join(parts: seq<string>): string
  {
    if parts == [] then ""
    else if |parts| == 1 then parts[0]
    else parts[0] + "," + Join(parts[1..])
  }

  function AsSettings(p: Principal): Settings
  {
    (n: Name) =>
      match n
      case OrgId => p.orgId
      case OrgSlug => p.orgSlug
      case UserId => p.userId
      case ScopeKind => p.scopeKind
      case VisibleUserIds => Join(p.visibleUserIds)
      case Permissions => Join(p.permissions)
      case ProjectIds => Join(p.projectIds)
      case TeamIds => Join(p.teamIds)
  }

  /** The text up to the first comma, or all of it. */
  function FirstPart(text: string): string
    ensures FirstPart(text) <= text
  {
    if text == [] || text[0] == ',' then "" else [text[0]] + FirstPart(text[1..])
  }

  /** The database's `string_to_array` on commas, of a text that is not empty. */
  function Parts(text: string): seq<string>
    decreases |text|
  {
    var first := FirstPart(text);
    if |first| == |text| then [text] else [first] + Parts(text[|first| + 1..])
  }

  function StringToArray(text: string): seq<string>
  {
    if text == "" then [] else Parts(text)
  }

  predicate PlainIds(ids: seq<string>) { forall id <- ids :: id != "" && ',' !in id }

  lemma {:induction false} FirstPartExact(id: string, rest: string)
    requires ',' !in id
    ensures FirstPart(id) == id && FirstPart(id + "," + rest) == id
  {
    if id != "" {
      assert (id + "," + rest)[1..] == id[1..] + "," + rest;
      FirstPartExact(id[1..], rest);
    }
  }

  lemma {:induction false} PartsOfJoin(ids: seq<string>)
    requires ids != [] && PlainIds(ids)
    ensures Parts(Join(ids)) == ids && Join(ids) != ""
  {
    assert ids[0] in ids;
    if |ids| == 1 {
      PartsOfOne(ids[0]);
      assert ids == [ids[0]];
    } else {
      assert forall id <- ids[1..] :: id in ids;
      PartsOfJoin(ids[1..]);
      PartsOfMore(ids[0], Join(ids[1..]));
      assert ids == [ids[0]] + ids[1..];
    }
  }

  lemma PartsOfOne(id: string)
    requires ',' !in id
    ensures Parts(id) == [id]
  {
    FirstPartExact(id, "");
  }

  lemma PartsOfMore(id: string, rest: string)
    requires ',' !in id
    ensures Parts(id + "," + rest) == [id] + Parts(rest)
  {
    FirstPartExact(id, rest);
    assert (id + "," + rest)[|id| + 1..] == rest;
    hide FirstPart;
  }

  /** The policies read back exactly the ids the principal carries. */
  lemma IdsReadBack(ids: seq<string>)
    requires PlainIds(ids)
    ensures StringToArray(Join(ids)) == ids
  {
    if ids != [] { PartsOfJoin(ids); }
  }

  /** These settings say just this of the principal, field by field. */
  predicate Describe(s: Settings, p: Principal)
  {
    && s(OrgId) == p.orgId && s(OrgSlug) == p.orgSlug && s(UserId) == p.userId && s(ScopeKind) == p.scopeKind
    && (PlainIds(p.visibleUserIds) ==> StringToArray(s(VisibleUserIds)) == p.visibleUserIds)
    && (PlainIds(p.permissions) ==> StringToArray(s(Permissions)) == p.permissions)
    && (PlainIds(p.projectIds) ==> StringToArray(s(ProjectIds)) == p.projectIds)
    && (PlainIds(p.teamIds) ==> StringToArray(s(TeamIds)) == p.teamIds)
  }

  /** Each field of a principal is read back from its own setting. */
  lemma SettingsReadBack(p: Principal)
    ensures Describe(AsSettings(p), p)
  {
    if PlainIds(p.visibleUserIds) { IdsReadBack(p.visibleUserIds); }
    if PlainIds(p.permissions) { IdsReadBack(p.permissions); }
    if PlainIds(p.projectIds) { IdsReadBack(p.projectIds); }
    if PlainIds(p.teamIds) { IdsReadBack(p.teamIds); }
  }
}
