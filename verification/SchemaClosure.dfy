/**
 * Which named schemas the console needs: everything its routes reach by reference, so that
 * every name a generated type mentions is generated too.
 */
module SchemaClosure {
  import opened Options

  datatype Json =
    | Obj(fields: seq<Field>)
    | Arr(items: seq<Json>)
    | Str(text: string)
    | Bool(value: bool)
    | Null
    | Scalar(token: nat)

  datatype Field = Field(key: string, value: Json)

  /** The value of a key. */
  function Get(fields: seq<Field>, key: string): (r: Option<Json>)
    ensures r.Some? ==> exists f <- fields :: f.key == key && f.value == r.value
    ensures r.None? ==> forall f <- fields :: f.key != key
  {
    if fields == [] then None
    else if fields[0].key == key then Some(fields[0].value)
    else Get(fields[1..], key)
  }

  const PREFIX := "#/components/schemas/"

  /** The schema a `$ref` names; anything but a text with the prefix raises. */
  function RefName(node: Json): Option<string>
  {
    if node.Str? && PREFIX <= node.text then Some(node.text[|PREFIX|..]) else None
  }

  // ------------------------------------------------------------- references

  /** The names referenced anywhere under a node, or nothing when the walk raises. */
  function Refs(node: Json): Option<set<string>>
  {
    match node
    case Obj(fields) =>
      var own := Get(fields, "$ref");
      if own.Some? && RefName(own.value).None? then None
      else
        (match FieldRefs(fields)
         case None => None
         case Some(below) => Some(below + if own.None? then {} else {RefName(own.value).value}))
    case Arr(items) => ItemRefs(items)
    case _ => Some({})
  }

  function FieldRefs(fields: seq<Field>): Option<set<string>>
  {
    if fields == [] then Some({}) else
      match (Refs(fields[0].value), FieldRefs(fields[1..]))
      case (Some(a), Some(b)) => Some(a + b)
      case _ => None
  }

  function ItemRefs(items: seq<Json>): Option<set<string>>
  {
    if items == [] then Some({}) else
      match (Refs(items[0]), ItemRefs(items[1..]))
      case (Some(a), Some(b)) => Some(a + b)
      case _ => None
  }

  /** A part of a node: itself, or in the value of a key or in an item, however deep. */
  predicate Inside(node: Json, part: Json)
  {
    || part == node
    || (node.Obj? && exists f <- node.fields :: Inside(f.value, part))
    || (node.Arr? && exists item <- node.items :: Inside(item, part))
  }

  /** The part is a reference to the schema of this name. */
  predicate RefersTo(part: Json, name: string)
  {
    part.Obj? && Get(part.fields, "$ref") == Some(Str(PREFIX + name))
  }

  /** The part is a reference, but not to a named schema of the document. */
  ghost predicate RefersOutside(part: Json)
  {
    part.Obj? && Get(part.fields, "$ref").Some? && forall name :: Get(part.fields, "$ref").value != Str(PREFIX + name)
  }

  lemma NameOfRef(node: Json)
    ensures RefName(node).None? <==> forall name :: node != Str(PREFIX + name)
    ensures forall name :: RefName(node) == Some(name) <==> node == Str(PREFIX + name)
  {
    forall name | node == Str(PREFIX + name) ensures RefName(node) == Some(name) {
      assert PREFIX <= PREFIX + name && (PREFIX + name)[|PREFIX|..] == name;
    }
    if RefName(node).Some? { assert node.text == PREFIX + RefName(node).value; }
  }

  lemma {:induction false} FieldRefsEach(fields: seq<Field>)
    ensures FieldRefs(fields).None? <==> exists f <- fields :: Refs(f.value).None?
    ensures FieldRefs(fields).Some? ==>
      forall n :: n in FieldRefs(fields).value <==> exists f <- fields :: Refs(f.value).Some? && n in Refs(f.value).value
  {
    if fields != [] {
      FieldRefsEach(fields[1..]);
      assert fields[0] in fields;
      assert forall f :: f in fields <==> f == fields[0] || f in fields[1..];
    }
  }

  lemma {:induction false} ItemRefsEach(items: seq<Json>)
    ensures ItemRefs(items).None? <==> exists x <- items :: Refs(x).None?
    ensures ItemRefs(items).Some? ==>
      forall n :: n in ItemRefs(items).value <==> exists x <- items :: Refs(x).Some? && n in Refs(x).value
  {
    if items != [] {
      ItemRefsEach(items[1..]);
      assert items[0] in items;
      assert forall x :: x in items <==> x == items[0] || x in items[1..];
    }
  }

  /** Somewhere in the node there is a reference to this name. */
  ghost predicate Mentioned(node: Json, name: string) { exists part :: Inside(node, part) && RefersTo(part, name) }

  ghost predicate Astray(node: Json) { exists part :: Inside(node, part) && RefersOutside(part) }

  lemma InsideObject(node: Json)
    requires node.Obj?
    ensures Astray(node) <==> RefersOutside(node) || exists f <- node.fields :: Astray(f.value)
    ensures forall n :: Mentioned(node, n) <==> RefersTo(node, n) || exists f <- node.fields :: Mentioned(f.value, n)
  {
    hide RefersTo, RefersOutside;
  }

  lemma InsideArray(node: Json)
    requires node.Arr?
    ensures Astray(node) <==> exists item <- node.items :: Astray(item)
    ensures forall n :: Mentioned(node, n) <==> exists item <- node.items :: Mentioned(item, n)
  {
    assert !RefersOutside(node) && forall n :: !RefersTo(node, n);
    hide RefersTo, RefersOutside;
  }

  /** The names found are those of the references inside the node, anywhere; it raises for one that names nothing here. */
  lemma {:induction false} RefsExactly(node: Json)
    ensures Refs(node).None? <==> Astray(node)
    ensures Refs(node).Some? ==> forall n :: n in Refs(node).value <==> Mentioned(node, n)
    decreases node
  {
    match node
    case Obj(fields) =>
      FieldRefsEach(fields);
      InsideObject(node);
      OwnRef(node);
      forall i | 0 <= i < |fields|
        ensures Refs(fields[i].value).None? <==> Astray(fields[i].value)
        ensures Refs(fields[i].value).Some? ==> forall n :: n in Refs(fields[i].value).value <==> Mentioned(fields[i].value, n)
      {
        RefsExactly(fields[i].value);
      }
      hide Mentioned, Astray, RefersTo, RefersOutside, RefName, Inside;
    case Arr(items) =>
      ItemRefsEach(items);
      InsideArray(node);
      forall i | 0 <= i < |items|
        ensures Refs(items[i]).None? <==> Astray(items[i])
        ensures Refs(items[i]).Some? ==> forall n :: n in Refs(items[i]).value <==> Mentioned(items[i], n)
      {
        RefsExactly(items[i]);
      }
      hide Mentioned, Astray;
    case _ =>
      LeafHasNone(node);
  }

  lemma LeafHasNone(node: Json)
    requires !node.Obj? && !node.Arr?
    ensures !Astray(node) && forall n :: !Mentioned(node, n)
  {}

  lemma OwnRef(node: Json)
    requires node.Obj?
    ensures RefersOutside(node) <==> Get(node.fields, "$ref").Some? && RefName(Get(node.fields, "$ref").value).None?
    ensures forall n :: RefersTo(node, n) <==>
      Get(node.fields, "$ref").Some? && RefName(Get(node.fields, "$ref").value) == Some(n)
  {
    if Get(node.fields, "$ref").Some? { NameOfRef(Get(node.fields, "$ref").value); }
  }

  lemma {:induction false} RootsExactly(routes: seq<Route>, excluded: set<string>)
    ensures Roots(routes, excluded).None? <==> exists r <- routes :: r.path !in excluded && Astray(r.operations)
    ensures Roots(routes, excluded).Some? ==>
      forall n :: n in Roots(routes, excluded).value <==> exists r <- routes :: r.path !in excluded && Mentioned(r.operations, n)
  {
    if routes != [] {
      RootsExactly(routes[1..], excluded);
      RefsExactly(routes[0].operations);
      assert forall r :: r in routes <==> r == routes[0] || r in routes[1..];
      hide Mentioned, Astray;
    }
  }

  /** `schema_refs`: adds to the set it is given, or raises. */
  method SchemaRefs(node: Json, into: set<string>) returns (names: Option<set<string>>)
    ensures names == match Refs(node) { case None => None case Some(r) => Some(into + r) }
    decreases node
  {
    var all := into;
    match node
    case Obj(fields) =>
      var own := Get(fields, "$ref");
      if own.Some? {
        if RefName(own.value).None? { return None; }
        all := all + {RefName(own.value).value};
      }
      ghost var start := all;
      for i := 0 to |fields|
        invariant FieldRefs(fields).None? <==> FieldRefs(fields[i..]).None?
        invariant FieldRefs(fields).Some? ==>
                    start + FieldRefs(fields).value == all + FieldRefs(fields[i..]).value
      {
        var more := SchemaRefs(fields[i].value, all);
        if more.None? { return None; }
        all := more.value;
      }
      assert all == into + Refs(node).value;
      return Some(all);
    case Arr(items) =>
      for i := 0 to |items|
        invariant ItemRefs(items).None? <==> ItemRefs(items[i..]).None?
        invariant ItemRefs(items).Some? ==>
                    into + ItemRefs(items).value == all + ItemRefs(items[i..]).value
      {
        var more := SchemaRefs(items[i], all);
        if more.None? { return None; }
        all := more.value;
      }
      assert all == into + Refs(node).value;
      return Some(all);
    case _ =>
      assert all == into + {};
      return Some(all);
  }

  // ---------------------------------------------------------------- closure

  type Schemas = map<string, Json>

  datatype Route = Route(path: string, operations: Json)

  /** The names the console's own routes reference. */
  function Roots(routes: seq<Route>, excluded: set<string>): Option<set<string>>
  {
    if routes == [] then Some({}) else
      var route := routes[0];
      match (if route.path in excluded then Some({}) else Refs(route.operations), Roots(routes[1..], excluded))
      case (Some(a), Some(b)) => Some(a + b)
      case _ => None
  }

  predicate References(schemas: Schemas, a: string, b: string)
  {
    a in schemas && Refs(schemas[a]).Some? && b in Refs(schemas[a]).value
  }

  /** A chain of references that starts from a root. */
  predicate Chain(roots: set<string>, schemas: Schemas, chain: seq<string>)
  {
    chain != [] && chain[0] in roots
    && forall i | 0 <= i < |chain| - 1 :: References(schemas, chain[i], chain[i + 1])
  }

  ghost predicate Reached(roots: set<string>, schemas: Schemas, name: string)
  {
    exists chain :: Chain(roots, schemas, chain) && chain[|chain| - 1] == name
  }

  /** A name the traversal can open without raising. */
  predicate Opens(schemas: Schemas, name: string) { name in schemas && Refs(schemas[name]).Some? }

  datatype Closure = Names(names: set<string>) | MissingRoute | Unsupported | NoSuchSchema(name: string)

  predicate AllServed(routes: seq<Route>, excluded: set<string>)
  {
    forall e <- excluded :: exists r <- routes :: r.path == e
  }

  lemma ReachedRoot(roots: set<string>, schemas: Schemas, name: string)
    requires name in roots
    ensures Reached(roots, schemas, name)
  {
    assert Chain(roots, schemas, [name]);
  }

  lemma ReachedNext(roots: set<string>, schemas: Schemas, a: string, b: string)
    requires Reached(roots, schemas, a) && References(schemas, a, b)
    ensures Reached(roots, schemas, b)
  {
    var chain :| Chain(roots, schemas, chain) && chain[|chain| - 1] == a;
    ChainOn(roots, schemas, chain, b);
    hide Chain;
  }

  lemma ChainOn(roots: set<string>, schemas: Schemas, chain: seq<string>, b: string)
    requires Chain(roots, schemas, chain) && References(schemas, chain[|chain| - 1], b)
    ensures Chain(roots, schemas, chain + [b])
  {
    hide References;
  }

  /** A set closed under reference holds everything reached. */
  lemma {:induction false} ClosedHoldsChain(roots: set<string>, schemas: Schemas, names: set<string>, chain: seq<string>)
    requires roots <= names && forall a <- names, b :: References(schemas, a, b) ==> b in names
    requires Chain(roots, schemas, chain)
    ensures chain[|chain| - 1] in names
  {
    if |chain| > 1 {
      var front := chain[..|chain| - 1];
      assert forall i | 0 <= i < |front| :: front[i] == chain[i];
      ClosedHoldsChain(roots, schemas, names, front);
      assert References(schemas, chain[|chain| - 2], chain[|chain| - 1]);
    }
  }

  /** What the worklist holds: everything found so far is reached, and nothing found has been lost. */
  ghost predicate Working(roots: set<string>, schemas: Schemas, reachable: set<string>, todo: set<string>)
  {
    && roots <= reachable + todo
    && (forall name <- reachable + todo :: Reached(roots, schemas, name))
    && (forall name <- reachable :: Opens(schemas, name) && Refs(schemas[name]).value <= reachable + todo)
  }

  lemma WorkingStart(roots: set<string>, schemas: Schemas)
    ensures Working(roots, schemas, {}, roots)
  {
    forall name | name in roots ensures Reached(roots, schemas, name) { ReachedRoot(roots, schemas, name); }
  }

  lemma WorkingStep(roots: set<string>, schemas: Schemas, reachable: set<string>, todo: set<string>, name: string)
    requires Working(roots, schemas, reachable, todo) && name in todo && Opens(schemas, name)
    ensures Working(roots, schemas, reachable + {name}, (todo - {name}) + Refs(schemas[name]).value)
  {
    forall n | n in Refs(schemas[name]).value ensures Reached(roots, schemas, n) {
      ReachedNext(roots, schemas, name, n);
    }
  }

  lemma WorkingEnd(roots: set<string>, schemas: Schemas, reachable: set<string>)
    requires Working(roots, schemas, reachable, {})
    ensures forall name :: name in reachable <==> Reached(roots, schemas, name)
  {
    forall name | Reached(roots, schemas, name) ensures name in reachable {
      var chain :| Chain(roots, schemas, chain) && chain[|chain| - 1] == name;
      ClosedHoldsChain(roots, schemas, reachable, chain);
    }
  }

  /** The worklist loop; `pop` may take any name. */
  method Close(roots: set<string>, schemas: Schemas) returns (r: Closure)
    ensures r.Names? <==> forall name :: Reached(roots, schemas, name) ==> Opens(schemas, name)
    ensures r.Names? ==> forall name :: name in r.names <==> Reached(roots, schemas, name)
    ensures !r.MissingRoute?
  {
    var todo := roots;
    var reachable: set<string> := {};
    WorkingStart(roots, schemas);
    while todo != {}
      invariant Working(roots, schemas, reachable, todo)
      decreases schemas.Keys - reachable, todo
    {
      var name :| name in todo;
      if name in reachable {
        todo := todo - {name};
        continue;
      }
      if name !in schemas { return NoSuchSchema(name); }
      var more := SchemaRefs(schemas[name], todo - {name});
      if more.None? { return Unsupported; }
      WorkingStep(roots, schemas, reachable, todo, name);
      reachable := reachable + {name};
      todo := more.value;
    }
    WorkingEnd(roots, schemas, reachable);
    return Names(reachable);
  }

  /** The names under every route the console may call. */
  method CollectRoots(routes: seq<Route>, excluded: set<string>) returns (roots: Option<set<string>>)
    ensures roots == Roots(routes, excluded)
  {
    var todo: set<string> := {};
    for i := 0 to |routes|
      invariant Roots(routes, excluded).None? <==> Roots(routes[i..], excluded).None?
      invariant Roots(routes, excluded).Some? ==>
                  Roots(routes, excluded).value == todo + Roots(routes[i..], excluded).value
    {
      if routes[i].path !in excluded {
        var more := SchemaRefs(routes[i].operations, todo);
        if more.None? { return None; }
        todo := more.value;
      }
    }
    return Some(todo);
  }

  /**
   * `console_schemas`, whatever order the worklist pops: it ends, cyclic references or not;
   * what it returns is exactly the names reached from the routes; and it raises exactly when
   * an excluded route is not served, a route's own reference is unsupported, or some
   * reached name does not open.
   */
  method ConsoleSchemas(routes: seq<Route>, schemas: Schemas, excluded: set<string>) returns (r: Closure)
    ensures r.MissingRoute? <==> !AllServed(routes, excluded)
    ensures r.Names? <==>
              && AllServed(routes, excluded)
              && Roots(routes, excluded).Some?
              && forall name :: Reached(Roots(routes, excluded).value, schemas, name) ==> Opens(schemas, name)
    ensures r.Names? ==> forall name :: name in r.names <==> Reached(Roots(routes, excluded).value, schemas, name)
  {
    if !(forall e <- excluded :: exists route <- routes :: route.path == e) { return MissingRoute; }
    var roots := CollectRoots(routes, excluded);
    if roots.None? { return Unsupported; }
    r := Close(roots.value, schemas);
  }

  // ------------------------------------------------------------ type expressions

  datatype TsType =
    | Named(name: string)
    | Union(members: seq<TsType>)
    | Literals(values: seq<Json>)
    | Unknown
    | Primitive(spelling: string)
    | ArrayOf(inner: TsType)
    | RecordOf(element: TsType)

  /** A value read under a key is smaller than the node. */
  function Under(node: Json, key: string): (r: Option<Json>)
    requires node.Obj?
    ensures r == Get(node.fields, key)
    ensures r.Some? ==> r.value < node
  {
    var r := Get(node.fields, key);
    assert r.Some? ==> exists f <- node.fields :: f.value == r.value;
    r
  }

  predicate OnlyRemarks(fields: seq<Field>)
  {
    forall f <- fields :: f.key == "title" || f.key == "description" || f.key == "default"
  }

  predicate IsText(node: Option<Json>, text: string) { node == Some(Str(text)) }

  /** Python's truth of a JSON value; the number zero is the scalar zero. */
  predicate Truthy(node: Json)
  {
    match node
    case Obj(fields) => fields != []
    case Arr(items) => items != []
    case Str(text) => text != ""
    case Bool(value) => value
    case Null => false
    case Scalar(token) => token != 0
  }

  /** Which of `ts_type`'s branches a node takes, and with what. */
  datatype Shape =
    | AName(name: string)
    | Wrapper(inner: Json)
    | AnyOf(members: Json)
    | OneOf(values: seq<Json>)
    | Anything
    | Basic(spelling: string)
    | ListOf(items: Json)
    | DictOf(element: Json)
    | PlainDict
    | Raises

  function ShapeOf(node: Json): (s: Shape)
    ensures s.Wrapper? ==> s.inner < node
    ensures s.AnyOf? ==> s.members.Arr? && s.members < node
    ensures s.ListOf? ==> s.items < node
    ensures s.DictOf? ==> s.element < node
  {
    if !node.Obj? then Raises
    else if Under(node, "$ref").Some? then
      var name := RefName(Under(node, "$ref").value);
      if name.None? then Raises else AName(name.value)
    else
      var all, any, values := Under(node, "allOf"), Under(node, "anyOf"), Under(node, "enum");
      if all.Some? && all.value.Arr? && |all.value.items| == 1 then Wrapper(all.value.items[0])
      else if any.Some? then (if any.value.Arr? then AnyOf(any.value) else Raises)
      else if values.Some? then (if values.value.Arr? then OneOf(values.value.items) else Raises)
      else if Under(node, "const").Some? then OneOf([Under(node, "const").value])
      else if OnlyRemarks(node.fields) then Anything
      else KindShape(node)
  }

  /** The branches on the node's own `type`. */
  function KindShape(node: Json): (s: Shape)
    requires node.Obj?
    ensures s.ListOf? ==> s.items < node
    ensures s.DictOf? ==> s.element < node
    ensures !s.Wrapper? && !s.AnyOf? && !s.AName?
  {
    var kind := Under(node, "type");
    if IsText(kind, "string") then Basic("string")
    else if IsText(kind, "integer") || IsText(kind, "number") then Basic("number")
    else if IsText(kind, "boolean") then Basic("boolean")
    else if IsText(kind, "null") then Basic("null")
    else if IsText(kind, "array") then
      (if Under(node, "items").Some? then ListOf(Under(node, "items").value) else Raises)
    else if IsText(kind, "object") then
      var properties, additional := Under(node, "properties"), Under(node, "additionalProperties");
      if properties.Some? && Truthy(properties.value) then Raises
      else if additional.None? || additional.value.Null? || additional.value == Bool(true) then PlainDict
      else if additional.value == Bool(false) then Raises
      else DictOf(additional.value)
    else Raises
  }

  /** `ts_type`: one schema node as a type expression, or nothing where it raises. */
  function TypeOf(node: Json): Option<TsType>
    decreases node
  {
    match ShapeOf(node)
    case AName(n) => Some(Named(n))
    case Wrapper(inner) => TypeOf(inner)
    case AnyOf(members) => (match TypesOf(members.items) case None => None case Some(ts) => Some(Union(ts)))
    case OneOf(values) => Some(Literals(values))
    case Anything => Some(Unknown)
    case Basic(spelling) => Some(Primitive(spelling))
    case ListOf(items) => (match TypeOf(items) case None => None case Some(t) => Some(ArrayOf(t)))
    case DictOf(element) => (match TypeOf(element) case None => None case Some(t) => Some(RecordOf(t)))
    case PlainDict => Some(RecordOf(Unknown))
    case Raises => None
  }

  function TypesOf(items: seq<Json>): Option<seq<TsType>>
    decreases items
  {
    if items == [] then Some([]) else
      match (TypeOf(items[0]), TypesOf(items[1..]))
      case (Some(t), Some(ts)) => Some([t] + ts)
      case _ => None
  }

  function Mentions(t: TsType): set<string>
  {
    match t
    case Named(n) => {n}
    case Union(members) => MentionsAll(members)
    case ArrayOf(inner) => Mentions(inner)
    case RecordOf(element) => Mentions(element)
    case _ => {}
  }

  function MentionsAll(ts: seq<TsType>): set<string>
  {
    if ts == [] then {} else Mentions(ts[0]) + MentionsAll(ts[1..])
  }

  lemma {:induction false} FieldRefsHold(fields: seq<Field>, f: Field)
    requires FieldRefs(fields).Some? && f in fields
    ensures Refs(f.value).Some? && Refs(f.value).value <= FieldRefs(fields).value
  {
    if fields[0] != f { FieldRefsHold(fields[1..], f); }
  }

  /** What a key's value references, the node references. */
  lemma RefsUnder(node: Json, key: string)
    requires node.Obj? && Refs(node).Some? && Under(node, key).Some?
    ensures Refs(Under(node, key).value).Some? && Refs(Under(node, key).value).value <= Refs(node).value
  {
    var f :| f in node.fields && f.value == Under(node, key).value;
    FieldRefsHold(node.fields, f);
  }

  /** What a node's parts reference, the node references. */
  lemma ShapeRefs(node: Json)
    requires Refs(node).Some?
    ensures match ShapeOf(node)
            case AName(n) => n in Refs(node).value
            case Wrapper(inner) => Refs(inner).Some? && Refs(inner).value <= Refs(node).value
            case AnyOf(members) => Refs(members).Some? && Refs(members).value <= Refs(node).value
            case ListOf(items) => Refs(items).Some? && Refs(items).value <= Refs(node).value
            case DictOf(element) => Refs(element).Some? && Refs(element).value <= Refs(node).value
            case _ => true
  {
    match ShapeOf(node)
    case AName(_) =>
    case Wrapper(inner) => WrapperRefs(node);
    case AnyOf(_) =>
      hide Refs;
      RefsUnder(node, "anyOf");
    case ListOf(_) =>
      hide Refs;
      RefsUnder(node, "items");
    case DictOf(_) =>
      hide Refs;
      RefsUnder(node, "additionalProperties");
    case _ =>
  }

  lemma WrapperRefs(node: Json)
    requires Refs(node).Some? && ShapeOf(node).Wrapper?
    ensures Refs(ShapeOf(node).inner).Some? && Refs(ShapeOf(node).inner).value <= Refs(node).value
  {
    RefsUnder(node, "allOf");
    var items := Under(node, "allOf").value.items;
    assert items[0] == ShapeOf(node).inner && items[1..] == [];
  }

  /** A type expression mentions only names its schema references. */
  lemma {:induction false} TypeMentionsRefs(node: Json)
    requires TypeOf(node).Some? && Refs(node).Some?
    ensures Mentions(TypeOf(node).value) <= Refs(node).value
    decreases node
  {
    ShapeRefs(node);
    match ShapeOf(node)
    case Wrapper(inner) => TypeMentionsRefs(inner);
    case AnyOf(members) => TypesMentionRefs(members.items);
    case ListOf(items) => TypeMentionsRefs(items);
    case DictOf(element) => TypeMentionsRefs(element);
    case _ =>
  }

  lemma {:induction false} TypesMentionRefs(items: seq<Json>)
    requires TypesOf(items).Some? && ItemRefs(items).Some?
    ensures MentionsAll(TypesOf(items).value) <= ItemRefs(items).value
    decreases items
  {
    if items != [] {
      TypeMentionsRefs(items[0]);
      TypesMentionRefs(items[1..]);
    }
  }

  // ------------------------------------------------------ what is generated

  /**
   * The schemas whose types the generated text of a named schema spells out: none for a closed
   * set of values, each property's for an interface, and the schema's own for an alias.
   */
  predicate SpellsOut(node: Json, part: Json)
  {
    && node.Obj? && Under(node, "enum").None? && Under(node, "const").None?
    && (if IsText(Under(node, "type"), "object") || Under(node, "properties").Some? then
          Under(node, "properties").Some? && Under(node, "properties").value.Obj?
          && exists f <- Under(node, "properties").value.fields :: f.value == part
        else part == node)
  }

  /** What is spelled out references only what the schema references. */
  lemma SpelledOutRefs(node: Json, part: Json)
    requires Refs(node).Some? && SpellsOut(node, part)
    ensures Refs(part).Some? && Refs(part).value <= Refs(node).value
  {
    if IsText(Under(node, "type"), "object") || Under(node, "properties").Some? {
      var properties := Under(node, "properties").value;
      RefsUnder(node, "properties");
      var f :| f in properties.fields && f.value == part;
      FieldRefsHold(properties.fields, f);
    }
  }

  /**
   * Where the closure succeeds, every name in the text of every schema it gives - in an
   * interface's fields as in an alias - is itself a schema it gives.
   */
  lemma MentionedIsEmitted(
      roots: set<string>, schemas: Schemas, names: set<string>, name: string, part: Json, mentioned: string)
    requires forall n :: Reached(roots, schemas, n) ==> Opens(schemas, n)
    requires forall n :: n in names <==> Reached(roots, schemas, n)
    requires name in names && name in schemas && SpellsOut(schemas[name], part)
    requires TypeOf(part).Some? && mentioned in Mentions(TypeOf(part).value)
    ensures mentioned in names && mentioned in schemas
  {
    SpelledOutRefs(schemas[name], part);
    TypeMentionsRefs(part);
    ReachedNext(roots, schemas, name, mentioned);
  }
}
