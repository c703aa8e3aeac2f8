/**
 * What a schema's type has to do with the schema: every value the schema admits is of the
 * type, and where the schema says no more than the type can, no other value is.
 */
module SchemaValues {
  import opened Options
  import opened SchemaClosure

  /** Whether a value is one of a named schema's. */
  type Named = (string, Json) -> bool

  /** What keywords other than those read here ask of a value: lengths, bounds, formats, being whole. */
  type Others = (Json, Json) -> bool

  /** The values of a JSON Schema `type`. */
  predicate OfKind(kind: Json, v: Json)
  {
    kind.Str? &&
    match v
    case Str(_) => kind.text == "string"
    case Scalar(_) => kind.text == "number" || kind.text == "integer"
    case Bool(_) => kind.text == "boolean"
    case Null => kind.text == "null"
    case Arr(_) => kind.text == "array"
    case Obj(_) => kind.text == "object"
  }

  predicate HasProperty(properties: Option<Json>, key: string)
  {
    properties.Some? && properties.value.Obj? && exists f <- properties.value.fields :: f.key == key
  }

  /** A value as JSON Schema judges it: a reference by its name alone, anything else by every keyword there is. */
  predicate Admits(node: Json, v: Json, named: Named, others: Others)
    decreases node
  {
    && node.Obj?
    && (if Under(node, "$ref").Some? then
          RefName(Under(node, "$ref").value).Some? && named(RefName(Under(node, "$ref").value).value, v)
        else
          && AdmitsByParts(node, v, named, others)
          && AdmitsByValues(node, v)
          && (Under(node, "type").Some? ==> OfKind(Under(node, "type").value, v))
          && others(node, v))
  }

  predicate AdmitsByValues(node: Json, v: Json)
    requires node.Obj?
  {
    var values, only := Under(node, "enum"), Under(node, "const");
    && (values.Some? && values.value.Arr? ==> v in values.value.items)
    && (only.Some? ==> v == only.value)
  }

  /** The keywords whose schemas stand inside the node. */
  predicate AdmitsByParts(node: Json, v: Json, named: Named, others: Others)
    requires node.Obj?
    decreases node, 0
  {
    var all, any, items := Under(node, "allOf"), Under(node, "anyOf"), Under(node, "items");
    var additional := Under(node, "additionalProperties");
    && (all.Some? && all.value.Arr? ==>
          forall i | 0 <= i < |all.value.items| :: Admits(all.value.items[i], v, named, others))
    && (any.Some? && any.value.Arr? ==>
          exists i | 0 <= i < |any.value.items| :: Admits(any.value.items[i], v, named, others))
    && (items.Some? && v.Arr? ==> forall i | 0 <= i < |v.items| :: Admits(items.value, v.items[i], named, others))
    && (additional.Some? && !additional.value.Null? && additional.value != Bool(true) && v.Obj? ==>
          forall i | 0 <= i < |v.fields| && !HasProperty(Under(node, "properties"), v.fields[i].key) ::
            Admits(additional.value, v.fields[i].value, named, others))
  }

  /** A value as TypeScript judges it. */
  predicate TypeAdmits(t: TsType, v: Json, named: Named)
    decreases t
  {
    match t
    case Named(n) => named(n, v)
    case Union(members) => exists i | 0 <= i < |members| :: TypeAdmits(members[i], v, named)
    case Literals(values) => v in values
    case Unknown => true
    case Primitive(spelling) =>
      (match v
       case Str(_) => spelling == "string"
       case Scalar(_) => spelling == "number"
       case Bool(_) => spelling == "boolean"
       case Null => spelling == "null"
       case _ => false)
    case ArrayOf(inner) => v.Arr? && forall i | 0 <= i < |v.items| :: TypeAdmits(inner, v.items[i], named)
    case RecordOf(element) => v.Obj? && forall i | 0 <= i < |v.fields| :: TypeAdmits(element, v.fields[i].value, named)
  }

  /** What the branches on `type` have found. */
  predicate FoundByKind(node: Json, s: Shape)
    requires node.Obj?
  {
    var kind, additional := Under(node, "type"), Under(node, "additionalProperties");
    match s
    case Basic(spelling) =>
      || (IsText(kind, "integer") && spelling == "number")
      || (spelling in {"string", "number", "boolean", "null"} && IsText(kind, spelling))
    case ListOf(items) => IsText(kind, "array") && Under(node, "items") == Some(items)
    case DictOf(element) =>
      && IsText(kind, "object") && NoProperties(Under(node, "properties"))
      && additional == Some(element) && !element.Null? && element != Bool(true)
    case PlainDict =>
      && IsText(kind, "object") && NoProperties(Under(node, "properties"))
      && (additional.None? || additional.value.Null? || additional.value == Bool(true))
    case _ => true
  }

  lemma KindFound(node: Json)
    requires node.Obj?
    ensures FoundByKind(node, KindShape(node))
  {
    hide Under;
  }

  lemma KindOfShape(node: Json)
    requires node.Obj?
    ensures FoundByKind(node, ShapeOf(node))
  {
    KindFound(node);
    hide Under, KindShape, IsText;
  }

  predicate NoProperties(properties: Option<Json>) { properties.Some? ==> !Truthy(properties.value) }

  lemma NoneListed(properties: Option<Json>)
    requires NoProperties(properties)
    ensures forall key: string :: !HasProperty(properties, key)
  {}

  lemma {:induction false} TypesAreEach(items: seq<Json>, i: nat)
    requires TypesOf(items).Some? && i < |items|
    ensures |TypesOf(items).value| == |items|
    ensures TypeOf(items[i]) == Some(TypesOf(items).value[i])
  {
    if i > 0 { TypesAreEach(items[1..], i - 1); } else if |items| > 1 { TypesAreEach(items[1..], 0); }
  }

  lemma LeafSound(node: Json, v: Json, named: Named, others: Others)
    requires TypeOf(node).Some? && Admits(node, v, named, others)
    requires var s := ShapeOf(node); s.AName? || s.OneOf? || s.Anything? || s.Basic? || s.PlainDict?
    ensures TypeAdmits(TypeOf(node).value, v, named)
  {
    hide AdmitsByParts;
  }

  lemma WrapperParts(node: Json, v: Json, named: Named, others: Others)
    requires Admits(node, v, named, others) && ShapeOf(node).Wrapper?
    ensures Admits(ShapeOf(node).inner, v, named, others)
  {
    hide AdmitsByValues, OfKind, KindShape;
  }

  lemma AnyOfParts(node: Json, v: Json, named: Named, others: Others)
    requires Admits(node, v, named, others) && ShapeOf(node).AnyOf?
    ensures exists i | 0 <= i < |ShapeOf(node).members.items| :: Admits(ShapeOf(node).members.items[i], v, named, others)
  {
    hide AdmitsByValues, OfKind, KindShape;
  }

  lemma ListParts(node: Json, v: Json, named: Named, others: Others)
    requires Admits(node, v, named, others) && ShapeOf(node).ListOf?
    ensures v.Arr? && forall i | 0 <= i < |v.items| :: Admits(ShapeOf(node).items, v.items[i], named, others)
  {
    KindOfShape(node);
    HasNoRef(node);
    hide AdmitsByValues, ShapeOf, KindShape, Under;
  }

  lemma DictParts(node: Json, v: Json, named: Named, others: Others)
    requires Admits(node, v, named, others) && ShapeOf(node).DictOf?
    ensures v.Obj? && forall i | 0 <= i < |v.fields| :: Admits(ShapeOf(node).element, v.fields[i].value, named, others)
  {
    KindOfShape(node);
    NoneListed(Under(node, "properties"));
    HasNoRef(node);
    hide AdmitsByValues, ShapeOf, KindShape, Under, HasProperty, NoProperties;
  }

  lemma HasNoRef(node: Json)
    requires node.Obj? && !ShapeOf(node).AName? && !ShapeOf(node).Raises?
    ensures Under(node, "$ref").None?
  {
    hide KindShape;
  }

  /** Every value a schema admits is of its type, whatever its other keywords ask. */
  lemma {:induction false} TypeIsSound(node: Json, v: Json, named: Named, others: Others)
    requires TypeOf(node).Some? && Admits(node, v, named, others)
    ensures TypeAdmits(TypeOf(node).value, v, named)
    decreases node
  {
    hide Admits, AdmitsByParts, AdmitsByValues, OfKind;
    match ShapeOf(node)
    case Wrapper(inner) =>
      WrapperParts(node, v, named, others);
      TypeIsSound(inner, v, named, others);
    case AnyOf(members) =>
      AnyOfParts(node, v, named, others);
      var i :| 0 <= i < |members.items| && Admits(members.items[i], v, named, others);
      TypesAreEach(members.items, i);
      TypeIsSound(members.items[i], v, named, others);
    case ListOf(items) =>
      ListParts(node, v, named, others);
      forall i | 0 <= i < |v.items| ensures TypeAdmits(TypeOf(items).value, v.items[i], named) {
        TypeIsSound(items, v.items[i], named, others);
      }
    case DictOf(element) =>
      DictParts(node, v, named, others);
      forall i | 0 <= i < |v.fields| ensures TypeAdmits(TypeOf(element).value, v.fields[i].value, named) {
        TypeIsSound(element, v.fields[i].value, named, others);
      }
    case _ => LeafSound(node, v, named, others);
  }

  // ------------------------------------------------------- no other values

  predicate OnlyKeys(node: Json, keys: set<string>)
    requires node.Obj?
  {
    forall f <- node.fields :: f.key in keys + {"title", "description", "default"}
  }

  /** The schema says nothing but what its type says: beside remarks, only the keywords of one kind of type. */
  predicate Bare(node: Json)
    decreases node
  {
    && node.Obj?
    && match ShapeOf(node)
       case AName(_) => true
       case Wrapper(inner) => OnlyKeys(node, {"allOf"}) && Bare(inner)
       case AnyOf(members) =>
         OnlyKeys(node, {"anyOf"}) && forall i | 0 <= i < |members.items| :: Bare(members.items[i])
       case OneOf(_) => OnlyKeys(node, {"enum"}) || OnlyKeys(node, {"const"})
       case Anything => true
       case Basic(_) => OnlyKeys(node, {"type"}) && !IsText(Under(node, "type"), "integer")
       case ListOf(items) => OnlyKeys(node, {"type", "items"}) && Bare(items)
       case DictOf(element) => OnlyKeys(node, {"type", "properties", "additionalProperties"}) && Bare(element)
       case PlainDict => OnlyKeys(node, {"type", "properties", "additionalProperties"})
       case Raises => false
  }

  lemma NoOther(node: Json, keys: set<string>, key: string)
    requires node.Obj? && OnlyKeys(node, keys) && key !in keys + {"title", "description", "default"}
    ensures Under(node, key).None?
  {}

  lemma NoParts(node: Json, v: Json, named: Named, others: Others)
    requires node.Obj? && Under(node, "allOf").None? && Under(node, "anyOf").None?
    requires Under(node, "items").None? && Under(node, "additionalProperties").None?
    ensures AdmitsByParts(node, v, named, others)
  {}

  lemma ReferenceExact(node: Json, v: Json, named: Named, others: Others)
    requires ShapeOf(node).AName?
    ensures Admits(node, v, named, others) <==> TypeAdmits(TypeOf(node).value, v, named)
  {
    hide AdmitsByParts, AdmitsByValues, OfKind, KindShape;
  }

  lemma OneOfExact(node: Json, v: Json, named: Named, others: Others)
    requires ShapeOf(node).OneOf? && Bare(node) && others(node, v)
    ensures Admits(node, v, named, others) <==> TypeAdmits(TypeOf(node).value, v, named)
  {
    hide AdmitsByParts, KindShape, OfKind;
    var keys := if OnlyKeys(node, {"enum"}) then {"enum"} else {"const"};
    NoOther(node, keys, "$ref");
    NoOther(node, keys, "allOf");
    NoOther(node, keys, "anyOf");
    NoOther(node, keys, "items");
    NoOther(node, keys, "additionalProperties");
    NoOther(node, keys, "type");
    NoOther(node, keys, if "enum" in keys then "const" else "enum");
    hide Bare, OnlyKeys, Under;
    NoParts(node, v, named, others);
  }

  lemma AnythingExact(node: Json, v: Json, named: Named, others: Others)
    requires ShapeOf(node).Anything? && others(node, v)
    ensures Admits(node, v, named, others) && TypeAdmits(TypeOf(node).value, v, named)
  {
    RemarksOnly(node);
    NoOther(node, {}, "$ref");
    NoOther(node, {}, "allOf");
    NoOther(node, {}, "anyOf");
    NoOther(node, {}, "items");
    NoOther(node, {}, "additionalProperties");
    NoOther(node, {}, "type");
    NoOther(node, {}, "enum");
    NoOther(node, {}, "const");
    hide OnlyKeys, Under, KindShape, AdmitsByParts, OfKind;
    NoParts(node, v, named, others);
  }

  lemma RemarksOnly(node: Json)
    requires ShapeOf(node).Anything?
    ensures node.Obj? && OnlyKeys(node, {})
  {
    hide Under, IsText;
    assert OnlyRemarks(node.fields);
  }

  lemma BasicExact(node: Json, v: Json, named: Named, others: Others)
    requires ShapeOf(node).Basic? && Bare(node) && others(node, v)
    ensures Admits(node, v, named, others) <==> TypeAdmits(TypeOf(node).value, v, named)
  {
    hide AdmitsByParts, KindShape, ShapeOf, Under;
    NoOther(node, {"type"}, "$ref");
    NoOther(node, {"type"}, "allOf");
    NoOther(node, {"type"}, "anyOf");
    NoOther(node, {"type"}, "items");
    NoOther(node, {"type"}, "additionalProperties");
    NoOther(node, {"type"}, "enum");
    NoOther(node, {"type"}, "const");
    KindOfShape(node);
    hide OnlyKeys;
    NoParts(node, v, named, others);
  }

  lemma DictKeysExact(node: Json, v: Json, named: Named, others: Others)
    requires node.Obj? && OnlyKeys(node, {"type", "properties", "additionalProperties"}) && others(node, v)
    requires IsText(Under(node, "type"), "object")
    ensures Admits(node, v, named, others) <==>
      v.Obj? && var additional := Under(node, "additionalProperties");
      additional.Some? && !additional.value.Null? && additional.value != Bool(true) ==>
        forall i | 0 <= i < |v.fields| && !HasProperty(Under(node, "properties"), v.fields[i].key) ::
          Admits(additional.value, v.fields[i].value, named, others)
  {
    hide Under;
    var keys := {"type", "properties", "additionalProperties"};
    NoOther(node, keys, "$ref");
    NoOther(node, keys, "allOf");
    NoOther(node, keys, "anyOf");
    NoOther(node, keys, "items");
    NoOther(node, keys, "enum");
    NoOther(node, keys, "const");
    hide OnlyKeys;
  }

  lemma PlainDictExact(node: Json, v: Json, named: Named, others: Others)
    requires ShapeOf(node).PlainDict? && Bare(node) && others(node, v)
    ensures Admits(node, v, named, others) <==> TypeAdmits(TypeOf(node).value, v, named)
  {
    hide Admits, KindShape, ShapeOf, Under;
    KindOfShape(node);
    DictKeysExact(node, v, named, others);
    hide OnlyKeys;
  }

  lemma DictExact(node: Json, v: Json, named: Named, others: Others)
    requires ShapeOf(node).DictOf? && Bare(node) && others(node, v)
    ensures Admits(node, v, named, others) <==>
      v.Obj? && forall i | 0 <= i < |v.fields| :: Admits(ShapeOf(node).element, v.fields[i].value, named, others)
  {
    hide Admits, HasProperty, KindShape, NoProperties, ShapeOf, Under;
    KindOfShape(node);
    NoneListed(Under(node, "properties"));
    DictKeysExact(node, v, named, others);
    hide OnlyKeys;
  }

  lemma ListExact(node: Json, v: Json, named: Named, others: Others)
    requires ShapeOf(node).ListOf? && Bare(node) && others(node, v)
    ensures Admits(node, v, named, others) <==>
      v.Arr? && forall i | 0 <= i < |v.items| :: Admits(ShapeOf(node).items, v.items[i], named, others)
  {
    hide KindShape, ShapeOf, Under;
    var keys := {"type", "items"};
    NoOther(node, keys, "$ref");
    NoOther(node, keys, "allOf");
    NoOther(node, keys, "anyOf");
    NoOther(node, keys, "additionalProperties");
    NoOther(node, keys, "enum");
    NoOther(node, keys, "const");
    KindOfShape(node);
    hide OnlyKeys;
  }

  lemma AnyOfExact(node: Json, v: Json, named: Named, others: Others)
    requires ShapeOf(node).AnyOf? && Bare(node) && others(node, v)
    ensures Admits(node, v, named, others) <==>
      exists i | 0 <= i < |ShapeOf(node).members.items| :: Admits(ShapeOf(node).members.items[i], v, named, others)
  {
    hide KindShape;
    NoOther(node, {"anyOf"}, "$ref");
    NoOther(node, {"anyOf"}, "allOf");
    NoOther(node, {"anyOf"}, "items");
    NoOther(node, {"anyOf"}, "additionalProperties");
    NoOther(node, {"anyOf"}, "enum");
    NoOther(node, {"anyOf"}, "const");
    NoOther(node, {"anyOf"}, "type");
    hide OnlyKeys, Under;
  }

  lemma WrapperExact(node: Json, v: Json, named: Named, others: Others)
    requires ShapeOf(node).Wrapper? && Bare(node) && others(node, v)
    ensures Admits(node, v, named, others) <==> Admits(ShapeOf(node).inner, v, named, others)
  {
    hide KindShape;
    NoOther(node, {"allOf"}, "$ref");
    NoOther(node, {"allOf"}, "anyOf");
    NoOther(node, {"allOf"}, "items");
    NoOther(node, {"allOf"}, "additionalProperties");
    NoOther(node, {"allOf"}, "enum");
    NoOther(node, {"allOf"}, "const");
    NoOther(node, {"allOf"}, "type");
    hide OnlyKeys, Under;
  }

  /** Nothing more is asked of a value by a schema that says no more than its type can. */
  ghost predicate NoOthers(others: Others) { forall n: Json, v: Json :: Bare(n) ==> others(n, v) }

  /** Of a schema that says no more than its type can, the schema's values and the type's are the same. */
  lemma {:induction false} TypeIsExact(node: Json, v: Json, named: Named, others: Others)
    requires TypeOf(node).Some? && Bare(node) && NoOthers(others)
    ensures Admits(node, v, named, others) <==> TypeAdmits(TypeOf(node).value, v, named)
    decreases node
  {
    hide Admits, ShapeOf, Under, OnlyKeys, IsText;
    match ShapeOf(node)
    case AName(_) => ReferenceExact(node, v, named, others);
    case OneOf(_) => OneOfExact(node, v, named, others);
    case Anything => AnythingExact(node, v, named, others);
    case Basic(_) => BasicExact(node, v, named, others);
    case PlainDict => PlainDictExact(node, v, named, others);
    case Wrapper(inner) =>
      WrapperExact(node, v, named, others);
      TypeIsExact(inner, v, named, others);
    case AnyOf(members) =>
      AnyOfExact(node, v, named, others);
      if members.items != [] { TypesAreEach(members.items, 0); }
      forall i | 0 <= i < |members.items|
        ensures TypeOf(members.items[i]) == Some(TypesOf(members.items).value[i])
        ensures Admits(members.items[i], v, named, others) <==> TypeAdmits(TypesOf(members.items).value[i], v, named)
      {
        TypesAreEach(members.items, i);
        TypeIsExact(members.items[i], v, named, others);
      }
    case ListOf(items) =>
      ListExact(node, v, named, others);
      if v.Arr? {
        forall i | 0 <= i < |v.items|
          ensures Admits(items, v.items[i], named, others) <==> TypeAdmits(TypeOf(items).value, v.items[i], named)
        {
          TypeIsExact(items, v.items[i], named, others);
        }
      }
    case DictOf(element) =>
      DictExact(node, v, named, others);
      if v.Obj? {
        forall i | 0 <= i < |v.fields|
          ensures Admits(element, v.fields[i].value, named, others)
             <==> TypeAdmits(TypeOf(element).value, v.fields[i].value, named)
        {
          TypeIsExact(element, v.fields[i].value, named, others);
        }
      }
  }
}
