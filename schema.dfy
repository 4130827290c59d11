/**
 * A Parse class schema as the generators receive it, and the parts of the
 * field translation that both generators share: which fields are skipped and
 * how the default value of a required field is written.
 */
module Schema {
  import opened Results
  import opened BuiltIns

  /** The `type` of a field; any name outside Parse's vocabulary is `Unknown` (see `KindOf`). */
  datatype FieldType =
    | Number | String | Boolean | Date | Pointer | Relation
    | Array | Object | File | GeoPoint | Polygon
    | Unknown(typeName: string)

  /** The type names both generators' `switch` statements name. */
  predicate IsKnownTypeName(typeName: string)
  {
    || typeName == "Number" || typeName == "String" || typeName == "Boolean" || typeName == "Date"
    || typeName == "Pointer" || typeName == "Relation" || typeName == "Array" || typeName == "Object"
    || typeName == "File" || typeName == "GeoPoint" || typeName == "Polygon"
  }

  /** The `type` string a field type stands for. */
  function TypeName(kind: FieldType): string
  {
    match kind
    case Number => "Number"
    case String => "String"
    case Boolean => "Boolean"
    case Date => "Date"
    case Pointer => "Pointer"
    case Relation => "Relation"
    case Array => "Array"
    case Object => "Object"
    case File => "File"
    case GeoPoint => "GeoPoint"
    case Polygon => "Polygon"
    case Unknown(typeName) => typeName
  }

  /** How a field's `type` string is read: a known name is its own arm, anything else `Unknown`. */
  function KindOf(typeName: string): (r: FieldType)
    ensures TypeName(r) == typeName
    ensures r.Unknown? <==> !IsKnownTypeName(typeName)
  {
    if typeName == "Number" then Number
    else if typeName == "String" then String
    else if typeName == "Boolean" then Boolean
    else if typeName == "Date" then Date
    else if typeName == "Pointer" then Pointer
    else if typeName == "Relation" then Relation
    else if typeName == "Array" then Array
    else if typeName == "Object" then Object
    else if typeName == "File" then File
    else if typeName == "GeoPoint" then GeoPoint
    else if typeName == "Polygon" then Polygon
    else Unknown(typeName)
  }

  /** A field type read from a schema: `Unknown` never carries a name the generators know. */
  predicate WellFormedKind(kind: FieldType)
  {
    kind.Unknown? ==> !IsKnownTypeName(kind.typeName)
  }

  /** Reading back the name of a well-formed field type gives that type. */
  lemma KindOfTypeName(kind: FieldType)
    requires WellFormedKind(kind)
    ensures KindOf(TypeName(kind)) == kind
    ensures WellFormedKind(KindOf(TypeName(kind)))
  {
  }

  /** `SchemaDetails`: `{type, targetClass?, required?, defaultValue?}`. */
  datatype FieldDetails = FieldDetails(
    kind: FieldType,
    targetClass: Option<string>,
    required: bool,
    defaultValue: Option<string>)

  /** One entry of `Object.entries(schema.fields)`. */
  datatype Field = Field(name: string, details: FieldDetails)

  /** `Parse.RestSchema`: a class name and its fields in insertion order. */
  datatype RestSchema = RestSchema(className: string, fields: seq<Field>)

  /** `ACL`, `createdAt` and `updatedAt` exist on every class and are skipped. */
  predicate IsCommonField(name: string)
  {
    name == "ACL" || name == "createdAt" || name == "updatedAt"
  }

  /** The fields that produce output, in schema order. */
  function Kept(fields: seq<Field>): (r: seq<Field>)
    ensures |r| <= |fields|
    ensures forall f :: f in r <==> f in fields && !IsCommonField(f.name)
  {
    if fields == [] then []
    else
      var last := fields[|fields| - 1];
      Kept(fields[..|fields| - 1]) + if IsCommonField(last.name) then [] else [last]
  }

  lemma KeptSnoc(init: seq<Field>, last: Field)
    ensures Kept(init + [last]) == Kept(init) + if IsCommonField(last.name) then [] else [last]
  {
    assert (init + [last])[..|init|] == init;
  }

  /** The required fields among `fields`, in order. */
  function RequiredFields(fields: seq<Field>): (r: seq<Field>)
    ensures |r| <= |fields|
    ensures forall f :: f in r <==> f in fields && f.details.required
  {
    if fields == [] then []
    else
      var last := fields[|fields| - 1];
      RequiredFields(fields[..|fields| - 1]) + if last.details.required then [last] else []
  }

  lemma RequiredSnoc(init: seq<Field>, last: Field)
    ensures RequiredFields(init + [last]) == RequiredFields(init) + if last.details.required then [last] else []
  {
    assert (init + [last])[..|init|] == init;
  }

  /** `!details.targetClass`: absent or the empty string. */
  predicate MissingTarget(target: Option<string>)
  {
    target.None? || target.value == ""
  }

  /** The field would make `getPointerType`/`getRelationType` throw. */
  predicate LacksTarget(d: FieldDetails)
  {
    (d.kind.Pointer? || d.kind.Relation?) && MissingTarget(d.targetClass)
  }

  /**
   * `DEFAULT_VALUES[type]` as it appears inside a template literal. The Date
   * entry is the `new Date()` taken when the module was loaded, given here as
   * its text; `[]` prints as nothing, `{}` as `[object Object]` and a missing
   * entry as `undefined`.
   */
  function TableDefault(kind: FieldType, loadDate: string): string
  {
    match kind
    case Number => "0"
    case String => ""                    // never consulted: DefaultValue handles String first
    case Boolean => "false"
    case Date => loadDate
    case Pointer => "null"
    case Array => ""
    case Object => "[object Object]"
    case File => "null"
    case GeoPoint => "[object Object]"   // never consulted: DefaultValue handles GeoPoint first
    case _ => "undefined"
  }

  /**
   * The default value written for a required field: a String default is
   * quoted as it stands (empty when absent), a GeoPoint is the origin, and any
   * other type takes its own default if it has one, else the table's.
   */
  function DefaultValue(d: FieldDetails, loadDate: string): (r: string)
    ensures d.kind.String? ==> |r| >= 2 && r[0] == r[|r| - 1] == '"'
    ensures d.kind.String? && d.defaultValue.Some? ==> r[1..|r| - 1] == d.defaultValue.value
    ensures d.kind.String? && d.defaultValue.None? ==> r == "\"\""
    ensures d.kind.GeoPoint? ==> r == "new Parse.GeoPoint(0, 0)"
    ensures !d.kind.String? && !d.kind.GeoPoint? && d.defaultValue.Some? ==> r == d.defaultValue.value
    ensures !d.kind.String? && !d.kind.GeoPoint? && d.defaultValue.None? ==>
      r == TableDefault(d.kind, loadDate)
  {
    if d.kind.String? then
      "\"" + (match d.defaultValue case Some(v) => v case None => "") + "\""
    else if d.kind.GeoPoint? then
      "new Parse.GeoPoint(0, 0)"
    else
      match d.defaultValue
      case Some(v) => v
      case None => TableDefault(d.kind, loadDate)
  }

  /** One entry of `DEFAULT_VALUES` in the generated class. */
  function DefaultLine(f: Field, loadDate: string): string
  {
    f.name + ": " + DefaultValue(f.details, loadDate)
  }

  /** Required Pointer and File fields without a default start out as `null`. */
  lemma NullDefaults(f: Field, loadDate: string)
    requires f.details.kind.Pointer? || f.details.kind.File?
    requires f.details.defaultValue.None?
    ensures DefaultLine(f, loadDate) == f.name + ": null"
  {
  }

  /** The schemas `generateClass` does not skip, in schema order. */
  function Emitted(names: map<BuiltIn, string>, schemas: seq<RestSchema>): (r: seq<RestSchema>)
    ensures |r| <= |schemas|
    ensures forall s :: s in r <==> s in schemas && ShouldEmit(names, s.className)
  {
    if schemas == [] then []
    else
      var last := schemas[|schemas| - 1];
      Emitted(names, schemas[..|schemas| - 1]) + if ShouldEmit(names, last.className) then [last] else []
  }

  /** The text every `createConstructor` template of both generators shares. */
  function ConstructorText(params: string, superArgs: string): string
  {
    "\n    constructor(" + params + ") {\n      super(" + superArgs + ");\n    }\n    "
  }

  /** A constructor that takes a parameter is never the text of one that takes none. */
  lemma ConstructorTextsDiffer(params: string, superArgs: string, otherArgs: string)
    requires params != "" && params[0] != ')'
    ensures ConstructorText(params, superArgs) != ConstructorText("", otherArgs)
  {
    var prefix := "\n    constructor(";
    assert |prefix| == 17;
    assert ConstructorText(params, superArgs)[17] == params[0];
    assert ConstructorText("", otherArgs)[17] == ')';
  }
}
