/**
 * The three built-in Parse classes, the base class each maps to, and the
 * override map that lets a project rename or re-declare them. Both generators
 * share this part word for word.
 */
module BuiltIns {
  import opened Results

  /** `PARSE_CLASSES`: the built-in classes of the Parse SDK. */
  datatype BuiltIn = User | Role | Session

  /** The order in which the constructors visit the built-ins. */
  const ParseClasses: seq<BuiltIn> := [User, Role, Session]

  /** The schema's name for a built-in class. */
  function ClassName(b: BuiltIn): string
  {
    match b
    case User => "_User"
    case Role => "_Role"
    case Session => "_Session"
  }

  /** `BASE_CLASSES`: the SDK class a built-in extends. */
  function BaseClassOf(b: BuiltIn): string
  {
    match b
    case User => "Parse.User"
    case Role => "Parse.Role"
    case Session => "Parse.Session"
  }

  lemma BaseClassHasNoBar(b: BuiltIn)
    ensures '|' !in BaseClassOf(b)
  {
    match b
    case User => assert BaseClassOf(b) == "Parse.User";
    case Role => assert BaseClassOf(b) == "Parse.Role";
    case Session => assert BaseClassOf(b) == "Parse.Session";
  }

  /** `isBuiltIn` as a type guard: which built-in, if any, a class name denotes. */
  function AsBuiltIn(className: string): (r: Option<BuiltIn>)
    ensures r.Some? ==> ClassName(r.value) == className
    ensures r.None? ==> forall b :: ClassName(b) != className
  {
    if className == "_User" then Some(User)
    else if className == "_Role" then Some(Role)
    else if className == "_Session" then Some(Session)
    else None
  }

  predicate IsBuiltIn(className: string)
  {
    AsBuiltIn(className).Some?
  }

  /** `getBaseClass`: built-ins extend their SDK class, everything else `Parse.Object`. */
  function GetBaseClass(className: string): (r: string)
    ensures forall b :: className == ClassName(b) ==> r == BaseClassOf(b)
    ensures r == "Parse.Object" <==> !IsBuiltIn(className)
  {
    match AsBuiltIn(className)
    case Some(b) => BaseClassOf(b)
    case None => "Parse.Object"
  }

  /** A value of the `modifiedClasses` argument: `string | boolean`. */
  datatype Override = Name(name: string) | Flag(on: bool)

  /** JavaScript truthiness of an override value. */
  predicate Truthy(o: Override)
  {
    match o
    case Name(s) => s != ""
    case Flag(on) => on
  }

  /**
   * What the constructor records for the overrides: exactly the built-ins with a
   * truthy value, a string stored as given and `true` storing the class's own name.
   */
  ghost predicate Records(modified: map<BuiltIn, Override>, names: map<BuiltIn, string>)
  {
    && (forall b :: b in names <==> b in modified && Truthy(modified[b]))
    && (forall b :: b in names && modified[b].Name? ==> names[b] == modified[b].name)
    && (forall b :: b in names && modified[b].Flag? ==> names[b] == ClassName(b))
  }

  /** The constructor's `PARSE_CLASSES.forEach` over the override map. */
  method RecordBuiltInNames(modified: map<BuiltIn, Override>) returns (names: map<BuiltIn, string>)
    ensures Records(modified, names)
    ensures forall b :: b in names ==> names[b] != ""
  {
    names := map[];
    for i := 0 to |ParseClasses|
      invariant forall b :: b in names <==> b in ParseClasses[..i] && b in modified && Truthy(modified[b])
      invariant forall b :: b in names && modified[b].Name? ==> names[b] == modified[b].name
      invariant forall b :: b in names && modified[b].Flag? ==> names[b] == ClassName(b)
      invariant forall b :: b in names ==> names[b] != ""
    {
      var key := ParseClasses[i];
      if key in modified && Truthy(modified[key]) {
        match modified[key]
        case Name(s) => names := names[key := s];
        case Flag(_) => names := names[key := ClassName(key)];
      }
    }
    assert ParseClasses[..|ParseClasses|] == ParseClasses;
    assert forall b :: b in ParseClasses by {
      forall b ensures b in ParseClasses {
        match b
        case User => assert ParseClasses[0] == b;
        case Role => assert ParseClasses[1] == b;
        case Session => assert ParseClasses[2] == b;
      }
    }
  }

  /** The override map alone decides what is recorded. */
  lemma RecordsDetermineNames(modified: map<BuiltIn, Override>, names: map<BuiltIn, string>, other: map<BuiltIn, string>)
    requires Records(modified, names) && Records(modified, other)
    ensures names == other
  {
    assert names.Keys == other.Keys;
    forall b | b in names ensures names[b] == other[b] {
      match modified[b]
      case Name(_) =>
      case Flag(_) =>
    }
  }

  /** `getTargetClassName`: the name under which a class is emitted and referenced. */
  function TargetClassName(names: map<BuiltIn, string>, className: string): (r: string)
    ensures forall b :: className == ClassName(b) && b in names ==> r == names[b]
    ensures forall b :: className == ClassName(b) && b !in names ==> r == BaseClassOf(b)
    ensures !IsBuiltIn(className) ==> r == className
  {
    match AsBuiltIn(className)
    case Some(b) => if b in names then names[b] else BaseClassOf(b)
    case None => className
  }

  /** `generateClass`'s early exit: a built-in is emitted only if an override was recorded. */
  predicate ShouldEmit(names: map<BuiltIn, string>, className: string)
  {
    !(IsBuiltIn(className) && AsBuiltIn(className).value !in names)
  }

  /**
   * Resolution of a built-in under the overrides the constructor recorded: a
   * string override renames it, `true` keeps its schema name, and a falsy or
   * absent value leaves it unemitted and referred to by its SDK class.
   */
  lemma ResolveBuiltIn(modified: map<BuiltIn, Override>, names: map<BuiltIn, string>, b: BuiltIn)
    requires Records(modified, names)
    ensures ShouldEmit(names, ClassName(b)) <==> b in modified && Truthy(modified[b])
    ensures TargetClassName(names, ClassName(b)) ==
      if b !in modified || !Truthy(modified[b]) then BaseClassOf(b)
      else match modified[b]
        case Name(s) => s
        case Flag(_) => ClassName(b)
  {
    assert AsBuiltIn(ClassName(b)) == Some(b);
  }
}
