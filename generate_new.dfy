/**
 * The current generator (src/generate-new.ts): a `ParseClassGenerator` that
 * translates Parse class schemas into an attributes file of
 * `<Name>Attributes` interfaces and a class file of `Parse.Object`
 * subclasses that import those interfaces.
 */
module GenerateNew {
  import opened Results
  import opened Strings
  import opened BuiltIns
  import opened Schema
  import ImportPath

  /** The attribute lines and default-value lines of one class, in field order. */
  datatype Attributes = Attributes(attributes: seq<string>, defaultValues: seq<string>)

  /** What `generateClass` returns for a class it does not skip. */
  datatype ClassData = ClassData(
    attributes: seq<string>,
    ctor: string,
    defaultValues: seq<string>,
    className: string)

  /** `createAttributesFile`'s text, and the classes its `createTsClassesFile` closes over. */
  datatype AttributesFile = AttributesFile(text: string, classes: seq<ClassData>)

  /** The `env` argument of `createTsClassesFile`. */
  datatype Env = Node | Browser | ReactNative

  function ParseModule(env: Env): string
  {
    match env
    case Node => "parse/node"
    case Browser => "parse"
    case ReactNative => "parse/react-native"
  }

  /** An attribute line: `name: type;`, or `name?: type;` with the first ` | null` dropped. */
  function AttributeLine(f: Field, fieldType: string): (r: string)
    ensures f.details.required ==> r == f.name + ": " + fieldType + ";"
    ensures !Contains(fieldType, " | null") ==>
      r == f.name + (if f.details.required then "" else "?") + ": " + fieldType + ";"
  {
    var optional := if f.details.required then "" else "?";
    var t := if Contains(fieldType, " | null") && optional != "" then ReplaceFirst(fieldType, " | null", "") else fieldType;
    f.name + optional + ": " + t + ";"
  }

  /**
   * A nullable type ending in ` | null` keeps it on a required field and
   * loses it on an optional one.
   */
  lemma NullableStripping(f: Field, t: string)
    requires '|' !in t
    ensures AttributeLine(f, t + " | null") ==
      if f.details.required then f.name + ": " + t + " | null;" else f.name + "?: " + t + ";"
  {
    var s := t + " | null";
    assert s[|t|..|t| + 7] == " | null";
    ContainsAt(s, " | null", |t|);
    DropTrailingNull(t);
  }

  /** The `<Name>Attributes` interface of one class. */
  function InterfaceBlock(c: ClassData): string
  {
    "export interface " + c.className + "Attributes {\n" + Join(c.attributes, "\n") + "\n}"
  }

  /** The output of `createAttributesFile` before formatting. */
  function AttributesFileText(helperTypes: string, classes: seq<ClassData>): string
  {
    helperTypes + "\n\n" + Join(seq(|classes|, i requires 0 <= i < |classes| => InterfaceBlock(classes[i])), "\n") + "\n"
  }

  /** The class definition `createTsClassesFile` writes; its base class comes from the resolved name. */
  function ClassDef(c: ClassData): string
  {
    "class " + c.className + " extends " + GetBaseClass(c.className) + "<"
    + (c.className + "Attributes> {\n" + "          static DEFAULT_VALUES = {\n            " + Join(c.defaultValues, ",\n") + "\n          };\n          "
    + c.ctor + "\n          }")
  }

  function RegisterLine(c: ClassData): string
  {
    GetBaseClass(c.className) + ".registerSubclass(\"" + c.className + "\"," + (c.className + ");")
  }

  function AttributesName(c: ClassData): string
  {
    c.className + "Attributes"
  }

  /** The import of the attributes interfaces from the attributes file. */
  function AttributesImport(classes: seq<ClassData>, importPath: string): string
  {
    "import { " + Join(seq(|classes|, i requires 0 <= i < |classes| => AttributesName(classes[i])), ", ")
    + " } from \"" + importPath + "\";"
  }

  /** The output of `createTsClassesFile` before formatting. */
  function ClassesFileText(env: Env, attrsImport: string, defs: seq<string>, registers: seq<string>, exports: seq<string>): string
  {
    "import Parse from \"" + ParseModule(env) + "\"" + "\n\n        " + attrsImport + "\n\n\n        "
    + Join(defs, "\n") + "\n        export const registerAll = ()=>{" + Join(registers, "\n") + "};\n\n        export { "
    + Join(exports, ", ") + " };\n        "
  }

  /** The import of the class file names the attributes interface of every class. */
  lemma ImportNamesEveryClass(classes: seq<ClassData>, importPath: string, k: nat)
    requires k < |classes|
    ensures Contains(AttributesImport(classes, importPath), AttributesName(classes[k]))
  {
    var names := seq(|classes|, i requires 0 <= i < |classes| => AttributesName(classes[i]));
    var imports := AttributesImport(classes, importPath);
    assert imports == "import { " + Join(names, ", ") + (" } from \"" + importPath + "\";");
    ContainsInfix("import { ", Join(names, ", "), " } from \"" + importPath + "\";");
    JoinContains(names, ", ", k);
    ContainsTransitive(imports, Join(names, ", "), names[k]);
  }

  /** The attributes file declares the attributes interface of every class. */
  lemma InterfaceForEveryClass(helperTypes: string, classes: seq<ClassData>, k: nat)
    requires k < |classes|
    ensures Contains(AttributesFileText(helperTypes, classes), "export interface " + AttributesName(classes[k]) + " {")
  {
    var c := classes[k];
    var blocks := seq(|classes|, i requires 0 <= i < |classes| => InterfaceBlock(classes[i]));
    var text := AttributesFileText(helperTypes, classes);
    assert Contains(text, blocks[k]) by {
      ContainsInfix(helperTypes + "\n\n", Join(blocks, "\n"), "\n");
      JoinContains(blocks, "\n", k);
      ContainsTransitive(text, Join(blocks, "\n"), blocks[k]);
    }
    var header := "export interface " + AttributesName(c) + " {";
    assert Contains(blocks[k], header) by {
      assert blocks[k] == header + ("\n" + Join(c.attributes, "\n") + "\n}");
      PrefixContained(header, "\n" + Join(c.attributes, "\n") + "\n}");
    }
    ContainsTransitive(text, blocks[k], header);
  }

  /**
   * The two files agree: every class named in the class file's import has its
   * `export interface <Name>Attributes {` in the attributes file.
   */
  lemma InterfaceForEveryImport(helperTypes: string, classes: seq<ClassData>, importPath: string, k: nat)
    requires k < |classes|
    ensures Contains(AttributesImport(classes, importPath), AttributesName(classes[k]))
    ensures Contains(AttributesFileText(helperTypes, classes), "export interface " + AttributesName(classes[k]) + " {")
  {
    ImportNamesEveryClass(classes, importPath, k);
    InterfaceForEveryClass(helperTypes, classes, k);
  }

  class ParseClassGenerator {
    /** `builtInNames`: the recorded name of each overridden built-in. */
    const builtInNames: map<BuiltIn, string>
    /** The text of the `new Date()` in `DEFAULT_VALUES`, taken when the module was loaded. */
    const loadDate: string

    /** An absent `modifiedClasses` records nothing, as the empty map does. */
    constructor (modifiedClasses: map<BuiltIn, Override>, loadDate: string)
      ensures Records(modifiedClasses, builtInNames)
      ensures forall b :: b in builtInNames ==> builtInNames[b] != ""
      ensures this.loadDate == loadDate
    {
      var names := RecordBuiltInNames(modifiedClasses);
      builtInNames := names;
      this.loadDate := loadDate;
    }

    /** `createConstructor`: the shape follows the schema's own name, the text uses the resolved one. */
    function CreateConstructor(className: string): (r: string)
      ensures var n := TargetClassName(builtInNames, className);
        && (className == "_User" ==> r == ConstructorText("attrs = {}", "{..." + n + ".DEFAULT_VALUES, ...attrs}"))
        && (className == "_Role" ==> r == ConstructorText("ACL: Parse.ACL = new Parse.ACL()", "\"" + n + "\", ACL"))
        && (className == "_Session" ==> r == ConstructorText("", n + ".DEFAULT_VALUES"))
        && (!IsBuiltIn(className) ==>
              r == ConstructorText("attrs:" + className + "Attributes = {}",
                                   "\"" + className + "\", {..." + className + ".DEFAULT_VALUES, ...attrs}"))
    {
      var newName := TargetClassName(builtInNames, className);
      if className == "_User" then
        ConstructorText("attrs = {}", "{..." + newName + ".DEFAULT_VALUES, ...attrs}")
      else if className == "_Role" then
        ConstructorText("ACL: Parse.ACL = new Parse.ACL()", "\"" + newName + "\", ACL")
      else if className == "_Session" then
        ConstructorText("", newName + ".DEFAULT_VALUES")
      else
        ConstructorText("attrs:" + newName + "Attributes = {}",
                        "\"" + newName + "\", {..." + newName + ".DEFAULT_VALUES, ...attrs}")
    }

    /**
     * `getPointerType`: a user class or an overridden built-in is parameterised
     * by its attributes interface, an unoverridden built-in is its bare SDK class.
     */
    function PointerType(targetClass: Option<string>): (r: Result<string>)
      ensures r.Failure? <==> MissingTarget(targetClass)
      ensures r.Failure? ==> r.error == TargetClassRequired
      ensures r.Success? ==> EndsWith(r.value, " | null")
      ensures r.Success? && !IsBuiltIn(targetClass.value) ==>
        r.value == "Parse.Object<" + targetClass.value + "Attributes>" + " | null"
      ensures forall b :: r.Success? && targetClass.value == ClassName(b) && b in builtInNames && builtInNames[b] != "" ==>
        r.value == BaseClassOf(b) + "<" + builtInNames[b] + "Attributes>" + " | null"
      ensures forall b :: r.Success? && targetClass.value == ClassName(b) && b !in builtInNames ==>
        r.value == BaseClassOf(b) + " | null"
    {
      if MissingTarget(targetClass) then Failure(TargetClassRequired)
      else
        var target := targetClass.value;
        var baseClass := GetBaseClass(target);
        var targetClassName := TargetClassName(builtInNames, target);
        var generic := baseClass + "<" + targetClassName + "Attributes>";
        SuffixOfAppend(generic, " | null");
        SuffixOfAppend(baseClass, " | null");
        match AsBuiltIn(target)
        case Some(b) =>
          if b in builtInNames && builtInNames[b] != "" then
            Success(generic + " | null")
          else
            Success(baseClass + " | null")
        case None =>
          Success(generic + " | null")
    }

    /** `getRelationType`: parameterised by the resolved names of both classes. */
    function RelationType(className: string, targetClass: Option<string>): (r: Result<string>)
      ensures r.Failure? <==> MissingTarget(targetClass)
      ensures r.Failure? ==> r.error == TargetClassRequired
      ensures r.Success? ==> EndsWith(r.value, " | null")
      ensures r.Success? ==>
        r.value == "Parse.Relation<" + TargetClassName(builtInNames, className) + ", "
                   + TargetClassName(builtInNames, targetClass.value) + ">" + " | null"
    {
      if MissingTarget(targetClass) then Failure(TargetClassRequired)
      else
        var thisClassName := TargetClassName(builtInNames, className);
        var targetClassName := TargetClassName(builtInNames, targetClass.value);
        var relation := "Parse.Relation<" + thisClassName + ", " + targetClassName + ">";
        SuffixOfAppend(relation, " | null");
        Success(relation + " | null")
    }

    /** The `switch` of `generateAttributes`: the TypeScript type of one field. */
    function FieldTypeText(className: string, d: FieldDetails): (r: Result<string>)
      ensures r.Failure? <==> LacksTarget(d)
      ensures r.Failure? ==> r.error == TargetClassRequired
      ensures d.kind == Number ==> r == Success("number")
      ensures d.kind == String ==> r == Success("string")
      ensures d.kind == Boolean ==> r == Success("boolean")
      ensures d.kind == Date ==> r == Success("Date")
      ensures d.kind == Array ==> r == Success("SerializableArray")
      ensures d.kind == Object ==> r == Success("SerializableObject")
      ensures d.kind == File ==> r == Success("Parse.File | null")
      ensures d.kind == GeoPoint ==> r == Success("Parse.GeoPoint")
      ensures d.kind == Polygon ==> r == Success("Parse.Polygon")
      ensures d.kind.Pointer? ==> r == PointerType(d.targetClass)
      ensures d.kind.Relation? ==> r == RelationType(className, d.targetClass)
      ensures d.kind.Unknown? ==> r == Success("any")
    {
      match d.kind
      case Number => Success("number")
      case String => Success("string")
      case Boolean => Success("boolean")
      case Date => Success("Date")
      case Pointer => PointerType(d.targetClass)
      case Relation => RelationType(className, d.targetClass)
      case Array => Success("SerializableArray")
      case Object => Success("SerializableObject")
      case File => Success("Parse.File | null")
      case GeoPoint => Success("Parse.GeoPoint")
      case Polygon => Success("Parse.Polygon")
      case Unknown(_) => Success("any")
    }

    /** Exactly the Pointer, Relation and File types end in ` | null`. */
    lemma NullableKinds(className: string, d: FieldDetails)
      requires !LacksTarget(d)
      ensures EndsWith(FieldTypeText(className, d).value, " | null") <==> d.kind.Pointer? || d.kind.Relation? || d.kind.File?
    {
      if d.kind.Pointer? || d.kind.Relation? || d.kind.File? {
        NullableKindsEnd(className, d);
      } else {
        OtherKindsDoNotEnd(className, d);
      }
    }

    lemma NullableKindsEnd(className: string, d: FieldDetails)
      requires !LacksTarget(d) && (d.kind.Pointer? || d.kind.Relation? || d.kind.File?)
      ensures EndsWith(FieldTypeText(className, d).value, " | null")
    {
      if d.kind.File? {
        assert FieldTypeText(className, d).value == "Parse.File" + " | null";
        SuffixOfAppend("Parse.File", " | null");
      }
    }

    lemma OtherKindsDoNotEnd(className: string, d: FieldDetails)
      requires !(d.kind.Pointer? || d.kind.Relation? || d.kind.File?)
      ensures !EndsWith(FieldTypeText(className, d).value, " | null")
    {
      var t := FieldTypeText(className, d).value;
      assert t[|t| - 1] != 'l' by {
        match d.kind
        case Number => assert t == "number";
        case String => assert t == "string";
        case Boolean => assert t == "boolean";
        case Date => assert t == "Date";
        case Array => assert t == "SerializableArray";
        case Object => assert t == "SerializableObject";
        case GeoPoint => assert t == "Parse.GeoPoint";
        case Polygon => assert t == "Parse.Polygon";
        case Unknown(_) => assert t == "any";
      }
      NotNullable(t);
    }

    /** Exactly an unknown type falls back to `any` (the case that warns). */
    lemma AnyKinds(className: string, d: FieldDetails)
      requires !LacksTarget(d)
      ensures FieldTypeText(className, d).value == "any" <==> d.kind.Unknown?
      ensures WellFormedKind(d.kind) ==>
        (FieldTypeText(className, d).value == "any" <==> !IsKnownTypeName(TypeName(d.kind)))
    {
    }

    /** One iteration of `generateAttributes`' loop. */
    function Step(className: string, acc: Attributes, f: Field): Result<Attributes>
    {
      if IsCommonField(f.name) then Success(acc)
      else
        match FieldTypeText(className, f.details)
        case Failure(e) => Failure(e)
        case Success(t) =>
          Success(Attributes(
            acc.attributes + [AttributeLine(f, t)],
            acc.defaultValues + if f.details.required then [DefaultLine(f, loadDate)] else []))
    }

    lemma StepAppends(className: string, acc: Attributes, f: Field, t: string)
      requires !IsCommonField(f.name) && FieldTypeText(className, f.details) == Success(t)
      ensures Step(className, acc, f) == Success(Attributes(
        acc.attributes + [AttributeLine(f, t)],
        acc.defaultValues + if f.details.required then [DefaultLine(f, loadDate)] else []))
    {
    }

    /** The loop of `generateAttributes` after `i` fields takes one more step. */
    lemma NextField(className: string, fields: seq<Field>, i: nat, acc: Attributes)
      requires i < |fields| && AttributesOf(className, fields[..i]) == Success(acc)
      ensures AttributesOf(className, fields[..i + 1]) == Step(className, acc, fields[i])
    {
      assert fields[..i + 1][..i] == fields[..i];
    }

    /** What `generateAttributes` computes for the given fields, or the error it throws. */
    function AttributesOf(className: string, fields: seq<Field>): Result<Attributes>
    {
      if fields == [] then Success(Attributes([], []))
      else
        match AttributesOf(className, fields[..|fields| - 1])
        case Failure(e) => Failure(e)
        case Success(acc) => Step(className, acc, fields[|fields| - 1])
    }

    /** The attribute line of a field that translates. */
    function LineFor(className: string, f: Field): string
      requires !LacksTarget(f.details)
    {
      AttributeLine(f, FieldTypeText(className, f.details).value)
    }

    lemma AttributesOfSnoc(className: string, init: seq<Field>, last: Field)
      ensures AttributesOf(className, init).Failure? ==>
        AttributesOf(className, init + [last]) == AttributesOf(className, init)
      ensures AttributesOf(className, init).Success? ==>
        AttributesOf(className, init + [last]) == Step(className, AttributesOf(className, init).value, last)
    {
      assert (init + [last])[..|init|] == init;
    }

    /**
     * `generateAttributes` throws exactly when one of the fields other than
     * ACL, createdAt and updatedAt is a Pointer or Relation without a target class.
     */
    lemma {:induction false} AttributesOfFails(className: string, fields: seq<Field>)
      ensures AttributesOf(className, fields).Success? <==> forall f :: f in Kept(fields) ==> !LacksTarget(f.details)
      ensures AttributesOf(className, fields).Failure? ==> AttributesOf(className, fields).error == TargetClassRequired
    {
      if fields != [] {
        var init, last := fields[..|fields| - 1], fields[|fields| - 1];
        assert fields == init + [last];
        AttributesOfFails(className, init);
        AttributesOfSnoc(className, init, last);
        KeptSnoc(init, last);
      }
    }

    /**
     * When it does not throw, `generateAttributes` gives one attribute line per
     * field other than ACL, createdAt and updatedAt, in field order.
     */
    lemma {:induction false} AttributeLinesInOrder(className: string, fields: seq<Field>)
      requires forall f :: f in Kept(fields) ==> !LacksTarget(f.details)
      ensures AttributesOf(className, fields).Success?
      ensures var a := AttributesOf(className, fields).value;
        && |a.attributes| == |Kept(fields)|
        && forall k :: 0 <= k < |a.attributes| ==> a.attributes[k] == LineFor(className, Kept(fields)[k])
    {
      if fields != [] {
        var init, last := fields[..|fields| - 1], fields[|fields| - 1];
        assert fields == init + [last];
        KeptSnoc(init, last);
        AttributesOfSnoc(className, init, last);
        AttributeLinesInOrder(className, init);
      }
    }

    /**
     * When it does not throw, `generateAttributes` gives one default line per
     * required field other than ACL, createdAt and updatedAt, in field order.
     */
    lemma {:induction false} DefaultLinesInOrder(className: string, fields: seq<Field>)
      requires forall f :: f in Kept(fields) ==> !LacksTarget(f.details)
      ensures AttributesOf(className, fields).Success?
      ensures var a := AttributesOf(className, fields).value;
        && |a.defaultValues| == |RequiredFields(Kept(fields))|
        && forall k :: 0 <= k < |a.defaultValues| ==>
             a.defaultValues[k] == DefaultLine(RequiredFields(Kept(fields))[k], loadDate)
    {
      if fields != [] {
        var init, last := fields[..|fields| - 1], fields[|fields| - 1];
        assert fields == init + [last];
        KeptSnoc(init, last);
        AttributesOfSnoc(className, init, last);
        DefaultLinesInOrder(className, init);
        if !IsCommonField(last.name) {
          RequiredSnoc(Kept(init), last);
        } else {
          assert Kept(fields) == Kept(init);
        }
      }
    }

    /** Once a prefix of the fields throws, so do all the fields. */
    lemma {:induction false} FailurePersists(className: string, fields: seq<Field>, k: nat)
      requires k <= |fields|
      requires AttributesOf(className, fields[..k]).Failure?
      ensures AttributesOf(className, fields) == AttributesOf(className, fields[..k])
      decreases |fields| - k
    {
      if k < |fields| {
        assert fields[..k + 1][..k] == fields[..k];
        FailurePersists(className, fields, k + 1);
      } else {
        assert fields[..k] == fields;
      }
    }

    /**
     * A required Pointer to a user class keeps its `| null` (the `post` field
     * of the sample `Comment` class).
     */
    lemma RequiredPointerLine(className: string, f: Field, target: string)
      requires f.details.kind == Pointer && f.details.targetClass == Some(target) && f.details.required
      requires target != "" && !IsBuiltIn(target)
      ensures LineFor(className, f) == f.name + ": " + ("Parse.Object<" + target + "Attributes>" + " | null") + ";"
    {
    }

    /** An optional Pointer to a user class loses its `| null`. */
    lemma OptionalPointerLine(className: string, f: Field, target: string)
      requires f.details.kind == Pointer && f.details.targetClass == Some(target) && !f.details.required
      requires target != "" && !IsBuiltIn(target) && '|' !in target
      ensures LineFor(className, f) == f.name + "?: " + ("Parse.Object<" + target + "Attributes>") + ";"
    {
      var t := "Parse.Object<" + target + "Attributes>";
      assert FieldTypeText(className, f.details).value == t + " | null";
      assert '|' !in t;
      NullableStripping(f, t);
    }

    /**
     * An optional Pointer to a built-in without override becomes its bare SDK
     * class (the `author` field of the sample `Comment` class).
     */
    lemma OptionalBuiltInPointerLine(className: string, f: Field, b: BuiltIn)
      requires f.details.kind == Pointer && f.details.targetClass == Some(ClassName(b)) && !f.details.required
      requires b !in builtInNames
      ensures LineFor(className, f) == f.name + "?: " + BaseClassOf(b) + ";"
    {
      assert AsBuiltIn(ClassName(b)) == Some(b);
      assert FieldTypeText(className, f.details).value == BaseClassOf(b) + " | null";
      BaseClassHasNoBar(b);
      NullableStripping(f, BaseClassOf(b));
    }

    /**
     * A built-in renamed to a name that is not built-in is emitted under that
     * name, and the class file has it extend `Parse.Object`, because the base
     * class is looked up from the resolved name.
     */
    lemma RenamedBuiltInExtendsObject(schema: RestSchema, b: BuiltIn, c: ClassData)
      requires schema.className == ClassName(b) && b in builtInNames && !IsBuiltIn(builtInNames[b])
      requires GenerateClass(schema) == Success(Some(c))
      ensures c.className == builtInNames[b]
      ensures StartsWith(ClassDef(c), "class " + builtInNames[b] + " extends " + "Parse.Object" + "<")
    {
      var head := "class " + c.className + " extends " + GetBaseClass(c.className) + "<";
      PrefixOfAppend(head, ClassDef(c)[|head|..]);
    }

    /** ... and registers it with `Parse.Object` as well. */
    lemma RenamedBuiltInRegistersObject(schema: RestSchema, b: BuiltIn, c: ClassData)
      requires schema.className == ClassName(b) && b in builtInNames && !IsBuiltIn(builtInNames[b])
      requires GenerateClass(schema) == Success(Some(c))
      ensures StartsWith(RegisterLine(c), "Parse.Object" + ".registerSubclass(\"" + builtInNames[b] + "\",")
    {
      var reg := GetBaseClass(c.className) + ".registerSubclass(\"" + c.className + "\",";
      PrefixOfAppend(reg, RegisterLine(c)[|reg|..]);
    }

    /** `generateAttributes`: the loop over `Object.entries(schema.fields)`. */
    method GenerateAttributes(schema: RestSchema) returns (r: Result<Attributes>)
      ensures r == AttributesOf(schema.className, schema.fields)
    {
      var fields := schema.fields;
      var props: seq<string> := [];
      var defaultValues: seq<string> := [];
      var i := 0;
      while i < |fields|
        invariant 0 <= i <= |fields|
        invariant AttributesOf(schema.className, fields[..i]) == Success(Attributes(props, defaultValues))
      {
        var f := fields[i];
        ghost var before := Attributes(props, defaultValues);
        NextField(schema.className, fields, i, before);
        if !IsCommonField(f.name) {
          var fieldType := FieldTypeText(schema.className, f.details);
          if fieldType.Failure? {
            FailurePersists(schema.className, fields, i + 1);
            return Failure(fieldType.error);
          }
          props := props + [AttributeLine(f, fieldType.value)];
          if f.details.required {
            defaultValues := defaultValues + [DefaultLine(f, loadDate)];
          }
          assert defaultValues == before.defaultValues + if f.details.required then [DefaultLine(f, loadDate)] else [];
          StepAppends(schema.className, before, f, fieldType.value);
        }
        i := i + 1;
      }
      assert fields[..i] == fields;
      r := Success(Attributes(props, defaultValues));
    }

    /**
     * `generateClass`: nothing for a built-in without a recorded override;
     * otherwise the class under its resolved name, or the error its fields throw.
     */
    function GenerateClass(schema: RestSchema): (r: Result<Option<ClassData>>)
      ensures r == Success(None) <==> !ShouldEmit(builtInNames, schema.className)
      ensures r.Failure? <==> ShouldEmit(builtInNames, schema.className) && AttributesOf(schema.className, schema.fields).Failure?
      ensures r.Success? && r.value.Some? ==>
        var c := r.value.value;
        && c.className == TargetClassName(builtInNames, schema.className)
        && c.ctor == CreateConstructor(schema.className)
        && Success(Attributes(c.attributes, c.defaultValues)) == AttributesOf(schema.className, schema.fields)
    {
      if !ShouldEmit(builtInNames, schema.className) then Success(None)
      else
        var newName := TargetClassName(builtInNames, schema.className);
        match AttributesOf(schema.className, schema.fields)
        case Failure(e) => Failure(e)
        case Success(a) =>
          Success(Some(ClassData(a.attributes, CreateConstructor(schema.className), a.defaultValues, newName)))
    }

    /** `schemas.map(generateClass).filter(def => def !== null)` */
    function GenerateClasses(schemas: seq<RestSchema>): (r: Result<seq<ClassData>>)
      ensures r.Failure? <==> exists s :: s in schemas && GenerateClass(s).Failure?
      ensures r.Success? ==>
        && |r.value| == |Emitted(builtInNames, schemas)|
        && forall k :: 0 <= k < |r.value| ==>
             GenerateClass(Emitted(builtInNames, schemas)[k]) == Success(Some(r.value[k]))
    {
      if schemas == [] then Success([])
      else
        var init, last := schemas[..|schemas| - 1], schemas[|schemas| - 1];
        assert schemas == init + [last];
        match GenerateClasses(init)
        case Failure(e) => Failure(e)
        case Success(classes) =>
          match GenerateClass(last)
          case Failure(e) => Failure(e)
          case Success(None) => Success(classes)
          case Success(Some(c)) => Success(classes + [c])
    }

    /** `createAttributesFile` without formatting and writing; `helperTypes` is the text of types.d.ts. */
    function CreateAttributesFile(schemas: seq<RestSchema>, helperTypes: string): (r: Result<AttributesFile>)
      ensures r.Failure? <==> GenerateClasses(schemas).Failure?
      ensures r.Success? ==>
        && r.value.classes == GenerateClasses(schemas).value
        && r.value.text == AttributesFileText(helperTypes, r.value.classes)
    {
      match GenerateClasses(schemas)
      case Failure(e) => Failure(e)
      case Success(classes) => Success(AttributesFile(AttributesFileText(helperTypes, classes), classes))
    }

    /**
     * `createTsClassesFile` without formatting and writing: one class
     * definition, one registration and one export per class, in order.
     * `relative` is `path.relative` from the class file's directory to the
     * attributes file.
     */
    method CreateTsClassesFile(file: AttributesFile, relative: string, env: Env) returns (output: string)
      ensures var classes := file.classes;
        output == ClassesFileText(env,
          AttributesImport(classes, ImportPath.RelativeImportPath(relative)),
          seq(|classes|, i requires 0 <= i < |classes| => ClassDef(classes[i])),
          seq(|classes|, i requires 0 <= i < |classes| => RegisterLine(classes[i])),
          seq(|classes|, i requires 0 <= i < |classes| => classes[i].className))
    {
      var classes := file.classes;
      var toExport: seq<string> := [];
      var toRegister: seq<string> := [];
      var classDefs: seq<string> := [];
      for i := 0 to |classes|
        invariant toExport == seq(i, k requires 0 <= k < i => classes[k].className)
        invariant toRegister == seq(i, k requires 0 <= k < i => RegisterLine(classes[k]))
        invariant classDefs == seq(i, k requires 0 <= k < i => ClassDef(classes[k]))
      {
        var classData := classes[i];
        toExport := toExport + [classData.className];
        var baseClass := GetBaseClass(classData.className);
        toRegister := toRegister + [baseClass + ".registerSubclass(\"" + classData.className + "\"," + (classData.className + ");")];
        classDefs := classDefs + [ClassDef(classData)];
      }
      var attrsRelativePath := ImportPath.RelativeImportPath(relative);
      var attrsImport := AttributesImport(classes, attrsRelativePath);
      output := ClassesFileText(env, attrsImport, classDefs, toRegister, toExport);
    }
  }
}
