/**
 * The earlier generator (src/generate.ts): a `ParseClassGenerator` that
 * holds the server credentials and writes one file in which every class
 * carries its attributes inline. Name resolution, the skipped fields and the
 * default values are those of the current generator; the field types, the
 * constructors and the registration differ.
 */
module Generate {
  import opened Results
  import opened Strings
  import opened BuiltIns
  import opened Schema

  /** The property lines and default-value lines of one class, in field order. */
  datatype Props = Props(props: seq<string>, defaultValues: seq<string>)

  /** What `generateClasses` collects: class texts, registrations and exports, in schema order. */
  datatype Registry = Registry(defs: seq<string>, registers: seq<string>, exports: seq<string>)

  /** A property line: `name: type;` or `name?: type;`, the type kept as it is. */
  function PropLine(f: Field, fieldType: string): string
  {
    f.name + (if f.details.required then "" else "?") + ": " + fieldType + ";"
  }

  /** The first line of the text `generateClass` returns. */
  function ClassHeader(newName: string, baseClass: string): string
  {
    "\n    class " + newName + " extends " + baseClass + "<{\n"
  }

  /** The opening of `static DEFAULT_VALUES` up to its closing brace: the default lines, comma-separated. */
  function DefaultsBlock(defaultValues: seq<string>): string
  {
    "static DEFAULT_VALUES = {" + "\n      " + Join(defaultValues, ",\n")
  }

  /** What follows the property lines in the text `generateClass` returns. */
  function ClassTail(p: Props, ctor: string): string
  {
    "}> {\n    " + DefaultsBlock(p.defaultValues) + "\n    };\n    \n    " + ctor + "\n    }\n  "
  }

  /** The text `generateClass` returns for a class it does not skip. */
  function ClassText(newName: string, baseClass: string, p: Props, ctor: string): string
  {
    ClassHeader(newName, baseClass) + (Join(p.props, "\n") + ClassTail(p, ctor))
  }

  /** A registration: the base class follows the schema's own name, the registered name the resolved one. */
  function RegisterLine(newName: string, className: string): string
  {
    GetBaseClass(className) + ".registerSubclass(\"" + newName + "\"," + newName + ");"
  }

  /** The output of `generateClasses` before formatting; `helperTypes` is the text of types.d.ts. */
  function OutputText(helperTypes: string, reg: Registry): string
  {
    "import Parse from 'parse'" + "\n\n\n    " + helperTypes + "\n\n\n    " + Join(reg.defs, "\n")
    + "\n    export const registerAll = ()=>{" + Join(reg.registers, "\n") + "};\n\n    export { "
    + Join(reg.exports, ", ") + " };\n"
  }

  class ParseClassGenerator {
    const appId: string
    const masterKey: string
    const serverUrl: string
    /** `builtInNames`: the recorded name of each overridden built-in. */
    const builtInNames: map<BuiltIn, string>
    /** The text of the `new Date()` in `DEFAULT_VALUES`, taken when the module was loaded. */
    const loadDate: string

    /** The credentials are stored as given; an absent `modifiedClasses` records nothing. */
    constructor (appId: string, masterKey: string, serverUrl: string,
                 modifiedClasses: map<BuiltIn, Override>, loadDate: string)
      ensures this.appId == appId && this.masterKey == masterKey && this.serverUrl == serverUrl
      ensures Records(modifiedClasses, builtInNames)
      ensures forall b :: b in builtInNames ==> builtInNames[b] != ""
      ensures this.loadDate == loadDate
    {
      this.appId := appId;
      this.masterKey := masterKey;
      this.serverUrl := serverUrl;
      var names := RecordBuiltInNames(modifiedClasses);
      builtInNames := names;
      this.loadDate := loadDate;
    }

    /**
     * `createConstructor`: `_User` and `_Session` pass their defaults alone,
     * `_Role` takes an ACL, and any other class passes its resolved name and
     * the defaults of the class named as in the schema.
     */
    function CreateConstructor(className: string): (r: string)
      ensures var n := TargetClassName(builtInNames, className);
        && (className == "_User" || className == "_Session" ==> r == ConstructorText("", n + ".DEFAULT_VALUES"))
        && (className == "_Role" ==> r == ConstructorText("ACL: Parse.ACL = new Parse.ACL()", "\"" + n + "\", ACL"))
        && (!IsBuiltIn(className) ==>
              r == ConstructorText("", "\"" + className + "\", " + className + ".DEFAULT_VALUES"))
    {
      var newName := TargetClassName(builtInNames, className);
      if className == "_User" then
        ConstructorText("", newName + ".DEFAULT_VALUES")
      else if className == "_Role" then
        ConstructorText("ACL: Parse.ACL = new Parse.ACL()", "\"" + newName + "\", ACL")
      else if className == "_Session" then
        ConstructorText("", newName + ".DEFAULT_VALUES")
      else
        ConstructorText("", "\"" + newName + "\", " + className + ".DEFAULT_VALUES")
    }

    /** `getPointerType`: the resolved target name, nullable. */
    function PointerType(targetClass: Option<string>): (r: Result<string>)
      ensures r.Failure? <==> MissingTarget(targetClass)
      ensures r.Failure? ==> r.error == TargetClassRequired
      ensures r.Success? && !IsBuiltIn(targetClass.value) ==> r.value == targetClass.value + " | null"
      ensures forall b :: r.Success? && targetClass.value == ClassName(b) && b in builtInNames ==>
        r.value == builtInNames[b] + " | null"
      ensures forall b :: r.Success? && targetClass.value == ClassName(b) && b !in builtInNames ==>
        r.value == BaseClassOf(b) + " | null"
    {
      if MissingTarget(targetClass) then Failure(TargetClassRequired)
      else Success(TargetClassName(builtInNames, targetClass.value) + " | null")
    }

    /** `getRelationType`: parameterised by the resolved target name alone. */
    function RelationType(targetClass: Option<string>): (r: Result<string>)
      ensures r.Failure? <==> MissingTarget(targetClass)
      ensures r.Failure? ==> r.error == TargetClassRequired
      ensures r.Success? ==> StartsWith(r.value, "Parse.Relation<") && EndsWith(r.value, "> | null")
    {
      if MissingTarget(targetClass) then Failure(TargetClassRequired)
      else
        var targetClassName := TargetClassName(builtInNames, targetClass.value);
        var t := "Parse.Relation<" + targetClassName + "> | null";
        assert t[..15] == "Parse.Relation<";
        assert t[|t| - 8..] == "> | null";
        Success(t)
    }

    /**
     * The `switch` of `generateClass`. The Relation case has no `break`: the
     * relation type is computed (and a missing target throws) but the Array
     * case then overwrites it. There is no Polygon case.
     */
    function FieldTypeText(d: FieldDetails): (r: Result<string>)
      ensures r.Failure? <==> LacksTarget(d)
      ensures r.Failure? ==> r.error == TargetClassRequired
      ensures d.kind.Pointer? ==> r == PointerType(d.targetClass)
      ensures d.kind.Relation? && r.Success? ==> r.value == "SerializableArray"
      ensures d.kind.Polygon? || d.kind.Unknown? ==> r == Success("any")
      ensures d.kind == Number ==> r == Success("number")
      ensures d.kind == String ==> r == Success("string")
      ensures d.kind == Boolean ==> r == Success("boolean")
      ensures d.kind == Date ==> r == Success("Date")
      ensures d.kind == Array ==> r == Success("SerializableArray")
      ensures d.kind == Object ==> r == Success("SerializableObject")
      ensures d.kind == File ==> r == Success("Parse.File | null")
      ensures d.kind == GeoPoint ==> r == Success("Parse.GeoPoint")
    {
      match d.kind
      case Number => Success("number")
      case String => Success("string")
      case Boolean => Success("boolean")
      case Date => Success("Date")
      case Pointer => PointerType(d.targetClass)
      case Relation =>
        (match RelationType(d.targetClass)
         case Failure(e) => Failure(e)
         case Success(_) => Success("SerializableArray"))
      case Array => Success("SerializableArray")
      case Object => Success("SerializableObject")
      case File => Success("Parse.File | null")
      case GeoPoint => Success("Parse.GeoPoint")
      case _ => Success("any")
    }

    /** One iteration of `generateClass`' loop. */
    function Step(acc: Props, f: Field): Result<Props>
    {
      if IsCommonField(f.name) then Success(acc)
      else
        match FieldTypeText(f.details)
        case Failure(e) => Failure(e)
        case Success(t) =>
          Success(Props(
            acc.props + [PropLine(f, t)],
            acc.defaultValues + if f.details.required then [DefaultLine(f, loadDate)] else []))
    }

    lemma StepAppends(acc: Props, f: Field, t: string)
      requires !IsCommonField(f.name) && FieldTypeText(f.details) == Success(t)
      ensures Step(acc, f) == Success(Props(
        acc.props + [PropLine(f, t)],
        acc.defaultValues + if f.details.required then [DefaultLine(f, loadDate)] else []))
    {
    }

    /** The loop of `generateClass` after `i` fields takes one more step. */
    lemma NextField(fields: seq<Field>, i: nat, acc: Props)
      requires i < |fields| && PropsOf(fields[..i]) == Success(acc)
      ensures PropsOf(fields[..i + 1]) == Step(acc, fields[i])
    {
      assert fields[..i + 1][..i] == fields[..i];
    }

    /** What the loop of `generateClass` collects for the given fields, or the error it throws. */
    function PropsOf(fields: seq<Field>): Result<Props>
    {
      if fields == [] then Success(Props([], []))
      else
        match PropsOf(fields[..|fields| - 1])
        case Failure(e) => Failure(e)
        case Success(acc) => Step(acc, fields[|fields| - 1])
    }

    lemma PropsOfSnoc(init: seq<Field>, last: Field)
      ensures PropsOf(init).Failure? ==> PropsOf(init + [last]) == PropsOf(init)
      ensures PropsOf(init).Success? ==> PropsOf(init + [last]) == Step(PropsOf(init).value, last)
    {
      assert (init + [last])[..|init|] == init;
    }

    /**
     * The loop throws exactly when one of the fields other than ACL,
     * createdAt and updatedAt is a Pointer or Relation without a target class.
     */
    lemma {:induction false} PropsOfFails(fields: seq<Field>)
      ensures PropsOf(fields).Success? <==> forall f :: f in Kept(fields) ==> !LacksTarget(f.details)
      ensures PropsOf(fields).Failure? ==> PropsOf(fields).error == TargetClassRequired
    {
      if fields != [] {
        var init, last := fields[..|fields| - 1], fields[|fields| - 1];
        assert fields == init + [last];
        PropsOfFails(init);
        PropsOfSnoc(init, last);
        KeptSnoc(init, last);
      }
    }

    /**
     * One property line per field other than ACL, createdAt and updatedAt, in
     * field order, with `?` exactly on the optional ones and the type verbatim.
     */
    lemma {:induction false} PropLinesInOrder(fields: seq<Field>)
      requires forall f :: f in Kept(fields) ==> !LacksTarget(f.details)
      ensures PropsOf(fields).Success?
      ensures var p := PropsOf(fields).value;
        && |p.props| == |Kept(fields)|
        && forall k :: 0 <= k < |p.props| ==>
             p.props[k] == PropLine(Kept(fields)[k], FieldTypeText(Kept(fields)[k].details).value)
    {
      if fields != [] {
        var init, last := fields[..|fields| - 1], fields[|fields| - 1];
        assert fields == init + [last];
        KeptSnoc(init, last);
        PropsOfSnoc(init, last);
        PropLinesInOrder(init);
      }
    }

    /** One default line per required field other than ACL, createdAt and updatedAt, in field order. */
    lemma {:induction false} DefaultLinesInOrder(fields: seq<Field>)
      requires forall f :: f in Kept(fields) ==> !LacksTarget(f.details)
      ensures PropsOf(fields).Success?
      ensures var p := PropsOf(fields).value;
        && |p.defaultValues| == |RequiredFields(Kept(fields))|
        && forall k :: 0 <= k < |p.defaultValues| ==>
             p.defaultValues[k] == DefaultLine(RequiredFields(Kept(fields))[k], loadDate)
    {
      if fields != [] {
        var init, last := fields[..|fields| - 1], fields[|fields| - 1];
        assert fields == init + [last];
        KeptSnoc(init, last);
        PropsOfSnoc(init, last);
        DefaultLinesInOrder(init);
        if !IsCommonField(last.name) {
          RequiredSnoc(Kept(init), last);
        } else {
          assert Kept(fields) == Kept(init);
        }
      }
    }

    /** Once a prefix of the fields throws, so do all the fields. */
    lemma {:induction false} FailurePersists(fields: seq<Field>, k: nat)
      requires k <= |fields|
      requires PropsOf(fields[..k]).Failure?
      ensures PropsOf(fields) == PropsOf(fields[..k])
      decreases |fields| - k
    {
      if k < |fields| {
        assert fields[..k + 1][..k] == fields[..k];
        FailurePersists(fields, k + 1);
      } else {
        assert fields[..k] == fields;
      }
    }

    /**
     * What `generateClass` returns: nothing for a built-in without a recorded
     * override, otherwise the class text under the resolved name, extending
     * the base class of the schema's own name, or the error a field throws.
     */
    function ClassOf(schema: RestSchema): (r: Result<Option<string>>)
      ensures r == Success(None) <==> !ShouldEmit(builtInNames, schema.className)
      ensures r.Failure? <==> ShouldEmit(builtInNames, schema.className) && PropsOf(schema.fields).Failure?
    {
      if !ShouldEmit(builtInNames, schema.className) then Success(None)
      else
        match PropsOf(schema.fields)
        case Failure(e) => Failure(e)
        case Success(p) =>
          var newName := TargetClassName(builtInNames, schema.className);
          var baseClass := GetBaseClass(schema.className);
          Success(Some(ClassText(newName, baseClass, p, CreateConstructor(schema.className))))
    }

    /**
     * A generated class is declared under the resolved name and extends the
     * base class of the schema's own name.
     */
    lemma ClassHeaderFirst(schema: RestSchema)
      requires ClassOf(schema).Success? && ClassOf(schema).value.Some?
      ensures StartsWith(ClassOf(schema).value.value,
                         ClassHeader(TargetClassName(builtInNames, schema.className), GetBaseClass(schema.className)))
    {
      var p := PropsOf(schema.fields).value;
      PrefixOfAppend(ClassHeader(TargetClassName(builtInNames, schema.className), GetBaseClass(schema.className)),
                     Join(p.props, "\n") + ClassTail(p, CreateConstructor(schema.className)));
    }

    /** Every property line of a generated class appears in its text. */
    lemma ClassListsProps(schema: RestSchema, k: nat)
      requires ClassOf(schema).Success? && ClassOf(schema).value.Some?
      requires k < |PropsOf(schema.fields).value.props|
      ensures Contains(ClassOf(schema).value.value, PropsOf(schema.fields).value.props[k])
    {
      var p := PropsOf(schema.fields).value;
      var header := ClassHeader(TargetClassName(builtInNames, schema.className), GetBaseClass(schema.className));
      var tail := ClassTail(p, CreateConstructor(schema.className));
      var text := ClassOf(schema).value.value;
      PrefixContained(Join(p.props, "\n"), tail);
      SuffixContained(header, Join(p.props, "\n") + tail);
      ContainsTransitive(text, Join(p.props, "\n") + tail, Join(p.props, "\n"));
      JoinContains(p.props, "\n", k);
      ContainsTransitive(text, Join(p.props, "\n"), p.props[k]);
    }

    /** The class text ends with the text `ClassTail` builds, right after its property lines. */
    lemma ClassEndsWithTail(schema: RestSchema)
      requires ClassOf(schema).Success? && ClassOf(schema).value.Some?
      ensures EndsWith(ClassOf(schema).value.value, ClassTail(PropsOf(schema.fields).value, CreateConstructor(schema.className)))
      ensures Contains(ClassOf(schema).value.value, ClassTail(PropsOf(schema.fields).value, CreateConstructor(schema.className)))
    {
      var p := PropsOf(schema.fields).value;
      var header := ClassHeader(TargetClassName(builtInNames, schema.className), GetBaseClass(schema.className));
      var tail := ClassTail(p, CreateConstructor(schema.className));
      var text := ClassOf(schema).value.value;
      assert text == header + Join(p.props, "\n") + tail;
      SuffixOfAppend(header + Join(p.props, "\n"), tail);
      SuffixContained(header + Join(p.props, "\n"), tail);
    }

    /**
     * The class text holds its `DEFAULT_VALUES` block, and every default line
     * of the class lies inside that block.
     */
    lemma ClassListsDefaults(schema: RestSchema, k: nat)
      requires ClassOf(schema).Success? && ClassOf(schema).value.Some?
      requires k < |PropsOf(schema.fields).value.defaultValues|
      ensures Contains(ClassOf(schema).value.value, DefaultsBlock(PropsOf(schema.fields).value.defaultValues))
      ensures Contains(DefaultsBlock(PropsOf(schema.fields).value.defaultValues), PropsOf(schema.fields).value.defaultValues[k])
    {
      var p := PropsOf(schema.fields).value;
      var ctor := CreateConstructor(schema.className);
      var text := ClassOf(schema).value.value;
      var block := DefaultsBlock(p.defaultValues);
      var head := "}> {\n    " + block;
      var body := head + "\n    };\n    \n    ";
      var tail := body + ctor + "\n    }\n  ";
      assert tail == ClassTail(p, ctor);
      ClassEndsWithTail(schema);
      PrefixContained(body + ctor, "\n    }\n  ");
      PrefixContained(body, ctor);
      ContainsTransitive(tail, body + ctor, body);
      PrefixContained(head, "\n    };\n    \n    ");
      ContainsTransitive(tail, body, head);
      ContainsTransitive(text, tail, head);
      SuffixContained("}> {\n    ", block);
      ContainsTransitive(text, head, block);
      var defaults := Join(p.defaultValues, ",\n");
      SuffixContained("static DEFAULT_VALUES = {" + "\n      ", defaults);
      JoinContains(p.defaultValues, ",\n", k);
      ContainsTransitive(block, defaults, p.defaultValues[k]);
    }

    /** The constructor `createConstructor` builds for the schema appears in the class text. */
    lemma ClassHasConstructor(schema: RestSchema)
      requires ClassOf(schema).Success? && ClassOf(schema).value.Some?
      ensures Contains(ClassOf(schema).value.value, CreateConstructor(schema.className))
    {
      var p := PropsOf(schema.fields).value;
      var ctor := CreateConstructor(schema.className);
      ClassEndsWithTail(schema);
      ContainsInfix("}> {\n    " + DefaultsBlock(p.defaultValues) + "\n    };\n    \n    ", ctor, "\n    }\n  ");
      ContainsTransitive(ClassOf(schema).value.value, ClassTail(p, ctor), ctor);
    }

    /** `generateClass`: the loop over `Object.entries(schema.fields)` and the class template. */
    method GenerateClass(schema: RestSchema) returns (r: Result<Option<string>>)
      ensures r == ClassOf(schema)
    {
      var className := schema.className;
      if IsBuiltIn(className) && AsBuiltIn(className).value !in builtInNames {
        return Success(None);
      }
      var baseClass := GetBaseClass(className);
      var fields := schema.fields;
      var props: seq<string> := [];
      var defaultValues: seq<string> := [];
      var i := 0;
      while i < |fields|
        invariant 0 <= i <= |fields|
        invariant PropsOf(fields[..i]) == Success(Props(props, defaultValues))
      {
        var f := fields[i];
        ghost var before := Props(props, defaultValues);
        NextField(fields, i, before);
        if !IsCommonField(f.name) {
          var fieldType := FieldTypeText(f.details);
          if fieldType.Failure? {
            FailurePersists(fields, i + 1);
            return Failure(fieldType.error);
          }
          props := props + [PropLine(f, fieldType.value)];
          if f.details.required {
            defaultValues := defaultValues + [DefaultLine(f, loadDate)];
          }
          assert defaultValues == before.defaultValues + if f.details.required then [DefaultLine(f, loadDate)] else [];
          StepAppends(before, f, fieldType.value);
        }
        i := i + 1;
      }
      assert fields[..i] == fields;
      var newName := TargetClassName(builtInNames, className);
      r := Success(Some(ClassText(newName, baseClass, Props(props, defaultValues), CreateConstructor(className))));
    }

    /** `!this.appId || !this.masterKey || !this.serverUrl` */
    predicate MissingCredentials()
    {
      appId == "" || masterKey == "" || serverUrl == ""
    }

    /** What the `map` of `generateClasses` collects for the given schemas, or the error it throws. */
    function RegistryOf(schemas: seq<RestSchema>): Result<Registry>
    {
      if schemas == [] then Success(Registry([], [], []))
      else
        var last := schemas[|schemas| - 1];
        match RegistryOf(schemas[..|schemas| - 1])
        case Failure(e) => Failure(e)
        case Success(acc) =>
          match ClassOf(last)
          case Failure(e) => Failure(e)
          case Success(None) => Success(acc)
          case Success(Some(def)) =>
            var newName := TargetClassName(builtInNames, last.className);
            Success(Registry(acc.defs + [def], acc.registers + [RegisterLine(newName, last.className)],
                             acc.exports + [newName]))
    }

    lemma RegistryOfSnoc(init: seq<RestSchema>, last: RestSchema)
      ensures RegistryOf(init).Failure? ==> RegistryOf(init + [last]) == RegistryOf(init)
      ensures RegistryOf(init).Success? && ClassOf(last).Failure? ==>
        RegistryOf(init + [last]) == Failure(ClassOf(last).error)
      ensures RegistryOf(init).Success? && ClassOf(last) == Success(None) ==>
        RegistryOf(init + [last]) == RegistryOf(init)
      ensures RegistryOf(init).Success? && ClassOf(last).Success? && ClassOf(last).value.Some? ==>
        var acc := RegistryOf(init).value;
        var newName := TargetClassName(builtInNames, last.className);
        RegistryOf(init + [last]) ==
          Success(Registry(acc.defs + [ClassOf(last).value.value],
                           acc.registers + [RegisterLine(newName, last.className)],
                           acc.exports + [newName]))
    {
      assert (init + [last])[..|init|] == init;
    }

    /** The schemas throw together exactly when one of them throws on its own. */
    lemma {:induction false} RegistryFails(schemas: seq<RestSchema>)
      ensures RegistryOf(schemas).Failure? <==> exists s :: s in schemas && ClassOf(s).Failure?
      ensures RegistryOf(schemas).Failure? ==> RegistryOf(schemas).error == TargetClassRequired
    {
      if schemas != [] {
        var init, last := schemas[..|schemas| - 1], schemas[|schemas| - 1];
        assert schemas == init + [last];
        RegistryFails(init);
        RegistryOfSnoc(init, last);
        PropsOfFails(last.fields);
        if RegistryOf(init).Failure? {
          var s :| s in init && ClassOf(s).Failure?;
          assert s in schemas;
        }
      }
    }

    /** One class text, one registration and one export per schema that is not skipped. */
    lemma {:induction false} RegistryLengths(schemas: seq<RestSchema>)
      requires RegistryOf(schemas).Success?
      ensures var reg := RegistryOf(schemas).value;
        |reg.defs| == |reg.registers| == |reg.exports| == |Emitted(builtInNames, schemas)|
    {
      if schemas != [] {
        var init, last := schemas[..|schemas| - 1], schemas[|schemas| - 1];
        assert schemas == init + [last];
        RegistryOfSnoc(init, last);
        RegistryLengths(init);
        assert Emitted(builtInNames, schemas) ==
          Emitted(builtInNames, init) + if ShouldEmit(builtInNames, last.className) then [last] else [];
        if ShouldEmit(builtInNames, last.className) {
          RegistryAppend(init, last);
        } else {
          assert RegistryOf(schemas) == RegistryOf(init);
        }
      }
    }

    /**
     * Entry `k` of what `generateClasses` collected belongs to schema `s`: the
     * class text is `s`'s, the export is its resolved name, and the
     * registration uses the base class of its own name.
     */
    predicate EntryFor(reg: Registry, k: nat, s: RestSchema)
    {
      && k < |reg.defs| && k < |reg.exports| && k < |reg.registers|
      && Success(Some(reg.defs[k])) == ClassOf(s)
      && reg.exports[k] == TargetClassName(builtInNames, s.className)
      && reg.registers[k] == RegisterLine(reg.exports[k], s.className)
    }

    /** The `k`th entry collected belongs to the `k`th schema that is not skipped. */
    lemma {:induction false} RegistryInOrder(schemas: seq<RestSchema>, k: nat)
      requires RegistryOf(schemas).Success?
      requires k < |Emitted(builtInNames, schemas)|
      ensures var reg := RegistryOf(schemas).value;
        |reg.defs| == |reg.registers| == |reg.exports| == |Emitted(builtInNames, schemas)|
      ensures EntryFor(RegistryOf(schemas).value, k, Emitted(builtInNames, schemas)[k])
    {
      RegistryLengths(schemas);
      if k < |Emitted(builtInNames, schemas[..|schemas| - 1])| {
        RegistryInOrder(schemas[..|schemas| - 1], k);
        RegistryKeepsPrefix(schemas, k);
      } else {
        RegistryAddsLast(schemas);
      }
    }

    /** Adding a schema leaves the entries collected for the earlier ones alone. */
    lemma RegistryKeepsPrefix(schemas: seq<RestSchema>, k: nat)
      requires schemas != [] && RegistryOf(schemas).Success?
      requires RegistryOf(schemas[..|schemas| - 1]).Success?
      requires k < |Emitted(builtInNames, schemas[..|schemas| - 1])|
      requires EntryFor(RegistryOf(schemas[..|schemas| - 1]).value, k, Emitted(builtInNames, schemas[..|schemas| - 1])[k])
      ensures EntryFor(RegistryOf(schemas).value, k, Emitted(builtInNames, schemas)[k])
    {
      var init, last := schemas[..|schemas| - 1], schemas[|schemas| - 1];
      var reg, acc := RegistryOf(schemas).value, RegistryOf(init).value;
      RegistryLengths(init);
      if ShouldEmit(builtInNames, last.className) {
        assert ClassOf(last).Success? && ClassOf(last).value.Some?;
        assert reg.defs[k] == acc.defs[k] && reg.exports[k] == acc.exports[k] && reg.registers[k] == acc.registers[k];
      } else {
        assert ClassOf(last) == Success(None);
        assert reg == acc;
      }
      assert Emitted(builtInNames, schemas)[k] == Emitted(builtInNames, init)[k];
    }

    /** A schema that is not skipped adds its entries at the end. */
    lemma RegistryAddsLast(schemas: seq<RestSchema>)
      requires schemas != [] && RegistryOf(schemas).Success?
      requires |Emitted(builtInNames, schemas[..|schemas| - 1])| < |Emitted(builtInNames, schemas)|
      ensures var k := |Emitted(builtInNames, schemas[..|schemas| - 1])|;
        var reg := RegistryOf(schemas).value;
        var s := Emitted(builtInNames, schemas)[k];
        && |reg.defs| == |reg.registers| == |reg.exports| == k + 1
        && s == schemas[|schemas| - 1]
        && EntryFor(reg, k, s)
    {
      var init, last := schemas[..|schemas| - 1], schemas[|schemas| - 1];
      RegistryLengths(init);
      assert ShouldEmit(builtInNames, last.className);
      assert ClassOf(last).Success? && ClassOf(last).value.Some?;
    }

    lemma RegistryAppend(init: seq<RestSchema>, last: RestSchema)
      requires RegistryOf(init + [last]).Success? && ShouldEmit(builtInNames, last.className)
      ensures RegistryOf(init).Success? && ClassOf(last).Success? && ClassOf(last).value.Some?
      ensures var reg, acc := RegistryOf(init + [last]).value, RegistryOf(init).value;
        && reg.defs == acc.defs + [ClassOf(last).value.value]
        && reg.exports == acc.exports + [TargetClassName(builtInNames, last.className)]
        && reg.registers == acc.registers + [RegisterLine(TargetClassName(builtInNames, last.className), last.className)]
    {
      RegistryOfSnoc(init, last);
    }

    /**
     * `generateClasses` without fetching, formatting and writing: it throws on
     * missing credentials before anything else, then maps every schema
     * through `generateClass`, collecting registrations and exports.
     */
    method GenerateClasses(schemas: seq<RestSchema>, helperTypes: string) returns (r: Result<string>)
      ensures MissingCredentials() ==> r == Failure(MissingParameters)
      ensures !MissingCredentials() && RegistryOf(schemas).Failure? ==> r == Failure(RegistryOf(schemas).error)
      ensures !MissingCredentials() && RegistryOf(schemas).Success? ==>
        r == Success(OutputText(helperTypes, RegistryOf(schemas).value))
    {
      if appId == "" || masterKey == "" || serverUrl == "" {
        return Failure(MissingParameters);
      }
      var toExport: seq<string> := [];
      var toRegister: seq<string> := [];
      var classDefinitions: seq<string> := [];
      var i := 0;
      while i < |schemas|
        invariant 0 <= i <= |schemas|
        invariant RegistryOf(schemas[..i]) == Success(Registry(classDefinitions, toRegister, toExport))
      {
        var schema := schemas[i];
        NextSchema(schemas, i);
        var def := GenerateClass(schema);
        if def.Failure? {
          RegistryPersists(schemas, i + 1);
          return Failure(def.error);
        }
        if def.value.Some? {
          ghost var acc := Registry(classDefinitions, toRegister, toExport);
          var targetClassName := TargetClassName(builtInNames, schema.className);
          toExport := toExport + [targetClassName];
          var baseClass := GetBaseClass(schema.className);
          toRegister := toRegister + [baseClass + ".registerSubclass(\"" + targetClassName + "\"," + targetClassName + ");"];
          classDefinitions := classDefinitions + [def.value.value];
          assert Registry(classDefinitions, toRegister, toExport) ==
            Registry(acc.defs + [def.value.value], acc.registers + [RegisterLine(targetClassName, schema.className)],
                     acc.exports + [targetClassName]);
        }
        i := i + 1;
      }
      assert schemas[..i] == schemas;
      r := Success(OutputText(helperTypes, Registry(classDefinitions, toRegister, toExport)));
    }

    /** The loop of `generateClasses` after `i` schemas takes one more step. */
    lemma NextSchema(schemas: seq<RestSchema>, i: nat)
      requires i < |schemas|
      ensures RegistryOf(schemas[..i + 1]) ==
        match RegistryOf(schemas[..i])
        case Failure(e) => Failure(e)
        case Success(acc) =>
          match ClassOf(schemas[i])
          case Failure(e) => Failure(e)
          case Success(None) => Success(acc)
          case Success(Some(def)) =>
            Success(Registry(acc.defs + [def],
                             acc.registers + [RegisterLine(TargetClassName(builtInNames, schemas[i].className), schemas[i].className)],
                             acc.exports + [TargetClassName(builtInNames, schemas[i].className)]))
    {
      assert schemas[..i + 1][..i] == schemas[..i];
    }

    /** Once a prefix of the schemas throws, so do all the schemas. */
    lemma {:induction false} RegistryPersists(schemas: seq<RestSchema>, k: nat)
      requires k <= |schemas|
      requires RegistryOf(schemas[..k]).Failure?
      ensures RegistryOf(schemas) == RegistryOf(schemas[..k])
      decreases |schemas| - k
    {
      if k < |schemas| {
        assert schemas[..k + 1][..k] == schemas[..k];
        RegistryPersists(schemas, k + 1);
      } else {
        assert schemas[..k] == schemas;
      }
    }
  }
}
