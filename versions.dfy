/**
 * The current generator (src/generate-new.ts) against the earlier one
 * (src/generate.ts), both built from the same override map: where their
 * results agree and where they differ.
 */
module Versions {
  import opened Results
  import opened Strings
  import opened BuiltIns
  import opened Schema
  import New = GenerateNew
  import Old = Generate

  /** Both generators were built from the same override map and module-load date. */
  predicate SameSetup(n: New.ParseClassGenerator, o: Old.ParseClassGenerator)
  {
    n.builtInNames == o.builtInNames && n.loadDate == o.loadDate
  }

  /** Generators constructed from the same override map record the same names. */
  lemma SameOverridesSameNames(modified: map<BuiltIn, Override>, n: New.ParseClassGenerator, o: Old.ParseClassGenerator)
    requires Records(modified, n.builtInNames) && Records(modified, o.builtInNames)
    ensures n.builtInNames == o.builtInNames
  {
    RecordsDetermineNames(modified, n.builtInNames, o.builtInNames);
  }

  /**
   * Both skip the same classes and both throw on the same schemas: exactly
   * those with a Pointer or Relation field, other than ACL, createdAt and
   * updatedAt, that lacks a target class.
   */
  lemma SameSkipsAndFailures(n: New.ParseClassGenerator, o: Old.ParseClassGenerator, schema: RestSchema)
    requires SameSetup(n, o)
    ensures n.GenerateClass(schema) == Success(None) <==> o.ClassOf(schema) == Success(None)
    ensures n.GenerateClass(schema).Failure? <==> o.ClassOf(schema).Failure?
    ensures n.GenerateClass(schema).Failure? <==>
      ShouldEmit(n.builtInNames, schema.className) && exists f :: f in Kept(schema.fields) && LacksTarget(f.details)
  {
    n.AttributesOfFails(schema.className, schema.fields);
    o.PropsOfFails(schema.fields);
  }

  /** Where neither throws, both write the same default-value lines. */
  lemma SameDefaults(n: New.ParseClassGenerator, o: Old.ParseClassGenerator, className: string, fields: seq<Field>)
    requires SameSetup(n, o)
    requires forall f :: f in Kept(fields) ==> !LacksTarget(f.details)
    ensures n.AttributesOf(className, fields).Success? && o.PropsOf(fields).Success?
    ensures n.AttributesOf(className, fields).value.defaultValues == o.PropsOf(fields).value.defaultValues
  {
    n.DefaultLinesInOrder(className, fields);
    o.DefaultLinesInOrder(fields);
  }

  /**
   * `_Role` and `_Session` get the same constructor from both; `_User` and
   * every class that is not built-in get a different one, since only the
   * current generator gives them an `attrs` parameter.
   */
  lemma ConstructorsCompared(n: New.ParseClassGenerator, o: Old.ParseClassGenerator, className: string)
    requires SameSetup(n, o)
    ensures className == "_Role" || className == "_Session" ==> n.CreateConstructor(className) == o.CreateConstructor(className)
    ensures className == "_User" || !IsBuiltIn(className) ==> n.CreateConstructor(className) != o.CreateConstructor(className)
  {
    var name := TargetClassName(n.builtInNames, className);
    if className == "_User" {
      ConstructorTextsDiffer("attrs = {}", "{..." + name + ".DEFAULT_VALUES, ...attrs}", name + ".DEFAULT_VALUES");
    } else if !IsBuiltIn(className) {
      var params := "attrs:" + className + "Attributes = {}";
      assert params[0] == 'a';
      ConstructorTextsDiffer(params, "\"" + className + "\", {..." + className + ".DEFAULT_VALUES, ...attrs}",
                             "\"" + className + "\", " + className + ".DEFAULT_VALUES");
    }
  }

  /**
   * A Relation field with a target class is a nullable `Parse.Relation` in
   * the current generator and, through the missing `break`, a
   * `SerializableArray` in the earlier one.
   */
  lemma RelationsCompared(n: New.ParseClassGenerator, o: Old.ParseClassGenerator, className: string, d: FieldDetails)
    requires d.kind == Relation && !MissingTarget(d.targetClass)
    ensures n.FieldTypeText(className, d).Success? && o.FieldTypeText(d).Success?
    ensures StartsWith(n.FieldTypeText(className, d).value, "Parse.Relation<")
    ensures EndsWith(n.FieldTypeText(className, d).value, " | null")
    ensures o.FieldTypeText(d).value == "SerializableArray"
  {
    var t := n.FieldTypeText(className, d).value;
    PrefixOfAppend("Parse.Relation<", t[15..]);
  }

  /**
   * An optional Pointer to a user class: the current generator drops the
   * `| null` and names the attributes interface, the earlier one keeps the
   * bare target and its `| null`.
   */
  lemma OptionalPointersCompared(n: New.ParseClassGenerator, o: Old.ParseClassGenerator, className: string,
                                 f: Field, target: string)
    requires SameSetup(n, o)
    requires f.details.kind == Pointer && f.details.targetClass == Some(target) && !f.details.required
    requires target != "" && !IsBuiltIn(target) && '|' !in target
    ensures n.LineFor(className, f) == f.name + "?: " + ("Parse.Object<" + target + "Attributes>") + ";"
    ensures Old.PropLine(f, o.FieldTypeText(f.details).value) == f.name + "?: " + target + " | null" + ";"
  {
    n.OptionalPointerLine(className, f, target);
  }

  /**
   * A built-in renamed to a name that is not built-in: the current class file
   * has it extend `Parse.Object`, the earlier file keeps its SDK class.
   */
  lemma RenamedBuiltInCompared(n: New.ParseClassGenerator, o: Old.ParseClassGenerator, schema: RestSchema, b: BuiltIn)
    requires SameSetup(n, o)
    requires schema.className == ClassName(b) && b in n.builtInNames && !IsBuiltIn(n.builtInNames[b])
    requires n.GenerateClass(schema).Success?
    ensures o.ClassOf(schema).Success? && o.ClassOf(schema).value.Some?
    ensures StartsWith(New.ClassDef(n.GenerateClass(schema).value.value),
                       "class " + n.builtInNames[b] + " extends " + "Parse.Object" + "<")
    ensures StartsWith(o.ClassOf(schema).value.value, Old.ClassHeader(n.builtInNames[b], BaseClassOf(b)))
  {
    assert AsBuiltIn(schema.className) == Some(b);
    SameSkipsAndFailures(n, o, schema);
    n.RenamedBuiltInExtendsObject(schema, b, n.GenerateClass(schema).value.value);
    o.ClassHeaderFirst(schema);
  }
}
