# Parse schema to TypeScript: a Dafny model

This project models the translator that turns Parse Server class schemas into TypeScript declarations. The input is a list of schemas, each a class name plus its fields in order. Each field has a type, an optional target class, a `required` flag and an optional default value. There is also an override map for the built-in classes `_User`, `_Role` and `_Session`.

The translator produces:
- one attribute line per field;
- one default-value line per required field;
- a constructor;
- the name under which each class is emitted;
- the text of the generated files.

Two versions are modelled:

- `src/generate-new.ts` is modelled by module `GenerateNew`. Its output is split into an attributes file of `<Name>Attributes` interfaces and a class file. The class file imports those interfaces and registers every class.
- `src/generate.ts` is modelled by module `Generate`. This earlier version writes one file of classes with inline attribute types, after checking its connection parameters.

Shared parts live in their own modules:
- `BuiltIns`: the built-in classes, their SDK base classes, the override map and name resolution. Both versions have the same code for these.
- `Schema`: the schema datatypes, the skipped common fields and default-value synthesis.
- `Strings`: the JavaScript string operations used (`replace` with a string pattern, global single-character `replace`, `join`, `includes`, `startsWith`). `EndsWith`, `OccursAt` and the containment lemmas are helpers for stating properties; the source calls no `endsWith`.
- `ImportPath`: `getRelativeImportPath` from `src/functions.ts`.
- `Versions`: states where the two generators agree and where they differ.

Each generator is a class, `ParseClassGenerator`:
- Its constructor runs a loop over the built-ins to record the override map.
- The per-field loops of `generateAttributes` (new) and `generateClass` (old) are methods, each proved equal to a recursive specification function (`AttributesOf`, `PropsOf`).
- So are the loops that collect class definitions, registrations and exports (`CreateTsClassesFile`, `GenerateClasses`), proved against `ClassesFileText` and `RegistryOf`.
- Lemmas then relate the specification functions to the schema: one line per kept field in order, default lines for required fields only, which schemas are skipped, and exactly when the translator throws.

Thrown errors are `Failure` values carrying one of two errors. Their messages (`Results.Message`) are the source's own.

The model follows the code as written, including these behaviours:
- The new generator drops the first ` | null` (the null union) from **optional** fields. Required fields keep it.
- A Relation is parameterised by the resolved class names, not by attribute interfaces.
- The earlier generator's `Relation` case falls through into `Array`, so a relation field is typed `SerializableArray`.
- In the new class file, the base class comes from the resolved name. So a built-in renamed to a user name extends `Parse.Object`.

## Model

| member | source | states |
|---|---|---|
| BuiltIns.AsBuiltIn | src/generate-new.ts:40-42 | the built-in a name denotes, if any; `None` exactly when no built-in has that schema name |
| BuiltIns.GetBaseClass | src/generate-new.ts:44-48 | a built-in maps to its SDK class; the result is `Parse.Object` exactly when the name is not built-in |
| BuiltIns.RecordBuiltInNames | src/generate-new.ts:65-73 | the constructor's loop records exactly the built-ins with a truthy override; a string is stored as given and `true` stores the class's own name; every recorded name is non-empty |
| BuiltIns.RecordsDetermineNames | src/generate.ts:84-92 | the override map alone decides the recorded names, so generators built from the same overrides resolve alike |
| BuiltIns.TargetClassName | src/generate-new.ts:76-84 | a recorded built-in resolves to its recorded name, an unrecorded one to its SDK class, any other name to itself |
| BuiltIns.ResolveBuiltIn | src/generate-new.ts:62-84 | after construction, a built-in is emitted iff its override is truthy, and it resolves to the string given, its own name for `true`, or its SDK class otherwise |
| Schema.KindOf | src/generate-new.ts:164-201 | a field's `type` string is read as its own arm when it is one of the eleven names the `switch` statements know, and as `Unknown` otherwise; the name read back is the string given |
| Schema.KindOfTypeName | src/generate.ts:189-222 | reading back the name of a well-formed field type gives that type |
| Schema.Kept | src/generate-new.ts:158-161 | the fields that produce output are those of the schema other than ACL, createdAt and updatedAt |
| Schema.RequiredFields | src/generate-new.ts:210 | the fields that get a default line are exactly the required ones |
| Schema.DefaultValue | src/generate-new.ts:211-220 | a String default is the given default (or nothing) between quotes, unescaped; a GeoPoint is the origin; any other type takes its own default, else the module's default table |
| Schema.NullDefaults | src/generate-new.ts:20-23 | a required Pointer or File field without a default gets the line `name: null` |
| Schema.Emitted | src/generate-new.ts:269-271 | the schemas kept after dropping the skipped built-ins, in schema order |
| Schema.ConstructorTextsDiffer | src/generate.ts:109-137 | a constructor that takes a parameter never has the same text as one that takes none |
| ImportPath.RelativeImportPath | src/functions.ts:19-30 | the import path always starts with `.` and holds no backslash; `./` is added exactly when the normalised path does not already start with `.` |
| ImportPath.NormalizedHasNoBackslash | src/functions.ts:22 | after the global replacement, and through both later replacements, no backslash remains |
| ImportPath.DeclarationFileImport | src/functions.ts:23-28 | for a stem `x` without backslashes in which no `.` is followed by `d` or `t`, a file `x.d.ts` or `x.ts` is imported as `x`, with `./` prefixed unless the path starts with `.` |
| ImportPath.NoExtensionUnchanged | src/functions.ts:20-29 | a path without `.ts` changes only in its slashes and, where needed, the `./` prefix |
| ImportPath.TsxImport | src/functions.ts:24 | only the first `.ts` is deleted, so `stem.tsx` is imported as `./stemx` |
| GenerateNew.AttributeLine | src/generate-new.ts:203-208 | a required field is written `name: type;` with the type untouched; a type without the null union is written `name: type;` or `name?: type;` by optionality |
| GenerateNew.NullableStripping | src/generate-new.ts:205-207 | a nullable type keeps its null union on a required field and loses it on an optional one |
| GenerateNew.ImportNamesEveryClass | src/generate-new.ts:331-333 | the class file's import names the attributes interface of every emitted class |
| GenerateNew.InterfaceForEveryClass | src/generate-new.ts:273-282 | the attributes file declares `export interface <Name>Attributes {` for every emitted class |
| GenerateNew.InterfaceForEveryImport | src/generate-new.ts:273-282 | every interface the class file imports is declared in the attributes file |
| GenerateNew.ParseClassGenerator.constructor | src/generate-new.ts:62-74 | the recorded names are exactly those the override map calls for, and none is empty |
| GenerateNew.ParseClassGenerator.CreateConstructor | src/generate-new.ts:86-119 | the constructor is chosen by the original name: `_User` merges `attrs` without a name argument, `_Role` takes an ACL, `_Session` takes nothing, any other class passes its name and merges `attrs` over its defaults |
| GenerateNew.ParseClassGenerator.PointerType | src/generate-new.ts:121-138 | throws iff the target is missing or empty; a user class or renamed built-in gives `<base><<resolved>Attributes>` made nullable, an unrecorded built-in its bare `<base>` made nullable; every result ends in the null union |
| GenerateNew.ParseClassGenerator.RelationType | src/generate-new.ts:140-148 | throws iff the target is missing; otherwise a nullable `Parse.Relation<owner, target>` over the two resolved class names |
| GenerateNew.ParseClassGenerator.FieldTypeText | src/generate-new.ts:164-201 | the type table per field type; Pointer and Relation delegate; an unknown type gives `any`; the result is a failure iff a Pointer or Relation lacks its target |
| GenerateNew.ParseClassGenerator.NullableKinds | src/generate-new.ts:164-201 | a mapped type ends in the null union iff the field is a Pointer, Relation or File |
| GenerateNew.ParseClassGenerator.AnyKinds | src/generate-new.ts:198-200 | a mapped type is `any` iff the field type is the `Unknown` arm, and for a type read by `KindOf` iff its `type` string is none of the eleven names the `switch` knows |
| GenerateNew.ParseClassGenerator.StepAppends | src/generate-new.ts:158-222 | one iteration over a kept field appends exactly one attribute line, and a default line iff the field is required |
| GenerateNew.ParseClassGenerator.AttributesOfFails | src/generate-new.ts:121-147 | attribute generation throws iff some kept field is a Pointer or Relation without a target, and then with the target-class error |
| GenerateNew.ParseClassGenerator.AttributeLinesInOrder | src/generate-new.ts:158-208 | one attribute line per kept field, in schema order, each that field's line |
| GenerateNew.ParseClassGenerator.DefaultLinesInOrder | src/generate-new.ts:210-222 | one default line per required kept field, in schema order |
| GenerateNew.ParseClassGenerator.FailurePersists | src/generate-new.ts:158-223 | once a field throws, the later fields do not matter |
| GenerateNew.ParseClassGenerator.RequiredPointerLine | src/generate-new.ts:136 | a required Pointer to a user class is written `name: Parse.Object<TAttributes>` with the null union kept |
| GenerateNew.ParseClassGenerator.OptionalPointerLine | src/generate-new.ts:136 | an optional Pointer to a user class is written `name?: Parse.Object<TAttributes>;` |
| GenerateNew.ParseClassGenerator.OptionalBuiltInPointerLine | src/generate-new.ts:133 | an optional Pointer to an unrecorded built-in is its bare SDK class, e.g. `author?: Parse.User;` |
| GenerateNew.ParseClassGenerator.RenamedBuiltInExtendsObject | src/generate-new.ts:303-308 | a built-in renamed to a user name is emitted under that name and its class extends `Parse.Object` |
| GenerateNew.ParseClassGenerator.RenamedBuiltInRegistersObject | src/generate-new.ts:303-306 | such a class is registered through `Parse.Object.registerSubclass` under its new name |
| GenerateNew.ParseClassGenerator.GenerateAttributes | src/generate-new.ts:150-229 | the loop yields what `AttributesOf` specifies: the line and default lists above, or the error of the first failing field |
| GenerateNew.ParseClassGenerator.GenerateClass | src/generate-new.ts:236-258 | null iff the class is a built-in with no recorded override; otherwise it fails iff its fields do, or else it carries the resolved name, the constructor and the attribute and default lines |
| GenerateNew.ParseClassGenerator.GenerateClasses | src/generate-new.ts:269-271 | throws iff some schema throws; otherwise one descriptor per emitted schema, in schema order |
| GenerateNew.ParseClassGenerator.CreateAttributesFile | src/generate-new.ts:260-282 | the attributes file holds the helper types and then one interface per emitted class, in order |
| GenerateNew.ParseClassGenerator.CreateTsClassesFile | src/generate-new.ts:290-339 | the class file imports every `<Name>Attributes`, then holds one class definition, one `registerSubclass` line and one export per class, each in class order |
| Generate.ParseClassGenerator.constructor | src/generate.ts:72-93 | the credentials are stored; the overrides are recorded as in the current generator |
| Generate.ParseClassGenerator.CreateConstructor | src/generate.ts:105-138 | `_User` and `_Session` pass their resolved name's defaults with no argument; `_Role` takes an ACL; any other class passes its resolved name and its original name's defaults |
| Generate.ParseClassGenerator.PointerType | src/generate.ts:140-153 | throws iff the target is missing; otherwise the resolved target name made nullable |
| Generate.ParseClassGenerator.RelationType | src/generate.ts:155-167 | throws iff the target is missing; otherwise a nullable `Parse.Relation<…>` |
| Generate.ParseClassGenerator.FieldTypeText | src/generate.ts:189-222 | the type table; a Relation with a target becomes `SerializableArray` through the fall-through; Polygon and unknown types become `any`; failure iff a Pointer or Relation lacks its target |
| Generate.ParseClassGenerator.StepAppends | src/generate.ts:183-237 | one iteration over a kept field appends its line with the type verbatim, and a default line iff it is required |
| Generate.ParseClassGenerator.PropsOfFails | src/generate.ts:202-206 | the property loop throws iff some kept field is a Pointer or Relation without a target |
| Generate.ParseClassGenerator.PropLinesInOrder | src/generate.ts:183-225 | one property line per kept field, in schema order, `?` iff optional and the type never stripped |
| Generate.ParseClassGenerator.DefaultLinesInOrder | src/generate.ts:227-237 | one default line per required kept field, in schema order |
| Generate.ParseClassGenerator.FailurePersists | src/generate.ts:183-238 | once a field throws, the later fields do not matter |
| Generate.ParseClassGenerator.ClassOf | src/generate.ts:169-251 | null iff the class is a built-in with no recorded override; otherwise failure iff the property loop throws |
| Generate.ParseClassGenerator.ClassHeaderFirst | src/generate.ts:242-243 | the class text opens with `class <resolved> extends <base of the original name><{` |
| Generate.ParseClassGenerator.ClassListsProps | src/generate.ts:243 | every property line appears in the class text |
| Generate.ParseClassGenerator.ClassEndsWithTail | src/generate.ts:243-250 | the class text ends with the text that closes the property type and holds the `DEFAULT_VALUES` block and the constructor |
| Generate.ParseClassGenerator.ClassListsDefaults | src/generate.ts:244-246 | the class text holds the `static DEFAULT_VALUES = {` block of the joined default lines, and every default line lies inside that block |
| Generate.ParseClassGenerator.ClassHasConstructor | src/generate.ts:248 | the constructor `createConstructor` builds for the schema appears in the class text |
| Generate.ParseClassGenerator.GenerateClass | src/generate.ts:169-251 | the loop yields what `ClassOf` specifies |
| Generate.ParseClassGenerator.RegistryFails | src/generate.ts:275-288 | collecting the classes throws iff some schema's class throws |
| Generate.ParseClassGenerator.RegistryLengths | src/generate.ts:272-288 | there are as many definitions, registrations and exports as emitted schemas |
| Generate.ParseClassGenerator.RegistryInOrder | src/generate.ts:275-288 | the k-th definition, export and registration belong to the k-th emitted schema: its class text, its resolved name, and `registerSubclass` on the base of its original name |
| Generate.ParseClassGenerator.RegistryPersists | src/generate.ts:275-288 | once a schema throws, the later schemas do not matter |
| Generate.ParseClassGenerator.GenerateClasses | src/generate.ts:257-302 | missing credentials throw the parameters error first; otherwise a class error is rethrown, or the output holds the helper types, the definitions, the registrations and the exports |
| Versions.SameOverridesSameNames | src/generate.ts:82-92 | both constructors record the same names from the same override map |
| Versions.SameSkipsAndFailures | src/generate.ts:169-238 | both generators skip the same schemas and throw on the same schemas, those with a target-less Pointer or Relation among the kept fields |
| Versions.SameDefaults | src/generate.ts:227-237 | given the same recorded names and the same module-load date, where neither throws, both write the same default lines |
| Versions.ConstructorsCompared | src/generate.ts:105-138 | `_Role` and `_Session` get the same constructor from both; `_User` and user classes get different ones |
| Versions.RelationsCompared | src/generate.ts:205-209 | a relation is a nullable `Parse.Relation` in the current generator and `SerializableArray` in the earlier one |
| Versions.OptionalPointersCompared | src/generate.ts:224-225 | an optional Pointer to a user class loses its null union only in the current generator |
| Versions.RenamedBuiltInCompared | src/generate.ts:177 | a renamed built-in extends `Parse.Object` in the current class file but its SDK class in the earlier one |

## Left out

- Reading the helper types file is I/O: its contents are the parameter `helperTypes`.
- Writing files (`saveToFile`, `ensureDir`, `fs.writeFileSync`) is I/O. The model stops at the text that would be written.
- `prettier.format` is an external formatter: the model gives the text before formatting.
- `Parse.initialize` and `Parse.Schema.all` are network calls: `GenerateClasses` takes the schemas as a parameter, and runs after the credential check as the source does.
- `path.relative` and `path.parse` are Node library calls: `RelativeImportPath` takes their result as its input string.
- The `new Date()` in the default table is evaluated when the module loads. It is the constructor parameter `loadDate`, given as the text it prints as.
- `[]`, `{}` and missing entries of the default table print as JavaScript does. They are the fixed strings `""`, `[object Object]` and `undefined`.
- `console.warn` for unknown types is output only. The model keeps its condition: the type is `any`.
- JavaScript's `in` also matches prototype keys. The model's override map holds only the three built-ins.
- Field order is the schema's insertion order. JavaScript's hoisting of integer-like keys in `Object.entries` is not modelled.
- `createJsDocFile` is an empty function, and `createTsFile` is commented out.
- `createDeclarationsFile` is not part of this model.
- `async`, `await`, the `debugger` statement and the environment-to-module lookup carry no logic. The lookup is `ParseModule`.
- The sample `Comment` class is stated by parametric lemmas rather than as a fixed schema: `RequiredPointerLine`, `OptionalBuiltInPointerLine`, `NullDefaults` and `DefaultValue`.
- Generate.ParseClassGenerator.RelationType: states the prefix and suffix, not the full text. Its value is discarded by the fall-through into `Array`.
- Schema fields carry a `FieldType` rather than the raw `type` string. `KindOf` is the reading. An `Unknown` arm holding one of the eleven known names (not `WellFormedKind`) cannot come from a schema, and the translation functions give it `any`.
