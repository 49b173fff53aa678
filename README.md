# Hyperloop metabase generator and build tooling, modelled in Dafny

Hyperloop lets JavaScript code of a Titanium application call native APIs
directly. On iOS, a C++ tool built on libclang walks the SDK headers and
writes a *metabase*: a JSON description of every class, protocol, struct,
union, enum, typedef, function, variable and block, each with its
Objective-C type encoding. Build hooks then read the metabase and generate
wrapper code. On Android, build tasks scan the application for `require`
calls that name Java classes, work out which classes those pull in, write
JavaScript wrappers for them and keep this work incremental between
builds. At run time, a Java helper matches a JavaScript call to the best
Java overload. On iOS, build hooks scan the application for native
requires and imports, generate wrappers from the metabase and adjust the
`xcodebuild` arguments. On Windows, a build hook recognises native API
references.

This project models that logic and proves properties of the model:

- `strs.dfy`, `cpp_util.dfy`: the string utilities of `util.cpp`
  (`trim`, `replace`, `count`, `repeat`, `tokenizeInto`, `camelCase`,
  `cleanString`).
- `encoding.dfy`, `resolve.dfy`, `resolve_json.dfy`: the encoding tables,
  the synthesis of an encoding for a type libclang could not encode, the
  encoding of a struct, and the rule list of `resolveEncoding`.
- `clang.dfy`, `defs.dfy`, `kinds.dfy`, `blocks.dfy`: what is read from
  libclang, the definitions and their per-kind JSON, and block return
  types.
- `parser.dfy`, `locations.dfy`, `emit.dfy`, `order.dfy`, `visit.dfy`,
  `walk.dfy`: the parse tree and parser context as classes, the location
  filter, the serialisation of the tree, and the walk over a translation
  unit with each kind's `executeParse`.
- `java_types.dfy`, `java_util.dfy`, `java_module.dfy`,
  `java_class_proxy.dfy`: overload resolution, argument conversion and the
  module entry points of the Android runtime.
- `file_state.dfy`, `incremental_task.dfy`, `android_generate.dfy`,
  `android_sources.dfy`, `android_scan.dfy`, `android_scan_task.dfy`: the
  Android build's file monitor, incremental task, wrapper generator and
  reference scanners.
- `windows.dfy`: the Windows hook's native API predicates.
- `ios_metabase.dfy`, `ios_module_metadata.dfy`, `ios_swift.dfy`,
  `ios_swift_ast.dfy`: the Node.js side of the iOS metabase package
  (merging metabases, the framework dependency worklist, module metadata
  and versions, Swift encodings, mangled names, imports and the reading of
  the Swift AST dump).
- `gen_util.dfy`, `gen_custom.dfy`, `gen_struct.dfy`, `gen_enum.dfy`,
  `gen_block.dfy`, `gen_imports.dfy`, `gen_class.dfy`, `gen_module.dfy`,
  `gen_index.dfy`, `gen_protocols.dfy`, `gen_code.dfy`: the iOS wrapper
  generator of iphone/hooks/generate (names and encodings, custom classes,
  structs, enums, blocks, import lines, class and module template data,
  the module table and protocol inheritance of `generateFromJSON`, and the
  `CodeGenerator` that strips unused classes and writes the bootstrap).
- `ios_scan.dfy`: the iOS scan of application sources, which rewrites
  `require` calls and `import` declarations of native types and records
  the references, with the SoundEx suggestions for unknown frameworks.
- `xcode_args.dfy`: the `xcodebuild` arguments the iOS build hook adds or
  merges (iphone/hooks/hyperloop.js).
- `wrappers.dfy`, `json.dfy`, `js_values.dfy`, `js_strs.dfy`: `Option`/`Result`, JSON values, and the JavaScript values and string functions the hooks rely on.

Code that changes state step by step is modelled as classes and methods
with loops. Each such method is proved against a specification function or
predicate, and the properties are proved as lemmas about those functions.

## Model

| member | source | states |
|---|---|---|
| MetabaseUtil.TrimLeft | packages/hyperloop-ios-metabase/src/util.cpp:86-91 | `ltrim` yields a result no longer than its input that is empty or starts with a non-space |
| MetabaseUtil.TrimLeftDrops | packages/hyperloop-ios-metabase/src/util.cpp:86-91 | `ltrim` keeps a suffix of its input and everything it dropped is whitespace |
| MetabaseUtil.TrimRight | packages/hyperloop-ios-metabase/src/util.cpp:96-101 | `rtrim` yields a result that is empty or ends with a non-space |
| MetabaseUtil.TrimRightDrops | packages/hyperloop-ios-metabase/src/util.cpp:96-101 | `rtrim` keeps a prefix and drops only trailing whitespace |
| MetabaseUtil.Trim | packages/hyperloop-ios-metabase/src/util.cpp:106-108 | `trim` returns a string with no whitespace at either end |
| MetabaseUtil.TrimIsMiddle | packages/hyperloop-ios-metabase/src/util.cpp:106-108 | `trim` keeps one contiguous middle slice and drops only whitespace around it |
| MetabaseUtil.TrimTrimmed | packages/hyperloop-ios-metabase/src/util.cpp:106-108 | trimming an already trimmed string is the identity |
| MetabaseUtil.TrimIdempotent | packages/hyperloop-ios-metabase/src/util.cpp:106-108 | `trim(trim(s)) == trim(s)` |
| MetabaseUtil.ReplacedFrom | packages/hyperloop-ios-metabase/src/util.cpp:145-153 | with no occurrence of `from` after the offset, the rest of the text is unchanged |
| MetabaseUtil.Replaced | packages/hyperloop-ios-metabase/src/util.cpp:145-153 | a string without `from` comes back unchanged; `from` must be non-empty, as the loop never ends otherwise |
| MetabaseUtil.ReplacedNoLonger | packages/hyperloop-ios-metabase/src/util.cpp:145-153 | a replacement no longer than its pattern never lengthens the text |
| MetabaseUtil.ReplacedFromAt | packages/hyperloop-ios-metabase/src/util.cpp:145-153 | after replacing an occurrence the scan resumes past the inserted text, which is never rescanned |
| MetabaseUtil.Replace | packages/hyperloop-ios-metabase/src/util.cpp:145-153 | the in-place loop of `replace` computes exactly the left-to-right, non-overlapping replacement |
| MetabaseUtil.ReplacedDeletesChar | packages/hyperloop-ios-metabase/src/util.cpp:145-153 | replacing a one-character pattern by "" deletes every occurrence of that character and nothing else |
| MetabaseUtil.ReplacedMapsChar | packages/hyperloop-ios-metabase/src/util.cpp:145-153 | replacing one character by another maps every occurrence, as `camelCase` does with ':' |
| MetabaseUtil.MapCharRemoves | packages/hyperloop-ios-metabase/src/util.cpp:42 | after mapping `a` to a different character no `a` is left |
| MetabaseUtil.Count | packages/hyperloop-ios-metabase/src/util.cpp:169-176 | the loop of `count` returns the number of start positions of `item`, overlapping matches included |
| MetabaseUtil.CountFromSkips | packages/hyperloop-ios-metabase/src/util.cpp:169-176 | positions without a match contribute nothing to the count |
| MetabaseUtil.OccurrencesOfChar | packages/hyperloop-ios-metabase/src/util.cpp:169-176 | counting a one-character item counts that character, and deleting it shortens the string by that count |
| MetabaseUtil.DeletedCharAbsent | packages/hyperloop-ios-metabase/src/util.cpp:145-153 | once `replace` has deleted a character, the trimmed remainder does not contain it |
| MetabaseUtil.RepeatedShape | packages/hyperloop-ios-metabase/src/util.cpp:158-164 | `n` repetitions of `s` have length `n·|s|` |
| MetabaseUtil.RepeatedChar | packages/hyperloop-ios-metabase/src/util.cpp:158-164 | repeating one character `n` times gives exactly `n` copies of it |
| MetabaseUtil.Repeat | packages/hyperloop-ios-metabase/src/util.cpp:158-164 | the loop of `repeat` appends `count` copies of `str` |
| MetabaseUtil.SplitFrom | packages/hyperloop-ios-metabase/src/util.cpp:120-132 | tokenising always pushes at least one piece for a non-empty input, empty pieces included |
| MetabaseUtil.TokenizeInto | packages/hyperloop-ios-metabase/src/util.cpp:120-132 | the loop appends to `result` exactly the pieces between delimiters, nothing for "" |
| MetabaseUtil.Tokenize | packages/hyperloop-ios-metabase/src/util.cpp:137-140 | `tokenize` returns the pieces into a fresh vector |
| MetabaseUtil.SplitJoin | packages/hyperloop-ios-metabase/src/util.cpp:120-132 | joining the pieces with the delimiter gives back the input |
| MetabaseUtil.SplitFromNoDelim | packages/hyperloop-ios-metabase/src/util.cpp:120-132 | no piece cut at a one-character delimiter contains it |
| MetabaseUtil.Capitalize | packages/hyperloop-ios-metabase/src/util.cpp:46-51 | capitalising a later token keeps its length |
| MetabaseUtil.CamelCase | packages/hyperloop-ios-metabase/src/util.cpp:40-57 | `camelCase` turns ':' into ' ', splits at ' ', keeps the first token and capitalises every later non-empty one |
| MetabaseUtil.JoinCamel | packages/hyperloop-ios-metabase/src/util.cpp:43-55 | the loop over the tokens emits the first verbatim and the others capitalised, in order |
| MetabaseUtil.CamelCasedHasNoSeparators | packages/hyperloop-ios-metabase/src/util.cpp:40-57 | a camel-cased selector holds neither ':' nor ' ' |
| MetabaseUtil.CamelCasedPlain | packages/hyperloop-ios-metabase/src/util.cpp:40-57 | a name without ':' or ' ' is its own camel case |
| MetabaseUtil.CleanRulesShrink | packages/hyperloop-ios-metabase/src/util.cpp:63-81 | every `cleanString` rewrite has a non-empty pattern and a replacement no longer than it |
| MetabaseUtil.ApplyRules | packages/hyperloop-ios-metabase/src/util.cpp:63-80 | applying the rewrites in order never lengthens the text |
| MetabaseUtil.CleanString | packages/hyperloop-ios-metabase/src/util.cpp:63-81 | `cleanString` returns a trimmed string no longer than its input |
| MetabaseUtil.ApplyRulesIdentity | packages/hyperloop-ios-metabase/src/util.cpp:63-80 | rewrites whose patterns do not occur leave the text alone |
| MetabaseUtil.CleanStringKeepsClean | packages/hyperloop-ios-metabase/src/util.cpp:63-81 | a trimmed spelling with none of the qualifier patterns is already clean |
| MetabaseUtil.RulePatternHasSeparator | packages/hyperloop-ios-metabase/src/util.cpp:63-80 | every pattern but "volatile" holds an underscore, a space or '(' |
| MetabaseUtil.CleanStringOfWord | packages/hyperloop-ios-metabase/src/util.cpp:63-81 | a spelling of letters and digits without "volatile", such as "int", is its own cleaning |
| Encoding.GetEncodingFromType | packages/hyperloop-ios-metabase/src/util.cpp:178-223 | every spelling maps to one of the primitive codes or to "?" |
| Encoding.FilterEncoding | packages/hyperloop-ios-metabase/src/util.cpp:660-665 | exactly one leading 'r' is removed when present; any other encoding is returned unchanged |
| Encoding.EncodingToType | packages/hyperloop-ios-metabase/src/util.cpp:407-470 | the result is always one of the table's tags, and the call fails exactly for "r", whose filtered form is empty so `at(0)` throws |
| Encoding.EncodingRoundTripSigned | packages/hyperloop-ios-metabase/src/util.cpp:178-470 | the signed integer codes survive encoding→tag→encoding |
| Encoding.EncodingRoundTripUnsigned | packages/hyperloop-ios-metabase/src/util.cpp:178-470 | the unsigned integer codes survive encoding→tag→encoding |
| Encoding.EncodingRoundTripScalar | packages/hyperloop-ios-metabase/src/util.cpp:178-470 | "f", "d", "B" and "v" survive encoding→tag→encoding |
| Encoding.EncodingRoundTripObject | packages/hyperloop-ios-metabase/src/util.cpp:178-470 | "*", "@", "#", ":" and "@?" survive encoding→tag→encoding |
| Encoding.EncodingRoundTrip | packages/hyperloop-ios-metabase/src/util.cpp:178-470 | for every primitive code except "c" and "D", `getEncodingFromType(EncodingToType(e)) == e` |
| Encoding.EncodingRoundTripGaps | packages/hyperloop-ios-metabase/src/util.cpp:179-415 | "c" is tagged "c", which encodes to "?", and "long double" encodes to "D", which is tagged "unknown" |
| Encoding.EncodingToTypeIgnoresConst | packages/hyperloop-ios-metabase/src/util.cpp:407-470 | a leading const qualifier 'r' does not change the tag of a non-empty encoding |
| Encoding.EncodingToTypeCompound | packages/hyperloop-ios-metabase/src/util.cpp:451-466 | off the exact table, '{' gives struct, '^' pointer, '[' constant_array, '(' union and any other first character unknown |
| Encoding.CXTypeToType | packages/hyperloop-ios-metabase/src/util.cpp:475-620 | every kind gets a non-empty tag, and a kind without a case of its own gets `unknown type: ` followed by its number |
| Encoding.TagToKind | packages/hyperloop-ios-metabase/src/util.cpp:475-620 | an independent reading of the kind table from tag to kind; whatever it finds is a kind `CXTypeToType` names |
| Encoding.CXTypeToTypeInverse | packages/hyperloop-ios-metabase/src/util.cpp:475-620 | every named kind's tag reads back to that kind, so the table has no two kinds on one tag |
| Encoding.CXTypeToTypeUnnamed | packages/hyperloop-ios-metabase/src/util.cpp:614-619 | a kind without a case prints "unknown type: " and its number, which no named kind's tag does |
| Encoding.CXTypeToTypeInjective | packages/hyperloop-ios-metabase/src/util.cpp:475-620 | two different named kinds never share a tag |
| Defs.CleanTagWords | packages/hyperloop-ios-metabase/src/def.cpp:157-159 | the fixed tags "struct" and "union" are stored unchanged by `setType` |
| Defs.MakeType | packages/hyperloop-ios-metabase/src/def.cpp:141-144 | the four-argument `Type` stores a cleaned tag and value and the encoding verbatim; clean inputs are stored unchanged |
| Defs.SetTag | packages/hyperloop-ios-metabase/src/def.cpp:157-159 | `setType` stores the cleaned tag and changes nothing else |
| Defs.SetValue | packages/hyperloop-ios-metabase/src/def.cpp:161-163 | `setValue` stores the cleaned value and changes nothing else |
| Defs.TypeToJSON | packages/hyperloop-ios-metabase/src/def.cpp:165-171 | a type serialises to exactly type, value and encoding, and reads back as the same type |
| Defs.TypeFromJSON | packages/hyperloop-ios-metabase/src/def.cpp:165-171 | reading a serialised type back takes its three members |
| Defs.Resolve | packages/hyperloop-ios-metabase/src/def.cpp:80-87 | a type that is neither a typedef nor elaborated is left as it is |
| Defs.TrimUnderscores | packages/hyperloop-ios-metabase/src/def.cpp:103 | the two-argument `ltrim` keeps a suffix that does not start with '_' and removes only underscores |
| Defs.RecordAsStruct | packages/hyperloop-ios-metabase/src/def.cpp:99-108 | a type changes only when it is a "record" whose struct name the registry knows, and then becomes that struct; the encoding is kept |
| Defs.StructKey | packages/hyperloop-ios-metabase/src/def.cpp:102-103 | the registry key of a record spelling never starts with '_' |
| Defs.TypeOfCXType | packages/hyperloop-ios-metabase/src/def.cpp:71-109 | an "instancetype" typedef keeps tag "typedef" and value "instancetype"; any other type is resolved first |
| Defs.TypeOfResolved | packages/hyperloop-ios-metabase/src/def.cpp:88-108 | the encoding is the front end's, the tag is trimmed, and the only failure is an unexposed type with encoding "r" |
| Defs.TypedefIsTransparent | packages/hyperloop-ios-metabase/src/def.cpp:80-83 | a typedef other than "instancetype" gives the same `Type` as its canonical type |
| Defs.ElaboratedIsTransparent | packages/hyperloop-ios-metabase/src/def.cpp:84-87 | an elaborated type gives the same `Type` as its named type |
| Defs.TypeOfResolvedValue | packages/hyperloop-ios-metabase/src/def.cpp:88-93 | the value is the cleaned spelling without template arguments, except for a block, which keeps them |
| Defs.TypeOfCursor | packages/hyperloop-ios-metabase/src/def.cpp:111-131 | the cursor constructor fails exactly when the type constructor does, keeps its encoding, and differs from it only by becoming a registered struct |
| Defs.ArgumentToJSON | packages/hyperloop-ios-metabase/src/def.cpp:22-29 | an argument serialises to name, type, encoding and a cleaned value |
| Defs.ArgumentRoundTrip | packages/hyperloop-ios-metabase/src/def.cpp:22-29 | an argument whose value is already clean reads back unchanged |
| Defs.ArgumentsToJSON | packages/hyperloop-ios-metabase/src/def.cpp:49-63 | one object per argument in declaration order, and an empty array rather than null when there are none |
| Defs.IntroducedInSplits | packages/hyperloop-ios-metabase/src/def.cpp:177-184 | "Major.Minor.Subminor" splits back at '.' into the three numbers |
| Defs.FrameworkOf | packages/hyperloop-ios-metabase/src/def.cpp:186-194 | without ".framework" the whole filename; otherwise the segment between the last '/' before it and the marker |
| Defs.ToJSONBase | packages/hyperloop-ios-metabase/src/def.cpp:196-203 | the base members are exactly name, framework, thirdparty, filename, line and introducedIn, with thirdparty the negation of `isSystemLocation` |
| Defs.ValidTreeRenamed | packages/hyperloop-ios-metabase/src/parser.cpp:74-92 | renaming a stored definition keeps every registry pointer valid |
| Defs.ValidTreeStructAdded | packages/hyperloop-ios-metabase/src/parser.cpp:74-92 | registering a stored struct keeps every registry pointer valid |
| Locations.FrameworkCheck | packages/hyperloop-ios-metabase/src/parser.cpp:399-408 | a location is inside the framework exactly when it contains the framework filter; any other location is recorded as a dependency |
| Locations.ExcludeOutcome | packages/hyperloop-ios-metabase/src/parser.cpp:369-385 | with a CoreFoundation filter system headers and the framework's own are kept; with a Foundation filter NSObject.h is always kept; otherwise only the framework's own headers are kept; without a filter, system and SDK headers are dropped exactly when system APIs are excluded; only the framework test records dependencies |
| Locations.NothingExcludedByDefault | packages/hyperloop-ios-metabase/src/parser.cpp:383-384 | without a framework filter and without excluding system APIs no location is left out and nothing is recorded |
| Locations.FrameworkName | packages/hyperloop-ios-metabase/src/parser.cpp:356-367 | an explicit framework name wins; a file outside any .framework directory names itself; otherwise the name is the path segment before ".framework" and holds no '/' |
| Kinds.ResolveEncodingResolvedFrom | packages/hyperloop-ios-metabase/src/util.cpp:670-751 | `resolveEncoding(tree, kv, "type", "value")` keeps every member other than type, value and encoding, and keeps the tree's registries |
| Kinds.ResolverIsResolveEncoding | packages/hyperloop-ios-metabase/src/util.cpp:670-751 | the resolver passed to the serialisers is `resolveEncoding` on "type" and "value" |
| Kinds.ResolveEach | packages/hyperloop-ios-metabase/src/method.cpp:81-83 | resolving a list keeps its length, patches each object only in its type, value and encoding, and keeps the registries |
| Kinds.ResolveEachPrefixErr | packages/hyperloop-ios-metabase/src/method.cpp:81-83 | once one argument fails to resolve, the whole list fails with that error |
| Kinds.ResolveArguments | packages/hyperloop-ios-metabase/src/method.cpp:81-83 | the argument loop resolves each argument in order, each in the tree the previous one left |
| Kinds.ResolveSignature | packages/hyperloop-ios-metabase/src/function.cpp:69-77 | the return type and then every argument are resolved from their serialised forms, keeping the registries |
| Kinds.SignatureToJSON | packages/hyperloop-ios-metabase/src/function.cpp:74-77 | the loop form of the return-and-arguments resolution computes the same result |
| Kinds.WithSignature | packages/hyperloop-ios-metabase/src/method.cpp:69-70 | `returns` and `arguments` are set to the resolved objects and every other member is kept |
| Kinds.WithSignatureKeeps | packages/hyperloop-ios-metabase/src/method.cpp:69-70 | a member other than returns and arguments is exactly as before |
| Kinds.EncoderIsEncoder | packages/hyperloop-ios-metabase/src/util.cpp:228-393 | `CXTypeUnknownToEncoding` keeps a type's encoding, and its tag unless a lookup made it a struct or union |
| Kinds.TypedefToJSON | packages/hyperloop-ios-metabase/src/typedef.cpp:29-43 | the typedef serialises without `name`; its stored encoding is kept unless it needs resolving, and then it is synthesised; a typedef without a type is an error |
| Kinds.TypedefMembers | packages/hyperloop-ios-metabase/src/typedef.cpp:29-43 | the members are the base members minus `name` plus type, value and encoding, holding the tag, value and chosen encoding |
| Kinds.FieldToJSON | packages/hyperloop-ios-metabase/src/struct.cpp:63-64 | a serialised field has exactly the members name, type and encoding |
| Kinds.FieldIsArgumentWithoutValue | packages/hyperloop-ios-metabase/src/struct.cpp:63-64 | a field object is the argument object with `value` removed, and reads back as the field's name, tag and encoding |
| Kinds.FieldObjects | packages/hyperloop-ios-metabase/src/struct.cpp:60-67 | one field object per field, in declaration order |
| Kinds.StructJSON | packages/hyperloop-ios-metabase/src/struct.cpp:57-70 | a struct serialises as its base members, with `fields` present exactly when it has at least one field |
| Kinds.StructToJSON | packages/hyperloop-ios-metabase/src/struct.cpp:57-70 | the field loop builds the object `StructJSON` describes |
| Kinds.EnumValuesJSON | packages/hyperloop-ios-metabase/src/enum.cpp:58-62 | `values` maps each constant to its integer value, and is null when the enum has none |
| Kinds.EnumValuesToJSON | packages/hyperloop-ios-metabase/src/enum.cpp:58-61 | the copy loop builds exactly that `values` object |
| Kinds.EnumJSON | packages/hyperloop-ios-metabase/src/enum.cpp:54-64 | an enum serialises as its base members without `name`, plus `values` |
| Kinds.AnonEnumName | packages/hyperloop-ios-metabase/src/enum.cpp:42 | an anonymous enum's name is "enum_" followed by its number |
| Kinds.AnonEnumNamesDistinct | packages/hyperloop-ios-metabase/src/enum.cpp:12-42 | two different counter values never give the same anonymous name |
| Kinds.AnonEnumNameAsWritten | packages/hyperloop-ios-metabase/src/enum.cpp:36-43 | `sprintf` into `char str[10]` succeeds exactly when the name and its NUL fit in ten bytes |
| Kinds.AnonEnumOverflowAt10000 | packages/hyperloop-ios-metabase/src/enum.cpp:36-43 | counter values below 10000 fit the buffer, and 10000 overflows it |
| Kinds.PropertyAttributes | packages/hyperloop-ios-metabase/src/property.cpp:13-22 | readonly, readwrite and class are each listed exactly when their bit is set, in that fixed order, and nothing else is listed |
| Kinds.PropertyJSON | packages/hyperloop-ios-metabase/src/property.cpp:30-43 | a property serialises type, name and always `optional`, and `attributes` only when the list is non-empty, in list order |
| Kinds.MethodHead | packages/hyperloop-ios-metabase/src/method.cpp:66-77 | `selector` is the name verbatim, `name` its camel case, `optional` only when set, and `constructor` exactly for an `instancetype` return |
| Kinds.MethodToJSON | packages/hyperloop-ios-metabase/src/method.cpp:61-86 | a method serialises its head plus the resolved returns and arguments; a method without a parsed return type is an error |
| Kinds.MethodObject | packages/hyperloop-ios-metabase/src/method.cpp:66-77 | the finished object has `optional` and `constructor` (both true) exactly when they apply, alongside selector, name and instance |
| Kinds.MethodNameIsPlain | packages/hyperloop-ios-metabase/src/method.cpp:67 | a method's `name` holds neither ':' nor ' ', and a selector without them is its own name |
| Kinds.FunctionHead | packages/hyperloop-ios-metabase/src/function.cpp:66-73 | a function keeps its base members and gets `variadic` only when it is variadic and has an argument |
| Kinds.FunctionToJSON | packages/hyperloop-ios-metabase/src/function.cpp:64-79 | a function serialises its head plus the resolved returns and arguments; one without a parsed return type is an error |
| Kinds.FunctionObject | packages/hyperloop-ios-metabase/src/function.cpp:66-73 | `variadic: true` is present exactly for a variadic function with at least one argument, and the base members are kept |
| Parser.CountUnderscores | packages/hyperloop-ios-metabase/src/parser.cpp:76-83 | the loop of `addStruct` counts exactly the leading underscores of the name, so that skipping them gives the trimmed key |
| Parser.ParserTree.constructor | packages/hyperloop-ios-metabase/src/parser.cpp:24-25 | a new tree has empty registries and no definitions |
| Parser.ParserTree.NewDefinition | packages/hyperloop-ios-metabase/src/parser.cpp:39-109 | a new definition gets the next pointer and nothing registered changes |
| Parser.ParserTree.AddClass | packages/hyperloop-ios-metabase/src/parser.cpp:39-42 | the class goes under its name, replacing any earlier entry; every other registry stays |
| Parser.ParserTree.AddExtension | packages/hyperloop-ios-metabase/src/parser.cpp:44-47 | the extension goes under its name, replacing any earlier entry; every other registry stays |
| Parser.ParserTree.AddProtocol | packages/hyperloop-ios-metabase/src/parser.cpp:49-52 | the protocol goes under its name, replacing any earlier entry; every other registry stays |
| Parser.ParserTree.AddType | packages/hyperloop-ios-metabase/src/parser.cpp:54-57 | the typedef goes under its name, replacing any earlier entry; every other registry stays |
| Parser.ParserTree.AddEnum | packages/hyperloop-ios-metabase/src/parser.cpp:59-62 | the enum goes under its name, replacing any earlier entry; every other registry stays |
| Parser.ParserTree.AddVar | packages/hyperloop-ios-metabase/src/parser.cpp:64-67 | the variable goes under its name, replacing any earlier entry; every other registry stays |
| Parser.ParserTree.AddFunction | packages/hyperloop-ios-metabase/src/parser.cpp:69-72 | the function goes under its name, replacing any earlier entry; every other registry stays |
| Parser.ParserTree.AddStruct | packages/hyperloop-ios-metabase/src/parser.cpp:74-92 | the struct is registered under its name without leading underscores, is renamed to that key, and the key does not start with '_' |
| Parser.ParserTree.AddUnion | packages/hyperloop-ios-metabase/src/parser.cpp:94-99 | a named union is registered under its name; an unnamed one changes nothing |
| Parser.ParserTree.AddBlock | packages/hyperloop-ios-metabase/src/parser.cpp:101-109 | a block with a name and a signature is stored under that pair, other signatures of the name keep their blocks; a block missing either changes nothing |
| Parser.ParserTree.GetClass | packages/hyperloop-ios-metabase/src/parser.cpp:111-113 | the pointer under the name, null when absent, and the lookup inserts the name as null so that `hasClass` holds afterwards |
| Parser.ParserTree.GetExtension | packages/hyperloop-ios-metabase/src/parser.cpp:115-117 | the pointer under the name, null when absent; the lookup inserts the name |
| Parser.ParserTree.GetType | packages/hyperloop-ios-metabase/src/parser.cpp:119-121 | the pointer under the name, null when absent; the lookup inserts the name |
| Parser.ParserTree.GetStruct | packages/hyperloop-ios-metabase/src/parser.cpp:123-125 | the pointer under the name, null when absent; the lookup inserts the name |
| Parser.ParserTree.GetUnion | packages/hyperloop-ios-metabase/src/parser.cpp:127-129 | the pointer under the name, null when absent; the lookup inserts the name |
| Parser.ParserTree.GetEnum | packages/hyperloop-ios-metabase/src/parser.cpp:131-133 | the pointer under the name, null when absent; the lookup inserts the name |
| Parser.ParserTree.HasClass | packages/hyperloop-ios-metabase/src/parser.cpp:135-138 | false for an empty name, otherwise whether the name is registered, even with a null pointer |
| Parser.ParserTree.HasExtension | packages/hyperloop-ios-metabase/src/parser.cpp:140-143 | false for an empty name, otherwise whether the name is registered |
| Parser.ParserTree.HasType | packages/hyperloop-ios-metabase/src/parser.cpp:145-148 | false for an empty name, otherwise whether the name is registered |
| Parser.ParserTree.HasStruct | packages/hyperloop-ios-metabase/src/parser.cpp:150-153 | false for an empty name, otherwise whether the name is registered |
| Parser.ParserTree.HasUnion | packages/hyperloop-ios-metabase/src/parser.cpp:155-158 | false for an empty name, otherwise whether the name is registered |
| Parser.ParserTree.HasEnum | packages/hyperloop-ios-metabase/src/parser.cpp:160-163 | false for an empty name, otherwise whether the name is registered |
| Parser.ParserTree.WriteEntry | packages/hyperloop-ios-metabase/src/parser.cpp:177-182 | one entry of a registry: an excluded definition is skipped, a kept one is serialised onto the object and list written so far, and the dependencies grow by what the exclusion test records |
| Parser.ParserTree.WriteRegistry | packages/hyperloop-ios-metabase/src/parser.cpp:176-182 | the loop over one registry visits its keys in ascending order and yields what the specification walk `EmitEntries` yields |
| Parser.ParserTree.WriteSection | packages/hyperloop-ios-metabase/src/parser.cpp:170-187 | a registry is written under its section's member only when at least one entry was kept |
| Parser.ParserTree.WriteSections | packages/hyperloop-ios-metabase/src/parser.cpp:170-284 | the registries are written in the order typedefs, classes, extensions, protocols, enums, vars, functions, structs, unions; the write fails exactly when the specification walk fails |
| Parser.ParserTree.WriteBlock | packages/hyperloop-ios-metabase/src/parser.cpp:290-302 | the kept blocks of one name are written as an array under the name, in signature order, and only when some block was kept |
| Parser.ParserTree.WriteBlocks | packages/hyperloop-ios-metabase/src/parser.cpp:286-306 | the blocks are written by name and then by signature, as the specification walk says |
| Parser.ParserTree.SectionsLeaveRoom | packages/hyperloop-ios-metabase/src/parser.cpp:170-284 | the registry walk writes no member named `blocks` or `metadata`, so the later writes do not overwrite a registry |
| Parser.ParserTree.ToJSON | packages/hyperloop-ios-metabase/src/parser.cpp:165-335 | the output is the registries, the blocks and the metadata (API version, platform when the SDK path names iPhone, SDK path, minimum version, the dependencies recorded by the exclusion tests in order, system-generated flag), and it fails exactly when serialising a kept definition fails |
| Parser.ParserContext.constructor | packages/hyperloop-ios-metabase/src/parser.cpp:337-339 | a context owns a fresh empty tree, has no location, no current definition and no dependencies |
| Parser.ParserContext.UpdateLocation | packages/hyperloop-ios-metabase/src/parser.cpp:346-349 | the context's file and line become those of the cursor |
| Parser.ParserContext.SetCurrent | packages/hyperloop-ios-metabase/src/parser.cpp:351-354 | the current definition becomes the previous one and the new one becomes current |
| Parser.ParserContext.GetFrameworkName | packages/hyperloop-ios-metabase/src/parser.cpp:356-367 | the framework name of the current file, as `FrameworkName` says |
| Parser.ParserContext.IsFrameworkLocation | packages/hyperloop-ios-metabase/src/parser.cpp:399-408 | whether the location is in the framework, recording it as a dependency when it is not |
| Parser.ParserContext.ExcludeLocation | packages/hyperloop-ios-metabase/src/parser.cpp:369-385 | the exclusion answer and the recorded dependencies of `ExcludeOutcome` |
| Parser.ParserContext.NextAnonEnum | packages/hyperloop-ios-metabase/src/enum.cpp:12-42 | the counter of anonymous enums yields its value and goes up by one |
| Emit.SectionKey | packages/hyperloop-ios-metabase/src/parser.cpp:183-282 | each registry is written under its own member, never `blocks` nor `metadata` |
| Emit.SectionKeysDistinct | packages/hyperloop-ios-metabase/src/parser.cpp:183-282 | two registries never share a member |
| Emit.SectionOrderComplete | packages/hyperloop-ios-metabase/src/parser.cpp:170-284 | every registry is visited by `toJSON` |
| Emit.SectionRegistry | packages/hyperloop-ios-metabase/src/parser.cpp:170-284 | the registry a section reads points into the tree's definitions |
| Emit.DefToJSON | packages/hyperloop-ios-metabase/src/parser.cpp:175 | the virtual `toJSON` of a definition: enums and structs serialise to their own objects, classes, vars and unions to their stored objects, and no serialisation changes the registries |
| Emit.TypedefEmitted | packages/hyperloop-ios-metabase/src/typedef.cpp:29-44 | a typedef's object; the typedef may be rewritten with its resolved type, but the registries stay |
| Emit.SerialiserIsDefToJSON | packages/hyperloop-ios-metabase/src/parser.cpp:175 | the serialiser used by the walks is `DefToJSON` and keeps the registries |
| Emit.EmitEntry | packages/hyperloop-ios-metabase/src/parser.cpp:177-182 | one visit of a registry loop: a null entry is an error, a kept entry is added under its key and to the list, an excluded one is skipped, and the dependencies grow by what the exclusion test records |
| Emit.SameFilesSameOutcome | packages/hyperloop-ios-metabase/src/parser.cpp:178 | trees with the same registries agree on which entries are kept and what their exclusion tests record |
| Emit.EmitEntriesDescribes | packages/hyperloop-ios-metabase/src/parser.cpp:176-182 | after the loop over some keys, exactly the kept entries are written, the list is empty exactly when none was kept, every entry was non-null, and the recorded dependencies lie outside the framework |
| Emit.EmitEntriesPrefixErr | packages/hyperloop-ios-metabase/src/parser.cpp:176-182 | once the loop over a prefix of the keys fails, the whole loop fails |
| Emit.EmitRegistryDescribes | packages/hyperloop-ios-metabase/src/parser.cpp:176-182 | the loop over a whole registry, in key order, writes exactly its kept entries |
| Emit.EmitSectionsDescribes | packages/hyperloop-ios-metabase/src/parser.cpp:170-284 | after the registry walks, a registry's member is present exactly when one of its entries is kept, and holds exactly the kept entries |
| Emit.EmitSectionsPrefixErr | packages/hyperloop-ios-metabase/src/parser.cpp:170-284 | once the walk over some registries fails, the whole walk fails |
| Emit.BlockSet | packages/hyperloop-ios-metabase/src/parser.cpp:104 | the signatures of a block name, none when the name is new |
| Emit.BlocksOf | packages/hyperloop-ios-metabase/src/parser.cpp:289-294 | the blocks registered under a name point into the tree's definitions |
| Emit.EmitBlocksDescribes | packages/hyperloop-ios-metabase/src/parser.cpp:286-303 | after the blocks loop, a name has a member exactly when one of its blocks is kept, and that member is a non-empty array |
| Emit.EmitBlocksPrefixErr | packages/hyperloop-ios-metabase/src/parser.cpp:286-303 | once the blocks loop over some names fails, the whole loop fails |
| Emit.BlocksPresent | packages/hyperloop-ios-metabase/src/parser.cpp:304-306 | the blocks object is empty exactly when no block is kept |
| Emit.Metadata | packages/hyperloop-ios-metabase/src/parser.cpp:309-331 | the metadata holds the API version "1", the platform "ios" exactly when the SDK path contains "iPhone", the SDK path, the minimum version, the dependencies in order, and "false"/"true" for whether system APIs were excluded |
| Emit.Assemble | packages/hyperloop-ios-metabase/src/parser.cpp:304-334 | the output holds the registries' members, `blocks` exactly when the blocks object is not empty, and always `metadata` |
| Emit.TreeJSON | packages/hyperloop-ios-metabase/src/parser.cpp:165-335 | a null entry left by a lookup of an absent name makes `toJSON` fail; a successful run writes each registry's kept entries, the kept blocks and the metadata, and nothing else |
| Emit.TreeJSONWalks | packages/hyperloop-ios-metabase/src/parser.cpp:165-335 | `toJSON` is the registry walk followed by the blocks loop on the tree that walk leaves |
| Emit.Assembled | packages/hyperloop-ios-metabase/src/parser.cpp:304-334 | the walks over the registries and the blocks assemble into an output that `TreeJSON` describes, and they met no null entry |
| Emit.TreeOutput | packages/hyperloop-ios-metabase/src/parser.cpp:165-335 | `toJSON` with every definition serialised by its own `toJSON` describes the tree as `TreeJSON` says |
| Emit.TreeOutputIsTreeJSON | packages/hyperloop-ios-metabase/src/parser.cpp:165-335 | `TreeOutput` is `TreeJSON` with the definitions' own serialiser |
| Order.LessIrreflexive | packages/hyperloop-ios-metabase/src/parser.cpp:176 | no key is smaller than itself in `std::string`'s order |
| Order.LessTransitive | packages/hyperloop-ios-metabase/src/parser.cpp:176 | `std::string`'s order is transitive |
| Order.LessTotal | packages/hyperloop-ios-metabase/src/parser.cpp:176 | any two different keys are ordered one way or the other |
| Order.LeastExists | packages/hyperloop-ios-metabase/src/parser.cpp:176 | a non-empty set of keys has a least key |
| Order.SortedKeys | packages/hyperloop-ios-metabase/src/parser.cpp:176 | a `std::map` iteration visits exactly its keys, each once |
| Order.SortedKeysIncreasing | packages/hyperloop-ios-metabase/src/parser.cpp:176 | the iteration visits the keys in increasing order |
| Order.SortedKeysStep | packages/hyperloop-ios-metabase/src/parser.cpp:176 | the iteration starts with the least key |
| Order.SortKeys | packages/hyperloop-ios-metabase/src/parser.cpp:176 | walking the keys smallest first yields the iteration order |
| Resolve.PrimitiveEncoding | packages/hyperloop-ios-metabase/src/util.cpp:234-273 | the primitive tests give a primitive code (never "@?"); a value of "id" is always claimed, and a tag unknown to the primitive table is claimed only for that value |
| Resolve.AfterFirst | packages/hyperloop-ios-metabase/src/util.cpp:326-337 | dropping everything up to the first occurrence of a prefix never lengthens the spelling and leaves it as it is when the prefix is absent |
| Resolve.CXTypeUnknownToEncoding | packages/hyperloop-ios-metabase/src/util.cpp:228-394 | an encoding is synthesised for the type; the `Type` keeps its encoding, and its tag changes only to "struct" or "union" when a registered record is found |
| Resolve.PointerEncoding | packages/hyperloop-ios-metabase/src/util.cpp:280-289 | the pointer case leaves the `Type` untouched; a pointee that again cleans to "pointer" and a `char` with no star are reported as errors |
| Resolve.PointerOver | packages/hyperloop-ios-metabase/src/util.cpp:286-289 | the pointer case succeeds only when its pointee was encoded |
| Resolve.Pointee | packages/hyperloop-ios-metabase/src/util.cpp:281-284 | the pointee has no encoding yet and a value no longer than the pointer's |
| Resolve.PointerCode | packages/hyperloop-ios-metabase/src/util.cpp:286-289 | one '^' per star in front of the pointee's code, except that a `char` pointee gives one caret fewer and a '*'; with no star that case is an error |
| Resolve.ArrayEncoding | packages/hyperloop-ios-metabase/src/util.cpp:296-318 | the array cases leave the `Type` untouched |
| Resolve.ArrayOver | packages/hyperloop-ios-metabase/src/util.cpp:296-318 | the array cases succeed exactly when the element was encoded |
| Resolve.Element | packages/hyperloop-ios-metabase/src/util.cpp:299-301 | the element type has no encoding yet and a strictly shorter value than the array's |
| Resolve.NamedEncoding | packages/hyperloop-ios-metabase/src/util.cpp:319-393 | the named case keeps the `Type`'s encoding and changes its tag only to "struct" or "union" |
| Resolve.StarShrinks | packages/hyperloop-ios-metabase/src/util.cpp:339-343 | deleting the stars of a spelling that has one makes it shorter, so the recursion ends |
| Resolve.LookUpEncoding | packages/hyperloop-ios-metabase/src/util.cpp:346-393 | a registered struct gives its definition's encoding and renames the `Type` to the struct's name; failing that, a registered union does the same; a null registry entry is an error; otherwise the typedef registry or the fallbacks answer |
| Resolve.FallbackEncoding | packages/hyperloop-ios-metabase/src/util.cpp:366-393 | in the source's order: "?" for an unexposed type; "{}" for an anonymous struct; "[]" for an anonymous constant array; "?" when spelling and value are both empty; "{" + name + "=}" for a hidden struct or record; the encoding of the `sizeof(` operand; the encoding of a complex value without `_Complex`; "?" for anything else |
| Resolve.SizeofOperand | packages/hyperloop-ios-metabase/src/util.cpp:383-388 | the text right after the first `sizeof(`, holding no `)`, and ending at the next `)` or at the end of the spelling |
| Resolve.PointeeHasNoStars | packages/hyperloop-ios-metabase/src/util.cpp:281-284 | the pointee's spelling holds no '*', and the counted stars are the value's '*' characters |
| Resolve.PointerOverStars | packages/hyperloop-ios-metabase/src/util.cpp:286-289 | a pointer with k stars to a pointee encoded as e is k carets then e, and a `char *` is "*" after k - 1 carets |
| Resolve.PointerCodeDecodes | packages/hyperloop-ios-metabase/src/util.cpp:286-289 | every caret-prefixed pointer code decodes as "pointer" and a single-star `char *` decodes as "char *" |
| Resolve.PointerCodeCarets | packages/hyperloop-ios-metabase/src/util.cpp:289 | a pointer code holds exactly one caret per star, followed by the pointee's code |
| Resolve.ArrayOverBrackets | packages/hyperloop-ios-metabase/src/util.cpp:296-318 | an incomplete array is "[" + element + "]", a constant array "[" + size + element + "]", and either decodes as a constant array |
| Resolve.EmptyValueEncoding | packages/hyperloop-ios-metabase/src/util.cpp:319-324 | with nothing left to look at, a struct tag gives "{}" and any other unclaimed tag "?" |
| Resolve.KnownStructEncoding | packages/hyperloop-ios-metabase/src/util.cpp:346-353 | a name the struct registry holds gives the definition's encoding and renames the `Type` to the definition, retagging it "struct"; a null entry is an error |
| ResolveJson.Encoder | packages/hyperloop-ios-metabase/src/util.cpp:636 | each field is encoded by `CXTypeUnknownToEncoding` in the given tree |
| ResolveJson.FieldEncodings | packages/hyperloop-ios-metabase/src/util.cpp:632-639 | the field encodings succeed exactly when every field's does, and keep one field per field |
| ResolveJson.FieldEncodingsSingle | packages/hyperloop-ios-metabase/src/util.cpp:632-639 | one field alone encodes to its own encoding |
| ResolveJson.FieldEncodingsAppend | packages/hyperloop-ios-metabase/src/util.cpp:632-639 | the encodings of two runs of fields are those of each run concatenated in order |
| ResolveJson.FieldEncodingsPrefixErr | packages/hyperloop-ios-metabase/src/util.cpp:632-639 | a failing field stops the whole loop with its error |
| ResolveJson.WithFields | packages/hyperloop-ios-metabase/src/util.cpp:634-636 | replacing a struct's fields keeps its name, file, encoding and type |
| ResolveJson.StructEncoding | packages/hyperloop-ios-metabase/src/util.cpp:627-642 | the struct encoding succeeds exactly when every field encodes, and the definition keeps the fields as encoding left them |
| ResolveJson.StructEncodingShape | packages/hyperloop-ios-metabase/src/util.cpp:627-642 | the struct encoding is "{" + name + "=" + field encodings + "}" (the filter never bites) and decodes as a struct |
| ResolveJson.StructDefinitionToEncoding | packages/hyperloop-ios-metabase/src/util.cpp:627-642 | the streaming loop yields exactly `StructEncoding` |
| ResolveJson.StructEncodingAt | packages/hyperloop-ios-metabase/src/util.cpp:734-737 | encoding the struct a name designates fails on a null entry or a failing field, and keeps the registries otherwise |
| ResolveJson.Touch | packages/hyperloop-ios-metabase/src/util.cpp:671-673 | reading a member through `operator[]` inserts an absent one as null and keeps the rest |
| ResolveJson.Touched | packages/hyperloop-ios-metabase/src/util.cpp:671-673 | after the three reads the object holds the tag, value and encoding members and its old members unchanged |
| ResolveJson.FixedRule | packages/hyperloop-ios-metabase/src/util.cpp:680-728 | a fixed rule applies exactly when the value is an object name, a block, a callback, a class, a generic, a pointer, "instancetype" or "SEL" |
| ResolveJson.DropPrefix | packages/hyperloop-ios-metabase/src/util.cpp:762-776 | the prefix is dropped only when the value starts with it |
| ResolveJson.ResolveEncoding | packages/hyperloop-ios-metabase/src/util.cpp:670-800 | the repair keeps the registries, adds at most the tag, value, encoding and literal "type" members, and leaves every other member alone |
| ResolveJson.UnexposedRules | packages/hyperloop-ios-metabase/src/util.cpp:679-752 | the rule list keeps the registries and adds only the tag, encoding and "type" members |
| ResolveJson.RegistryRules | packages/hyperloop-ios-metabase/src/util.cpp:729-751 | the enum, struct and typedef rules keep the registries and add only the tag, encoding and "type" members |
| ResolveJson.UnmatchedRule | packages/hyperloop-ios-metabase/src/util.cpp:743-751 | when no rule matched, the encoding is derived from the tag if it needs resolving, and only an "unexposed" tag is derived back from it |
| ResolveJson.TypedefRules | packages/hyperloop-ios-metabase/src/util.cpp:753-799 | the typedef resolution and the final fallback keep the registries and add only the tag and encoding |
| ResolveJson.TargetRules | packages/hyperloop-ios-metabase/src/util.cpp:754-788 | the tag and value of the typedef's own `Type` decide the repair, keeping the registries |
| ResolveJson.FinalRule | packages/hyperloop-ios-metabase/src/util.cpp:797-799 | an encoding that still needs resolving is derived from the tag, and nothing else changes |
| ResolveJson.FixedRuleDecodes | packages/hyperloop-ios-metabase/src/util.cpp:680-728 | each fixed rule assigns an encoding and a tag that agree when the encoding is decoded |
| ResolveJson.FixedCodesDecode | packages/hyperloop-ios-metabase/src/util.cpp:680-728 | the codes "@", "#", ":", "@?", "^?" and "^^?" decode as id, Class, SEL, block and pointer |
| ResolveJson.FixedRuleBlockFirst | packages/hyperloop-ios-metabase/src/util.cpp:685-688 | a block spelling wins over every later rule, a '*' included |
| ResolveJson.FixedRulePointer | packages/hyperloop-ios-metabase/src/util.cpp:707-718 | a pointer spelling no earlier rule claims is an object when its base names a registered class, and otherwise a caret before the base's code, which decodes as a pointer |
| ResolveJson.ResolveEncodingUntouched | packages/hyperloop-ios-metabase/src/util.cpp:679-799 | a tag that is neither "unexposed" nor "typedef" with an encoding that needs no repair comes back as it was, apart from the inserted null members |
| ResolveJson.ResolveEncodingFixedRule | packages/hyperloop-ios-metabase/src/util.cpp:679-728 | when the rule list runs, the first fixed rule that matches sets the encoding and the tag and nothing else happens |
| ResolveJson.ResolveEncodingEnum | packages/hyperloop-ios-metabase/src/util.cpp:729-733 | an "enum " spelling no fixed rule claims becomes "i", and its tag is written to the literal "type" member, not to the tag key |
| ResolveJson.ResolveEncodingStruct | packages/hyperloop-ios-metabase/src/util.cpp:734-738 | a registered struct spelling takes the tag "struct" and the encoding "{" + name + "=" + field encodings + "}" |
| ResolveJson.ResolveEncodingTypedef | packages/hyperloop-ios-metabase/src/util.cpp:753-787 | a typedef whose definition holds a type that is neither an enum nor a record takes that type's tag and the tag's primitive code |
| Visit.AddBlockIfFound | packages/hyperloop-ios-metabase/src/util.cpp:841-851 | a cursor whose type (canonical underlying type for a typedef) is a block has its block parsed and registered under the framework name and its signature; any other cursor changes nothing; registrations already made survive |
| Visit.RegisteredKept | packages/hyperloop-ios-metabase/src/parser.cpp:101-109 | a registered block stays registered under any later change that keeps the block keys |
| Visit.ParseMembers | packages/hyperloop-ios-metabase/src/struct.cpp:12-44 | the children of the wanted kind become arguments named after them and typed from their cursors, in order, each with its block registered; other children are skipped |
| Visit.StructHeader | packages/hyperloop-ios-metabase/src/struct.cpp:83-87 | the struct's type is tagged "struct", it has no fields yet, and an unnamed struct takes the type's value as its name |
| Visit.StructHeaderAt | packages/hyperloop-ios-metabase/src/struct.cpp:81-90 | the header keeps the number of definitions and leaves the struct at its place named and typed |
| Visit.ParseStructHeader | packages/hyperloop-ios-metabase/src/struct.cpp:83-90 | the struct is rewritten with its header and, when exposed and named, registered without leading underscores |
| Visit.ParseStruct | packages/hyperloop-ios-metabase/src/struct.cpp:81-93 | a struct parses exactly when its cursor's type does; it then has one field per field declaration and every block found on a field is registered |
| Visit.Backfill | packages/hyperloop-ios-metabase/src/typedef.cpp:56-78 | a record typedef names the unnamed definition before it; the only failure is an unnamed previous struct given an empty spelling, whose registration would read the first character of an empty name |
| Visit.BackfillOnlyAnonymous | packages/hyperloop-ios-metabase/src/typedef.cpp:56-60 | a type that is not a record, no previous definition or a named one leaves the tree and the type alone |
| Visit.BackfillOthersKept | packages/hyperloop-ios-metabase/src/typedef.cpp:56-78 | no definition other than the previous one changes |
| Visit.BackfillNamesStruct | packages/hyperloop-ios-metabase/src/typedef.cpp:66-71 | a record typedef names the anonymous struct before it, retags its own type "struct" and registers the struct under the name without leading underscores |
| Visit.BackfillPrevious | packages/hyperloop-ios-metabase/src/typedef.cpp:56-78 | the backfill acts on the context's previous definition as `Backfill` says |
| Visit.ParseTypedef | packages/hyperloop-ios-metabase/src/typedef.cpp:45-83 | a typedef parses exactly when its underlying type does; then the previous definition is backfilled, the typedef is registered under its name with the (possibly retagged) type, and a block found on it is registered |
| Visit.EnumValuesKeys | packages/hyperloop-ios-metabase/src/enum.cpp:14-29 | a name has a value exactly when it had one before or some constant child carries it |
| Visit.EnumValuesLastWins | packages/hyperloop-ios-metabase/src/enum.cpp:14-29 | a constant's name holds the value of the last constant of that name |
| Visit.CollectEnumValues | packages/hyperloop-ios-metabase/src/enum.cpp:14-29 | the visit of the children sets exactly the values `EnumValues` gives |
| Visit.ParseEnum | packages/hyperloop-ios-metabase/src/enum.cpp:66-71 | the enum is registered under its name, then its values are set from its constants |
| Visit.ParseArguments | packages/hyperloop-ios-metabase/src/function.cpp:12-86 | when the parameters parse, the function gets one argument per parameter declaration with its return type and variadic flag, every block on a parameter is registered, and nothing else in the tree is lost |
| Visit.ParseFunction | packages/hyperloop-ios-metabase/src/function.cpp:81-88 | a function parses exactly when its result type does; it is registered under its name with one argument per parameter and the variadic flag, and the blocks on it and on its parameters are registered |
| Visit.ParseMethod | packages/hyperloop-ios-metabase/src/method.cpp:41-93 | a method parses exactly when its result type does; it holds the selector, the declared encoding, the return type, one argument per parameter and the instance and optional flags, and the blocks on it and on its parameters are registered |
| Visit.PropertyOf | packages/hyperloop-ios-metabase/src/property.cpp:11-24 | a property exists exactly when its cursor's type does; it lists "readonly", "readwrite" and "class" exactly when their attribute bits are set, and keeps the optional flag |
| Visit.TypedefBlockType | packages/hyperloop-ios-metabase/src/block.cpp:77-80 | the signature's type is the cursor's own unless it is a typedef |
| Visit.TypedefBlockSignature | packages/hyperloop-ios-metabase/src/block.cpp:81 | the signature is a cleaned spelling, with no surrounding blanks |
| Visit.TypedefBlock | packages/hyperloop-ios-metabase/src/block.cpp:47-49 | the block definition is named "block" and has no return type |
| Visit.ParseTypedefBlock | packages/hyperloop-ios-metabase/src/block.cpp:76-87 | the block is appended as a new definition with one argument per parameter, registered under "block" and its signature when that is not empty, and the blocks on its parameters are registered |
| Visit.AdmissionCases | packages/hyperloop-ios-metabase/src/parser.cpp:417-490 | a cursor is admitted exactly when it is available, is its own definition and, when it has availability records, is neither always deprecated nor always unavailable nor unavailable on an ios record; its version is that of the last ios record with -1 parts made 0, or 0.0.0 |
| Visit.DeprecatedWithoutRecordsAdmitted | packages/hyperloop-ios-metabase/src/parser.cpp:457-490 | with no availability record the deprecation flags are never consulted and the cursor is admitted at 0.0.0 |
| Visit.DefinitionName | packages/hyperloop-ios-metabase/src/parser.cpp:499-533 | a function is named by its spelling, an anonymous enum "enum_N" after the count before it, anything else by its display name |
| Visit.NewDef | packages/hyperloop-ios-metabase/src/parser.cpp:535-537 | the new definition has the cursor's name, file and line and the admitted version |
| Visit.ParseDefinition | packages/hyperloop-ios-metabase/src/def.cpp:205-209 | the parse of a new definition by kind; only typedefs, functions and structs can fail, on a type that cannot be read |
| Visit.Admit | packages/hyperloop-ios-metabase/src/parser.cpp:417-490 | a cursor not available or not its own definition changes nothing; otherwise the location becomes the cursor's and the admission is decided |
| Visit.CreateDefinition | packages/hyperloop-ios-metabase/src/parser.cpp:497-537 | a handled cursor gets a new definition at the next pointer, which becomes current with the one before as previous; an anonymous enum takes one from the counter |
| Visit.Create | packages/hyperloop-ios-metabase/src/parser.cpp:535-539 | the definition for an admitted cursor is created, made current and parsed by kind |
| Visit.Begin | packages/hyperloop-ios-metabase/src/parser.cpp:413-544 | a cursor that is not admitted or of a kind with no definition changes nothing but the location; any other gets a new definition that is created, made current and parsed; only typedefs, functions and structs can fail |
| Walk.LastIos | packages/hyperloop-ios-metabase/src/parser.cpp:459-485 | the position of the last ios availability record, and none exactly when no record is about ios |
| Walk.IosUnavailable | packages/hyperloop-ios-metabase/src/parser.cpp:459-470 | the loop marks a declaration unavailable exactly when some ios record says so |
| Walk.IosIntroduced | packages/hyperloop-ios-metabase/src/parser.cpp:472-484 | the version is that of the last ios record with -1 parts made 0, and 0.0.0 when there is no ios record |
| Walk.ClampedHasNoMissing | packages/hyperloop-ios-metabase/src/parser.cpp:473-484 | a clamped version has no part left at -1, and a version with no missing part is unchanged |
| Walk.ScanAvailability | packages/hyperloop-ios-metabase/src/parser.cpp:459-485 | the loop over the records computes exactly the unavailability and version of the specification fold |
| Walk.TypeOfSpelling | packages/hyperloop-ios-metabase/src/BlockParser.cpp:26 | a type built from a spelling keeps the front end's encoding |
| Walk.BlockCandidate | packages/hyperloop-ios-metabase/src/util.cpp:842-845 | the type inspected for a block is the cursor's own unless the cursor is a typedef |
| Walk.OfKind | packages/hyperloop-ios-metabase/src/struct.cpp:17-22 | the children a visitor turns into arguments are exactly those of the wanted kind |
| Walk.CursorArgument | packages/hyperloop-ios-metabase/src/function.cpp:59-62 | a child's argument is named after the child and fails exactly when its type cannot be read |
| Walk.CursorArgumentsNamed | packages/hyperloop-ios-metabase/src/function.cpp:21-26 | a visitor yields one argument per child of the kind, named after it, in order |
| Walk.BlockArgument | packages/hyperloop-ios-metabase/src/BlockParser.cpp:75-87 | a block parameter's argument is named after it; an "unexposed" type is re-derived from the declared encoding, which can only fail for "r" |
| Walk.BlockArgumentsNamed | packages/hyperloop-ios-metabase/src/BlockParser.cpp:22-44 | a block has one argument per parameter, named after it, in order |
| Walk.FoundBlock | packages/hyperloop-ios-metabase/src/util.cpp:846-850 | a block is found only on a type tagged "block" |
| Walk.WithParameter | packages/hyperloop-ios-metabase/src/BlockParser.cpp:30-40 | a parameter adds its argument to the block's and any other child adds nothing |
| Walk.KeysKeptAdd | packages/hyperloop-ios-metabase/src/parser.cpp:101-109 | `addBlock` never removes a block name or a signature |
| Walk.ParseBlock | packages/hyperloop-ios-metabase/src/BlockParser.cpp:53-62 | a block found on a definition becomes a new definition named after the current framework, with the type's value as signature and the definition's introducedIn; it is registered when name and signature are not empty, and it has one argument per parameter |
| Walk.ParseBlockParameters | packages/hyperloop-ios-metabase/src/BlockParser.cpp:142-149 | the parameters of the block are visited in order and leave the block with exactly the arguments `BlockArguments` gives |
| Walk.ParseBlockParameter | packages/hyperloop-ios-metabase/src/BlockParser.cpp:22-44 | one child visited: a parameter adds its argument and, when its own type is a block, is parsed as a nested block; definitions before the block stay |
| Walk.CreateCurrent | packages/hyperloop-ios-metabase/src/parser.cpp:351-354 | a new definition gets the next pointer and becomes current, the one before becoming previous |
| Walk.RegisterBlock | packages/hyperloop-ios-metabase/src/parser.cpp:101-109 | registering a block changes only the block registry and keeps every name and signature there was |
| Blocks.NextClose | packages/hyperloop-ios-metabase/src/BlockParser.cpp:124 | the scan finds a ')' at or after the offset, or none |
| Blocks.NextCloseFirst | packages/hyperloop-ios-metabase/src/BlockParser.cpp:124 | the ')' found is the first one, and none is found only when there is none |
| Blocks.ScanRound | packages/hyperloop-ios-metabase/src/BlockParser.cpp:123-135 | one round either resumes strictly further on after a '^)' or a '),' with the skip set to 1, or stops at the ')' it found or at none |
| Blocks.ScanFrom | packages/hyperloop-ios-metabase/src/BlockParser.cpp:119-135 | the loop stops with a skip of at most 1 and a position inside the spelling |
| Blocks.AfterClose | packages/hyperloop-ios-metabase/src/BlockParser.cpp:137 | the text after the ')' the scan stopped at, skipping one more character when the skip is set; with no ')' found the wrapped-around index takes the whole spelling |
| Blocks.BlockReturnAsWritten | packages/hyperloop-ios-metabase/src/BlockParser.cpp:114-140 | the extraction as written gives a trimmed spelling, and the empty one when there is no "(^)(" |
| Blocks.ReturnAround | packages/hyperloop-ios-metabase/src/BlockParser.cpp:137-139 | the spliced return spelling is trimmed |
| Blocks.ScanClose | packages/hyperloop-ios-metabase/src/BlockParser.cpp:119-135 | the loop yields exactly the specification scan |
| Blocks.BlockReturnSpelling | packages/hyperloop-ios-metabase/src/BlockParser.cpp:114-140 | the method yields exactly the extraction as written |
| Blocks.AsWrittenFromScan | packages/hyperloop-ios-metabase/src/BlockParser.cpp:114-140 | once "(^)(" is found, the extraction is the text before it joined to the text after the scan, trimmed twice |
| Blocks.MatchingClose | packages/hyperloop-ios-metabase/src/BlockParser.cpp:123-135 | the ')' that closes the parameter list lies in the spelling |
| Blocks.BlockReturn | packages/hyperloop-ios-metabase/src/BlockParser.cpp:114-140 | the corrected extraction gives a trimmed spelling, and the empty one when there is no "(^)(" |
| Blocks.BlockReturnOfBalanced | packages/hyperloop-ios-metabase/src/BlockParser.cpp:114-140 | for a spelling R (^)(P)R' with P balanced, the corrected extraction is R R' trimmed: exactly the parameter list is cut out |
| Blocks.AsWrittenStopsAt | packages/hyperloop-ios-metabase/src/BlockParser.cpp:123-135 | the scan as written stops at the first ')' after "(^)(" that is neither after '^' nor before ',' |
| Blocks.AsWrittenAgreesWithoutNesting | packages/hyperloop-ios-metabase/src/BlockParser.cpp:114-140 | when the parameter list holds no parentheses, does not end in '^' and is not followed by ',', the code as written and the corrected extraction agree |
| Blocks.FunctionPointerBalanced | packages/hyperloop-ios-metabase/src/BlockParser.cpp:114-140 | a function-pointer parameter "void (*)(int)" is a balanced stretch |
| Blocks.NestedAsWritten | packages/hyperloop-ios-metabase/src/BlockParser.cpp:123-137 | for "void (^)(void (*)(int))" the code as written yields "void (int))" |
| Blocks.NestedCorrected | packages/hyperloop-ios-metabase/src/BlockParser.cpp:114-140 | for the same spelling the corrected extraction yields "void" |
| Blocks.ParsedBlockReturnType | packages/hyperloop-ios-metabase/src/BlockParser.cpp:143-145 | the block's return type takes the extracted spelling as tag and value and has no encoding yet |
| Blocks.BlockParserHead | packages/hyperloop-ios-metabase/src/BlockParser.cpp:94-98 | a parameter block writes its encoding, the type "block" and its signature |
| Blocks.BlockParserToJSON | packages/hyperloop-ios-metabase/src/BlockParser.cpp:89-108 | a parameter block serialises to its head with `returns` and `arguments` resolved in order; a block whose return type was never set is an error |
| Blocks.BlockParserObject | packages/hyperloop-ios-metabase/src/BlockParser.cpp:89-108 | a serialised parameter block holds exactly encoding, type, signature, returns and arguments, none of the base members |
| Blocks.ResolveUntypedSignature | packages/hyperloop-ios-metabase/src/block.cpp:69-72 | the typedef block's `returns` is resolved from an empty object and becomes a type/value/encoding triple; its arguments are resolved in order |
| Blocks.BlockHead | packages/hyperloop-ios-metabase/src/block.cpp:65-67 | a typedef block writes the base members and its signature |
| Blocks.BlockToJSON | packages/hyperloop-ios-metabase/src/block.cpp:63-74 | a typedef block serialises exactly when its arguments resolve, to its head with the resolved `returns` and `arguments` |
| Blocks.BlockIgnoresReturnType | packages/hyperloop-ios-metabase/src/block.cpp:63-74 | the typedef block's output does not depend on its return type |
| Blocks.BlockObject | packages/hyperloop-ios-metabase/src/block.cpp:63-74 | a serialised typedef block holds the base members, the signature, returns and arguments |
| JavaTypes.AssignableReaches | android/src/hyperloop/HyperloopUtil.java:552 | a target the supertype walk of `isAssignableFrom` finds is reached by some number of steps up the superclass and interfaces |
| JavaTypes.ReachesAssignable | android/src/hyperloop/HyperloopUtil.java:552 | a target reached by steps up the hierarchy is found by the supertype walk |
| JavaTypes.ArrayCovariance | android/src/hyperloop/HyperloopUtil.java:552 | `isAssignableFrom` carries over from reference components to the arrays of them |
| JavaTypes.InterfaceHopsChoice | android/src/hyperloop/HyperloopUtil.java:588-597 | the loop over the interfaces keeps the count it started with or takes the count found through one of the interfaces |
| JavaTypes.InterfaceHopsBest | android/src/hyperloop/HyperloopUtil.java:588-597 | the loop keeps the least count found: never worse than the count it started with, nor than any interface that reaches the target |
| JavaTypes.Hops | android/src/hyperloop/HyperloopUtil.java:569-599 | the search answers the step count it started with when the class is the target, and otherwise -1 or a count no smaller than that start |
| JavaTypes.HopsSound | android/src/hyperloop/HyperloopUtil.java:569-599 | a count other than -1 is at least the starting count and is the length of a real path from the class to the target |
| JavaTypes.HopsComplete | android/src/hyperloop/HyperloopUtil.java:569-599 | whenever some path reaches the target, a count is found and it is no longer than that path |
| JavaTypes.HopsParent | android/src/hyperloop/HyperloopUtil.java:569-599 | a count found from a class other than the target is the count found from one of its parents, one step further |
| JavaTypes.HopsViaParent | android/src/hyperloop/HyperloopUtil.java:569-599 | a count found from any parent bounds the count found from the class: the search takes the least |
| JavaTypes.HopsShortest | android/src/hyperloop/HyperloopUtil.java:569-599 | the search yields -1 exactly when the target is not a supertype of the class (array covariance aside), and otherwise the length of the shortest path up to it |
| JavaTypes.ComputeHops | android/src/hyperloop/HyperloopUtil.java:569-599 | the recursion over the superclass and the loop over the interfaces compute the hop count defined above |
| HyperloopUtil.PrimitiveDistanceIsRankGap | android/src/hyperloop/HyperloopUtil.java:413-548 | for a primitive parameter, the distance is the number of widening steps between the argument's wrapper type and the parameter type; boolean only takes Boolean; everything else is no match |
| HyperloopUtil.Distance | android/src/hyperloop/HyperloopUtil.java:411-557 | for a reference parameter the distance is -1 exactly when `isAssignableFrom` (array covariance included) fails, otherwise a multiple of 100: non-negative exactly when the parameter type is a supertype, and -100 for an array assignable by covariance alone |
| HyperloopUtil.DistanceOfReference | android/src/hyperloop/HyperloopUtil.java:551-557 | for a reference parameter, the distance is -1 exactly when the argument's class is not assignable, -100 exactly when it is assignable by array covariance alone, and otherwise 100 times the shortest number of hops |
| HyperloopUtil.CovariantArrayDistance | android/src/hyperloop/HyperloopUtil.java:551-557 | a `String[]` argument for an `Object[]` parameter is assignable by covariance but has no supertype path, so its distance is -100 |
| HyperloopUtil.MatchArg | android/src/hyperloop/HyperloopUtil.java:390-401 | on a well-formed class table the argument scorer is defined on every parameter and argument and agrees with the reference distance `ArgDistance` |
| HyperloopUtil.ArgDistance | android/src/hyperloop/HyperloopUtil.java:390-401 | a null argument is no match for a primitive parameter and an exact match for any other |
| HyperloopUtil.MatchArgIsArgDistance | android/src/hyperloop/HyperloopUtil.java:390-401 | the scorer handed to the resolvers is matchArg for every parameter type and argument |
| HyperloopUtil.Score | android/src/hyperloop/HyperloopUtil.java:348-388 | a method scores exactly when its name matches (when one is asked for), it takes the number of arguments given, and every argument matches its parameter; a score is never negative |
| HyperloopUtil.ScoreUpToMeaning | android/src/hyperloop/HyperloopUtil.java:360-384 | a prefix of the arguments fails exactly when one of them does not fit; otherwise its score is not negative and is 0 exactly when every argument is exact |
| HyperloopUtil.MatchScoreMeaning | android/src/hyperloop/HyperloopUtil.java:348-388 | a member matches exactly when every argument fits its parameter, or the component type in the variable tail; the score is not negative and is exact only when every argument is exact |
| HyperloopUtil.ScoreStep | android/src/hyperloop/HyperloopUtil.java:361-363 | one more fitting argument adds its distance to the running score |
| HyperloopUtil.NoMatchStays | android/src/hyperloop/HyperloopUtil.java:364-366 | once an argument does not fit, the whole member does not match |
| HyperloopUtil.CreateMatch | android/src/hyperloop/HyperloopUtil.java:348-388 | the two loops, over the fixed parameters and then the variable tail, compute the match score defined above |
| HyperloopUtil.ScoreNonNegative | android/src/hyperloop/HyperloopUtil.java:350 | every score found starts from the exact distance and is never negative |
| HyperloopUtil.BestMatch | android/src/hyperloop/HyperloopUtil.java:252-281 | no member is returned exactly when no candidate of that name and arity matches; otherwise the one returned has the least distance and every earlier member scores worse |
| HyperloopUtil.FirstNoArg | android/src/hyperloop/HyperloopUtil.java:236-241 | the lookup returns the first member of that name without parameters, and none only when there is no such member |
| HyperloopUtil.ResolveMethod | android/src/hyperloop/HyperloopUtil.java:231-282 | with no arguments, the no-argument method of that name if there is one; otherwise the only method when there is just one; otherwise the best match, or none |
| HyperloopUtil.ResolveConstructor | android/src/hyperloop/HyperloopUtil.java:292-336 | as for methods, over the public constructors and without a name filter |
| HyperloopUtil.Narrow | android/src/hyperloop/HyperloopUtil.java:192-219 | an integral cast gives a value in the type's range, and leaves a value already in range unchanged |
| HyperloopUtil.NarrowCongruent | android/src/hyperloop/HyperloopUtil.java:192-219 | an integral cast keeps the value modulo 2 to the type's width |
| HyperloopUtil.ModuloNarrower | android/src/hyperloop/HyperloopUtil.java:200-209 | narrowing to byte or short via intValue keeps the value modulo 2^8 or 2^16 |
| HyperloopUtil.Saturate | android/src/hyperloop/HyperloopUtil.java:202-211 | a floating-point value cast to int or long is clamped to the type's range |
| HyperloopUtil.ConvertToMeaning | android/src/hyperloop/HyperloopUtil.java:192-219 | a number passed for a numeric primitive becomes a box of exactly that primitive, in range, unchanged when it already fits, and congruent when integral; everything else passes unchanged |
| HyperloopUtil.Convert | android/src/hyperloop/HyperloopUtil.java:150-181 | each fixed argument is converted to its parameter type; for varargs, the remaining arguments are converted to the component type and gathered as the last argument |
| HyperloopUtil.Wrap | android/src/hyperloop/HyperloopUtil.java:67-70 | the result is always a known type; a known value is returned as it is, and anything else is put in an instance proxy of the declared type |
| HyperloopUtil.Unwrap | android/src/hyperloop/HyperloopUtil.java:111-138 | proxies give up what they hold (a class proxy its class), with strictly fewer proxies around; everything else is itself |
| HyperloopUtil.UnwrapWrap | android/src/hyperloop/HyperloopUtil.java:67-70 | unwrapping a wrapped value gives it back exactly when it is not itself a Hyperloop or Titanium proxy |
| HyperloopUtil.WrapArguments | android/src/hyperloop/HyperloopUtil.java:39-58 | no arguments give an empty array; otherwise each argument is wrapped with the parameter type at its position; the call fails exactly when there are more arguments than parameters |
| HyperloopUtil.UnwrapArguments | android/src/hyperloop/HyperloopUtil.java:96-103 | every argument is unwrapped, in order |
| JavaModule.IsPlatformGUID | android/src/hyperloop/HyperloopModule.java:59-82 | the digit-table search answers true exactly for a platform GUID: 36 characters, '9' at index 19, then three copies of one lower-case hexadecimal digit |
| JavaModule.PlatformGUIDByRanges | android/src/hyperloop/HyperloopModule.java:61-78 | the same test stated by character ranges: '0'-'9' or 'a'-'f' repeated at indexes 20 to 22 |
| JavaModule.PlatformGUIDExamples | android/src/hyperloop/HyperloopModule.java:62 | the GUID in the source's comment passes, and its upper-case spelling does not |
| JavaModule.AfterAppCreate | android/src/hyperloop/HyperloopModule.java:88-100 | as intended, Hyperloop is enabled after start-up exactly for a platform GUID |
| JavaModule.AppCreateNeverDisables | android/src/hyperloop/HyperloopModule.java:33 | the flag starts true and onAppCreate as written never clears it, so the empty GUID keeps Hyperloop enabled although it is not a platform GUID |
| JavaModule.HyperloopModule.constructor | android/src/hyperloop/HyperloopModule.java:33 | the flag is true before any check is made |
| JavaModule.AfterAppCreateAsWritten | android/src/hyperloop/HyperloopModule.java:88-100 | the flag after start-up is on exactly when it was on before or the GUID is a platform one, so start-up never turns it off |
| JavaModule.HyperloopModule.OnAppCreateAsWritten | android/src/hyperloop/HyperloopModule.java:88-100 | a platform GUID sets the flag; any other GUID leaves it as it was |
| JavaModule.HyperloopModule.OnAppCreate | android/src/hyperloop/HyperloopModule.java:88-100 | the corrected start-up sets the flag exactly for a platform GUID |
| JavaModule.HyperloopModule.GetJavaClass | android/src/hyperloop/HyperloopModule.java:239-250 | a class is found exactly when Hyperloop is enabled and the name is given and known; it is the class of that name |
| JavaModule.HyperloopModule.Cast | android/src/hyperloop/HyperloopModule.java:111-126 | a result exactly when enabled, the value is an instance proxy and the class is known; it wraps the same object, re-typed as the class whenever the object is an instance of it |
| JavaModule.HyperloopModule.GetClass | android/src/hyperloop/HyperloopModule.java:135-139 | a class proxy exactly when enabled and the name is non-empty and known; it unwraps to that class |
| JavaModule.HyperloopModule.Implement | android/src/hyperloop/HyperloopModule.java:148-164 | a generated class exactly when enabled and the name is a known interface; it implements that interface |
| JavaModule.HyperloopModule.Extend | android/src/hyperloop/HyperloopModule.java:173-222 | a generated subclass exactly when enabled, the class is known, not final, public or protected, and generation succeeds; it extends that class |
| JavaClassProxy.ArgumentsArray | android/src/hyperloop/ClassProxy.java:111-134 | the array an arguments object stands for holds every entry at its index, null at every index it lacks, and is empty exactly for an empty object |
| JavaClassProxy.HighestIndex | android/src/hyperloop/ClassProxy.java:123-127 | the first loop finds an index at least 0 and at least every key, and it is 0 or one of the keys |
| JavaClassProxy.ConvertArgumentsMapToArray | android/src/hyperloop/ClassProxy.java:119-134 | the conversion fails exactly when some index is negative, and otherwise builds the array described above |
| JavaClassProxy.StoreEntries | android/src/hyperloop/ClassProxy.java:130-132 | the second loop fails exactly when some index is negative (the store out of bounds); otherwise every slot holds the entry of its index and the others stay null |
| JavaClassProxy.ArrayOfArguments | android/src/hyperloop/ClassProxy.java:129-133 | the array sized from the highest index, with every entry stored at its index, is the array described above |
| JavaClassProxy.NormalizedArgs | android/src/hyperloop/ClassProxy.java:54-61 | normalisation fails only for a single arguments object with a negative index; no arguments become an empty array |
| JavaClassProxy.UnwrapAll | android/src/hyperloop/ClassProxy.java:64 | every argument is unwrapped, in order |
| JavaClassProxy.NormalizeInitArgs | android/src/hyperloop/ClassProxy.java:54-61 | the arguments are normalised as described above |
| JavaClassProxy.CreateFrom | android/src/hyperloop/ClassProxy.java:63-108 | a single Titanium proxy whose native object fits is re-wrapped; otherwise null exactly when no constructor is resolved, a failure only when the resolved constructor needs more arguments than given, and otherwise that constructor with each fixed argument converted |
| JavaClassProxy.NewInstance | android/src/hyperloop/ClassProxy.java:53-109 | arguments that cannot be normalised fail; otherwise the creation from the normalised arguments is as described above |
| WindowsHooks.HasWindowsAPI | windows/hooks/hyperloop.js:246-253 | the loop answers true exactly when the string starts with a configured third-party library followed by '.', or with 'Windows.' or 'System.' |
| WindowsHooks.PackageName | windows/hooks/hyperloop.js:118 | the package of a namespace reference is the reference without its trailing '.*' |
| WindowsHooks.RequireReference | windows/hooks/hyperloop.js:111-125 | a require records nothing exactly when its string is not a native API; a namespace records its package, anything else the type itself |
| WindowsHooks.ImportedClassName | windows/hooks/hyperloop.js:161-178 | an import from a namespace names the imported class inside the package; any other import names the imported module |
| WindowsHooks.ImportedClassIsNative | windows/hooks/hyperloop.js:168-176 | a class imported from a native namespace is itself a native API reference |
| WindowsHooks.Underscored | windows/hooks/hyperloop.js:151 | the type name keeps its length, with every '.' replaced by '_' and nothing else changed |
| WindowsHooks.EventSignature | windows/hooks/hyperloop.js:148-153 | the key an event is recorded under starts with the event name and '_', is one character longer than the two names together, and has no '.' when the event name has none |
| WindowsHooks.EventSignatureInjective | windows/hooks/hyperloop.js:148-153 | two events whose names have no '_' share a key only when the names are equal and the types differ at most between '.' and '_' |
| FileStates.DiffersSymmetric | android/plugins/hyperloop/hooks/android/internal/monitor/file-state.js:94-104 | the comparison gives the same answer whichever snapshot it is asked of |
| FileStates.DiffersOnlyOnContent | android/plugins/hyperloop/hooks/android/internal/monitor/file-state.js:99-103 | a touched file with the same size and hash is not reported, nor is a file with an unchanged time stamp, whatever its contents |
| FileStates.FileState.constructor | android/plugins/hyperloop/hooks/android/internal/monitor/file-state.js:20-25 | a state read back from disk keeps the path, time, size and hash it is given |
| FileStates.FileState.OfFile | android/plugins/hyperloop/hooks/android/internal/monitor/file-state.js:26-31 | a state taken from the file system has the file's time and size, and no hash yet |
| FileStates.FileState.Sha1 | android/plugins/hyperloop/hooks/android/internal/monitor/file-state.js:66-71 | the hash is the cached one or, on first use, that of the file's contents; afterwards it is cached and never changes |
| FileStates.FileState.IsDifferentThan | android/plugins/hyperloop/hooks/android/internal/monitor/file-state.js:94-104 | snapshots of different paths cannot be compared; otherwise different times with different sizes or hashes count as a change, and a hash is computed only when the times differ and the sizes agree |
| FileStates.LastEntry | android/plugins/hyperloop/hooks/android/internal/monitor/file-state-monitor.js:53-56 | the entry kept for a path belongs to that path |
| FileStates.LastEntryIsLast | android/plugins/hyperloop/hooks/android/internal/monitor/file-state-monitor.js:53-56 | the entry kept for a path is the one no later entry overrides, and there is none only for a path the state file does not list |
| FileStates.FileStateMonitor.constructor | android/plugins/hyperloop/hooks/android/internal/monitor/file-state-monitor.js:17-38 | a new monitor has no loaded, processed or changed files |
| FileStates.FileStateMonitor.Load | android/plugins/hyperloop/hooks/android/internal/monitor/file-state-monitor.js:46-64 | a missing state file loads nothing and answers false; otherwise every listed path is loaded with its last entry and other loaded paths are kept |
| FileStates.FileStateMonitor.UpdateFileState | android/plugins/hyperloop/hooks/android/internal/monitor/file-state-monitor.js:119-134 | a path not loaded is marked new with a fresh state; a loaded one leaves the loaded files, marked changed with a fresh state if it differs and otherwise keeping its old state; other paths are untouched |
| FileStates.FileStateMonitor.Update | android/plugins/hyperloop/hooks/android/internal/monitor/file-state-monitor.js:136-146 | last build's processed states become the loaded ones; afterwards exactly the given files are processed and the loaded ones are those not seen again; a file new to the build (or listed twice) is marked new with its fresh state, and a file seen last build is marked changed, with its time and size on disk, exactly when its time, size or digest differs from the loaded state, and keeps that state otherwise |
| FileStates.FileStateMonitor.GetChangedFiles | android/plugins/hyperloop/hooks/android/internal/monitor/file-state-monitor.js:148-154 | the changed files are this build's marks plus every loaded file not seen again, which is marked removed |
| FileStates.FileStateMonitor.Write | android/plugins/hyperloop/hooks/android/internal/monitor/file-state-monitor.js:71-85 | the state file lists exactly the processed files, each with its time, size and hash |
| IncrementalTasks.ChooseRun | android/plugins/hyperloop/hooks/android/internal/tasks/incremental-task.js:41-80 | a full run exactly when there is no change data or an output changed; an incremental run on the changed inputs exactly when only inputs changed; a skip exactly when nothing changed |
| IncrementalTasks.IncrementalDirectoryOf | android/plugins/hyperloop/hooks/android/internal/tasks/incremental-task.js:14-17 | a task without an incremental directory, or with an empty one, is refused; otherwise that directory is used |
| IncrementalTasks.IncrementalTask.constructor | android/plugins/hyperloop/hooks/android/internal/tasks/incremental-task.js:11-19 | the task keeps the directory and whatever change data it holds |
| IncrementalTasks.IncrementalTask.RunTaskAction | android/plugins/hyperloop/hooks/android/internal/tasks/incremental-task.js:53-91 | the run is chosen by the rules above; success passes the result on and stores the new change data, failure fails and deletes the change data |
| IncrementalTasks.FailureForcesFullRun | android/plugins/hyperloop/hooks/android/internal/tasks/incremental-task.js:87-90 | after a failed run, the next run of the task is a full one whatever changed in between |
| AndroidGenerate.MethodTypes | android/hooks/metabase/generate.js:77-87 | the types listed are exactly each overload's return type and argument types |
| AndroidGenerate.Dependencies | android/hooks/metabase/generate.js:71-93 | a class's dependencies hold its superclass, every overload's return and argument types, and every field type |
| AndroidGenerate.FirstDollar | android/hooks/metabase/generate.js:98 | the index found holds the first '$' of the name |
| AndroidGenerate.ExpandClass | android/hooks/metabase/generate.js:48-111 | a class missing from the metabase or already done lists nothing; otherwise it is expanded, the classes expanded are new, distinct, reached from it and closed under dependencies, and the names listed are exactly those they push |
| AndroidGenerate.ExpandDependenciesOf | android/hooks/metabase/generate.js:64-93 | the class is marked done, then every dependency the metabase knows is expanded, each reached from the class |
| AndroidGenerate.NestedClasses | android/hooks/metabase/generate.js:101-107 | the nested classes are exactly the metabase classes whose names start with the class name and '$' |
| AndroidGenerate.ExpandDependencies | android/hooks/metabase/generate.js:121-133 | every referenced class is expanded; the classes expanded are distinct, closed under dependencies and reached from the references; the result is sorted, has no duplicates, and holds exactly the names they push |
| AndroidGenerate.ReachedRoots | android/hooks/metabase/generate.js:124-126 | expanding one more referenced class adds it to the roots everything expanded is reached from |
| AndroidGenerate.SortedUnique | android/hooks/metabase/generate.js:127-131 | the result is strictly increasing and holds exactly the names given |
| AndroidGenerate.SafeName | android/hooks/metabase/generate.js:140-158 | a keyword, built-in type or function name, or a name starting with a digit gets a leading '_'; any other name is kept |
| AndroidGenerate.UnderscoredIsSafe | android/hooks/metabase/generate.js:140-158 | no name starting with '_' is unsafe |
| AndroidGenerate.SafeNameIsSafe | android/hooks/metabase/generate.js:140-158 | a name made safe is never unsafe, and making it safe again changes nothing |
| AndroidGenerate.InPackageMembers | android/hooks/metabase/generate.js:201-205 | a package lists exactly the classes whose package it is |
| AndroidGenerate.CoveredMeans | android/hooks/metabase/generate.js:178-187 | a package is in the map exactly when it is the package of some class, or one of that package's enclosing packages |
| AndroidGenerate.AddPackages | android/hooks/metabase/generate.js:180-186 | a package and its enclosing packages get an entry, empty when new; existing entries are kept |
| AndroidGenerate.RemovedPackages | android/hooks/metabase/generate.js:178-187 | every package of a removed class, with its enclosing packages, gets an empty entry, and nothing else |
| AndroidGenerate.AddGenerated | android/hooks/metabase/generate.js:190-224 | each generated class is appended to its package, in order, and the enclosing packages are added |
| AndroidGenerate.AddExisting | android/hooks/metabase/generate.js:226-232 | each class whose wrapper exists is appended to its package when that package already has an entry; no package is added |
| AndroidGenerate.PackageMap | android/hooks/metabase/generate.js:174-232 | the packages are exactly those of the removed and generated classes and their enclosing packages; each lists its generated classes, then the existing ones |
| GenerateSources.FlattenKeepsAll | android/hooks/tasks/generate-sources-task.js:143-149 | every used class of every scanned file is kept, duplicates included, and nothing else |
| GenerateSources.AllReferencedClasses | android/hooks/tasks/generate-sources-task.js:143-149 | the loop concatenates the used classes of the scanned files in order |
| GenerateSources.ClassRedirect | android/hooks/tasks/generate-sources-task.js:219-222 | a class wrapper's bootstrap line is a redirect |
| GenerateSources.PackageRedirect | android/hooks/tasks/generate-sources-task.js:223-225 | a package wrapper's bootstrap line is a redirect |
| GenerateSources.BootstrapLines | android/hooks/tasks/generate-sources-task.js:208-229 | the bootstrap has no line exactly when no class is generated, and otherwise starts with the binding header |
| GenerateSources.RedirectsCoverFiles | android/hooks/tasks/generate-sources-task.js:216-228 | every JavaScript file other than the bootstrap contributes its line, and every line comes from such a file |
| GenerateSources.BootstrapMaps | android/hooks/tasks/generate-sources-task.js:208-229 | with classes generated, the header comes first, each generated class's wrapper is mapped under its dotted name and every other wrapper under its package wildcard |
| GenerateSources.WrapperIsJs | android/hooks/tasks/generate-sources-task.js:160 | the wrapper of a named class is a JavaScript file whose require name is the class |
| GenerateSources.Without | android/hooks/tasks/generate-sources-task.js:127-128 | the classes kept are exactly those not in the set |
| GenerateSources.Filter | android/hooks/tasks/generate-sources-task.js:127-128 | the filter keeps, in order, the classes not in the set |
| GenerateSources.ListOf | android/hooks/tasks/generate-sources-task.js:128 | the array lists exactly the members of the set |
| GenerateSources.WrapperFileInjective | android/hooks/tasks/generate-sources-task.js:160 | two classes share a wrapper file only when they are the same class |
| GenerateSources.NoReferencesExpansion | android/hooks/tasks/generate-sources-task.js:96-101 | without references the expansion is empty |
| GenerateSources.GenerateSourcesTask.constructor | android/hooks/tasks/generate-sources-task.js:66-84 | a new task has generated nothing yet and sees the disk as the last build left it |
| GenerateSources.GenerateSourcesTask.LoadClassList | android/hooks/tasks/generate-sources-task.js:264-275 | a stored class list becomes the generated set and the call answers true; without one it answers false and changes nothing |
| GenerateSources.GenerateSourcesTask.WriteClassList | android/hooks/tasks/generate-sources-task.js:282-284 | the generated set is stored as the class list |
| GenerateSources.GenerateSourcesTask.RemoveUnusedClasses | android/hooks/tasks/generate-sources-task.js:157-168 | exactly the wrappers of the classes to remove are deleted |
| GenerateSources.GenerateSourcesTask.GenerateSources | android/hooks/tasks/generate-sources-task.js:178-198 | nothing is written when there is nothing to generate or remove; otherwise a wrapper for each class to generate and one for each package of the package map |
| GenerateSources.GenerateSourcesTask.GenerateBootstrap | android/hooks/tasks/generate-sources-task.js:208-235 | the bootstrap lines are those of the sorted directory listing; the script is written when there are lines and deleted otherwise |
| GenerateSources.BootstrapScript | android/hooks/tasks/generate-sources-task.js:209-229 | with no class generated there are no lines; otherwise the header and then the line of each JavaScript file of the listing, in order |
| GenerateSources.RedirectsStep | android/hooks/tasks/generate-sources-task.js:216-227 | each further file of the listing adds only its own line, if it has one |
| GenerateSources.GenerateSourcesTask.DoFullTaskRunAsWritten | android/hooks/tasks/generate-sources-task.js:92-106 | the output directory is emptied; with no references the generated set and stored list are left as they were; otherwise the expansion is generated, recorded, bootstrapped and stored |
| GenerateSources.GenerateSourcesTask.DoFullTaskRun | android/hooks/tasks/generate-sources-task.js:92-106 | as written, except that with no references the generated set is emptied and stored, so the stored list only names classes whose wrappers exist |
| GenerateSources.GenerateSourcesTask.UpdateGenerated | android/hooks/tasks/generate-sources-task.js:132-133 | the generated set gains the new classes and loses the unused ones |
| GenerateSources.GenerateSourcesTask.FullRunGenerate | android/hooks/tasks/generate-sources-task.js:101-105 | the expansion of the references is generated, recorded, bootstrapped and stored |
| GenerateSources.GenerateSourcesTask.DoIncrementalTaskRun | android/hooks/tasks/generate-sources-task.js:120-136 | without a stored class list a full run; otherwise the stored list is brought up to the expansion; the list stays one of classes with wrappers |
| GenerateSources.GenerateSourcesTask.IncrementalUpdate | android/hooks/tasks/generate-sources-task.js:126-135 | expanded classes not generated are generated, generated ones no longer expanded lose their wrappers, the generated set becomes the expansion, and an up-to-date list writes no wrapper |
| GenerateSources.GenerateSourcesTask.ApplyExpansion | android/hooks/tasks/generate-sources-task.js:127-133 | the generated set becomes the expanded classes, each with its wrapper when every listed class had one |
| GenerateSources.ExpansionGenerated | android/hooks/tasks/generate-sources-task.js:127-133 | adding the expanded classes not listed and removing the listed ones not expanded turns the list into the expansion |
| GenerateSources.ListedWrappersKept | android/hooks/tasks/generate-sources-task.js:127-133 | every class still generated after the update has its wrapper |
| GenerateSources.SingleClassExpansion | android/hooks/tasks/generate-sources-task.js:101 | in a metabase with one class A without dependencies, referencing A expands to A alone |
| GenerateSources.EmptyFullRunAsWritten | android/hooks/tasks/generate-sources-task.js:92-99 | after a full run without references, as written, the directory is empty but the stored list still names A |
| GenerateSources.StaleClassListAsWritten | android/hooks/tasks/generate-sources-task.js:92-136 | a full run without references followed by an incremental run that references A lists A as generated with no wrapper written |
| GenerateSources.StaleOutcome | android/hooks/tasks/generate-sources-task.js:120-136 | an incremental run referencing A over the stale disk lists A without writing its wrapper |
| GenerateSources.StaleClassListCorrected | android/hooks/tasks/generate-sources-task.js:92-136 | with the corrected full run the same two runs write the wrapper of A |
| GenerateSources.ReferencedIsGenerated | android/hooks/tasks/generate-sources-task.js:120-136 | after any incremental run referencing A, A is generated and, when the list named only classes with wrappers, written |
| ScanReferences.ReplaceFirst | android/plugins/hyperloop/hooks/android/tasks/scan-references-task.js:279-282 | one round fails exactly when the needle does not occur, and otherwise swaps the needle's length for the replacement's |
| ScanReferences.ReplaceAllWithin | android/plugins/hyperloop/hooks/android/tasks/scan-references-task.js:274-286 | a replacement that finishes leaves no occurrence of the needle |
| ScanReferences.ReplaceAll | android/plugins/hyperloop/hooks/android/tasks/scan-references-task.js:274-286 | the loop, bounded by the fuel, computes the replacement defined above |
| ScanReferences.ReplaceAllMoreFuel | android/plugins/hyperloop/hooks/android/tasks/scan-references-task.js:279 | more rounds than a finished replacement needs change nothing |
| ScanReferences.ShorterReplacementFinishes | android/plugins/hyperloop/hooks/android/tasks/scan-references-task.js:279-283 | a replacement shorter than the needle always finishes within one round per character |
| ScanReferences.ReplaceFirstKeepsNeedle | android/plugins/hyperloop/hooks/android/tasks/scan-references-task.js:280-282 | a replacement that contains the needle keeps an occurrence after the first round |
| ScanReferences.NeedleInReplacementDiverges | android/plugins/hyperloop/hooks/android/tasks/scan-references-task.js:279-283 | a replacement that contains the needle never finishes on a string that contains it, however many rounds it is given |
| ScanReferences.ReplaceAllExample | android/plugins/hyperloop/hooks/android/tasks/scan-references-task.js:279-283 | each round starts again from the front: 'aaabcbaabea' with 'aa' replaced by 'z' becomes 'zabcbzbea' after two rounds |
| ScanReferences.NestedNameShape | android/hooks/tasks/scan-references-task.js:343-344 | the nested-class fallback name always holds a `$`; a name with a `.` keeps its length, and a non-empty name without one gives a fallback twice as long that ends with the name itself |
| ScanReferences.NestedNameSwapsLastDot | android/hooks/tasks/scan-references-task.js:343-344 | with a '.', the fallback name has the last '.' turned into '$' and nothing else changed |
| ScanReferences.NestedNameWithoutDot | android/hooks/tasks/scan-references-task.js:343-344 | without a '.', the fallback doubles the name: 'Foo' is looked up as 'Fo$Foo' |
| ScanReferences.ValidateTypeName | android/hooks/tasks/scan-references-task.js:338-352 | the name itself when the metabase has it; otherwise the nested-class fallback exactly when the metabase has that; the result is always a metabase class |
| ScanReferences.PatternOf | android/hooks/tasks/scan-references-task.js:320 | the pattern built from a package name ends in `.*` exactly when the name ends in `*`, and has one atom per other character |
| ScanReferences.PatternAtoms | android/hooks/tasks/scan-references-task.js:320 | the pattern has one atom per character of the name |
| ScanReferences.PatternAtomsAt | android/hooks/tasks/scan-references-task.js:320 | only the first '.' is escaped: every later '.' matches any character |
| ScanReferences.MemberOfPackageMatches | android/hooks/tasks/scan-references-task.js:320 | a class directly in the package, with a simple name of two or more characters, matches the package pattern |
| ScanReferences.MatchedClassOfPackage | android/hooks/tasks/scan-references-task.js:320 | a matched class has a simple name of two or more characters after one separator and agrees with the package except at its later dots |
| ScanReferences.UnescapedDotMatches | android/hooks/tasks/scan-references-task.js:320 | 'a.b.*' also matches 'a.bxCd', a class of package 'a' |
| ScanReferences.Matching | android/hooks/tasks/scan-references-task.js:322-326 | the classes kept are exactly the metabase classes the package pattern matches |
| ScanReferences.DetectUsedClasses | android/hooks/tasks/scan-references-task.js:317-329 | the loop collects the matching classes in metabase order |
| ScanReferences.IsWildcardAsWritten | android/hooks/tasks/scan-references-task.js:258 | the test as written takes every one-character name for a package, and any longer name it accepts ends in `.*` |
| ScanReferences.IsWildcard | android/hooks/tasks/scan-references-task.js:258 | a name is a package exactly when it ends in `.*` and has no earlier `.*` |
| ScanReferences.WildcardTestsDiffer | android/hooks/tasks/scan-references-task.js:258 | the test as written and the intended one differ only on one-character names, which the written test takes for packages |
| ScanReferences.SliceTo | android/plugins/hyperloop/hooks/android/tasks/scan-references-task.js:234 | a slice is never longer than the string |
| ScanReferences.ResolveWith | android/plugins/hyperloop/hooks/android/tasks/scan-references-task.js:222-257 | a package contributes the classes its pattern matches and a single type its validated name; the require is rewritten exactly when it contributes a class, and only metabase classes are contributed |
| ScanReferences.Resolve | android/plugins/hyperloop/hooks/android/tasks/scan-references-task.js:222-257 | with the intended wildcard test, only metabase classes are contributed, and the require is rewritten exactly when it contributes one |
| ScanReferences.ResolveAsWritten | android/plugins/hyperloop/hooks/android/tasks/scan-references-task.js:222-257 | with the wildcard test as written, only metabase classes are contributed |
| ScanReferences.PackageRequireRewritten | android/plugins/hyperloop/hooks/android/tasks/scan-references-task.js:223-237 | a wildcard require contributes the classes its pattern matches and is rewritten to the wrapper of the package, the name without '.*' |
| ScanReferences.OneCharacterRequire | android/plugins/hyperloop/hooks/android/tasks/scan-references-task.js:223-237 | with a class 'a' in the metabase, require('a') as written is rewritten to require('hyperloop/') instead of require('hyperloop/a') |
| ScanReferences.RunFrom | android/hooks/tasks/scan-references-task.js:237 | the run is a slice of the text at that index, of name characters only, as long as it goes |
| ScanReferences.FirstNameCharFrom | android/hooks/tasks/scan-references-task.js:237 | the index found is the first name character at or after the start, and none is found only when there is none |
| ScanReferences.FirstRun | android/hooks/tasks/scan-references-task.js:249-252 | the match fails exactly when the literal has no name character; otherwise it is a non-empty run of name characters |
| ScanReferences.RunsOf | android/hooks/tasks/scan-references-task.js:244-299 | the names a file requires are exactly the first runs of its literals that have one |
| ScanReferences.UsedIn | android/hooks/tasks/scan-references-task.js:244-299 | a file contributes only metabase classes |
| ScanReferences.UsedInCollects | android/hooks/tasks/scan-references-task.js:258-269 | each required name contributes its classes to the file's list |
| ScanReferences.UsedInEmpty | android/hooks/tasks/scan-references-task.js:258-269 | a file's list is empty exactly when none of its names resolves to a class |
| ScanReferences.NamesOf | android/plugins/hyperloop/hooks/android/tasks/scan-references-task.js:217 | the names are those of the requires found, in order |
| ScanReferences.NothingResolvedKeepsContent | android/plugins/hyperloop/hooks/android/tasks/scan-references-task.js:215-263 | a file none of whose requires resolves keeps its text |
| ScanTasks.UsedInStep | android/hooks/tasks/scan-references-task.js:258-269 | one more required name appends the classes it resolves to |
| ScanTasks.ResolveRequire | android/plugins/hyperloop/hooks/android/tasks/scan-references-task.js:223-257 | the loop body for one required name computes the resolution defined above: its classes and its rewrite |
| ScanTasks.ExtractAndReplace | android/plugins/hyperloop/hooks/android/tasks/scan-references-task.js:204-264 | a missing file gives null; otherwise the classes its requires resolve to, in order, and its text with every resolved require rewritten |
| ScanTasks.ExtractUsedClasses | android/hooks/tasks/scan-references-task.js:209-309 | a missing file gives null; otherwise the classes named by the first run of each require or import literal, in order, with no rewritten text |
| ScanTasks.CallsStep | android/plugins/hyperloop/hooks/android/tasks/scan-references-task.js:204-264 | each further require call adds exactly the classes its own name resolves to |
| ScanTasks.LiteralsStep | android/hooks/tasks/scan-references-task.js:209-309 | each further literal adds the classes its first name run resolves to, or nothing when it has none |
| ScanTasks.FileAt | android/plugins/hyperloop/hooks/android/tasks/scan-references-task.js:205-209 | a file is read exactly when it exists on disk |
| ScanTasks.Scan | android/plugins/hyperloop/hooks/android/tasks/scan-references-task.js:184-195 | a file gets an entry exactly when it exists and names at least one metabase class; the hooks task records no text |
| ScanTasks.Lookup | android/plugins/hyperloop/hooks/android/tasks/scan-references-task.js:113-122 | the entry found for a path is the map's, and there is one exactly when the path is a key |
| ScanTasks.ScanAll | android/plugins/hyperloop/hooks/android/tasks/scan-references-task.js:89-97 | after scanning the inputs in order, a scanned input with classes has its new entry and every other path keeps its old one |
| ScanTasks.FullScan | android/plugins/hyperloop/hooks/android/tasks/scan-references-task.js:89-97 | a full scan from nothing has an entry for exactly the input files that name classes |
| ScanTasks.ApplyChanges | android/plugins/hyperloop/hooks/android/tasks/scan-references-task.js:113-122 | a created or changed file is rescanned, and dropped when it names no class; a deleted file is dropped; any other keeps its entry |
| ScanTasks.IncrementalMatchesFull | android/plugins/hyperloop/hooks/android/tasks/scan-references-task.js:107-126 | applying a change set that describes the move from the old inputs to the new ones, to a full scan of the old inputs, gives a full scan of the new inputs |
| ScanTasks.ScanReferencesTask.constructor | android/plugins/hyperloop/hooks/android/tasks/scan-references-task.js:18 | a new task starts with no references |
| ScanTasks.ScanReferencesTask.ScanFileForHyperloopRequires | android/plugins/hyperloop/hooks/android/tasks/scan-references-task.js:184-195 | the file's entry is recorded, and true answered, exactly when it names a class; otherwise nothing changes |
| ScanTasks.ScanReferencesTask.LoadReferences | android/plugins/hyperloop/hooks/android/tasks/scan-references-task.js:147-162 | stored references that can be read replace the current ones and true is answered; otherwise nothing changes |
| ScanTasks.ScanReferencesTask.WriteReferences | android/plugins/hyperloop/hooks/android/tasks/scan-references-task.js:167-175 | the current references become the stored ones |
| ScanTasks.ScanReferencesTask.DoFullTaskRun | android/plugins/hyperloop/hooks/android/tasks/scan-references-task.js:89-97 | every input is scanned in order on top of the current references, and the result is stored |
| ScanTasks.ScanReferencesTask.DoIncrementalTaskRun | android/plugins/hyperloop/hooks/android/tasks/scan-references-task.js:107-126 | a full run when the stored references cannot be loaded; otherwise the changes are applied to them and the result stored |
| ScanTasks.ScanReferencesTask.LoadResultAndSkip | android/plugins/hyperloop/hooks/android/tasks/scan-references-task.js:133-140 | the stored references when they load; otherwise a full run |
| ScanTasks.ScanReferencesTask.Run | android/plugins/hyperloop/hooks/android/internal/tasks/incremental-task.js:68-80 | the run kind picks the full, incremental or skipped run; whatever the kind, the stored references end equal to the task's own |
| JsStrings.TrimStart | iphone/hooks/generate/util.js:103-107 | JavaScript `trim` first drops the leading white space of the `\s` class; the result opens with no white space |
| JsStrings.TrimStartDrops | iphone/hooks/generate/util.js:103-107 | what `trimStart` removes is white space only, and it keeps a suffix |
| JsStrings.TrimEnd | iphone/hooks/generate/util.js:103-107 | the trailing white space is dropped; the result ends with no white space |
| JsStrings.TrimEndDrops | iphone/hooks/generate/util.js:103-107 | what `trimEnd` removes is white space only, and it keeps a prefix |
| JsStrings.Trim | iphone/hooks/generate/util.js:103-107 | `trim` gives a string with white space at neither end, no longer than its input |
| JsStrings.DropLeading | iphone/hooks/generate/util.js:106 | `replace(/^_+/, '')` removes exactly the leading run of underscores and keeps the rest |
| GenUtil.ToValue | iphone/hooks/generate/util.js:335-366 | only a one-character numeric encoding has an NSNumber accessor, whose name ends in "Value"; any other encoding ends the process |
| GenUtil.PrimitiveCodeHasValue | iphone/hooks/generate/util.js:29-68 | a one-character encoding is primitive exactly when `toValue` converts it |
| GenUtil.ToValueDefault | iphone/hooks/generate/util.js:368-394 | only one-character encodings have a default literal; any other ends the process |
| GenUtil.DefaultsCoverValues | iphone/hooks/generate/util.js:368-394 | an encoding has a default exactly when it has an accessor or is one of `@ : # ^`; those four default to nil, the numeric codes other than c, C and B to "0" |
| GenUtil.GetPrimitiveValue | iphone/hooks/generate/util.js:557-575 | every type other than the six short aliases and `enum` is returned unchanged |
| GenUtil.PrimitiveValueStable | iphone/hooks/generate/util.js:557-575 | expanding keeps a primitive primitive, turns `enum` into the primitive `int`, and expanding twice is expanding once |
| GenUtil.StructEncoding | iphone/hooks/generate/struct.js:124-160 | a struct encodes as `{`, its name, `=`, one encoding per field and `}`, so its length is the name, the fields and three |
| GenUtil.GetStructNameFromEncoding | iphone/hooks/generate/util.js:103-108 | a name exactly for encodings opening with '{', undefined otherwise; without an '=' the bounds of `substring(1, -1)` swap and the name is "{" |
| GenUtil.StructNameRoundTrip | iphone/hooks/generate/util.js:103-108 | the name read back from a struct encoding `{name=...}` is the name it was built from, for names without '=', leading '_' or surrounding white space |
| GenUtil.RepeatIsJoin | iphone/hooks/generate/util.js:312-314 | `repeat(ch, n)` is `n` empty slots joined by `ch`, so it holds `n - 1` copies of `ch` |
| GenUtil.NamesAsWrittenStep | iphone/hooks/generate/util.js:320-328 | one round of the naming: '_' before the argument's (block) name, plus "_" and the index when that name was already given |
| GenUtil.GenerateArgList | iphone/hooks/generate/util.js:316-333 | no arguments give the default text; otherwise the list is parenthesised and holds one name per argument, pairwise distinct, each `_` followed by the argument's name |
| GenUtil.GenerateArgListAsWritten | iphone/hooks/generate/util.js:316-333 | the loop returns `def` without arguments, otherwise the parenthesised names chosen by the rule above, joined by ", " |
| GenUtil.ArgNamesCollideAsWritten | iphone/hooks/generate/util.js:316-333 | arguments `x_2`, `x`, `x` are named `_x_2`, `_x`, `_x_2`: the renamed third collides with the first |
| GenUtil.Fresh | iphone/hooks/generate/util.js:324-326 | appending the suffix until the name is free ends with a name not yet given that starts with the original |
| GenUtil.NamesFromDistinct | iphone/hooks/generate/util.js:316-333 | with the corrected renaming, each name starts with its argument's base name, none was given before, and no two are equal |
| GenUtil.ArgNamesDistinct | iphone/hooks/generate/util.js:316-333 | the corrected argument list has one name per argument, pairwise distinct, each starting with '_' and the argument's name |
| GenUtil.GenerateSetterSelector | iphone/hooks/generate/util.js:534-536 | "set", the name with its first character upper-cased, and ':'; the rest of the name is kept |
| GenUtil.SetterSelectorRoundTrip | iphone/hooks/generate/util.js:534-536 | the property a setter selector sets is recovered from it for names that do not open with a capital |
| GenUtil.ObjectTypeDefaultsToNil | iphone/hooks/generate/util.js:700-714 | an object recognised by its one-character encoding ('@' or '#') defaults to nil |
| GenUtil.GenerateSafeSymbol | iphone/hooks/generate/util.js:729-731 | same length; each white-space character and each of `^ ( ) \ < > * : + ,` becomes '_', every other character is kept |
| GenUtil.SafeSymbolIsSafe | iphone/hooks/generate/util.js:729-731 | a safe symbol holds no breaking character |
| GenUtil.SafeSymbolIdempotent | iphone/hooks/generate/util.js:729-731 | making a safe symbol safe again changes nothing |
| GenUtil.SafeUnchanged | iphone/hooks/generate/util.js:729-731 | a string without breaking characters is its own safe symbol |
| GenUtil.CamelFrom | iphone/hooks/generate/util.js:734-739 | the first replace of `camelCase` never lengthens the text it scans |
| GenUtil.CamelCase | iphone/hooks/generate/util.js:733-740 | the result holds no ':' and is no longer than the input |
| GenUtil.CamelFromPlain | iphone/hooks/generate/util.js:734-739 | without separators, and without a capital at the start, the replace copies the text unchanged |
| GenUtil.CamelCasePlain | iphone/hooks/generate/util.js:733-740 | a name without white space, '-', '_' or ':' that does not open with a capital is its own camel case |
| GenUtil.CamelSeparatorStep | iphone/hooks/generate/util.js:734-739 | a separator followed by a word character is replaced by that character upper-cased |
| IosMetabase.TargetEntries | packages/hyperloop-ios-metabase/lib/metabase.js:216-217 | the entries the `in` test sees in `a[key] || {}`: an object's own entries, an array's elements under their index names, none when the kind is absent or falsy; it throws exactly for a truthy number, boolean or string |
| IosMetabase.IndexEntries | packages/hyperloop-ios-metabase/lib/metabase.js:215-217 | element `i` of an array or string is the entry named by the decimal rendering of `i`, there is no other entry, and only an empty sequence has none |
| IosMetabase.ObjectEntries | packages/hyperloop-ios-metabase/lib/metabase.js:215 | `Object.keys` with its values: an object's own entries, an array's elements and a string's characters under their index names, nothing for a number or boolean; it throws exactly for null |
| IosMetabase.KindAfter | packages/hyperloop-ios-metabase/lib/metabase.js:213-222 | a kind the source lacks is left as it was; otherwise the merge of that kind fails exactly when the source kind is null, or has entries and the target kind is a truthy number, boolean or string; a source kind without entries leaves the target kind as it was |
| IosMetabase.KindAfterEntries | packages/hyperloop-ios-metabase/lib/metabase.js:215-221 | a kind the source holds entries for ends up holding exactly the source's entries overridden by the target's; it is an object unless the target held an array |
| IosMetabase.KindAfterIdempotent | packages/hyperloop-ios-metabase/lib/metabase.js:213-222 | merging one kind from the same source a second time changes nothing |
| IosMetabase.Merged | packages/hyperloop-ios-metabase/lib/metabase.js:210-225 | `merge` succeeds exactly when every one of the nine kinds can be merged |
| IosMetabase.MergedAt | packages/hyperloop-ios-metabase/lib/metabase.js:210-225 | under every key the merged metabase holds the kind merged by `KindAfter`, or the target's own value outside the nine kinds |
| IosMetabase.MergeKeepsTarget | packages/hyperloop-ios-metabase/lib/metabase.js:217-221 | an entry the target already has is never overwritten |
| IosMetabase.MergeAddsSource | packages/hyperloop-ios-metabase/lib/metabase.js:214-221 | a kind the source holds entries for ends up with every entry of both: the target's own under a name it has, the source's otherwise; it is an object unless the target held an array |
| IosMetabase.MergeCreatesOnlyFromSource | packages/hyperloop-ios-metabase/lib/metabase.js:214-221 | a key the target lacks appears only for one of the nine kinds whose source value lists at least one entry |
| IosMetabase.MergeUntouched | packages/hyperloop-ios-metabase/lib/metabase.js:212-214 | `metadata` and every other key outside the nine kinds is left as it was |
| IosMetabase.MergeIdempotent | packages/hyperloop-ios-metabase/lib/metabase.js:210-225 | merging the same source a second time changes nothing |
| IosMetabase.MergeNothing | packages/hyperloop-ios-metabase/lib/metabase.js:210-225 | merging a source that holds none of the kinds leaves the target unchanged |
| IosMetabase.KindPartStep | packages/hyperloop-ios-metabase/lib/metabase.js:215-221 | one visit of a source entry adds it, making the kind an object, exactly when the kind so far lacks that name; otherwise the kind is left as it was |
| IosMetabase.KindPartAll | packages/hyperloop-ios-metabase/lib/metabase.js:215-221 | once every source entry has been visited, the kind merge has not failed and the kind is exactly what `KindAfter` gives |
| IosMetabase.MetabaseObject.MergeKind | packages/hyperloop-ios-metabase/lib/metabase.js:214-222 | for one kind, the in-place loop fails exactly when `KindAfter` does; otherwise it leaves the kind's merged value and changes no other key |
| IosMetabase.MetabaseObject.Merge | packages/hyperloop-ios-metabase/lib/metabase.js:210-225 | the in-place merge fails exactly when `Merged` does; otherwise it leaves exactly `Merged(old, b)` and returns the target object itself |
| IosMetabase.MergePartStep | packages/hyperloop-ios-metabase/lib/metabase.js:213-223 | the nine kinds are merged one after the other, each independent of the rest |
| IosMetabase.FrameworkOf | packages/hyperloop-ios-metabase/lib/metabase.js:234-239 | a header names a framework exactly when it contains ".framework"; the name is a single path segment (no '/') |
| IosMetabase.FrameworkOfPath | packages/hyperloop-ios-metabase/lib/metabase.js:234-239 | for `dir/Name.framework/...`, with no '.' before the suffix, the framework is `Name` |
| IosMetabase.ExtractFrameworksFromDependencies | packages/hyperloop-ios-metabase/lib/metabase.js:232-242 | the result holds every framework some header names, each once, in the order of their first headers, which is the insertion order a `Set` keeps |
| IosMetabase.FirstHeaderOf | packages/hyperloop-ios-metabase/lib/metabase.js:234-238 | the index of the first header that names the framework: that header names it and no earlier one does; none when no header names it |
| IosMetabase.FirstHeaderAt | packages/hyperloop-ios-metabase/lib/metabase.js:234-238 | a header naming a framework that no earlier header names is the first header of that framework |
| IosMetabase.InFirstOrderStep | packages/hyperloop-ios-metabase/lib/metabase.js:234-240 | each header keeps the list in first-header order: a framework not yet listed is appended after every listed one |
| IosMetabase.FrameworkSetStep | packages/hyperloop-ios-metabase/lib/metabase.js:234-240 | each further header adds at most its own framework to the set |
| IosMetabase.DependenciesOf | packages/hyperloop-ios-metabase/lib/metabase.js:274-276 | the dependency list is read only from a metabase that has a `metadata` object |
| IosMetabase.Enqueue | packages/hyperloop-ios-metabase/lib/metabase.js:278-283 | queues every dependency that is neither done nor queued, each once; the existing queue stays a prefix; nothing is queued when all are done or queued already |
| IosMetabase.UnifiedStep | packages/hyperloop-ios-metabase/lib/metabase.js:262-285 | one round keeps the loop invariant: the request is covered, everything done was generated and has its dependencies done or queued, and nothing is done or queued twice; the work left shrinks |
| IosMetabase.StepClosed | packages/hyperloop-ios-metabase/lib/metabase.js:270-283 | after one round every dependency of a done framework is done or queued |
| IosMetabase.StepDistinct | packages/hyperloop-ios-metabase/lib/metabase.js:263-270 | the framework taken from the queue was not done before, so `frameworksDone` stays free of repeats |
| IosMetabase.UnifiedMetabase | packages/hyperloop-ios-metabase/lib/metabase.js:256-297 | on success the result is the metabases of the done frameworks merged in order; every requested framework is done; every dependency of a done framework is done too; with no repeats in the request nothing is done twice |
| IosMetabase.ReadDirFilesBelow | packages/hyperloop-ios-metabase/lib/metabase.js:37-49 | every path `recursiveReadDir` lists lies below the directory it was given |
| IosMetabase.HeaderFiles | packages/hyperloop-ios-metabase/lib/metabase.js:57-67 | keeps exactly the listed paths ending in ".h", ".hpp" or ".swift" |
| IosMetabase.CollectFrameworkHeaders | packages/hyperloop-ios-metabase/lib/metabase.js:76-84 | a missing path fails; a file is its own only header; for a directory, a path is listed exactly when it lies below it, is not a directory and has a header name; anything else gives none |
| IosModuleMetadata.ParseNumeric | packages/hyperloop-ios-metabase/lib/module_metadata.js:68-72 | a version number `semver` accepts is a non-empty run of digits without a leading zero and no larger than the largest safe integer |
| IosModuleMetadata.ParseSemver | packages/hyperloop-ios-metabase/lib/module_metadata.js:68-72 | a string `semver` accepts is at most 256 characters long and its three components are at most the largest safe integer |
| IosModuleMetadata.VersionLeTransitive | packages/hyperloop-ios-metabase/lib/module_metadata.js:72 | the order `semver.lte` uses is transitive |
| IosModuleMetadata.VersionLeTotal | packages/hyperloop-ios-metabase/lib/module_metadata.js:72 | any two versions are ordered, and two versions ordered both ways are equal |
| Strs.NatToStringValue | packages/hyperloop-ios-metabase/lib/module_metadata.js:68-72 | the digits of a number, read back, give the number |
| Strs.NatToStringNoLeadingZero | packages/hyperloop-ios-metabase/lib/module_metadata.js:68-72 | a rendered number has no leading zero, so `semver` accepts it |
| IosModuleMetadata.ParseNumericOfNat | packages/hyperloop-ios-metabase/lib/module_metadata.js:68-72 | a rendered safe integer is read back as itself |
| IosModuleMetadata.RenderTrimmed | packages/hyperloop-ios-metabase/lib/module_metadata.js:68-72 | a rendered version is left alone by the trim `semver` applies first |
| IosModuleMetadata.RenderSplit | packages/hyperloop-ios-metabase/lib/module_metadata.js:68-72 | a rendered version splits at its dots into its three numbers |
| IosModuleMetadata.ParseRender | packages/hyperloop-ios-metabase/lib/module_metadata.js:68-72 | `semver` reads back the version it renders |
| IosModuleMetadata.AppleVersionToSemver | packages/hyperloop-ios-metabase/lib/module_metadata.js:11-20 | the Apple version is a prefix of the result; the result has at least three dot-separated parts; a version with three or more parts is returned unchanged |
| IosModuleMetadata.AppleVersionOfTwo | packages/hyperloop-ios-metabase/lib/module_metadata.js:11-20 | the Apple version `MAJOR.MINOR` becomes the semantic version `MAJOR.MINOR.0` |
| IosModuleMetadata.AppleVersionOfOne | packages/hyperloop-ios-metabase/lib/module_metadata.js:11-20 | the Apple version `MAJOR` becomes the semantic version `MAJOR.0.0` |
| IosModuleMetadata.IsAvailable | packages/hyperloop-ios-metabase/lib/module_metadata.js:67-73 | a module without a valid `introducedIn` is available; otherwise the check fails exactly when the iOS version cannot be read, and the module is available exactly when its introduced version is at most the iOS version, compared as semver |
| IosModuleMetadata.AvailableLater | packages/hyperloop-ios-metabase/lib/module_metadata.js:67-73 | a module available in one iOS version is available in every later one |
| IosModuleMetadata.AvailableInItsOwnVersion | packages/hyperloop-ios-metabase/lib/module_metadata.js:11-20 | a module introduced in `MAJOR.MINOR.0` is available in iOS `MAJOR.MINOR` |
| IosModuleMetadata.FieldOf | packages/hyperloop-ios-metabase/lib/module_metadata.js:98-104 | a property of a plain object is its member, and reads as null when absent |
| IosModuleMetadata.ModuleJson | packages/hyperloop-ios-metabase/lib/module_metadata.js:80-89 | `toJson` writes exactly the six properties name, path, type, introducedIn, umbrellaHeader and usesSwift |
| IosModuleMetadata.ModuleJsonFields | packages/hyperloop-ios-metabase/lib/module_metadata.js:80-104 | each property `toJson` writes reads back as what was written |
| IosModuleMetadata.ModuleMetadata.constructor | packages/hyperloop-ios-metabase/lib/module_metadata.js:35-42 | a new module is a framework exactly when its path ends in ".framework"; introducedIn and umbrellaHeader are null, usesSwift false, nothing cached |
| IosModuleMetadata.ModuleMetadata.ToJson | packages/hyperloop-ios-metabase/lib/module_metadata.js:80-89 | the plain object holds the module's six serialisable properties |
| IosModuleMetadata.ModuleMetadata.Available | packages/hyperloop-ios-metabase/lib/module_metadata.js:67-73 | availability is decided by the module's own `introducedIn` |
| IosModuleMetadata.ModuleMetadata.FromJson | packages/hyperloop-ios-metabase/lib/module_metadata.js:98-104 | fails exactly when the path is not a string; otherwise a fresh module with every property taken from the object and `isFramework` computed from the path |
| IosModuleMetadata.ModuleMetadata.RoundTrip | packages/hyperloop-ios-metabase/lib/module_metadata.js:80-104 | `fromJson(m.toJson())` gives a module with the same properties as `m` |
| IosModuleMetadata.ModuleMetadata.GenerateMetabase | packages/hyperloop-ios-metabase/lib/module_metadata.js:106-122 | a cached metabase is returned without generating; otherwise the generated one is returned, or its failure, and a success is cached |
| IosSwift.GetEncodingForValue | packages/hyperloop-ios-metabase/lib/swift.js:64-88 | a type name the table knows, in any case, has its one-character code; any other name comes back lower-cased |
| IosSwift.EncodingIgnoresCase | packages/hyperloop-ios-metabase/lib/swift.js:64-88 | the encoding of a name does not change when the name is upper-cased |
| IosSwift.CharPointerEncodings | packages/hyperloop-ios-metabase/lib/swift.js:82 | both `char *` and `char_s` encode as `*`, whatever their case |
| IosSwift.UnknownEncodingLowercased | packages/hyperloop-ios-metabase/lib/swift.js:87 | an unknown name such as `CGFloat` is returned as `cgfloat`, not as an unknown-type code |
| IosSwift.GenerateSwiftMangledClassName | packages/hyperloop-ios-metabase/lib/swift.js:157-159 | the mangled name is `_TtC`, then the application name and the class name each after its decimal length, so its length is the sum of those parts |
| IosSwift.DemangleClassName | packages/hyperloop-ios-metabase/lib/swift.js:157-159 | the reading back of a mangled name: only a text starting with `_TtC` reads, the two names fit inside it, and the class name is its tail |
| IosSwift.MangledNameRoundTrip | packages/hyperloop-ios-metabase/lib/swift.js:157-159 | a mangled class name decodes back to the application and class names it was built from when neither starts with a digit |
| IosSwift.MangledNameExample | packages/hyperloop-ios-metabase/lib/swift.js:157-159 | the names `a` and `b` mangle to `_TtC1a1b` |
| IosSwift.ExtractImports | packages/hyperloop-ios-metabase/lib/swift.js:144-149 | the loop returns exactly `ImportsFrom`, the words of the matches of `import\s*(\w+)` in order, and each import is a non-empty run of word characters |
| IosSwift.ImportsFromStep | packages/hyperloop-ios-metabase/lib/swift.js:146-147 | from a position, a match of the pattern there gives its word followed by the imports after the match; no match there passes on to the next position |
| IosSwift.ImportsFromNone | packages/hyperloop-ios-metabase/lib/swift.js:146 | a text with no match from a position on has no imports from there |
| IosSwift.ImportsFromFirst | packages/hyperloop-ios-metabase/lib/swift.js:146-147 | the first match from a position gives the first import, and the rest come from the end of that match |
| IosSwift.ImportsFromSound | packages/hyperloop-ios-metabase/lib/swift.js:146-147 | every import is the word of some match of the pattern at or after the position |
| IosSwift.ImportFirst | packages/hyperloop-ios-metabase/lib/swift.js:144-149 | a file that starts with `import Name` has `Name` as its first import, and the search goes on after it |
| IosSwift.ImportInsideWordAsWritten | packages/hyperloop-ios-metabase/lib/swift.js:146 | the word `important` holds no import keyword, yet yields the import `ant` |
| IosSwift.ExtractImportsCorrected | packages/hyperloop-ios-metabase/lib/swift.js:146 | with the keyword required to stand alone and be followed by white space, a text without the keyword imports nothing |
| IosSwift.FieldEncoding | packages/hyperloop-ios-metabase/lib/swift.js:97-99 | a null field fails; a truthy own `encoding` is used, converted to a string; otherwise the field encodes exactly when `type || value` is a string, and its encoding is `getEncodingForValue` of that string |
| IosSwift.FieldTypeName | packages/hyperloop-ios-metabase/lib/swift.js:98 | `field.type || field.value`: the type when it is truthy, else the value; a string only when the chosen one is |
| IosSwift.FieldsEncoding | packages/hyperloop-ios-metabase/lib/swift.js:97-99 | no fields encode as the empty text; the list encodes exactly when every field does (how the encodings join is `FieldsEncodingAppend`) |
| IosSwift.FieldsEncodingSingle | packages/hyperloop-ios-metabase/lib/swift.js:97-99 | a single field's encoding is the list's |
| IosSwift.FieldsEncodingAppend | packages/hyperloop-ios-metabase/lib/swift.js:97-99 | the encoding of two lists joined is the two encodings joined, and fails exactly when one of them fails |
| IosSwift.FieldsEncodingOfObjects | packages/hyperloop-ios-metabase/lib/swift.js:97-99 | fields that carry their own non-empty encodings encode as `makeStruct` concatenates them |
| IosSwift.StructDefinitionToEncoding | packages/hyperloop-ios-metabase/lib/swift.js:95-101 | a null definition fails; without truthy fields it is `{name=}`; with fields it succeeds exactly when they are an array whose fields all encode, and is then `{`, the name, `=`, the field encodings and `}` |
| IosSwift.StructDefinitionOfObjects | packages/hyperloop-ios-metabase/lib/swift.js:95-101 | a struct whose fields carry non-empty encodings encodes as `{name=...}` over those encodings |
| IosSwift.StructDefinitionAgreesWithMakeStruct | packages/hyperloop-ios-metabase/lib/swift.js:95-101 | for such a struct the Swift generator and `makeStruct` (iphone/hooks/generate/struct.js:120-160) produce the same encoding |
| IosSwift.StructDefinitionNameRoundTrip | packages/hyperloop-ios-metabase/lib/swift.js:95-101 | the generator reads the struct's name back out of the encoding built here |
| IosSwift.ResolveType | packages/hyperloop-ios-metabase/lib/swift.js:110-137 | a primitive (by its lower-case name) resolves before a class, which resolves to `@`; a struct resolves exactly when its definition encodes, to that encoding; a typedef resolves to its own `type` and `encoding`; a failure means the name is no primitive or class, its struct could not be encoded, or its typedef is null |
| IosSwift.StructBeforeTypedef | packages/hyperloop-ios-metabase/lib/swift.js:124-134 | a struct of the metabase wins over a typedef of the same name |
| IosSwift.ClassBeforeStructAndTypedef | packages/hyperloop-ios-metabase/lib/swift.js:118-134 | a class of the metabase wins over a struct or typedef of the same name |
| IosSwift.UnknownTypeFails | packages/hyperloop-ios-metabase/lib/swift.js:131-137 | a name that is no primitive, class, struct or typedef ends the run |
| IosSwiftAst.Initial | packages/hyperloop-ios-metabase/lib/swift.js:180-183 | the loop starts with no classes, no current class and no current method |
| IosSwiftAst.ExtractSwiftClasses | packages/hyperloop-ios-metabase/lib/swift.js:178-299 | the loop over the lines gives what the line-by-line specification gives; every class it returns is stored under its own name with the file and framework, its methods and properties under their names, and is in the metabase's classes |
| IosSwiftAst.StepSkips | packages/hyperloop-ios-metabase/lib/swift.js:185-297 | a blank line changes nothing; outside a method, so does any line that is not a class declaration, a variable declaration inside a class, or a function declaration without `getter_for=` |
| IosSwiftAst.RunBlank | packages/hyperloop-ios-metabase/lib/swift.js:178-299 | a listing whose remaining lines are all blank leaves the state as it was |
| IosSwiftAst.StepInv | packages/hyperloop-ios-metabase/lib/swift.js:185-297 | every line keeps the current class and method inside the collection, keeps every collected class well formed and in the metabase, and removes no class |
| IosSwiftAst.RunKeepsClasses | packages/hyperloop-ios-metabase/lib/swift.js:185-297 | a class collected at some line is still collected at the end of the listing |
| IosSwiftAst.ClassDeclLine | packages/hyperloop-ios-metabase/lib/swift.js:189-215 | a public or open `class_decl` is collected, empty, in the metabase, and becomes the current class; any other only closes the current class |
| IosSwiftAst.NonPublicVarDecl | packages/hyperloop-ios-metabase/lib/swift.js:216-233 | a `var_decl` that is neither public nor open adds no property |
| IosSwiftAst.NonPublicFuncDecl | packages/hyperloop-ios-metabase/lib/swift.js:234-273 | a `func_decl` that is neither public nor open adds no method and closes the current method |
| IosSwiftAst.PublicFuncDecl | packages/hyperloop-ios-metabase/lib/swift.js:234-273 | a public `func_decl` in a public class is stored under its name before `(`, becomes the current method, and is a class method when its last token is `type` |
| IosSwiftAst.SelfParameterSkipped | packages/hyperloop-ios-metabase/lib/swift.js:274-284 | the `self` parameter changes nothing |
| IosSwiftAst.ResultClosesMethod | packages/hyperloop-ios-metabase/lib/swift.js:292-295 | a `(result` line followed by its type closes the current method |
| IosSwiftAst.MethodNamingShape | packages/hyperloop-ios-metabase/lib/swift.js:237-250 | the method name is a prefix of the name; a name opening with `(` has no selector and no arguments, and keeps the whole name as its method name; otherwise the selector starts with the method name and the arguments start empty |
| IosSwiftAst.MethodNamingOf | packages/hyperloop-ios-metabase/lib/swift.js:237-250 | a name `m(labels)` gives the method `m`, an empty argument list, and a selector that adds every label after the first |
| IosSwiftAst.MethodNamingExample | packages/hyperloop-ios-metabase/lib/swift.js:237-250 | `foo(a:b:)` is the method `foo` with selector `foo:b:` |
| IosSwiftAst.MethodNamingWithoutParen | packages/hyperloop-ios-metabase/lib/swift.js:237-250 | a name without `(` gives the empty method name, because the test lets the index -1 through |
| GenCustom.CountChar | iphone/hooks/generate/custom.js:64-69 | the count of a character in a string is at most the string's length |
| GenCustom.CountCharAppend | iphone/hooks/generate/custom.js:64-69 | counting a character in a concatenation adds the counts of the two parts |
| GenCustom.BalancedEnd | iphone/hooks/generate/custom.js:73-80 | the index found is at or after the start of the search, inside the string, and holds a closing brace |
| GenCustom.DecodeStructSpec | iphone/hooks/generate/custom.js:71-82 | a structure decoded from inside the string is never empty |
| GenCustom.BalancedEndBalanced | iphone/hooks/generate/custom.js:74-78 | the closing brace where the search stops closes a slice with as many opening as closing braces |
| GenCustom.DecodeStructShortest | iphone/hooks/generate/custom.js:71-82 | the decoded structure is the shortest slice from the offset that ends in a closing brace and balances its braces; when no closing brace balances, it is the whole string |
| GenCustom.BalancedEndFirst | iphone/hooks/generate/custom.js:74-80 | no closing brace before the one where the search stops balances the slice |
| GenCustom.BalancedEndSkip | iphone/hooks/generate/custom.js:73-79 | skipping over characters that are not closing braces, as indexOf does, does not change where the search stops |
| GenCustom.NextBrace | iphone/hooks/generate/custom.js:73-79 | the closing brace found is at or after the start of the search and inside the string |
| GenCustom.NextBraceBalancedEnd | iphone/hooks/generate/custom.js:73-79 | searching from the next closing brace finds the same balanced end as searching from the start |
| GenCustom.SearchStart | iphone/hooks/generate/custom.js:72-73 | the search begins at the first closing brace after the offset |
| GenCustom.SearchStep | iphone/hooks/generate/custom.js:74-79 | a balanced candidate is the decoded structure; otherwise the search goes on from the next closing brace |
| GenCustom.SearchExhausted | iphone/hooks/generate/custom.js:80-81 | with no closing brace left, the decoded structure is the whole string |
| GenCustom.DecodeStruct | iphone/hooks/generate/custom.js:71-82 | the loop over closing braces returns exactly the decoded structure of the specification |
| GenCustom.DecodeStructAt | iphone/hooks/generate/custom.js:74-78 | the first balancing closing brace found by the loop is where the specification ends the structure |
| GenCustom.PrimitiveValue | iphone/hooks/generate/custom.js:95-112 | every single-character type has a non-empty C type name and is neither a qualifier nor a structure, object, pointer or class-name opener |
| GenCustom.OptStr | iphone/hooks/generate/custom.js:148-151 | a missing value is spelled undefined, as string concatenation spells it |
| GenCustom.StructEntry | iphone/hooks/generate/custom.js:113-130 | a structure's encoding is the decoded structure, its span covers that structure, and it always has a value |
| GenCustom.BracketEntry | iphone/hooks/generate/custom.js:154-221 | a bracketed name spans the name and its brackets, and a class of the metabase becomes a pointer to that class encoded as an object |
| GenCustom.PointerEntry | iphone/hooks/generate/custom.js:144-153 | a pointer's value is the inner value followed by a star and its encoding is a caret before the inner encoding; the corrected span is the inner span plus one, the span as written is the value's length minus two when the inner span is zero |
| GenCustom.GetEncoding | iphone/hooks/generate/custom.js:84-222 | an index outside the string fails, and every corrected span is non-negative |
| GenCustom.EncodingByCharacter | iphone/hooks/generate/custom.js:90-143 | a qualifier has an empty value, a single-character type its C type, an object is id spanning a following question mark, an unknown character fails, and every type but a qualifier or a bracketed name has a value |
| GenCustom.ParseArgs | iphone/hooks/generate/custom.js:229-233 | every decoded argument has a value, and there is nothing to decode past the end |
| GenCustom.Push | iphone/hooks/generate/custom.js:231 | an entry with a value goes in front of the rest of the decoding, one without is dropped, and an error passes through |
| GenCustom.ParseEncodingSpec | iphone/hooks/generate/custom.js:224-238 | a decoded signature carries the decoding of the argument types after the separator and of the return type before it; it fails only when one of them fails |
| GenCustom.DecodingStart | iphone/hooks/generate/custom.js:228-229 | the loop starts with no arguments kept at the first character |
| GenCustom.ParseArgsStep | iphone/hooks/generate/custom.js:229-233 | the entry at the current index is followed by the decoding from just after its span |
| GenCustom.DecodingStep | iphone/hooks/generate/custom.js:230-232 | one pass keeps the entry if it has a value and moves past its span, keeping the loop's state |
| GenCustom.PrependPush | iphone/hooks/generate/custom.js:231 | keeping an entry moves it from the rest of the decoding to the kept arguments |
| GenCustom.DecodingFails | iphone/hooks/generate/custom.js:230 | a type that does not decode fails the whole decoding with its error |
| GenCustom.DecodingDone | iphone/hooks/generate/custom.js:229-233 | at the end of the argument types the kept arguments are the whole decoding |
| GenCustom.ParseEncoding | iphone/hooks/generate/custom.js:224-238 | decoding the argument types and then the return type gives exactly the signature of the specification |
| GenCustom.DecodeArguments | iphone/hooks/generate/custom.js:228-233 | the loop over the argument types gives exactly the decoding of the specification |
| GenCustom.PrimitiveArgs | iphone/hooks/generate/custom.js:229-233 | argument types made only of single-character types decode to one argument per character, each with its C type |
| GenCustom.ParseStepAsWritten | iphone/hooks/generate/custom.js:229-232 | one pass of the loop as written moves the index by the entry's span plus one |
| GenCustom.PointerSkipAsWritten | iphone/hooks/generate/custom.js:144-153 | as written, a void pointer followed by int moves the loop past the end after one argument; the corrected decoding gives void * and int |
| GenCustom.PointerLoopAsWritten | iphone/hooks/generate/custom.js:144-153 | as written, int followed by a pointer to a qualifier moves the loop back from index 1 to index 0, and from 0 to 1 again |
| GenCustom.PointerSpansInner | iphone/hooks/generate/custom.js:144-153 | with the corrected span a pointer covers itself and its inner type, and its value is the inner value followed by a star |
| GenCustom.GenerateIdentifier | iphone/hooks/generate/custom.js:240-242 | the identifier is as long as the class name, selector and three more characters, ends in 1 for an instance method and 0 otherwise, and holds no character that breaks a symbol |
| GenCustom.FriendlyCode | iphone/hooks/generate/custom.js:780-805 | every friendly type name has a one- or two-character encoding that starts with neither a question mark nor a bracket |
| GenCustom.ClassPart | iphone/hooks/generate/custom.js:807-809 | a class name is cut before its first angle bracket, so it is a prefix of the type without one |
| GenCustom.EncodeFriendlyType | iphone/hooks/generate/custom.js:780-816 | a known friendly name gives its encoding and records no import; any other name is encoded in brackets with its generic part cut off and is recorded as an import |
| GenCustom.FriendlyCodeDecodes | iphone/hooks/generate/custom.js:84-153 | the encoding of a friendly name, met anywhere in an encoding, decodes back to the name's canonical spelling and spans exactly that encoding |
| GenCustom.FriendlyCodeChar | iphone/hooks/generate/custom.js:780-805 | every fixed encoding but the void pointer is one character, which decodes to the name's canonical spelling |
| GenCustom.DecodesToCons | iphone/hooks/generate/custom.js:231 | one more decoded name in front of a decoding that matches the remaining names |
| GenCustom.FriendlyArgsDecode | iphone/hooks/generate/custom.js:846-862 | the encodings of a list of friendly names, joined, decode to the names' canonical spellings, one argument each |
| GenCustom.CodesSplit | iphone/hooks/generate/custom.js:856-859 | the first name's encoding opens the joined encodings and is not followed by a question mark |
| GenCustom.FriendlyStep | iphone/hooks/generate/custom.js:229-233 | a friendly name's encoding met at the current index adds its canonical spelling in front of the decoding that follows |
| GenCustom.Field | iphone/hooks/generate/custom.js:835-886 | a member of the method spec is found exactly when its key is present |
| GenCustom.Strings | iphone/hooks/generate/custom.js:856-859 | string names become string items of a JSON array, in order |
| GenCustom.FriendlyList | iphone/hooks/generate/custom.js:856-859 | encoding an argument list only adds imports, and fails when an item is not a string |
| GenCustom.FriendlyListOfNames | iphone/hooks/generate/custom.js:856-859 | a list of names with fixed encodings is encoded to their joined encodings and records no import |
| GenCustom.WithSelector | iphone/hooks/generate/custom.js:835-838 | a truthy signature replaces the selector and is removed; otherwise the spec is unchanged |
| GenCustom.WithFriendlyEncoding | iphone/hooks/generate/custom.js:846-862 | with a return type or arguments the spec gets a string encoding in their place and keeps every other member; with neither it is unchanged |
| GenCustom.ReturnTypeCode | iphone/hooks/generate/custom.js:848 | a missing return type encodes as v, a string one as its friendly encoding, any other truthy one fails |
| GenCustom.ArgumentsCode | iphone/hooks/generate/custom.js:849-860 | missing arguments encode as nothing, an array as its items' encodings joined, any other value as its string form |
| GenCustom.Normalize | iphone/hooks/generate/custom.js:835-886 | an accepted spec has a string selector, a truthy encoding, an instance flag kept from the spec when given, and a callback that is then dropped, and its imports only grow; the argument-count check is left out because it never fails |
| GenCustom.DefaultEncoding | iphone/hooks/generate/custom.js:863-866 | a spec with only a selector and a callback gets the encoding v@: and is an instance method |
| GenCustom.SignatureIsSelector | iphone/hooks/generate/custom.js:835-838 | a truthy signature becomes the selector and does not stay in the spec |
| GenCustom.FriendlyTypesEncoded | iphone/hooks/generate/custom.js:846-862 | a return type and arguments with fixed encodings become the encoding made of their codes around the separator, with no import recorded |
| GenCustom.FriendlyTypesEncoding | iphone/hooks/generate/custom.js:846-862 | the friendly-type step alone gives that encoding and records no import |
| GenCustom.FriendlyEncodingDecodes | iphone/hooks/generate/custom.js:224-238 | the encoding built from friendly types with fixed encodings decodes back to their canonical spellings, the return type and one argument per name |
| GenCustom.FriendlyCodeNamed | iphone/hooks/generate/custom.js:780-805 | only non-empty names have fixed encodings |
| GenCustom.SplitAtSelfSel | iphone/hooks/generate/custom.js:225-227 | the separator right after a one-character or void-pointer return encoding splits the encoding back into its two parts |
| GenCustomClass.CustomClass.constructor | iphone/hooks/generate/custom.js:752-762 | a new custom class has no methods and imports its superclass and every protocol it implements |
| GenCustomClass.CustomClass.AddMethod | iphone/hooks/generate/custom.js:823-887 | a rejected spec changes nothing; an accepted one records its imports and is stored under its selector, unless the selector is already taken, which fails and leaves the methods as they were |
| GenStruct.IndexOfFirst | iphone/hooks/generate/struct.js:15-16 | the index `indexOf` gives holds the character and none before it does; -1 means the character does not occur |
| GenStruct.IndexOfAfter | iphone/hooks/generate/struct.js:15-16 | the first occurrence of a character is found right after a prefix that does not hold it |
| GenStruct.StripBraces | iphone/hooks/generate/struct.js:19 | removing every brace leaves no brace and never lengthens the text |
| GenStruct.StripBracesNone | iphone/hooks/generate/struct.js:19 | a text without braces is left as it is |
| GenStruct.Unbrace | iphone/hooks/generate/struct.js:19 | the text returned when the recursion ends holds no brace |
| GenStruct.UnbracePlain | iphone/hooks/generate/struct.js:19 | type codes without braces, `=` or white space come back unchanged when the recursion ends |
| GenStruct.FlattenStep | iphone/hooks/generate/struct.js:15-26 | a call ends exactly when there is no `{` or no `=`; when `{` comes before `=` the text it recurses on is shorter |
| GenStruct.FlattenStruct | iphone/hooks/generate/struct.js:14-28 | a flattening that ends holds no brace |
| GenStruct.FlattenCall | iphone/hooks/generate/struct.js:14-28 | one call returns text without braces whenever the calls it makes end |
| GenStruct.CallAgain | iphone/hooks/generate/struct.js:21-27 | a call that does not end recurses on the trimmed cut |
| GenStruct.CallDone | iphone/hooks/generate/struct.js:17-20 | a call with no `{` or no `=` returns the text without braces |
| GenStruct.FlattenMoreFuel | iphone/hooks/generate/struct.js:14-28 | once the recursion ends, allowing it more calls does not change the result |
| GenStruct.HeaderStep | iphone/hooks/generate/struct.js:21-26 | a struct header `{name=` is cut away with everything from the first `}` after it |
| GenStruct.LeafDone | iphone/hooks/generate/struct.js:15-19 | plain type codes end the recursion unchanged |
| GenStruct.CutAtClose | iphone/hooks/generate/struct.js:22-26 | cutting at the first `}` never lengthens the text |
| GenStruct.CutBeforeClose | iphone/hooks/generate/struct.js:22-26 | a `}` after a non-empty prefix cuts the text down to that prefix |
| GenStruct.CutNoClose | iphone/hooks/generate/struct.js:22-26 | text without `}` is not cut |
| GenStruct.FixedPointLoops | iphone/hooks/generate/struct.js:14-28 | a text that the cut and the trim give back unchanged recurses without end |
| GenStruct.LoopStep | iphone/hooks/generate/struct.js:15-27 | on `a={b` the cut and the trim give the same text back |
| GenStruct.LoopTrimmed | iphone/hooks/generate/struct.js:27 | trimming `a={b` leaves it as it is |
| GenStruct.EqualsBeforeBraceLoops | iphone/hooks/generate/struct.js:14-28 | `flattenStruct('a={b')` never returns, whatever the number of calls allowed |
| GenStruct.FlatAsWritten | iphone/hooks/generate/struct.js:14-28 | a struct of plain type codes flattens to those codes |
| GenStruct.FlatFirstStep | iphone/hooks/generate/struct.js:21-26 | the first call on a struct of plain codes keeps just the codes |
| GenStruct.EmptyFirstStep | iphone/hooks/generate/struct.js:21-26 | the first call on a struct without fields keeps only its closing brace |
| GenStruct.CloseStep | iphone/hooks/generate/struct.js:17-19 | a lone closing brace ends the recursion with the empty text |
| GenStruct.OpenAsWritten | iphone/hooks/generate/struct.js:14-28 | a struct header without its closing brace flattens to its fields |
| GenStruct.NestedFirstStep | iphone/hooks/generate/struct.js:21-26 | on two nested structs the first call keeps only the first inner struct, without its `}` |
| GenStruct.AgainOpen | iphone/hooks/generate/struct.js:21-28 | a first call that keeps one unclosed header ends with that header's fields |
| GenStruct.HeaderTrimmed | iphone/hooks/generate/struct.js:27 | trimming a header and fields without white space changes nothing |
| GenStruct.NestedAsWritten | iphone/hooks/generate/struct.js:14-28 | a struct of two nested structs flattens to the first one's fields alone |
| GenStruct.StripHeaders | iphone/hooks/generate/struct.js:14-28 | removing every struct header and brace leaves no brace |
| GenStruct.FlattenCorrected | iphone/hooks/generate/struct.js:14-28 | the intended flattening holds no brace |
| GenStruct.StripLeaf | iphone/hooks/generate/struct.js:14-28 | type codes are copied through unchanged |
| GenStruct.StripHeader | iphone/hooks/generate/struct.js:21 | a struct header is dropped whole |
| GenStruct.StripClose | iphone/hooks/generate/struct.js:19-26 | a closing brace is dropped |
| GenStruct.StripEncode | iphone/hooks/generate/struct.js:14-28 | stripping a struct's encoding leaves its leaf type codes in order, whatever text follows |
| GenStruct.StripEncodeAll | iphone/hooks/generate/struct.js:14-28 | stripping the encodings of a list of fields leaves all their leaf codes, in order |
| GenStruct.LeavesUnspaced | iphone/hooks/generate/struct.js:27 | the leaf codes of a well-formed struct hold no white space, so trimming keeps them |
| GenStruct.FlattenCorrectedLeaves | iphone/hooks/generate/struct.js:14-28 | the intended flattening of any well-formed struct encoding, nested to any depth, gives its leaf type codes in order |
| GenStruct.FlatCorrected | iphone/hooks/generate/struct.js:14-28 | on a struct of plain type codes the intended flattening agrees with the code as written |
| GenStruct.OneField | iphone/hooks/generate/struct.js:14-28 | a struct of one field encodes to that field's encoding and has its leaf codes |
| GenStruct.TwoFields | iphone/hooks/generate/struct.js:14-28 | a struct of two fields encodes to their encodings one after the other and has the leaf codes of both |
| GenStruct.NestedCorrected | iphone/hooks/generate/struct.js:14-28 | the intended flattening of two nested structs keeps the fields of both |
| GenStruct.FieldName | iphone/hooks/generate/struct.js:45 | a made-up field name is `f` followed by at least one digit |
| GenStruct.FieldNamesDistinct | iphone/hooks/generate/struct.js:42-46 | the fields of a fake struct get names that differ from one another |
| GenStruct.FakeFlattening | iphone/hooks/generate/struct.js:41 | the fake struct is built from `flattenStruct` as written, or from the intended flattening |
| GenStruct.CreateFakeFieldStruct | iphone/hooks/generate/struct.js:35-49 | the fake struct keeps the property's name and has one field per character of the flattened encoding, holding that character and named `f` plus its index; nothing when the flattening does not end |
| GenStruct.FakeFieldsOfLeafStruct | iphone/hooks/generate/struct.js:41-47 | the fake fields of a struct of plain codes are those codes, on either flattening |
| GenStruct.FieldsText | iphone/hooks/generate/struct.js:136-139 | appending the fields' encodings fails exactly when some field is null |
| GenStruct.FieldsLoop | iphone/hooks/generate/struct.js:136-139 | the loop over the fields appends their encodings in order, or fails with a TypeError at a null field |
| GenStruct.MakeStructEncoding | iphone/hooks/generate/struct.js:120-160 | the encoding is `{`, the struct's name, `=`, the fields' encodings and `}`; a truthy `fields` that is not an array, or a null field, is a TypeError |
| GenStruct.FieldsTextPrefixErr | iphone/hooks/generate/struct.js:136-139 | a null field anywhere makes the whole loop fail with a TypeError |
| GenStruct.FieldsTextErr | iphone/hooks/generate/struct.js:136-139 | the only failure of the loop over the fields is a TypeError |
| GenStruct.FieldsTextOfObjects | iphone/hooks/generate/struct.js:136-139 | fields that carry their encodings are written one after the other |
| GenStruct.EncodeAllSnoc | iphone/hooks/generate/struct.js:136-139 | appending a field appends its encoding |
| GenStruct.MakeStructOfFields | iphone/hooks/generate/struct.js:120-160 | a named struct whose fields carry their encodings gets `{name=`, those encodings and `}` |
| GenStruct.MakeStructRoundTrip | iphone/hooks/generate/struct.js:120-160 | reading back what `makeStruct` writes gives the struct's name and, through the intended flattening, the leaf codes of its fields |
| GenEnum.Shorten | iphone/hooks/generate/enum.js:24 | `slice(name.length)` drops the first `|name|` characters, so the dropped prefix and the result make up the key; a key shorter than the name leaves the empty text |
| GenEnum.MakeEnum | iphone/hooks/generate/enum.js:13-29 | the entry keeps the enum's name, framework and file name, and its values are the input values stored in key order under their shortened keys |
| GenEnum.ShortenedKeys | iphone/hooks/generate/enum.js:23-26 | a key is in the result exactly when some input key shortens to it |
| GenEnum.ShortenedLastWins | iphone/hooks/generate/enum.js:23-26 | of several keys that shorten alike, the value of the last one is kept |
| GenEnum.PrefixRoundTrip | iphone/hooks/generate/enum.js:24 | the enum's name followed by the shortened key gives back a key that starts with the name |
| GenEnum.PrefixedKeysKept | iphone/hooks/generate/enum.js:23-26 | when every key starts with the enum's name, each input value is found under its shortened key |
| GenEnum.ShortenExample | iphone/hooks/generate/enum.js:22-25 | `UIControlStateDisabled` of `UIControlState` is stored as `Disabled` |
| GenBlock.CaretIndex | iphone/hooks/generate/block.js:9 | the index `indexOf('(^)')` gives: -1 when there is no `(^)`, otherwise a position where `(^)` occurs |
| GenBlock.GetBlockAsReturnVariable | iphone/hooks/generate/block.js:8-11 | the name is inserted into the block's text, so the result is as long as both, and when the block holds `(^)` the result holds `(^name)` at the same position |
| GenBlock.CaretSplit | iphone/hooks/generate/block.js:10 | splitting after `(^` and inserting the name yields `(^name)` at the caret's position |
| GenBlock.ReturnVariableRoundTrip | iphone/hooks/generate/block.js:8-11 | the name sits at a known position of the result and removing it gives the block back, with or without `(^)` |
| GenBlock.NoCaretAfterFirst | iphone/hooks/generate/block.js:9-10 | without `(^)` the index is -1, so the name goes after the block's first character |
| GenBlock.GenerateBlockMethodName | iphone/hooks/generate/block.js:45-47 | the name is `Block_` followed by the signature with every character that cannot appear in a symbol replaced, so it has no such character and keeps every other one |
| GenBlock.MethodNameIgnoresBreaks | iphone/hooks/generate/block.js:45-47 | two signatures that differ only in which non-symbol characters they hold get the same method name |
| GenBlock.MatchBlockSignature | iphone/hooks/generate/block.js:193-205 | two signatures match exactly when they are equal after normalising the boolean type to `BOOL` (the first spelling as written, every spelling when corrected) |
| GenBlock.MatchIsEquivalence | iphone/hooks/generate/block.js:193-205 | matching is reflexive, symmetric and transitive |
| GenBlock.NormalizeFirst | iphone/hooks/generate/block.js:198 | replacing the first `_Bool` or `bool` by `BOOL` never lengthens the text, and a text without either is left as it is |
| GenBlock.NormalizeAll | iphone/hooks/generate/block.js:198-199 | replacing every `_Bool` or `bool` by `BOOL` never lengthens the text, and a text without either is left as it is |
| GenBlock.NormalizeAllNoBool | iphone/hooks/generate/block.js:198-199 | text holding no boolean spelling passes through the corrected normalisation unchanged |
| GenBlock.NormalizeFirstNoBool | iphone/hooks/generate/block.js:198-199 | text holding no boolean spelling passes through the as-written normalisation unchanged |
| GenBlock.NormalizeAllSpelling | iphone/hooks/generate/block.js:198-199 | each of `_Bool`, `bool` and `BOOL` normalises to `BOOL`, and normalising continues after it |
| GenBlock.NormalizeAllRender | iphone/hooks/generate/block.js:198-199 | the corrected normalisation of a signature spells every boolean `BOOL` and keeps the text between them |
| GenBlock.SpellingsMatchCorrected | iphone/hooks/generate/block.js:193-205 | with every spelling normalised, signatures that differ only in how they spell their booleans match, however many booleans they have |
| GenBlock.NormalizeFirstAt | iphone/hooks/generate/block.js:198 | as written, only the first `_Bool` or `bool` becomes `BOOL` and the text after it is kept unchanged |
| GenBlock.TwoBoolsDifferAsWritten | iphone/hooks/generate/block.js:193-205 | as written, a signature with two `_Bool` arguments does not match the same signature spelled with `BOOL`; with every spelling normalised it does |
| GenBlock.TwoBoolsMatchCorrected | iphone/hooks/generate/block.js:193-205 | with every spelling normalised, two `_Bool` arguments match two `BOOL` arguments |
| GenBlock.BlocksOf | iphone/hooks/generate/block.js:147 | the framework's block list is found exactly when some entry has the framework's key, and the list found is that entry's |
| GenBlock.FirstMatching | iphone/hooks/generate/block.js:148-150 | `find` returns a listed block whose signature matches, or nothing when no listed block matches |
| GenBlock.ShallowFindBlock | iphone/hooks/generate/block.js:146-151 | a TypeError exactly when the framework has no block list, otherwise the first matching block or nothing |
| GenBlock.SearchFrameworks | iphone/hooks/generate/block.js:170-174 | the block found lists in the metabase and matches; nothing is found exactly when no framework from the start on has a matching block |
| GenBlock.FindBlock | iphone/hooks/generate/block.js:160-179 | a framework without a block list gives a TypeError, and the only errors are that TypeError, the not-found error and the stack overflow |
| GenBlock.FindBlockFound | iphone/hooks/generate/block.js:160-179 | a block found lists in the metabase and matches the signature reached after following some number of typedefs |
| GenBlock.FindBlockNotFound | iphone/hooks/generate/block.js:160-179 | the not-found error is thrown only when the typedef chain ends in a signature that no framework's blocks match |
| GenBlock.FindBlockMoreFuel | iphone/hooks/generate/block.js:160-179 | once the search ends without overflowing the stack, allowing more recursion does not change its result |
| GenBlock.SelfTypedefOverflows | iphone/hooks/generate/block.js:166-168 | a typedef naming itself, with no block matching in the framework, recurses until the stack overflows |
| GenImports.GenerateImport | iphone/hooks/generate/imports.js:10-12 | the line starts with `$imports.name = require('/hyperloop/` and ends with `');`, and between them holds exactly the path's length |
| GenImports.ImportedPath | iphone/hooks/generate/imports.js:10-12 | reading the path back out of a line for the name; a path read back has the length the line leaves for it |
| GenImports.ImportRoundTrip | iphone/hooks/generate/imports.js:10-12 | the path read back from the line for a name and path is that path lower-cased |
| GenImports.ToLowerIdempotent | iphone/hooks/generate/imports.js:11 | lower-casing twice is lower-casing once |
| GenImports.GenerateImportLowered | iphone/hooks/generate/imports.js:11-32 | a path lower-cased before the call gives the same line, since the line lower-cases it again |
| GenImports.WithDefaultFramework | iphone/hooks/generate/imports.js:23-26 | an `NSObject` entry with no framework gets the framework `Foundation`; every other entry, and a missing one, is left as it is |
| GenImports.ImportLines | iphone/hooks/generate/imports.js:22-40 | at most one line per entry, in the entries' order |
| GenImports.OptLine | iphone/hooks/generate/imports.js:33-38 | a line is pushed exactly when the entry has one |
| GenImports.Defaulted | iphone/hooks/generate/imports.js:22-26 | the imports after the call: the same keys in the same order, each entry given its default framework |
| GenImports.MakeImports | iphone/hooks/generate/imports.js:20-42 | the text is the entries' lines joined by newlines, and the imports object is left with the `NSObject` entry given its framework |
| GenImports.ImportLinesMember | iphone/hooks/generate/imports.js:22-40 | a line is in the output exactly when some entry produces it |
| GenImports.ImportLinesSound | iphone/hooks/generate/imports.js:22-40 | every line of the output was produced by some entry |
| GenImports.ImportLinesComplete | iphone/hooks/generate/imports.js:22-40 | every entry that produces a line has that line in the output |
| GenImports.ImportsStep | iphone/hooks/generate/imports.js:22-40 | each further entry appends only its own line and its own defaulted entry |
| GenImports.NSObjectFromFoundation | iphone/hooks/generate/imports.js:24-33 | an `NSObject` without a framework is required from `/hyperloop/foundation/nsobject` |
| GenImports.DefaultFrameworkLine | iphone/hooks/generate/imports.js:24-33 | an `NSObject` without a framework gets the line of the path `Foundation/NSObject` |
| GenImports.FrameworkPath | iphone/hooks/generate/imports.js:31-33 | an entry with a framework is required from its framework and name, joined by `/` and lower-cased |
| GenClass.FullyQualifiedClassName | iphone/hooks/generate/class.js:86-95 | a class that is not Swift keeps its own name, unless its file is its framework's `-Swift.h` header, when it is named `Framework.Class` |
| GenClass.SwiftClassNameDemangles | iphone/hooks/generate/class.js:88-89 | a Swift class gets the mangled name that demangles back to the app's name and the class's name |
| GenClass.KeptProperty | iphone/hooks/generate/class.js:25-44 | a property is kept exactly when it is read, or written and not read-only; it keeps a getter exactly when it is read and a setter exactly when it is written and not read-only |
| GenClass.PropertyListsMember | iphone/hooks/generate/class.js:25-51 | an entry is among the instance properties exactly when some key gives it and is not a class property, and among the class properties exactly when some key gives it and is one |
| GenClass.WithClassFramework | iphone/hooks/generate/class.js:53-56 | a method keeps its name and kind, and takes its class's framework when it has none of its own |
| GenClass.MethodListsMember | iphone/hooks/generate/class.js:52-68 | a name is among the instance methods exactly when some kept instance method has it, and likewise for class methods |
| GenClass.Defaulted | iphone/hooks/generate/class.js:52-56 | the methods after the loop: the same keys, each method given its class's framework when it had none |
| GenClass.MakeClass | iphone/hooks/generate/class.js:8-71 | the entry keeps the class's name, framework and file name, names it fully qualified, keeps the superclass only when the metabase has that class, lists properties and methods in sorted key order, and leaves the methods with their framework filled in |
| GenClass.PropertiesLoop | iphone/hooks/generate/class.js:25-51 | the property loop builds the instance and class property lists of the sorted keys |
| GenClass.MethodsLoop | iphone/hooks/generate/class.js:52-68 | the method loop builds the instance and class method lists of the sorted keys |
| GenClass.MakeClassProperties | iphone/hooks/generate/class.js:25-51 | the class's instance properties are exactly its kept properties that are not class properties |
| GenClass.MakeClassMethods | iphone/hooks/generate/class.js:52-68 | the class's instance methods are exactly its called instance methods whose key names no property, so a method shadowed by a property is never wrapped |
| GenClass.NoReferencesKeepsAll | iphone/hooks/generate/class.js:28-62 | with no references recorded every property keeps its getter, keeps its setter unless read-only, and every method not shadowed by a property is wrapped |
| GenClass.UtilCall | iphone/hooks/generate/class.js:69 | a call into the utility module succeeds exactly when the module exports the name, else it is a TypeError |
| GenClass.MakeClassAsWritten | iphone/hooks/generate/class.js:69-70 | when the final call succeeds the entry is returned unchanged |
| GenClass.MakeClassAlwaysFails | iphone/hooks/generate/class.js:69 | the utility module has no `makeImports`, so as written every class fails with a TypeError |
| GenClass.GeneratorsMissing | iphone/hooks/generate/class.js:33-66 | the class-property, instance-method and class-method generators `makeClass` calls are not exported by the utility module either, so each call is a TypeError |
| GenModule.ValueOr | iphone/hooks/generate/module.js:126 | a missing or empty value gives the fallback, any other value is kept |
| GenModule.RecordStructName | iphone/hooks/generate/module.js:134 | the struct name is taken from what follows `struct `, so it is no longer than that |
| GenModule.ObjCReturnType | iphone/hooks/generate/module.js:107-161 | each group of tags has its spelling (the value or `void *`, `id`, `Class`, `SEL`), and the only failures are a missing typedef, a missing struct, an unknown type and a stack overflow |
| GenModule.TypedefTransparent | iphone/hooks/generate/module.js:109-115 | a typedef the metabase has resolves to what the type it names resolves to |
| GenModule.ObjCReturnTypeMoreFuel | iphone/hooks/generate/module.js:107-161 | a type that resolves without overflowing keeps its spelling when more recursion is allowed |
| GenModule.SelfTypedefOverflows | iphone/hooks/generate/module.js:109-115 | a typedef naming itself recurses until the stack overflows |
| GenModule.RecordCase | iphone/hooks/generate/module.js:128-140 | a record `struct ...` resolves to the struct name when the metabase has that struct and fails with the struct's name otherwise |
| GenModule.RecordResolvesStruct | iphone/hooks/generate/module.js:133-139 | `struct __X` resolves to `X` with its leading underscores dropped, or fails naming `X` when the metabase lacks it |
| GenModule.DropUnderscores | iphone/hooks/generate/module.js:134 | `replace(/^_+/, '')` drops exactly the leading underscores |
| GenModule.PrimitiveResolves | iphone/hooks/generate/module.js:157-158 | a primitive without a value resolves to its expanded alias, which is itself a primitive |
| GenModule.PrimitiveNotStructLike | iphone/hooks/generate/module.js:116-127 | no primitive tag is among the tags spelled by their value |
| GenModule.PrimitiveNotOther | iphone/hooks/generate/module.js:108-156 | no primitive tag is handled by an earlier case of the switch |
| GenModule.AppendNew | iphone/hooks/generate/module.js:65-67 | a code is added only when the list does not already hold it |
| GenModule.KeptVariables | iphone/hooks/generate/module.js:71-83 | each kept constant contributes one name and one getter |
| GenModule.MakeModule | iphone/hooks/generate/module.js:34-87 | the entry keeps the module's name, framework, file name, blocks and frameworks, and holds the referenced statics, the called functions with their code once each, and the referenced constants with their getters after the functions' code |
| GenModule.KeptStaticsMember | iphone/hooks/generate/module.js:51-56 | a static variable is kept exactly when it is read or written, with its value |
| GenModule.KeptFunctionsMember | iphone/hooks/generate/module.js:58-69 | a function is wrapped exactly when it is called and its name does not start with `__` |
| GenModule.AppendNewDistinct | iphone/hooks/generate/module.js:65-67 | adding a code only when new keeps the list free of repeats, and the list holds the old codes and the new one |
| GenModule.KeptFunctionCodes | iphone/hooks/generate/module.js:58-69 | the functions' Objective-C code holds no repeats and holds exactly the code of each wrapped function |
| GenModule.KeptVariablesMember | iphone/hooks/generate/module.js:71-83 | a constant is kept exactly when it is read or written |
| GenModule.Generate | iphone/hooks/generate/module.js:251-269 | nothing for a framework given by path or with custom sources; otherwise the module, its header excluded exactly when a class has its name, its framework marked exactly when it has content |
| GenIndex.Merged | iphone/hooks/generate/index.js:37-46 | without a source the destination is unchanged; with one, the keys are both objects' keys, every destination value is kept and a source value is added only under a key the destination lacks |
| GenIndex.PartNone | iphone/hooks/generate/index.js:40-44 | before the loop nothing of the source has been copied |
| GenIndex.MergeStep | iphone/hooks/generate/index.js:41-43 | one step of the loop copies the key when the destination lacks it and so extends what has been merged by that key |
| GenIndex.Merge | iphone/hooks/generate/index.js:37-46 | the loop leaves the merged object |
| GenIndex.PartAll | iphone/hooks/generate/index.js:40-44 | once every key has been visited the whole source has been merged |
| GenIndex.MergedIdempotent | iphone/hooks/generate/index.js:37-46 | merging the same source twice is merging it once |
| GenIndex.NamesInNone | iphone/hooks/generate/index.js:260-270 | declarations of other frameworks add no names to a framework's module |
| GenIndex.ModuleTable.constructor | iphone/hooks/generate/index.js:216 | the module table starts empty |
| GenIndex.ModuleTable.MakeModule | iphone/hooks/generate/index.js:17-35 | no module for a declaration without a framework; otherwise the framework's module, created only when the table lacks it |
| GenIndex.ModuleTable.AddMembers | iphone/hooks/generate/index.js:259-270 | the loop over the functions (or constants) pushes each declaration onto its framework's module |
| GenIndex.ModuleTable.AddEnums | iphone/hooks/generate/index.js:271-280 | the loop over the enums copies each enum's values into its module's static variables |
| GenIndex.ModuleTable.AddBlocks | iphone/hooks/generate/index.js:281-292 | the loop over the blocks pushes each list's truthy blocks onto the module of the framework its key names |
| GenIndex.CopyValues | iphone/hooks/generate/index.js:276-278 | the static variables end with every enum value, a value replacing one of the same name |
| GenIndex.CopyNone | iphone/hooks/generate/index.js:276-278 | before the loop the static variables are unchanged |
| GenIndex.CopyStep | iphone/hooks/generate/index.js:277 | one value set extends the copied values by its name |
| GenIndex.BlockFramework | iphone/hooks/generate/index.js:284-287 | a key not starting with `/` is its own framework; a header path stands for the framework that includes it, or for itself when none does |
| GenIndex.TruthyBlocks | iphone/hooks/generate/index.js:289-291 | a block is kept exactly when it is listed and truthy |
| GenIndex.PushBlocks | iphone/hooks/generate/index.js:289-291 | the module's blocks are followed by the list's truthy blocks, in order |
| GenIndex.CollectedKeys | iphone/hooks/generate/index.js:259-270 | after the loop the table has a module for exactly the frameworks it had or some declaration names |
| GenIndex.CollectedStep | iphone/hooks/generate/index.js:262-263 | one declaration appends its name to its own framework's module and leaves every other module alone |
| GenIndex.MembersCollected | iphone/hooks/generate/index.js:259-270 | a module's names are those it had followed by the names of its framework's declarations, in order |
| GenIndex.FirstDeclarationWins | iphone/hooks/generate/index.js:17-35 | a module created by a declaration keeps that declaration's file name and custom-source flag whatever later declarations say |
| GenIndex.CustomHeaderBlocks | iphone/hooks/generate/index.js:284-288 | the blocks of a custom class header go to the module of the framework that includes it |
| GenIndex.InvertIncludes | iphone/hooks/generate/index.js:200-212 | the two loops build the inverse map of class files to frameworks |
| GenIndex.MapFiles | iphone/hooks/generate/index.js:206-210 | the inner loop maps each class file of one framework to that framework |
| GenIndex.MapFilesStep | iphone/hooks/generate/index.js:209 | one step maps one more class file |
| GenIndex.InvertedMember | iphone/hooks/generate/index.js:200-212 | a file is in the inverse map exactly when some framework lists it, and it maps to the last framework that does |
| GenIndex.AddRootClass | iphone/hooks/generate/index.js:151-198 | the root class is created when missing and placed in Foundation; it gets each value method as an instance method and `extend` as a class method, keeps its other methods and leaves every other class alone; a root class without methods makes the assignment fail |
| GenIndex.AddHelperMethods | iphone/hooks/generate/index.js:161-179 | each value method is set as an instance method, and every other method is kept |
| GenIndex.WithoutUnsupported | iphone/hooks/generate/index.js:189-194 | the functions object loses exactly `NSLogv`, `NSLog` and `UIApplicationMain` and keeps every other function; a missing object stays missing |
| GenIndex.ClassFramework | iphone/hooks/generate/index.js:227-229 | a class declared in the runtime's `NSObject.h` belongs to Foundation, every other class keeps its framework |
| GenIndex.StructNameKept | iphone/hooks/generate/index.js:250-257 | a struct whose key has no leading underscore keeps its name |
| GenIndex.StructNameStripped | iphone/hooks/generate/index.js:252-255 | under a key with leading underscores the struct's name loses its own leading underscores and nothing else |
| GenProtocols.GrowsTrans | iphone/hooks/generate/index.js:113-116 | members only ever being added is transitive across merges |
| GenProtocols.MergeParent | iphone/hooks/generate/index.js:113-116 | the protocol keeps every member of its own and its parents, and holds every member of the parent |
| GenProtocols.ClosedFrame | iphone/hooks/generate/index.js:104-117 | changing a protocol not yet merged, without changing its parents, keeps every merged protocol holding its parents' members |
| GenProtocols.ClosedPush | iphone/hooks/generate/index.js:119 | a protocol that holds the members of all its parents, themselves merged, may be marked as merged |
| GenProtocols.ChainGrows | iphone/hooks/generate/index.js:104-117 | merging members, which keeps every protocol's parents, keeps the chain of recursive calls a chain of parents |
| GenProtocols.StackParent | iphone/hooks/generate/index.js:104-110 | a protocol already on the stack of calls has a parent on the stack too |
| GenProtocols.NotOnStack | iphone/hooks/generate/index.js:96-100 | a protocol without parents is never on the stack of calls |
| GenProtocols.EvolvedTrans | iphone/hooks/generate/index.js:84-120 | the changes calls may make compose: protocols only gain members, the merged list only grows and merged protocols are left alone |
| GenProtocols.EvolvedKeeps | iphone/hooks/generate/index.js:92-95 | a protocol merged before a call still holds its parent's members after it |
| GenProtocols.EvolvedPush | iphone/hooks/generate/index.js:119 | marking a protocol as merged is a change a call may make |
| GenProtocols.ProtocolMerger.constructor | iphone/hooks/generate/index.js:77 | the merger starts with the metabase's protocols and nothing merged |
| GenProtocols.ProtocolMerger.MergeWithParents | iphone/hooks/generate/index.js:84-120 | a protocol that completes is merged, with every protocol on the stack still unmerged; only members are added; a protocol already on the stack of calls (a cycle) never completes |
| GenProtocols.ProtocolMerger.MergeParents | iphone/hooks/generate/index.js:104-117 | after the loop every parent, itself merged, has given the protocol its members |
| GenProtocols.ProtocolMerger.MergeOneParent | iphone/hooks/generate/index.js:105-116 | a parent, once merged recursively, gives the protocol its members; a parent on the stack of calls fails |
| GenProtocols.ProtocolMerger.ProcessProtocolInheritance | iphone/hooks/generate/index.js:76-127 | no protocol appears, disappears, loses or changes a member; every member a protocol gains is, with the same value, a member of one of its parents; on completion every protocol holds the members of every protocol it inherits from |
| GenProtocols.SourcedTrans | iphone/hooks/generate/index.js:104-117 | members gained in two rounds, where the second only adds members, still each come from a parent |
| GenProtocols.SourcedMergeParent | iphone/hooks/generate/index.js:111-115 | merging a parent into a protocol gains it only members of that parent, with their values |
| GenProtocols.EvolvedUpdate | iphone/hooks/generate/index.js:111-115 | merging a parent into a protocol not yet merged is a change every call may make: only members are added, and each comes from a parent |
| GenProtocols.SuperKey | iphone/hooks/generate/index.js:58-63 | a superclass is followed only when its name is truthy |
| GenProtocols.Ancestors | iphone/hooks/generate/index.js:59-64 | the superclass chain lists only classes of the metabase |
| GenProtocols.IsProtocolImplementedBySuperClass | iphone/hooks/generate/index.js:57-67 | as written the answer is always false; corrected, it is true exactly when some class up the superclass chain adopts the protocol |
| GenProtocols.AncestorsStep | iphone/hooks/generate/index.js:60-63 | past a class that does not adopt the protocol, the search goes on from its superclass |
| GenProtocols.SuperclassAdoptionFound | iphone/hooks/generate/index.js:57-67 | a superclass that adopts the protocol is found by the corrected walk |
| GenProtocols.PrepareClass | iphone/hooks/generate/index.js:226-244 | a class without protocols is only placed in its framework; otherwise each adopted protocol that no superclass adopts is merged into it |
| GenProtocols.AdoptedMembers | iphone/hooks/generate/index.js:231-243 | the class keeps every member of its own and holds the members of every adopted protocol that no superclass adopts |
| GenCode.AsCustom | iphone/hooks/generate/code-generator.js:57-59 | a custom class enters the list marked custom and named after its class, and is otherwise unchanged |
| GenCode.Overlaid | iphone/hooks/generate/code-generator.js:54-62 | the class list after the merge has both lists' keys; a custom class replaces the class of its key, and every other class is kept |
| GenCode.Superclasses | iphone/hooks/generate/code-generator.js:78-84 | a name is in the superclass map exactly when some class has it as its superclass |
| GenCode.EnqueueMissing | iphone/hooks/generate/code-generator.js:109-119 | the queue keeps its entries and gains, at its end, only imports that are neither used, structs nor already queued; afterwards every import is used, a struct or queued, and a queue without repeats stays without them |
| GenCode.EnqueueUsedImports | iphone/hooks/generate/code-generator.js:120-123 | after the loop every import of a used class is used, a struct or queued, the queue holds only missing imports of used classes, and it has no repeats |
| GenCode.Reintegrate | iphone/hooks/generate/code-generator.js:124-140 | the result keeps the used classes, holds only classes of the list, and is closed under imports; it lies inside every closed set holding the used classes and the queue, and an error names an import that is neither a class nor a struct |
| GenCode.BindingErrors | iphone/hooks/generate/code-generator.js:249-261 | the bindings throw exactly when some type's framework is truthy but not a string |
| GenCode.BindingLinesMember | iphone/hooks/generate/code-generator.js:249-261 | a line is emitted exactly when some type with a framework redirects `Framework/Type` to its lower-cased path (when the names differ) or, for a module, redirects `Framework` |
| GenCode.AppendedAssoc | iphone/hooks/generate/code-generator.js:263-265 | appending the lines of successive sources is associative and appending nothing changes nothing |
| GenCode.FetchBindings | iphone/hooks/generate/code-generator.js:244-262 | a missing source adds nothing; otherwise its lines follow those collected so far |
| GenCode.GenerateBootstrap | iphone/hooks/generate/code-generator.js:242-269 | the file is the lines of the classes, then the structs, then the modules, joined by newlines and ended by one; it fails exactly when some framework is not a string |
| GenCode.Basename | iphone/hooks/generate/code-generator.js:337 | the base name holds no `/` |
| GenCode.BasenameNoExt | iphone/hooks/generate/code-generator.js:310 | the base name without `.h` holds no `/` |
| GenCode.HeaderFramework | iphone/hooks/generate/code-generator.js:298-299 | the framework part of a header holds no `/` |
| GenCode.SplitHeader | iphone/hooks/generate/code-generator.js:298-300 | a header `fw/file` of two plain parts splits back into them |
| GenCode.FixFrom | iphone/hooks/generate/code-generator.js:297-316 | processing the headers in order can only fail with a TypeError |
| GenCode.KeySet | iphone/hooks/generate/code-generator.js:297 | the keys of the imports object are those `Object.keys` lists |
| GenCode.RewriteFixed | iphone/hooks/generate/code-generator.js:310-315 | a header written in place of another is never rewritten again |
| GenCode.FixErrors | iphone/hooks/generate/code-generator.js:297-316 | the imports fail exactly when some header's framework is known but has no umbrella header |
| GenCode.Untouched | iphone/hooks/generate/code-generator.js:301-311 | a header is left exactly when its framework is unknown, its umbrella header is null or already names it |
| GenCode.Rewritten | iphone/hooks/generate/code-generator.js:311-314 | every new header comes from some header, and every header that is rewritten contributes its new header |
| GenCode.FixedImportsContents | iphone/hooks/generate/code-generator.js:296-317 | the imports afterwards are the headers left alone plus the new headers |
| GenCode.UmbrellaImport | iphone/hooks/generate/code-generator.js:335-338 | a framework's import is `Name/` followed by its umbrella header's base name, or `Name/Name.h` without one |
| GenCode.UnknownKeys | iphone/hooks/generate/code-generator.js:332-333 | a key stays exactly when the builder knows no such framework |
| GenCode.UmbrellaImports | iphone/hooks/generate/code-generator.js:333-341 | every added import holds a `/`, and every known framework adds its umbrella import |
| GenCode.ConvertedContents | iphone/hooks/generate/code-generator.js:331-343 | the frameworks afterwards are the unknown keys plus the umbrella imports of the known ones |
| GenCode.CustomsWithoutClasses | iphone/hooks/generate/code-generator.js:220 | with no custom classes the file is still written as the code stands, and not with the intended guard |
| GenCode.CodeGenerator.constructor | iphone/hooks/generate/code-generator.js:22-29 | the generator holds the class list, the custom classes, the structs, the app's requires and the builder's frameworks |
| GenCode.CodeGenerator.MergeCustomClasses | iphone/hooks/generate/code-generator.js:54-62 | the class list becomes the merged list |
| GenCode.CodeGenerator.StripUnusedClasses | iphone/hooks/generate/code-generator.js:73-141 | the kept classes are classes of the list, include every class with members, used as a superclass or required by path, and are closed under imports; they are the least such set, and an error names an import that is neither class nor struct |
| GenCode.CodeGenerator.PrepareClasses | iphone/hooks/generate/code-generator.js:36-42 | the class list is merged and then stripped to a subset closed under imports; on an error it stays merged |
| GenCode.CodeGenerator.FixCustomImports | iphone/hooks/generate/code-generator.js:296-317 | the loop leaves the fixed imports |
| GenCode.CodeGenerator.ConvertToUmbrellaHeaderImports | iphone/hooks/generate/code-generator.js:331-343 | the loop leaves the converted frameworks |
| GenCode.CodeGenerator.GenerateCustoms | iphone/hooks/generate/code-generator.js:219-235 | when the file is written its imports are the fixed imports, failing exactly when fixing fails; when skipped nothing happens |
| IosScan.Run | iphone/hooks/tasks/scan-references-task.js:10 | the longest prefix made of characters of the require pattern: every character of it matches and the next one does not |
| IosScan.RequireToken | iphone/hooks/tasks/scan-references-task.js:88 | no match exactly when the text holds no character of the pattern; a match is a non-empty run of pattern characters |
| IosScan.WholeToken | iphone/hooks/tasks/scan-references-task.js:88 | text made only of pattern characters matches as a whole |
| IosScan.RunWhole | iphone/hooks/tasks/scan-references-task.js:10 | the run over text made only of pattern characters is the whole text |
| IosScan.Letters | iphone/hooks/tasks/scan-references-task.js:239 | upper-casing and dropping all but `A`-`Z` leaves only upper-case letters |
| IosScan.Codes | iphone/hooks/tasks/scan-references-task.js:250-256 | each letter maps to its group's digit, or to nothing when no group holds it |
| IosScan.Collapsed | iphone/hooks/tasks/scan-references-task.js:259-261 | dropping codes equal to the one before them keeps only codes of the input and never lengthens it |
| IosScan.CodeString | iphone/hooks/tasks/scan-references-task.js:266 | codes of the six groups join into the digits `1` to `6` |
| IosScan.CodesSmall | iphone/hooks/tasks/scan-references-task.js:240-247 | every letter code is between 1 and 6 |
| IosScan.SoundEx | iphone/hooks/tasks/scan-references-task.js:238-267 | a name without letters gives `undefined000`, and only such a name does; any other gives four characters that start with its first letter |
| IosScan.SoundExShape | iphone/hooks/tasks/scan-references-task.js:238-267 | for text with a letter the code is four characters: the first letter, upper-cased, then three digits from `0` to `6` |
| IosScan.LettersNonEmpty | iphone/hooks/tasks/scan-references-task.js:239 | text with a letter keeps at least one letter |
| IosScan.LettersIgnoreCase | iphone/hooks/tasks/scan-references-task.js:239 | lower-casing the text first leaves the same letters |
| IosScan.SoundExIgnoresCase | iphone/hooks/tasks/scan-references-task.js:238-267 | lower-casing the text does not change its code |
| IosScan.SoundExWithoutLetters | iphone/hooks/tasks/scan-references-task.js:239-266 | text without a letter keeps none and its code is `undefined000` |
| IosScan.Suggestions | iphone/hooks/tasks/scan-references-task.js:111-114 | the frameworks suggested are exactly those whose code equals the unknown name's |
| IosScan.RequireRewrite | iphone/hooks/tasks/scan-references-task.js:82-148 | a missing or skipped argument is left; a redirect goes to `/hyperloop/<pkg>/<class>` lower-cased and only for a builtin or a class its framework declares; the only error is the missing-class message for a known non-builtin framework |
| IosScan.NameToken | iphone/hooks/tasks/scan-references-task.js:88-93 | a plain name matches as a whole and splits into itself |
| IosScan.PathToken | iphone/hooks/tasks/scan-references-task.js:88-93 | `pkg/Class` of plain names matches as a whole and splits into the framework and the class |
| IosScan.AlloyPrefix | iphone/hooks/tasks/scan-references-task.js:19 | `pkg/Class` starts with `alloy/` only when the framework is `alloy` |
| IosScan.PathNotSkipped | iphone/hooks/tasks/scan-references-task.js:18-20 | `pkg/Class` of plain names other than `alloy` is not skipped |
| IosScan.RequireOfType | iphone/hooks/tasks/scan-references-task.js:82-148 | requiring a class its framework declares redirects to the generated file for it |
| IosScan.RequireRedirectStable | iphone/hooks/tasks/scan-references-task.js:19-145 | a redirected require is skipped when the file is scanned again |
| IosScan.SpecifierRewrites | iphone/hooks/tasks/scan-references-task.js:179-205 | one reference and one default import per specifier, each import of the lower-cased generated path under the specifier's local name; when classes are checked every class is declared |
| IosScan.ImportRewrite | iphone/hooks/tasks/scan-references-task.js:150-217 | a missing or skipped source is left; every new import is of a path the scan skips; with the intended check every referenced class is builtin or declared |
| IosScan.ImportUncheckedAsWritten | iphone/hooks/tasks/scan-references-task.js:184 | as written an import of a class its framework lacks is rewritten, while the intended check refuses it |
| IosScan.Appended | iphone/hooks/tasks/scan-references-task.js:39-47 | the key's list gains the value at its end, or is created holding only it, and every other key is unchanged |
| IosScan.ValuesOf | iphone/hooks/tasks/scan-references-task.js:201 | the values appended under a key are no more than the pairs |
| IosScan.AppendedAllValues | iphone/hooks/tasks/scan-references-task.js:39-47 | after appending pairs in order a key is present exactly when it was or some pair names it, and its list is the old list followed by its values in order |
| IosScan.Scanner.constructor | iphone/hooks/tasks/scan-references-task.js:64-79 | the scan starts with no references and nothing modified |
| IosScan.Scanner.AppendReference | iphone/hooks/tasks/scan-references-task.js:39-47 | the references gain the value under the key, as the map function says |
| IosScan.Scanner.VisitRequire | iphone/hooks/tasks/scan-references-task.js:82-148 | the visit fails exactly when the rewrite does; a redirect records the reference, marks the file modified and returns the new path; otherwise nothing changes |
| IosScan.Scanner.VisitImport | iphone/hooks/tasks/scan-references-task.js:150-217 | the visit fails exactly when the rewrite does; a rewrite records every reference in order and marks the file modified when it has replacements; otherwise nothing changes |
| XcodeArgs.NextQuote | iphone/hooks/hyperloop.js:1127 | the position of the first `"`, or none when the text has no `"` |
| XcodeArgs.WordLength | iphone/hooks/hyperloop.js:1127 | the length of the word that starts the text, as the word pattern matches it, never past the text's end |
| XcodeArgs.BareWordLength | iphone/hooks/hyperloop.js:1127 | a word without quotes or white space, followed by white space or the end, is matched whole |
| XcodeArgs.WordsBare | iphone/hooks/hyperloop.js:1129-1136 | text without quotes splits into words without quotes or white space |
| XcodeArgs.BareRun | iphone/hooks/hyperloop.js:1127 | in text without quotes the word pattern matches only characters that are neither quotes nor white space |
| XcodeArgs.WordsOfJoin | iphone/hooks/hyperloop.js:1129-1150 | bare words joined by spaces split back into the same words |
| XcodeArgs.JoinUnquoted | iphone/hooks/hyperloop.js:1150 | bare words joined by spaces contain no quote |
| XcodeArgs.Merged | iphone/hooks/hyperloop.js:1141-1145 | the existing words come first and unchanged, every new word is present, and nothing else is added |
| XcodeArgs.MergedDistinct | iphone/hooks/hyperloop.js:1141-1145 | existing words without repeats stay without repeats after the merge |
| XcodeArgs.MergedPresent | iphone/hooks/hyperloop.js:1141-1145 | words that are all present already change nothing |
| XcodeArgs.Escaped | iphone/hooks/hyperloop.js:1149 | a value without quotes is not changed by the escaping |
| XcodeArgs.Rendered | iphone/hooks/hyperloop.js:1148-1149 | a value without a space is written as it is |
| XcodeArgs.RenderedAll | iphone/hooks/hyperloop.js:1147-1150 | every word is rendered in its place |
| XcodeArgs.MixReadsBack | iphone/hooks/hyperloop.js:1138-1151 | for values without quotes, the mixed value splits back into the existing words followed by the new ones, and holds no quote |
| XcodeArgs.MergedBare | iphone/hooks/hyperloop.js:1139-1145 | for values without quotes the existing value needs no unquoting and every merged word is bare |
| XcodeArgs.MixIdempotent | iphone/hooks/hyperloop.js:1138-1151 | mixing the same words in a second time changes nothing |
| XcodeArgs.SplitValue | iphone/hooks/hyperloop.js:1129-1136 | the loop collects the words of the value, each unquoted when wholly quoted |
| XcodeArgs.MixValues | iphone/hooks/hyperloop.js:1138-1151 | the loop leaves the mixed value |
| XcodeArgs.ParamKey | iphone/hooks/hyperloop.js:1154-1158 | `OTHER_LDFLAGS` is never used as a key; any other key is kept, and a key without `=` stays without it |
| XcodeArgs.FirstSetting | iphone/hooks/hyperloop.js:1160-1166 | the first argument starting with `key=`, or none when no argument does |
| XcodeArgs.PrefixOfPrefix | iphone/hooks/hyperloop.js:1161 | two prefixes of one argument are prefixes of each other |
| XcodeArgs.SameKey | iphone/hooks/hyperloop.js:1161 | an argument sets at most one key without `=` |
| XcodeArgs.KeyBeforeEquals | iphone/hooks/hyperloop.js:1161 | a key without `=` that an argument sets is no longer than any other prefix of it ending in `=` |
| XcodeArgs.RewriteKeepsKey | iphone/hooks/hyperloop.js:1163 | rewriting an argument under its own key keeps it setting every key it set |
| XcodeArgs.SettingAt | iphone/hooks/hyperloop.js:1160-1166 | a key set by some argument has a first setting |
| XcodeArgs.ReplaceKeeps | iphone/hooks/hyperloop.js:1163 | replacing a setting by one of the same key keeps every key set |
| XcodeArgs.OtherKeyUnset | iphone/hooks/hyperloop.js:1161 | an argument setting one key without `=` does not set another |
| XcodeArgs.AppendAddsNone | iphone/hooks/hyperloop.js:1169 | appending a setting sets no other key that was unset |
| XcodeArgs.ReplaceAddsNone | iphone/hooks/hyperloop.js:1163 | replacing a setting sets no other key that was unset |
| XcodeArgs.LdflagsNotReplaced | iphone/hooks/hyperloop.js:1154-1163 | replacing a setting of another key never sets `OTHER_LDFLAGS` |
| XcodeArgs.LdflagsNotAppended | iphone/hooks/hyperloop.js:1154-1169 | appending a setting of another key never sets `OTHER_LDFLAGS` |
| XcodeArgs.XcodebuildArgs.constructor | iphone/hooks/hyperloop.js:1125 | the hook works on the build's arguments |
| XcodeArgs.XcodebuildArgs.AddParam | iphone/hooks/hyperloop.js:1153-1170 | the arguments become `AddedParam`: the first setting of the (redirected) key gets the new words mixed into its value, or the setting is appended when there is none; afterwards the key is set, every key set before still is, and `OTHER_LDFLAGS` is never added |
| XcodeArgs.XcodebuildArgs.AddParams | iphone/hooks/hyperloop.js:1178-1187 | the arguments become `AddedAll` of the settings, one `addParam` per pair in order; every key of the settings is set afterwards, keys set before stay set, and `OTHER_LDFLAGS` is not added by keys without `=` |
| XcodeArgs.XcodebuildArgs.AddHeaders | iphone/hooks/hyperloop.js:1190-1201 | the arguments become `AddedAll` of `$(inherited)` for both search paths, each header as a header and a framework search path, then `headers` unless JavaScriptCore is used; both search paths are then set and keys set before stay set |
| XcodeArgs.XcodebuildArgs.HookXcodebuild | iphone/hooks/hyperloop.js:1124-1205 | the arguments become `AddedAll` of `HookPairs`: only-active-arch for a development simulator build, the flags, the CocoaPods settings, the header settings when there are headers, then the preprocessor definitions and the project directory; those keys are set, and when no flag or CocoaPods key holds `=` no `OTHER_LDFLAGS` setting is added |
| XcodeArgs.XcodebuildArgs.OnlyActiveArch | iphone/hooks/hyperloop.js:1173-1175 | a development build for the simulator adds `ONLY_ACTIVE_ARCH=1` as `addParam` does; any other build leaves the arguments unchanged |
| XcodeArgs.XcodebuildArgs.HyperloopParams | iphone/hooks/hyperloop.js:1203-1204 | the arguments become `AddedAll` of the preprocessor definitions and the project directory, both then set |
| XcodeArgs.XcodebuildArgs.AddInherited | iphone/hooks/hyperloop.js:1191-1192 | the arguments become `AddedAll` of `$(inherited)` for the header and the framework search paths; both are then set |
| XcodeArgs.XcodebuildArgs.AddSearchPath | iphone/hooks/hyperloop.js:1193-1196 | the arguments become `AddedAll` of one header as a header and as a framework search path |
| XcodeArgs.AddedSnoc | iphone/hooks/hyperloop.js:1178-1204 | one more pair is one more `addParam` on the arguments so far |
| XcodeArgs.AddedAllAppend | iphone/hooks/hyperloop.js:1172-1204 | adding two runs of settings is adding the first run, then the second |
| XcodeArgs.SearchPathPairs | iphone/hooks/hyperloop.js:1193-1196 | each header gives, in order, a header search path and then a framework search path with that header |
| XcodeArgs.AddedFresh | iphone/hooks/hyperloop.js:1168-1169 | a key without a setting (other than `OTHER_LDFLAGS`) is appended as `KEY=value` |
| XcodeArgs.AddedTwoFresh | iphone/hooks/hyperloop.js:1160-1169 | two settings of different keys, neither set yet, are appended as they are written |
| XcodeArgs.HyperloopParamsOnFresh | iphone/hooks/hyperloop.js:1203-1204 | on arguments that set neither key yet, the hook appends `GCC_PREPROCESSOR_DEFINITIONS=$(inherited) HYPERLOOP=1` and `APPC_PROJECT_DIR=<dir>` |
| XcodeArgs.HookPairsApplied | iphone/hooks/hyperloop.js:1172-1204 | the six steps of the hook, each an `AddedAll`, add together exactly `HookPairs` |
| XcodeArgs.FixedKeys | iphone/hooks/hyperloop.js:1174-1204 | the keys the hook sets itself contain no `=` |
| XcodeArgs.StillSet | iphone/hooks/hyperloop.js:1160-1169 | a key set before a change that keeps settings is still set |
| XcodeArgs.GrowsTrans | iphone/hooks/hyperloop.js:1172-1204 | keeping every key set carries across successive calls |
| XcodeArgs.SetsKeysStep | iphone/hooks/hyperloop.js:1179-1181 | setting one more key extends the keys set by one |
| XcodeArgs.SetsKeysGrows | iphone/hooks/hyperloop.js:1179-1187 | keys set stay set under later calls |
| XcodeArgs.FirstSettingIs | iphone/hooks/hyperloop.js:1160-1161 | the first argument with the key's prefix is the first setting |

## Left out

- libclang is a foreign library: cursors, types, availability records and the children of a cursor are data (`clang.dfy`), not calls.
- `def.h` and `parser.h` are not part of this model. `shouldBeExcluded` is modelled as `excludeLocation` of the definition's file (the comment at packages/hyperloop-ios-metabase/src/parser.cpp:317 says so). `getEncoding` is modelled as a stored string.
- The three-argument `Arguments::add` that `BlockParser.cpp:86` calls is not defined in `def.cpp`. The model adds the argument without its encoding.
- `class.cpp`, `var.cpp` and `union.cpp` are not part of this model. Their definitions enter the tree with their JSON given.
- Emit.TreeOutput: the order of the signatures under one block name is whatever `std::map` iteration gives. The model fixes an order and does not state which.
- The `generated` time stamp in the metadata comes from the clock and is left out.
- Logging, the command-line front end and the files the generator writes are left out.
- ScanReferences.ReplaceAll: bounded by a `fuel` number of rounds, because the JavaScript loop does not end when the replacement contains the needle. `ReplaceAllMoreFuel`, `ShorterReplacementFinishes` and `NeedleInReplacementDiverges` say what fuel changes.
- ScanReferences.Matching: requires a name without `?`, `[`, `\` or an inner `*`. The JavaScript builds a regular expression from the name, and those characters would make it a different pattern.
- ScanReferences.ResolveWith: has the same restriction on names, for the same reason. So do ScanReferences.DetectUsedClasses, ScanReferences.Resolve and ScanReferences.ResolveAsWritten.
- Only the first `.` of a package name is escaped in the package pattern (android/hooks/tasks/scan-references-task.js:320). The model keeps that: every later `.` matches any character.
- The Babel parse of a JavaScript file and the regular-expression search for `require` calls are not modelled. A source file is given as its text, the `require` calls found in it and its string literals.
- JavaScript lookups in plain objects also find `Object.prototype` members such as `constructor`. The model's maps do not.
- The change manager around the two file-state monitors is not modelled. What it loads, finds changed and writes are parameters of the tasks.
- File reads and writes, JSON parsing, `async` callbacks and logging in the Android hooks are parameters or left out.
- The ProxyBuilder, the dex generation and the emulator dialog of the Android runtime are left out.
- The `innerClasses` field that `expandClassDependencies` adds to a class's metabase entry (android/hooks/metabase/generate.js:101-107) is not written back. The model returns the nested class names instead.
- `fetchGeneratedJsProxyPaths` (android/hooks/tasks/generate-sources-task.js:248-257) lists a directory. The model keeps that directory as the task's `files` field and reads the wrapper files from it.
- Java reflection, boxing and `Proxy` creation in the Android runtime are data: a class is its name, its supertypes and its methods.
- Blocks.ParsedBlockReturnType: the return type is the corrected `BlockReturn`, which balances the parentheses of the parameter list. As written (packages/hyperloop-ios-metabase/src/BlockParser.cpp:123-137) `void (^)(void (*)(int))` gets the return type `void (int))`; the model records `void`. `Blocks.NestedAsWritten` keeps the code as written.
- Walk.ParseBlock: records the return type of `Blocks.ParsedBlockReturnType`, so it has the same difference from the code as written for a block whose parameter is a function pointer.
- GenerateSources.GenerateSourcesTask.DoIncrementalTaskRun: without a stored class list it calls the corrected `DoFullTaskRun`, which writes `classes.json` even when nothing is referenced. As written (android/hooks/tasks/generate-sources-task.js:92-106) that full run returns without writing it; `DoFullTaskRunAsWritten` keeps that code.
- ScanReferences.UsedIn: resolves each name with the intended package test (a name that ends in `.*`). As written (android/plugins/hyperloop/hooks/android/tasks/scan-references-task.js:223 and android/hooks/tasks/scan-references-task.js:258) a one-character name is also taken for a package; `ScanReferences.ResolveAsWritten` keeps that code.
- ScanTasks.ResolveRequire: uses the same intended package test as `ScanReferences.UsedIn`, not the one as written at android/plugins/hyperloop/hooks/android/tasks/scan-references-task.js:223 and android/hooks/tasks/scan-references-task.js:258.
- ScanTasks.ExtractAndReplace: resolves each `require` through `ScanTasks.ResolveRequire`, so it uses the intended package test too.
- ScanTasks.ExtractUsedClasses: resolves each `require` through `ScanTasks.ResolveRequire`, with the intended package test.
- ScanTasks.Scan: extracts through `ScanTasks.ExtractAndReplace` or `ScanTasks.ExtractUsedClasses`, with the intended package test.
- Visit.DefinitionName: names an anonymous enum with `Kinds.AnonEnumName`, which has no length limit. As written (packages/hyperloop-ios-metabase/src/enum.cpp:36-43) the name is printed into 10 bytes, which overflow from the 10001st anonymous enum; `Kinds.AnonEnumNameAsWritten` keeps that code.
- GenProtocols.PrepareClass: asks the corrected superclass walk of `GenProtocols.IsProtocolImplementedBySuperClass`. As written that walk always answers false.
- HyperloopUtil.ConvertToMeaning: boxed numbers hold whole numbers only. A fraction, a `NaN` and the rounding of a `float` or a `double` (android/src/hyperloop/HyperloopUtil.java:192-219) are not modelled. A `Double` or `Float` target keeps the whole number.
- HyperloopUtil.Convert: narrows through `ConvertTo`, so it has the same limits as `HyperloopUtil.ConvertToMeaning` for fractions, `NaN` and floating-point rounding.
- The Objective-C text the iPhone generator writes is left out: the templates, `generateBuiltins`, and the block wrappers and callbacks (`generateBlockWrapper`, `generateBlockCallback`, `getType`, `addImport` of iphone/hooks/generate/block.js). So are `generateFunction` and the `generateObjC*` helpers of module.js, the struct field getters and setters, method.js and the file writes of code-generator.js. The model keeps what they decide: which classes, imports, names and lines.
- In packages/hyperloop-ios-metabase/lib, only `metabase.js`, `module_metadata.js` and `swift.js` are modelled. The CocoaPods, framework detection, SDK, cache and resource files run tools and read the file system, and are left out. So are running the metabase binary and `swiftc`; their output is given.
- The Babel parse of an iPhone source file and `typeExistsInFramework` are inputs: a file is given as its `require` calls and `import` declarations, and a framework as the set of its type names. The warning text and logging around the Soundex suggestions are left out; the suggested frameworks are a set.
- Of iphone/hooks/hyperloop.js, only the argument helpers of `hookXcodebuild` are modelled. The rest of the builder and the `tiapp.xml` values are parameters.
- A JavaScript object whose key order matters is given as the sequence of its keys in insertion order, as `Object.keys` lists them.
- GenStruct.FlattenStruct: bounded by `fuel` calls, because the JavaScript recursion need not end (`GenStruct.EqualsBeforeBraceLoops`).
- GenBlock.FindBlock: bounded by `fuel` typedef steps, because a cycle of typedefs would recurse without end in JavaScript.
- GenModule.ObjCReturnType: bounded by `fuel` typedef steps, for the same reason.
- GenProtocols.ProtocolMerger.MergeWithParents: bounded by `fuel` nested calls. In JavaScript a cycle of protocols overflows the stack; the model returns an error.
- Strs.ToLowerChar and Strs.ToUpperChar map ASCII letters only. JavaScript's `toLowerCase` and `toUpperCase` also map other letters.
- GenCode.Basename: a path that ends in `/` gives the empty name, while Node's `path.basename` drops trailing slashes first. The header paths it is given do not end in `/`.
- At iphone/hooks/generate/code-generator.js:129 the struct test looks in `classes` again, so it never skips; a queued name that is no class throws. The model does the same. Structs never reach the queue, because `enqueMissingImports` leaves them out.
- GenCustom.StructEntry: a struct whose metabase entry's `name` is not a string is described by its encoding, as when the struct is missing. JavaScript would use any truthy `name`.
- GenCustom.BracketEntry: the typedef's `value`, `encoding` and `type` are kept only when they are strings. Other values are treated as missing.
- GenCustom.Normalize: the argument-count check of `addMethod` (iphone/hooks/generate/custom.js:867-874) is left out. It calls `indexOf` with a number and compares with the `length` of the result, which is undefined, so it never fails.
- GenCustom.ReturnTypeCode: an array given as a friendly type is rejected. JavaScript would encode it through its own `indexOf` and `substring`.
- When `addMethod` fails on a later argument, JavaScript has already recorded the imports of the earlier ones. The model records the imports of a spec only when the whole spec is accepted.
- `generateMethod` and the `Parser` of iphone/hooks/generate/custom.js are left out. They fill code templates and rewrite the Babel syntax tree of the application's JavaScript. So are the search for the `Hyperloop.defineClass` call and the rewrite of the `addMethod` arguments.
- IosMetabase.KindAfter: when the target kind is an array and the source adds names it lacks, JavaScript keeps the array and hangs the new names on it as extra properties; the model turns it into an object holding the same entries, so the entries agree but the array-ness is lost. The key order `Object.keys` gives is not kept, since the kinds are maps.
- IosModuleMetadata.ParseSemver: reads only `v?MAJOR.MINOR.PATCH`. `semver.valid` also accepts a pre-release part (`9.0.0-beta.1`) and build metadata (`+build`); the model reads such a string as no version, and the precedence of pre-release versions is not modelled.
- IosModuleMetadata.IsAvailable: inherits that gap. An `introducedIn` with a pre-release or build part, such as `9.0.0-beta.1` against iOS `8.0`, is taken as missing, so the model answers available where packages/hyperloop-ios-metabase/lib/module_metadata.js:68-72 compares with `semver.lte` and answers not available; an iOS version such as `13.4.1-beta` makes the model fail where the source compares.
- IosSwift.GenerateSwiftMangledClassName: a string's length is its number of characters, while JavaScript's `.length` counts UTF-16 code units. A name holding a character outside the Basic Multilingual Plane gets a length prefix one smaller per such character than the source writes; the same holds for every `length`, `slice` and `substring` of the JavaScript files modelled.

## Findings

| source | as written | input that shows it | evidently intended | confidence | as-written member | corrected member |
|---|---|---|---|---|---|---|
| packages/hyperloop-ios-metabase/src/BlockParser.cpp:123-137 | The return type is the text before `(^)(` plus the text after the first `)` that is neither preceded by `^` nor followed by `,`. A `)` that closes a function-pointer parameter is not skipped. | `void (^)(void (*)(int))` gives `void (int))` | The text after the `)` that balances the parameter list's `(`, so the return type is `void` | not executed | Blocks.NestedAsWritten | Blocks.NestedCorrected, Blocks.BlockReturn |
| packages/hyperloop-ios-metabase/src/enum.cpp:36-43 | An anonymous enum's name is printed with `sprintf` into `char str[10]` | The 10001st anonymous enum: `enum_10000` and its terminator need 11 bytes | A name of any length, `enum_` followed by the counter, distinct for distinct counters | not executed | Kinds.AnonEnumNameAsWritten, Kinds.AnonEnumOverflowAt10000 | Kinds.AnonEnumName, Kinds.AnonEnumNamesDistinct |
| android/src/hyperloop/HyperloopModule.java:33, 88-100 | The static flag `isPlatformGUID` starts `true` and `onAppCreate` only ever sets it to `true` | The empty GUID: it is not a platform GUID, yet the flag stays `true` | Hyperloop is enabled exactly when the GUID is a platform GUID | not executed | JavaModule.AppCreateNeverDisables, JavaModule.HyperloopModule.OnAppCreateAsWritten | JavaModule.HyperloopModule.OnAppCreate, JavaModule.AfterAppCreate |
| android/hooks/tasks/generate-sources-task.js:92-106 | A full run with no references empties the output directory and returns without writing `classes.json` | A build referencing `A`, then a full build with no references, then an incremental build whose changed file references nothing new: `classes.json` still lists `A`, and `A`'s wrapper is gone | Every class in `classes.json` has its wrapper on disk after every run | not executed | GenerateSources.GenerateSourcesTask.DoFullTaskRunAsWritten, GenerateSources.StaleClassListAsWritten, GenerateSources.StaleOutcome | GenerateSources.GenerateSourcesTask.DoFullTaskRun, GenerateSources.StaleClassListCorrected, GenerateSources.ReferencedIsGenerated |
| android/plugins/hyperloop/hooks/android/tasks/scan-references-task.js:223 | A name is taken for a package when `indexOf('.*') === length - 2`; the same test stands at android/hooks/tasks/scan-references-task.js:258 | `require('a')`: `indexOf` gives -1, which equals 1 - 2, so the require is rewritten to `require('hyperloop/')` | Only a name that ends in `.*` is a package | not executed | ScanReferences.ResolveAsWritten, ScanReferences.OneCharacterRequire | ScanReferences.Resolve, ScanReferences.PackageRequireRewritten |
| packages/hyperloop-ios-metabase/lib/swift.js:146 | The imports are the matches of `import\s*(\w+)`, which needs neither a word boundary before `import` nor white space after it | A Swift file containing the word `important` imports the framework `ant` | Only the keyword `import` standing alone and followed by white space starts an import | not executed | IosSwift.ImportInsideWordAsWritten | IosSwift.ExtractImportsCorrected |
| iphone/hooks/generate/util.js:316-333 | A name already taken gets `_` and the argument's index appended once, without checking the result | Arguments named `x_2`, `x`, `x`: the first is `_x_2` and the third, renamed from `_x`, is also `_x_2` | Every parameter of the generated function has a name of its own | not executed | GenUtil.GenerateArgListAsWritten, GenUtil.ArgNamesCollideAsWritten | GenUtil.GenerateArgList, GenUtil.ArgNamesDistinct |
| iphone/hooks/generate/custom.js:144-153 | A pointer's span is the inner type's span or, when that is 0, the inner value's length minus two; the loop then advances by that span plus one | `^vi` (void pointer, int): the span is 2, so the loop ends after `void *` and `int` is lost; `i^r*`: the span of `^r` is -2, so the loop goes from index 1 back to 0 and never ends | The span covers the caret and the inner type: the inner span plus one | not executed | GenCustom.PointerSkipAsWritten, GenCustom.PointerLoopAsWritten | GenCustom.ParseEncoding, GenCustom.PointerSpansInner, GenCustom.FriendlyArgsDecode |
| iphone/hooks/generate/block.js:198-199 | Each signature is normalised with a regular expression without the `g` flag, so only the first `_Bool` or `bool` becomes `BOOL` | `v(_Bool,_Bool)` against `v(BOOL,BOOL)`: the normalised forms `v(BOOL,_Bool)` and `v(BOOL,BOOL)` differ | Two signatures that differ only in how they spell the boolean type match | not executed | GenBlock.TwoBoolsDifferAsWritten | GenBlock.SpellingsMatchCorrected, GenBlock.TwoBoolsMatchCorrected |
| iphone/hooks/generate/class.js:69 | The import lines are rendered by `util.makeImports`, which util.js does not export; nor does it export `generateClassProperty`, `generateInstanceMethod` or `generateClassMethod`, called at class.js:33, 64 and 66 | Any class that reaches the end of `makeClass` fails with a TypeError, and a class with a referenced class property or method fails earlier | The import lines of imports.js (`makeImports` there) | not executed | GenClass.MakeClassAsWritten, GenClass.MakeClassAlwaysFails, GenClass.GeneratorsMissing | GenClass.MakeClass |
| iphone/hooks/generate/index.js:57-67 | The walk starts at `cls.superclass`, which is the superclass's name, a string with no `protocols` | A class whose superclass adopts the protocol: the answer is false | The walk starts at the superclass's entry in `json.classes` and finds any adopting class up the chain | not executed | GenProtocols.IsProtocolImplementedBySuperClass | GenProtocols.SuperclassAdoptionFound |
| iphone/hooks/generate/code-generator.js:220 | The guard compares `Object.keys` of the class-name array, an array, with the number 0 | No custom classes: `custom.m` is still written | `custom.m` is skipped when there are no custom classes | not executed | GenCode.CustomsWithoutClasses | GenCode.CodeGenerator.GenerateCustoms |
| iphone/hooks/tasks/scan-references-task.js:184 | The test reads `!isBuiltin`, the function, which is never false, so no imported class is checked against its framework | `import V from 'UIKit/NoSuchView'` with UIKit holding only `UIView` is rewritten | A class missing from its non-builtin framework is refused | not executed | IosScan.ImportUncheckedAsWritten | IosScan.ImportRewrite, IosScan.Scanner.VisitImport |
| iphone/hooks/generate/struct.js:14-28 | The string is cut at its first `}`, and a `=` before the first `{` makes the call recurse on the same string | `{s={a=i}{b=f}}` flattens to `i` alone; `a={b` never returns | The leaf codes of every field, in order | not executed | GenStruct.NestedAsWritten, GenStruct.EqualsBeforeBraceLoops | GenStruct.NestedCorrected, GenStruct.FlattenCorrectedLeaves |
