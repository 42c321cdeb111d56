# C++ code generator of schema-salad, modelled in Dafny

This project models `schema_salad/cpp_codegen.py`, the schema-salad back end that turns a
list of parsed Schema Salad items (records, enums, arrays, documentation) into one C++17
header. The model covers the whole translation path:

- **Name handling** (`Names`): `replaceKeywords`, `safename` and `safename2`, and the
  splitting of `base#fragment` and `base#Class/field` identifiers.
- **Shape predicates** (`Shapes`): `isPrimitiveType`, `hasFieldValue`, `isRecordSchema`,
  `isEnumSchema`, `isArray`, `pred` and `isArraySchema`, with the loops of the last two.
- **Type resolver** (`Resolver`): `convertTypeToCpp` as a function of the enum registry it
  reads and the registry it leaves. Inline enums are registered on first sight.
- **Model builder** (`Builder`): `parseRecordField`, `parseRecordSchema`, `parseEnum` and
  the loop of `parse`, as functions over the two insertion-ordered registries.
- **Epilogue** (`Epilogue`): the pass that strips the bases of specialised classes, the
  pass that appends each class's own fields, and the order in which the text is written.
- **Prototypes and their text** (`Definitions`): `ClassDefinition`, `FieldDefinition` and
  `EnumDefinition` and every `write*` method, one string per `target.write` call.
- **The generator object** (`Generator.CppCodeGen`): a class holding `classDefinitions`
  and `enumDefinitions`. Its methods run the source's loops and are proved equal to the
  functions above; their results feed the stream `Output.Target`, whose `chunks` only grow.

Python semantics are written out where the code relies on them:

- `d[k]` raises KeyError for a missing key and TypeError on a non-dictionary (`Values.Index`).
- `k in v` means key, element or substring membership (`Values.In`).
- Iteration walks list elements, string characters or dictionary keys (`Values.Iterate`).
- Dictionaries keep insertion order: overwriting a key keeps its place (`Registry.Put`).
- Exceptions become `Result.Err` with the Python exception's name.

The input is a `Values.Value`: a string, a boolean, a list or a dictionary. The generated
C++ text is compared literally, string by string.

Behaviours kept as the code has them:

- An abstract class still declares and defines `toYaml` (`Definitions.ToYamlAlwaysEmitted`).
- Only a string that does not hold exactly one `#` passes through the resolver unchanged.
  A dictionary with an unknown tag is split at its `type` field, and a list nested in a
  one-element list raises (`Resolver.ConvertPlainName`, `Resolver.ConvertNestedList`).
- An array type expression accepts a scalar `items`; the array-schema predicate does not.
  Both are kept as written.

## Model

| member | source | states |
|---|---|---|
| Values.Index | schema_salad/cpp_codegen.py:619 | `d[k]` gives the value under `k` of a dictionary holding it, KeyError for a dictionary without it, TypeError for anything else |
| Values.In | schema_salad/cpp_codegen.py:621-622 | `k in d` on a dictionary is key membership; only a boolean makes `in` fail |
| Values.GetOr | schema_salad/cpp_codegen.py:640 | `get(k, default)` is the stored value when the key is present, else the default |
| Values.Iterate | schema_salad/cpp_codegen.py:653 | iterating a list gives its elements, a string its one-character strings, a dictionary its keys in order; a boolean is not iterable |
| Values.AsList | schema_salad/cpp_codegen.py:643 | `aslist` keeps a list and wraps anything else in a one-element list |
| Strings.SplitLength | schema_salad/cpp_codegen.py:67-68 | `split` gives one more piece than there are separators |
| Strings.SplitPiecesFree | schema_salad/cpp_codegen.py:67 | no piece of a split holds the separator |
| Strings.JoinSplit | schema_salad/cpp_codegen.py:67-70 | joining the pieces of a split with the separator gives back the string |
| Strings.SplitJoin | schema_salad/cpp_codegen.py:67-70 | splitting a join of separator-free pieces gives back the pieces |
| Strings.MapSeq | schema_salad/cpp_codegen.py:112 | `list(map(f, xs))` has one entry per element, entry `i` being `f(xs[i])` |
| Strings.Filter | schema_salad/cpp_codegen.py:567-579 | the kept elements are elements of the input satisfying the test, and every element satisfying it is kept |
| Strings.FilterAppend | schema_salad/cpp_codegen.py:567-579 | filtering a concatenation filters each part, in order |
| Strings.FilterIsSubsequence | schema_salad/cpp_codegen.py:567-579 | what a filter keeps is a subsequence of its input, so order is preserved |
| Strings.FlatMapAt | schema_salad/cpp_codegen.py:583-586 | in a loop writing each element's text, element `i`'s text appears whole between the texts of the elements before and after it |
| Names.ReplaceKeywords | schema_salad/cpp_codegen.py:31-46 | the result is never one of the ten reserved words, extends the input, and is one `_` longer exactly when the input is reserved |
| Names.SafenameSpec | schema_salad/cpp_codegen.py:49-52 | only letters, digits and `_` remain; each character outside `[a-zA-Z0-9]` becomes `_` in place; one `_` is appended exactly when the sanitised name is reserved; the result is not reserved |
| Names.SafenameIdempotent | schema_salad/cpp_codegen.py:49-52 | `safename` applied twice is `safename` applied once |
| Names.SafeHasNoPunctuation | schema_salad/cpp_codegen.py:49-52 | a safe name holds no `:`, `#`, `/`, `,` or quote |
| Names.SplitName | schema_salad/cpp_codegen.py:61-70 | succeeds exactly when there is one `#`, else ValueError; the parts are `#`-free and rejoin to the input |
| Names.SplitNameOfJoin | schema_salad/cpp_codegen.py:61-70 | two `#`-free parts joined by `#` split back into themselves |
| Names.SplitField | schema_salad/cpp_codegen.py:73-82 | succeeds exactly when there is one `#` and the fragment holds one `/`, else ValueError; the three parts rejoin to the input |
| Names.SplitFieldOfJoin | schema_salad/cpp_codegen.py:73-82 | `ns#Class/field` built from separator-free parts splits back into them |
| Registry.Empty | schema_salad/cpp_codegen.py:323-324 | the registries start empty and well formed |
| Registry.Put | schema_salad/cpp_codegen.py:656 | `d[k] = v` stores `v`; a new key goes last, an existing key keeps its place |
| Registry.PutAbsentGrows | schema_salad/cpp_codegen.py:374-378 | inserting an absent key keeps every earlier entry and its position |
| Registry.Ordered | schema_salad/cpp_codegen.py:557 | `for key in d: d[key]` visits the values in key insertion order |
| Shapes.AllPredAt | schema_salad/cpp_codegen.py:268-275 | the loop of `isArray` accepts exactly when every element satisfies `pred` |
| Shapes.AllPredOrArrayAt | schema_salad/cpp_codegen.py:298-301 | the loop of `isArraySchema` accepts exactly when every item satisfies `pred` or `isArray` |
| Shapes.PredCases | schema_salad/cpp_codegen.py:278-286 | `pred` holds exactly for strings and for record, enum and array schemas |
| Shapes.ShapesExclusive | schema_salad/cpp_codegen.py:252-265 | the record, enum and array schema shapes exclude each other, and a list accepted by `isArray` is not `pred` |
| Shapes.ArraySchemaShape | schema_salad/cpp_codegen.py:289-301 | `isArraySchema` holds exactly for an `array` tag with a list of items, each `pred` or `isArray` |
| Shapes.CheckArray | schema_salad/cpp_codegen.py:268-275 | the loop returns `isArray(v)` |
| Shapes.CheckArraySchema | schema_salad/cpp_codegen.py:289-301 | the checks and loop return `isArraySchema(v)` |
| Output.Target.Write | schema_salad/cpp_codegen.py:106 | `write` appends its string to the stream and changes nothing else |
| Definitions.FieldDefinition.WriteDefinition | schema_salad/cpp_codegen.py:179-183 | writes one `heap_object<type> name;` line, with the class's namespace qualifier removed from the type and the name made safe |
| Definitions.RemoveAllAbsent | schema_salad/cpp_codegen.py:182 | `replace` leaves a string without the pattern unchanged |
| Definitions.RemoveAllLeading | schema_salad/cpp_codegen.py:182 | `replace` drops a leading occurrence of the pattern |
| Definitions.MemberLineSameNamespace | schema_salad/cpp_codegen.py:182-183 | a field typed by a class of the same namespace refers to it as `heap_object<Cls>` |
| Definitions.AddFieldLineRemap | schema_salad/cpp_codegen.py:151-159 | the `addYamlField` line goes through `convertListToMap` exactly when the remap key is non-empty |
| Definitions.MemberLines | schema_salad/cpp_codegen.py:122-123 | one member line per emitted field, in field order |
| Definitions.AddFieldLinesAt | schema_salad/cpp_codegen.py:149-159 | line `i` of the `toYaml` body's field part is field `i`'s `addYamlField` line |
| Definitions.MergeLines | schema_salad/cpp_codegen.py:146-147 | one `mergeYaml` line per base, line `i` naming base `i` |
| Definitions.ClassDefinition.WriteFwdDeclaration | schema_salad/cpp_codegen.py:104-106 | writes `namespace ns { struct Cls; }` |
| Definitions.ClassDefinition.WriteDefinition | schema_salad/cpp_codegen.py:108-129 | writes the head, one member line per emitted field, and the tail, in that order |
| Definitions.ClassDefinition.WriteHead | schema_salad/cpp_codegen.py:110-120 | writes the namespace, the struct name, the base list when there are bases, and the opening brace |
| Definitions.ClassDefinition.WriteMembers | schema_salad/cpp_codegen.py:122-123 | the loop writes the member line of each emitted field in order |
| Definitions.ClassDefinition.WriteTail | schema_salad/cpp_codegen.py:125-129 | writes the destructor when abstract, the `toYaml` declaration and the closing braces |
| Definitions.ClassDefinition.WriteImplDefinition | schema_salad/cpp_codegen.py:131-162 | writes the destructor default when abstract, the `toYaml` head, one merge per base, one `addYamlField` per field, and `return n;` |
| Definitions.ClassDefinition.WriteImplHead | schema_salad/cpp_codegen.py:135-145 | writes the destructor default when abstract and the head of `toYaml` |
| Definitions.ClassDefinition.WriteMerges | schema_salad/cpp_codegen.py:146-147 | the loop writes one `mergeYaml` line per base, in declared order |
| Definitions.ClassDefinition.WriteAddFields | schema_salad/cpp_codegen.py:149-159 | the loop writes one `addYamlField` line per emitted field, in field order |
| Definitions.NewClassDefinition | schema_salad/cpp_codegen.py:88-102 | the constructor succeeds exactly when the name has one `#`, else ValueError; it keeps the full name, makes both parts safe, and starts with no bases, specialisations or fields, not abstract |
| Definitions.EnumDefinition.EntryLines | schema_salad/cpp_codegen.py:224-225 | one `to_enum` map entry per symbol, entry `i` mapping symbol `i` to `Name::safename(symbol)` |
| Definitions.EnumDefinition.WriteDefinition | schema_salad/cpp_codegen.py:194-232 | writes the declaration part and then the conversion part |
| Definitions.EnumDefinition.WriteDeclaration | schema_salad/cpp_codegen.py:196-220 | writes the enum type and `to_string`, inside `namespace ns { ... }` exactly when the name has one `#` and a non-empty part before it |
| Definitions.EnumDefinition.WriteDeclarationBody | schema_salad/cpp_codegen.py:207-217 | writes the `enum class` and then `to_string` |
| Definitions.EnumDefinition.WriteEnumClass | schema_salad/cpp_codegen.py:207-209 | writes the `enum class` with the safe symbols joined by `,` and a newline |
| Definitions.EnumDefinition.WriteToString | schema_salad/cpp_codegen.py:210-217 | writes `to_string` with the symbols as written, in order |
| Definitions.EnumDefinition.WriteConversion | schema_salad/cpp_codegen.py:222-232 | writes the head of `to_enum`, one entry per symbol, and the tail with `toYaml` and `yamlToEnum` |
| Definitions.EnumDefinition.WriteConversionHead | schema_salad/cpp_codegen.py:222-223 | writes the head of `to_enum` |
| Definitions.EnumDefinition.WriteEntries | schema_salad/cpp_codegen.py:224-225 | the loop writes one map entry per symbol, in order |
| Definitions.EnumDefinition.WriteConversionTail | schema_salad/cpp_codegen.py:226-232 | writes the end of `to_enum`, then `toYaml` and `yamlToEnum` |
| Definitions.BaseNamesStart | schema_salad/cpp_codegen.py:116-117 | the base list starts with neither a space nor a line break |
| Definitions.HeadNotIndented | schema_salad/cpp_codegen.py:110-120 | no chunk of the struct head starts with an indentation unit |
| Definitions.TailShape | schema_salad/cpp_codegen.py:125-129 | the tail is the optional destructor, the `toYaml` declaration and two closing braces |
| Definitions.MembersNoDestructor | schema_salad/cpp_codegen.py:122-123 | no member line declares a destructor |
| Definitions.TailDestructor | schema_salad/cpp_codegen.py:125-126 | the tail's only destructor line is the one an abstract class gets |
| Definitions.DefinitionDestructor | schema_salad/cpp_codegen.py:125-126 | the definition declares the pure-virtual destructor exactly when the class is abstract, and only once |
| Definitions.MembersAllMember | schema_salad/cpp_codegen.py:122-123 | every member line is a `heap_object` line |
| Definitions.TailNoMember | schema_salad/cpp_codegen.py:125-129 | the tail holds no member line |
| Definitions.DefinitionMembers | schema_salad/cpp_codegen.py:122-123 | the definition's `heap_object` lines are exactly the member lines of the emitted fields, in order |
| Definitions.BaseIntroOnly | schema_salad/cpp_codegen.py:115-117 | only the base-list opener starts with a line break |
| Definitions.DefinitionBaseList | schema_salad/cpp_codegen.py:115-117 | the `: Base, ...` list is written exactly when there are bases, and then it names them |
| Definitions.ImplShape | schema_salad/cpp_codegen.py:135-145 | the implementation head and its last line neither merge nor add a field |
| Definitions.MergeLinesShape | schema_salad/cpp_codegen.py:146-147 | every merge line merges and adds no field |
| Definitions.AddFieldLinesShape | schema_salad/cpp_codegen.py:149-159 | every field line adds a field and merges nothing |
| Definitions.HeadFilters | schema_salad/cpp_codegen.py:135-145 | the head and the `return n;` line hold no merge and no field line |
| Definitions.MergeFilters | schema_salad/cpp_codegen.py:146-147 | the merge part is all merges and no field lines |
| Definitions.AddFieldFilters | schema_salad/cpp_codegen.py:149-159 | the field part is all field lines and no merges |
| Definitions.ImplMerges | schema_salad/cpp_codegen.py:146-147 | the implementation's `mergeYaml` lines are exactly one per base, in declared order |
| Definitions.ImplAddFields | schema_salad/cpp_codegen.py:149-159 | the implementation's `addYamlField` lines are exactly one per emitted field, in field order |
| Definitions.ToYamlAlwaysEmitted | schema_salad/cpp_codegen.py:125-145 | every class, abstract or not, declares and defines `toYaml`; the implementation is two chunks, one more when abstract, plus one per base and one per emitted field |
| Definitions.ToYamlQualifier | schema_salad/cpp_codegen.py:113-127 | `toYaml` is `virtual` exactly without bases and ` override` exactly with bases |
| Resolver.QualifiedCpp | schema_salad/cpp_codegen.py:401-403 | naming a record succeeds exactly for a string with one `#`; another string raises ValueError, a non-string TypeError |
| Resolver.Symbols | schema_salad/cpp_codegen.py:377 | `list(map(shortname, symbols))` fails only with TypeError |
| Resolver.ShortNames | schema_salad/cpp_codegen.py:377 | succeeds exactly when every symbol is a string, and then symbol `i` becomes `shortname(symbol i)` |
| Resolver.RegisterEnum | schema_salad/cpp_codegen.py:373-378 | the registry only grows; the result is the enum's name, registered afterwards |
| Resolver.InlineEnum | schema_salad/cpp_codegen.py:369-382 | the inline-enum branch only grows the registry and never raises SchemaException |
| Resolver.Convert | schema_salad/cpp_codegen.py:326-418 | converting only adds enums to the registry, never changes one, and never raises SchemaException |
| Resolver.ConvertEach | schema_salad/cpp_codegen.py:416-417 | one C++ type per list member; the registry only grows |
| Resolver.ConvertSingle | schema_salad/cpp_codegen.py:331-414 | the single-element case only grows the registry and never raises SchemaException |
| Resolver.ConvertUnwrap | schema_salad/cpp_codegen.py:328-329 | a non-list converts as the one-element list holding it |
| Resolver.ConvertUnion | schema_salad/cpp_codegen.py:416-418 | a list of any length but one becomes `std::variant<...>` of its members' types in list order, and fails exactly when a member fails |
| Resolver.ConvertEachAt | schema_salad/cpp_codegen.py:416 | member `i` is converted in the registry the members before it left, and gives type `i` |
| Resolver.ConvertEachStopsAtError | schema_salad/cpp_codegen.py:416 | once a member raises, later members are not converted |
| Resolver.BuiltinTableAgrees | schema_salad/cpp_codegen.py:332-367 | every short name and URI of the fixed table gives its C++ type |
| Resolver.BuiltinFirstRows | schema_salad/cpp_codegen.py:332-340 | `null`, `string` and `int`, short or URI, give `std::monostate`, `std::string` and `int32_t` |
| Resolver.BuiltinMiddleRows | schema_salad/cpp_codegen.py:341-350 | `long` and `float`, short or URI, give `int64_t` and `float` |
| Resolver.BuiltinLastRows | schema_salad/cpp_codegen.py:351-367 | `double`, `boolean`, salad `Any` and `PrimitiveType` give `double`, `bool`, `std::any` and the six-member variant |
| Resolver.BuiltinOnlyTable | schema_salad/cpp_codegen.py:332-367 | nothing outside the table is taken for a built-in type |
| Resolver.ConvertBuiltin | schema_salad/cpp_codegen.py:331-367 | a built-in name, alone or in a one-element list, gives its fixed type and leaves the registry alone |
| Resolver.ConvertPlainName | schema_salad/cpp_codegen.py:409-414 | another string passes through unless it has one `#`, in which case it becomes `ns::cls` |
| Resolver.ConvertNestedList | schema_salad/cpp_codegen.py:409 | a list nested in a one-element list raises (TypeError) |
| Resolver.ConvertArray | schema_salad/cpp_codegen.py:383-396 | list items give `std::vector<std::variant<...>>` of the item types; scalar items give `std::vector<T>`; each fails exactly when its items fail |
| Resolver.ConvertRecord | schema_salad/cpp_codegen.py:397-403 | an inline record gives `ns::cls` of its name and leaves the registry alone |
| Resolver.EnumCppNameAgrees | schema_salad/cpp_codegen.py:379-382 | the C++ name given to an inline enum is the qualified name its definition writes |
| Resolver.InlineEnumRegisters | schema_salad/cpp_codegen.py:373-382 | an inline enum seen for the first time is registered last under its name, with the shortened symbols |
| Resolver.InlineEnumKnown | schema_salad/cpp_codegen.py:373-382 | an inline enum already registered leaves the registry unchanged: the first definition wins |
| Resolver.ConvertInlineEnum | schema_salad/cpp_codegen.py:368-372 | a dictionary tagged `enum` takes the inline-enum branch |
| Resolver.ConvertStable | schema_salad/cpp_codegen.py:326-418 | converting again in a registry grown from the one the first conversion left gives the same type and registers nothing |
| Resolver.ConvertSingleStable | schema_salad/cpp_codegen.py:331-414 | the same stability for the single-element case |
| Resolver.ConvertEachStable | schema_salad/cpp_codegen.py:416-417 | the same stability for the members of a list |
| Resolver.ConvertIdempotent | schema_salad/cpp_codegen.py:373-378 | converting the same type twice gives the same type, and the second time registers nothing |
| Builder.Remap | schema_salad/cpp_codegen.py:620-623 | the remap key is `jsonldPredicate.mapSubject` when both are present, else empty |
| Builder.FieldType | schema_salad/cpp_codegen.py:625-633 | the field type only grows the registry and never raises SchemaException |
| Builder.RecordField | schema_salad/cpp_codegen.py:617-635 | the field takes the last part of `ns#Class/field` as its name and the remap key, and is not optional |
| Builder.FieldsOf | schema_salad/cpp_codegen.py:652-654 | one field definition per field, in order; the registry only grows |
| Builder.BasesOf | schema_salad/cpp_codegen.py:642-646 | succeeds exactly when each base is a string with one `#`; base `i` is that name split at `#` |
| Builder.SpecializationsOf | schema_salad/cpp_codegen.py:648-650 | succeeds exactly when every entry has `specializeFrom`; entry `i` gives its value |
| Builder.Extends | schema_salad/cpp_codegen.py:642-646 | reading `extends` never raises SchemaException |
| Builder.Specializations | schema_salad/cpp_codegen.py:648-650 | reading `specialize` never raises SchemaException |
| Builder.Fields | schema_salad/cpp_codegen.py:652-654 | reading `fields` only grows the registry and never raises SchemaException |
| Builder.RecordSchema | schema_salad/cpp_codegen.py:637-655 | the class prototype is the constructor's with the parsed bases, specialisations and fields, abstract as `stype.get("abstract", False)` is truthy |
| Builder.IsDocumentation | schema_salad/cpp_codegen.py:674 | for a dictionary, the test is `type == "documentation"`; it fails exactly for a boolean, a list holding `"type"` or a string containing `type` |
| Builder.ParseItem | schema_salad/cpp_codegen.py:674-686 | one item keeps both registries well formed and only grows the enum registry |
| Builder.ParseItems | schema_salad/cpp_codegen.py:673-686 | the loop keeps both registries well formed and only grows the enum registry |
| Builder.EnumFirstWins | schema_salad/cpp_codegen.py:658-665 | `parseEnum` with a known name returns it and leaves the registry unchanged |
| Builder.EnumRegistersNew | schema_salad/cpp_codegen.py:658-665 | `parseEnum` with a new name registers it last, with the symbols shortened in order, and touches nothing else |
| Builder.EnumIdempotent | schema_salad/cpp_codegen.py:658-665 | registering the same enum again changes nothing |
| Builder.FieldEnumPlaceholder | schema_salad/cpp_codegen.py:625-627 | a field typed by a dictionary tagged `enum` gets the type `Enum`, and its enum is not registered |
| Builder.FieldConverted | schema_salad/cpp_codegen.py:625-633 | any other field type is converted, with the conversion's registrations kept |
| Builder.FieldTypeUntagged | schema_salad/cpp_codegen.py:626 | a dictionary field type without `type` raises KeyError |
| Builder.ParseSkipsDocumentation | schema_salad/cpp_codegen.py:674-675 | a documentation item changes nothing |
| Builder.ParseItemSchemaException | schema_salad/cpp_codegen.py:677-678 | SchemaException is raised exactly for a non-documentation item that is neither `pred` nor `isArray` |
| Builder.ParseItemRecord | schema_salad/cpp_codegen.py:681-682 | a record registers its class under its name: a new name last, a known name in its old place with the new prototype |
| Builder.ParseItemEnum | schema_salad/cpp_codegen.py:683-684 | an enum item touches only the enum registry |
| Builder.ParseItemNoOwn | schema_salad/cpp_codegen.py:681-686 | one item adds or replaces at most a class whose emitted fields are empty |
| Builder.ParseItemsNoOwn | schema_salad/cpp_codegen.py:673-686 | the loop of `parse` leaves every class with no emitted fields, so `epilogue` starts from nothing |
| Builder.ParseItemsStopsAtError | schema_salad/cpp_codegen.py:673-686 | once an item raises, later items are not looked at |
| Builder.FieldsOfStopsAtError | schema_salad/cpp_codegen.py:653-654 | once a field raises, later fields are not parsed |
| Builder.BasesOfStopsAtError | schema_salad/cpp_codegen.py:643-646 | once a base raises, later bases are not split |
| Builder.SpecializationsOfStopsAtError | schema_salad/cpp_codegen.py:649-650 | once an entry raises, later entries are not read |
| Builder.StringFieldParses | schema_salad/cpp_codegen.py:617-635 | the field `{"name": "ns#Cls/f", "type": "string"}` parses to `f` of type `std::string`, with no remap |
| Builder.FieldsOfOne | schema_salad/cpp_codegen.py:652-654 | a list of one field parses to that field |
| Builder.OneFieldRecordSchema | schema_salad/cpp_codegen.py:637-655 | the record `ns#Cls` with the one string field `f` gives class `Cls` in namespace `ns`, no bases, not abstract, `f` as its only declared field and no emitted fields before the epilogue |
| Builder.ParseRecordScenario | schema_salad/cpp_codegen.py:637-656 | parsing that record registers exactly that class, with no bases, not abstract, and leaves the enums alone |
| Epilogue.StripAll | schema_salad/cpp_codegen.py:560-563 | the first pass keeps every key and its order |
| Epilogue.StripUpToStep | schema_salad/cpp_codegen.py:561-563 | visiting key `n` strips the bases of that class when it is specialised and changes no other class |
| Epilogue.StripSpec | schema_salad/cpp_codegen.py:560-563 | after the first pass a specialised class has no bases, every other class keeps its bases, and nothing else changes |
| Epilogue.SpecializedEmitsNoBases | schema_salad/cpp_codegen.py:560-563 | a specialised class is written with no base list and a `virtual`, not `override`, `toYaml` |
| Epilogue.FoundInParents | schema_salad/cpp_codegen.py:567-576 | the search says whether some base has a field of that name; it raises KeyError only when it reaches an unregistered base |
| Epilogue.OwnFields | schema_salad/cpp_codegen.py:566-579 | the field search over one class fails only with KeyError, exactly when some field's base search fails |
| Epilogue.OwnFieldsFilter | schema_salad/cpp_codegen.py:566-579 | what the search keeps is exactly the fields no base has, in order |
| Epilogue.OwnFieldsMembership | schema_salad/cpp_codegen.py:566-579 | the kept fields are a subsequence of `allfields`; each field no base has is kept, each kept field is in no base |
| Epilogue.DedupClass | schema_salad/cpp_codegen.py:566-579 | the second pass on one class only appends to its `fields` |
| Epilogue.DedupKeys | schema_salad/cpp_codegen.py:566-579 | the second pass keeps the registry's keys and order, and fails only with KeyError |
| Epilogue.DedupAll | schema_salad/cpp_codegen.py:565-579 | the second pass over all classes keeps keys and order, and fails only with KeyError |
| Epilogue.DedupKeysEntries | schema_salad/cpp_codegen.py:566-579 | a class the pass has reached is replaced by its one-class result; the others are unchanged |
| Epilogue.DedupKeysFails | schema_salad/cpp_codegen.py:566-579 | the pass succeeds exactly when every reached class's search succeeds |
| Epilogue.DedupSucceeds | schema_salad/cpp_codegen.py:569-571 | the second pass succeeds exactly when no field search reaches an unregistered base |
| Epilogue.DedupFields | schema_salad/cpp_codegen.py:565-579 | afterwards every class emits its old fields followed by those of its `allfields` that no registered base has, in order |
| Epilogue.FinishedFieldIsOwn | schema_salad/cpp_codegen.py:560-579 | a class that emitted nothing before the passes emits afterwards exactly the fields of its `allfields` that no remaining direct base has, in order, and is otherwise the stripped class |
| Epilogue.FinishedFieldsAreOwn | schema_salad/cpp_codegen.py:560-579 | the same for every class of the registry |
| Epilogue.ParsedFieldsAreOwn | schema_salad/cpp_codegen.py:667-689 | for a fresh generator, `parse` followed by both passes leaves every class emitting exactly its own fields |
| Epilogue.FoundInParentsSame | schema_salad/cpp_codegen.py:567-576 | the search reads only the bases' `allfields` |
| Epilogue.OwnFieldsSame | schema_salad/cpp_codegen.py:566-579 | the field search reads only the bases' `allfields` |
| Epilogue.DedupKeysKeepsAllfields | schema_salad/cpp_codegen.py:566-579 | the pass changes no class's `allfields` |
| Epilogue.DedupKeysStep | schema_salad/cpp_codegen.py:566-567 | at step `i` the class being read is still as it was, and its search gives what it gave before the pass |
| Epilogue.DedupKeysNext | schema_salad/cpp_codegen.py:578-579 | appending the found fields to class `i` is step `i` of the pass |
| Epilogue.DedupKeysStepFails | schema_salad/cpp_codegen.py:571 | a search that fails at step `i` makes the whole pass fail with KeyError |
| Epilogue.DedupOnceKeepsSearch | schema_salad/cpp_codegen.py:565-579 | after one pass every class's bases, `allfields` and search result are as before |
| Epilogue.DedupTwiceAppendsAgain | schema_salad/cpp_codegen.py:565-579 | running the pass a second time succeeds and appends the same own fields again |
| Epilogue.InheritanceChain | schema_salad/cpp_codegen.py:565-579 | with `D` extending `B` extending `A`, `A` declaring `x` and `D` declaring `y`, the emitted fields are `[x]`, `[]` and `[y]` |
| Epilogue.EveryClassHasToYaml | schema_salad/cpp_codegen.py:583-586 | `epilogue` writes the `toYaml` declaration and definition of every class |
| Generator.CppCodeGen.constructor | schema_salad/cpp_codegen.py:307-324 | both registries start empty |
| Generator.CppCodeGen.ConvertTypeToCpp | schema_salad/cpp_codegen.py:326-418 | returns the type the resolver function gives and leaves the enum registry it gives, classes untouched |
| Generator.CppCodeGen.ConvertList | schema_salad/cpp_codegen.py:416-417 | the loop over list members agrees with the resolver's member list |
| Generator.CppCodeGen.ConvertOne | schema_salad/cpp_codegen.py:331-414 | the single-element case agrees with the resolver |
| Generator.CppCodeGen.ParseEnum | schema_salad/cpp_codegen.py:658-665 | agrees with enum registration: a new name is registered, a known one is left as it is |
| Generator.CppCodeGen.ParseRecordField | schema_salad/cpp_codegen.py:617-635 | agrees with the field function, including the `Enum` placeholder |
| Generator.CppCodeGen.ParseFields | schema_salad/cpp_codegen.py:652-654 | the loop over the fields agrees with the field-list function |
| Generator.CppCodeGen.ParseRecordSchema | schema_salad/cpp_codegen.py:637-656 | registers exactly what the record function gives, under its name |
| Generator.CppCodeGen.ParseBases | schema_salad/cpp_codegen.py:642-646 | the loop over `aslist(extends)` agrees with the base-list function |
| Generator.CppCodeGen.ParseSpecializations | schema_salad/cpp_codegen.py:648-650 | the loop over `aslist(specialize)` agrees with the specialisation-list function |
| Generator.CppCodeGen.ParseAll | schema_salad/cpp_codegen.py:673-686 | the loop of `parse` leaves exactly the registries the item-list function gives |
| Generator.CppCodeGen.Parse | schema_salad/cpp_codegen.py:667-689 | the items fill the registries as the item-list function says; the passes then give the final classes, and the stream gets exactly the epilogue text; starting from classes that emit nothing, as a fresh generator does, every class ends up emitting exactly those of its declared fields that no remaining direct base has |
| Generator.CppCodeGen.Epilogue | schema_salad/cpp_codegen.py:420-615 | writes the preamble, the forward declarations of the classes as parsed, the enums, the definitions and implementations of the classes after both passes, then the closing text |
| Generator.CppCodeGen.WriteFwdDeclarations | schema_salad/cpp_codegen.py:557-558 | one forward declaration per class, in key order |
| Generator.CppCodeGen.WriteEnumDefinitions | schema_salad/cpp_codegen.py:581-582 | every enum's text, in key order |
| Generator.CppCodeGen.WriteClassDefinitions | schema_salad/cpp_codegen.py:583-584 | every class's definition, in key order |
| Generator.CppCodeGen.WriteImplDefinitions | schema_salad/cpp_codegen.py:585-586 | every class's implementation, in key order |
| Generator.CppCodeGen.StripPass | schema_salad/cpp_codegen.py:560-563 | the loop leaves exactly the registry of the first pass |
| Generator.CppCodeGen.DedupPass | schema_salad/cpp_codegen.py:565-579 | the nested loops leave exactly the registry of the second pass, or raise its KeyError |
| Generator.CppCodeGen.SearchOwnFields | schema_salad/cpp_codegen.py:567-579 | the loop over `allfields` keeps exactly the fields the search function keeps |
| Generator.CppCodeGen.SearchParents | schema_salad/cpp_codegen.py:569-576 | the loop over the bases, with its `found` flag and `break`, agrees with the base search |
| Generator.CppCodeGen.HasFieldNamed | schema_salad/cpp_codegen.py:571-574 | the innermost loop finds a field of that name exactly when there is one |

## Left out

- The fixed C++ text `epilogue` writes before and after the generated part (lines 422-553 and 588-615) is not spelled out. It is the constructor parameters `preamble` and `closing`, written first and last.
- What the generated C++ does at run time is not modelled: enum/string round trips, list-to-map folding, and `mergeYaml`. The model fixes the text, not its meaning.
- `self.target.close()` at the end of `parse` and the `_logger` calls are I/O and are left out.
- The configuration `base_uri`, `examples`, `package` and `copyright` is stored and never read, so it is left out.
- `shortname` comes from another module. It is a function parameter of the generator.
- `aslist` comes from another module. It is modelled as wrapping a non-list in a one-element list.
- The `CodeGenBase` superclass is not part of this model.
- Numbers and `None` are not in the value type: no branch of this code inspects them.
- The prototypes are datatypes held by value in the registries. Each Python object is referenced only from its registry entry, so no aliasing is lost. A write method that writes in several steps is modelled as a method per step.
- AttributeError (`.split` on a non-string, at lines 379 and 409) is reported as TypeError.
- A non-string `remap`, a non-string enum `name` and non-string `symbols` raise TypeError in the model. In Python they would fail later or produce text of another type.
- A list nested directly in a one-element list (line 409) and a base class missing from the registry (line 571) are modelled as the exceptions they raise, not excluded by a precondition.
- Calling `epilogue` twice is allowed by `Generator.CppCodeGen.Epilogue`'s contract, as in Python; `Epilogue.DedupTwiceAppendsAgain` states the outcome: the own fields are appended again.
- Generator.CppCodeGen.ParseAll: after an exception only the exception is stated, not the partly filled registries Python leaves behind.
- Generator.CppCodeGen.Parse: after an exception only the exception is stated, not the registries or the text written so far.
- Generator.CppCodeGen.Epilogue: after an exception in the second pass only the exception is stated, not the forward declarations already written.
- Generator.CppCodeGen.ConvertTypeToCpp: after an exception only the exception is stated, not the enums registered before it.
- Generator.CppCodeGen.ConvertList: after an exception only the exception is stated, not the enums registered before it.
- Generator.CppCodeGen.ConvertOne: after an exception only the exception is stated, not the enums registered before it.
- Generator.CppCodeGen.ParseEnum: after an exception only the exception is stated, not the enums registered before it.
- Generator.CppCodeGen.ParseRecordField: after an exception only the exception is stated, not the enums registered before it.
- Generator.CppCodeGen.ParseFields: after an exception only the exception is stated, not the enums registered before it.
- Generator.CppCodeGen.DedupPass: after an exception only the exception is stated, not the classes already given their fields.
- Generator.CppCodeGen.ParseRecordSchema: after an exception only the exception is stated, not the enums its fields registered before it.
