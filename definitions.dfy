/** The class, field and enum prototypes and the C++ text each of them writes. */
module Definitions {
  import opened Values
  import opened Strings
  import opened Names
  import opened Output

  /** The indentation unit the generator passes to every write method. */
  const Ind: string := "    "

  /** `s.replace(pat, "")`: delete the non-overlapping occurrences of `pat`, left to right. */
  function RemoveAll(s: string, pat: string): string
    requires |pat| > 0
    decreases |s|
  {
    if |s| < |pat| then s
    else if pat <= s then RemoveAll(s[|pat|..], pat)
    else [s[0]] + RemoveAll(s[1..], pat)
  }

  /** A string that does not contain the pattern is left as it is. */
  lemma {:induction false} RemoveAllAbsent(s: string, pat: string)
    requires |pat| > 0 && !IsInfix(pat, s)
    ensures RemoveAll(s, pat) == s
    decreases |s|
  {
    if |s| >= |pat| {
      RemoveAllAbsent(s[1..], pat);
      assert s == [s[0]] + s[1..];
    }
  }

  /** A leading occurrence of the pattern is dropped. */
  lemma RemoveAllLeading(pat: string, t: string)
    requires |pat| > 0
    ensures RemoveAll(pat + t, pat) == RemoveAll(t, pat)
  {
    assert (pat + t)[|pat|..] == t;
  }

  lemma {:induction false} SafeNotInfixColon(s: string, pat: string)
    requires IsSafe(s) && ':' in pat
    ensures !IsInfix(pat, s)
    decreases |s|
  {
    var k :| 0 <= k < |pat| && pat[k] == ':';
    if k < |s| {
      assert s[k] != ':';
    }
    if |s| > 0 {
      SafeNotInfixColon(s[1..], pat);
    }
  }

  /** Prototype of a single field: its name, its C++ type string and its remap key
      (empty when the list is not folded into a map). */
  datatype FieldDefinition = FieldDefinition(name: string, typeStr: string, optional: bool, remap: string)
  {
    /** The member declaration `writeDefinition` emits; the class's own namespace
        qualifier is dropped from the type. */
    function MemberLine(fullInd: string, ind: string, namespace: string): string
    {
      fullInd + "heap_object<" + RemoveAll(typeStr, namespace + "::") + "> " + Safename(name) + ";\n"
    }

    /** `FieldDefinition.writeDefinition`. */
    method WriteDefinition(target: Target, fullInd: string, ind: string, namespace: string)
      modifies target
      ensures target.chunks == old(target.chunks) + [MemberLine(fullInd, ind, namespace)]
    {
      var name := Safename(this.name);
      var typeStr := RemoveAll(this.typeStr, namespace + "::");
      target.Write(fullInd + "heap_object<" + typeStr + "> " + name + ";\n");
    }

    /** The `addYamlField` line of the class's `toYaml` body for this field. */
    function AddFieldLine(fullInd: string, ind: string): string
    {
      fullInd + ind + "addYamlField(n, \"" + name + AddFieldValue()
    }

    /** The value part of the `addYamlField` line: folded into a map by the remap key
        when there is one. */
    function AddFieldValue(): string
    {
      if remap != "" then "\",\nconvertListToMap(toYaml(*" + Safename(name) + "), \"" + remap + "\"));\n"
      else "\", toYaml(*" + Safename(name) + "));\n"
    }
  }

  /** A field typed by a class of the same namespace refers to it without the qualifier. */
  lemma MemberLineSameNamespace(f: FieldDefinition, namespace: string, cls: string)
    requires IsSafe(cls) && f.typeStr == namespace + "::" + cls
    ensures f.MemberLine(Ind, Ind, namespace) == Ind + "heap_object<" + cls + "> " + Safename(f.name) + ";\n"
  {
    RemoveAllLeading(namespace + "::", cls);
    assert f.typeStr == (namespace + "::") + cls;
    SafeNotInfixColon(cls, namespace + "::");
    RemoveAllAbsent(cls, namespace + "::");
  }

  /** The `addYamlField` line goes through `convertListToMap` exactly when a remap key is set. */
  lemma AddFieldLineRemap(f: FieldDefinition)
    ensures (Ind + "addYamlField(n, \"" + f.name + "\",\nconvertListToMap(" <= f.AddFieldLine("", Ind))
            <==> f.remap != ""
    ensures Ind + "addYamlField(n, \"" + f.name + "\"," <= f.AddFieldLine("", Ind)
  {
    var head := "" + Ind + "addYamlField(n, \"" + f.name;
    var tail := f.AddFieldValue();
    if f.remap == "" {
      assert tail[2] == ' ' && "\",\nconvertListToMap("[2] == '\n';
    }
    PrefixSplit(head, "\",\nconvertListToMap(", tail);
    PrefixSplit(head, "\",", tail);
    assert "" + Ind == Ind;
  }

  /** Appending pieces one after the other appends their concatenation. Stated over an
      abstract element type, so that the solver does not unfold the pieces' contents. */
  lemma AppendTwo<T>(s: seq<T>, a: seq<T>, b: seq<T>)
    ensures s + a + b == s + (a + b)
  {
  }

  lemma AppendFour<T>(s: seq<T>, a: seq<T>, b: seq<T>, c: seq<T>, d: seq<T>)
    ensures s + a + b + c + d == s + (a + b + c + d)
  {
  }

  lemma AppendSix<T>(s: seq<T>, a: seq<T>, b: seq<T>, c: seq<T>, d: seq<T>, e: seq<T>, f: seq<T>)
    ensures s + a + b + c + d + e + f == s + (a + b + c + d + e + f)
  {
  }

  lemma AppendThree<T>(s: seq<T>, a: seq<T>, b: seq<T>, c: seq<T>)
    ensures s + a + b + c == s + (a + b + c)
  {
  }

  /** Writing an opener, a body and a closer appends the bracketed body. */
  lemma Bracketed<T>(s: seq<T>, open: T, body: seq<T>, close: T)
    ensures s + [open] + body + [close] == s + ([open] + body + [close])
  {
  }

  /** A common head can be cancelled from both sides of a prefix test. */
  lemma PrefixSplit(head: string, p: string, tail: string)
    ensures head + p <= head + tail <==> p <= tail
  {
    if head + p <= head + tail {
      assert forall i :: 0 <= i < |p| ==> p[i] == (head + p)[|head| + i] == (head + tail)[|head| + i];
    }
  }

  function MemberLines(fs: seq<FieldDefinition>, fullInd: string, ind: string, namespace: string): (r: seq<string>)
    ensures |r| == |fs|
    ensures forall i :: 0 <= i < |fs| ==> r[i] == fs[i].MemberLine(fullInd, ind, namespace)
  {
    if |fs| == 0 then []
    else MemberLines(fs[..|fs| - 1], fullInd, ind, namespace) + [fs[|fs| - 1].MemberLine(fullInd, ind, namespace)]
  }

  function AddFieldLines(fs: seq<FieldDefinition>, fullInd: string, ind: string): (r: seq<string>)
    ensures |r| == |fs|
  {
    if |fs| == 0 then []
    else AddFieldLines(fs[..|fs| - 1], fullInd, ind) + [fs[|fs| - 1].AddFieldLine(fullInd, ind)]
  }

  /** One `addYamlField` line per field, in field order. */
  lemma {:induction false} AddFieldLinesAt(fs: seq<FieldDefinition>, fullInd: string, ind: string, i: int)
    requires 0 <= i < |fs|
    ensures AddFieldLines(fs, fullInd, ind)[i] == fs[i].AddFieldLine(fullInd, ind)
    decreases |fs|
  {
    if i < |fs| - 1 {
      AddFieldLinesAt(fs[..|fs| - 1], fullInd, ind, i);
    }
  }

  /** The line that folds base `e`'s serialisation into the node. */
  function MergeLine(e: QualifiedName, fullInd: string, ind: string): string
  {
    fullInd + ind + "n = mergeYaml(n, " + Safename2(e) + "::toYaml());\n"
  }

  function MergeLines(es: seq<QualifiedName>, fullInd: string, ind: string): (r: seq<string>)
    ensures |r| == |es|
    ensures forall i :: 0 <= i < |es| ==> r[i] == MergeLine(es[i], fullInd, ind)
  {
    if |es| == 0 then []
    else MergeLines(es[..|es| - 1], fullInd, ind) + [MergeLine(es[|es| - 1], fullInd, ind)]
  }

  /** Prototype of a class. `allfields` includes inherited copies; `fields` is what is
      emitted, filled in by the generator's finishing pass. */
  datatype ClassDefinition = ClassDefinition(
    fullName: string,
    namespace: string,
    classname: string,
    bases: seq<QualifiedName>,
    specializationTypes: seq<Value>,
    allfields: seq<FieldDefinition>,
    fields: seq<FieldDefinition>,
    isAbstract: bool)
  {
    function FwdDeclaration(fullInd: string, ind: string): string
    {
      fullInd + "namespace " + namespace + " { struct " + classname + "; }\n"
    }

    /** `ClassDefinition.writeFwdDeclaration`. */
    method WriteFwdDeclaration(target: Target, fullInd: string, ind: string)
      modifies target
      ensures target.chunks == old(target.chunks) + [FwdDeclaration(fullInd, ind)]
    {
      target.Write(fullInd + "namespace " + namespace + " { struct " + classname + "; }\n");
    }

    function BaseIntro(fullInd: string, ind: string): string
    {
      "\n" + fullInd + ind + ": "
    }

    /** The base classes, C++-qualified, one per line. */
    function BaseNames(fullInd: string, ind: string): string
    {
      Join(MapSeq(Safename2, bases), "\n" + fullInd + ind + ", ")
    }

    function BaseList(fullInd: string, ind: string): seq<string>
    {
      if |bases| > 0 then [BaseIntro(fullInd, ind), BaseNames(fullInd, ind)] else []
    }

    function DestructorDeclaration(fullInd: string, ind: string): string
    {
      fullInd + ind + "virtual ~" + classname + "() = 0;\n"
    }

    function Destructor(fullInd: string, ind: string): seq<string>
    {
      if isAbstract then [DestructorDeclaration(fullInd, ind)] else []
    }

    function ToYamlDeclaration(fullInd: string, ind: string): string
    {
      var virtual := if |bases| > 0 then "" else "virtual ";
      var override := if |bases| > 0 then " override" else "";
      fullInd + ind + virtual + "auto toYaml() const -> YAML::Node" + override + ";\n"
    }

    /** The struct head up to its opening brace. */
    function HeadChunks(fullInd: string, ind: string): seq<string>
    {
      [fullInd + "namespace " + namespace + " {\n", fullInd + "struct " + classname] +
      BaseList(fullInd, ind) + [" {\n"]
    }

    /** The struct body after its members. */
    function TailChunks(fullInd: string, ind: string): seq<string>
    {
      Destructor(fullInd, ind) + [ToYamlDeclaration(fullInd, ind), fullInd + "};\n", fullInd + "}\n\n"]
    }

    /** Everything `writeDefinition` writes, one string per `write` call. */
    function DefinitionChunks(fullInd: string, ind: string): seq<string>
    {
      HeadChunks(fullInd, ind) + MemberLines(fields, fullInd + ind, ind, namespace) + TailChunks(fullInd, ind)
    }

    /** `ClassDefinition.writeDefinition`: the head, one member line per field, the tail. */
    method WriteDefinition(target: Target, fullInd: string, ind: string)
      modifies target
      ensures target.chunks == old(target.chunks) + DefinitionChunks(fullInd, ind)
    {
      ghost var start := target.chunks;
      ghost var head := HeadChunks(fullInd, ind);
      ghost var members := MemberLines(fields, fullInd + ind, ind, namespace);
      ghost var tail := TailChunks(fullInd, ind);
      WriteHead(target, fullInd, ind);
      WriteMembers(target, fullInd, ind);
      WriteTail(target, fullInd, ind);
      AppendThree(start, head, members, tail);
    }

    /** The first part of `writeDefinition`, up to the opening brace. */
    method WriteHead(target: Target, fullInd: string, ind: string)
      modifies target
      ensures target.chunks == old(target.chunks) + HeadChunks(fullInd, ind)
    {
      target.Write(fullInd + "namespace " + namespace + " {\n");
      target.Write(fullInd + "struct " + classname);
      if |bases| > 0 {
        target.Write(BaseIntro(fullInd, ind));
        target.Write(BaseNames(fullInd, ind));
      }
      target.Write(" {\n");
    }

    /** The loop of `writeDefinition` over the emitted fields. */
    method WriteMembers(target: Target, fullInd: string, ind: string)
      modifies target
      ensures target.chunks == old(target.chunks) + MemberLines(fields, fullInd + ind, ind, namespace)
    {
      ghost var before := target.chunks;
      for i := 0 to |fields|
        invariant target.chunks == before + MemberLines(fields[..i], fullInd + ind, ind, namespace)
      {
        fields[i].WriteDefinition(target, fullInd + ind, ind, namespace);
        assert fields[..i + 1][..i] == fields[..i];
      }
      assert fields[..|fields|] == fields;
    }

    /** The last part of `writeDefinition`: destructor, `toYaml`, closing braces. */
    method WriteTail(target: Target, fullInd: string, ind: string)
      modifies target
      ensures target.chunks == old(target.chunks) + TailChunks(fullInd, ind)
    {
      var override := "";
      var virtual := "virtual ";
      if |bases| > 0 {
        override := " override";
        virtual := "";
      }
      if isAbstract {
        target.Write(DestructorDeclaration(fullInd, ind));
      }
      target.Write(fullInd + ind + virtual + "auto toYaml() const -> YAML::Node" + override + ";\n");
      target.Write(fullInd + "};\n");
      target.Write(fullInd + "}\n\n");
    }

    function DestructorImpl(fullInd: string): seq<string>
    {
      if isAbstract then
        [fullInd + "inline " + namespace + "::" + classname + "::~" + classname + "() = default;\n"]
      else []
    }

    function ToYamlHeader(fullInd: string, ind: string): string
    {
      fullInd + "inline auto " + namespace + "::" + classname + "::toYaml() const -> YAML::Node {\n" +
      fullInd + ind + "using ::toYaml;\n" +
      fullInd + ind + "auto n = YAML::Node{};\n"
    }

    /** Everything `writeImplDefinition` writes, one string per `write` call. */
    function ImplChunks(fullInd: string, ind: string): seq<string>
    {
      ImplHeadChunks(fullInd, ind) +
      MergeLines(bases, fullInd, ind) +
      AddFieldLines(fields, fullInd, ind) +
      [ImplTail(fullInd, ind)]
    }

    /** `ClassDefinition.writeImplDefinition`. */
    method WriteImplDefinition(target: Target, fullInd: string, ind: string)
      modifies target
      ensures target.chunks == old(target.chunks) + ImplChunks(fullInd, ind)
    {
      ghost var start := target.chunks;
      ghost var head := ImplHeadChunks(fullInd, ind);
      ghost var merges := MergeLines(bases, fullInd, ind);
      ghost var adds := AddFieldLines(fields, fullInd, ind);
      ghost var last := ImplTail(fullInd, ind);
      WriteImplHead(target, fullInd, ind);
      WriteMerges(target, fullInd, ind);
      assert target.chunks == start + head + merges;
      WriteAddFields(target, fullInd, ind);
      assert target.chunks == start + head + merges + adds;
      target.Write(ImplTail(fullInd, ind));
      AppendFour(start, head, merges, adds, [last]);
    }

    /** The end of the `toYaml` body. */
    function ImplTail(fullInd: string, ind: string): string
    {
      fullInd + ind + "return n;\n" + fullInd + "}\n"
    }

    function ImplHeadChunks(fullInd: string, ind: string): seq<string>
    {
      DestructorImpl(fullInd) + [ToYamlHeader(fullInd, ind)]
    }

    /** The first part of `writeImplDefinition`: the destructor of an abstract class and the
        head of `toYaml`. */
    method WriteImplHead(target: Target, fullInd: string, ind: string)
      modifies target
      ensures target.chunks == old(target.chunks) + ImplHeadChunks(fullInd, ind)
    {
      if isAbstract {
        target.Write(fullInd + "inline " + namespace + "::" + classname + "::~" + classname + "() = default;\n");
      }
      target.Write(
        fullInd + "inline auto " + namespace + "::" + classname + "::toYaml() const -> YAML::Node {\n" +
        fullInd + ind + "using ::toYaml;\n" +
        fullInd + ind + "auto n = YAML::Node{};\n");
    }

    /** The loop of `writeImplDefinition` that merges in each base's serialisation. */
    method WriteMerges(target: Target, fullInd: string, ind: string)
      modifies target
      ensures target.chunks == old(target.chunks) + MergeLines(bases, fullInd, ind)
    {
      ghost var start := target.chunks;
      for i := 0 to |bases|
        invariant target.chunks == start + MergeLines(bases[..i], fullInd, ind)
      {
        var e := Safename2(bases[i]);
        target.Write(fullInd + ind + "n = mergeYaml(n, " + e + "::toYaml());\n");
        assert bases[..i + 1][..i] == bases[..i];
      }
      assert bases[..|bases|] == bases;
    }

    /** The loop of `writeImplDefinition` that adds one YAML entry per emitted field. */
    method WriteAddFields(target: Target, fullInd: string, ind: string)
      modifies target
      ensures target.chunks == old(target.chunks) + AddFieldLines(fields, fullInd, ind)
    {
      ghost var start := target.chunks;
      for i := 0 to |fields|
        invariant target.chunks == start + AddFieldLines(fields[..i], fullInd, ind)
      {
        var field := fields[i];
        var fieldname := Safename(field.name);
        var value;
        if field.remap != "" {
          value := "\",\nconvertListToMap(toYaml(*" + fieldname + "), \"" + field.remap + "\"));\n";
        } else {
          value := "\", toYaml(*" + fieldname + "));\n";
        }
        target.Write(fullInd + ind + "addYamlField(n, \"" + field.name + value);
        assert fields[..i + 1][..i] == fields[..i];
      }
      assert fields[..|fields|] == fields;
    }
  }

  /** `ClassDefinition(name)`: splits the name and makes both parts C++-safe; a name
      without exactly one `#` raises ValueError. */
  function NewClassDefinition(name: string): (r: Result<ClassDefinition>)
    ensures r.Ok? <==> Count(name, '#') == 1
    ensures r.Err? ==> r.error == ValueError
    ensures r.Ok? ==> r.value.fullName == name &&
                      Safename(SplitName(name).value.0) + "::" + Safename(SplitName(name).value.1) ==
                      r.value.namespace + "::" + r.value.classname
    ensures r.Ok? ==> r.value.bases == [] && r.value.specializationTypes == [] &&
                      r.value.allfields == [] && r.value.fields == [] && !r.value.isAbstract
  {
    match SplitName(name)
    case Err(e) => Err(e)
    case Ok((namespace, classname)) =>
      Ok(ClassDefinition(name, Safename(namespace), Safename(classname), [], [], [], [], false))
  }

  /** Prototype of an enum: its schema name and its symbols in declaration order. */
  datatype EnumDefinition = EnumDefinition(name: string, values: seq<string>)
  {
    /** The namespace `writeDefinition` opens (empty for none). */
    function Namespace(): string
    {
      if |Split(name, '#')| == 2 then Safename(SplitName(name).value.0) else ""
    }

    /** The enum's type name inside its namespace. */
    function ClassName(): string
    {
      if |Split(name, '#')| == 2 then Safename(SplitName(name).value.1) else Safename(name)
    }

    /** The fully qualified C++ name the conversion functions use. */
    function QualifiedName(): string
    {
      if |Split(name, '#')| == 2 then Namespace() + "::" + ClassName() else ClassName()
    }

    function EntryLine(v: string, ind: string): string
    {
      ind + ind + "{\"" + v + "\", " + QualifiedName() + "::" + Safename(v) + "},\n"
    }

    function EntryLines(vs: seq<string>, ind: string): (r: seq<string>)
      ensures |r| == |vs|
      ensures forall i :: 0 <= i < |vs| ==> r[i] == EntryLine(vs[i], ind)
    {
      if |vs| == 0 then [] else EntryLines(vs[..|vs| - 1], ind) + [EntryLine(vs[|vs| - 1], ind)]
    }

    function OpenNamespace(): seq<string>
    {
      if |Namespace()| > 0 then ["namespace " + Namespace() + " {\n"] else []
    }

    function CloseNamespace(): seq<string>
    {
      if |Namespace()| > 0 then ["}\n"] else []
    }

    /** The enum type and its `to_string` table, inside the namespace when there is one. */
    function DeclarationChunks(ind: string): seq<string>
    {
      OpenNamespace() + DeclarationBody(ind) + CloseNamespace()
    }

    function DeclarationBody(ind: string): seq<string>
    {
      EnumClassChunks(ind) + ToStringChunks(ind)
    }

    function EnumClassChunks(ind: string): seq<string>
    {
      ["enum class " + ClassName() + " : unsigned int {\n" + ind,
       Join(MapSeq(Safename, values), ",\n" + ind),
       "\n};\n"]
    }

    function ToStringChunks(ind: string): seq<string>
    {
      ["inline auto to_string(" + ClassName() + " v) {\n",
       ind + "static auto m = std::vector<std::string_view> {\n",
       ind + "    \"",
       Join(values, "\",\n" + ind + "    \""),
       "\"\n" + ind + "};\n",
       ind + "using U = std::underlying_type_t<" + QualifiedName() + ">;\n",
       ind + "return m.at(static_cast<U>(v));\n}\n"]
    }

    /** The `to_enum`, `toYaml` and `yamlToEnum` functions. */
    function ConversionChunks(ind: string): seq<string>
    {
      ConversionHead(ind) + EntryLines(values, ind) + ConversionTail(ind)
    }

    function ConversionHead(ind: string): seq<string>
    {
      var name := QualifiedName();
      ["inline void to_enum(std::string_view v, " + name + "& out) {\n",
       ind + "static auto m = std::map<std::string, " + name + ", std::less<>> {\n"]
    }

    function ConversionTail(ind: string): seq<string>
    {
      var name := QualifiedName();
      [ind + "};\n" + ind + "out = m.find(v)->second;\n}\n",
       "inline auto toYaml(" + name + " v) {\n",
       ind + "return YAML::Node{std::string{to_string(v)}};\n}\n",
       "inline auto yamlToEnum(YAML::Node n, " + name + "& out) {\n",
       ind + "to_enum(n.as<std::string>(), out);\n}\n"]
    }

    /** Everything `EnumDefinition.writeDefinition` writes. */
    function DefinitionChunks(ind: string): seq<string>
    {
      DeclarationChunks(ind) + ConversionChunks(ind)
    }

    /** `EnumDefinition.writeDefinition`. */
    method WriteDefinition(target: Target, ind: string)
      modifies target
      ensures target.chunks == old(target.chunks) + DefinitionChunks(ind)
    {
      ghost var start := target.chunks;
      ghost var declaration := DeclarationChunks(ind);
      ghost var conversion := ConversionChunks(ind);
      WriteDeclaration(target, ind);
      WriteConversion(target, ind);
      AppendTwo(start, declaration, conversion);
    }

    /** The first half of `writeDefinition`: the enum type and `to_string`. */
    method WriteDeclaration(target: Target, ind: string)
      modifies target
      ensures target.chunks == old(target.chunks) + DeclarationChunks(ind)
    {
      ghost var start := target.chunks;
      ghost var body := DeclarationBody(ind);
      var namespace := Namespace();
      if |namespace| > 0 {
        target.Write("namespace " + namespace + " {\n");
        WriteDeclarationBody(target, ind);
        target.Write("}\n");
        Bracketed(start, "namespace " + namespace + " {\n", body, "}\n");
      } else {
        WriteDeclarationBody(target, ind);
        assert [] + body + [] == body;
      }
    }

    /** The second half of `writeDefinition`: `to_enum`, `toYaml` and `yamlToEnum`. */
    method WriteConversion(target: Target, ind: string)
      modifies target
      ensures target.chunks == old(target.chunks) + ConversionChunks(ind)
    {
      ghost var start := target.chunks;
      ghost var head := ConversionHead(ind);
      ghost var entries := EntryLines(values, ind);
      ghost var tail := ConversionTail(ind);
      WriteConversionHead(target, ind);
      WriteEntries(target, ind);
      WriteConversionTail(target, ind);
      AppendThree(start, head, entries, tail);
    }

    /** The enum type and `to_string`, as `writeDefinition` writes them. */
    method WriteDeclarationBody(target: Target, ind: string)
      modifies target
      ensures target.chunks == old(target.chunks) + DeclarationBody(ind)
    {
      ghost var start := target.chunks;
      WriteEnumClass(target, ind);
      WriteToString(target, ind);
      assert EnumClassChunks(ind) + ToStringChunks(ind) == DeclarationBody(ind);
    }

    /** The `enum class` declaration with the sanitised symbols. */
    method WriteEnumClass(target: Target, ind: string)
      modifies target
      ensures target.chunks == old(target.chunks) + EnumClassChunks(ind)
    {
      var classname := ClassName();
      target.Write("enum class " + classname + " : unsigned int {\n" + ind);
      target.Write(Join(MapSeq(Safename, values), ",\n" + ind));
      target.Write("\n};\n");
    }

    /** The `to_string` function with its table of the symbols as written. */
    method WriteToString(target: Target, ind: string)
      modifies target
      ensures target.chunks == old(target.chunks) + ToStringChunks(ind)
    {
      var classname := ClassName();
      var name := QualifiedName();
      target.Write("inline auto to_string(" + classname + " v) {\n");
      target.Write(ind + "static auto m = std::vector<std::string_view> {\n");
      target.Write(ind + "    \"");
      target.Write(Join(values, "\",\n" + ind + "    \""));
      target.Write("\"\n" + ind + "};\n");
      target.Write(ind + "using U = std::underlying_type_t<" + name + ">;\n");
      target.Write(ind + "return m.at(static_cast<U>(v));\n}\n");
    }

    method WriteConversionHead(target: Target, ind: string)
      modifies target
      ensures target.chunks == old(target.chunks) + ConversionHead(ind)
    {
      var name := QualifiedName();
      target.Write("inline void to_enum(std::string_view v, " + name + "& out) {\n");
      target.Write(ind + "static auto m = std::map<std::string, " + name + ", std::less<>> {\n");
    }

    /** The loop of `writeDefinition` over the symbols: one map entry each. */
    method WriteEntries(target: Target, ind: string)
      modifies target
      ensures target.chunks == old(target.chunks) + EntryLines(values, ind)
    {
      var name := QualifiedName();
      ghost var start := target.chunks;
      for i := 0 to |values|
        invariant target.chunks == start + EntryLines(values[..i], ind)
      {
        var v := values[i];
        target.Write(ind + ind + "{\"" + v + "\", " + name + "::" + Safename(v) + "},\n");
        assert values[..i + 1][..i] == values[..i];
      }
      assert values[..|values|] == values;
    }

    method WriteConversionTail(target: Target, ind: string)
      modifies target
      ensures target.chunks == old(target.chunks) + ConversionTail(ind)
    {
      var name := QualifiedName();
      target.Write(ind + "};\n" + ind + "out = m.find(v)->second;\n}\n");
      target.Write("inline auto toYaml(" + name + " v) {\n");
      target.Write(ind + "return YAML::Node{std::string{to_string(v)}};\n}\n");
      target.Write("inline auto yamlToEnum(YAML::Node n, " + name + "& out) {\n");
      target.Write(ind + "to_enum(n.as<std::string>(), out);\n}\n");
    }
  }

  /** Lines of the struct body that declare a member. */
  predicate IsMemberLine(s: string)
  {
    Ind + "heap_object<" <= s
  }

  /** Lines of the struct body that declare the pure-virtual destructor. */
  predicate IsDestructorLine(s: string)
  {
    Ind + "virtual ~" <= s
  }

  /** Lines of the `toYaml` body that merge a base's serialisation. */
  predicate IsMergeLine(s: string)
  {
    Ind + "n = mergeYaml(" <= s
  }

  /** Lines of the `toYaml` body that add a field. */
  predicate IsAddFieldLine(s: string)
  {
    Ind + "addYamlField(" <= s
  }

  lemma FilterNone<A>(p: A -> bool, xs: seq<A>)
    requires forall i :: 0 <= i < |xs| ==> !p(xs[i])
    ensures Filter(p, xs) == []
  {
  }

  lemma {:induction false} FilterAll<A>(p: A -> bool, xs: seq<A>)
    requires forall i :: 0 <= i < |xs| ==> p(xs[i])
    ensures Filter(p, xs) == xs
    decreases |xs|
  {
    if |xs| > 0 {
      FilterAll(p, xs[1..]);
      assert xs == [xs[0]] + xs[1..];
    }
  }

  /** The base list never starts with a space or a line break: it starts with a
      sanitised name or with `::`. */
  lemma BaseNamesStart(c: ClassDefinition)
    requires |c.bases| > 0
    ensures |c.BaseNames("", Ind)| > 0
    ensures c.BaseNames("", Ind)[0] != ' ' && c.BaseNames("", Ind)[0] != '\n'
  {
    var xs := MapSeq(Safename2, c.bases);
    var first := Safename2(c.bases[0]);
    assert xs[0] == first;
    var ns := Safename(c.bases[0].namespace);
    SafenameSpec(c.bases[0].namespace);
    assert first == ns + "::" + Safename(c.bases[0].classname);
    assert first[0] == if |ns| > 0 then ns[0] else ':';
    if |xs| > 1 {
      assert first <= Join(xs, "\n" + Ind + ", ");
    }
  }

  /** No chunk of the struct head starts with an indentation unit. */
  lemma HeadNotIndented(c: ClassDefinition)
    ensures forall i :: 0 <= i < |c.HeadChunks("", Ind)| ==> !(Ind <= c.HeadChunks("", Ind)[i])
  {
    var h := c.HeadChunks("", Ind);
    assert h[0][0] == 'n' && h[1][0] == 's';
    if |c.bases| > 0 {
      BaseNamesStart(c);
      assert h[2][0] == '\n' && h[3][0] != ' ';
    }
  }

  /** The chunks after the members: the destructor line, if any, the `toYaml` declaration
      and two closing braces. */
  lemma TailShape(c: ClassDefinition)
    ensures c.TailChunks("", Ind) ==
            c.Destructor("", Ind) + [c.ToYamlDeclaration("", Ind), "};\n", "}\n\n"]
  {
    assert "" + "};\n" == "};\n";
    assert "" + "}\n\n" == "}\n\n";
  }

  lemma MembersNoDestructor(c: ClassDefinition)
    ensures Filter(IsDestructorLine, MemberLines(c.fields, "" + Ind, Ind, c.namespace)) == []
  {
    var members := MemberLines(c.fields, "" + Ind, Ind, c.namespace);
    assert "" + Ind == Ind;
    assert forall i :: 0 <= i < |members| ==> members[i][4] == 'h';
    FilterNone(IsDestructorLine, members);
  }

  lemma TailDestructor(c: ClassDefinition)
    ensures Filter(IsDestructorLine, c.TailChunks("", Ind)) == c.Destructor("", Ind)
  {
    TailShape(c);
    var rest := [c.ToYamlDeclaration("", Ind), "};\n", "}\n\n"];
    assert "" + Ind == Ind;
    assert rest[0][4] == 'a' || rest[0][12] == 'a';
    FilterNone(IsDestructorLine, rest);
    if c.isAbstract {
      assert IsDestructorLine(c.DestructorDeclaration("", Ind));
    }
    FilterAppend(IsDestructorLine, c.Destructor("", Ind), rest);
  }

  /** The pure-virtual destructor is declared exactly when the class is abstract. */
  lemma DefinitionDestructor(c: ClassDefinition)
    ensures Filter(IsDestructorLine, c.DefinitionChunks("", Ind)) ==
            if c.isAbstract then [c.DestructorDeclaration("", Ind)] else []
  {
    var head := c.HeadChunks("", Ind);
    var members := MemberLines(c.fields, "" + Ind, Ind, c.namespace);
    var tail := c.TailChunks("", Ind);
    HeadNotIndented(c);
    FilterNone(IsDestructorLine, head);
    MembersNoDestructor(c);
    TailDestructor(c);
    FilterAppend(IsDestructorLine, head, members);
    FilterAppend(IsDestructorLine, head + members, tail);
  }

  /** The member declarations are exactly the lines typed `heap_object`, one per emitted
      field, in field order. */
  lemma DefinitionMembers(c: ClassDefinition)
    ensures Filter(IsMemberLine, c.DefinitionChunks("", Ind)) == MemberLines(c.fields, Ind, Ind, c.namespace)
  {
    var head := c.HeadChunks("", Ind);
    var members := MemberLines(c.fields, "" + Ind, Ind, c.namespace);
    var tail := c.TailChunks("", Ind);
    HeadNotIndented(c);
    FilterNone(IsMemberLine, head);
    MembersAllMember(c);
    TailNoMember(c);
    FilterAppend(IsMemberLine, head, members);
    FilterAppend(IsMemberLine, head + members, tail);
    EmptyIndent();
  }

  lemma EmptyIndent()
    ensures "" + Ind == Ind
  {
  }

  lemma MembersAllMember(c: ClassDefinition)
    ensures Filter(IsMemberLine, MemberLines(c.fields, "" + Ind, Ind, c.namespace)) ==
            MemberLines(c.fields, "" + Ind, Ind, c.namespace)
  {
    var members := MemberLines(c.fields, "" + Ind, Ind, c.namespace);
    assert "" + Ind == Ind;
    assert forall i :: 0 <= i < |members| ==> IsMemberLine(members[i]);
    FilterAll(IsMemberLine, members);
  }

  lemma TailNoMember(c: ClassDefinition)
    ensures Filter(IsMemberLine, c.TailChunks("", Ind)) == []
  {
    TailShape(c);
    var tail := c.TailChunks("", Ind);
    assert "" + Ind == Ind;
    assert forall i :: 0 <= i < |tail| ==> tail[i][0] == '}' || tail[i][4] == 'v' || tail[i][4] == 'a';
    FilterNone(IsMemberLine, tail);
  }

  /** Only the base-list opener starts a line of its own: no other chunk starts with a
      line break. */
  lemma BaseIntroOnly(c: ClassDefinition)
    ensures forall i :: 0 <= i < |c.DefinitionChunks("", Ind)| && c.DefinitionChunks("", Ind)[i] != c.BaseIntro("", Ind) ==>
      |c.DefinitionChunks("", Ind)[i]| == 0 || c.DefinitionChunks("", Ind)[i][0] != '\n'
  {
    var head := c.HeadChunks("", Ind);
    var members := MemberLines(c.fields, "" + Ind, Ind, c.namespace);
    var tail := c.TailChunks("", Ind);
    assert "" + Ind == Ind;
    if |c.bases| > 0 {
      BaseNamesStart(c);
    }
    assert forall i :: 0 <= i < |head| && head[i] != c.BaseIntro("", Ind) ==> head[i][0] != '\n';
    assert forall i :: 0 <= i < |members| ==> members[i][0] == ' ';
    TailShape(c);
    assert forall i :: 0 <= i < |tail| ==> tail[i][0] == '}' || tail[i][0] == ' ';
    var all := c.DefinitionChunks("", Ind);
    assert all == head + members + tail;
    forall i | 0 <= i < |all| && all[i] != c.BaseIntro("", Ind)
      ensures |all[i]| == 0 || all[i][0] != '\n'
    {
      if i < |head| {
        assert all[i] == head[i];
      } else if i < |head| + |members| {
        assert all[i] == members[i - |head|];
      } else {
        assert all[i] == tail[i - |head| - |members|];
      }
    }
  }

  /** The `: Base, ...` list is written exactly when there are base classes, and then it
      names each base. */
  lemma DefinitionBaseList(c: ClassDefinition)
    ensures c.BaseIntro("", Ind) in c.DefinitionChunks("", Ind) <==> |c.bases| > 0
    ensures |c.bases| > 0 ==> c.BaseNames("", Ind) in c.DefinitionChunks("", Ind)
  {
    BaseIntroOnly(c);
    var all := c.DefinitionChunks("", Ind);
    if |c.bases| > 0 {
      assert all[2] == c.BaseIntro("", Ind) && all[3] == c.BaseNames("", Ind);
    } else {
      assert c.BaseIntro("", Ind)[0] == '\n';
      assert forall i :: 0 <= i < |all| ==> all[i] != c.BaseIntro("", Ind);
    }
  }

  /** The chunks before the first merge line are not indented; the last one is `return n;`. */
  lemma ImplShape(c: ClassDefinition)
    ensures forall i :: 0 <= i < |c.ImplHeadChunks("", Ind)| ==>
      !IsMergeLine(c.ImplHeadChunks("", Ind)[i]) && !IsAddFieldLine(c.ImplHeadChunks("", Ind)[i])
    ensures !IsMergeLine(c.ImplTail("", Ind)) && !IsAddFieldLine(c.ImplTail("", Ind))
  {
    var h := c.ImplHeadChunks("", Ind);
    assert forall i :: 0 <= i < |h| ==> h[i][0] == 'i';
    EmptyIndent();
    assert c.ImplTail("", Ind)[4] == 'r';
  }

  lemma MergeLinesShape(c: ClassDefinition)
    ensures forall i :: 0 <= i < |c.bases| ==>
      IsMergeLine(MergeLines(c.bases, "", Ind)[i]) && !IsAddFieldLine(MergeLines(c.bases, "", Ind)[i])
  {
    EmptyIndent();
    var m := MergeLines(c.bases, "", Ind);
    assert forall i :: 0 <= i < |c.bases| ==> m[i][4] == 'n';
  }

  lemma AddFieldLinesShape(c: ClassDefinition)
    ensures forall i :: 0 <= i < |c.fields| ==>
      IsAddFieldLine(AddFieldLines(c.fields, "", Ind)[i]) && !IsMergeLine(AddFieldLines(c.fields, "", Ind)[i])
  {
    EmptyIndent();
    forall i | 0 <= i < |c.fields|
      ensures IsAddFieldLine(AddFieldLines(c.fields, "", Ind)[i])
      ensures !IsMergeLine(AddFieldLines(c.fields, "", Ind)[i])
    {
      AddFieldLinesAt(c.fields, "", Ind, i);
      assert AddFieldLines(c.fields, "", Ind)[i][4] == 'a';
    }
  }

  lemma FilterFour<A>(p: A -> bool, a: seq<A>, b: seq<A>, c: seq<A>, d: seq<A>)
    ensures Filter(p, a + b + c + d) == Filter(p, a) + Filter(p, b) + Filter(p, c) + Filter(p, d)
  {
    FilterAppend(p, a, b);
    FilterAppend(p, a + b, c);
    FilterAppend(p, a + b + c, d);
  }

  /** Neither the chunks before the merges nor the closing `return n;` merge or add a field. */
  lemma HeadFilters(c: ClassDefinition)
    ensures Filter(IsMergeLine, c.ImplHeadChunks("", Ind)) == []
    ensures Filter(IsAddFieldLine, c.ImplHeadChunks("", Ind)) == []
    ensures Filter(IsMergeLine, [c.ImplTail("", Ind)]) == []
    ensures Filter(IsAddFieldLine, [c.ImplTail("", Ind)]) == []
  {
    ImplShape(c);
    FilterNone(IsMergeLine, c.ImplHeadChunks("", Ind));
    FilterNone(IsAddFieldLine, c.ImplHeadChunks("", Ind));
    FilterNone(IsMergeLine, [c.ImplTail("", Ind)]);
    FilterNone(IsAddFieldLine, [c.ImplTail("", Ind)]);
  }

  lemma MergeFilters(c: ClassDefinition)
    ensures Filter(IsMergeLine, MergeLines(c.bases, "", Ind)) == MergeLines(c.bases, "", Ind)
    ensures Filter(IsAddFieldLine, MergeLines(c.bases, "", Ind)) == []
  {
    MergeLinesShape(c);
    FilterAll(IsMergeLine, MergeLines(c.bases, "", Ind));
    FilterNone(IsAddFieldLine, MergeLines(c.bases, "", Ind));
  }

  lemma AddFieldFilters(c: ClassDefinition)
    ensures Filter(IsAddFieldLine, AddFieldLines(c.fields, "", Ind)) == AddFieldLines(c.fields, "", Ind)
    ensures Filter(IsMergeLine, AddFieldLines(c.fields, "", Ind)) == []
  {
    AddFieldLinesShape(c);
    FilterAll(IsAddFieldLine, AddFieldLines(c.fields, "", Ind));
    FilterNone(IsMergeLine, AddFieldLines(c.fields, "", Ind));
  }

  /** `writeImplDefinition` merges in the bases one line each, in declared order. */
  lemma ImplMerges(c: ClassDefinition)
    ensures Filter(IsMergeLine, c.ImplChunks("", Ind)) == MergeLines(c.bases, "", Ind)
  {
    var head := c.ImplHeadChunks("", Ind);
    var merges := MergeLines(c.bases, "", Ind);
    var adds := AddFieldLines(c.fields, "", Ind);
    var last := [c.ImplTail("", Ind)];
    HeadFilters(c);
    MergeFilters(c);
    AddFieldFilters(c);
    FilterFour(IsMergeLine, head, merges, adds, last);
    assert [] + merges + [] + [] == merges;
  }

  /** `writeImplDefinition` adds one YAML entry per emitted field, in field order. */
  lemma ImplAddFields(c: ClassDefinition)
    ensures Filter(IsAddFieldLine, c.ImplChunks("", Ind)) == AddFieldLines(c.fields, "", Ind)
  {
    var head := c.ImplHeadChunks("", Ind);
    var merges := MergeLines(c.bases, "", Ind);
    var adds := AddFieldLines(c.fields, "", Ind);
    var last := [c.ImplTail("", Ind)];
    HeadFilters(c);
    MergeFilters(c);
    AddFieldFilters(c);
    FilterFour(IsAddFieldLine, head, merges, adds, last);
    assert [] + [] + adds + [] == adds;
  }

  /** Every class, abstract or not, declares `toYaml` and defines it; an abstract class
      also declares and defaults its destructor. */
  lemma ToYamlAlwaysEmitted(c: ClassDefinition)
    ensures c.ToYamlDeclaration("", Ind) in c.DefinitionChunks("", Ind)
    ensures c.ToYamlHeader("", Ind) in c.ImplChunks("", Ind)
    ensures |c.ImplChunks("", Ind)| == (if c.isAbstract then 3 else 2) + |c.bases| + |c.fields|
  {
    TailShape(c);
    var d := c.DefinitionChunks("", Ind);
    var k := |c.HeadChunks("", Ind)| + |c.fields| + |c.Destructor("", Ind)|;
    assert d[k] == c.ToYamlDeclaration("", Ind);
    var m := c.ImplChunks("", Ind);
    assert m[|c.DestructorImpl("")|] == c.ToYamlHeader("", Ind);
  }

  /** The `toYaml` declaration is `virtual` exactly for a class without bases and
      ` override` exactly for one with bases. */
  lemma ToYamlQualifier(c: ClassDefinition)
    ensures Ind + "virtual " <= c.ToYamlDeclaration("", Ind) <==> |c.bases| == 0
    ensures EndsWith(c.ToYamlDeclaration("", Ind), " override;\n") <==> |c.bases| > 0
  {
    var d := c.ToYamlDeclaration("", Ind);
    EmptyIndent();
    if |c.bases| > 0 {
      assert d == Ind + "" + "auto toYaml() const -> YAML::Node" + " override" + ";\n";
      assert d[4] == 'a';
      assert d[|d| - 11..] == " override;\n";
    } else {
      assert d == Ind + "virtual " + "auto toYaml() const -> YAML::Node" + "" + ";\n";
      assert d[|d| - 5] == 'o';
    }
  }

  predicate EndsWith(s: string, suffix: string)
  {
    |suffix| <= |s| && s[|s| - |suffix|..] == suffix
  }
}
