/** `CppCodeGen`: the generator object, its two registries and the methods that fill them
    and write the C++ header. */
module Generator {
  import opened Values
  import opened Strings
  import opened Names
  import opened Registry
  import opened Output
  import opened Definitions
  import opened Shapes
  import opened Resolver
  import opened Builder
  import opened Epilogue

  /** A method's result and the enum registry it left are what the specification function
      gives; after an exception only the exception is fixed. */
  ghost predicate Agrees<T>(r: Result<T>, spec: Result<(T, Enums)>, enums: Enums)
  {
    match spec
    case Ok((v, e)) => r == Ok(v) && enums == e
    case Err(err) => r == Err(err)
  }

  class CppCodeGen {
    /** The parsed records and enums, by schema name, in insertion order. */
    var classDefinitions: Classes
    var enumDefinitions: Enums
    const target: Target
    /** The salad `shortname` of a URI, used for enum symbols. */
    const shortname: string -> string
    /** The fixed C++ text `epilogue` writes before and after the generated part. */
    const preamble: string
    const closing: string

    ghost predicate Invariant()
      reads this
    {
      Valid(classDefinitions) && Valid(enumDefinitions)
    }

    constructor (target: Target, shortname: string -> string, preamble: string, closing: string)
      ensures Invariant()
      ensures classDefinitions == Empty() && enumDefinitions == Empty()
      ensures this.target == target && this.shortname == shortname
      ensures this.preamble == preamble && this.closing == closing
    {
      this.target := target;
      this.shortname := shortname;
      this.preamble := preamble;
      this.closing := closing;
      classDefinitions := Empty();
      enumDefinitions := Empty();
    }

    /** `convertTypeToCpp`. */
    method ConvertTypeToCpp(t: Value) returns (r: Result<string>)
      requires Invariant()
      modifies this
      ensures Invariant() && classDefinitions == old(classDefinitions)
      ensures Agrees(r, Convert(t, old(enumDefinitions), shortname), enumDefinitions)
      decreases Size(t), 1
    {
      if !t.List? {
        r := ConvertOne(t);
      } else if |t.items| == 1 {
        SizeSeqElement(t.items, 0);
        r := ConvertOne(t.items[0]);
      } else {
        var ts := ConvertList(t.items);
        if ts.Err? {
          return Err(ts.error);
        }
        r := Ok("std::variant<" + Join(ts.value, ", ") + ">");
      }
    }

    /** The members of a list converted one after the other. */
    method ConvertList(l: seq<Value>) returns (r: Result<seq<string>>)
      requires Invariant()
      modifies this
      ensures Invariant() && classDefinitions == old(classDefinitions)
      ensures Agrees(r, ConvertEach(l, old(enumDefinitions), shortname), enumDefinitions)
      decreases SizeSeq(l), 2
    {
      var ts: seq<string> := [];
      for i := 0 to |l|
        invariant Invariant() && classDefinitions == old(classDefinitions)
        invariant ConvertEach(l[..i], old(enumDefinitions), shortname) == Ok((ts, enumDefinitions))
      {
        SizeSeqElement(l, i);
        assert l[..i + 1][..i] == l[..i];
        var t := ConvertTypeToCpp(l[i]);
        if t.Err? {
          ConvertEachStopsAtError(l, old(enumDefinitions), shortname, i + 1);
          return Err(t.error);
        }
        ts := ts + [t.value];
      }
      assert l[..|l|] == l;
      r := Ok(ts);
    }

    /** The single-element case of `convertTypeToCpp`. */
    method ConvertOne(x: Value) returns (r: Result<string>)
      requires Invariant()
      modifies this
      ensures Invariant() && classDefinitions == old(classDefinitions)
      ensures Agrees(r, ConvertSingle(x, old(enumDefinitions), shortname), enumDefinitions)
      decreases Size(x), 0
    {
      var builtin := BuiltinType(x);
      if builtin.Some? {
        return Ok(builtin.value);
      }
      if x.Dict? {
        if TagIs(x, "enum") {
          var name := ParseEnum(x);
          if name.Err? {
            return Err(name.error);
          }
          return Ok(EnumCppName(name.value));
        } else if TagIs(x, "array") {
          var items := Index(x, "items");
          if items.Err? {
            return Err(items.error);
          }
          if items.value.List? {
            var ts := ConvertList(items.value.items);
            if ts.Err? {
              return Err(ts.error);
            }
            return Ok("std::vector<std::variant<" + Join(ts.value, ", ") + ">>");
          }
          var t := ConvertTypeToCpp(items.value);
          if t.Err? {
            return Err(t.error);
          }
          return Ok("std::vector<" + t.value + ">");
        } else if TagIs(x, "record") {
          var n := Index(x, "name");
          if n.Err? {
            return Err(n.error);
          }
          return QualifiedCpp(n.value);
        }
        var n := Index(x, "type");
        if n.Err? {
          return Err(n.error);
        }
        return QualifiedCpp(n.value);
      }
      if !x.Str? {
        return Err(TypeError);
      }
      if |Split(x.s, '#')| != 2 {
        return Ok(x.s);
      }
      r := QualifiedCpp(x);
    }

    /** `parseEnum`, and the registration in the inline-enum branch of `convertTypeToCpp`. */
    method ParseEnum(stype: Value) returns (r: Result<string>)
      requires Invariant()
      modifies this
      ensures Invariant() && classDefinitions == old(classDefinitions)
      ensures Agrees(r, RegisterEnum(stype, old(enumDefinitions), shortname), enumDefinitions)
    {
      var name := Index(stype, "name");
      if name.Err? {
        return Err(name.error);
      }
      if !name.value.Str? {
        return Err(TypeError);
      }
      if name.value.s !in enumDefinitions.entries {
        var symbols := Index(stype, "symbols");
        if symbols.Err? {
          return Err(symbols.error);
        }
        var values := Symbols(symbols.value, shortname);
        if values.Err? {
          return Err(values.error);
        }
        enumDefinitions := Put(enumDefinitions, name.value.s, EnumDefinition(name.value.s, values.value));
      }
      r := Ok(name.value.s);
    }

    /** `parseRecordField`. */
    method ParseRecordField(field: Value) returns (r: Result<FieldDefinition>)
      requires Invariant()
      modifies this
      ensures Invariant() && classDefinitions == old(classDefinitions)
      ensures Agrees(r, RecordField(field, old(enumDefinitions), shortname), enumDefinitions)
    {
      var n := Index(field, "name");
      if n.Err? {
        return Err(n.error);
      }
      if !n.value.Str? {
        return Err(TypeError);
      }
      var parts := SplitField(n.value.s);
      if parts.Err? {
        return Err(parts.error);
      }
      var remap := Remap(field);
      if remap.Err? {
        return Err(remap.error);
      }
      var ft := Index(field, "type");
      if ft.Err? {
        return Err(ft.error);
      }
      var typeStr;
      if ft.value.Dict? {
        var tag := Index(ft.value, "type");
        if tag.Err? {
          return Err(tag.error);
        }
        if tag.value == Str("enum") {
          typeStr := "Enum";
        } else {
          var t := ConvertTypeToCpp(ft.value);
          if t.Err? {
            return Err(t.error);
          }
          typeStr := t.value;
        }
      } else {
        var t := ConvertTypeToCpp(ft.value);
        if t.Err? {
          return Err(t.error);
        }
        typeStr := t.value;
      }
      r := Ok(FieldDefinition(parts.value.2, typeStr, false, remap.value));
    }

    /** The loop over `stype["fields"]` in `parseRecordSchema`. */
    method ParseFields(l: seq<Value>) returns (r: Result<seq<FieldDefinition>>)
      requires Invariant()
      modifies this
      ensures Invariant() && classDefinitions == old(classDefinitions)
      ensures Agrees(r, FieldsOf(l, old(enumDefinitions), shortname), enumDefinitions)
    {
      var fs: seq<FieldDefinition> := [];
      for i := 0 to |l|
        invariant Invariant() && classDefinitions == old(classDefinitions)
        invariant FieldsOf(l[..i], old(enumDefinitions), shortname) == Ok((fs, enumDefinitions))
      {
        assert l[..i + 1][..i] == l[..i];
        var f := ParseRecordField(l[i]);
        if f.Err? {
          FieldsOfStopsAtError(l, old(enumDefinitions), shortname, i + 1);
          return Err(f.error);
        }
        fs := fs + [f.value];
      }
      assert l[..|l|] == l;
      r := Ok(fs);
    }

    /** `parseRecordSchema`: the record's class prototype, registered under its name. */
    method ParseRecordSchema(stype: Value) returns (r: Result<()>)
      requires Invariant()
      modifies this
      ensures Invariant()
      ensures match RecordSchema(stype, old(enumDefinitions), shortname)
        case Ok((name, cd, enums)) =>
          r == Ok(()) && classDefinitions == Put(old(classDefinitions), name, cd) && enumDefinitions == enums
        case Err(e) => r == Err(e)
    {
      var n := Index(stype, "name");
      if n.Err? {
        return Err(n.error);
      }
      if !n.value.Str? {
        return Err(TypeError);
      }
      var cd0 := NewClassDefinition(n.value.s);
      if cd0.Err? {
        return Err(cd0.error);
      }
      var cd := cd0.value.(isAbstract := Truthy(GetOr(stype, "abstract", Bool(false))));
      var ex := Get(stype, "extends");
      if ex.Some? {
        var bases := ParseBases(AsList(ex.value));
        if bases.Err? {
          return Err(bases.error);
        }
        cd := cd.(bases := bases.value);
      }
      var sp := Get(stype, "specialize");
      if sp.Some? {
        var specs := ParseSpecializations(AsList(sp.value));
        if specs.Err? {
          return Err(specs.error);
        }
        cd := cd.(specializationTypes := specs.value);
      }
      var fv := Get(stype, "fields");
      if fv.Some? {
        var l := Iterate(fv.value);
        if l.Err? {
          return Err(l.error);
        }
        var fields := ParseFields(l.value);
        if fields.Err? {
          return Err(fields.error);
        }
        cd := cd.(allfields := fields.value);
      }
      classDefinitions := Put(classDefinitions, n.value.s, cd);
      r := Ok(());
    }

    /** The loop over `aslist(stype["extends"])`. */
    static method ParseBases(l: seq<Value>) returns (r: Result<seq<QualifiedName>>)
      ensures r == BasesOf(l)
    {
      var bases: seq<QualifiedName> := [];
      for i := 0 to |l|
        invariant BasesOf(l[..i]) == Ok(bases)
      {
        assert l[..i + 1][..i] == l[..i];
        if !l[i].Str? {
          BasesOfStopsAtError(l, i + 1);
          return Err(TypeError);
        }
        var parts := SplitName(l[i].s);
        if parts.Err? {
          BasesOfStopsAtError(l, i + 1);
          return Err(parts.error);
        }
        bases := bases + [QualifiedName(parts.value.0, parts.value.1)];
      }
      assert l[..|l|] == l;
      r := Ok(bases);
    }

    /** The loop over `aslist(stype["specialize"])`. */
    static method ParseSpecializations(l: seq<Value>) returns (r: Result<seq<Value>>)
      ensures r == SpecializationsOf(l)
    {
      var specs: seq<Value> := [];
      for i := 0 to |l|
        invariant SpecializationsOf(l[..i]) == Ok(specs)
      {
        assert l[..i + 1][..i] == l[..i];
        var s := Index(l[i], "specializeFrom");
        if s.Err? {
          SpecializationsOfStopsAtError(l, i + 1);
          return Err(s.error);
        }
        specs := specs + [s.value];
      }
      assert l[..|l|] == l;
      r := Ok(specs);
    }

    /** The loop of `parse` over the items, before `epilogue`. */
    method ParseAll(items: seq<Value>) returns (r: Result<()>)
      requires Invariant()
      modifies this
      ensures Invariant()
      ensures match ParseItems(items, old(classDefinitions), old(enumDefinitions), shortname)
        case Ok((classes, enums)) => r == Ok(()) && classDefinitions == classes && enumDefinitions == enums
        case Err(e) => r == Err(e)
    {
      for i := 0 to |items|
        invariant Invariant()
        invariant ParseItems(items[..i], old(classDefinitions), old(enumDefinitions), shortname) ==
                  Ok((classDefinitions, enumDefinitions))
      {
        assert items[..i + 1][..i] == items[..i];
        var stype := items[i];
        var doc := IsDocumentation(stype);
        if doc.Err? {
          ParseItemsStopsAtError(items, old(classDefinitions), old(enumDefinitions), shortname, i + 1);
          return Err(doc.error);
        }
        if doc.value {
          continue;
        }
        var isArray := CheckArray(stype);
        if !(Pred(stype) || isArray) {
          ParseItemsStopsAtError(items, old(classDefinitions), old(enumDefinitions), shortname, i + 1);
          return Err(SchemaException);
        }
        if IsRecordSchema(stype) {
          var res := ParseRecordSchema(stype);
          if res.Err? {
            ParseItemsStopsAtError(items, old(classDefinitions), old(enumDefinitions), shortname, i + 1);
            return Err(res.error);
          }
        } else if IsEnumSchema(stype) {
          var res := ParseEnum(stype);
          if res.Err? {
            ParseItemsStopsAtError(items, old(classDefinitions), old(enumDefinitions), shortname, i + 1);
            return Err(res.error);
          }
        }
      }
      assert items[..|items|] == items;
      r := Ok(());
    }

    /** `parse`: every item, then `epilogue`. */
    method Parse(items: seq<Value>) returns (r: Result<()>)
      requires Invariant()
      modifies this, target
      ensures Invariant()
      ensures match ParseItems(items, old(classDefinitions), old(enumDefinitions), shortname)
        case Err(e) => r == Err(e)
        case Ok((classes, enums)) =>
          enumDefinitions == enums &&
          match DedupAll(StripAll(classes))
          case Err(e) => r == Err(e)
          case Ok(finished) =>
            r == Ok(()) && classDefinitions == finished &&
            target.chunks == old(target.chunks) + EpilogueChunks(classes, finished, enums, preamble, closing) &&
            (NoOwnFields(old(classDefinitions)) ==> EmitsOwnFields(StripAll(classes), finished))
    {
      ghost var classes0, enums0 := classDefinitions, enumDefinitions;
      r := ParseAll(items);
      if r.Err? {
        return;
      }
      ghost var parsed := classDefinitions;
      if NoOwnFields(classes0) {
        ParseItemsNoOwn(items, classes0, enums0, shortname);
      }
      r := Epilogue();
      if r.Ok? && NoOwnFields(classes0) {
        FinishedFieldsAreOwn(parsed);
      }
    }

    /** `epilogue`: the header text, the forward declarations, the two passes over the
        classes, the enums, the class definitions and implementations, the closing text. */
    method Epilogue() returns (r: Result<()>)
      requires Invariant()
      modifies this, target
      ensures Invariant() && enumDefinitions == old(enumDefinitions)
      ensures match DedupAll(StripAll(old(classDefinitions)))
        case Err(e) => r == Err(e)
        case Ok(finished) =>
          r == Ok(()) && classDefinitions == finished &&
          target.chunks == old(target.chunks) +
            EpilogueChunks(old(classDefinitions), finished, enumDefinitions, preamble, closing)
    {
      ghost var parsed := classDefinitions;
      ghost var start := target.chunks;
      target.Write(preamble);
      WriteFwdDeclarations();
      ghost var fwd := FlatMap(FwdText(), Ordered(parsed));
      StripPass();
      r := DedupPass();
      if r.Err? {
        return;
      }
      WriteEnumDefinitions();
      ghost var en := FlatMap(EnumText(), Ordered(enumDefinitions));
      WriteClassDefinitions();
      ghost var cl := FlatMap(ClassText(), Ordered(classDefinitions));
      WriteImplDefinitions();
      ghost var im := FlatMap(ImplText(), Ordered(classDefinitions));
      target.Write(closing);
      AppendSix(start, [preamble], fwd, en, cl, im, [closing]);
    }

    method WriteFwdDeclarations()
      requires Invariant()
      modifies target
      ensures target.chunks == old(target.chunks) + FlatMap(FwdText(), Ordered(classDefinitions))
    {
      var cds := Ordered(classDefinitions);
      for i := 0 to |cds|
        invariant target.chunks == old(target.chunks) + FlatMap(FwdText(), cds[..i])
      {
        ghost var done := FlatMap(FwdText(), cds[..i]);
        FlatMapPrefix(FwdText(), cds, i);
        cds[i].WriteFwdDeclaration(target, "", Ind);
        AppendTwo(old(target.chunks), done, FwdText()(cds[i]));
      }
      assert cds[..|cds|] == cds;
    }

    method WriteEnumDefinitions()
      requires Invariant()
      modifies target
      ensures target.chunks == old(target.chunks) + FlatMap(EnumText(), Ordered(enumDefinitions))
    {
      var eds := Ordered(enumDefinitions);
      for i := 0 to |eds|
        invariant target.chunks == old(target.chunks) + FlatMap(EnumText(), eds[..i])
      {
        ghost var done := FlatMap(EnumText(), eds[..i]);
        FlatMapPrefix(EnumText(), eds, i);
        eds[i].WriteDefinition(target, Ind);
        AppendTwo(old(target.chunks), done, EnumText()(eds[i]));
      }
      assert eds[..|eds|] == eds;
    }

    method WriteClassDefinitions()
      requires Invariant()
      modifies target
      ensures target.chunks == old(target.chunks) + FlatMap(ClassText(), Ordered(classDefinitions))
    {
      var cds := Ordered(classDefinitions);
      for i := 0 to |cds|
        invariant target.chunks == old(target.chunks) + FlatMap(ClassText(), cds[..i])
      {
        ghost var done := FlatMap(ClassText(), cds[..i]);
        FlatMapPrefix(ClassText(), cds, i);
        cds[i].WriteDefinition(target, "", Ind);
        AppendTwo(old(target.chunks), done, ClassText()(cds[i]));
      }
      assert cds[..|cds|] == cds;
    }

    method WriteImplDefinitions()
      requires Invariant()
      modifies target
      ensures target.chunks == old(target.chunks) + FlatMap(ImplText(), Ordered(classDefinitions))
    {
      var cds := Ordered(classDefinitions);
      for i := 0 to |cds|
        invariant target.chunks == old(target.chunks) + FlatMap(ImplText(), cds[..i])
      {
        ghost var done := FlatMap(ImplText(), cds[..i]);
        FlatMapPrefix(ImplText(), cds, i);
        cds[i].WriteImplDefinition(target, "", Ind);
        AppendTwo(old(target.chunks), done, ImplText()(cds[i]));
      }
      assert cds[..|cds|] == cds;
    }

    /** The first pass: specialised classes lose their bases. */
    method StripPass()
      requires Invariant()
      modifies this
      ensures Invariant() && enumDefinitions == old(enumDefinitions)
      ensures classDefinitions == StripAll(old(classDefinitions))
    {
      var keys := classDefinitions.keys;
      ghost var parsed := classDefinitions;
      StripUpToStart(parsed);
      for i := 0 to |keys|
        invariant Invariant() && enumDefinitions == old(enumDefinitions)
        invariant classDefinitions == StripUpTo(parsed, i)
      {
        var k := keys[i];
        StripUpToStep(parsed, i);
        if |classDefinitions.entries[k].specializationTypes| > 0 {
          classDefinitions := Put(classDefinitions, k, classDefinitions.entries[k].(bases := []));
        }
      }
      StripUpToEnd(parsed);
    }

    /** The second pass: each class appends the fields none of its bases has. */
    method DedupPass() returns (r: Result<()>)
      requires Invariant()
      modifies this
      ensures Invariant() && enumDefinitions == old(enumDefinitions)
      ensures match DedupAll(old(classDefinitions))
        case Err(e) => r == Err(e)
        case Ok(finished) => r == Ok(()) && classDefinitions == finished
    {
      ghost var classes := classDefinitions;
      var keys := classDefinitions.keys;
      for i := 0 to |keys|
        invariant enumDefinitions == old(enumDefinitions)
        invariant DedupKeys(keys[..i], classes) == Ok(classDefinitions)
      {
        var k := keys[i];
        DedupKeysStep(keys, classes, classDefinitions, i);
        var cd := classDefinitions.entries[k];
        var own := SearchOwnFields(cd.allfields, cd.bases);
        if own.Err? {
          assert classes.entries[classes.keys[i]] == cd;
          assert OwnFields(cd.allfields, cd.bases, classes).Err?;
          DedupKeysStepFails(classes, i);
          assert Valid(classDefinitions) && DedupAll(classes) == Err(own.error);
          return Err(own.error);
        }
        DedupKeysNext(keys, classes, classDefinitions, i, own.value);
        classDefinitions := Put(classDefinitions, k, cd.(fields := cd.fields + own.value));
      }
      assert keys[..|keys|] == keys;
      assert DedupAll(classes) == Ok(classDefinitions);
      r := Ok(());
    }

    /** The loop over one class's `allfields`, keeping those no base has. */
    method SearchOwnFields(fs: seq<FieldDefinition>, bases: seq<QualifiedName>) returns (r: Result<seq<FieldDefinition>>)
      ensures r == OwnFields(fs, bases, classDefinitions)
    {
      var own: seq<FieldDefinition> := [];
      for i := 0 to |fs|
        invariant OwnFields(fs[..i], bases, classDefinitions) == Ok(own)
      {
        assert fs[..i + 1][..i] == fs[..i];
        var found := SearchParents(fs[i].name, bases);
        if found.Err? {
          assert !OwnFields(fs, bases, classDefinitions).Ok?;
          return Err(found.error);
        }
        if !found.value {
          own := own + [fs[i]];
        }
      }
      assert fs[..|fs|] == fs;
      r := Ok(own);
    }

    /** The loops over the bases of a class and over each base's `allfields`, with the
        `found` flag and the two `break`s. */
    method SearchParents(name: string, bases: seq<QualifiedName>) returns (r: Result<bool>)
      ensures r == FoundInParents(name, bases, classDefinitions)
    {
      var found := false;
      var j := 0;
      while j < |bases|
        invariant 0 <= j <= |bases|
        invariant !found ==> FoundInParents(name, bases, classDefinitions) == FoundInParents(name, bases[j..], classDefinitions)
        invariant found ==> FoundInParents(name, bases, classDefinitions) == Ok(true)
        decreases |bases| - j, if found then 0 else 1
      {
        assert bases[j..][1..] == bases[j + 1..];
        var key := ParentKey(bases[j]);
        if key !in classDefinitions.entries {
          return Err(KeyError);
        }
        found := HasFieldNamed(classDefinitions.entries[key].allfields, name);
        if found {
          break;
        }
        j := j + 1;
      }
      r := Ok(found);
    }

    /** The innermost loop: is there a field of this name? */
    static method HasFieldNamed(fs: seq<FieldDefinition>, name: string) returns (found: bool)
      ensures found == HasField(fs, name)
    {
      found := false;
      for i := 0 to |fs|
        invariant !found ==> forall j :: 0 <= j < i ==> fs[j].name != name
        invariant found ==> HasField(fs, name)
      {
        if fs[i].name == name {
          found := true;
          break;
        }
      }
    }
  }
}
