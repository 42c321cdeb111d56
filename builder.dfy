/** `parseRecordField`, `parseRecordSchema`, `parseEnum` and the loop of `parse`, as
    functions of the registries they read and the registries they leave. */
module Builder {
  import opened Values
  import opened Strings
  import opened Names
  import opened Registry
  import opened Definitions
  import opened Shapes
  import opened Resolver

  type Classes = Registry<ClassDefinition>

  /** The remap key of a field: `jsonldPredicate.mapSubject` when both are present, else "". */
  function Remap(field: Value): (r: Result<string>)
    ensures field.Dict? && Get(field, "jsonldPredicate").None? ==> r == Ok("")
    ensures field.Dict? && Get(field, "jsonldPredicate").Some? && Get(field, "jsonldPredicate").value.Dict? ==>
      var jp := Get(field, "jsonldPredicate").value;
      (Get(jp, "mapSubject").None? ==> r == Ok("")) &&
      (Get(jp, "mapSubject").Some? && Get(jp, "mapSubject").value.Str? ==> r == Ok(Get(jp, "mapSubject").value.s))
    ensures r.Err? ==> r.error != SchemaException
  {
    match In("jsonldPredicate", field)
    case Err(e) => Err(e)
    case Ok(false) => Ok("")
    case Ok(true) =>
      match Index(field, "jsonldPredicate")
      case Err(e) => Err(e)
      case Ok(jp) =>
        match In("mapSubject", jp)
        case Err(e) => Err(e)
        case Ok(false) => Ok("")
        case Ok(true) =>
          match Index(jp, "mapSubject")
          case Err(e) => Err(e)
          case Ok(m) => if m.Str? then Ok(m.s) else Err(TypeError)
  }

  /** The C++ type of a field. A dictionary tagged with the short name `enum` is given the
      placeholder type `Enum` and is not registered; everything else is converted. */
  function FieldType(field: Value, enums: Enums, shortname: string -> string): (r: Result<(string, Enums)>)
    requires Valid(enums)
    ensures r.Ok? ==> Valid(r.value.1) && Grows(enums, r.value.1)
    ensures r.Err? ==> r.error != SchemaException
  {
    match Index(field, "type")
    case Err(e) => Err(e)
    case Ok(ft) =>
      if ft.Dict? then
        match Index(ft, "type")
        case Err(e) => Err(e)
        case Ok(tag) =>
          if tag == Str("enum") then
            GrowsReflexive(enums);
            Ok(("Enum", enums))
          else Convert(ft, enums, shortname)
      else Convert(ft, enums, shortname)
  }

  /** `parseRecordField`: the field's own name from `ns#Class/field`, its remap key and its
      C++ type; the field is never optional. */
  function RecordField(field: Value, enums: Enums, shortname: string -> string): (r: Result<(FieldDefinition, Enums)>)
    requires Valid(enums)
    ensures r.Ok? ==> Valid(r.value.1) && Grows(enums, r.value.1)
    ensures r.Ok? ==>
      Get(field, "name").Some? && Get(field, "name").value.Str? &&
      SplitField(Get(field, "name").value.s).Ok? &&
      r.value.0.name == SplitField(Get(field, "name").value.s).value.2 &&
      Remap(field) == Ok(r.value.0.remap) && !r.value.0.optional
    ensures r.Err? ==> r.error != SchemaException
  {
    match Index(field, "name")
    case Err(e) => Err(e)
    case Ok(n) =>
      if !n.Str? then Err(TypeError)
      else
        match SplitField(n.s)
        case Err(e) => Err(e)
        case Ok((_, _, fieldname)) =>
          match Remap(field)
          case Err(e) => Err(e)
          case Ok(remap) =>
            match FieldType(field, enums, shortname)
            case Err(e) => Err(e)
            case Ok((typeStr, enums')) => Ok((FieldDefinition(fieldname, typeStr, false, remap), enums'))
  }

  /** The fields of a record parsed left to right, each in the enum registry the fields
      before it left. */
  function FieldsOf(l: seq<Value>, enums: Enums, shortname: string -> string): (r: Result<(seq<FieldDefinition>, Enums)>)
    requires Valid(enums)
    ensures r.Ok? ==> Valid(r.value.1) && Grows(enums, r.value.1) && |r.value.0| == |l|
    ensures r.Err? ==> r.error != SchemaException
  {
    if |l| == 0 then
      GrowsReflexive(enums);
      Ok(([], enums))
    else
      match FieldsOf(l[..|l| - 1], enums, shortname)
      case Err(e) => Err(e)
      case Ok((fs, mid)) =>
        match RecordField(l[|l| - 1], mid, shortname)
        case Err(e) => Err(e)
        case Ok((f, enums')) =>
          GrowsTransitive(enums, mid, enums');
          Ok((fs + [f], enums'))
  }

  /** The base classes named by `extends`, each split at its `#`, parts kept as written. */
  function BasesOf(l: seq<Value>): (r: Result<seq<QualifiedName>>)
    ensures r.Ok? <==> forall i :: 0 <= i < |l| ==> l[i].Str? && Count(l[i].s, '#') == 1
    ensures r.Ok? ==> |r.value| == |l|
    ensures r.Ok? ==> forall i :: 0 <= i < |l| ==> r.value[i].namespace + "#" + r.value[i].classname == l[i].s
    ensures r.Err? ==> r.error != SchemaException
  {
    if |l| == 0 then Ok([])
    else
      var p := l[..|l| - 1];
      assert forall i :: 0 <= i < |p| ==> p[i] == l[i];
      match BasesOf(p)
      case Err(e) => Err(e)
      case Ok(bs) =>
        var x := l[|l| - 1];
        if !x.Str? then Err(TypeError)
        else
          match SplitName(x.s)
          case Err(e) => Err(e)
          case Ok((ns, cls)) => Ok(bs + [QualifiedName(ns, cls)])
  }

  /** The `specializeFrom` entry of each element of `specialize`. */
  function SpecializationsOf(l: seq<Value>): (r: Result<seq<Value>>)
    ensures r.Ok? <==> forall i :: 0 <= i < |l| ==> Get(l[i], "specializeFrom").Some?
    ensures r.Ok? ==> |r.value| == |l|
    ensures r.Ok? ==> forall i :: 0 <= i < |l| ==> r.value[i] == Get(l[i], "specializeFrom").value
    ensures r.Err? ==> r.error != SchemaException
  {
    if |l| == 0 then Ok([])
    else
      var p := l[..|l| - 1];
      assert forall i :: 0 <= i < |p| ==> p[i] == l[i];
      match SpecializationsOf(p)
      case Err(e) => Err(e)
      case Ok(ss) =>
        match Index(l[|l| - 1], "specializeFrom")
        case Err(e) => Err(e)
        case Ok(s) => Ok(ss + [s])
  }

  /** `"extends" in stype`, then the bases; none when the key is absent. */
  function Extends(stype: Value): (r: Result<seq<QualifiedName>>)
    ensures r.Err? ==> r.error != SchemaException
  {
    match Get(stype, "extends")
    case None => Ok([])
    case Some(ex) => BasesOf(AsList(ex))
  }

  function Specializations(stype: Value): (r: Result<seq<Value>>)
    ensures r.Err? ==> r.error != SchemaException
  {
    match Get(stype, "specialize")
    case None => Ok([])
    case Some(sp) => SpecializationsOf(AsList(sp))
  }

  /** `for field in stype["fields"]`: the record's fields, none when the key is absent. */
  function Fields(stype: Value, enums: Enums, shortname: string -> string): (r: Result<(seq<FieldDefinition>, Enums)>)
    requires Valid(enums)
    ensures r.Ok? ==> Valid(r.value.1) && Grows(enums, r.value.1)
    ensures r.Err? ==> r.error != SchemaException
  {
    match Get(stype, "fields")
    case None =>
      GrowsReflexive(enums);
      Ok(([], enums))
    case Some(fv) =>
      match Iterate(fv)
      case Err(e) => Err(e)
      case Ok(l) => FieldsOf(l, enums, shortname)
  }

  /** `parseRecordSchema` up to the registration: the record's name, its class prototype
      and the enum registry after its fields. */
  function RecordSchema(stype: Value, enums: Enums, shortname: string -> string): (r: Result<(string, ClassDefinition, Enums)>)
    requires Valid(enums)
    ensures r.Ok? ==> Valid(r.value.2) && Grows(enums, r.value.2)
    ensures r.Ok? ==>
      var (name, cd, _) := r.value;
      Get(stype, "name") == Some(Str(name)) && NewClassDefinition(name).Ok? &&
      cd == NewClassDefinition(name).value.(
        bases := cd.bases, specializationTypes := cd.specializationTypes,
        allfields := cd.allfields, isAbstract := cd.isAbstract) &&
      Extends(stype) == Ok(cd.bases) && Specializations(stype) == Ok(cd.specializationTypes) &&
      Fields(stype, enums, shortname) == Ok((cd.allfields, r.value.2)) &&
      cd.isAbstract == Truthy(GetOr(stype, "abstract", Bool(false)))
    ensures r.Err? ==> r.error != SchemaException
  {
    match Index(stype, "name")
    case Err(e) => Err(e)
    case Ok(n) =>
      if !n.Str? then Err(TypeError)
      else
        match NewClassDefinition(n.s)
        case Err(e) => Err(e)
        case Ok(cd) =>
          var isAbstract := Truthy(GetOr(stype, "abstract", Bool(false)));
          match Extends(stype)
          case Err(e) => Err(e)
          case Ok(bases) =>
            match Specializations(stype)
            case Err(e) => Err(e)
            case Ok(specs) =>
              match Fields(stype, enums, shortname)
              case Err(e) => Err(e)
              case Ok((fields, enums')) =>
                Ok((n.s, cd.(bases := bases, specializationTypes := specs, allfields := fields, isAbstract := isAbstract),
                    enums'))
  }

  /** `"type" in stype and stype["type"] == "documentation"`. */
  function IsDocumentation(stype: Value): (r: Result<bool>)
    ensures stype.Dict? ==> r == Ok(Get(stype, "type") == Some(Str("documentation")))
    ensures r.Err? <==> stype.Bool? || (stype.List? && Str("type") in stype.items) || (stype.Str? && IsInfix("type", stype.s))
    ensures r.Err? ==> r.error != SchemaException
  {
    match In("type", stype)
    case Err(e) => Err(e)
    case Ok(false) => Ok(false)
    case Ok(true) =>
      match Index(stype, "type")
      case Err(e) => Err(e)
      case Ok(t) => Ok(t == Str("documentation"))
  }

  /** One pass of the loop in `parse`. */
  function ParseItem(stype: Value, classes: Classes, enums: Enums, shortname: string -> string): (r: Result<(Classes, Enums)>)
    requires Valid(classes) && Valid(enums)
    ensures r.Ok? ==> Valid(r.value.0) && Valid(r.value.1) && Grows(enums, r.value.1)
  {
    match IsDocumentation(stype)
    case Err(e) => Err(e)
    case Ok(true) =>
      GrowsReflexive(enums);
      Ok((classes, enums))
    case Ok(false) =>
      if !(Pred(stype) || IsArray(stype)) then Err(SchemaException)
      else if IsRecordSchema(stype) then
        match RecordSchema(stype, enums, shortname)
        case Err(e) => Err(e)
        case Ok((name, cd, enums')) => Ok((Put(classes, name, cd), enums'))
      else if IsEnumSchema(stype) then
        match RegisterEnum(stype, enums, shortname)
        case Err(e) => Err(e)
        case Ok((_, enums')) => Ok((classes, enums'))
      else
        GrowsReflexive(enums);
        Ok((classes, enums))
  }

  /** The loop of `parse` over the items, stopping at the first exception. */
  function ParseItems(items: seq<Value>, classes: Classes, enums: Enums, shortname: string -> string): (r: Result<(Classes, Enums)>)
    requires Valid(classes) && Valid(enums)
    ensures r.Ok? ==> Valid(r.value.0) && Valid(r.value.1) && Grows(enums, r.value.1)
  {
    if |items| == 0 then
      GrowsReflexive(enums);
      Ok((classes, enums))
    else
      match ParseItems(items[..|items| - 1], classes, enums, shortname)
      case Err(e) => Err(e)
      case Ok((classes', mid)) =>
        match ParseItem(items[|items| - 1], classes', mid, shortname)
        case Err(e) => Err(e)
        case Ok((classes'', enums')) =>
          GrowsTransitive(enums, mid, enums');
          Ok((classes'', enums'))
  }

  /** An enum whose name is already registered is left as it is: the first definition
      wins and the symbols are not looked at. */
  lemma EnumFirstWins(stype: Value, enums: Enums, shortname: string -> string)
    requires Valid(enums) && Get(stype, "name").Some? && Get(stype, "name").value.Str?
    requires Get(stype, "name").value.s in enums.entries
    ensures RegisterEnum(stype, enums, shortname) == Ok((Get(stype, "name").value.s, enums))
  {
  }

  /** A new enum is registered at the end of the registry, under its name, with its
      symbols shortened one by one in order. */
  lemma EnumRegistersNew(stype: Value, enums: Enums, shortname: string -> string)
    requires Valid(enums) && Get(stype, "name").Some? && Get(stype, "name").value.Str?
    requires Get(stype, "name").value.s !in enums.entries
    requires Get(stype, "symbols").Some? && Get(stype, "symbols").value.List?
    requires forall i :: 0 <= i < |Get(stype, "symbols").value.items| ==> Get(stype, "symbols").value.items[i].Str?
    ensures var name := Get(stype, "name").value.s;
      var syms := Get(stype, "symbols").value.items;
      RegisterEnum(stype, enums, shortname).Ok? &&
      var after := RegisterEnum(stype, enums, shortname).value.1;
      RegisterEnum(stype, enums, shortname).value.0 == name &&
      after.keys == enums.keys + [name] &&
      after.entries == enums.entries[name := after.entries[name]] &&
      after.entries[name].name == name &&
      |after.entries[name].values| == |syms| &&
      forall i :: 0 <= i < |syms| ==> after.entries[name].values[i] == shortname(syms[i].s)
  {
  }

  /** Registering the same enum again changes nothing. */
  lemma EnumIdempotent(stype: Value, enums: Enums, shortname: string -> string)
    requires Valid(enums) && RegisterEnum(stype, enums, shortname).Ok?
    ensures var (name, after) := RegisterEnum(stype, enums, shortname).value;
      RegisterEnum(stype, after, shortname) == Ok((name, after))
  {
  }

  /** A field whose type is a dictionary tagged with the short name `enum` gets the type
      `Enum`, and its enum is not registered. */
  lemma FieldEnumPlaceholder(field: Value, enums: Enums, shortname: string -> string)
    requires Valid(enums) && Get(field, "name").Some? && Get(field, "name").value.Str?
    requires SplitField(Get(field, "name").value.s).Ok? && Remap(field).Ok?
    requires Get(field, "type").Some? && Get(field, "type").value.Dict?
    requires Get(Get(field, "type").value, "type") == Some(Str("enum"))
    ensures RecordField(field, enums, shortname) ==
      Ok((FieldDefinition(SplitField(Get(field, "name").value.s).value.2, "Enum", false, Remap(field).value), enums))
  {
  }

  /** Any other field type is converted, and the conversion's registrations are kept:
      this includes an inline enum tagged with the full `salad#enum` URI. */
  lemma FieldConverted(field: Value, enums: Enums, shortname: string -> string)
    requires Valid(enums) && Get(field, "name").Some? && Get(field, "name").value.Str?
    requires SplitField(Get(field, "name").value.s).Ok? && Remap(field).Ok?
    requires Get(field, "type").Some?
    requires var ft := Get(field, "type").value;
      ft.Dict? ==> Get(ft, "type").Some? && Get(ft, "type").value != Str("enum")
    ensures var ft := Get(field, "type").value;
      RecordField(field, enums, shortname).Ok? <==> Convert(ft, enums, shortname).Ok?
    ensures var ft := Get(field, "type").value;
      Convert(ft, enums, shortname).Ok? ==>
      RecordField(field, enums, shortname) ==
        Ok((FieldDefinition(SplitField(Get(field, "name").value.s).value.2, Convert(ft, enums, shortname).value.0,
                            false, Remap(field).value),
            Convert(ft, enums, shortname).value.1))
  {
  }

  /** A dictionary field type without a `type` tag raises KeyError. */
  lemma FieldTypeUntagged(field: Value, enums: Enums, shortname: string -> string)
    requires Valid(enums) && Get(field, "name").Some? && Get(field, "name").value.Str?
    requires SplitField(Get(field, "name").value.s).Ok? && Remap(field).Ok?
    requires Get(field, "type").Some? && Get(field, "type").value.Dict?
    requires Get(Get(field, "type").value, "type").None?
    ensures RecordField(field, enums, shortname) == Err(KeyError)
  {
  }

  /** An item whose type is `documentation` is skipped. */
  lemma ParseSkipsDocumentation(stype: Value, classes: Classes, enums: Enums, shortname: string -> string)
    requires Valid(classes) && Valid(enums)
    requires stype.Dict? && Get(stype, "type") == Some(Str("documentation"))
    ensures ParseItem(stype, classes, enums, shortname) == Ok((classes, enums))
  {
  }

  /** `SchemaException` is raised exactly for an item that is not documentation and has
      none of the recognised shapes; nothing else raises it. */
  lemma ParseItemSchemaException(stype: Value, classes: Classes, enums: Enums, shortname: string -> string)
    requires Valid(classes) && Valid(enums)
    ensures ParseItem(stype, classes, enums, shortname) == Err(SchemaException) <==>
      IsDocumentation(stype) == Ok(false) && !(Pred(stype) || IsArray(stype))
  {
  }

  /** A record item registers its class under its name: a new name at the end, a known
      name in its old place with the new prototype. */
  lemma ParseItemRecord(stype: Value, classes: Classes, enums: Enums, shortname: string -> string)
    requires Valid(classes) && Valid(enums) && IsRecordSchema(stype)
    ensures ParseItem(stype, classes, enums, shortname).Ok? <==> RecordSchema(stype, enums, shortname).Ok?
    ensures RecordSchema(stype, enums, shortname).Ok? ==>
      var (name, cd, enums') := RecordSchema(stype, enums, shortname).value;
      var (classes', enums'') := ParseItem(stype, classes, enums, shortname).value;
      enums'' == enums' && classes'.entries == classes.entries[name := cd] &&
      classes'.keys == (if name in classes.entries then classes.keys else classes.keys + [name])
  {
    assert IsDocumentation(stype) == Ok(false);
  }

  /** An enum item only touches the enum registry. */
  lemma ParseItemEnum(stype: Value, classes: Classes, enums: Enums, shortname: string -> string)
    requires Valid(classes) && Valid(enums) && IsEnumSchema(stype)
    ensures ParseItem(stype, classes, enums, shortname).Ok? <==> RegisterEnum(stype, enums, shortname).Ok?
    ensures RegisterEnum(stype, enums, shortname).Ok? ==>
      ParseItem(stype, classes, enums, shortname) == Ok((classes, RegisterEnum(stype, enums, shortname).value.1))
  {
    assert IsDocumentation(stype) == Ok(false);
    ShapesExclusive(stype);
  }

  /** No class has emitted fields yet: the state `parse` leaves for `epilogue`. */
  ghost predicate NoOwnFields(classes: Classes)
  {
    forall k :: k in classes.entries ==> classes.entries[k].fields == []
  }

  /** One item adds at most a class whose emitted fields are still empty. */
  lemma ParseItemNoOwn(stype: Value, classes: Classes, enums: Enums, shortname: string -> string)
    requires Valid(classes) && Valid(enums) && NoOwnFields(classes)
    requires ParseItem(stype, classes, enums, shortname).Ok?
    ensures NoOwnFields(ParseItem(stype, classes, enums, shortname).value.0)
  {
    if IsDocumentation(stype) == Ok(false) && IsRecordSchema(stype) {
      ParseItemRecord(stype, classes, enums, shortname);
      var (name, cd, _) := RecordSchema(stype, enums, shortname).value;
      assert cd.fields == NewClassDefinition(name).value.fields == [];
    }
  }

  /** The loop of `parse` leaves every class with no emitted fields. */
  lemma {:induction false} ParseItemsNoOwn(items: seq<Value>, classes: Classes, enums: Enums, shortname: string -> string)
    requires Valid(classes) && Valid(enums) && NoOwnFields(classes)
    requires ParseItems(items, classes, enums, shortname).Ok?
    ensures NoOwnFields(ParseItems(items, classes, enums, shortname).value.0)
    decreases |items|
  {
    if |items| > 0 {
      var p := items[..|items| - 1];
      ParseItemsNoOwn(p, classes, enums, shortname);
      var (classes', mid) := ParseItems(p, classes, enums, shortname).value;
      ParseItemNoOwn(items[|items| - 1], classes', mid, shortname);
    }
  }

  /** Once an item raises, the items after it are not looked at. */
  lemma {:induction false} ParseItemsStopsAtError(items: seq<Value>, classes: Classes, enums: Enums, shortname: string -> string, i: nat)
    requires Valid(classes) && Valid(enums) && i <= |items|
    requires ParseItems(items[..i], classes, enums, shortname).Err?
    ensures ParseItems(items, classes, enums, shortname) == ParseItems(items[..i], classes, enums, shortname)
    decreases |items|
  {
    if i < |items| {
      var p := items[..|items| - 1];
      assert p[..i] == items[..i];
      ParseItemsStopsAtError(p, classes, enums, shortname, i);
    } else {
      assert items[..i] == items;
    }
  }

  lemma {:induction false} FieldsOfStopsAtError(l: seq<Value>, enums: Enums, shortname: string -> string, i: nat)
    requires Valid(enums) && i <= |l| && FieldsOf(l[..i], enums, shortname).Err?
    ensures FieldsOf(l, enums, shortname) == FieldsOf(l[..i], enums, shortname)
    decreases |l|
  {
    if i < |l| {
      var p := l[..|l| - 1];
      assert p[..i] == l[..i];
      FieldsOfStopsAtError(p, enums, shortname, i);
    } else {
      assert l[..i] == l;
    }
  }

  lemma {:induction false} BasesOfStopsAtError(l: seq<Value>, i: nat)
    requires i <= |l| && BasesOf(l[..i]).Err?
    ensures BasesOf(l) == BasesOf(l[..i])
    decreases |l|
  {
    if i < |l| {
      var p := l[..|l| - 1];
      assert p[..i] == l[..i];
      BasesOfStopsAtError(p, i);
    } else {
      assert l[..i] == l;
    }
  }

  lemma {:induction false} SpecializationsOfStopsAtError(l: seq<Value>, i: nat)
    requires i <= |l| && SpecializationsOf(l[..i]).Err?
    ensures SpecializationsOf(l) == SpecializationsOf(l[..i])
    decreases |l|
  {
    if i < |l| {
      var p := l[..|l| - 1];
      assert p[..i] == l[..i];
      SpecializationsOfStopsAtError(p, i);
    } else {
      assert l[..i] == l;
    }
  }

  /** A field `{"name": "ns#Cls/f", "type": "string"}`. */
  function StringField(ns: string, cls: string, f: string): Value
  {
    Dict([Member("name", Str(ns + "#" + cls + "/" + f)), Member("type", Str("string"))])
  }

  /** A record `{"name": "ns#Cls", "type": "record", "fields": [field]}`. */
  function OneFieldRecord(ns: string, cls: string, field: Value): Value
  {
    Dict([Member("name", Str(ns + "#" + cls)), Member("type", Str("record")), Member("fields", List([field]))])
  }

  /** The field keeps only the part after `/` as its name and gets the C++ string type. */
  lemma StringFieldParses(ns: string, cls: string, f: string, enums: Enums, shortname: string -> string)
    requires Valid(enums)
    requires '#' !in ns && '#' !in cls && '#' !in f && '/' !in cls && '/' !in f
    ensures RecordField(StringField(ns, cls, f), enums, shortname) == Ok((FieldDefinition(f, "std::string", false, ""), enums))
  {
    var field := StringField(ns, cls, f);
    SplitFieldOfJoin(ns, cls, f);
    assert "name" != "type" by { assert "name"[0] != "type"[0]; }
    var rest := [Member("type", Str("string"))];
    assert field.members[1..] == rest;
    assert Lookup(rest, "type") == Some(Str("string"));
    assert Lookup(field.members, "type") == Lookup(rest, "type");
    assert Get(field, "jsonldPredicate").None?;
    assert Index(field, "type") == Ok(Str("string"));
    ConvertBuiltin(Str("string"), enums, shortname);
  }

  /** A single field parses as that field. */
  lemma FieldsOfOne(field: Value, enums: Enums, shortname: string -> string)
    requires Valid(enums)
    ensures RecordField(field, enums, shortname).Ok? ==>
      FieldsOf([field], enums, shortname) ==
        Ok(([RecordField(field, enums, shortname).value.0], RecordField(field, enums, shortname).value.1))
  {
    var l := [field];
    assert l[..0] == [] && l[0] == field;
    assert FieldsOf([], enums, shortname) == Ok(([], enums));
    if RecordField(field, enums, shortname).Ok? {
      var fd := RecordField(field, enums, shortname).value.0;
      assert [] + [fd] == [fd];
    }
  }

  lemma OneFieldRecordKeys(ns: string, cls: string, field: Value)
    ensures var item := OneFieldRecord(ns, cls, field);
      Get(item, "name") == Some(Str(ns + "#" + cls)) && Get(item, "type") == Some(Str("record")) &&
      Get(item, "fields") == Some(List([field])) &&
      Get(item, "extends").None? && Get(item, "specialize").None? && Get(item, "abstract").None?
  {
    var ms := OneFieldRecord(ns, cls, field).members;
    assert "name" != "type" by { assert "name"[0] != "type"[0]; }
    assert ms == [ms[0]] + ([ms[1]] + [ms[2]]);
    forall k | k in {"name", "type", "fields", "extends", "specialize", "abstract"}
      ensures Lookup(ms, k) == if ms[0].key == k then Some(ms[0].val) else Lookup([ms[1]] + [ms[2]], k)
      ensures Lookup([ms[1]] + [ms[2]], k) == if ms[1].key == k then Some(ms[1].val) else Lookup([ms[2]], k)
      ensures Lookup([ms[2]], k) == if ms[2].key == k then Some(ms[2].val) else None
    {
      LookupCons(ms[0], [ms[1]] + [ms[2]], k);
      LookupCons(ms[1], [ms[2]], k);
      LookupCons(ms[2], [], k);
      assert [ms[2]] + [] == [ms[2]];
    }
  }

  /** The record part of the scenario below, before registration. */
  lemma OneFieldRecordSchema(ns: string, cls: string, f: string, enums: Enums, shortname: string -> string)
    requires Valid(enums)
    requires '#' !in ns && '#' !in cls && '#' !in f && '/' !in cls && '/' !in f
    ensures RecordSchema(OneFieldRecord(ns, cls, StringField(ns, cls, f)), enums, shortname) ==
      Ok((ns + "#" + cls,
          ClassDefinition(ns + "#" + cls, Safename(ns), Safename(cls), [], [], [FieldDefinition(f, "std::string", false, "")], [], false),
          enums))
  {
    var field := StringField(ns, cls, f);
    var item := OneFieldRecord(ns, cls, field);
    SplitNameOfJoin(ns, cls);
    OneFieldRecordKeys(ns, cls, field);
    StringFieldParses(ns, cls, f, enums, shortname);
    FieldsOfOne(field, enums, shortname);
    assert Extends(item) == Ok([]);
    assert Specializations(item) == Ok([]);
    assert Fields(item, enums, shortname) == Ok(([FieldDefinition(f, "std::string", false, "")], enums));
  }

  /** Parsing the record `ns#Cls` with one string field `f` registers the class `Cls` of
      namespace `ns` (both made C++-safe), with no bases, not abstract, with `f` among all
      its fields and no own fields yet; the enum registry is untouched. */
  lemma ParseRecordScenario(ns: string, cls: string, f: string, classes: Classes, enums: Enums, shortname: string -> string)
    requires Valid(classes) && Valid(enums)
    requires '#' !in ns && '#' !in cls && '#' !in f && '/' !in cls && '/' !in f
    ensures var name := ns + "#" + cls;
      var cd := ClassDefinition(name, Safename(ns), Safename(cls), [], [], [FieldDefinition(f, "std::string", false, "")], [], false);
      ParseItems([OneFieldRecord(ns, cls, StringField(ns, cls, f))], classes, enums, shortname) ==
        Ok((Put(classes, name, cd), enums))
  {
    var item := OneFieldRecord(ns, cls, StringField(ns, cls, f));
    OneFieldRecordKeys(ns, cls, StringField(ns, cls, f));
    assert IsRecordSchema(item);
    OneFieldRecordSchema(ns, cls, f, enums, shortname);
    ParseItemRecord(item, classes, enums, shortname);
    assert [item][..0] == [];
  }
}
