/** `convertTypeToCpp`: the C++ type of a schema type expression. The only state it
    touches is the enum registry, where inline enums are registered on first sight. */
module Resolver {
  import opened Values
  import opened Strings
  import opened Names
  import opened Registry
  import opened Definitions

  type Enums = Registry<EnumDefinition>

  /** The built-in type names the resolver recognises, each with the C++ type it stands for:
      the short name and its XML Schema or salad URI. `Any` is only recognised by its URI. */
  const BuiltinTable: seq<(seq<string>, string)> := [
    (["null", "https://w3id.org/cwl/salad#null"], "std::monostate"),
    (["string", "http://www.w3.org/2001/XMLSchema#string"], "std::string"),
    (["int", "http://www.w3.org/2001/XMLSchema#int"], "int32_t"),
    (["long", "http://www.w3.org/2001/XMLSchema#long"], "int64_t"),
    (["float", "http://www.w3.org/2001/XMLSchema#float"], "float"),
    (["double", "http://www.w3.org/2001/XMLSchema#double"], "double"),
    (["boolean", "http://www.w3.org/2001/XMLSchema#boolean"], "bool"),
    (["https://w3id.org/cwl/salad#Any"], "std::any"),
    (["PrimitiveType", "https://w3id.org/cwl/salad#PrimitiveType"],
     "std::variant<bool, int32_t, int64_t, float, double, std::string>")
  ]

  /** The chain of equality tests at the start of the single-element case. */
  function BuiltinType(x: Value): Option<string>
  {
    if x == Str("null") || x == Str("https://w3id.org/cwl/salad#null") then Some("std::monostate")
    else if x == Str("string") || x == Str("http://www.w3.org/2001/XMLSchema#string") then Some("std::string")
    else if x == Str("int") || x == Str("http://www.w3.org/2001/XMLSchema#int") then Some("int32_t")
    else if x == Str("long") || x == Str("http://www.w3.org/2001/XMLSchema#long") then Some("int64_t")
    else if x == Str("float") || x == Str("http://www.w3.org/2001/XMLSchema#float") then Some("float")
    else if x == Str("double") || x == Str("http://www.w3.org/2001/XMLSchema#double") then Some("double")
    else if x == Str("boolean") || x == Str("http://www.w3.org/2001/XMLSchema#boolean") then Some("bool")
    else if x == Str("https://w3id.org/cwl/salad#Any") then Some("std::any")
    else if x == Str("PrimitiveType") || x == Str("https://w3id.org/cwl/salad#PrimitiveType") then
      Some("std::variant<bool, int32_t, int64_t, float, double, std::string>")
    else None
  }

  /** `x["type"] in (short, uri)`, for a dictionary `x`. */
  predicate TagIs(x: Value, short: string)
  {
    var tag := Get(x, "type");
    tag.Some? && (tag.value == Str(short) || tag.value == Str("https://w3id.org/cwl/salad#" + short))
  }

  /** `split_name(n)` turned into `ns::cls`; a non-string has no `split`. */
  function QualifiedCpp(n: Value): (r: Result<string>)
    ensures r.Ok? <==> n.Str? && Count(n.s, '#') == 1
    ensures r.Err? ==> r.error == (if n.Str? then ValueError else TypeError)
  {
    if !n.Str? then Err(TypeError)
    else
      match SplitName(n.s)
      case Err(e) => Err(e)
      case Ok((ns, cls)) => Ok(Safename(ns) + "::" + Safename(cls))
  }

  /** The C++ name of an inline enum: the name cut at its `#` when it has exactly one,
      otherwise the whole name, made safe. */
  function EnumCppName(name: string): string
  {
    var t := Split(name, '#');
    if |t| != 2 then Safename(name) else Safename(t[0]) + "::" + Safename(t[1])
  }

  /** `list(map(shortname, symbols))`: the symbols iterated as Python does, each shortened. */
  function Symbols(v: Value, shortname: string -> string): (r: Result<seq<string>>)
    ensures r.Err? ==> r.error == TypeError
  {
    match Iterate(v)
    case Err(e) => Err(e)
    case Ok(items) => ShortNames(items, shortname)
  }

  function ShortNames(items: seq<Value>, shortname: string -> string): (r: Result<seq<string>>)
    ensures r.Ok? <==> forall i :: 0 <= i < |items| ==> items[i].Str?
    ensures r.Ok? ==> |r.value| == |items|
    ensures r.Ok? ==> forall i :: 0 <= i < |items| ==> r.value[i] == shortname(items[i].s)
    ensures r.Err? ==> r.error == TypeError
  {
    if |items| == 0 then Ok([])
    else if !items[0].Str? then Err(TypeError)
    else
      match ShortNames(items[1..], shortname)
      case Err(e) => assert !items[1..][0].Str? || exists i :: 0 <= i < |items[1..]| && !items[1..][i].Str?; Err(e)
      case Ok(rest) =>
        assert forall i :: 1 <= i < |items| ==> items[i] == items[1..][i - 1];
        Ok([shortname(items[0].s)] + rest)
  }

  /** Registering an enum schema, as `parseEnum` and the inline-enum branch both do: the
      enum is registered when its name is new; an existing entry is kept as it is, without
      looking at the symbols. The result is the enum's name. */
  function RegisterEnum(x: Value, enums: Enums, shortname: string -> string): (r: Result<(string, Enums)>)
    requires Valid(enums)
    ensures r.Ok? ==> Valid(r.value.1) && Grows(enums, r.value.1)
    ensures r.Err? ==> r.error != SchemaException
    ensures r.Ok? ==> Get(x, "name") == Some(Str(r.value.0)) && r.value.0 in r.value.1.entries
  {
    match Index(x, "name")
    case Err(e) => Err(e)
    case Ok(name) =>
      if !name.Str? then Err(TypeError)
      else if name.s in enums.entries then Ok((name.s, enums))
      else
        match Index(x, "symbols")
        case Err(e) => Err(e)
        case Ok(symbols) =>
          match Symbols(symbols, shortname)
          case Err(e) => Err(e)
          case Ok(values) =>
            var def := EnumDefinition(name.s, values);
            PutAbsentGrows(enums, name.s, def);
            Ok((name.s, Put(enums, name.s, def)))
  }

  /** The inline-enum branch: the enum is registered and its C++ name is the type. */
  function InlineEnum(x: Value, enums: Enums, shortname: string -> string): (r: Result<(string, Enums)>)
    requires Valid(enums)
    ensures r.Ok? ==> Valid(r.value.1) && Grows(enums, r.value.1)
    ensures r.Err? ==> r.error != SchemaException
  {
    match RegisterEnum(x, enums, shortname)
    case Err(e) => Err(e)
    case Ok((name, enums')) => Ok((EnumCppName(name), enums'))
  }

  /** `convertTypeToCpp(t)`: a non-list is treated as the list holding it; one element is
      looked up, any other number of elements becomes a variant of the members. */
  function Convert(t: Value, enums: Enums, shortname: string -> string): (r: Result<(string, Enums)>)
    requires Valid(enums)
    ensures r.Ok? ==> Valid(r.value.1) && Grows(enums, r.value.1)
    ensures r.Err? ==> r.error != SchemaException
    decreases Size(t), 1
  {
    if !t.List? then ConvertSingle(t, enums, shortname)
    else if |t.items| == 1 then
      SizeSeqElement(t.items, 0);
      ConvertSingle(t.items[0], enums, shortname)
    else
      match ConvertEach(t.items, enums, shortname)
      case Err(e) => Err(e)
      case Ok((ts, enums')) => Ok(("std::variant<" + Join(ts, ", ") + ">", enums'))
  }

  /** The members of a list converted left to right, each seeing the registry as the
      members before it left it. */
  function ConvertEach(l: seq<Value>, enums: Enums, shortname: string -> string): (r: Result<(seq<string>, Enums)>)
    requires Valid(enums)
    ensures r.Ok? ==> Valid(r.value.1) && Grows(enums, r.value.1) && |r.value.0| == |l|
    ensures r.Err? ==> r.error != SchemaException
    decreases SizeSeq(l), 2
  {
    if |l| == 0 then
      GrowsReflexive(enums);
      Ok(([], enums))
    else
      match ConvertEach(l[..|l| - 1], enums, shortname)
      case Err(e) => Err(e)
      case Ok((ts, mid)) =>
        match Convert(l[|l| - 1], mid, shortname)
        case Err(e) => Err(e)
        case Ok((t, enums')) =>
          GrowsTransitive(enums, mid, enums');
          Ok((ts + [t], enums'))
  }

  /** The single-element case. */
  function ConvertSingle(x: Value, enums: Enums, shortname: string -> string): (r: Result<(string, Enums)>)
    requires Valid(enums)
    ensures r.Ok? ==> Valid(r.value.1) && Grows(enums, r.value.1)
    ensures r.Err? ==> r.error != SchemaException
    decreases Size(x), 0
  {
    match BuiltinType(x)
    case Some(cpp) =>
      GrowsReflexive(enums);
      Ok((cpp, enums))
    case None =>
      if x.Dict? then
        if TagIs(x, "enum") then InlineEnum(x, enums, shortname)
        else if TagIs(x, "array") then
          match Index(x, "items")
          case Err(e) => Err(e)
          case Ok(items) =>
            if items.List? then
              match ConvertEach(items.items, enums, shortname)
              case Err(e) => Err(e)
              case Ok((ts, enums')) => Ok(("std::vector<std::variant<" + Join(ts, ", ") + ">>", enums'))
            else
              match Convert(items, enums, shortname)
              case Err(e) => Err(e)
              case Ok((t, enums')) => Ok(("std::vector<" + t + ">", enums'))
        else if TagIs(x, "record") then
          match Index(x, "name")
          case Err(e) => Err(e)
          case Ok(n) => GrowsReflexive(enums); Unchanged(QualifiedCpp(n), enums)
        else
          match Index(x, "type")
          case Err(e) => Err(e)
          case Ok(n) => GrowsReflexive(enums); Unchanged(QualifiedCpp(n), enums)
      else if !x.Str? then Err(TypeError)
      else if |Split(x.s, '#')| != 2 then
        GrowsReflexive(enums);
        Ok((x.s, enums))
      else
        GrowsReflexive(enums);
        Unchanged(QualifiedCpp(x), enums)
  }

  /** A result that leaves the registry alone. */
  function Unchanged(r: Result<string>, enums: Enums): Result<(string, Enums)>
  {
    match r
    case Err(e) => Err(e)
    case Ok(s) => Ok((s, enums))
  }

  /** A non-list converts exactly as the one-element list holding it. */
  lemma ConvertUnwrap(t: Value, enums: Enums, shortname: string -> string)
    requires Valid(enums) && !t.List?
    ensures Convert(t, enums, shortname) == Convert(List([t]), enums, shortname)
  {
  }

  /** A list of any length but one becomes `std::variant<...>` of its members' types,
      joined by `, ` in list order. */
  lemma ConvertUnion(l: seq<Value>, enums: Enums, shortname: string -> string)
    requires Valid(enums) && |l| != 1
    ensures Convert(List(l), enums, shortname).Ok? <==> ConvertEach(l, enums, shortname).Ok?
    ensures ConvertEach(l, enums, shortname).Ok? ==>
      Convert(List(l), enums, shortname).value ==
        ("std::variant<" + Join(ConvertEach(l, enums, shortname).value.0, ", ") + ">",
         ConvertEach(l, enums, shortname).value.1)
  {
  }

  /** Member `i` of a list is converted in the registry that members `0..i` left, and its
      type is entry `i` of the list of types. */
  lemma {:induction false} ConvertEachAt(l: seq<Value>, enums: Enums, shortname: string -> string, i: nat)
    requires Valid(enums) && i < |l| && ConvertEach(l, enums, shortname).Ok?
    ensures ConvertEach(l[..i], enums, shortname).Ok? && ConvertEach(l[..i + 1], enums, shortname).Ok?
    ensures Convert(l[i], ConvertEach(l[..i], enums, shortname).value.1, shortname) ==
            Ok((ConvertEach(l, enums, shortname).value.0[i], ConvertEach(l[..i + 1], enums, shortname).value.1))
    decreases |l|
  {
    var p := l[..|l| - 1];
    assert l[..|l|] == l;
    if i < |l| - 1 {
      assert p[..i] == l[..i] && p[..i + 1] == l[..i + 1];
      ConvertEachAt(p, enums, shortname, i);
    } else {
      assert p == l[..i];
    }
  }

  /** Once a member fails to convert, the members after it are not looked at. */
  lemma {:induction false} ConvertEachStopsAtError(l: seq<Value>, enums: Enums, shortname: string -> string, i: nat)
    requires Valid(enums) && i <= |l| && ConvertEach(l[..i], enums, shortname).Err?
    ensures ConvertEach(l, enums, shortname) == ConvertEach(l[..i], enums, shortname)
    decreases |l|
  {
    if i < |l| {
      var p := l[..|l| - 1];
      assert p[..i] == l[..i];
      ConvertEachStopsAtError(p, enums, shortname, i);
    } else {
      assert l[..i] == l;
    }
  }

  /** Every name in the table is recognised and gives the C++ type the table lists. */
  lemma BuiltinTableAgrees(i: nat, j: nat)
    requires i < |BuiltinTable| && j < |BuiltinTable[i].0|
    ensures BuiltinType(Str(BuiltinTable[i].0[j])) == Some(BuiltinTable[i].1)
  {
    if i < 3 {
      BuiltinFirstRows(i, j);
    } else if i < 5 {
      BuiltinMiddleRows(i, j);
    } else {
      BuiltinLastRows(i, j);
    }
  }

  lemma BuiltinFirstRows(i: nat, j: nat)
    requires i < 3 && j < |BuiltinTable[i].0|
    ensures BuiltinType(Str(BuiltinTable[i].0[j])) == Some(BuiltinTable[i].1)
  {
  }

  lemma BuiltinMiddleRows(i: nat, j: nat)
    requires 3 <= i < 5 && j < |BuiltinTable[i].0|
    ensures BuiltinType(Str(BuiltinTable[i].0[j])) == Some(BuiltinTable[i].1)
  {
  }

  lemma BuiltinLastRows(i: nat, j: nat)
    requires 5 <= i < |BuiltinTable| && j < |BuiltinTable[i].0|
    ensures BuiltinType(Str(BuiltinTable[i].0[j])) == Some(BuiltinTable[i].1)
  {
  }

  /** Nothing outside the table is recognised. */
  lemma BuiltinOnlyTable(x: Value)
    requires BuiltinType(x).Some?
    ensures exists i :: 0 <= i < |BuiltinTable| && x.Str? && x.s in BuiltinTable[i].0 &&
                        BuiltinType(x) == Some(BuiltinTable[i].1)
  {
    var k :=
      if x == Str("null") || x == Str("https://w3id.org/cwl/salad#null") then 0
      else if x == Str("string") || x == Str("http://www.w3.org/2001/XMLSchema#string") then 1
      else if x == Str("int") || x == Str("http://www.w3.org/2001/XMLSchema#int") then 2
      else if x == Str("long") || x == Str("http://www.w3.org/2001/XMLSchema#long") then 3
      else if x == Str("float") || x == Str("http://www.w3.org/2001/XMLSchema#float") then 4
      else if x == Str("double") || x == Str("http://www.w3.org/2001/XMLSchema#double") then 5
      else if x == Str("boolean") || x == Str("http://www.w3.org/2001/XMLSchema#boolean") then 6
      else if x == Str("https://w3id.org/cwl/salad#Any") then 7
      else 8;
    assert x.Str? && x.s in BuiltinTable[k].0 && BuiltinType(x) == Some(BuiltinTable[k].1);
  }

  /** A built-in name converts to its fixed C++ type, alone or in a one-element list, and
      leaves the registry alone. */
  lemma ConvertBuiltin(x: Value, enums: Enums, shortname: string -> string)
    requires Valid(enums) && BuiltinType(x).Some?
    ensures Convert(x, enums, shortname) == Ok((BuiltinType(x).value, enums))
    ensures Convert(List([x]), enums, shortname) == Ok((BuiltinType(x).value, enums))
  {
  }

  /** Any other name: with exactly one `#` it becomes `ns::cls`; otherwise it is used as
      written. */
  lemma ConvertPlainName(s: string, enums: Enums, shortname: string -> string)
    requires Valid(enums) && BuiltinType(Str(s)).None?
    ensures Count(s, '#') != 1 ==> Convert(Str(s), enums, shortname) == Ok((s, enums))
    ensures Count(s, '#') == 1 ==>
      Convert(Str(s), enums, shortname) ==
      Ok((Safename(SplitName(s).value.0) + "::" + Safename(SplitName(s).value.1), enums))
  {
    SplitLength(s, '#');
  }

  /** A list nested directly in a one-element list has no C++ type: the generator fails
      calling `split` on it. */
  lemma ConvertNestedList(l: seq<Value>, enums: Enums, shortname: string -> string)
    requires Valid(enums)
    ensures Convert(List([List(l)]), enums, shortname) == Err(TypeError)
  {
  }

  /** An inline array: list items give a vector of a variant, anything else a vector of
      the item type. */
  lemma ConvertArray(x: Value, enums: Enums, shortname: string -> string)
    requires Valid(enums) && x.Dict? && TagIs(x, "array") && Get(x, "items").Some?
    ensures var items := Get(x, "items").value;
      items.List? ==>
        (Convert(x, enums, shortname).Ok? <==> ConvertEach(items.items, enums, shortname).Ok?) &&
        (ConvertEach(items.items, enums, shortname).Ok? ==>
          Convert(x, enums, shortname).value ==
            ("std::vector<std::variant<" + Join(ConvertEach(items.items, enums, shortname).value.0, ", ") + ">>",
             ConvertEach(items.items, enums, shortname).value.1))
    ensures var items := Get(x, "items").value;
      !items.List? ==>
        (Convert(x, enums, shortname).Ok? <==> Convert(items, enums, shortname).Ok?) &&
        (Convert(items, enums, shortname).Ok? ==>
          Convert(x, enums, shortname).value ==
            ("std::vector<" + Convert(items, enums, shortname).value.0 + ">",
             Convert(items, enums, shortname).value.1))
  {
    assert BuiltinType(x).None?;
    assert !TagIs(x, "enum");
  }

  /** A record type names its class: `ns::cls` from the record's name. */
  lemma ConvertRecord(x: Value, enums: Enums, shortname: string -> string)
    requires Valid(enums) && x.Dict? && TagIs(x, "record") && Get(x, "name").Some? && Get(x, "name").value.Str?
    requires Count(Get(x, "name").value.s, '#') == 1
    ensures var n := SplitName(Get(x, "name").value.s).value;
      Convert(x, enums, shortname) == Ok((Safename(n.0) + "::" + Safename(n.1), enums))
  {
    assert BuiltinType(x).None?;
    assert !TagIs(x, "enum") && !TagIs(x, "array");
  }

  /** The C++ name given to an inline enum is the name its definition declares. */
  lemma EnumCppNameAgrees(name: string, values: seq<string>)
    ensures EnumCppName(name) == EnumDefinition(name, values).QualifiedName()
  {
    if |Split(name, '#')| == 2 {
      SplitLength(name, '#');
      JoinSplit(name, '#');
      assert Join(Split(name, '#'), "#") == Split(name, '#')[0] + "#" + Split(name, '#')[1];
      SplitPiecesFree(name, '#');
      SplitNameOfJoin(Split(name, '#')[0], Split(name, '#')[1]);
    }
  }

  /** An inline enum seen for the first time is registered under its name, at the end,
      with the shortened symbols. */
  lemma InlineEnumRegisters(x: Value, enums: Enums, shortname: string -> string)
    requires Valid(enums) && x.Dict? && TagIs(x, "enum")
    requires Get(x, "name").Some? && Get(x, "name").value.Str? && Get(x, "name").value.s !in enums.entries
    requires Get(x, "symbols").Some? && Symbols(Get(x, "symbols").value, shortname).Ok?
    ensures var name := Get(x, "name").value.s;
      var def := EnumDefinition(name, Symbols(Get(x, "symbols").value, shortname).value);
      Convert(x, enums, shortname) == Ok((def.QualifiedName(), Put(enums, name, def))) &&
      Put(enums, name, def).keys == enums.keys + [name]
  {
    ConvertInlineEnum(x, enums, shortname);
    var name := Get(x, "name").value.s;
    EnumCppNameAgrees(name, Symbols(Get(x, "symbols").value, shortname).value);
  }

  /** An inline enum whose name is already registered leaves the registry as it is: the
      first definition wins, and the symbols are not looked at. */
  lemma InlineEnumKnown(x: Value, enums: Enums, shortname: string -> string)
    requires Valid(enums) && x.Dict? && TagIs(x, "enum")
    requires Get(x, "name").Some? && Get(x, "name").value.Str? && Get(x, "name").value.s in enums.entries
    ensures Convert(x, enums, shortname) == Ok((EnumCppName(Get(x, "name").value.s), enums))
  {
    var name := Get(x, "name").value.s;
    assert Index(x, "name") == Ok(Str(name));
    assert RegisterEnum(x, enums, shortname) == Ok((name, enums));
    ConvertInlineEnum(x, enums, shortname);
  }

  /** A dictionary tagged `enum` takes the inline-enum branch. */
  lemma ConvertInlineEnum(x: Value, enums: Enums, shortname: string -> string)
    requires Valid(enums) && x.Dict? && TagIs(x, "enum")
    ensures Convert(x, enums, shortname) == InlineEnum(x, enums, shortname)
  {
    assert Convert(x, enums, shortname) == ConvertSingle(x, enums, shortname);
    assert BuiltinType(x) == None by { assert !x.Str?; }
  }

  /** Converting again in any registry that has grown from the one a conversion left
      gives the same C++ type and registers nothing new: each inline enum it meets is
      already there. */
  lemma ConvertStable(t: Value, enums: Enums, later: Enums, shortname: string -> string)
    requires Valid(enums) && Valid(later) && Convert(t, enums, shortname).Ok?
    requires Grows(Convert(t, enums, shortname).value.1, later)
    ensures Convert(t, later, shortname) == Ok((Convert(t, enums, shortname).value.0, later))
    decreases Size(t), 1
  {
    if !t.List? {
      ConvertSingleStable(t, enums, later, shortname);
    } else if |t.items| == 1 {
      SizeSeqElement(t.items, 0);
      ConvertSingleStable(t.items[0], enums, later, shortname);
    } else {
      ConvertEachStable(t.items, enums, later, shortname);
    }
  }

  lemma ConvertSingleStable(x: Value, enums: Enums, later: Enums, shortname: string -> string)
    requires Valid(enums) && Valid(later) && ConvertSingle(x, enums, shortname).Ok?
    requires Grows(ConvertSingle(x, enums, shortname).value.1, later)
    ensures ConvertSingle(x, later, shortname) == Ok((ConvertSingle(x, enums, shortname).value.0, later))
    decreases Size(x), 0
  {
    if BuiltinType(x).None? && x.Dict? && !TagIs(x, "enum") && TagIs(x, "array") {
      var items := Index(x, "items").value;
      if items.List? {
        ConvertEachStable(items.items, enums, later, shortname);
      } else {
        ConvertStable(items, enums, later, shortname);
      }
    }
  }

  lemma ConvertEachStable(l: seq<Value>, enums: Enums, later: Enums, shortname: string -> string)
    requires Valid(enums) && Valid(later) && ConvertEach(l, enums, shortname).Ok?
    requires Grows(ConvertEach(l, enums, shortname).value.1, later)
    ensures ConvertEach(l, later, shortname) == Ok((ConvertEach(l, enums, shortname).value.0, later))
    decreases SizeSeq(l), 2
  {
    if |l| > 0 {
      var p := l[..|l| - 1];
      var mid := ConvertEach(p, enums, shortname).value.1;
      var after := Convert(l[|l| - 1], mid, shortname).value.1;
      GrowsTransitive(mid, after, later);
      ConvertEachStable(p, enums, later, shortname);
      ConvertStable(l[|l| - 1], mid, later, shortname);
    }
  }

  /** Converting the same type expression twice gives the same C++ type and leaves the
      registry as the first conversion left it. */
  lemma ConvertIdempotent(t: Value, enums: Enums, shortname: string -> string)
    requires Valid(enums) && Convert(t, enums, shortname).Ok?
    ensures Convert(t, Convert(t, enums, shortname).value.1, shortname) == Convert(t, enums, shortname)
  {
    var after := Convert(t, enums, shortname).value.1;
    GrowsReflexive(after);
    ConvertStable(t, enums, after, shortname);
  }
}
