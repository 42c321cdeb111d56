/** The finishing passes of `epilogue` and the order in which it writes the C++ text. */
module Epilogue {
  import opened Values
  import opened Strings
  import opened Names
  import opened Registry
  import opened Definitions
  import opened Resolver
  import opened Builder

  /** A specialised class keeps no base classes. */
  function Strip(cd: ClassDefinition): ClassDefinition
  {
    if |cd.specializationTypes| > 0 then cd.(bases := []) else cd
  }

  /** The first pass: every class with specialisation types loses its bases. */
  function StripAll(classes: Classes): (r: Classes)
    requires Valid(classes)
    ensures Valid(r) && r.keys == classes.keys
  {
    Registry(classes.keys, map k | k in classes.entries :: Strip(classes.entries[k]))
  }

  /** The first pass once it has visited the first `n` keys. */
  function StripUpTo(classes: Classes, n: nat): (r: Classes)
    requires Valid(classes) && n <= |classes.keys|
    ensures Valid(r) && r.keys == classes.keys
  {
    Registry(classes.keys, map k | k in classes.entries ::
      if k in classes.keys[..n] then Strip(classes.entries[k]) else classes.entries[k])
  }

  lemma StripUpToStart(classes: Classes)
    requires Valid(classes)
    ensures StripUpTo(classes, 0) == classes
  {
    assert StripUpTo(classes, 0).entries == classes.entries;
  }

  lemma StripUpToEnd(classes: Classes)
    requires Valid(classes)
    ensures StripUpTo(classes, |classes.keys|) == StripAll(classes)
  {
    assert classes.keys[..|classes.keys|] == classes.keys;
    assert StripUpTo(classes, |classes.keys|).entries == StripAll(classes).entries;
  }

  /** Visiting key `n` strips that class if it is specialised and changes nothing else. */
  lemma StripUpToStep(classes: Classes, n: nat)
    requires Valid(classes) && n < |classes.keys|
    ensures var k := classes.keys[n];
      var cur := StripUpTo(classes, n);
      k in cur.entries && cur.entries[k] == classes.entries[k] &&
      StripUpTo(classes, n + 1) ==
        if |cur.entries[k].specializationTypes| > 0 then Put(cur, k, cur.entries[k].(bases := [])) else cur
  {
    var k := classes.keys[n];
    var cur := StripUpTo(classes, n);
    assert k !in classes.keys[..n];
    assert forall x :: x in classes.keys[..n + 1] <==> x in classes.keys[..n] || x == k;
    if |cur.entries[k].specializationTypes| > 0 {
      assert StripUpTo(classes, n + 1).entries == Put(cur, k, cur.entries[k].(bases := [])).entries;
    } else {
      assert StripUpTo(classes, n + 1).entries == cur.entries;
    }
  }

  /** After the first pass a specialised class has no bases, every other class is as it
      was, and nothing but the bases changes. */
  lemma StripSpec(classes: Classes, k: string)
    requires Valid(classes) && k in classes.entries
    ensures k in StripAll(classes).entries
    ensures var before := classes.entries[k];
      var after := StripAll(classes).entries[k];
      after == before.(bases := after.bases) &&
      (|before.specializationTypes| > 0 ==> after.bases == []) &&
      (|before.specializationTypes| == 0 ==> after.bases == before.bases)
  {
  }

  /** A specialised class is written with no base list and with a `virtual`, not an
      `override`, `toYaml` declaration, whatever it declared as bases. */
  lemma SpecializedEmitsNoBases(classes: Classes, k: string)
    requires Valid(classes) && k in classes.entries && |classes.entries[k].specializationTypes| > 0
    ensures var c := StripAll(classes).entries[k];
      c.BaseIntro("", Ind) !in c.DefinitionChunks("", Ind) &&
      Ind + "virtual " <= c.ToYamlDeclaration("", Ind) &&
      !EndsWith(c.ToYamlDeclaration("", Ind), " override;\n")
  {
    var c := StripAll(classes).entries[k];
    DefinitionBaseList(c);
    ToYamlQualifier(c);
  }

  /** The registry key of a base class: its two parts joined again at `#`. */
  function ParentKey(b: QualifiedName): string
  {
    b.namespace + "#" + b.classname
  }

  predicate HasField(fs: seq<FieldDefinition>, name: string)
  {
    exists i :: 0 <= i < |fs| && fs[i].name == name
  }

  /** Some registered base class lists a field of this name among all its fields. */
  predicate Inherited(name: string, bases: seq<QualifiedName>, classes: Classes)
  {
    exists j :: 0 <= j < |bases| && ParentKey(bases[j]) in classes.entries &&
                HasField(classes.entries[ParentKey(bases[j])].allfields, name)
  }

  /** The test the second pass applies to each field. */
  function NotInherited(bases: seq<QualifiedName>, classes: Classes): FieldDefinition -> bool
  {
    (f: FieldDefinition) => !Inherited(f.name, bases, classes)
  }

  /** The search of the bases for one field, stopping at the first base that has it; a
      base that is not registered raises KeyError when it is reached. */
  function FoundInParents(name: string, bases: seq<QualifiedName>, classes: Classes): (r: Result<bool>)
    ensures r.Ok? ==> r.value == Inherited(name, bases, classes)
    ensures r.Err? ==> r.error == KeyError
    ensures (forall j :: 0 <= j < |bases| ==> ParentKey(bases[j]) in classes.entries) ==> r.Ok?
  {
    if |bases| == 0 then Ok(false)
    else
      var k := ParentKey(bases[0]);
      if k !in classes.entries then Err(KeyError)
      else if HasField(classes.entries[k].allfields, name) then Ok(true)
      else
        var r := FoundInParents(name, bases[1..], classes);
        assert forall j :: 1 <= j < |bases| ==> bases[j] == bases[1..][j - 1];
        r
  }

  /** The fields of `fs` that no base class has, in order. */
  function OwnFields(fs: seq<FieldDefinition>, bases: seq<QualifiedName>, classes: Classes): (r: Result<seq<FieldDefinition>>)
    ensures r.Ok? <==> forall i :: 0 <= i < |fs| ==> FoundInParents(fs[i].name, bases, classes).Ok?
    ensures r.Err? ==> r.error == KeyError
  {
    if |fs| == 0 then Ok([])
    else
      var p := fs[..|fs| - 1];
      var f := fs[|fs| - 1];
      assert forall i :: 0 <= i < |p| ==> p[i] == fs[i];
      match OwnFields(p, bases, classes)
      case Err(e) => Err(e)
      case Ok(own) =>
        match FoundInParents(f.name, bases, classes)
        case Err(e) => Err(e)
        case Ok(found) =>
          if found then Ok(own) else Ok(own + [f])
  }

  /** What the search keeps is exactly the fields no registered base class has, in order. */
  lemma {:induction false} OwnFieldsFilter(fs: seq<FieldDefinition>, bases: seq<QualifiedName>, classes: Classes)
    requires OwnFields(fs, bases, classes).Ok?
    ensures OwnFields(fs, bases, classes).value == Filter(NotInherited(bases, classes), fs)
    decreases |fs|
  {
    if |fs| > 0 {
      var p := fs[..|fs| - 1];
      var f := fs[|fs| - 1];
      assert fs == p + [f];
      OwnFieldsFilter(p, bases, classes);
      FilterAppend(NotInherited(bases, classes), p, [f]);
      assert [f][1..] == [];
    }
  }

  /** The second pass for one class: its own fields are appended to what it emits. */
  function DedupClass(cd: ClassDefinition, classes: Classes): (r: Result<ClassDefinition>)
    ensures r.Ok? ==> r.value == cd.(fields := r.value.fields) && cd.fields <= r.value.fields
  {
    match OwnFields(cd.allfields, cd.bases, classes)
    case Err(e) => Err(e)
    case Ok(own) => Ok(cd.(fields := cd.fields + own))
  }

  /** The second pass over the classes of `keys`, in order, looking the bases up in
      `classes`. */
  function DedupKeys(keys: seq<string>, classes: Classes): (r: Result<Classes>)
    requires Valid(classes) && forall i :: 0 <= i < |keys| ==> keys[i] in classes.entries
    ensures r.Ok? ==> Valid(r.value) && r.value.keys == classes.keys
    ensures r.Err? ==> r.error == KeyError
  {
    if |keys| == 0 then Ok(classes)
    else
      match DedupKeys(keys[..|keys| - 1], classes)
      case Err(e) => Err(e)
      case Ok(acc) =>
        var k := keys[|keys| - 1];
        match DedupClass(classes.entries[k], classes)
        case Err(e) => Err(e)
        case Ok(cd) => Ok(Put(acc, k, cd))
  }

  /** The second pass: every class gets the fields no base class has. */
  function DedupAll(classes: Classes): (r: Result<Classes>)
    requires Valid(classes)
    ensures r.Ok? ==> Valid(r.value) && r.value.keys == classes.keys
    ensures r.Err? ==> r.error == KeyError
  {
    DedupKeys(classes.keys, classes)
  }

  lemma {:induction false} DedupKeysEntries(keys: seq<string>, classes: Classes, k: string)
    requires Valid(classes) && forall i :: 0 <= i < |keys| ==> keys[i] in classes.entries
    requires DedupKeys(keys, classes).Ok? && k in classes.entries
    ensures k in keys ==> DedupClass(classes.entries[k], classes).Ok?
    ensures k in keys ==> DedupKeys(keys, classes).value.entries[k] == DedupClass(classes.entries[k], classes).value
    ensures k !in keys ==> DedupKeys(keys, classes).value.entries[k] == classes.entries[k]
    decreases |keys|
  {
    if |keys| > 0 {
      var p := keys[..|keys| - 1];
      var last := keys[|keys| - 1];
      assert forall i :: 0 <= i < |p| ==> p[i] == keys[i];
      var acc := DedupKeys(p, classes);
      var cd := DedupClass(classes.entries[last], classes);
      assert acc.Ok? && cd.Ok?;
      assert DedupKeys(keys, classes) == Ok(Put(acc.value, last, cd.value));
      if k != last {
        assert keys == p + [last];
        assert k in keys <==> k in p;
        DedupKeysEntries(p, classes, k);
      }
    }
  }

  lemma {:induction false} DedupKeysFails(keys: seq<string>, classes: Classes)
    requires Valid(classes) && forall i :: 0 <= i < |keys| ==> keys[i] in classes.entries
    ensures DedupKeys(keys, classes).Ok? <==> forall i :: 0 <= i < |keys| ==> DedupClass(classes.entries[keys[i]], classes).Ok?
    decreases |keys|
  {
    if |keys| > 0 {
      var p := keys[..|keys| - 1];
      var k := keys[|keys| - 1];
      assert forall i :: 0 <= i < |p| ==> p[i] == keys[i];
      DedupKeysFails(p, classes);
      assert DedupKeys(keys, classes).Ok? <==>
        DedupKeys(p, classes).Ok? && DedupClass(classes.entries[k], classes).Ok?;
    }
  }

  /** The second pass succeeds exactly when no field search reaches a base that is not
      registered. */
  lemma DedupSucceeds(classes: Classes)
    requires Valid(classes)
    ensures DedupAll(classes).Ok? <==>
      forall k, i :: k in classes.entries && 0 <= i < |classes.entries[k].allfields| ==>
        FoundInParents(classes.entries[k].allfields[i].name, classes.entries[k].bases, classes).Ok?
  {
    DedupKeysFails(classes.keys, classes);
    if !DedupAll(classes).Ok? {
      var i :| 0 <= i < |classes.keys| && DedupClass(classes.entries[classes.keys[i]], classes).Err?;
      var k := classes.keys[i];
      assert !OwnFields(classes.entries[k].allfields, classes.entries[k].bases, classes).Ok?;
    }
  }

  /** After the second pass every class emits its old fields followed by those of its
      fields that no registered base class has, in their order. */
  lemma DedupFields(classes: Classes, k: string)
    requires Valid(classes) && DedupAll(classes).Ok? && k in classes.entries
    ensures var cd := classes.entries[k];
      DedupAll(classes).value.entries[k] ==
        cd.(fields := cd.fields + Filter(NotInherited(cd.bases, classes), cd.allfields))
  {
    DedupKeysEntries(classes.keys, classes, k);
    OwnFieldsFilter(classes.entries[k].allfields, classes.entries[k].bases, classes);
  }

  /** Each class of `finished` is the class of `stripped` emitting exactly those of its
      fields that no remaining direct base has, in order. */
  ghost predicate EmitsOwnFields(stripped: Classes, finished: Classes)
  {
    forall k :: k in stripped.entries ==>
      k in finished.entries &&
      finished.entries[k] ==
        stripped.entries[k].(fields := Filter(NotInherited(stripped.entries[k].bases, stripped), stripped.entries[k].allfields))
  }

  /** One class that emitted nothing before the two passes emits exactly its own fields
      after them. */
  lemma FinishedFieldIsOwn(classes: Classes, k: string)
    requires Valid(classes) && NoOwnFields(classes) && DedupAll(StripAll(classes)).Ok?
    requires k in StripAll(classes).entries
    ensures var stripped := StripAll(classes);
      k in DedupAll(stripped).value.entries &&
      DedupAll(stripped).value.entries[k] ==
        stripped.entries[k].(fields := Filter(NotInherited(stripped.entries[k].bases, stripped), stripped.entries[k].allfields))
  {
    var stripped := StripAll(classes);
    var cd := stripped.entries[k];
    var own := Filter(NotInherited(cd.bases, stripped), cd.allfields);
    StripSpec(classes, k);
    assert cd.fields == classes.entries[k].fields == [];
    DedupFields(stripped, k);
    assert DedupAll(stripped).value.entries[k] == cd.(fields := [] + own);
    assert [] + own == own;
  }

  /** Classes that emit nothing yet, as `parse` leaves them, come out of both passes
      emitting exactly their own fields. */
  lemma FinishedFieldsAreOwn(classes: Classes)
    requires Valid(classes) && NoOwnFields(classes) && DedupAll(StripAll(classes)).Ok?
    ensures EmitsOwnFields(StripAll(classes), DedupAll(StripAll(classes)).value)
  {
    forall k | k in StripAll(classes).entries
      ensures k in DedupAll(StripAll(classes)).value.entries
      ensures DedupAll(StripAll(classes)).value.entries[k] ==
        StripAll(classes).entries[k].(fields := Filter(NotInherited(StripAll(classes).entries[k].bases, StripAll(classes)), StripAll(classes).entries[k].allfields))
    {
      FinishedFieldIsOwn(classes, k);
    }
  }

  /** For a fresh generator, parsing the items and running both passes leaves every class
      emitting exactly the fields of its own that no remaining direct base has. */
  lemma ParsedFieldsAreOwn(items: seq<Value>, shortname: string -> string)
    requires ParseItems(items, Empty(), Empty(), shortname).Ok?
    requires DedupAll(StripAll(ParseItems(items, Empty(), Empty(), shortname).value.0)).Ok?
    ensures var parsed := ParseItems(items, Empty(), Empty(), shortname).value.0;
      EmitsOwnFields(StripAll(parsed), DedupAll(StripAll(parsed)).value)
  {
    ParseItemsNoOwn(items, Empty(), Empty(), shortname);
    FinishedFieldsAreOwn(ParseItems(items, Empty(), Empty(), shortname).value.0);
  }

  /** Two registries holding the same classes with the same `allfields`; what they emit
      may differ. */
  ghost predicate SameAllfields(c1: Classes, c2: Classes)
  {
    c1.entries.Keys == c2.entries.Keys &&
    forall k :: k in c1.entries ==> c1.entries[k].allfields == c2.entries[k].allfields
  }

  /** The search only looks at `allfields`. */
  lemma {:induction false} FoundInParentsSame(name: string, bases: seq<QualifiedName>, c1: Classes, c2: Classes)
    requires SameAllfields(c1, c2)
    ensures FoundInParents(name, bases, c1) == FoundInParents(name, bases, c2)
    decreases |bases|
  {
    if |bases| > 0 {
      FoundInParentsSame(name, bases[1..], c1, c2);
    }
  }

  lemma {:induction false} OwnFieldsSame(fs: seq<FieldDefinition>, bases: seq<QualifiedName>, c1: Classes, c2: Classes)
    requires SameAllfields(c1, c2)
    ensures OwnFields(fs, bases, c1) == OwnFields(fs, bases, c2)
    decreases |fs|
  {
    if |fs| > 0 {
      OwnFieldsSame(fs[..|fs| - 1], bases, c1, c2);
      FoundInParentsSame(fs[|fs| - 1].name, bases, c1, c2);
    }
  }

  /** The second pass changes only what the classes emit. */
  lemma {:induction false} DedupKeysKeepsAllfields(keys: seq<string>, classes: Classes)
    requires Valid(classes) && forall i :: 0 <= i < |keys| ==> keys[i] in classes.entries
    requires DedupKeys(keys, classes).Ok?
    ensures SameAllfields(DedupKeys(keys, classes).value, classes)
    decreases |keys|
  {
    if |keys| > 0 {
      DedupKeysKeepsAllfields(keys[..|keys| - 1], classes);
    }
  }

  /** One step of the second pass, as the generator takes it: the class at position `i`
      is read from the registry the earlier steps left, and its own fields are searched
      for in that registry. */
  lemma DedupKeysStep(keys: seq<string>, classes: Classes, cur: Classes, i: nat)
    requires Valid(classes) && keys == classes.keys && i < |keys|
    requires DedupKeys(keys[..i], classes) == Ok(cur)
    ensures keys[i] in cur.entries && cur.entries[keys[i]] == classes.entries[keys[i]]
    ensures var cd := cur.entries[keys[i]];
      OwnFields(cd.allfields, cd.bases, cur) == OwnFields(cd.allfields, cd.bases, classes)
  {
    var k := keys[i];
    assert k !in keys[..i];
    DedupKeysEntries(keys[..i], classes, k);
    DedupKeysKeepsAllfields(keys[..i], classes);
    var cd := cur.entries[k];
    OwnFieldsSame(cd.allfields, cd.bases, cur, classes);
  }

  /** A step that succeeds extends the pass by one class. */
  lemma DedupKeysNext(keys: seq<string>, classes: Classes, cur: Classes, i: nat, own: seq<FieldDefinition>)
    requires Valid(classes) && keys == classes.keys && i < |keys|
    requires DedupKeys(keys[..i], classes) == Ok(cur)
    requires var cd := classes.entries[keys[i]]; OwnFields(cd.allfields, cd.bases, classes) == Ok(own)
    ensures var cd := classes.entries[keys[i]];
      DedupKeys(keys[..i + 1], classes) == Ok(Put(cur, keys[i], cd.(fields := cd.fields + own)))
  {
    var q := keys[..i + 1];
    assert q[..i] == keys[..i];
    var cd := classes.entries[keys[i]];
    assert DedupClass(cd, classes) == Ok(cd.(fields := cd.fields + own));
  }

  /** A step that fails makes the whole pass fail with its exception. */
  lemma DedupKeysStepFails(classes: Classes, i: nat)
    requires Valid(classes) && i < |classes.keys|
    requires var cd := classes.entries[classes.keys[i]]; OwnFields(cd.allfields, cd.bases, classes).Err?
    ensures DedupAll(classes) == Err(KeyError)
  {
    DedupKeysFails(classes.keys, classes);
    assert DedupClass(classes.entries[classes.keys[i]], classes).Err?;
  }

  /** Running the second pass again succeeds and appends the same fields a second time:
      the pass reads `allfields` and appends to `fields` without looking at what is
      already there. */
  lemma DedupTwiceAppendsAgain(classes: Classes, k: string)
    requires Valid(classes) && DedupAll(classes).Ok? && k in classes.entries
    ensures var once := DedupAll(classes).value;
      var cd := classes.entries[k];
      var own := Filter(NotInherited(cd.bases, classes), cd.allfields);
      DedupAll(once).Ok? &&
      once.entries[k].fields == cd.fields + own &&
      DedupAll(once).value.entries[k].fields == cd.fields + own + own
  {
    var once := DedupAll(classes).value;
    DedupOnceKeepsSearch(classes);
    DedupKeysFails(once.keys, once);
    DedupFields(classes, k);
    var cd := classes.entries[k];
    DedupKeysEntries(once.keys, once, k);
    OwnFieldsSame(cd.allfields, cd.bases, once, classes);
    OwnFieldsFilter(cd.allfields, cd.bases, classes);
  }

  /** After one pass every class searches exactly as it did before it. */
  lemma DedupOnceKeepsSearch(classes: Classes)
    requires Valid(classes) && DedupAll(classes).Ok?
    ensures var once := DedupAll(classes).value;
      forall i :: 0 <= i < |once.keys| ==>
        var k := once.keys[i];
        k in classes.entries && once.entries[k].allfields == classes.entries[k].allfields &&
        once.entries[k].bases == classes.entries[k].bases &&
        DedupClass(once.entries[k], once).Ok?
  {
    var once := DedupAll(classes).value;
    DedupKeysFails(classes.keys, classes);
    DedupKeysKeepsAllfields(classes.keys, classes);
    forall i | 0 <= i < |once.keys|
      ensures var k := once.keys[i];
        k in classes.entries && once.entries[k].allfields == classes.entries[k].allfields &&
        once.entries[k].bases == classes.entries[k].bases &&
        DedupClass(once.entries[k], once).Ok?
    {
      var k := once.keys[i];
      DedupKeysEntries(classes.keys, classes, k);
      var cd := classes.entries[k];
      OwnFieldsSame(cd.allfields, cd.bases, once, classes);
    }
  }

  /** A field that no base has is kept and a field that some base has is dropped, and
      what is kept is in the order of `allfields`. */
  lemma OwnFieldsMembership(fs: seq<FieldDefinition>, bases: seq<QualifiedName>, classes: Classes)
    requires OwnFields(fs, bases, classes).Ok?
    ensures var own := OwnFields(fs, bases, classes).value;
      IsSubsequence(own, fs) &&
      (forall i :: 0 <= i < |fs| && !Inherited(fs[i].name, bases, classes) ==> fs[i] in own) &&
      (forall f :: f in own ==> !Inherited(f.name, bases, classes))
  {
    OwnFieldsFilter(fs, bases, classes);
    FilterIsSubsequence(NotInherited(bases, classes), fs);
  }

  /** The forward declaration of one class. */
  function FwdText(): ClassDefinition -> seq<string>
  {
    (c: ClassDefinition) => [c.FwdDeclaration("", Ind)]
  }

  /** The text of one enum, one class definition and one class implementation. */
  function EnumText(): EnumDefinition -> seq<string>
  {
    (e: EnumDefinition) => e.DefinitionChunks(Ind)
  }

  function ClassText(): ClassDefinition -> seq<string>
  {
    (c: ClassDefinition) => c.DefinitionChunks("", Ind)
  }

  function ImplText(): ClassDefinition -> seq<string>
  {
    (c: ClassDefinition) => c.ImplChunks("", Ind)
  }

  /** What `epilogue` writes: the fixed header, the forward declarations of the classes as
      parsed, the enums, then the definitions and the implementations of the classes as the
      two passes left them, then the fixed closing templates. */
  function EpilogueChunks(parsed: Classes, finished: Classes, enums: Enums, preamble: string, closing: string): seq<string>
    requires Valid(parsed) && Valid(finished) && Valid(enums)
  {
    [preamble] + FlatMap(FwdText(), Ordered(parsed)) + FlatMap(EnumText(), Ordered(enums)) +
    FlatMap(ClassText(), Ordered(finished)) + FlatMap(ImplText(), Ordered(finished)) + [closing]
  }

  /** Every class, abstract or not, has its `toYaml` declared in its definition and
      defined in its implementation, and each of them is written by `epilogue`. */
  lemma EveryClassHasToYaml(parsed: Classes, finished: Classes, enums: Enums, preamble: string, closing: string, k: string)
    requires Valid(parsed) && Valid(finished) && Valid(enums) && k in finished.entries
    ensures var c := finished.entries[k];
      var out := EpilogueChunks(parsed, finished, enums, preamble, closing);
      c.ToYamlDeclaration("", Ind) in out && c.ToYamlHeader("", Ind) in out
  {
    var cds := Ordered(finished);
    var i :| 0 <= i < |finished.keys| && finished.keys[i] == k;
    FlatMapAt(ClassText(), cds, i);
    FlatMapAt(ImplText(), cds, i);
    ToYamlAlwaysEmitted(cds[i]);
  }

  /** Three classes `ns#A`, `ns#B` extending `A` and `ns#D` extending `B`, with `A`
      declaring `x` and `D` declaring `y`; each has every field it inherits in its
      `allfields` and none yet in `fields`. */
  function Chain(x: FieldDefinition, y: FieldDefinition): Classes
  {
    Registry(["ns#A", "ns#B", "ns#D"], map[
      "ns#A" := ClassDefinition("ns#A", "ns", "A", [], [], [x], [], false),
      "ns#B" := ClassDefinition("ns#B", "ns", "B", [QualifiedName("ns", "A")], [], [x], [], false),
      "ns#D" := ClassDefinition("ns#D", "ns", "D", [QualifiedName("ns", "B")], [], [x, y], [], false)])
  }

  lemma ChainParents(x: FieldDefinition, y: FieldDefinition)
    requires x.name != y.name
    ensures Valid(Chain(x, y))
    ensures Inherited(x.name, [QualifiedName("ns", "A")], Chain(x, y))
    ensures Inherited(x.name, [QualifiedName("ns", "B")], Chain(x, y))
    ensures !Inherited(y.name, [QualifiedName("ns", "B")], Chain(x, y))
  {
    var classes := Chain(x, y);
    assert ParentKey(QualifiedName("ns", "A")) == "ns#A" by {
      var k := ParentKey(QualifiedName("ns", "A"));
      assert |k| == 4 && k[0] == 'n' && k[1] == 's' && k[2] == '#' && k[3] == 'A';
    }
    assert ParentKey(QualifiedName("ns", "B")) == "ns#B" by {
      var k := ParentKey(QualifiedName("ns", "B"));
      assert |k| == 4 && k[0] == 'n' && k[1] == 's' && k[2] == '#' && k[3] == 'B';
    }
    var ba := [QualifiedName("ns", "A")];
    var bb := [QualifiedName("ns", "B")];
    assert ParentKey(ba[0]) in classes.entries && classes.entries[ParentKey(ba[0])].allfields[0] == x;
    assert HasField(classes.entries[ParentKey(ba[0])].allfields, x.name);
    assert ParentKey(bb[0]) in classes.entries && classes.entries[ParentKey(bb[0])].allfields[0] == x;
    assert HasField(classes.entries[ParentKey(bb[0])].allfields, x.name);
  }

  lemma ChainOwnFields(x: FieldDefinition, y: FieldDefinition)
    requires x.name != y.name
    ensures Valid(Chain(x, y))
    ensures Filter(NotInherited([], Chain(x, y)), [x]) == [x]
    ensures Filter(NotInherited([QualifiedName("ns", "A")], Chain(x, y)), [x]) == []
    ensures Filter(NotInherited([QualifiedName("ns", "B")], Chain(x, y)), [x, y]) == [y]
  {
    ChainParents(x, y);
    assert [x, y][1..] == [y];
  }

  lemma ChainSucceeds(x: FieldDefinition, y: FieldDefinition)
    ensures Valid(Chain(x, y)) && DedupAll(Chain(x, y)).Ok?
  {
    var classes := Chain(x, y);
    assert ParentKey(QualifiedName("ns", "A")) == "ns#A" by {
      var k := ParentKey(QualifiedName("ns", "A"));
      assert |k| == 4 && k[0] == 'n' && k[1] == 's' && k[2] == '#' && k[3] == 'A';
    }
    assert ParentKey(QualifiedName("ns", "B")) == "ns#B" by {
      var k := ParentKey(QualifiedName("ns", "B"));
      assert |k| == 4 && k[0] == 'n' && k[1] == 's' && k[2] == '#' && k[3] == 'B';
    }
    DedupSucceeds(classes);
  }

  /** In the chain `A`, `B extends A`, `D extends B` the second pass leaves `A` with
      `x`, `B` with nothing of its own and `D` with `y` only. */
  lemma InheritanceChain(x: FieldDefinition, y: FieldDefinition)
    requires x.name != y.name
    ensures Valid(Chain(x, y)) && DedupAll(Chain(x, y)).Ok?
    ensures var done := DedupAll(Chain(x, y)).value.entries;
      done["ns#A"].fields == [x] && done["ns#B"].fields == [] && done["ns#D"].fields == [y]
  {
    var classes := Chain(x, y);
    ChainSucceeds(x, y);
    ChainOwnFields(x, y);
    DedupFields(classes, "ns#A");
    DedupFields(classes, "ns#B");
    DedupFields(classes, "ns#D");
  }
}
