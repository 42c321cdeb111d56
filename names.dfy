/** Name handling: C++-safe identifiers and the splitting of `base#fragment` identifiers. */
module Names {
  import opened Values
  import opened Strings

  /** Words that cannot be used as C++ identifiers in the generated code. */
  const Keywords: seq<string> :=
    ["class", "enum", "int", "long", "float", "double", "default", "stdin", "stdout", "stderr"]

  /** A namespaced name: the part before and the part after the `#`. */
  datatype QualifiedName = QualifiedName(namespace: string, classname: string)

  /** `replaceKeywords`: a reserved word gets a trailing underscore. */
  function ReplaceKeywords(s: string): (r: string)
    ensures r !in Keywords
    ensures s <= r
    ensures |r| == |s| + (if s in Keywords then 1 else 0)
  {
    if s in Keywords then
      assert forall k :: k in Keywords ==> |k| > 0 && k[|k| - 1] != '_';
      assert (s + "_")[|s|] == '_';
      s + "_"
    else s
  }

  predicate IsAlnum(c: char)
  {
    'a' <= c <= 'z' || 'A' <= c <= 'Z' || '0' <= c <= '9'
  }

  /** The per-character effect of substituting `_` for every match of `[^a-zA-Z0-9]`. */
  function SafeChar(c: char): char
  {
    if IsAlnum(c) then c else '_'
  }

  function Sanitise(s: string): (r: string)
  {
    seq(|s|, i requires 0 <= i < |s| => SafeChar(s[i]))
  }

  predicate IsSafe(s: string)
  {
    forall i :: 0 <= i < |s| ==> IsAlnum(s[i]) || s[i] == '_'
  }

  /** `safename`: every character outside `[a-zA-Z0-9]` becomes `_`, then reserved words
      are renamed. */
  function Safename(name: string): string
  {
    ReplaceKeywords(Sanitise(name))
  }

  /** Only alphanumerics and `_` remain, each character keeps its place, the length grows
      by one exactly when the sanitised name is a keyword, and the result is no keyword. */
  lemma SafenameSpec(name: string)
    ensures var r := Safename(name);
      IsSafe(r) && r !in Keywords &&
      |r| == |name| + (if Sanitise(name) in Keywords then 1 else 0) &&
      (forall i :: 0 <= i < |name| ==> r[i] == (if IsAlnum(name[i]) then name[i] else '_')) &&
      (|r| > |name| ==> r[|name|] == '_')
  {
    var r := Safename(name);
    assert Sanitise(name) <= r;
  }

  /** Sanitising something already safe changes nothing, so `safename` is idempotent. */
  lemma SafenameIdempotent(name: string)
    ensures Safename(Safename(name)) == Safename(name)
  {
    var r := Safename(name);
    SafenameSpec(name);
    assert Sanitise(r) == r;
  }

  /** A safe name never contains `::`, `#`, `/`, `,` or a quote. */
  lemma SafeHasNoPunctuation(s: string)
    requires IsSafe(s)
    ensures ':' !in s && '#' !in s && '/' !in s && ',' !in s && '"' !in s
  {
  }

  /** `safename2`: the namespaced C++ name `ns::cls`. */
  function Safename2(n: QualifiedName): string
  {
    Safename(n.namespace) + "::" + Safename(n.classname)
  }

  /** `split_name`: succeeds exactly when there is one `#`, and then cuts there. */
  function SplitName(s: string): (r: Result<(string, string)>)
    ensures r.Ok? <==> Count(s, '#') == 1
    ensures r.Err? ==> r.error == ValueError
    ensures r.Ok? ==> r.value.0 + "#" + r.value.1 == s
    ensures r.Ok? ==> '#' !in r.value.0 && '#' !in r.value.1
  {
    var t := Split(s, '#');
    SplitLength(s, '#');
    if |t| != 2 then Err(ValueError)
    else
      JoinSplit(s, '#');
      SplitPiecesFree(s, '#');
      assert Join(t, "#") == t[0] + "#" + t[1];
      Ok((t[0], t[1]))
  }

  /** The pieces of a split name are the unique ones: joining two `#`-free parts and
      splitting again gives them back. */
  lemma SplitNameOfJoin(a: string, b: string)
    requires '#' !in a && '#' !in b
    ensures SplitName(a + "#" + b) == Ok((a, b))
  {
    SplitJoin([a, b], '#');
    assert Join([a, b], "#") == a + "#" + b;
  }

  /** `split_field`: `ns#Class/field`; one `#`, then one `/` in the fragment. */
  function SplitField(s: string): (r: Result<(string, string, string)>)
    ensures r.Ok? <==> Count(s, '#') == 1 && Count(SplitName(s).value.1, '/') == 1
    ensures r.Err? ==> r.error == ValueError
    ensures r.Ok? ==> r.value.0 + "#" + r.value.1 + "/" + r.value.2 == s
    ensures r.Ok? ==> '#' !in r.value.0 + r.value.1 + r.value.2
    ensures r.Ok? ==> '/' !in r.value.1 && '/' !in r.value.2
  {
    match SplitName(s)
    case Err(e) => Err(e)
    case Ok((ns, field)) =>
      var t := Split(field, '/');
      SplitLength(field, '/');
      if |t| != 2 then Err(ValueError)
      else
        JoinSplit(field, '/');
        SplitPiecesFree(field, '/');
        assert Join(t, "/") == t[0] + "/" + t[1];
        assert ns + "#" + t[0] + "/" + t[1] == ns + "#" + (t[0] + "/" + t[1]);
        assert forall x :: x in t[0] || x in t[1] ==> x in field;
        Ok((ns, t[0], t[1]))
  }

  /** A field name built from `#`-free parts, the last two also `/`-free, splits back
      into them. */
  lemma SplitFieldOfJoin(ns: string, cls: string, f: string)
    requires '#' !in ns && '#' !in cls && '#' !in f && '/' !in cls && '/' !in f
    ensures SplitField(ns + "#" + cls + "/" + f) == Ok((ns, cls, f))
  {
    var frag := cls + "/" + f;
    assert ns + "#" + cls + "/" + f == ns + "#" + frag;
    assert '#' !in frag;
    SplitNameOfJoin(ns, frag);
    SplitJoin([cls, f], '/');
    assert Join([cls, f], "/") == frag;
  }
}
