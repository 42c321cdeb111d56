/** JSON-like schema values and the few Python operators the generator applies to them. */
module Values {

  /** A parsed schema value: a string, a boolean, a list, or a dictionary with string keys.
      A dictionary is an association list in insertion order; its keys are unique. */
  datatype Value =
    | Str(s: string)
    | Bool(b: bool)
    | List(items: seq<Value>)
    | Dict(members: seq<Member>)

  datatype Member = Member(key: string, val: Value)

  /** The Python exceptions the generator can raise (AttributeError is reported as TypeError). */
  datatype Error = ValueError | KeyError | TypeError | SchemaException

  datatype Result<T> = Ok(value: T) | Err(error: Error)

  datatype Option<T> = None | Some(value: T)

  /** A size measure used to show that recursion over nested values terminates. */
  function Size(v: Value): (n: nat)
    ensures n >= 1
  {
    match v
    case Str(_) => 1
    case Bool(_) => 1
    case List(l) => 1 + SizeSeq(l)
    case Dict(ms) => 1 + SizeMembers(ms)
  }

  function SizeSeq(l: seq<Value>): nat
  {
    if |l| == 0 then 0 else SizeSeq(l[..|l| - 1]) + Size(l[|l| - 1]) + 1
  }

  function SizeMembers(ms: seq<Member>): nat
  {
    if |ms| == 0 then 0 else Size(ms[0].val) + 1 + SizeMembers(ms[1..])
  }

  lemma {:induction false} SizeSeqElement(l: seq<Value>, i: nat)
    requires i < |l|
    ensures Size(l[i]) < SizeSeq(l)
  {
    if i < |l| - 1 {
      SizeSeqElement(l[..|l| - 1], i);
    }
  }

  lemma {:induction false} SizeSeqPrefix(l: seq<Value>, n: nat)
    requires n <= |l|
    ensures SizeSeq(l[..n]) <= SizeSeq(l)
  {
    if n < |l| {
      assert l[..|l| - 1][..n] == l[..n];
      SizeSeqPrefix(l[..|l| - 1], n);
    } else {
      assert l[..n] == l;
    }
  }

  /** `d[k]` for a dictionary `d`, if the key is present (first match). */
  function Lookup(ms: seq<Member>, k: string): (r: Option<Value>)
    ensures r.Some? ==> Size(r.value) < SizeMembers(ms)
    ensures r.Some? <==> exists i :: 0 <= i < |ms| && ms[i].key == k
  {
    if |ms| == 0 then None
    else if ms[0].key == k then Some(ms[0].val)
    else
      var r := Lookup(ms[1..], k);
      assert forall i :: 1 <= i < |ms| ==> ms[i] == ms[1..][i - 1];
      r
  }

  /** The first member answers for its key and passes every other key on. */
  lemma LookupCons(m: Member, ms: seq<Member>, k: string)
    ensures Lookup([m] + ms, k) == if m.key == k then Some(m.val) else Lookup(ms, k)
  {
    assert ([m] + ms)[1..] == ms;
  }

  /** The value under key `k` when `v` is a dictionary holding it. */
  function Get(v: Value, k: string): (r: Option<Value>)
    ensures r.Some? ==> v.Dict? && Size(r.value) < Size(v)
  {
    if v.Dict? then Lookup(v.members, k) else None
  }

  /** Python's `v[k]` with a string key: a dictionary lookup; KeyError when the key is
      absent; TypeError on a list, string or boolean. */
  function Index(v: Value, k: string): (r: Result<Value>)
    ensures r.Ok? <==> Get(v, k).Some?
    ensures r.Ok? ==> r.value == Get(v, k).value && Size(r.value) < Size(v)
    ensures r.Err? ==> r.error == (if v.Dict? then KeyError else TypeError)
  {
    match v
    case Dict(ms) =>
      (match Lookup(ms, k)
       case Some(x) => Ok(x)
       case None => Err(KeyError))
    case _ => Err(TypeError)
  }

  /** `needle` occurs in `hay` as a contiguous substring. */
  predicate IsInfix(needle: string, hay: string)
    decreases |hay|
  {
    needle <= hay || (|hay| > 0 && IsInfix(needle, hay[1..]))
  }

  /** Python's `k in v` with a string `k`: key membership for a dictionary, element
      membership for a list, substring test for a string, TypeError for a boolean. */
  function In(k: string, v: Value): (r: Result<bool>)
    ensures v.Dict? ==> r == Ok(Get(v, k).Some?)
    ensures r.Err? <==> v.Bool?
  {
    match v
    case Dict(ms) => Ok(Lookup(ms, k).Some?)
    case List(l) => Ok(Str(k) in l)
    case Str(s) => Ok(IsInfix(k, s))
    case Bool(_) => Err(TypeError)
  }

  /** Python's `v.get(k, default)` on a dictionary. */
  function GetOr(v: Value, k: string, default: Value): (r: Value)
    ensures Get(v, k).Some? ==> r == Get(v, k).value
    ensures Get(v, k).None? ==> r == default
  {
    match Get(v, k)
    case Some(x) => x
    case None => default
  }

  /** What `for x in v` iterates over: the elements of a list, the one-character strings
      of a string, the keys of a dictionary; a boolean is not iterable. */
  function Iterate(v: Value): (r: Result<seq<Value>>)
    ensures r.Err? <==> v.Bool?
    ensures v.List? ==> r == Ok(v.items)
    ensures v.Str? ==> r.Ok? && |r.value| == |v.s| &&
                       forall i :: 0 <= i < |v.s| ==> r.value[i] == Str([v.s[i]])
    ensures v.Dict? ==> r.Ok? && |r.value| == |v.members| &&
                        forall i :: 0 <= i < |v.members| ==> r.value[i] == Str(v.members[i].key)
  {
    match v
    case List(l) => Ok(l)
    case Str(s) => Ok(seq(|s|, i requires 0 <= i < |s| => Str([s[i]])))
    case Dict(ms) => Ok(seq(|ms|, i requires 0 <= i < |ms| => Str(ms[i].key)))
    case Bool(_) => Err(TypeError)
  }

  /** `aslist`: a list stays as it is, anything else becomes a one-element list. */
  function AsList(v: Value): (r: seq<Value>)
    ensures v.List? ==> r == v.items
    ensures !v.List? ==> r == [v]
  {
    if v.List? then v.items else [v]
  }

  /** Python truthiness of a value (`if v:`). */
  predicate Truthy(v: Value)
  {
    match v
    case Str(s) => s != ""
    case Bool(b) => b
    case List(l) => l != []
    case Dict(ms) => ms != []
  }
}
