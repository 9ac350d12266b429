/**
 Rendering the source's records as JSON objects: a fixed list of member names and
 a value for each, `None` for a member the source leaves out of the object.
 */
module Records {
  import opened Wrappers
  import opened Canonical

  ghost predicate Distinct(names: seq<string>) {
    forall i, j :: 0 <= i < j < |names| ==> names[i] != names[j]
  }

  /** Lists of names that differ in length have no name in common. */
  lemma DistinctByLength(a: seq<string>, b: seq<string>, n: nat)
    requires Distinct(a) && Distinct(b)
    requires (forall x :: x in a ==> |x| <= n) && (forall y :: y in b ==> n < |y|)
    ensures Distinct(a + b)
  {
  }

  function Fields(names: seq<string>, values: seq<Option<Json>>): map<string, Json>
    requires |names| == |values|
  {
    if names == [] then map[]
    else
      var rest := Fields(names[1..], values[1..]);
      match values[0]
      case Some(v) => rest[names[0] := v]
      case None => rest
  }

  lemma {:induction false} FieldsLookup(names: seq<string>, values: seq<Option<Json>>, i: nat)
    requires |names| == |values| && Distinct(names) && i < |names|
    ensures names[i] in Fields(names, values) <==> values[i].Some?
    ensures values[i].Some? ==> Fields(names, values)[names[i]] == values[i].value
    ensures forall k :: k in Fields(names, values) ==> k in names
    decreases |names|
  {
    FieldNames(names, values);
    FieldNames(names[1..], values[1..]);
    if i > 0 { FieldsLookup(names[1..], values[1..], i - 1); }
  }

  lemma {:induction false} FieldNames(names: seq<string>, values: seq<Option<Json>>)
    requires |names| == |values|
    ensures forall k :: k in Fields(names, values) ==> k in names
  {
    if names != [] { FieldNames(names[1..], values[1..]); }
  }

  /** An object determines every listed member, also which ones it leaves out. */
  lemma FieldsInjective(names: seq<string>, a: seq<Option<Json>>, b: seq<Option<Json>>)
    requires |names| == |a| == |b| && Distinct(names)
    requires Fields(names, a) == Fields(names, b)
    ensures a == b
  {
    forall i | 0 <= i < |names| ensures a[i] == b[i] {
      FieldsLookup(names, a, i);
      FieldsLookup(names, b, i);
    }
  }

  // ---- common member values ----

  function Strings(s: seq<string>): Json {
    Arr(seq(|s|, i requires 0 <= i < |s| => Str(s[i])))
  }

  lemma StringsInjective(a: seq<string>, b: seq<string>)
    requires Strings(a) == Strings(b)
    ensures a == b
  {
    assert |a| == |Strings(a).items| == |b|;
    forall i | 0 <= i < |a| ensures a[i] == b[i] { assert Strings(a).items[i] == Strings(b).items[i]; }
  }

  function OptStr(s: Option<string>): Json {
    match s
    case Some(t) => Str(t)
    case None => Null
  }

  function OptStrings(s: Option<seq<string>>): Json {
    match s
    case Some(t) => Strings(t)
    case None => Null
  }

  lemma OptStringsInjective(a: Option<seq<string>>, b: Option<seq<string>>)
    requires OptStrings(a) == OptStrings(b)
    ensures a == b
  {
    if a.Some? && b.Some? { StringsInjective(a.value, b.value); }
  }
}
