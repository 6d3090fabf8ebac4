/** The lines of one table: lookups and optional lines. */
module TomlFields {
  import opened Wrappers
  import opened TomlText

  function OptionalValue(path: seq<Text>, v: Option<Value>): seq<Field> {
    match v case Some(x) => [Field(path, x)] case None => []
  }

  function StringValue(t: Option<Text>): Option<Value> {
    match t case Some(s) => Some(String(s)) case None => None
  }

  function OptionalField(path: seq<Text>, t: Option<Text>): seq<Field> {
    OptionalValue(path, StringValue(t))
  }

  function Lookup(fs: seq<Field>, path: seq<Text>): Option<Value> {
    if fs == [] then None else if fs[0].path == path then Some(fs[0].value) else Lookup(fs[1..], path)
  }

  /** An optional string field: absent, present, or of the wrong type. */
  function StringField(fs: seq<Field>, path: seq<Text>): Option<Option<Text>> {
    match Lookup(fs, path)
    case None => Some(None)
    case Some(String(s)) => Some(Some(s))
    case Some(_) => None
  }

  /** An optional field of an unsigned type that holds numbers below `limit`. */
  function NumberField(fs: seq<Field>, path: seq<Text>, limit: nat): Option<Option<nat>> {
    match Lookup(fs, path)
    case None => Some(None)
    case Some(Number(n)) => if 0 <= n < limit then Some(Some(n)) else None
    case Some(_) => None
  }

  predicate DistinctPaths(fs: seq<Field>) {
    forall i, j :: 0 <= i < j < |fs| ==> fs[i].path != fs[j].path
  }

  function Either(a: Option<Value>, b: Option<Value>): Option<Value> {
    if a.Some? then a else b
  }

  lemma {:induction false} LookupAppend(a: seq<Field>, b: seq<Field>, path: seq<Text>)
    ensures Lookup(a + b, path) == Either(Lookup(a, path), Lookup(b, path))
  {
    if a == [] {
      assert a + b == b;
    } else {
      assert (a + b)[1..] == a[1..] + b;
      LookupAppend(a[1..], b, path);
    }
  }

  lemma {:induction false} LookupAbsent(fs: seq<Field>, path: seq<Text>)
    requires forall i :: 0 <= i < |fs| ==> fs[i].path != path
    ensures Lookup(fs, path) == None
  {
    if fs != [] {
      LookupAbsent(fs[1..], path);
    }
  }

  lemma LookupOptional(p: seq<Text>, v: Option<Value>, path: seq<Text>)
    ensures Lookup(OptionalValue(p, v), path) == if p == path then v else None
  {
  }

  lemma LookupPair(f: Field, g: Field, path: seq<Text>)
    ensures Lookup([f, g], path) == if f.path == path then Some(f.value) else if g.path == path then Some(g.value) else None
  {
    assert [f, g][1..] == [g] && [g][1..] == [];
    assert Lookup([g], path) == if g.path == path then Some(g.value) else Lookup([], path);
  }

  lemma DistinctAppend(a: seq<Field>, b: seq<Field>)
    requires DistinctPaths(a) && DistinctPaths(b)
    requires forall i, j :: 0 <= i < |a| && 0 <= j < |b| ==> a[i].path != b[j].path
    ensures DistinctPaths(a + b)
  {
    var c := a + b;
    forall i, j | 0 <= i < j < |c| ensures c[i].path != c[j].path {
      if j < |a| {
        assert c[i] == a[i] && c[j] == a[j];
      } else {
        assert c[j] == b[j - |a|];
        assert if i < |a| then c[i] == a[i] else c[i] == b[i - |a|];
      }
    }
  }

  // ---- printing several lines ----

  lemma {:induction false} FieldsAppend(a: seq<Field>, b: seq<Field>)
    requires Pathed(a) && Pathed(b)
    ensures Pathed(a + b) && PrintFields(a + b) == PrintFields(a) + PrintFields(b)
  {
    hide PrintField;
    if a == [] {
      assert a + b == b;
    } else {
      assert (a + b)[1..] == a[1..] + b && (a + b)[0] == a[0];
      assert Pathed(a[1..]);
      FieldsAppend(a[1..], b);
      var f, fa, fb := PrintField(a[0]), PrintFields(a[1..]), PrintFields(b);
      assert f + (fa + fb) == f + fa + fb;
    }
  }

  lemma OneField(f: Field)
    requires f.path != []
    ensures PrintFields([f]) == PrintField(f)
  {
    assert [f][1..] == [] && PrintField(f) + [] == PrintField(f);
  }

  lemma TwoFields(f: Field, g: Field)
    requires f.path != [] && g.path != []
    ensures PrintFields([f, g]) == PrintField(f) + PrintField(g)
  {
    assert [f, g][1..] == [g];
    OneField(g);
  }

  /** Text without quotes and backslashes needs no escaping. */
  lemma {:induction false} PlainUnescaped(s: Text)
    requires forall i :: 0 <= i < |s| ==> s[i] != QUOTE && s[i] != BACKSLASH
    ensures EscapeEach(s) == s
  {
    if s != [] {
      PlainUnescaped(s[1..]);
      assert s == [s[0]] + s[1..];
    }
  }

  // ---- printable lines ----

  lemma FieldsPrintableAppend(a: seq<Field>, b: seq<Field>)
    ensures AllFieldsPrintable(a + b) <==> AllFieldsPrintable(a) && AllFieldsPrintable(b)
  {
    hide FieldPrintable;
    var c := a + b;
    assert forall i :: 0 <= i < |a| ==> c[i] == a[i];
    assert forall i :: 0 <= i < |b| ==> c[|a| + i] == b[i];
    if AllFieldsPrintable(c) {
      forall i | 0 <= i < |b| ensures FieldPrintable(b[i]) { assert c[|a| + i] == b[i]; }
    }
  }

  lemma OptionalPrintable(path: seq<Text>, v: Option<Value>)
    requires AllPrintable(path)
    ensures AllFieldsPrintable(OptionalValue(path, v)) <==> (v.Some? ==> ValuePrintable(v.value))
  {
    hide Printable, AllPrintable;
    if v.Some? {
      assert OptionalValue(path, v)[0] == Field(path, v.value);
    }
  }

  lemma TwoFieldsPrintable(f: Field, g: Field)
    ensures AllFieldsPrintable([f, g]) <==> FieldPrintable(f) && FieldPrintable(g)
  {
    assert [f, g][0] == f && [f, g][1] == g;
  }

  lemma PrintablePath1(a: Text)
    ensures AllPrintable([a]) <==> Printable(a)
  {
    assert [a][0] == a;
  }

  lemma PrintablePath2(a: Text, b: Text)
    ensures AllPrintable([a, b]) <==> Printable(a) && Printable(b)
  {
    assert [a, b][0] == a && [a, b][1] == b;
  }

  lemma PrintablePath3(a: Text, b: Text, c: Text)
    ensures AllPrintable([a, b, c]) <==> Printable(a) && Printable(b) && Printable(c)
  {
    assert [a, b, c][0] == a && [a, b, c][1] == b && [a, b, c][2] == c;
  }
}
