/** Saving definitions: `serialize_definitions` and `serialize_source` of
    `crates/cache-warden-cli/src/defs.rs`. */
module PersistSave {
  import opened Wrappers
  import opened Bytes
  import opened TomlFields
  import opened TomlText
  import opened ValueMeta
  import opened Persist

  // ---- the stable sort by composed key ----

  function InsertDef(d: Definition, s: seq<Definition>): (r: seq<Definition>)
    ensures forall x :: x in r <==> x == d || x in s
  {
    if s == [] || !Less(FullKey(s[0]), FullKey(d)) then [d] + s
    else
      assert s == [s[0]] + s[1..];
      [s[0]] + InsertDef(d, s[1..])
  }

  function SortDefs(ds: seq<Definition>): (r: seq<Definition>)
    ensures forall x :: x in r <==> x in ds
  {
    if ds == [] then []
    else
      assert ds == [ds[0]] + ds[1..];
      InsertDef(ds[0], SortDefs(ds[1..]))
  }

  predicate DistinctKeys(ds: seq<Definition>) {
    forall i, j :: 0 <= i < j < |ds| ==> FullKey(ds[i]) != FullKey(ds[j])
  }

  predicate KeyOrdered(ds: seq<Definition>) {
    forall i, j :: 0 <= i < j < |ds| ==> Less(FullKey(ds[i]), FullKey(ds[j]))
  }

  predicate KeyAbsent(d: Definition, ds: seq<Definition>) {
    forall i :: 0 <= i < |ds| ==> FullKey(ds[i]) != FullKey(d)
  }

  lemma DistinctCons(d: Definition, ds: seq<Definition>)
    ensures DistinctKeys([d] + ds) <==> DistinctKeys(ds) && KeyAbsent(d, ds)
  {
    var c := [d] + ds;
    if DistinctKeys(ds) && KeyAbsent(d, ds) {
      forall i, j | 0 <= i < j < |c| ensures FullKey(c[i]) != FullKey(c[j]) {
        assert c[j] == ds[j - 1];
        if i > 0 {
          assert c[i] == ds[i - 1];
        }
      }
    }
    if DistinctKeys(c) {
      forall i, j | 0 <= i < j < |ds| ensures FullKey(ds[i]) != FullKey(ds[j]) {
        assert c[i + 1] == ds[i] && c[j + 1] == ds[j];
      }
      forall i | 0 <= i < |ds| ensures FullKey(ds[i]) != FullKey(d) {
        assert c[0] == d && c[i + 1] == ds[i];
      }
    }
  }

  lemma {:induction false} InsertDistinct(d: Definition, s: seq<Definition>)
    ensures DistinctKeys(InsertDef(d, s)) <==> DistinctKeys(s) && KeyAbsent(d, s)
  {
    hide DistinctKeys, KeyAbsent, Less;
    if s == [] || !Less(FullKey(s[0]), FullKey(d)) {
      DistinctCons(d, s);
    } else {
      var rest := s[1..];
      assert s == [s[0]] + rest;
      InsertDistinct(d, rest);
      DistinctCons(s[0], rest);
      DistinctCons(s[0], InsertDef(d, rest));
      AbsentInsert(s[0], d, rest);
      AbsentCons(d, s[0], rest);
    }
  }

  lemma AbsentCons(x: Definition, d: Definition, s: seq<Definition>)
    ensures KeyAbsent(x, [d] + s) <==> FullKey(x) != FullKey(d) && KeyAbsent(x, s)
  {
    var c := [d] + s;
    assert c[0] == d && forall i :: 0 <= i < |s| ==> c[i + 1] == s[i];
    if KeyAbsent(x, s) && FullKey(x) != FullKey(d) {
      forall i | 0 <= i < |c| ensures FullKey(c[i]) != FullKey(x) {
        if i > 0 { assert c[i] == s[i - 1]; }
      }
    }
  }

  lemma AbsentInsert(x: Definition, d: Definition, s: seq<Definition>)
    ensures KeyAbsent(x, InsertDef(d, s)) <==> FullKey(x) != FullKey(d) && KeyAbsent(x, s)
  {
    var r := InsertDef(d, s);
    assert d in r;
    if KeyAbsent(x, r) {
      forall i | 0 <= i < |s| ensures FullKey(s[i]) != FullKey(x) { assert s[i] in r; }
    }
    if FullKey(x) != FullKey(d) && KeyAbsent(x, s) {
      forall i | 0 <= i < |r| ensures FullKey(r[i]) != FullKey(x) { assert r[i] in r; }
    }
  }

  lemma {:induction false} SortDistinct(ds: seq<Definition>)
    ensures DistinctKeys(SortDefs(ds)) <==> DistinctKeys(ds)
  {
    hide DistinctKeys, KeyAbsent;
    if ds != [] {
      var rest := SortDefs(ds[1..]);
      assert ds == [ds[0]] + ds[1..];
      SortDistinct(ds[1..]);
      InsertDistinct(ds[0], rest);
      DistinctCons(ds[0], ds[1..]);
      SameAbsent(ds[0], rest, ds[1..]);
    } else {
      assert SortDefs(ds) == ds;
    }
  }

  lemma SameAbsent(x: Definition, a: seq<Definition>, b: seq<Definition>)
    requires forall d :: d in a <==> d in b
    ensures KeyAbsent(x, a) <==> KeyAbsent(x, b)
  {
    if KeyAbsent(x, a) {
      forall i | 0 <= i < |b| ensures FullKey(b[i]) != FullKey(x) { assert b[i] in a; }
    }
    if KeyAbsent(x, b) {
      forall i | 0 <= i < |a| ensures FullKey(a[i]) != FullKey(x) { assert a[i] in b; }
    }
  }

  lemma {:induction false} InsertOrdered(d: Definition, s: seq<Definition>)
    requires KeyOrdered(s) && KeyAbsent(d, s)
    ensures KeyOrdered(InsertDef(d, s))
  {
    if s == [] {
    } else if !Less(FullKey(s[0]), FullKey(d)) {
      LessTotal(FullKey(s[0]), FullKey(d));
      forall j | 0 <= j < |s| ensures Less(FullKey(d), FullKey(s[j])) {
        if j > 0 { LessTransitive(FullKey(d), FullKey(s[0]), FullKey(s[j])); }
      }
    } else {
      InsertOrdered(d, s[1..]);
      var r := InsertDef(d, s[1..]);
      forall j | 0 <= j < |r| ensures Less(FullKey(s[0]), FullKey(r[j])) {
        assert r[j] in r;
        if r[j] != d { assert r[j] in s[1..]; }
      }
    }
  }

  lemma {:induction false} SortOrdered(ds: seq<Definition>)
    requires DistinctKeys(ds)
    ensures KeyOrdered(SortDefs(ds))
  {
    if ds != [] {
      assert ds == [ds[0]] + ds[1..];
      DistinctCons(ds[0], ds[1..]);
      SortOrdered(ds[1..]);
      SameAbsent(ds[0], SortDefs(ds[1..]), ds[1..]);
      InsertOrdered(ds[0], SortDefs(ds[1..]));
    }
  }

  /** A list already in key order is left alone. */
  lemma {:induction false} SortKeepsOrdered(ds: seq<Definition>)
    requires KeyOrdered(ds)
    ensures SortDefs(ds) == ds
  {
    if ds != [] {
      SortKeepsOrdered(ds[1..]);
      assert ds == [ds[0]] + ds[1..];
      if |ds| > 1 && Less(FullKey(ds[1]), FullKey(ds[0])) {
        LessTransitive(FullKey(ds[0]), FullKey(ds[1]), FullKey(ds[0]));
        LessIrreflexive(FullKey(ds[0]));
      }
    }
  }

  // ---- the text ----

  /** The lines of one table: fields, then the metadata as it is held. */
  function Lines(d: Definition): Text {
    PrintFields(BaseFields(d)) + MetaText(d.meta)
  }

  function TablesText(ds: seq<Definition>): Text {
    if ds == [] then []
    else
      PrintHeader(NamespaceOf(ds[0]), ds[0].name)
      + (Lines(ds[0]) + if |ds| == 1 then [] else [NEWLINE] + TablesText(ds[1..]))
  }

  function Document(ds: seq<Definition>): Text {
    TablesText(SortDefs(ds))
  }

  // ---- printing it ----

  /** `serialize_source`: the lines of a source, pushed in turn. */
  method SerializeSource(s: Source) returns (out: Text)
    ensures Pathed(SourceFields(s)) && out == PrintFields(SourceFields(s))
  {
    hide PrintField;
    ghost var done: seq<Field> := [];
    out := [];
    match s {
      case Command(argv, cwd, env) =>
        out := PrintField(Field([SOURCE], String(COMMAND)));
        out := out + PrintField(Field([COMMAND, ARGV], Strings(argv)));
        TwoFields(Field([SOURCE], String(COMMAND)), Field([COMMAND, ARGV], Strings(argv)));
        done := [Field([SOURCE], String(COMMAND)), Field([COMMAND, ARGV], Strings(argv))];
        if cwd.Some? {
          OneField(Field([COMMAND, CWD], String(cwd.value)));
          out := out + PrintField(Field([COMMAND, CWD], String(cwd.value)));
        } else {
          assert out + [] == out;
        }
        FieldsAppend(done, OptionalField([COMMAND, CWD], cwd));
        done := done + OptionalField([COMMAND, CWD], cwd);
        assert done + EnvFields(env)[..0] == done;
        for i := 0 to |env|
          invariant Pathed(done + EnvFields(env)[..i]) && out == PrintFields(done + EnvFields(env)[..i])
        {
          var f := Field([COMMAND, ENV, env[i].0], String(env[i].1));
          assert done + EnvFields(env)[..i + 1] == done + EnvFields(env)[..i] + [f];
          OneField(f);
          FieldsAppend(done + EnvFields(env)[..i], [f]);
          out := out + PrintField(f);
        }
        assert done + EnvFields(env)[..|env|] == SourceFields(s);
      case Op(uri, account) =>
        out := PrintField(Field([SOURCE], String(OP)));
        out := out + PrintField(Field([OP, URI], String(uri)));
        TwoFields(Field([SOURCE], String(OP)), Field([OP, URI], String(uri)));
        if account.Some? {
          OneField(Field([OP, ACCOUNT], String(account.value)));
          out := out + PrintField(Field([OP, ACCOUNT], String(account.value)));
        } else {
          assert out + [] == out;
        }
        FieldsAppend([Field([SOURCE], String(OP)), Field([OP, URI], String(uri))], OptionalField([OP, ACCOUNT], account));
    }
  }

  method SerializeTtl(name: Text, ttl: Option<U64>) returns (out: Text)
    requires IsBareKey(name)
    ensures out == PrintFields(OptionalField([name], TtlText(ttl)))
  {
    out := [];
    if ttl.Some? {
      var text := Seconds(ttl.value);
      out := name + [SPACE, EQUALS, SPACE] + ([QUOTE] + text + [QUOTE]) + [NEWLINE];
      TwoReplacesEscapeEach(text);
      PlainUnescaped(text);
      OneField(Field([name], String(text)));
      assert PrintPath([name]) == name;
    }
  }

  /** The `type` and `otp-*` lines, pushed without escaping. */
  method SerializeMeta(m: Meta) returns (out: Text)
    ensures out == MetaText(m)
  {
    out := [];
    if m.typeLabel.Some? {
      out := TYPE + [SPACE, EQUALS, SPACE] + ([QUOTE] + m.typeLabel.value + [QUOTE]) + [NEWLINE];
      if DIGITS in m.params {
        out := out + (OTP_DIGITS + [SPACE, EQUALS, SPACE] + m.params[DIGITS] + [NEWLINE]);
      } else {
        assert out + [] == out;
      }
      if PERIOD in m.params {
        out := out + (OTP_PERIOD + [SPACE, EQUALS, SPACE] + m.params[PERIOD] + [NEWLINE]);
      } else {
        assert out + [] == out;
      }
      if ALGORITHM in m.params {
        out := out + (OTP_ALGORITHM + [SPACE, EQUALS, SPACE] + ([QUOTE] + m.params[ALGORITHM] + [QUOTE]) + [NEWLINE]);
      } else {
        assert out + [] == out;
      }
    }
  }

  /** What is still to print after `i` tables. */
  function Remaining(ds: seq<Definition>, i: nat): Text
    requires i <= |ds|
  {
    if i == |ds| then [] else (if i > 0 then [NEWLINE] else []) + TablesText(ds[i..])
  }

  lemma TablesTextFirst(ds: seq<Definition>, i: nat)
    requires i < |ds|
    ensures TablesText(ds[i..])
         == PrintHeader(NamespaceOf(ds[i]), ds[i].name)
            + (Lines(ds[i]) + if |ds| == i + 1 then [] else [NEWLINE] + TablesText(ds[i + 1..]))
  {
    hide PrintHeader, Lines;
    assert ds[i..][0] == ds[i] && ds[i..][1..] == ds[i + 1..];
  }

  lemma AppendNested(before: Text, sep: Text, h: Text, l: Text, rest: Text)
    ensures before + (sep + (h + (l + rest))) == before + sep + (h + l) + rest
  {
  }

  lemma RemainingStep(ds: seq<Definition>, i: nat, before: Text)
    requires i < |ds|
    ensures before + Remaining(ds, i)
         == before + (if i > 0 then [NEWLINE] else [])
            + (PrintHeader(NamespaceOf(ds[i]), ds[i].name) + Lines(ds[i])) + Remaining(ds, i + 1)
  {
    hide PrintHeader, Lines, TablesText;
    TablesTextFirst(ds, i);
    AppendNested(before, if i > 0 then [NEWLINE] else [], PrintHeader(NamespaceOf(ds[i]), ds[i].name), Lines(ds[i]),
                 Remaining(ds, i + 1));
  }

  lemma BareNames()
    ensures IsBareKey(SOFT_TTL) && IsBareKey(HARD_TTL)
  {
  }

  lemma BaseInParts(d: Definition)
    ensures Pathed(SourceFields(d.source))
    ensures PrintFields(BaseFields(d))
         == PrintFields(SourceFields(d.source)) + PrintFields(OptionalField([SOFT_TTL], TtlText(d.softTtl)))
            + PrintFields(OptionalField([HARD_TTL], TtlText(d.hardTtl)))
  {
    hide PrintFields, Seconds;
    var s := SourceFields(d.source);
    var soft, hard := OptionalField([SOFT_TTL], TtlText(d.softTtl)), OptionalField([HARD_TTL], TtlText(d.hardTtl));
    FieldsAppend(s, soft);
    FieldsAppend(s + soft, hard);
  }

  /** `serialize_definitions`: a sorted copy, printed table by table. */
  method SerializeDefinitions(ds: seq<Definition>) returns (out: Text)
    ensures out == Document(ds)
  {
    hide PrintFields, PrintHeader, TablesText, SortDefs, SourceFields, BaseFields, Pathed, Remaining, IsBareKey, OptionalField,
         MetaText;
    var sorted := SortDefs(ds);
    out := [];
    NothingPrinted(sorted);
    for i := 0 to |sorted|
      invariant out + Remaining(sorted, i) == Document(ds)
    {
      var d := sorted[i];
      RemainingStep(sorted, i, out);
      BaseInParts(d);
      BareNames();
      if i > 0 {
        out := out + [NEWLINE];
      } else {
        assert out + [] == out;
      }
      var header := PrintHeader(NamespaceOf(d), d.name);
      var source := SerializeSource(d.source);
      var soft := SerializeTtl(SOFT_TTL, d.softTtl);
      var hard := SerializeTtl(HARD_TTL, d.hardTtl);
      var meta := SerializeMeta(d.meta);
      var table := header + (source + soft + hard + meta);
      out := out + table;
    }
    NothingRemains(sorted, out);
  }

  lemma NothingPrinted(ds: seq<Definition>)
    ensures [] + Remaining(ds, 0) == TablesText(ds)
  {
    assert ds[0..] == ds;
  }

  lemma NothingRemains(ds: seq<Definition>, out: Text)
    ensures out + Remaining(ds, |ds|) == out
  {
  }
}
