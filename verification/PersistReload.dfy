/** Reloading definitions: `parse_persisted` of `crates/cache-warden-cli/src/defs.rs`,
    and which saved files come back as what was saved. */
module PersistReload {
  import opened Wrappers
  import opened Bytes
  import opened Decimal
  import opened Namespace
  import opened TomlFields
  import opened TomlText
  import opened ValueMeta
  import opened Persist
  import opened PersistSave

  // ---- definitions as tables ----

  function TablesOf(ds: seq<Definition>): (ts: seq<Table>)
    ensures |ts| == |ds|
  {
    seq(|ds|, i requires 0 <= i < |ds| => TableOf(ds[i]))
  }

  predicate AllWellFormed(ds: seq<Definition>) {
    forall i :: 0 <= i < |ds| ==> WellFormed(ds[i])
  }

  lemma TablesWellNamed(ds: seq<Definition>)
    requires AllWellFormed(ds)
    ensures AllWellNamed(TablesOf(ds))
  {
    forall i | 0 <= i < |ds| ensures WellNamed(TablesOf(ds)[i]) {
      MetaFieldsPathed(ds[i].meta);
      assert WellFormed(ds[i]);
    }
  }

  lemma SortedWellFormed(ds: seq<Definition>)
    requires AllWellFormed(ds)
    ensures AllWellFormed(SortDefs(ds))
  {
    forall i | 0 <= i < |SortDefs(ds)| ensures WellFormed(SortDefs(ds)[i]) {
      assert SortDefs(ds)[i] in ds;
    }
  }

  // ---- reading the file ----

  predicate HasTable(ts: seq<Table>, ns: Text, key: Text) {
    exists i :: 0 <= i < |ts| && ts[i].ns == ns && ts[i].key == key
  }

  function FindTable(ts: seq<Table>, ns: Text, key: Text): (t: Table)
    requires HasTable(ts, ns, key)
    ensures t in ts && t.ns == ns && t.key == key
  {
    if ts[0].ns == ns && ts[0].key == key then ts[0] else FindTable(ts[1..], ns, key)
  }

  predicate TableTwice(ts: seq<Table>) {
    exists i, j :: 0 <= i < j < |ts| && ts[i].ns == ts[j].ns && ts[i].key == ts[j].key
  }

  /** The outer keys of the nested map, sorted. */
  function Namespaces(ts: seq<Table>): seq<Text> {
    SortDedup(seq(|ts|, i requires 0 <= i < |ts| => ts[i].ns))
  }

  function KeysOf(ts: seq<Table>, ns: Text): (r: seq<Text>)
    ensures forall k :: k in r <==> HasTable(ts, ns, k)
  {
    if ts == [] then []
    else
      assert forall k :: HasTable(ts, ns, k) <==> (ts[0].ns == ns && ts[0].key == k) || HasTable(ts[1..], ns, k) by {
        forall k | HasTable(ts, ns, k) ensures (ts[0].ns == ns && ts[0].key == k) || HasTable(ts[1..], ns, k) {
          var i :| 0 <= i < |ts| && ts[i].ns == ns && ts[i].key == k;
          if i > 0 { assert ts[1..][i - 1] == ts[i]; }
        }
        forall k | HasTable(ts[1..], ns, k) ensures HasTable(ts, ns, k) {
          var i :| 0 <= i < |ts[1..]| && ts[1..][i].ns == ns && ts[1..][i].key == k;
          assert ts[i + 1].ns == ns && ts[i + 1].key == k;
        }
      }
      (if ts[0].ns == ns then [ts[0].key] else []) + KeysOf(ts[1..], ns)
  }

  /** The keys of one inner map, sorted. */
  function KeysIn(ts: seq<Table>, ns: Text): (r: seq<Text>)
    ensures forall k :: k in r <==> HasTable(ts, ns, k)
  {
    SortDedup(KeysOf(ts, ns))
  }

  function InNamespace(ts: seq<Table>, ns: Text, keys: seq<Text>): (r: seq<Table>)
    requires forall k :: k in keys ==> HasTable(ts, ns, k)
    ensures |r| == |keys|
    ensures forall i :: 0 <= i < |r| ==> r[i] in ts && r[i].ns == ns && r[i].key == keys[i]
  {
    if keys == [] then []
    else
      assert keys == [keys[0]] + keys[1..];
      [FindTable(ts, ns, keys[0])] + InNamespace(ts, ns, keys[1..])
  }

  function NestedFrom(ts: seq<Table>, nss: seq<Text>): seq<Table> {
    if nss == [] then [] else InNamespace(ts, nss[0], KeysIn(ts, nss[0])) + NestedFrom(ts, nss[1..])
  }

  /** The tables in the order of the nested maps they are parsed into. */
  function NestedOrder(ts: seq<Table>): seq<Table> {
    NestedFrom(ts, Namespaces(ts))
  }

  function ReadEach(ts: seq<Table>, duration: Duration): Option<seq<Definition>> {
    if ts == [] then Some([])
    else
      var d :- ReadDefinition(ts[0], duration);
      var rest :- ReadEach(ts[1..], duration);
      Some([d] + rest)
  }

  /** `parse_persisted`; every error is `None`. */
  function Load(text: Text, duration: Duration): Option<seq<Definition>> {
    var ts :- ReadTables(text);
    if TableTwice(ts) then None else ReadEach(NestedOrder(ts), duration)
  }

  function Consed(done: seq<Definition>, later: Option<seq<Definition>>): Option<seq<Definition>> {
    match later case Some(ds) => Some(done + ds) case None => None
  }

  lemma InnerStep(ts: seq<Table>, ns: Text, keys: seq<Text>, later: seq<Table>, duration: Duration)
    requires keys != [] && forall k :: k in keys ==> HasTable(ts, ns, k)
    ensures keys[0] in keys && forall k :: k in keys[1..] ==> k in keys
    ensures ReadEach(InNamespace(ts, ns, keys) + later, duration)
         == match ReadDefinition(FindTable(ts, ns, keys[0]), duration)
            case Some(d) => Consed([d], ReadEach(InNamespace(ts, ns, keys[1..]) + later, duration))
            case None => None
  {
    hide ReadDefinition, FindTable;
    var all := InNamespace(ts, ns, keys) + later;
    assert all[0] == FindTable(ts, ns, keys[0]) && all[1..] == InNamespace(ts, ns, keys[1..]) + later;
  }

  lemma OuterStep(ts: seq<Table>, nss: seq<Text>, n: nat)
    requires n < |nss|
    ensures NestedFrom(ts, nss[n..]) == InNamespace(ts, nss[n], KeysIn(ts, nss[n])) + NestedFrom(ts, nss[n + 1..])
  {
    hide KeysIn, InNamespace;
    assert nss[n..][0] == nss[n] && nss[n..][1..] == nss[n + 1..];
  }

  lemma InnerDone(ts: seq<Table>, ns: Text, later: seq<Table>)
    ensures InNamespace(ts, ns, []) + later == later
  {
  }

  lemma AllRead(ts: seq<Table>, out: seq<Definition>, duration: Duration)
    ensures Consed(out, ReadEach(NestedFrom(ts, []), duration)) == Some(out)
  {
    var later := ReadEach(NestedFrom(ts, []), duration);
    assert later.Some? && later.value == [];
    assert out + later.value == out;
  }

  method ParsePersisted(text: Text, duration: Duration) returns (r: Option<seq<Definition>>)
    ensures r == Load(text, duration)
  {
    hide ReadTables, ReadDefinition, TableTwice, Namespaces, KeysIn, HasTable, FindTable, InNamespace, NestedFrom, ReadEach, Consed;
    var file := ReadTables(text);
    if file.None? || TableTwice(file.value) {
      return None;
    }
    var ts := file.value;
    var nss := Namespaces(ts);
    var out: seq<Definition> := [];
    ghost var spec := ReadEach(NestedOrder(ts), duration);
    ConsedNothing(spec);
    assert nss[0..] == nss;
    for n := 0 to |nss|
      invariant spec == Consed(out, ReadEach(NestedFrom(ts, nss[n..]), duration))
    {
      var ns := nss[n];
      var keys := KeysIn(ts, ns);
      ghost var later := NestedFrom(ts, nss[n + 1..]);
      OuterStep(ts, nss, n);
      assert keys[0..] == keys;
      for k := 0 to |keys|
        invariant spec == Consed(out, ReadEach(InNamespace(ts, ns, keys[k..]) + later, duration))
      {
        InnerStep(ts, ns, keys[k..], later, duration);
        assert keys[k..][1..] == keys[k + 1..];
        var d := ReadDefinition(FindTable(ts, ns, keys[k]), duration);
        if d.None? {
          return None;
        }
        ConsedTwice(out, d.value, ReadEach(InNamespace(ts, ns, keys[k + 1..]) + later, duration));
        out := out + [d.value];
      }
      assert keys[|keys|..] == [];
      InnerDone(ts, ns, later);
    }
    assert nss[|nss|..] == [];
    AllRead(ts, out, duration);
    r := Some(out);
  }

  lemma ConsedNothing(later: Option<seq<Definition>>)
    ensures later == Consed([], later)
    ensures forall out :: Consed(out, None) == None
  {
    if later.Some? {
      assert [] + later.value == later.value;
    }
  }

  lemma ConsedTwice(out: seq<Definition>, d: Definition, later: Option<seq<Definition>>)
    ensures Consed(out, Consed([d], later)) == Consed(out + [d], later)
    ensures Consed(out, None) == None
  {
    if later.Some? {
      assert out + ([d] + later.value) == out + [d] + later.value;
    }
  }

  // ---- the nested order is the composed order ----

  function Names(ts: seq<Table>): (r: seq<Text>)
    ensures |r| == |ts|
  {
    seq(|ts|, i requires 0 <= i < |ts| => Compose(ts[i].ns, ts[i].key))
  }

  predicate Identified(ts: seq<Table>) {
    forall i :: 0 <= i < |ts| ==> IsIdentifier(ts[i].ns) && IsIdentifier(ts[i].key)
  }

  predicate NameLess(t: Table, u: Table) {
    Less(Compose(t.ns, t.key), Compose(u.ns, u.key))
  }

  predicate NameSorted(ts: seq<Table>) {
    forall i, j :: 0 <= i < j < |ts| ==> NameLess(ts[i], ts[j])
  }

  lemma SortedAppend(a: seq<Table>, b: seq<Table>)
    requires NameSorted(a) && NameSorted(b)
    requires forall i, j :: 0 <= i < |a| && 0 <= j < |b| ==> NameLess(a[i], b[j])
    ensures NameSorted(a + b)
  {
    hide NameLess;
    var c := a + b;
    forall i, j | 0 <= i < j < |c| ensures NameLess(c[i], c[j]) {
      assert if i < |a| then c[i] == a[i] else c[i] == b[i - |a|];
      assert if j < |a| then c[j] == a[j] else c[j] == b[j - |a|];
    }
  }

  lemma OneNamespaceSorted(ts: seq<Table>, ns: Text)
    requires Identified(ts)
    ensures NameSorted(InNamespace(ts, ns, KeysIn(ts, ns)))
  {
    hide InNamespace, Compose, KeysOf;
    var keys := KeysIn(ts, ns);
    SortDedupSorted(KeysOf(ts, ns));
    var a := InNamespace(ts, ns, keys);
    forall i, j | 0 <= i < j < |a| ensures NameLess(a[i], a[j]) {
      assert a[i] in ts && a[j] in ts;
      ComposedOrder(ns, keys[i], ns, keys[j]);
    }
  }

  lemma AcrossNamespaces(ts: seq<Table>, nss: seq<Text>, a: seq<Table>, b: seq<Table>)
    requires Identified(ts) && nss != [] && StrictlySorted(nss)
    requires forall i :: 0 <= i < |a| ==> a[i] in ts && a[i].ns == nss[0]
    requires forall j :: 0 <= j < |b| ==> b[j] in ts && b[j].ns in nss[1..]
    ensures forall i, j :: 0 <= i < |a| && 0 <= j < |b| ==> NameLess(a[i], b[j])
  {
    hide Compose;
    forall i, j | 0 <= i < |a| && 0 <= j < |b| ensures NameLess(a[i], b[j]) {
      assert a[i] in ts && b[j] in ts && b[j].ns in nss[1..];
      var k :| 0 <= k < |nss[1..]| && nss[1..][k] == b[j].ns;
      assert Less(nss[0], nss[k + 1]);
      ComposedOrder(a[i].ns, a[i].key, b[j].ns, b[j].key);
    }
  }

  /** Tables of sorted namespaces, sorted within each, are sorted by composed key. */
  lemma {:induction false} NestedSorted(ts: seq<Table>, nss: seq<Text>)
    requires Identified(ts) && StrictlySorted(nss)
    ensures NameSorted(NestedFrom(ts, nss))
    ensures forall i :: 0 <= i < |NestedFrom(ts, nss)| ==> NestedFrom(ts, nss)[i] in ts && NestedFrom(ts, nss)[i].ns in nss
  {
    hide KeysIn, InNamespace, Compose, NameLess, Less, Identified;
    if nss != [] {
      var a, b := InNamespace(ts, nss[0], KeysIn(ts, nss[0])), NestedFrom(ts, nss[1..]);
      NestedSorted(ts, nss[1..]);
      OneNamespaceSorted(ts, nss[0]);
      AcrossNamespaces(ts, nss, a, b);
      SortedAppend(a, b);
      var c := a + b;
      assert NestedFrom(ts, nss) == c;
      forall i | 0 <= i < |c| ensures c[i] in ts && c[i].ns in nss {
        assert if i < |a| then c[i] == a[i] else c[i] == b[i - |a|];
      }
    }
  }

  lemma {:induction false} NestedHasAll(ts: seq<Table>, nss: seq<Text>, ns: Text, key: Text)
    requires ns in nss && HasTable(ts, ns, key)
    ensures HasTable(NestedFrom(ts, nss), ns, key)
  {
    hide KeysIn, FindTable;
    var keys := KeysIn(ts, nss[0]);
    var a, b := InNamespace(ts, nss[0], keys), NestedFrom(ts, nss[1..]);
    var c := a + b;
    assert NestedFrom(ts, nss) == c;
    if ns == nss[0] {
      assert key in keys;
      var i :| 0 <= i < |keys| && keys[i] == key;
      assert c[i].ns == ns && c[i].key == key;
    } else {
      NestedHasAll(ts, nss[1..], ns, key);
      var i :| 0 <= i < |b| && b[i].ns == ns && b[i].key == key;
      assert c[|a| + i] == b[i];
    }
  }

  /** A file written in composed-key order is read in file order: sorting by
      `NS/KEY` and nesting by namespace and key are the same order. */
  lemma NestedOrderOfSorted(ts: seq<Table>)
    requires Identified(ts) && StrictlySorted(Names(ts))
    ensures NestedOrder(ts) == ts
  {
    hide NestedFrom, KeysIn, IsIdentifier;
    var xs := seq(|ts|, i requires 0 <= i < |ts| => ts[i].ns);
    var nss := Namespaces(ts);
    SortDedupSorted(xs);
    NestedSorted(ts, nss);
    var r := NestedOrder(ts);
    assert StrictlySorted(Names(r)) by {
      forall i, j | 0 <= i < j < |r| ensures Less(Names(r)[i], Names(r)[j]) { assert NameLess(r[i], r[j]); }
    }
    forall k | k in Names(r) ensures k in Names(ts) {
      var i :| 0 <= i < |r| && Names(r)[i] == k;
      assert r[i] in ts;
      var j :| 0 <= j < |ts| && ts[j] == r[i];
      assert Names(ts)[j] == k;
    }
    forall k | k in Names(ts) ensures k in Names(r) {
      var i :| 0 <= i < |ts| && Names(ts)[i] == k;
      assert xs[i] in xs;
      NestedHasAll(ts, nss, ts[i].ns, ts[i].key);
      var j :| 0 <= j < |r| && r[j].ns == ts[i].ns && r[j].key == ts[i].key;
      assert Names(r)[j] == k;
    }
    StrictlySortedUnique(Names(r), Names(ts));
    forall i | 0 <= i < |r| ensures r[i] == ts[i] {
      SameNameSameTable(ts, i, r[i]);
    }
  }

  lemma SameNameSameTable(ts: seq<Table>, i: nat, t: Table)
    requires StrictlySorted(Names(ts)) && i < |ts| && t in ts && Compose(t.ns, t.key) == Names(ts)[i]
    ensures t == ts[i]
  {
    var j :| 0 <= j < |ts| && ts[j] == t;
    LessIrreflexive(Names(ts)[i]);
    assert Names(ts)[j] == Names(ts)[i];
  }

  // ---- reloading ----

  /** No string of the definition has a control character other than tab. */
  predicate DefPrintable(d: Definition) {
    match d.source
    case Command(argv, cwd, env) =>
      && AllPrintable(argv) && (cwd.Some? ==> Printable(cwd.value))
      && forall i :: 0 <= i < |env| ==> Printable(env[i].0) && Printable(env[i].1)
    case Op(uri, account) =>
      Printable(uri) && (account.Some? ==> Printable(account.value))
  }

  lemma PathNamesPrintable()
    ensures Printable(SOURCE) && Printable(COMMAND) && Printable(ARGV) && Printable(CWD) && Printable(ENV)
    ensures Printable(OP) && Printable(URI) && Printable(ACCOUNT) && Printable(SOFT_TTL) && Printable(HARD_TTL)
  {
  }

  lemma EnvPrintable(env: seq<(Text, Text)>)
    ensures AllFieldsPrintable(EnvFields(env)) <==> forall i :: 0 <= i < |env| ==> Printable(env[i].0) && Printable(env[i].1)
  {
    hide Printable, AllPrintable;
    PathNamesPrintable();
    forall i | 0 <= i < |env| ensures FieldPrintable(EnvFields(env)[i]) <==> Printable(env[i].0) && Printable(env[i].1) {
      PrintablePath3(COMMAND, ENV, env[i].0);
    }
  }

  lemma SourcePrintableIff(d: Definition)
    ensures AllFieldsPrintable(SourceFields(d.source)) <==> DefPrintable(d)
  {
    hide Printable, AllPrintable, EnvFields, OptionalValue, AllFieldsPrintable;
    PathNamesPrintable();
    PrintablePath1(SOURCE);
    match d.source {
      case Command(argv, cwd, env) =>
        var f, g := Field([SOURCE], String(COMMAND)), Field([COMMAND, ARGV], Strings(argv));
        PrintablePath2(COMMAND, ARGV);
        PrintablePath2(COMMAND, CWD);
        TwoFieldsPrintable(f, g);
        OptionalPrintable([COMMAND, CWD], StringValue(cwd));
        EnvPrintable(env);
        FieldsPrintableAppend([f, g], OptionalField([COMMAND, CWD], cwd));
        FieldsPrintableAppend([f, g] + OptionalField([COMMAND, CWD], cwd), EnvFields(env));
      case Op(uri, account) =>
        var f, g := Field([SOURCE], String(OP)), Field([OP, URI], String(uri));
        PrintablePath2(OP, URI);
        PrintablePath2(OP, ACCOUNT);
        TwoFieldsPrintable(f, g);
        OptionalPrintable([OP, ACCOUNT], StringValue(account));
        FieldsPrintableAppend([f, g], OptionalField([OP, ACCOUNT], account));
    }
  }

  lemma FieldsPrintableIff(d: Definition)
    requires CanonicalMeta(d.meta)
    ensures AllFieldsPrintable(Fields(d)) <==> DefPrintable(d)
  {
    hide AllFieldsPrintable, SourceFields, OptionalValue, DefPrintable, MetaFields, CanonicalMeta;
    PathNamesPrintable();
    PrintablePath1(SOFT_TTL);
    PrintablePath1(HARD_TTL);
    SourcePrintableIff(d);
    var s := SourceFields(d.source);
    var soft, hard := OptionalField([SOFT_TTL], TtlText(d.softTtl)), OptionalField([HARD_TTL], TtlText(d.hardTtl));
    OptionalPrintable([SOFT_TTL], StringValue(TtlText(d.softTtl)));
    OptionalPrintable([HARD_TTL], StringValue(TtlText(d.hardTtl)));
    FieldsPrintableAppend(s, soft);
    FieldsPrintableAppend(s + soft, hard);
    MetaPrintable(d.meta);
    FieldsPrintableAppend(s + soft + hard, MetaFields(d.meta));
  }

  function PinAll(ds: seq<Definition>): (r: seq<Definition>)
    ensures |r| == |ds|
  {
    seq(|ds|, i requires 0 <= i < |ds| => Pinned(ds[i]))
  }

  predicate AllLoadable(ds: seq<Definition>) {
    forall i :: 0 <= i < |ds| ==> Loadable(ds[i])
  }

  predicate AllCanonical(ds: seq<Definition>) {
    forall i :: 0 <= i < |ds| ==> CanonicalMeta(ds[i].meta)
  }

  predicate AllDefsPrintable(ds: seq<Definition>) {
    forall i :: 0 <= i < |ds| ==> DefPrintable(ds[i])
  }

  lemma {:induction false} ReadEachIff(ds: seq<Definition>, duration: Duration)
    requires AllWellFormed(ds) && IsDuration(duration) && AllCanonical(ds)
    ensures ReadEach(TablesOf(ds), duration) == if AllLoadable(ds) then Some(PinAll(ds)) else None
  {
    hide ReadDefinition, Loadable, WellFormed, TableOf, IsDuration, CanonicalMeta;
    if ds != [] {
      assert TablesOf(ds)[1..] == TablesOf(ds[1..]);
      assert forall i :: 0 < i < |ds| ==> ds[i] == ds[1..][i - 1];
      ReadTableIff(ds[0], duration);
      ReadEachIff(ds[1..], duration);
      assert PinAll(ds) == [Pinned(ds[0])] + PinAll(ds[1..]);
    } else {
      assert PinAll(ds) == [];
    }
  }

  lemma TableTwiceIff(ds: seq<Definition>)
    requires AllWellFormed(ds)
    ensures TableTwice(TablesOf(ds)) <==> !DistinctKeys(ds)
  {
    hide IsIdentifier, Compose;
    var ts := TablesOf(ds);
    forall i, j | 0 <= i < j < |ds|
      ensures FullKey(ds[i]) == FullKey(ds[j]) <==> ts[i].ns == ts[j].ns && ts[i].key == ts[j].key
    {
      assert WellFormed(ds[i]) && WellFormed(ds[j]);
      SplitIffComposed(FullKey(ds[i]), ts[i].ns, ts[i].key);
      SplitIffComposed(FullKey(ds[j]), ts[j].ns, ts[j].key);
    }
  }

  // ---- the saved text as tables ----

  lemma {:induction false} TextIsTables(ds: seq<Definition>)
    requires AllWellFormed(ds) && AllCanonical(ds)
    ensures AllWellNamed(TablesOf(ds)) && TablesText(ds) == PrintTables(TablesOf(ds))
    decreases |ds|
  {
    TablesWellNamed(ds);
    if ds != [] {
      hide PrintHeader, PrintFields, WellNamed, WellFormed, CanonicalMeta, Lines, Fields;
      assert forall i :: 0 < i < |ds| ==> ds[i] == ds[1..][i - 1];
      assert TablesOf(ds)[1..] == TablesOf(ds[1..]);
      TextIsTables(ds[1..]);
      LinesAreFields(ds[0]);
    }
  }

  lemma LinesAreFields(d: Definition)
    requires CanonicalMeta(d.meta)
    ensures Pathed(Fields(d)) && Lines(d) == PrintFields(Fields(d))
  {
    hide PrintFields, BaseFields, MetaFields, MetaText, CanonicalMeta;
    MetaTextIsFields(d.meta);
    FieldsAppend(BaseFields(d), MetaFields(d.meta));
  }

  /** With canonical metadata a saved file loads exactly when no two definitions
      share a composed key, no string has a control character, and every source is
      one the reader admits; then it gives the same definitions, pinned, in
      composed-key order. */
  lemma CanonicalReload(ds: seq<Definition>, duration: Duration)
    requires AllWellFormed(ds) && IsDuration(duration) && AllCanonical(ds)
    ensures Load(Document(ds), duration)
         == if DistinctKeys(ds) && AllDefsPrintable(ds) && AllLoadable(ds) then Some(PinAll(SortDefs(ds))) else None
  {
    hide PrintTables, ReadTables, SortDefs, WellFormed, TableTwice, NestedOrder, ReadEach, DefPrintable, Loadable, DistinctKeys,
         PinAll, CanonicalMeta, TablesText;
    var sorted := SortDefs(ds);
    var ts := TablesOf(sorted);
    SortedWellFormed(ds);
    SameMembers(ds, sorted);
    TextIsTables(sorted);
    TablesRoundTripIff(ts);
    SortDistinct(ds);
    TableTwiceIff(sorted);
    PrintableTablesIff(sorted);
    if DistinctKeys(ds) {
      SortOrdered(ds);
      OrderedTables(sorted);
      ReadEachIff(sorted, duration);
    }
  }

  lemma {:induction false} ReadEachCanonical(ts: seq<Table>, duration: Duration)
    requires ReadEach(ts, duration).Some?
    ensures AllCanonical(ReadEach(ts, duration).value)
  {
    hide ReadSource, ReadTtl, Known, DistinctPaths, CanonicalMeta, ReadMeta;
    if ts != [] {
      ReadMetaCanonical(ts[0].fields);
      ReadEachCanonical(ts[1..], duration);
      var d := ReadDefinition(ts[0], duration).value;
      var rest := ReadEach(ts[1..], duration).value;
      assert ReadEach(ts, duration).value == [d] + rest;
    }
  }

  /** A saved file comes back as what was saved, in composed-key order with the
      namespaces pinned, if and only if no two definitions share a composed key, no
      string has a control character other than tab, every source is one the reader
      admits, and every definition's metadata is canonical. */
  lemma ReloadIff(ds: seq<Definition>, duration: Duration)
    requires AllWellFormed(ds) && IsDuration(duration)
    ensures Load(Document(ds), duration) == Some(PinAll(SortDefs(ds)))
       <==> DistinctKeys(ds) && AllDefsPrintable(ds) && AllLoadable(ds) && AllCanonical(ds)
  {
    hide Document, SortDefs, WellFormed, DefPrintable, Loadable, DistinctKeys, CanonicalMeta, ReadTables, ReadEach;
    if Load(Document(ds), duration) == Some(PinAll(SortDefs(ds))) {
      ReadEachCanonical(NestedOrder(ReadTables(Document(ds)).value), duration);
      PinnedCanonical(SortDefs(ds));
      SameMembers(ds, SortDefs(ds));
    }
    if AllCanonical(ds) {
      CanonicalReload(ds, duration);
    }
  }

  lemma PinnedCanonical(ds: seq<Definition>)
    ensures AllCanonical(PinAll(ds)) <==> AllCanonical(ds)
  {
    hide CanonicalMeta;
    assert forall i :: 0 <= i < |ds| ==> PinAll(ds)[i].meta == ds[i].meta;
    if AllCanonical(PinAll(ds)) {
      forall i | 0 <= i < |ds| ensures CanonicalMeta(ds[i].meta) { assert CanonicalMeta(PinAll(ds)[i].meta); }
    }
  }

  lemma SameMembers(a: seq<Definition>, b: seq<Definition>)
    requires forall d :: d in a <==> d in b
    ensures AllDefsPrintable(a) <==> AllDefsPrintable(b)
    ensures AllLoadable(a) <==> AllLoadable(b)
    ensures AllCanonical(a) <==> AllCanonical(b)
  {
    hide DefPrintable, Loadable, CanonicalMeta;
    assert (forall d :: d in a ==> CanonicalMeta(d.meta)) <==> AllCanonical(a);
    assert (forall d :: d in b ==> CanonicalMeta(d.meta)) <==> AllCanonical(b);
    assert (forall d :: d in a ==> DefPrintable(d)) <==> AllDefsPrintable(a);
    assert (forall d :: d in b ==> DefPrintable(d)) <==> AllDefsPrintable(b);
    assert (forall d :: d in a ==> Loadable(d)) <==> AllLoadable(a);
    assert (forall d :: d in b ==> Loadable(d)) <==> AllLoadable(b);
  }

  lemma PrintableTablesIff(ds: seq<Definition>)
    requires AllCanonical(ds)
    ensures AllTablesPrintable(TablesOf(ds)) <==> AllDefsPrintable(ds)
  {
    hide AllFieldsPrintable, DefPrintable, Fields, CanonicalMeta;
    forall i | 0 <= i < |ds| ensures AllFieldsPrintable(TablesOf(ds)[i].fields) <==> DefPrintable(ds[i]) {
      FieldsPrintableIff(ds[i]);
    }
  }

  lemma OrderedTables(ds: seq<Definition>)
    requires AllWellFormed(ds) && KeyOrdered(ds)
    ensures NestedOrder(TablesOf(ds)) == TablesOf(ds)
  {
    hide IsIdentifier, Compose, Fields, NestedOrder;
    var ts := TablesOf(ds);
    forall i | 0 <= i < |ds| ensures Names(ts)[i] == FullKey(ds[i]) && IsIdentifier(ts[i].ns) && IsIdentifier(ts[i].key) {
      assert WellFormed(ds[i]);
    }
    NestedOrderOfSorted(ts);
  }

  /** The daemon saves a snapshot sorted by composed key, every namespace pinned:
      it reloads as the very same list exactly when strings are printable, sources
      admissible and metadata canonical. */
  lemma SnapshotReloadsIff(ds: seq<Definition>, duration: Duration)
    requires AllWellFormed(ds) && IsDuration(duration) && KeyOrdered(ds)
    requires forall i :: 0 <= i < |ds| ==> ds[i].namespace.Some?
    ensures Load(Document(ds), duration) == Some(ds) <==> AllDefsPrintable(ds) && AllLoadable(ds) && AllCanonical(ds)
  {
    hide Load, Document, WellFormed, DefPrintable, Loadable, CanonicalMeta, SortDefs;
    OrderedDistinct(ds);
    ReloadIff(ds, duration);
    SortKeepsOrdered(ds);
    assert PinAll(ds) == ds;
  }

  lemma OrderedDistinct(ds: seq<Definition>)
    requires KeyOrdered(ds)
    ensures DistinctKeys(ds)
  {
    forall i, j | 0 <= i < j < |ds| ensures FullKey(ds[i]) != FullKey(ds[j]) {
      LessIrreflexive(FullKey(ds[i]));
    }
  }

  /** One argument with a line break makes a file that never loads again. */
  lemma LineBreakExample(duration: Duration)
    requires IsDuration(duration)
    ensures var d := Definition(KV, None, Command([[NEWLINE]], None, []), None, None, Meta(None, map[]));
            AllWellFormed([d]) && Load(Document([d]), duration) == None
  {
    var d := Definition(KV, None, Command([[NEWLINE]], None, []), None, None, Meta(None, map[]));
    assert [NEWLINE][0] == NEWLINE && !Printable([NEWLINE]);
    assert [[NEWLINE]][0] == [NEWLINE];
    assert [d][0] == d && !DefPrintable(d);
    assert WellFormed(d);
    CanonicalReload([d], duration);
  }

  // ---- a digit count with a leading zero ----

  lemma LeadingZeroValue(x: Text, rest: Text)
    requires x != [] && AllDigits(x)
    ensures ReadValue([ZERO] + x + ([NEWLINE] + rest)) == None
  {
    hide DigitRun;
    var raw := [ZERO] + x;
    var v := raw + ([NEWLINE] + rest);
    DigitRunOf(raw, [NEWLINE] + rest);
    assert v[0] == ZERO && v[..|raw|] == raw && !IsNumeral(raw);
  }

  /** A line whose value cannot be read cannot be read. */
  lemma BadValueLine(raw: Text, rest: Text)
    requires raw != [] && !IsBlank(raw[0]) && ReadValue(raw + ([NEWLINE] + rest)) == None
    ensures ReadField(RawLine(OTP_DIGITS, raw) + rest) == None
  {
    hide ReadPath, ReadValue;
    var v := raw + ([NEWLINE] + rest);
    var after := [SPACE, EQUALS, SPACE] + v;
    assert RawLine(OTP_DIGITS, raw) + rest == OTP_DIGITS + after;
    DigitsPath(after);
    assert after[1..] == [EQUALS, SPACE] + v && after[1..][1..] == [SPACE] + v && ([SPACE] + v)[1..] == v;
    NoSpaceToSkip(after[1..]);
    NoSpaceToSkip(v);
    assert SkipBlanks(after) == [EQUALS, SPACE] + v && SkipBlanks([SPACE] + v) == v;
  }

  /** The line a leading zero makes cannot be read. */
  lemma LeadingZeroLine(x: Text, rest: Text)
    requires x != [] && AllDigits(x)
    ensures ReadFields(RawLine(OTP_DIGITS, [ZERO] + x) + rest) == None
  {
    hide ReadField, ReadValue;
    LeadingZeroValue(x, rest);
    BadValueLine([ZERO] + x, rest);
    assert (RawLine(OTP_DIGITS, [ZERO] + x) + rest)[0] == OTP_DIGITS[0] == 111;
  }

  lemma DigitsPath(after: Text)
    requires EndsKey(after) && after[0] != DOT
    ensures ReadPath(OTP_DIGITS + after) == Some(([OTP_DIGITS], after))
  {
    MetaNames();
    NamesPrintable();
    PrintablePath1(OTP_DIGITS);
    assert PrintPath([OTP_DIGITS]) == OTP_DIGITS;
    PathRoundTripIff([OTP_DIGITS], after);
  }

  /** A digit count kept with a leading zero, such as `08`, which the command line
      accepts, makes a file that never loads again, whatever else it holds. */
  lemma LeadingZeroRefused(d: Definition, x: Text, duration: Duration)
    requires WellFormed(d) && d.meta.typeLabel == Some(OTP)
    requires DIGITS in d.meta.params && d.meta.params[DIGITS] == [ZERO] + x && x != [] && AllDigits(x)
    ensures Load(Document([d]), duration) == None
  {
    hide PrintHeader, ReadHeader, PrintFields, ReadFields, BaseFields, IsBareKey, RawLine, OptionalLine, AllFieldsPrintable;
    assert [d][1..] == [] && SortDefs([d]) == [d] by { SortKeepsOrdered([d]); }
    var late := OptionalLine(OTP_PERIOD, Param(d.meta, PERIOD)) + OptionalLine(OTP_ALGORITHM, OptionalQuoted(Param(d.meta, ALGORITHM)));
    var zero := RawLine(OTP_DIGITS, [ZERO] + x) + late;
    var t := Field([TYPE], String(OTP));
    var fs := BaseFields(d) + [t];
    MetaOpens(d.meta, [ZERO] + x);
    FieldsAppend(BaseFields(d), [t]);
    var lines := PrintFields(fs) + zero;
    assert Lines(d) == lines by {
      assert PrintFields(BaseFields(d)) + (PrintFields([t]) + zero) == PrintFields(BaseFields(d)) + PrintFields([t]) + zero;
    }
    FieldsThen(fs, zero);
    LeadingZeroLine(x, late);
    assert Document([d]) == PrintHeader(NamespaceOf(d), d.name) + lines by { assert Lines(d) + [] == Lines(d); }
    HeaderStart(NamespaceOf(d), d.name);
    IdentifierIsBare(NamespaceOf(d));
    IdentifierIsBare(d.name);
    HeaderRoundTrip(NamespaceOf(d), d.name, lines);
  }

  lemma IdentifierIsBare(k: Text)
    requires IsIdentifier(k)
    ensures IsBareKey(k)
  {
  }

  lemma MetaOpens(m: Meta, digits: Text)
    requires m.typeLabel == Some(OTP) && Param(m, DIGITS) == Some(digits)
    ensures MetaText(m) == PrintFields([Field([TYPE], String(OTP))])
            + (RawLine(OTP_DIGITS, digits)
               + (OptionalLine(OTP_PERIOD, Param(m, PERIOD)) + OptionalLine(OTP_ALGORITHM, OptionalQuoted(Param(m, ALGORITHM)))))
  {
    hide PrintFields, RawLine, PrintValue, Quoted, IsBareKey;
    MetaNames();
    AlgorithmsPlain(OTP);
    PlainQuoted(OTP);
    RawLineIsField(TYPE, String(OTP));
  }

  /** The very input: `--type otp --otp-digits 08`. */
  lemma LeadingZeroExample(duration: Duration)
    ensures var d := Definition(KV, None, Command([KV], None, []), None, None, Meta(Some(OTP), map[DIGITS := [ZERO, 56]]));
            AllWellFormed([d]) && AllDefsPrintable([d]) && AllLoadable([d]) && Load(Document([d]), duration) == None
  {
    hide Load, Document, AllDigits, Printable;
    var d := Definition(KV, None, Command([KV], None, []), None, None, Meta(Some(OTP), map[DIGITS := [ZERO, 56]]));
    assert WellFormed(d);
    assert Printable(KV) && AllDigits([56]) by { KvPrintable(); }
    assert [ZERO, 56] == [ZERO] + [56];
    LeadingZeroRefused(d, [56], duration);
  }

  lemma KvPrintable()
    ensures Printable(KV) && AllDigits([56])
  {
  }
}
