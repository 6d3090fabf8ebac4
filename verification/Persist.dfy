/** Persisted definitions: `serialize_definitions` and `parse_persisted` of
    `crates/cache-warden-cli/src/defs.rs`. */
module Persist {
  import opened Wrappers
  import opened Bytes
  import opened Decimal
  import opened Namespace
  import opened TomlFields
  import opened TomlText
  import opened ValueMeta

  // ---- entities ----

  /** `env` is a `BTreeMap`: its entries in strictly increasing key order. */
  datatype Source =
    | Command(argv: seq<Text>, cwd: Option<Text>, env: seq<(Text, Text)>)
    | Op(uri: Text, account: Option<Text>)

  datatype Definition = Definition(
    name: Text, namespace: Option<Text>, source: Source, softTtl: Option<U64>, hardTtl: Option<U64>, meta: Meta)

  const DEFAULT_NAMESPACE: Text := [100, 101, 102, 97, 117, 108, 116]

  function NamespaceOf(d: Definition): Text {
    match d.namespace case Some(ns) => ns case None => DEFAULT_NAMESPACE
  }

  function FullKey(d: Definition): Text {
    Compose(NamespaceOf(d), d.name)
  }

  predicate EnvSorted(env: seq<(Text, Text)>) {
    forall i, j :: 0 <= i < j < |env| ==> Less(env[i].0, env[j].0)
  }

  /** What the store guarantees of every definition it holds. */
  predicate WellFormed(d: Definition) {
    && IsIdentifier(NamespaceOf(d)) && IsIdentifier(d.name)
    && (d.source.Command? ==> EnvSorted(d.source.env))
  }

  // ---- the lines of a table ----

  function Seconds(n: nat): Text {
    Digits(n) + [115]
  }

  /** Field names by their bytes: source, command, argv, cwd, env, op, uri,
      account, soft-ttl, hard-ttl. */
  const SOURCE: Text := [115, 111, 117, 114, 99, 101]
  const COMMAND: Text := [99, 111, 109, 109, 97, 110, 100]
  const ARGV: Text := [97, 114, 103, 118]
  const CWD: Text := [99, 119, 100]
  const ENV: Text := [101, 110, 118]
  const OP: Text := [111, 112]
  const URI: Text := [117, 114, 105]
  const ACCOUNT: Text := [97, 99, 99, 111, 117, 110, 116]
  const SOFT_TTL: Text := [115, 111, 102, 116, 45, 116, 116, 108]
  const HARD_TTL: Text := [104, 97, 114, 100, 45, 116, 116, 108]
  const OP_SCHEME: Text := [111, 112, 58, 47, 47]

  function EnvFields(env: seq<(Text, Text)>): (fs: seq<Field>)
    ensures |fs| == |env|
  {
    seq(|env|, i requires 0 <= i < |env| => Field([COMMAND, ENV, env[i].0], String(env[i].1)))
  }

  function SourceFields(s: Source): seq<Field> {
    match s
    case Command(argv, cwd, env) =>
      [Field([SOURCE], String(COMMAND)), Field([COMMAND, ARGV], Strings(argv))]
      + OptionalField([COMMAND, CWD], cwd) + EnvFields(env)
    case Op(uri, account) =>
      [Field([SOURCE], String(OP)), Field([OP, URI], String(uri))] + OptionalField([OP, ACCOUNT], account)
  }

  function TtlText(t: Option<U64>): Option<Text> {
    match t case Some(n) => Some(Seconds(n)) case None => None
  }

  /** The lines that are always printed as fields. */
  function BaseFields(d: Definition): (fs: seq<Field>)
    ensures Pathed(fs)
  {
    SourceFields(d.source) + OptionalField([SOFT_TTL], TtlText(d.softTtl)) + OptionalField([HARD_TTL], TtlText(d.hardTtl))
  }

  /** All lines, for metadata that prints as fields. */
  function Fields(d: Definition): seq<Field> {
    BaseFields(d) + MetaFields(d.meta)
  }

  function TableOf(d: Definition): Table {
    Table(NamespaceOf(d), d.name, Fields(d))
  }

  // ---- reading a table back ----

  /** A reader of TTLs; all that matters is that it reads what is printed. */
  type Duration = Text -> Option<U64>

  ghost predicate IsDuration(duration: Duration) {
    forall n: U64 :: duration(Seconds(n)) == Some(n)
  }

  /** Rust's `parse::<u64>`: an optional plus, then at least one digit. */
  function ParseU64(t: Text): Option<U64> {
    var digits := if t != [] && t[0] == 43 then t[1..] else t;
    if digits == [] then None
    else
      var n :- DigitsValue(digits);
      if n < 0x1_0000_0000_0000_0000 then Some(n) else None
  }

  /** `parse_duration` of `protocol/duration.rs` on text without surrounding
      whitespace: seconds, or a count of hours, minutes or seconds. */
  function ParseDuration(t: Text): Option<U64> {
    if t == [] then None
    else
      var last := t[|t| - 1];
      var unit := if last == 104 then 3600 else if last == 109 then 60 else 1;
      if last == 104 || last == 109 || last == 115 || 48 <= last <= 57 then
        var n :- ParseU64(if 48 <= last <= 57 then t else t[..|t| - 1]);
        if n * unit < 0x1_0000_0000_0000_0000 then Some(n * unit) else None
      else None
  }

  /** Every printed TTL is read back, so the grammar is such a reader. */
  lemma PrintedTtlReadsBack()
    ensures IsDuration(ParseDuration)
  {
    forall n: U64 ensures ParseDuration(Seconds(n)) == Some(n) {
      DigitsReadBack(n);
      var t := Seconds(n);
      assert t[..|t| - 1] == Digits(n) && t[|t| - 1] == 115;
      assert Digits(n)[0] != 43;
    }
  }

  /** Insertion into a `BTreeMap`. */
  function InsertEnv(k: Text, v: Text, env: seq<(Text, Text)>): seq<(Text, Text)> {
    if env == [] || Less(k, env[0].0) then [(k, v)] + env
    else if k == env[0].0 then [(k, v)] + env[1..]
    else [env[0]] + InsertEnv(k, v, env[1..])
  }

  predicate IsEnvPath(path: seq<Text>) {
    |path| == 3 && path[0] == COMMAND && path[1] == ENV
  }

  /** The `command.env` table; `None` if one of its values is not a string. */
  function EnvOf(fs: seq<Field>): Option<seq<(Text, Text)>> {
    if fs == [] then Some([])
    else
      var rest :- EnvOf(fs[1..]);
      if !IsEnvPath(fs[0].path) then Some(rest)
      else if fs[0].value.String? then Some(InsertEnv(fs[0].path[2], fs[0].value.s, rest))
      else None
  }

  predicate Known(path: seq<Text>) {
    || path == [SOURCE] || path == [COMMAND, ARGV] || path == [COMMAND, CWD] || IsEnvPath(path)
    || path == [OP, URI] || path == [OP, ACCOUNT] || path == [SOFT_TTL] || path == [HARD_TTL]
    || MetaPath(path)
  }

  function ReadSource(fs: seq<Field>): Option<Source> {
    var cwd :- StringField(fs, [COMMAND, CWD]);
    var env :- EnvOf(fs);
    var account :- StringField(fs, [OP, ACCOUNT]);
    var uri :- StringField(fs, [OP, URI]);
    var kind :- StringField(fs, [SOURCE]);
    var argv := Lookup(fs, [COMMAND, ARGV]);
    if argv.Some? && !argv.value.Strings? then None
    else if kind == Some(COMMAND) then
      if argv.None? || argv.value.items == [] then None else Some(Command(argv.value.items, cwd, env))
    else if kind == Some(OP) then
      if uri.None? || !(OP_SCHEME <= uri.value) then None else Some(Op(uri.value, account))
    else None
  }

  function ReadTtl(fs: seq<Field>, path: seq<Text>, duration: Duration): Option<Option<U64>> {
    var t :- StringField(fs, path);
    if t.None? then Some(None)
    else
      var n :- duration(t.value);
      Some(Some(n))
  }

  /** One entry of the file, its namespace pinned. */
  function ReadDefinition(t: Table, duration: Duration): Option<Definition> {
    if !IsIdentifier(t.ns) || !IsIdentifier(t.key) || !DistinctPaths(t.fields)
       || exists i :: 0 <= i < |t.fields| && !Known(t.fields[i].path)
    then None
    else
      var source :- ReadSource(t.fields);
      var soft :- ReadTtl(t.fields, [SOFT_TTL], duration);
      var hard :- ReadTtl(t.fields, [HARD_TTL], duration);
      var meta :- ReadMeta(t.fields);
      Some(Definition(t.key, Some(t.ns), source, soft, hard, meta))
  }

  // ---- a printed table reads back as its definition ----

  /** What the reader further asks of a definition. */
  predicate Loadable(d: Definition) {
    match d.source
    case Command(argv, _, _) => argv != []
    case Op(uri, _) => OP_SCHEME <= uri
  }

  function Pinned(d: Definition): Definition {
    d.(namespace := Some(NamespaceOf(d)))
  }

  lemma NamesApart()
    ensures SOURCE != SOFT_TTL && SOURCE != HARD_TTL && SOFT_TTL != HARD_TTL && COMMAND != OP
    ensures ARGV != CWD && ARGV != ENV && CWD != ENV && URI != ACCOUNT
    ensures SOURCE[0] == SOFT_TTL[0] == 115 && HARD_TTL[0] == 104
    ensures TYPE[0] == 116 && OTP_DIGITS[0] == OTP_PERIOD[0] == OTP_ALGORITHM[0] == 111
  {
    assert TYPE[0] == 116 && OTP_DIGITS[0] == OTP_PERIOD[0] == OTP_ALGORITHM[0] == 111 && SOFT_TTL[0] == 115;
    assert SOURCE[0] == 115 && SOURCE[1] == 111 && SOURCE[2] == 117;
    assert SOFT_TTL[2] == 102 && HARD_TTL[0] == 104;
    assert COMMAND[0] == 99 && OP[0] == 111;
    assert ARGV[0] == 97 && CWD[0] == 99 && ENV[0] == 101 && URI[0] == 117 && ACCOUNT[0] == 97;
  }

  function TtlValue(path: seq<Text>, name: Text, t: Option<U64>): Option<Value> {
    if path == [name] then StringValue(TtlText(t)) else None
  }

  /** A lookup goes through the source lines, the two TTL lines and the metadata. */
  lemma LookupFields(d: Definition, path: seq<Text>)
    ensures Lookup(Fields(d), path)
         == Either(Either(Either(Lookup(SourceFields(d.source), path), TtlValue(path, SOFT_TTL, d.softTtl)),
                          TtlValue(path, HARD_TTL, d.hardTtl)),
                   Lookup(MetaFields(d.meta), path))
  {
    hide SourceFields, MetaFields, TtlText, OptionalValue;
    var s := SourceFields(d.source);
    var soft := OptionalField([SOFT_TTL], TtlText(d.softTtl));
    var hard := OptionalField([HARD_TTL], TtlText(d.hardTtl));
    LookupAppend(s + soft + hard, MetaFields(d.meta), path);
    LookupAppend(s + soft, hard, path);
    LookupAppend(s, soft, path);
    LookupOptional([SOFT_TTL], StringValue(TtlText(d.softTtl)), path);
    LookupOptional([HARD_TTL], StringValue(TtlText(d.hardTtl)), path);
  }

  lemma LookupCommand(argv: seq<Text>, cwd: Option<Text>, env: seq<(Text, Text)>, path: seq<Text>)
    requires !IsEnvPath(path)
    ensures Lookup(SourceFields(Command(argv, cwd, env)), path)
         == if path == [SOURCE] then Some(String(COMMAND))
            else if path == [COMMAND, ARGV] then Some(Strings(argv))
            else if path == [COMMAND, CWD] && cwd.Some? then Some(String(cwd.value))
            else None
  {
    NamesApart();
    var head := [Field([SOURCE], String(COMMAND)), Field([COMMAND, ARGV], Strings(argv))];
    var opt := OptionalField([COMMAND, CWD], cwd);
    LookupAppend(head + opt, EnvFields(env), path);
    LookupAppend(head, opt, path);
    LookupPair(head[0], head[1], path);
    LookupOptional([COMMAND, CWD], StringValue(cwd), path);
    LookupAbsent(EnvFields(env), path);
  }

  lemma LookupOp(uri: Text, account: Option<Text>, path: seq<Text>)
    ensures Lookup(SourceFields(Op(uri, account)), path)
         == if path == [SOURCE] then Some(String(OP))
            else if path == [OP, URI] then Some(String(uri))
            else if path == [OP, ACCOUNT] && account.Some? then Some(String(account.value))
            else None
  {
    NamesApart();
    var head := [Field([SOURCE], String(OP)), Field([OP, URI], String(uri))];
    LookupAppend(head, OptionalField([OP, ACCOUNT], account), path);
    LookupPair(head[0], head[1], path);
    LookupOptional([OP, ACCOUNT], StringValue(account), path);
  }

  // ---- the environment table ----

  predicate NoEnv(fs: seq<Field>) {
    forall i :: 0 <= i < |fs| ==> !IsEnvPath(fs[i].path)
  }

  lemma {:induction false} EnvSkips(a: seq<Field>, b: seq<Field>)
    requires NoEnv(a)
    ensures EnvOf(a + b) == EnvOf(b)
  {
    if a == [] {
      assert a + b == b;
    } else {
      assert (a + b)[1..] == a[1..] + b;
      EnvSkips(a[1..], b);
    }
  }

  lemma {:induction false} EnvIgnoresRest(a: seq<Field>, b: seq<Field>)
    requires NoEnv(b)
    ensures EnvOf(a + b) == EnvOf(a)
  {
    if a == [] {
      assert a + b == b == b + [];
      EnvSkips(b, []);
    } else {
      assert (a + b)[1..] == a[1..] + b;
      EnvIgnoresRest(a[1..], b);
    }
  }

  /** Sorted entries are inserted back into the same sorted table. */
  lemma {:induction false} EnvRoundTrip(env: seq<(Text, Text)>)
    requires EnvSorted(env)
    ensures EnvOf(EnvFields(env)) == Some(env)
  {
    if env != [] {
      assert EnvFields(env)[1..] == EnvFields(env[1..]);
      EnvRoundTrip(env[1..]);
      assert env == [(env[0].0, env[0].1)] + env[1..];
    }
  }

  function EnvOfSource(s: Source): seq<(Text, Text)> {
    match s case Command(_, _, env) => env case Op(_, _) => []
  }

  lemma EnvOfSourceFields(s: Source)
    requires s.Command? ==> EnvSorted(s.env)
    ensures EnvOf(SourceFields(s)) == Some(EnvOfSource(s))
  {
    hide EnvOf, EnvSorted, EnvFields;
    NamesApart();
    match s {
      case Command(argv, cwd, env) =>
        var head := [Field([SOURCE], String(COMMAND)), Field([COMMAND, ARGV], Strings(argv))] + OptionalField([COMMAND, CWD], cwd);
        EnvSkips(head, EnvFields(env));
        EnvRoundTrip(env);
      case Op(uri, account) =>
        assert SourceFields(s) + [] == SourceFields(s);
        EnvSkips(SourceFields(s), []);
        NoEnvNothing();
    }
  }

  lemma NoEnvNothing()
    ensures EnvOf([]) == Some([])
  {
  }

  lemma EnvOfFields(d: Definition)
    requires WellFormed(d)
    ensures EnvOf(Fields(d)) == Some(EnvOfSource(d.source))
  {
    hide EnvOf, SourceFields, MetaFields, EnvSorted, EnvOfSource;
    var soft, hard := OptionalField([SOFT_TTL], TtlText(d.softTtl)), OptionalField([HARD_TTL], TtlText(d.hardTtl));
    MetaFieldsDistinct(d.meta);
    EnvIgnoresRest(SourceFields(d.source) + soft + hard, MetaFields(d.meta));
    EnvIgnoresRest(SourceFields(d.source) + soft, hard);
    EnvIgnoresRest(SourceFields(d.source), soft);
    EnvOfSourceFields(d.source);
  }

  // ---- no line twice, none unknown ----

  lemma EnvDistinct(env: seq<(Text, Text)>)
    requires EnvSorted(env)
    ensures DistinctPaths(EnvFields(env))
  {
    var fs := EnvFields(env);
    forall i, j | 0 <= i < j < |fs| ensures fs[i].path != fs[j].path {
      LessIrreflexive(env[i].0);
      assert fs[i].path[2] == env[i].0 && fs[j].path[2] == env[j].0;
    }
  }

  predicate AllKnown(fs: seq<Field>) {
    forall i :: 0 <= i < |fs| ==> Known(fs[i].path)
  }

  predicate SourcePath(path: seq<Text>) {
    || path == [SOURCE] || path == [COMMAND, ARGV] || path == [COMMAND, CWD] || IsEnvPath(path)
    || path == [OP, URI] || path == [OP, ACCOUNT]
  }

  lemma SourceFieldsDistinct(s: Source)
    requires s.Command? ==> EnvSorted(s.env)
    ensures DistinctPaths(SourceFields(s))
    ensures forall i :: 0 <= i < |SourceFields(s)| ==> SourcePath(SourceFields(s)[i].path)
  {
    NamesApart();
    match s {
      case Command(argv, cwd, env) =>
        var head := [Field([SOURCE], String(COMMAND)), Field([COMMAND, ARGV], Strings(argv))];
        var opt := OptionalField([COMMAND, CWD], cwd);
        assert [COMMAND, CWD][1] == CWD && [COMMAND, ARGV][1] == ARGV;
        DistinctAppend(head, opt);
        EnvDistinct(env);
        DistinctAppend(head + opt, EnvFields(env));
      case Op(uri, account) =>
        var head := [Field([SOURCE], String(OP)), Field([OP, URI], String(uri))];
        assert [OP, ACCOUNT][1] == ACCOUNT && [OP, URI][1] == URI;
        DistinctAppend(head, OptionalField([OP, ACCOUNT], account));
    }
  }

  predicate BasePath(path: seq<Text>) {
    SourcePath(path) || path == [SOFT_TTL] || path == [HARD_TTL]
  }

  lemma BaseApartFromMeta()
    ensures forall p, q :: BasePath(p) && MetaPath(q) ==> p != q
  {
    NamesApart();
    assert [TYPE][0] == TYPE && [OTP_DIGITS][0] == OTP_DIGITS && [OTP_PERIOD][0] == OTP_PERIOD && [OTP_ALGORITHM][0] == OTP_ALGORITHM;
    assert [SOURCE][0] == SOURCE && [SOFT_TTL][0] == SOFT_TTL && [HARD_TTL][0] == HARD_TTL;
  }

  lemma SourceApartFromTtls()
    ensures forall p :: SourcePath(p) ==> p != [SOFT_TTL] && p != [HARD_TTL]
    ensures [SOFT_TTL] != [HARD_TTL]
    ensures forall p :: BasePath(p) || MetaPath(p) ==> Known(p)
  {
    NamesApart();
    assert [SOURCE][0] == SOURCE && [SOFT_TTL][0] == SOFT_TTL && [HARD_TTL][0] == HARD_TTL;
  }

  lemma FieldsDistinct(d: Definition)
    requires WellFormed(d)
    ensures DistinctPaths(Fields(d)) && AllKnown(Fields(d))
  {
    hide SourceFields, MetaFields, SourcePath, Known, MetaPath, TtlText;
    SourceApartFromTtls();
    SourceFieldsDistinct(d.source);
    var s := SourceFields(d.source);
    var soft := OptionalField([SOFT_TTL], TtlText(d.softTtl));
    var hard := OptionalField([HARD_TTL], TtlText(d.hardTtl));
    DistinctAppend(s, soft);
    DistinctAppend(s + soft, hard);
    MetaFieldsDistinct(d.meta);
    BaseApartFromMeta();
    var base := s + soft + hard;
    forall i | 0 <= i < |base| ensures BasePath(base[i].path) {}
    DistinctAppend(base, MetaFields(d.meta));
    assert Fields(d) == base + MetaFields(d.meta);
  }

  /** A table with canonical metadata is read back as its definition, with its
      namespace pinned, exactly when the definition is loadable. */
  lemma ReadTableIff(d: Definition, duration: Duration)
    requires WellFormed(d) && IsDuration(duration) && CanonicalMeta(d.meta)
    ensures ReadDefinition(TableOf(d), duration) == if Loadable(d) then Some(Pinned(d)) else None
  {
    hide Fields, Lookup, EnvOf, Seconds, IsIdentifier, Known, DistinctPaths, EnvSorted, SourceFields, MetaFields, ReadMeta,
         CanonicalMeta;
    FieldsDistinct(d);
    EnvOfFields(d);
    SourceRead(d);
    TtlsRead(d, duration);
    MetaRead(d);
  }

  lemma SourceRead(d: Definition)
    requires WellFormed(d)
    ensures ReadSource(Fields(d)) == if Loadable(d) then Some(d.source) else None
  {
    hide Fields, Lookup, EnvOf, IsIdentifier, EnvSorted, SourceFields, MetaFields;
    EnvOfFields(d);
    SourceLookup(d, [SOURCE]);
    SourceLookup(d, [COMMAND, ARGV]);
    SourceLookup(d, [COMMAND, CWD]);
    SourceLookup(d, [OP, URI]);
    SourceLookup(d, [OP, ACCOUNT]);
    SourceLookups(d.source);
    NamesApart();
  }

  /** Source lines are found among the source lines. */
  lemma SourceLookup(d: Definition, path: seq<Text>)
    requires SourcePath(path)
    ensures Lookup(Fields(d), path) == Lookup(SourceFields(d.source), path)
  {
    hide Fields, Lookup, SourceFields, MetaFields;
    NamesApart();
    assert [SOURCE][0] == SOURCE && [SOFT_TTL][0] == SOFT_TTL && [HARD_TTL][0] == HARD_TTL;
    LookupFields(d, path);
    BaseApartFromMeta();
    LookupMeta(d.meta, path);
  }

  lemma TtlsRead(d: Definition, duration: Duration)
    requires IsDuration(duration)
    ensures ReadTtl(Fields(d), [SOFT_TTL], duration) == Some(d.softTtl)
    ensures ReadTtl(Fields(d), [HARD_TTL], duration) == Some(d.hardTtl)
  {
    hide Fields, Lookup, Seconds, SourceFields, MetaFields;
    NamesApart();
    assert [SOFT_TTL][0] == SOFT_TTL && [HARD_TTL][0] == HARD_TTL;
    LookupFields(d, [SOFT_TTL]);
    LookupFields(d, [HARD_TTL]);
    SourceLookups(d.source);
    BaseApartFromMeta();
    LookupMeta(d.meta, [SOFT_TTL]);
    LookupMeta(d.meta, [HARD_TTL]);
  }

  lemma MetaRead(d: Definition)
    requires WellFormed(d) && CanonicalMeta(d.meta)
    ensures ReadMeta(Fields(d)) == Some(d.meta)
  {
    hide Fields, Lookup, SourceFields, MetaFields, ReadMeta, CanonicalMeta, SourcePath;
    SourceFieldsDistinct(d.source);
    BaseApartFromMeta();
    forall path | MetaPath(path) ensures Lookup(Fields(d), path) == Lookup(MetaFields(d.meta), path) {
      LookupFields(d, path);
      forall i | 0 <= i < |SourceFields(d.source)| ensures SourceFields(d.source)[i].path != path {
        assert BasePath(SourceFields(d.source)[i].path);
      }
      LookupAbsent(SourceFields(d.source), path);
      assert BasePath([SOFT_TTL]) && BasePath([HARD_TTL]);
    }
    MetaReadBack(d.meta, Fields(d));
  }

  lemma SourceLookups(s: Source)
    ensures Lookup(SourceFields(s), [SOURCE]) == Some(String(if s.Command? then COMMAND else OP))
    ensures Lookup(SourceFields(s), [COMMAND, ARGV]) == if s.Command? then Some(Strings(s.argv)) else None
    ensures Lookup(SourceFields(s), [COMMAND, CWD]) == if s.Command? && s.cwd.Some? then Some(String(s.cwd.value)) else None
    ensures Lookup(SourceFields(s), [OP, URI]) == if s.Op? then Some(String(s.uri)) else None
    ensures Lookup(SourceFields(s), [OP, ACCOUNT]) == if s.Op? && s.account.Some? then Some(String(s.account.value)) else None
    ensures Lookup(SourceFields(s), [SOFT_TTL]) == None && Lookup(SourceFields(s), [HARD_TTL]) == None
  {
    hide Lookup, SourceFields;
    NamesApart();
    assert [COMMAND, CWD][1] == CWD && [COMMAND, ARGV][1] == ARGV && [OP, ACCOUNT][1] == ACCOUNT && [OP, URI][1] == URI;
    assert [COMMAND, CWD][0] == COMMAND && [COMMAND, ARGV][0] == COMMAND && [OP, ACCOUNT][0] == OP && [OP, URI][0] == OP;
    assert [SOFT_TTL][0] == SOFT_TTL && [HARD_TTL][0] == HARD_TTL && [SOURCE][0] == SOURCE;
    match s {
      case Command(argv, cwd, env) =>
        LookupCommand(argv, cwd, env, [SOURCE]);
        LookupCommand(argv, cwd, env, [COMMAND, ARGV]);
        LookupCommand(argv, cwd, env, [COMMAND, CWD]);
        LookupCommand(argv, cwd, env, [OP, URI]);
        LookupCommand(argv, cwd, env, [OP, ACCOUNT]);
        LookupCommand(argv, cwd, env, [SOFT_TTL]);
        LookupCommand(argv, cwd, env, [HARD_TTL]);
      case Op(uri, account) =>
        LookupOp(uri, account, [SOURCE]);
        LookupOp(uri, account, [COMMAND, ARGV]);
        LookupOp(uri, account, [COMMAND, CWD]);
        LookupOp(uri, account, [OP, URI]);
        LookupOp(uri, account, [OP, ACCOUNT]);
        LookupOp(uri, account, [SOFT_TTL]);
        LookupOp(uri, account, [HARD_TTL]);
    }
  }
}
