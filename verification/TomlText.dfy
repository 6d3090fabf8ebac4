/** The persisted-definitions text: the printers of
    `crates/cache-warden-cli/src/defs.rs`, and a reader of TOML v1.0.0 for the
    constructs they print (tables, dotted keys, basic strings, arrays of basic
    strings, decimal integers). Text is its UTF-8 bytes. */
module TomlText {
  import opened Wrappers
  import opened Bytes
  import opened Decimal

  type Text = seq<Byte>

  const QUOTE: Byte := 34
  const BACKSLASH: Byte := 92
  const COMMA: Byte := 44
  const SPACE: Byte := 32
  const TAB: Byte := 9
  const NEWLINE: Byte := 10
  const DOT: Byte := 46
  const EQUALS: Byte := 61
  const OPEN: Byte := 91
  const CLOSE: Byte := 93
  const PLUS: Byte := 43
  const MINUS: Byte := 45

  // ---- printing ----

  /** `str::replace` of one character. */
  function Replace(s: Text, from: Byte, to: Text): Text {
    if s == [] then [] else (if s[0] == from then to else [s[0]]) + Replace(s[1..], from, to)
  }

  function BasicString(s: Text): Text {
    [QUOTE] + Replace(Replace(s, BACKSLASH, [BACKSLASH, BACKSLASH]), QUOTE, [BACKSLASH, QUOTE]) + [QUOTE]
  }

  function Joined(items: seq<Text>): Text {
    if items == [] then []
    else if |items| == 1 then BasicString(items[0])
    else BasicString(items[0]) + [COMMA, SPACE] + Joined(items[1..])
  }

  function StringArray(items: seq<Text>): Text {
    [OPEN] + Joined(items) + [CLOSE]
  }

  predicate IsBareByte(b: Byte) {
    65 <= b <= 90 || 97 <= b <= 122 || 48 <= b <= 57 || b == 95 || b == 45
  }

  predicate IsBareKey(k: Text) {
    k != [] && forall i :: 0 <= i < |k| ==> IsBareByte(k[i])
  }

  function BareOrQuotedKey(k: Text): Text {
    if IsBareKey(k) then k else BasicString(k)
  }

  /** The range of a TOML integer. */
  type I64 = n: int | -0x8000_0000_0000_0000 <= n < 0x8000_0000_0000_0000

  datatype Value = String(s: Text) | Strings(items: seq<Text>) | Number(n: I64)

  datatype Field = Field(path: seq<Text>, value: Value)

  /** One `[kv.NS.KEY]` table. */
  datatype Table = Table(ns: Text, key: Text, fields: seq<Field>)

  function PrintPath(path: seq<Text>): Text
    requires path != []
  {
    if |path| == 1 then BareOrQuotedKey(path[0])
    else BareOrQuotedKey(path[0]) + [DOT] + PrintPath(path[1..])
  }

  function PrintInteger(n: int): Text {
    if n < 0 then [MINUS] + Digits(-n) else Digits(n)
  }

  function PrintValue(v: Value): Text {
    match v
    case String(s) => BasicString(s)
    case Strings(items) => StringArray(items)
    case Number(n) => PrintInteger(n)
  }

  function PrintField(f: Field): Text
    requires f.path != []
  {
    PrintPath(f.path) + [SPACE, EQUALS, SPACE] + PrintValue(f.value) + [NEWLINE]
  }

  predicate Pathed(fs: seq<Field>) {
    forall i :: 0 <= i < |fs| ==> fs[i].path != []
  }

  function PrintFields(fs: seq<Field>): Text
    requires Pathed(fs)
  {
    if fs == [] then [] else PrintField(fs[0]) + PrintFields(fs[1..])
  }

  const KV: Text := [107, 118]

  function PrintHeader(ns: Text, key: Text): Text {
    [OPEN] + KV + [DOT] + ns + [DOT] + key + [CLOSE, NEWLINE]
  }

  /** Namespaces and keys are identifiers, so they are never quoted. */
  predicate WellNamed(t: Table) {
    IsBareKey(t.ns) && IsBareKey(t.key) && Pathed(t.fields)
  }

  predicate AllWellNamed(ts: seq<Table>) {
    forall i :: 0 <= i < |ts| ==> WellNamed(ts[i])
  }

  function PrintTables(ts: seq<Table>): Text
    requires AllWellNamed(ts)
  {
    if ts == [] then []
    else
      PrintHeader(ts[0].ns, ts[0].key)
      + (PrintFields(ts[0].fields) + if |ts| == 1 then [] else [NEWLINE] + PrintTables(ts[1..]))
  }

  // ---- reading ----

  type Read<T> = Option<(T, Text)>

  /** Control characters a basic string may not contain raw. */
  predicate Forbidden(b: Byte) {
    b <= 8 || 10 <= b <= 31 || b == 127
  }

  function EscapeOf(b: Byte): Option<Byte> {
    match b
    case 98 => Some(8)
    case 116 => Some(9)
    case 110 => Some(10)
    case 102 => Some(12)
    case 114 => Some(13)
    case 34 => Some(34)
    case 92 => Some(92)
    case _ => None
  }

  function Prepend(b: Byte, r: Read<Text>): Read<Text> {
    match r case Some(p) => Some(([b] + p.0, p.1)) case None => None
  }

  /** Up to and over the closing quote. */
  function ReadChars(c: Text): (r: Read<Text>)
    ensures r.Some? ==> |r.value.1| < |c|
  {
    if c == [] then None
    else if c[0] == QUOTE then Some(([], c[1..]))
    else if c[0] == BACKSLASH then
      if |c| < 2 || EscapeOf(c[1]) == None then None else Prepend(EscapeOf(c[1]).value, ReadChars(c[2..]))
    else if Forbidden(c[0]) then None
    else Prepend(c[0], ReadChars(c[1..]))
  }

  /** A basic string; three quotes would open a multi-line one, which is never printed. */
  function ReadBasic(c: Text): (r: Read<Text>)
    ensures r.Some? ==> |r.value.1| < |c|
  {
    if c == [] || c[0] != QUOTE || (|c| >= 3 && c[1] == QUOTE && c[2] == QUOTE) then None
    else ReadChars(c[1..])
  }

  predicate IsBlank(b: Byte) {
    b == SPACE || b == TAB
  }

  function SkipBlanks(c: Text): (r: Text)
    ensures |r| <= |c|
  {
    if c != [] && IsBlank(c[0]) then SkipBlanks(c[1..]) else c
  }

  function SkipSpace(c: Text): (r: Text)
    ensures |r| <= |c|
  {
    if c != [] && (IsBlank(c[0]) || c[0] == NEWLINE) then SkipSpace(c[1..]) else c
  }

  /** Array elements up to and over the closing bracket; a comma may end them. */
  function ReadItems(c: Text): (r: Read<seq<Text>>)
    ensures r.Some? ==> |r.value.1| < |c|
    decreases |c|
  {
    if c != [] && c[0] == CLOSE then Some(([], c[1..]))
    else
      var (s, d) :- ReadBasic(c);
      var d := SkipSpace(d);
      if d == [] then None
      else if d[0] == CLOSE then Some(([s], d[1..]))
      else if d[0] == COMMA then
        var (rest, e) :- ReadItems(SkipSpace(d[1..]));
        Some(([s] + rest, e))
      else None
  }

  /** Length of the run of decimal digits at the start of `c`. */
  function DigitRun(c: Text): (n: nat)
    ensures n <= |c| && AllDigits(c[..n])
    ensures n < |c| ==> !IsDigit(c[n])
  {
    if c == [] || !IsDigit(c[0]) then 0
    else
      assert forall i :: 0 < i <= DigitRun(c[1..]) ==> c[i] == c[1..][..DigitRun(c[1..])][i - 1];
      1 + DigitRun(c[1..])
  }

  /** A decimal integer: an optional sign, and digits without a leading zero. */
  function ReadInteger(c: Text): (r: Read<I64>)
    ensures r.Some? ==> |r.value.1| < |c|
  {
    var signed := c != [] && (c[0] == PLUS || c[0] == MINUS);
    var d := if signed then c[1..] else c;
    var n := DigitRun(d);
    if !IsNumeral(d[..n]) then None
    else
      var magnitude :- DigitsValue(d[..n]);
      var v: int := if signed && c[0] == MINUS then -(magnitude as int) else magnitude;
      if -0x8000_0000_0000_0000 <= v < 0x8000_0000_0000_0000 then Some((v, d[n..])) else None
  }

  function ReadValue(c: Text): (r: Read<Value>)
    ensures r.Some? ==> |r.value.1| < |c|
  {
    if c != [] && c[0] == OPEN then
      var (items, d) :- ReadItems(SkipSpace(c[1..]));
      Some((Strings(items), d))
    else if c != [] && c[0] == QUOTE then
      var (s, d) :- ReadBasic(c);
      Some((String(s), d))
    else
      var (n, d) :- ReadInteger(c);
      Some((Number(n), d))
  }

  function BareRun(c: Text): (n: nat)
    ensures n <= |c| && forall i :: 0 <= i < n ==> IsBareByte(c[i])
    ensures n < |c| ==> !IsBareByte(c[n])
  {
    if c == [] || !IsBareByte(c[0]) then 0 else 1 + BareRun(c[1..])
  }

  function ReadKey(c: Text): (r: Read<Text>)
    ensures r.Some? ==> |r.value.1| < |c|
  {
    if c != [] && c[0] == QUOTE then ReadBasic(c)
    else
      var n := BareRun(c);
      if n == 0 then None else Some((c[..n], c[n..]))
  }

  function ReadPath(c: Text): (r: Read<seq<Text>>)
    ensures r.Some? ==> |r.value.1| < |c|
    decreases |c|
  {
    var (k, d) :- ReadKey(c);
    if d != [] && d[0] == DOT then
      var (rest, e) :- ReadPath(d[1..]);
      Some(([k] + rest, e))
    else Some(([k], d))
  }

  function ReadField(c: Text): (r: Read<Field>)
    ensures r.Some? ==> |r.value.1| < |c|
  {
    var (path, d) :- ReadPath(c);
    var d := SkipBlanks(d);
    if d == [] || d[0] != EQUALS then None
    else
      var (v, e) :- ReadValue(SkipBlanks(d[1..]));
      var e := SkipBlanks(e);
      if e == [] || e[0] != NEWLINE then None else Some((Field(path, v), e[1..]))
  }

  function ReadFields(c: Text): (r: Read<seq<Field>>)
    ensures r.Some? ==> |r.value.1| <= |c|
    decreases |c|
  {
    if c == [] || c[0] == NEWLINE || c[0] == OPEN then Some(([], c))
    else
      var (f, d) :- ReadField(c);
      var (rest, e) :- ReadFields(d);
      Some(([f] + rest, e))
  }

  function ReadHeader(c: Text): (r: Read<(Text, Text)>)
    ensures r.Some? ==> |r.value.1| < |c|
  {
    if c == [] || c[0] != OPEN then None
    else
      var (path, d) :- ReadPath(c[1..]);
      if |path| != 3 || path[0] != KV || |d| < 2 || d[0] != CLOSE || d[1] != NEWLINE then None
      else Some(((path[1], path[2]), d[2..]))
  }

  function ReadTables(c: Text): Option<seq<Table>>
    decreases |c|
  {
    if c == [] then Some([])
    else if c[0] == NEWLINE then ReadTables(c[1..])
    else
      var (name, d) :- ReadHeader(c);
      var (fields, e) :- ReadFields(d);
      var rest :- ReadTables(e);
      Some([Table(name.0, name.1, fields)] + rest)
  }

  // ---- escaping ----

  /** Each quote and backslash behind one backslash, in one pass. */
  function EscapeEach(s: Text): Text {
    if s == [] then []
    else (if s[0] == QUOTE || s[0] == BACKSLASH then [BACKSLASH, s[0]] else [s[0]]) + EscapeEach(s[1..])
  }

  lemma {:induction false} ReplaceAppend(s: Text, t: Text, from: Byte, to: Text)
    ensures Replace(s + t, from, to) == Replace(s, from, to) + Replace(t, from, to)
  {
    if s == [] {
      assert s + t == t;
    } else {
      assert (s + t)[1..] == s[1..] + t;
      ReplaceAppend(s[1..], t, from, to);
    }
  }

  /** The two replacements, in this order, are the one-pass escape. */
  lemma {:induction false} TwoReplacesEscapeEach(s: Text)
    ensures Replace(Replace(s, BACKSLASH, [BACKSLASH, BACKSLASH]), QUOTE, [BACKSLASH, QUOTE]) == EscapeEach(s)
  {
    if s != [] {
      var head := if s[0] == BACKSLASH then [BACKSLASH, BACKSLASH] else [s[0]];
      ReplaceAppend(head, Replace(s[1..], BACKSLASH, [BACKSLASH, BACKSLASH]), QUOTE, [BACKSLASH, QUOTE]);
      TwoReplacesEscapeEach(s[1..]);
      assert head[1..] == if s[0] == BACKSLASH then [BACKSLASH] else [];
      assert [BACKSLASH][1..] == [];
    }
  }

  // ---- strings and arrays read back ----

  predicate Printable(s: Text) {
    forall i :: 0 <= i < |s| ==> !Forbidden(s[i])
  }

  /** Read this, or nothing. */
  function Only<T>(ok: bool, x: T, rest: Text): Read<T> {
    if ok then Some((x, rest)) else None
  }

  lemma {:induction false} CharsRoundTrip(s: Text, rest: Text)
    ensures ReadChars(EscapeEach(s) + [QUOTE] + rest) == Only(Printable(s), s, rest)
  {
    var c := EscapeEach(s) + [QUOTE] + rest;
    if s == [] {
      assert c[1..] == rest;
    } else {
      CharsRoundTrip(s[1..], rest);
      var tail := EscapeEach(s[1..]) + [QUOTE] + rest;
      assert s == [s[0]] + s[1..];
      if s[0] == QUOTE || s[0] == BACKSLASH {
        assert c[2..] == tail && c[1] == s[0];
      } else {
        assert c[1..] == tail;
      }
    }
  }

  /** What may follow a printed string without making it a multi-line one. */
  predicate NotQuote(rest: Text) {
    rest == [] || rest[0] != QUOTE
  }

  /** A printed string reads back as itself exactly when it has no control
      character other than tab; otherwise the text is not TOML at all. */
  lemma StringRoundTripIff(s: Text, rest: Text)
    requires NotQuote(rest)
    ensures ReadBasic(BasicString(s) + rest) == Only(Printable(s), s, rest)
  {
    TwoReplacesEscapeEach(s);
    CharsRoundTrip(s, rest);
    var c := BasicString(s) + rest;
    assert c[1..] == EscapeEach(s) + [QUOTE] + rest;
    if s != [] {
      assert EscapeEach(s)[0] != QUOTE;
      assert c[1] == EscapeEach(s)[0];
    } else {
      assert c == [QUOTE, QUOTE] + rest;
    }
  }

  predicate AllPrintable(items: seq<Text>) {
    forall i :: 0 <= i < |items| ==> Printable(items[i])
  }

  lemma BasicStringStart(s: Text)
    ensures |BasicString(s)| >= 2 && BasicString(s)[0] == QUOTE
  {
  }

  lemma NoSpaceToSkip(c: Text)
    requires c != [] && !IsBlank(c[0])
    ensures SkipBlanks(c) == c && (c[0] != NEWLINE ==> SkipSpace(c) == c)
  {
  }

  lemma LastItem(s: Text, rest: Text)
    ensures ReadItems(BasicString(s) + ([CLOSE] + rest)) == Only(Printable(s), [s], rest)
  {
    hide BasicString, ReadBasic, Printable;
    var after := [CLOSE] + rest;
    assert after[1..] == rest;
    BasicStringStart(s);
    StringRoundTripIff(s, after);
    NoSpaceToSkip(after);
  }

  lemma FirstItem(s: Text, later: Text)
    requires SkipSpace(later) == later
    ensures ReadItems(BasicString(s) + ([COMMA, SPACE] + later))
         == if Printable(s) && ReadItems(later).Some? then Some(([s] + ReadItems(later).value.0, ReadItems(later).value.1)) else None
  {
    hide BasicString, ReadBasic, Printable, SkipSpace;
    var after := [COMMA, SPACE] + later;
    assert after[1..] == [SPACE] + later;
    BasicStringStart(s);
    StringRoundTripIff(s, after);
    NoSpaceToSkip(after);
    OneSpace(later);
  }

  lemma {:induction false} ItemsRoundTrip(items: seq<Text>, rest: Text)
    requires items != []
    ensures ReadItems(Joined(items) + [CLOSE] + rest) == Only(AllPrintable(items), items, rest)
    decreases |items|
  {
    hide BasicString, ReadItems, Printable, SkipSpace;
    var s := items[0];
    if |items| == 1 {
      assert Joined(items) + [CLOSE] + rest == BasicString(s) + ([CLOSE] + rest);
      LastItem(s, rest);
      assert items == [s];
    } else {
      var more := items[1..];
      var later := Joined(more) + [CLOSE] + rest;
      assert Joined(items) + [CLOSE] + rest == BasicString(s) + ([COMMA, SPACE] + later);
      JoinedStart(more);
      NoSpaceToSkip(later);
      FirstItem(s, later);
      ItemsRoundTrip(more, rest);
      assert items == [s] + more;
    }
  }

  lemma OneSpace(c: Text)
    ensures SkipSpace([SPACE] + c) == SkipSpace(c)
  {
    assert ([SPACE] + c)[1..] == c;
  }

  lemma JoinedStart(items: seq<Text>)
    requires items != []
    ensures Joined(items) != [] && Joined(items)[0] == QUOTE
  {
    BasicStringStart(items[0]);
  }

  predicate ValuePrintable(v: Value) {
    match v
    case String(s) => Printable(s)
    case Strings(items) => AllPrintable(items)
    case Number(_) => true
  }

  lemma {:induction false} DigitRunOf(k: Text, rest: Text)
    requires AllDigits(k) && (rest == [] || !IsDigit(rest[0]))
    ensures DigitRun(k + rest) == |k|
  {
    if k == [] {
      assert k + rest == rest;
    } else {
      assert (k + rest)[1..] == k[1..] + rest;
      DigitRunOf(k[1..], rest);
    }
  }

  lemma PrintedNumeral(n: nat)
    ensures IsNumeral(Digits(n)) && Digits(n)[0] != PLUS && Digits(n)[0] != MINUS
  {
    assert IsDigit(Digits(n)[0]);
    if n == 0 {
      assert Digits(0) == [ZERO];
    }
  }

  /** A printed integer reads back as itself. */
  lemma IntegerRoundTrip(n: I64, rest: Text)
    requires rest == [] || !IsDigit(rest[0])
    ensures ReadInteger(PrintInteger(n) + rest) == Some((n, rest))
  {
    hide Digits, DigitsValue, IsNumeral, DigitRun;
    var magnitude: nat := if n < 0 then -(n as int) else n;
    var k := Digits(magnitude);
    PrintedNumeral(magnitude);
    DigitsReadBack(magnitude);
    DigitRunOf(k, rest);
    var d := k + rest;
    assert d[..|k|] == k && d[|k|..] == rest;
    if n < 0 {
      assert PrintInteger(n) + rest == [MINUS] + d && ([MINUS] + d)[1..] == d;
    }
  }

  /** What may follow a printed value. */
  predicate EndsValue(rest: Text) {
    NotQuote(rest) && (rest == [] || !IsDigit(rest[0]))
  }

  lemma IntegerStart(n: int)
    ensures PrintInteger(n) != [] && (PrintInteger(n)[0] == MINUS || IsDigit(PrintInteger(n)[0]))
  {
  }

  /** Values print as text that reads back exactly when they are printable. */
  lemma ValueRoundTripIff(v: Value, rest: Text)
    requires EndsValue(rest)
    ensures ReadValue(PrintValue(v) + rest) == Only(ValuePrintable(v), v, rest)
  {
    hide BasicString, ReadBasic, Printable, ReadItems, ReadInteger, PrintInteger;
    match v {
      case Number(n) =>
        IntegerStart(n);
        IntegerRoundTrip(n, rest);
      case String(s) =>
        BasicStringStart(s);
        StringRoundTripIff(s, rest);
      case Strings(items) =>
        var c := StringArray(items) + rest;
        if items == [] {
          assert c[1..] == [CLOSE] + rest && ([CLOSE] + rest)[1..] == rest;
          NoSpaceToSkip([CLOSE] + rest);
          ReadNoItems(rest);
        } else {
          var after := Joined(items) + [CLOSE] + rest;
          assert c[1..] == after;
          JoinedStart(items);
          NoSpaceToSkip(after);
          ItemsRoundTrip(items, rest);
        }
    }
  }

  lemma ReadNoItems(rest: Text)
    ensures ReadItems([CLOSE] + rest) == Some(([], rest))
  {
    assert ([CLOSE] + rest)[1..] == rest;
  }

  // ---- keys, lines and tables read back ----

  /** What may follow a printed key. */
  predicate EndsKey(rest: Text) {
    rest != [] && !IsBareByte(rest[0]) && rest[0] != QUOTE
  }

  lemma {:induction false} BareRunOf(k: Text, rest: Text)
    requires (forall i :: 0 <= i < |k| ==> IsBareByte(k[i])) && EndsKey(rest)
    ensures BareRun(k + rest) == |k|
  {
    if k == [] {
      assert k + rest == rest;
    } else {
      assert (k + rest)[1..] == k[1..] + rest;
      BareRunOf(k[1..], rest);
    }
  }

  /** A bare key needs no quoting; any other key is readable when printable. */
  lemma KeyRoundTripIff(k: Text, rest: Text)
    requires EndsKey(rest)
    ensures ReadKey(BareOrQuotedKey(k) + rest) == Only(Printable(k), k, rest)
  {
    hide BasicString, ReadBasic, ReadChars;
    if IsBareKey(k) {
      BareRunOf(k, rest);
      assert (k + rest)[0] == k[0] && (k + rest)[..|k|] == k && (k + rest)[|k|..] == rest;
    } else {
      BasicStringStart(k);
      StringRoundTripIff(k, rest);
    }
  }

  lemma {:induction false} PathRoundTripIff(path: seq<Text>, rest: Text)
    requires path != [] && EndsKey(rest) && rest[0] != DOT
    ensures ReadPath(PrintPath(path) + rest) == Only(AllPrintable(path), path, rest)
    decreases |path|
  {
    hide BareOrQuotedKey, ReadKey, Printable, IsBareByte;
    if |path| == 1 {
      KeyRoundTripIff(path[0], rest);
      assert path == [path[0]];
    } else {
      hide EndsKey;
      var after := [DOT] + (PrintPath(path[1..]) + rest);
      assert PrintPath(path) + rest == BareOrQuotedKey(path[0]) + after;
      DotEndsKey(PrintPath(path[1..]) + rest);
      KeyRoundTripIff(path[0], after);
      assert after[1..] == PrintPath(path[1..]) + rest;
      PathRoundTripIff(path[1..], rest);
      assert path == [path[0]] + path[1..];
    }
  }

  lemma DotEndsKey(rest: Text)
    ensures EndsKey([DOT] + rest)
  {
  }

  predicate FieldPrintable(f: Field) {
    AllPrintable(f.path) && ValuePrintable(f.value)
  }

  lemma FieldRoundTripIff(f: Field, rest: Text)
    requires f.path != []
    ensures ReadField(PrintField(f) + rest) == Only(FieldPrintable(f), f, rest)
  {
    hide PrintPath, ReadPath, PrintValue, ReadValue, AllPrintable, ValuePrintable;
    var v := PrintValue(f.value) + ([NEWLINE] + rest);
    var after := [SPACE, EQUALS, SPACE] + v;
    assert PrintField(f) + rest == PrintPath(f.path) + after;
    PathRoundTripIff(f.path, after);
    assert after[1..] == [EQUALS, SPACE] + v && after[1..][1..] == [SPACE] + v && ([SPACE] + v)[1..] == v;
    NoSpaceToSkip(after[1..]);
    assert SkipBlanks(after) == [EQUALS, SPACE] + v;
    ValueStart(f.value);
    NoSpaceToSkip(v);
    assert SkipBlanks([SPACE] + v) == v;
    ValueRoundTripIff(f.value, [NEWLINE] + rest);
    NoSpaceToSkip([NEWLINE] + rest);
    assert ([NEWLINE] + rest)[1..] == rest;
  }

  lemma ValueStart(v: Value)
    ensures PrintValue(v) != [] && !IsBlank(PrintValue(v)[0])
  {
    match v
    case String(s) => BasicStringStart(s);
    case Strings(_) =>
    case Number(n) => IntegerStart(n);
  }

  predicate AllFieldsPrintable(fs: seq<Field>) {
    forall i :: 0 <= i < |fs| ==> FieldPrintable(fs[i])
  }

  /** What may follow a table's lines: the blank line before the next, or the end. */
  predicate EndsTable(rest: Text) {
    rest == [] || rest[0] == NEWLINE
  }

  lemma FieldStart(f: Field)
    requires f.path != []
    ensures PrintField(f) != [] && PrintField(f)[0] != NEWLINE && PrintField(f)[0] != OPEN
  {
    BasicStringStart(f.path[0]);
    var k := BareOrQuotedKey(f.path[0]);
    assert PrintPath(f.path)[0] == k[0];
  }

  /** Printed lines, then whatever the rest reads as. */
  lemma {:induction false} FieldsThen(fs: seq<Field>, tail: Text)
    requires Pathed(fs)
    ensures ReadFields(PrintFields(fs) + tail)
         == if AllFieldsPrintable(fs) && ReadFields(tail).Some?
            then Some((fs + ReadFields(tail).value.0, ReadFields(tail).value.1)) else None
    decreases |fs|
  {
    hide PrintField, ReadField, FieldPrintable;
    if fs == [] {
      assert PrintFields(fs) + tail == tail;
      assert ReadFields(tail).Some? ==> [] + ReadFields(tail).value.0 == ReadFields(tail).value.0;
    } else {
      var later := PrintFields(fs[1..]) + tail;
      FieldStart(fs[0]);
      assert PrintFields(fs) + tail == PrintField(fs[0]) + later;
      FieldRoundTripIff(fs[0], later);
      FieldsThen(fs[1..], tail);
      assert fs == [fs[0]] + fs[1..];
      assert ReadFields(tail).Some? ==> [fs[0]] + (fs[1..] + ReadFields(tail).value.0) == fs + ReadFields(tail).value.0;
    }
  }

  lemma FieldsRoundTripIff(fs: seq<Field>, rest: Text)
    requires Pathed(fs) && EndsTable(rest)
    ensures ReadFields(PrintFields(fs) + rest) == Only(AllFieldsPrintable(fs), fs, rest)
  {
    hide PrintFields, AllFieldsPrintable;
    FieldsThen(fs, rest);
    assert fs + [] == fs;
  }

  /** Bare namespaces and keys make a header that reads back as themselves. */
  lemma HeaderRoundTrip(ns: Text, key: Text, rest: Text)
    requires IsBareKey(ns) && IsBareKey(key)
    ensures ReadHeader(PrintHeader(ns, key) + rest) == Some(((ns, key), rest))
  {
    var path := [KV, ns, key];
    var after := [CLOSE, NEWLINE] + rest;
    BareKeyPrintable(ns);
    BareKeyPrintable(key);
    BareKeyPrintable(KV);
    assert path[1..] == [ns, key] && path[1..][1..] == [key];
    assert PrintPath([key]) == key;
    assert PrintPath([ns, key]) == ns + [DOT] + key;
    assert PrintPath(path) == KV + [DOT] + (ns + [DOT] + key);
    var c := PrintHeader(ns, key) + rest;
    assert c[1..] == PrintPath(path) + after;
    PathRoundTripIff(path, after);
    assert after[2..] == rest;
  }

  lemma BareKeyPrintable(k: Text)
    requires IsBareKey(k)
    ensures Printable(k) && BareOrQuotedKey(k) == k
  {
  }

  predicate AllTablesPrintable(ts: seq<Table>) {
    forall i :: 0 <= i < |ts| ==> AllFieldsPrintable(ts[i].fields)
  }

  lemma HeaderStart(ns: Text, key: Text)
    ensures PrintHeader(ns, key) != [] && PrintHeader(ns, key)[0] == OPEN
  {
  }

  /** One table, then whatever follows its blank line. */
  lemma TableRead(t: Table, end: Text)
    requires WellNamed(t) && EndsTable(end)
    ensures ReadTables(PrintHeader(t.ns, t.key) + (PrintFields(t.fields) + end))
         == if AllFieldsPrintable(t.fields) && ReadTables(end).Some? then Some([t] + ReadTables(end).value) else None
  {
    hide PrintHeader, ReadHeader, PrintFields, ReadFields, AllFieldsPrintable, IsBareKey;
    var fields := PrintFields(t.fields) + end;
    HeaderStart(t.ns, t.key);
    HeaderRoundTrip(t.ns, t.key, fields);
    FieldsRoundTripIff(t.fields, end);
  }

  lemma BlankLineSkipped(c: Text)
    ensures ReadTables([NEWLINE] + c) == ReadTables(c)
  {
    assert ([NEWLINE] + c)[1..] == c;
  }

  lemma PrintedFirst(ts: seq<Table>)
    requires ts != [] && AllWellNamed(ts)
    ensures AllWellNamed(ts[1..])
    ensures PrintTables(ts) == PrintHeader(ts[0].ns, ts[0].key)
            + (PrintFields(ts[0].fields) + if |ts| == 1 then [] else [NEWLINE] + PrintTables(ts[1..]))
  {
    hide PrintHeader, PrintFields, IsBareKey;
    assert forall i :: 0 < i < |ts| ==> ts[i] == ts[1..][i - 1];
  }

  /** The whole document reads back as its tables, in order, exactly when every
      path and value in it is printable; otherwise it is not TOML at all. */
  lemma {:induction false} TablesRoundTripIff(ts: seq<Table>)
    requires AllWellNamed(ts)
    ensures ReadTables(PrintTables(ts)) == if AllTablesPrintable(ts) then Some(ts) else None
    decreases |ts|
  {
    hide PrintHeader, PrintFields, AllFieldsPrintable, AllTablesPrintable, PrintTables, ReadTables, IsBareKey, Pathed;
    NothingPrinted();
    if ts != [] {
      PrintedFirst(ts);
      var end := if |ts| == 1 then [] else [NEWLINE] + PrintTables(ts[1..]);
      TableRead(ts[0], end);
      TablesRoundTripIff(ts[1..]);
      BlankLineSkipped(PrintTables(ts[1..]));
      assert ts == [ts[0]] + ts[1..];
      PrintableCons(ts);
    }
  }

  lemma NothingPrinted()
    ensures PrintTables([]) == [] && ReadTables([]) == Some([]) && AllTablesPrintable([])
  {
  }

  lemma PrintableCons(ts: seq<Table>)
    requires ts != []
    ensures AllTablesPrintable(ts) <==> AllFieldsPrintable(ts[0].fields) && AllTablesPrintable(ts[1..])
  {
    hide AllFieldsPrintable;
    assert forall i :: 0 < i < |ts| ==> ts[i] == ts[1..][i - 1];
  }
}
