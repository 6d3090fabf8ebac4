/** Value-type metadata of a definition: `meta_to_toml_fields` and `build_kv_meta`
    of `crates/cache-warden-cli/src/config.rs`, and the lines `defs.rs` prints. */
module ValueMeta {
  import opened Wrappers
  import opened Bytes
  import opened Decimal
  import opened TomlText
  import opened TomlFields

  /** `type_label` and `params` of the wire form. */
  datatype Meta = Meta(typeLabel: Option<Text>, params: map<Text, Text>)

  /** Names by their bytes: type, otp-digits, otp-period, otp-algorithm. */
  const TYPE: Text := [116, 121, 112, 101]
  const OTP_DIGITS: Text := [111, 116, 112, 45, 100, 105, 103, 105, 116, 115]
  const OTP_PERIOD: Text := [111, 116, 112, 45, 112, 101, 114, 105, 111, 100]
  const OTP_ALGORITHM: Text := [111, 116, 112, 45, 97, 108, 103, 111, 114, 105, 116, 104, 109]
  /** otp, digits, period, algorithm, sha1, sha256, sha512. */
  const OTP: Text := [111, 116, 112]
  const DIGITS: Text := [100, 105, 103, 105, 116, 115]
  const PERIOD: Text := [112, 101, 114, 105, 111, 100]
  const ALGORITHM: Text := [97, 108, 103, 111, 114, 105, 116, 104, 109]
  const SHA1: Text := [115, 104, 97, 49]
  const SHA256: Text := [115, 104, 97, 50, 53, 54]
  const SHA512: Text := [115, 104, 97, 53, 49, 50]

  function Param(m: Meta, name: Text): Option<Text> {
    if name in m.params then Some(m.params[name]) else None
  }

  // ---- the printed lines ----

  function Quoted(t: Text): Text {
    [QUOTE] + t + [QUOTE]
  }

  function RawLine(name: Text, raw: Text): Text {
    name + [SPACE, EQUALS, SPACE] + raw + [NEWLINE]
  }

  function OptionalLine(name: Text, raw: Option<Text>): Text {
    match raw case Some(t) => RawLine(name, t) case None => []
  }

  function OptionalQuoted(t: Option<Text>): Option<Text> {
    match t case Some(s) => Some(Quoted(s)) case None => None
  }

  /** Nothing without a label; else the label and the three known parameters, all
      of them exactly as they are held, without escaping. */
  function MetaText(m: Meta): Text {
    match m.typeLabel
    case None => []
    case Some(tag) =>
      RawLine(TYPE, Quoted(tag))
      + OptionalLine(OTP_DIGITS, Param(m, DIGITS))
      + OptionalLine(OTP_PERIOD, Param(m, PERIOD))
      + OptionalLine(OTP_ALGORITHM, OptionalQuoted(Param(m, ALGORITHM)))
  }

  // ---- reading it back ----

  function Lowered(t: Text): Text {
    seq(|t|, i requires 0 <= i < |t| => if 65 <= t[i] <= 90 then t[i] + 32 else t[i])
  }

  predicate IsAlgorithm(t: Text) {
    t == SHA1 || t == SHA256 || t == SHA512
  }

  /** The canonical label of an algorithm named in any case. */
  function ParseAlgorithm(t: Text): Option<Text> {
    if IsAlgorithm(Lowered(t)) then Some(Lowered(t)) else None
  }

  function Put(m: map<Text, Text>, name: Text, v: Option<Text>): map<Text, Text> {
    match v case Some(t) => m[name := t] case None => m
  }

  function OtpParams(digits: Option<Text>, period: Option<Text>, algorithm: Option<Text>): map<Text, Text> {
    Put(Put(Put(map[], DIGITS, digits), PERIOD, period), ALGORITHM, algorithm)
  }

  function Printed(n: Option<nat>): Option<Text> {
    match n case Some(k) => Some(Digits(k)) case None => None
  }

  function BuildMeta(tag: Option<Text>, digits: Option<nat>, period: Option<nat>, algorithm: Option<Text>): Option<Meta> {
    match tag
    case None =>
      if digits.Some? || period.Some? || algorithm.Some? then None else Some(Meta(None, map[]))
    case Some(l) =>
      if l != OTP then None
      else if digits.Some? && !(1 <= digits.value <= 9) then None
      else if period == Some(0) then None
      else if algorithm.None? then Some(Meta(Some(OTP), OtpParams(Printed(digits), Printed(period), None)))
      else
        var a :- ParseAlgorithm(algorithm.value);
        Some(Meta(Some(OTP), OtpParams(Printed(digits), Printed(period), Some(a))))
  }

  const U32_LIMIT: nat := 0x1_0000_0000
  const U64_LIMIT: nat := 0x1_0000_0000_0000_0000

  function ReadMeta(fs: seq<Field>): Option<Meta> {
    var tag :- StringField(fs, [TYPE]);
    var digits :- NumberField(fs, [OTP_DIGITS], U32_LIMIT);
    var period :- NumberField(fs, [OTP_PERIOD], U64_LIMIT);
    var algorithm :- StringField(fs, [OTP_ALGORITHM]);
    BuildMeta(tag, digits, period, algorithm)
  }

  // ---- canonical metadata ----

  const I64_LIMIT: nat := 0x8000_0000_0000_0000

  predicate IsDigitCount(t: Text) {
    |t| == 1 && 49 <= t[0] <= 57
  }

  predicate IsPeriod(t: Text) {
    IsNumeral(t) && t[0] != ZERO && match DigitsValue(t) case Some(n) => n < I64_LIMIT case None => false
  }

  /** No metadata at all, or the otp label with parameters as they are printed. */
  predicate CanonicalMeta(m: Meta) {
    match m.typeLabel
    case None => m.params == map[]
    case Some(tag) =>
      && tag == OTP
      && (forall name :: name in m.params ==> name == DIGITS || name == PERIOD || name == ALGORITHM)
      && (DIGITS in m.params ==> IsDigitCount(m.params[DIGITS]))
      && (PERIOD in m.params ==> IsPeriod(m.params[PERIOD]))
      && (ALGORITHM in m.params ==> IsAlgorithm(m.params[ALGORITHM]))
  }

  lemma ParamNamesApart()
    ensures DIGITS != PERIOD && DIGITS != ALGORITHM && PERIOD != ALGORITHM
    ensures TYPE != OTP_DIGITS && TYPE != OTP_PERIOD && TYPE != OTP_ALGORITHM
    ensures OTP_DIGITS != OTP_PERIOD && OTP_DIGITS != OTP_ALGORITHM && OTP_PERIOD != OTP_ALGORITHM
  {
    assert DIGITS[0] == 100 && PERIOD[0] == 112 && ALGORITHM[0] == 97;
    assert TYPE[0] == 116 && OTP_DIGITS[0] == OTP_PERIOD[0] == OTP_ALGORITHM[0] == 111;
    assert OTP_DIGITS[4] == 100 && OTP_PERIOD[4] == 112 && OTP_ALGORITHM[4] == 97;
  }

  lemma SmallDigits(n: nat)
    requires 1 <= n <= 9
    ensures IsDigitCount(Digits(n))
  {
  }

  lemma PeriodDigits(n: nat)
    requires 1 <= n < I64_LIMIT
    ensures IsPeriod(Digits(n))
  {
    hide Digits;
    PrintedNumeral(n);
    DigitsReadBack(n);
  }

  lemma ParamsOf(d: Option<Text>, p: Option<Text>, a: Option<Text>)
    ensures var m := Meta(Some(OTP), OtpParams(d, p, a));
            && Param(m, DIGITS) == d && Param(m, PERIOD) == p && Param(m, ALGORITHM) == a
            && forall name :: name in m.params ==> name == DIGITS || name == PERIOD || name == ALGORITHM
  {
    ParamNamesApart();
  }

  /** Whatever the reader accepts is canonical. */
  lemma ReadMetaCanonical(fs: seq<Field>)
    requires ReadMeta(fs).Some?
    ensures CanonicalMeta(ReadMeta(fs).value)
  {
    hide Lookup, OtpParams, Digits, IsDigitCount, IsPeriod, IsAlgorithm, Param;
    var m := ReadMeta(fs).value;
    if m.typeLabel.Some? {
      var digits := NumberField(fs, [OTP_DIGITS], U32_LIMIT).value;
      var period := NumberField(fs, [OTP_PERIOD], U64_LIMIT).value;
      var algorithm := StringField(fs, [OTP_ALGORITHM]).value;
      var tag := if algorithm.Some? then ParseAlgorithm(algorithm.value) else None;
      ParamsOf(Printed(digits), Printed(period), tag);
      OtpCanonical(m, digits, period, tag);
    }
  }

  lemma OtpCanonical(m: Meta, digits: Option<nat>, period: Option<nat>, tag: Option<Text>)
    requires m == Meta(Some(OTP), OtpParams(Printed(digits), Printed(period), tag))
    requires digits.Some? ==> 1 <= digits.value <= 9
    requires period.Some? ==> 1 <= period.value < I64_LIMIT
    requires tag.Some? ==> IsAlgorithm(tag.value)
    ensures CanonicalMeta(m)
  {
    hide OtpParams, Digits, IsDigitCount, IsPeriod, IsAlgorithm;
    ParamsOf(Printed(digits), Printed(period), tag);
    if digits.Some? { SmallDigits(digits.value); }
    if period.Some? { PeriodDigits(period.value); }
  }

  // ---- canonical metadata as lines ----

  function NumberValue(t: Option<Text>): Option<Value> {
    if t.None? then None
    else
      match DigitsValue(t.value)
      case Some(n) => if n < I64_LIMIT then Some(Number(n)) else None
      case None => None
  }

  function MetaFields(m: Meta): seq<Field> {
    match m.typeLabel
    case None => []
    case Some(tag) =>
      [Field([TYPE], String(tag))]
      + OptionalValue([OTP_DIGITS], NumberValue(Param(m, DIGITS)))
      + OptionalValue([OTP_PERIOD], NumberValue(Param(m, PERIOD)))
      + OptionalField([OTP_ALGORITHM], Param(m, ALGORITHM))
  }

  lemma MetaFieldsPathed(m: Meta)
    ensures Pathed(MetaFields(m))
  {
  }

  lemma MetaNames()
    ensures IsBareKey(TYPE) && IsBareKey(OTP_DIGITS) && IsBareKey(OTP_PERIOD) && IsBareKey(OTP_ALGORITHM)
  {
  }

  /** A value printed raw is a line, if the raw text is the value's printed form. */
  lemma RawLineIsField(name: Text, v: Value)
    requires IsBareKey(name)
    ensures PrintFields([Field([name], v)]) == RawLine(name, PrintValue(v))
  {
    hide PrintValue;
    OneField(Field([name], v));
    assert PrintPath([name]) == name;
  }

  lemma PlainQuoted(t: Text)
    requires forall i :: 0 <= i < |t| ==> t[i] != QUOTE && t[i] != BACKSLASH
    ensures PrintValue(String(t)) == Quoted(t)
  {
    TwoReplacesEscapeEach(t);
    PlainUnescaped(t);
  }

  lemma AlgorithmsPlain(t: Text)
    requires IsAlgorithm(t) || t == OTP
    ensures forall i :: 0 <= i < |t| ==> 48 <= t[i] <= 122 && t[i] != BACKSLASH
  {
  }

  /** The printed form of a digit count or period is the text it was held as. */
  lemma NumberHeld(t: Text)
    requires IsDigitCount(t) || IsPeriod(t)
    ensures DigitsValue(t).Some? && 1 <= DigitsValue(t).value < I64_LIMIT && Digits(DigitsValue(t).value) == t
    ensures IsDigitCount(t) ==> DigitsValue(t).value <= 9
  {
    assert IsNumeral(t);
    NumeralIsPrinted(t);
    NumeralPositive(t);
    if IsDigitCount(t) {
      assert t[..0] == [];
      assert DigitsValue(t[..0]) == Some(0);
    }
  }

  lemma OptionalLineIsField(name: Text, v: Option<Value>, raw: Option<Text>)
    requires IsBareKey(name) && (v.Some? <==> raw.Some?) && (v.Some? ==> PrintValue(v.value) == raw.value)
    ensures PrintFields(OptionalValue([name], v)) == OptionalLine(name, raw)
  {
    if v.Some? {
      RawLineIsField(name, v.value);
    }
  }

  /** Canonical metadata prints as ordinary lines. */
  lemma MetaTextIsFields(m: Meta)
    requires CanonicalMeta(m)
    ensures Pathed(MetaFields(m)) && MetaText(m) == PrintFields(MetaFields(m))
  {
    MetaFieldsPathed(m);
    if m.typeLabel.Some? {
      hide PrintFields, RawLine, PrintValue, Digits, DigitsValue, IsDigitCount, IsPeriod, IsBareKey, Quoted, IsAlgorithm, OptionalLine, OptionalValue;
      MetaNames();
      AlgorithmsPlain(OTP);
      PlainQuoted(OTP);
      RawLineIsField(TYPE, String(OTP));
      MetaNumberLine(OTP_DIGITS, Param(m, DIGITS));
      MetaNumberLine(OTP_PERIOD, Param(m, PERIOD));
      MetaAlgorithmLine(Param(m, ALGORITHM));
      var t := [Field([TYPE], String(OTP))];
      var d := OptionalValue([OTP_DIGITS], NumberValue(Param(m, DIGITS)));
      var p := OptionalValue([OTP_PERIOD], NumberValue(Param(m, PERIOD)));
      var a := OptionalField([OTP_ALGORITHM], Param(m, ALGORITHM));
      FieldsAppend(t, d);
      FieldsAppend(t + d, p);
      FieldsAppend(t + d + p, a);
    }
  }

  lemma MetaNumberLine(name: Text, t: Option<Text>)
    requires IsBareKey(name) && (t.Some? ==> IsDigitCount(t.value) || IsPeriod(t.value))
    ensures Pathed(OptionalValue([name], NumberValue(t)))
    ensures PrintFields(OptionalValue([name], NumberValue(t))) == OptionalLine(name, t)
  {
    hide PrintFields, Digits, DigitsValue, IsDigitCount, IsPeriod, IsBareKey;
    if t.Some? {
      NumberHeld(t.value);
    }
    OptionalLineIsField(name, NumberValue(t), t);
  }

  lemma MetaAlgorithmLine(t: Option<Text>)
    requires t.Some? ==> IsAlgorithm(t.value)
    ensures Pathed(OptionalField([OTP_ALGORITHM], t))
    ensures PrintFields(OptionalField([OTP_ALGORITHM], t)) == OptionalLine(OTP_ALGORITHM, OptionalQuoted(t))
  {
    hide PrintFields, IsAlgorithm, IsBareKey;
    MetaNames();
    if t.Some? {
      AlgorithmsPlain(t.value);
      PlainQuoted(t.value);
    }
    OptionalLineIsField(OTP_ALGORITHM, StringValue(t), OptionalQuoted(t));
  }

  lemma LookupMeta(m: Meta, path: seq<Text>)
    ensures Lookup(MetaFields(m), path)
         == if m.typeLabel.None? then None
            else if path == [TYPE] then Some(String(m.typeLabel.value))
            else if path == [OTP_DIGITS] then NumberValue(Param(m, DIGITS))
            else if path == [OTP_PERIOD] then NumberValue(Param(m, PERIOD))
            else if path == [OTP_ALGORITHM] then StringValue(Param(m, ALGORITHM))
            else None
  {
    if m.typeLabel.Some? {
      hide NumberValue, OptionalValue, Param;
      ParamNamesApart();
      assert [TYPE][0] == TYPE && [OTP_DIGITS][0] == OTP_DIGITS && [OTP_PERIOD][0] == OTP_PERIOD && [OTP_ALGORITHM][0] == OTP_ALGORITHM;
      var t := [Field([TYPE], String(m.typeLabel.value))];
      var d := OptionalValue([OTP_DIGITS], NumberValue(Param(m, DIGITS)));
      var p := OptionalValue([OTP_PERIOD], NumberValue(Param(m, PERIOD)));
      var a := OptionalField([OTP_ALGORITHM], Param(m, ALGORITHM));
      LookupAppend(t + d + p, a, path);
      LookupAppend(t + d, p, path);
      LookupAppend(t, d, path);
      assert t[1..] == [];
      assert Lookup(t, path) == if path == [TYPE] then Some(t[0].value) else None;
      LookupOptional([OTP_DIGITS], NumberValue(Param(m, DIGITS)), path);
      LookupOptional([OTP_PERIOD], NumberValue(Param(m, PERIOD)), path);
      LookupOptional([OTP_ALGORITHM], StringValue(Param(m, ALGORITHM)), path);
    }
  }

  lemma AlgorithmHeld(t: Text)
    requires IsAlgorithm(t)
    ensures ParseAlgorithm(t) == Some(t)
  {
    assert Lowered(t) == t;
  }

  /** Canonical metadata is read back from its lines. */
  lemma MetaReadBack(m: Meta, fs: seq<Field>)
    requires CanonicalMeta(m)
    requires forall path :: path == [TYPE] || path == [OTP_DIGITS] || path == [OTP_PERIOD] || path == [OTP_ALGORITHM] ==>
               Lookup(fs, path) == Lookup(MetaFields(m), path)
    ensures ReadMeta(fs) == Some(m)
  {
    hide Lookup, MetaFields, Digits, DigitsValue, IsDigitCount, IsPeriod, IsAlgorithm, ParseAlgorithm, OtpParams;
    ParamNamesApart();
    LookupMeta(m, [TYPE]);
    LookupMeta(m, [OTP_DIGITS]);
    LookupMeta(m, [OTP_PERIOD]);
    LookupMeta(m, [OTP_ALGORITHM]);
    if m.typeLabel.Some? {
      var d, p, a := Param(m, DIGITS), Param(m, PERIOD), Param(m, ALGORITHM);
      if d.Some? { NumberHeld(d.value); }
      if p.Some? { NumberHeld(p.value); }
      if a.Some? { AlgorithmHeld(a.value); }
      ParamsDetermine(m);
    }
  }

  lemma ParamsDetermine(m: Meta)
    requires forall name :: name in m.params ==> name == DIGITS || name == PERIOD || name == ALGORITHM
    ensures OtpParams(Param(m, DIGITS), Param(m, PERIOD), Param(m, ALGORITHM)) == m.params
  {
    ParamNamesApart();
    var r := OtpParams(Param(m, DIGITS), Param(m, PERIOD), Param(m, ALGORITHM));
    assert forall name :: name in r <==> name in m.params;
  }

  lemma MetaPrintable(m: Meta)
    requires CanonicalMeta(m)
    ensures AllFieldsPrintable(MetaFields(m))
  {
    if m.typeLabel.Some? {
      hide NumberValue, IsDigitCount, IsPeriod;
      NamesPrintable();
      PrintablePath1(TYPE);
      PrintablePath1(OTP_DIGITS);
      PrintablePath1(OTP_PERIOD);
      PrintablePath1(OTP_ALGORITHM);
      var t := [Field([TYPE], String(OTP))];
      var d := OptionalValue([OTP_DIGITS], NumberValue(Param(m, DIGITS)));
      var p := OptionalValue([OTP_PERIOD], NumberValue(Param(m, PERIOD)));
      var a := OptionalField([OTP_ALGORITHM], Param(m, ALGORITHM));
      NumberPrintable([OTP_DIGITS], Param(m, DIGITS));
      NumberPrintable([OTP_PERIOD], Param(m, PERIOD));
      OptionalPrintable([OTP_ALGORITHM], StringValue(Param(m, ALGORITHM)));
      if ALGORITHM in m.params {
        AlgorithmsPlain(m.params[ALGORITHM]);
      }
      assert AllFieldsPrintable(t) by { assert FieldPrintable(t[0]); }
      FieldsPrintableAppend(t, d);
      FieldsPrintableAppend(t + d, p);
      FieldsPrintableAppend(t + d + p, a);
    }
  }

  lemma NumberPrintable(path: seq<Text>, t: Option<Text>)
    requires AllPrintable(path)
    ensures AllFieldsPrintable(OptionalValue(path, NumberValue(t)))
  {
    OptionalPrintable(path, NumberValue(t));
  }

  lemma NamesPrintable()
    ensures Printable(TYPE) && Printable(OTP_DIGITS) && Printable(OTP_PERIOD) && Printable(OTP_ALGORITHM) && Printable(OTP)
  {
  }

  lemma MetaFieldsDistinct(m: Meta)
    ensures DistinctPaths(MetaFields(m))
    ensures forall i :: 0 <= i < |MetaFields(m)| ==> MetaPath(MetaFields(m)[i].path)
  {
    if m.typeLabel.Some? {
      hide NumberValue;
      ParamNamesApart();
      assert [TYPE][0] == TYPE && [OTP_DIGITS][0] == OTP_DIGITS && [OTP_PERIOD][0] == OTP_PERIOD && [OTP_ALGORITHM][0] == OTP_ALGORITHM;
      var t := [Field([TYPE], String(m.typeLabel.value))];
      var d := OptionalValue([OTP_DIGITS], NumberValue(Param(m, DIGITS)));
      var p := OptionalValue([OTP_PERIOD], NumberValue(Param(m, PERIOD)));
      var a := OptionalField([OTP_ALGORITHM], Param(m, ALGORITHM));
      DistinctAppend(t, d);
      DistinctAppend(t + d, p);
      DistinctAppend(t + d + p, a);
    }
  }

  predicate MetaPath(path: seq<Text>) {
    path == [TYPE] || path == [OTP_DIGITS] || path == [OTP_PERIOD] || path == [OTP_ALGORITHM]
  }
}
