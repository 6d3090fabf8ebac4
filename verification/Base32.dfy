/** Base32 secrets: `base32_decode` of `crates/cache-warden-cli/src/totp.rs`. */
module Base32 {
  import opened Wrappers
  import opened Bytes
  import opened Bits

  // ---- characters ----

  /** The Unicode White_Space property. */
  predicate IsWhitespace(c: char) {
    var u := c as int;
    || 0x09 <= u <= 0x0D || u == 0x20 || u == 0x85 || u == 0xA0 || u == 0x1680
    || 0x2000 <= u <= 0x200A || u == 0x2028 || u == 0x2029 || u == 0x202F || u == 0x205F || u == 0x3000
  }

  /** Padding and whitespace are skipped. */
  predicate Skipped(c: char) {
    c == '=' || IsWhitespace(c)
  }

  function AsciiUpper(c: char): (u: int)
    ensures 0 <= u < 0xD800 || 0xE000 <= u < 0x11_0000
    ensures (u as char) as int == u
  {
    if 'a' <= c <= 'z' then c as int - 32 else c as int
  }

  /** The value of a character; its code is narrowed to a byte first, as the
      source's cast does. */
  function Quintet(c: char): (r: Option<nat>)
    ensures r.Some? ==> r.value < 32
  {
    var up := AsciiUpper(c) % 256;
    if 65 <= up <= 90 then Some(up - 65)
    else if 50 <= up <= 55 then Some(up - 50 + 26)
    else None
  }

  /** The values of the characters that are not skipped, or `None` if one of
      them has none. */
  function Quintets(s: string): (r: Option<seq<nat>>)
    ensures r.Some? ==> forall i :: 0 <= i < |r.value| ==> r.value[i] < 32
  {
    if s == [] then Some([])
    else
      var c := s[|s| - 1];
      match Quintets(s[..|s| - 1])
      case None => None
      case Some(qs) =>
        if Skipped(c) then Some(qs)
        else match Quintet(c) case None => None case Some(q) => Some(qs + [q])
  }

  /** The number a list of quintets denotes, in unbounded arithmetic. */
  function Value32(qs: seq<nat>): nat {
    if qs == [] then 0 else 32 * Value32(qs[..|qs| - 1]) + qs[|qs| - 1]
  }

  /** The first floor(5n/8) bytes of the bit string the quintets spell. */
  function BytesOf(qs: seq<nat>): seq<Byte> {
    QuotientNonnegative(Value32(qs), Pow2(5 * |qs| % 8));
    BigEndian(Value32(qs) / Pow2(5 * |qs| % 8), 5 * |qs| / 8)
  }

  /** The decoder without any machine word. */
  function Decoded(s: string): Option<seq<Byte>> {
    match Quintets(s)
    case None => None
    case Some(qs) => if qs == [] then None else Some(BytesOf(qs))
  }

  // ---- the decoder, with its 64-bit accumulator ----

  lemma {:induction false} QuintetsPrefix(s: string, i: nat)
    requires i <= |s| && Quintets(s[..i]) == None
    ensures Quintets(s) == None
    decreases |s| - i
  {
    if i < |s| {
      assert s[..i + 1][..i] == s[..i];
      QuintetsPrefix(s, i + 1);
    } else {
      assert s[..i] == s;
    }
  }

  /** The accumulator is never masked: it overflows after thirteen characters,
      and the bytes it yields are right all the same. */
  method Base32Decode(s: string) returns (r: Option<seq<Byte>>)
    ensures r == Decoded(s)
  {
    hide BitOr, BigEndian, Pow2, BytesOf, Quintet, Skipped;
    WordPowers();
    PowersOf2();
    var buf: nat := 0;
    var bits: nat := 0;
    var out: seq<Byte> := [];
    var seen := false;
    ghost var qs: seq<nat> := [];
    NothingYet();
    for i := 0 to |s|
      invariant Quintets(s[..i]) == Some(qs)
      invariant buf == Value32(qs) % 0x1_0000_0000_0000_0000
      invariant bits == 5 * |qs| % 8
      invariant out == BytesOf(qs)
      invariant seen <==> qs != []
    {
      assert s[..i + 1][..i] == s[..i];
      var c := s[i];
      if !Skipped(c) {
        match Quintet(c) {
          case None =>
            QuintetsPrefix(s, i + 1);
            return None;
          case Some(val) =>
            seen := true;
            AccumulatorStep(qs, buf, val);
            ByteStep(qs, val);
            buf := BitOr(Shl(buf, 5, 64), val);
            bits := bits + 5;
            qs := qs + [val];
            if bits >= 8 {
              bits := bits - 8;
              out := out + [Shr(buf, bits) % 256];
            }
        }
      }
    }
    assert s[..|s|] == s;
    r := if seen then Some(out) else None;
  }

  lemma NothingYet()
    ensures BytesOf([]) == []
  {
  }

  lemma AccumulatorStep(qs: seq<nat>, buf: nat, val: nat)
    requires buf == Value32(qs) % 0x1_0000_0000_0000_0000 && val < 32
    ensures BitOr(Shl(buf, 5, 64), val) == Value32(qs + [val]) % 0x1_0000_0000_0000_0000
  {
    hide BitOr, Pow2, Value32, Shl;
    PowersOf2();
    ShiftFive(buf);
    assert Value32(qs + [val]) == 32 * Value32(qs) + val by {
      Value32Snoc(qs, val);
    }
    var high := buf % 0x800_0000_0000_0000;
    OrDisjoint(high, 5, val);
    WordStep(Value32(qs), val);
  }

  lemma ShiftFive(buf: nat)
    requires buf < 0x1_0000_0000_0000_0000
    ensures Shl(buf, 5, 64) == buf % 0x800_0000_0000_0000 * 32
  {
    hide Pow2;
    WordPowers();
    PowersOf2();
  }

  lemma WordStep(v: nat, val: nat)
    requires val < 32
    ensures (v % 0x1_0000_0000_0000_0000) % 0x800_0000_0000_0000 * 32 + val == (32 * v + val) % 0x1_0000_0000_0000_0000
  {
    var low := v % 0x800_0000_0000_0000;
    var q := v / 0x800_0000_0000_0000;
    assert (v % 0x1_0000_0000_0000_0000) % 0x800_0000_0000_0000 == low;
    assert 32 * v + val == q * 0x1_0000_0000_0000_0000 + (32 * low + val);
  }

  lemma Value32Snoc(qs: seq<nat>, val: nat)
    ensures Value32(qs + [val]) == 32 * Value32(qs) + val
  {
    assert (qs + [val])[..|qs|] == qs;
  }

  /** One more quintet completes a byte exactly when at least three bits were
      pending, and the byte is in the low bits the accumulator kept. */
  lemma ByteStep(qs: seq<nat>, val: nat)
    requires val < 32
    ensures var bits := 5 * |qs| % 8;
            if bits + 5 < 8 then 5 * |qs + [val]| % 8 == bits + 5 && BytesOf(qs + [val]) == BytesOf(qs)
            else
              && 5 * |qs + [val]| % 8 == bits - 3
              && BytesOf(qs + [val])
                 == BytesOf(qs) + [Shr(Value32(qs + [val]) % 0x1_0000_0000_0000_0000, bits - 3) % 256]
  {
    hide Value32;
    PowersOf2();
    Value32Snoc(qs, val);
    var bits := 5 * |qs| % 8;
    var v := Value32(qs);
    var v' := 32 * v + val;
    var m := 5 * |qs| / 8;
    if bits + 5 < 8 {
      QuotientKept(v, val, bits);
    } else {
      QuotientShifted(v, val, bits);
      LowBitsKept(v', bits - 3);
      var x := v' / Pow2(bits - 3);
      assert BigEndian(x, m + 1) == BigEndian(x / 256, m) + [x % 256];
    }
  }

  lemma QuotientKept(v: nat, val: nat, bits: nat)
    requires val < 32 && bits + 5 < 8
    ensures (32 * v + val) / Pow2(bits + 5) == v / Pow2(bits)
  {
    PowersOf2();
  }

  lemma QuotientShifted(v: nat, val: nat, bits: nat)
    requires val < 32 && 3 <= bits < 8
    ensures (32 * v + val) / Pow2(bits - 3) / 256 == v / Pow2(bits)
  {
    PowersOf2();
  }

  lemma LowBitsKept(v: nat, bits: nat)
    requires bits < 5
    ensures (v % 0x1_0000_0000_0000_0000) / Pow2(bits) % 256 == v / Pow2(bits) % 256
  {
    PowersOf2();
    var f := match bits
      case 0 => 0x100_0000_0000_0000
      case 1 => 0x80_0000_0000_0000
      case 2 => 0x40_0000_0000_0000
      case 3 => 0x20_0000_0000_0000
      case _ => 0x10_0000_0000_0000;
    ByteOfRemainder(v, Pow2(bits), f);
  }

  /** A multiple of `256 d` does not change the byte above `d`. */
  lemma ByteOfRemainder(v: nat, d: nat, f: nat)
    requires d > 0 && f > 0 && 256 * f * d == 0x1_0000_0000_0000_0000
    ensures (v % 0x1_0000_0000_0000_0000) / d % 256 == v / d % 256
  {
    var m := 0x1_0000_0000_0000_0000;
    var q, r := v / m, v % m;
    DivModSplit(r, d);
    assert v == q * m + r;
    assert q * (256 * f * d) == (256 * (q * f)) * d;
    assert (256 * (q * f)) * d + (r / d) * d == (256 * (q * f) + r / d) * d;
    DivModUnique(v, d, 256 * (q * f) + r / d, r % d);
    DropMultiple(q * f, r / d);
  }

  lemma DropMultiple(k: nat, y: nat)
    ensures (256 * k + y) % 256 == y % 256
  {
  }

  // ---- the encoder of RFC 4648 section 6 ----

  /** `n` base-32 digits of `v`, most significant first. */
  function Digits32(v: nat, n: nat): (qs: seq<nat>)
    ensures |qs| == n && forall i :: 0 <= i < n ==> qs[i] < 32
  {
    if n == 0 then [] else Digits32(v / 32, n - 1) + [v % 32]
  }

  /** How many zero bits fill the last quintet of `n` bytes. */
  function Fill(n: nat): (f: nat)
    ensures f < 5 && (8 * n + f) % 5 == 0
  {
    match n % 5 case 0 => 0 case 1 => 2 case 2 => 4 case 3 => 1 case _ => 3
  }

  /** Groups of five bytes become eight quintets each; the last, shorter, group
      is filled with zero bits to a whole number of quintets. */
  function EncodeQuintets(b: seq<Byte>): (qs: seq<nat>)
    ensures forall i :: 0 <= i < |qs| ==> qs[i] < 32
  {
    if |b| <= 5 then Digits32(Value(b) * Pow2(Fill(|b|)), (8 * |b| + Fill(|b|)) / 5)
    else Digits32(Value(b[..5]), 8) + EncodeQuintets(b[5..])
  }

  function Letter(q: nat): char
    requires q < 32
  {
    if q < 26 then (65 + q) as char else (50 + q - 26) as char
  }

  function LettersOf(qs: seq<nat>): (s: string)
    requires forall i :: 0 <= i < |qs| ==> qs[i] < 32
    ensures |s| == |qs|
  {
    seq(|qs|, i requires 0 <= i < |qs| => Letter(qs[i]))
  }

  /** The encoding, with `=` up to a multiple of eight characters. */
  function Encode(b: seq<Byte>): string {
    var qs := EncodeQuintets(b);
    LettersOf(qs) + seq((8 - |qs| % 8) % 8, _ => '=')
  }

  lemma {:induction false} Value32OfDigits(v: nat, n: nat)
    requires v < Pow2(5 * n)
    ensures Value32(Digits32(v, n)) == v
  {
    if n > 0 {
      Pow2Add(5, 5 * (n - 1));
      PowersOf2();
      Value32OfDigits(v / 32, n - 1);
      assert Digits32(v, n)[..n - 1] == Digits32(v / 32, n - 1);
    }
  }

  lemma {:induction false} Value32Append(x: seq<nat>, y: seq<nat>)
    ensures Value32(x + y) == Value32(x) * Pow2(5 * |y|) + Value32(y)
  {
    if y == [] {
      assert x + y == x;
    } else {
      hide Value32, Pow2;
      var y' := y[..|y| - 1];
      assert (x + y)[..|x + y| - 1] == x + y';
      Value32Append(x, y');
      Pow2Add(5, 5 * |y'|);
      PowersOf2();
      Value32Unfold(x + y);
      Value32Unfold(y);
      AppendDigit(Value32(x), Pow2(5 * |y'|), Value32(y'), y[|y| - 1], Pow2(5 * |y|), Value32(y), Value32(x + y'), Value32(x + y));
    }
  }

  lemma Value32Unfold(y: seq<nat>)
    requires y != []
    ensures Value32(y) == 32 * Value32(y[..|y| - 1]) + y[|y| - 1]
  {
  }

  lemma AppendDigit(vx: nat, p: nat, vy': nat, last: nat, py: nat, vy: nat, vxy': nat, vxy: nat)
    requires py == 32 * p && vxy' == vx * p + vy' && vxy == 32 * vxy' + last && vy == 32 * vy' + last
    ensures vxy == vx * py + vy
  {
    assert vx * (32 * p) == 32 * (vx * p);
  }

  lemma LastGroupValue(b: seq<Byte>)
    requires |b| <= 5
    ensures 5 * |EncodeQuintets(b)| == 8 * |b| + Fill(|b|)
    ensures Value32(EncodeQuintets(b)) == Value(b) * Pow2(Fill(|b|))
  {
    hide Value, Value32, Pow2;
    var f := Fill(|b|);
    Pow2Add(8 * |b|, f);
    Pow256IsPow2(|b|);
    ProductBelow(Value(b), Pow2(8 * |b|), Pow2(f));
    Value32OfDigits(Value(b) * Pow2(f), (8 * |b| + f) / 5);
  }

  lemma FullGroupValue(g: seq<Byte>)
    requires |g| == 5
    ensures Value32(Digits32(Value(g), 8)) == Value(g)
  {
    Pow256IsPow2(5);
    Value32OfDigits(Value(g), 8);
  }

  /** Multiplication under a name, for proofs that only move products about. */
  function Times(a: nat, b: nat): nat {
    a * b
  }

  lemma GroupQuintets(g: seq<Byte>, qs: seq<nat>)
    requires |g| == 5
    ensures Value32(Digits32(Value(g), 8) + qs) == Times(Value(g), Pow2(5 * |qs|)) + Value32(qs)
  {
    hide Value, Value32, Pow2, Digits32;
    FullGroupValue(g);
    Value32Append(Digits32(Value(g), 8), qs);
  }

  lemma GroupBytes(g: seq<Byte>, r: seq<Byte>)
    ensures Value(g + r) == Times(Value(g), Pow2(8 * |r|)) + Value(r)
  {
    hide Value, Pow2, Pow256;
    ValueAppend(g, r);
    Pow256IsPow2(|r|);
  }

  lemma TimesDistribute(g: nat, m: nat, p: nat, r: nat)
    ensures Times(g, Times(m, p)) + Times(r, p) == Times(Times(g, m) + r, p)
  {
    assert g * (m * p) == (g * m) * p;
  }

  lemma CombineGroups(vg: nat, vr: nat, vq: nat, n: nat, k: nat, f: nat, quintets: nat, bytes: nat)
    requires 5 * k == 8 * n + f && vq == Times(vr, Pow2(f))
    requires quintets == Times(vg, Pow2(5 * k)) + vq && bytes == Times(vg, Pow2(8 * n)) + vr
    ensures quintets == Times(bytes, Pow2(f))
  {
    hide Pow2, Times;
    Pow2Sum(8 * n, f);
    TimesDistribute(vg, Pow2(8 * n), Pow2(f), vr);
  }

  lemma NextGroupValue(g: seq<Byte>, r: seq<Byte>, qs: seq<nat>, f: nat)
    requires |g| == 5 && 5 * |qs| == 8 * |r| + f && Value32(qs) == Times(Value(r), Pow2(f))
    ensures Value32(Digits32(Value(g), 8) + qs) == Times(Value(g + r), Pow2(f))
  {
    hide Value, Value32, Pow2, Digits32, Times;
    GroupQuintets(g, qs);
    GroupBytes(g, r);
    CombineGroups(Value(g), Value(r), Value32(qs), |r|, |qs|, f,
                  Value32(Digits32(Value(g), 8) + qs), Value(g + r));
  }

  lemma Pow2Sum(a: nat, b: nat)
    ensures Pow2(a + b) == Times(Pow2(a), Pow2(b))
  {
    Pow2Add(a, b);
  }

  lemma FillPeriod(n: nat)
    requires n >= 5
    ensures Fill(n - 5) == Fill(n)
  {
  }

  lemma EncodeUnfold(b: seq<Byte>)
    requires |b| > 5
    ensures EncodeQuintets(b) == Digits32(Value(b[..5]), 8) + EncodeQuintets(b[5..])
  {
    hide Value, Digits32, Pow2, Fill;
  }

  lemma {:induction false} EncodedTimes(b: seq<Byte>)
    ensures 5 * |EncodeQuintets(b)| == 8 * |b| + Fill(|b|)
    ensures Value32(EncodeQuintets(b)) == Times(Value(b), Pow2(Fill(|b|)))
    decreases |b|
  {
    hide Value, Value32, Pow2, Digits32, EncodeQuintets, Fill;
    if |b| <= 5 {
      LastGroupValue(b);
    } else {
      hide Times;
      var g, r := b[..5], b[5..];
      EncodedTimes(r);
      EncodeUnfold(b);
      FillPeriod(|b|);
      NextGroupValue(g, r, EncodeQuintets(r), Fill(|r|));
      assert g + r == b;
    }
  }

  /** The quintets spell the bytes' number followed by the fill bits. */
  lemma EncodedValue(b: seq<Byte>)
    ensures 5 * |EncodeQuintets(b)| == 8 * |b| + Fill(|b|)
    ensures Value32(EncodeQuintets(b)) == Value(b) * Pow2(Fill(|b|))
  {
    EncodedTimes(b);
  }

  lemma ProductBelow(v: nat, m: nat, p: nat)
    requires v < m && p > 0
    ensures v * p < m * p
  {
  }

  lemma QuintetsDecode(b: seq<Byte>, s: string)
    requires b != [] && Quintets(s) == Some(EncodeQuintets(b))
    ensures Decoded(s) == Some(b)
  {
    hide Value, Value32, Pow2, EncodeQuintets, Quintets, BigEndian;
    var qs := EncodeQuintets(b);
    var f := Fill(|b|);
    EncodedValue(b);
    assert 5 * |qs| % 8 == f && 5 * |qs| / 8 == |b|;
    DivModUnique(Value(b) * Pow2(f), Pow2(f), Value(b), 0);
    BigEndianOfValue(b);
  }

  /** What is left of a text without padding and whitespace, in upper case. */
  function Spelled(s: string): string {
    if s == [] then []
    else
      var c := s[|s| - 1];
      Spelled(s[..|s| - 1]) + if Skipped(c) then [] else [AsciiUpper(c) as char]
  }

  lemma UpperLetter(c: char, q: nat)
    requires q < 32 && AsciiUpper(c) == Letter(q) as int
    ensures Quintet(c) == Some(q)
  {
  }

  lemma LetterIsUpper(q: nat)
    requires q < 32
    ensures !Skipped(Letter(q)) && AsciiUpper(Letter(q)) == Letter(q) as int
  {
  }

  lemma {:induction false} SpelledQuintets(s: string, qs: seq<nat>)
    requires (forall i :: 0 <= i < |qs| ==> qs[i] < 32) && Spelled(s) == LettersOf(qs)
    ensures Quintets(s) == Some(qs)
    decreases |s|
  {
    hide Skipped, AsciiUpper, Quintet, Letter;
    if s == [] {
      assert |LettersOf(qs)| == 0;
    } else {
      var n := |s| - 1;
      if Skipped(s[n]) {
        assert Spelled(s) == Spelled(s[..n]);
        SpelledQuintets(s[..n], qs);
      } else {
        var k := |qs| - 1;
        assert |Spelled(s)| == |Spelled(s[..n])| + 1 == |qs|;
        assert Spelled(s[..n]) == Spelled(s)[..k] == LettersOf(qs[..k]);
        assert Spelled(s)[k] == LettersOf(qs)[k] == Letter(qs[k]);
        assert Spelled(s)[k] == AsciiUpper(s[n]) as char;
        SpelledQuintets(s[..n], qs[..k]);
        UpperLetter(s[n], qs[k]);
        assert qs == qs[..k] + [qs[k]];
      }
    }
  }

  lemma LettersSnoc(qs: seq<nat>)
    requires qs != [] && forall i :: 0 <= i < |qs| ==> qs[i] < 32
    ensures LettersOf(qs) == LettersOf(qs[..|qs| - 1]) + [Letter(qs[|qs| - 1])]
  {
  }

  lemma SpelledSnoc(s: string, c: char)
    ensures Spelled(s + [c]) == Spelled(s) + if Skipped(c) then [] else [AsciiUpper(c) as char]
  {
    assert (s + [c])[..|s|] == s;
  }

  lemma {:induction false} LettersSpelled(qs: seq<nat>)
    requires forall i :: 0 <= i < |qs| ==> qs[i] < 32
    ensures Spelled(LettersOf(qs)) == LettersOf(qs)
  {
    if qs == [] {
      assert LettersOf(qs) == [];
    } else {
      hide Skipped, AsciiUpper, Letter, LettersOf, Spelled;
      var k := |qs| - 1;
      LettersSnoc(qs);
      LettersSpelled(qs[..k]);
      LetterIsUpper(qs[k]);
      SpelledSnoc(LettersOf(qs[..k]), Letter(qs[k]));
    }
  }

  lemma {:induction false} SkippedTail(s: string, t: string)
    requires forall i :: 0 <= i < |t| ==> Skipped(t[i])
    ensures Spelled(s + t) == Spelled(s)
  {
    if t == [] {
      assert s + t == s;
    } else {
      var t' := t[..|t| - 1];
      assert (s + t)[..|s + t| - 1] == s + t';
      SkippedTail(s, t');
    }
  }

  /** Any text whose characters, without padding and whitespace and whatever their
      case, are the letters of the encoding decodes to the bytes. */
  lemma DecodeInvertsEncode(b: seq<Byte>, s: string)
    requires b != [] && Spelled(s) == Spelled(Encode(b))
    ensures Decoded(s) == Some(b)
  {
    hide EncodeQuintets, Decoded, Spelled;
    var qs := EncodeQuintets(b);
    LettersSpelled(qs);
    SkippedTail(LettersOf(qs), seq((8 - |qs| % 8) % 8, _ => '='));
    SpelledQuintets(s, qs);
    QuintetsDecode(b, s);
  }

  /** The encoding itself decodes to the bytes. */
  lemma RoundTrip(b: seq<Byte>)
    requires b != []
    ensures Decoded(Encode(b)) == Some(b)
  {
    DecodeInvertsEncode(b, Encode(b));
  }

  // ---- which strings are accepted ----

  predicate InAlphabet(c: char) {
    'A' <= c <= 'Z' || 'a' <= c <= 'z' || '2' <= c <= '7'
  }

  /** A character beyond one byte whose low byte is a letter or digit of the
      alphabet: the narrowing reads it as that letter. */
  predicate Misread(c: char) {
    !IsWhitespace(c) && c as int >= 256 && (65 <= c as int % 256 <= 90 || 50 <= c as int % 256 <= 55)
  }

  lemma QuintetIff(c: char)
    requires !Skipped(c)
    ensures Quintet(c).Some? <==> InAlphabet(c) || Misread(c)
  {
  }

  lemma {:induction false} QuintetsIff(s: string)
    ensures Quintets(s).Some? <==> forall i :: 0 <= i < |s| ==> Skipped(s[i]) || InAlphabet(s[i]) || Misread(s[i])
    ensures Quintets(s).Some? ==> (Quintets(s).value != [] <==> exists i :: 0 <= i < |s| && !Skipped(s[i]))
  {
    if s != [] {
      var n := |s| - 1;
      QuintetsIff(s[..n]);
      if !Skipped(s[n]) { QuintetIff(s[n]); }
      if Quintets(s).Some? && Quintets(s).value != [] && Skipped(s[n]) {
        var i :| 0 <= i < |s[..n]| && !Skipped(s[..n][i]);
        assert !Skipped(s[i]);
      }
      if exists i :: 0 <= i < n && !Skipped(s[i]) {
        var i :| 0 <= i < n && !Skipped(s[i]);
        assert !Skipped(s[..n][i]);
      }
    }
  }

  /** The documented rule: a secret is accepted when, besides padding and
      whitespace, it has characters and they are all in the alphabet. */
  ghost predicate Documented(s: string) {
    && (exists i :: 0 <= i < |s| && !Skipped(s[i]))
    && (forall i :: 0 <= i < |s| ==> Skipped(s[i]) || InAlphabet(s[i]))
  }

  /** The decoder keeps the documented rule on `s` exactly when `s` has no
      misread character, or has besides one that nothing accepts. */
  lemma AcceptsAsDocumentedIff(s: string)
    ensures (Decoded(s).Some? <==> Documented(s))
       <==> (forall i :: 0 <= i < |s| ==> !Misread(s[i]))
            || (exists i :: 0 <= i < |s| && !Skipped(s[i]) && !InAlphabet(s[i]) && !Misread(s[i]))
  {
    QuintetsIff(s);
    if exists i :: 0 <= i < |s| && Misread(s[i]) {
      var i :| 0 <= i < |s| && Misread(s[i]);
      assert !Skipped(s[i]) && !InAlphabet(s[i]);
    }
  }

  /** A string the documentation says is refused: one letter, U+0141. */
  lemma MisreadExample()
    ensures Decoded("\U{0141}") == Some([]) && !Documented("\U{0141}")
  {
    var s := "\U{0141}";
    assert s[0] as int == 0x141;
    assert !Skipped(s[0]) && !InAlphabet(s[0]) && Quintet(s[0]) == Some(0);
    assert s[..0] == [];
    assert Quintets(s[..0]) == Some([]);
    assert Quintets(s) == Some([] + [0]);
    assert [] + [0] == [0];
    PowersOf2();
  }
}
