/** One-time codes: `hotp`, `totp` and `dynamic_truncate` of
    `crates/cache-warden-cli/src/totp.rs`. The keyed hash is a parameter. */
module Hotp {
  import opened Wrappers
  import opened Bytes
  import opened Bits
  import opened Decimal

  type Text = seq<Byte>

  datatype Algorithm = Sha1 | Sha256 | Sha512

  datatype Params = Params(digits: U32, period: U64, algorithm: Algorithm)

  datatype OtpError = BadDigits(digits: U32) | BadPeriod

  /** The keyed hash: `(algorithm, key, message)` to digest. */
  type Hmac = (Algorithm, seq<Byte>, seq<Byte>) -> seq<Byte>

  function DigestLen(a: Algorithm): nat {
    match a case Sha1 => 20 case Sha256 => 32 case Sha512 => 64
  }

  ghost predicate IsHmac(mac: Hmac) {
    forall a, key, msg :: |mac(a, key, msg)| == DigestLen(a)
  }

  function Pow10(n: nat): (r: nat)
    ensures r > 0
  {
    if n == 0 then 1 else 10 * Pow10(n - 1)
  }

  /** The window the last nibble names, with its top bit cleared, in the shifts
      and ors of 32-bit words. */
  function Truncated31(digest: seq<Byte>): nat
    requires |digest| >= 19
  {
    AndMask(digest[|digest| - 1], 4);
    PowersOf2();
    var offset := BitAnd(digest[|digest| - 1], 0x0f);
    BitOr(BitOr(BitOr(
      Shl(BitAnd(digest[offset], 0x7f), 24, 32),
      Shl(digest[offset + 1], 16, 32)),
      Shl(digest[offset + 2], 8, 32)),
      digest[offset + 3])
  }

  function DynamicTruncate(digest: seq<Byte>, digits: nat): nat
    requires |digest| >= 19
  {
    Truncated31(digest) % Pow10(digits)
  }

  // ---- decimal printing, zero-padded to a width ----

  function PadLeft(s: Text, width: nat): Text {
    seq(if |s| < width then width - |s| else 0, _ => ZERO) + s
  }

  function HotpCode(key: seq<Byte>, counter: U64, p: Params, mac: Hmac): Result<Text, OtpError>
    requires IsHmac(mac)
  {
    if p.digits == 0 || p.digits > 9 then Err(BadDigits(p.digits))
    else
      var digest := mac(p.algorithm, key, BigEndian(counter, 8));
      Ok(PadLeft(Digits(DynamicTruncate(digest, p.digits)), p.digits))
  }

  function TotpCode(key: seq<Byte>, unixTime: U64, p: Params, mac: Hmac): Result<Text, OtpError>
    requires IsHmac(mac)
  {
    if p.period == 0 then Err(BadPeriod)
    else
      PeriodDivides(unixTime, p.period);
      HotpCode(key, unixTime / p.period, p, mac)
  }

  lemma PeriodDivides(t: nat, period: nat)
    requires period > 0
    ensures 0 <= t / period <= t
  {
    DivModSplit(t, period);
    ProductAtLeast(period, t / period);
  }

  // ---- the truncation is a 31-bit big-endian number ----

  lemma Value4(b: seq<Byte>)
    requires |b| == 4
    ensures Value(b) == 0x100_0000 * (b[0] as int) + 0x1_0000 * (b[1] as int) + 0x100 * (b[2] as int) + b[3] as int
  {
    assert b[..3][..2] == b[..2] && b[..2][..1] == b[..1] && b[..1][..0] == [];
    assert Value(b[..1]) == b[0];
    assert Value(b[..2]) == 256 * Value(b[..1]) + b[1];
    assert Value(b[..3]) == 256 * Value(b[..2]) + b[2];
  }

  /** The masks, shifts and ors compute the low 31 bits of the big-endian number
      at the offset, which the last digest byte gives modulo 16; every index is
      in range for any digest of at least 19 bytes. */
  lemma TruncationIsValue31(digest: seq<Byte>)
    requires |digest| >= 19
    ensures var offset := digest[|digest| - 1] % 16;
            offset + 4 <= |digest| && Truncated31(digest) == Value(digest[offset..offset + 4]) % 0x8000_0000
  {
    hide BitAnd, BitOr, Shl, Value, Pow2;
    PowersOf2();
    AndMask(digest[|digest| - 1], 4);
    var offset := digest[|digest| - 1] % 16;
    var w := digest[offset..offset + 4];
    AndMask(w[0], 7);
    ShiftsAdd(w[0] % 128, w[1], w[2], w[3]);
    Value4(w);
    ClearTopBit(w[0], 0x1_0000 * (w[1] as int) + 0x100 * (w[2] as int) + w[3] as int);
  }

  lemma ShiftsAdd(top: nat, b1: nat, b2: nat, b3: nat)
    requires top < 128 && b1 < 256 && b2 < 256 && b3 < 256
    ensures BitOr(BitOr(BitOr(Shl(top, 24, 32), Shl(b1, 16, 32)), Shl(b2, 8, 32)), b3)
         == 0x100_0000 * top + 0x1_0000 * b1 + 0x100 * b2 + b3
  {
    hide BitOr, Pow2;
    PowersOf2();
    WordPowers();
    OrDisjoint(top, 24, b1 * 0x1_0000);
    OrDisjoint(top * 256 + b1, 16, b2 * 256);
    OrDisjoint(top * 0x1_0000 + b1 * 256 + b2, 8, b3);
  }

  lemma ClearTopBit(b0: nat, rest: nat)
    requires b0 < 256 && rest < 0x100_0000
    ensures (0x100_0000 * b0 + rest) % 0x8000_0000 == 0x100_0000 * (b0 % 128) + rest
  {
  }

  // ---- the printed code ----

  lemma {:induction false} DecimalWidth(n: nat, w: nat)
    requires w >= 1
    ensures |Digits(n)| <= w <==> n < Pow10(w)
  {
    assert Pow10(1) == 10 * Pow10(0);
    if w == 1 {
      if n >= 10 { assert |Digits(n)| == |Digits(n / 10)| + 1; }
    } else if n >= 10 {
      DecimalWidth(n / 10, w - 1);
    } else {
      Pow10AtLeast(w);
    }
  }

  lemma {:induction false} Pow10AtLeast(w: nat)
    requires w >= 1
    ensures Pow10(w) >= 10
  {
    if w > 1 { Pow10AtLeast(w - 1); }
  }

  /** `w` digits of `n`, most significant first. */
  function FixedDigits(n: nat, w: nat): (s: Text)
    ensures |s| == w
  {
    if w == 0 then [] else FixedDigits(n / 10, w - 1) + [48 + n % 10]
  }

  lemma {:induction false} ZeroDigits(w: nat)
    ensures FixedDigits(0, w) == seq(w, _ => ZERO)
  {
    if w > 0 { ZeroDigits(w - 1); }
  }

  lemma {:induction false} PaddedIsFixed(n: nat, w: nat)
    requires w >= 1 && n < Pow10(w)
    ensures PadLeft(Digits(n), w) == FixedDigits(n, w)
  {
    DecimalWidth(n, w);
    if n < 10 {
      ZeroDigits(w - 1);
    } else {
      DecimalWidth(n, 1);
      assert Pow10(1) == 10;
      PaddedIsFixed(n / 10, w - 1);
      assert PadLeft(Digits(n), w) == PadLeft(Digits(n / 10), w - 1) + [48 + n % 10];
    }
  }

  lemma {:induction false} FixedDigitsValue(n: nat, w: nat)
    requires n < Pow10(w)
    ensures DigitsValue(FixedDigits(n, w)) == Some(n)
  {
    if w > 0 {
      FixedDigitsValue(n / 10, w - 1);
      assert FixedDigits(n, w)[..w - 1] == FixedDigits(n / 10, w - 1);
    }
  }

  /** A code has exactly `digits` characters, all decimal digits, and denotes
      the 31-bit truncation modulo a power of ten; outside 1..9 it is refused. */
  lemma CodeDenotesTruncation(key: seq<Byte>, counter: U64, p: Params, mac: Hmac)
    requires IsHmac(mac)
    ensures var r := HotpCode(key, counter, p, mac);
            var digest := mac(p.algorithm, key, BigEndian(counter, 8));
            var offset := digest[|digest| - 1] % 16;
            && (r.Ok? <==> 1 <= p.digits <= 9)
            && (r.Ok? ==>
                 && |r.value| == p.digits
                 && DigitsValue(r.value) == Some(Value(digest[offset..offset + 4]) % 0x8000_0000 % Pow10(p.digits)))
  {
    if 1 <= p.digits <= 9 {
      var digest := mac(p.algorithm, key, BigEndian(counter, 8));
      TruncationIsValue31(digest);
      var n := DynamicTruncate(digest, p.digits);
      PaddedIsFixed(n, p.digits);
      FixedDigitsValue(n, p.digits);
    }
  }

  lemma {:induction false} FixedDigitsMod(n: nat, w: nat)
    ensures FixedDigits(n % Pow10(w), w) == FixedDigits(n, w)
  {
    if w > 0 {
      var p := Pow10(w - 1);
      TenthMod(n, p);
      FixedDigitsMod(n / 10, w - 1);
    }
  }

  lemma TenthMod(n: nat, p: nat)
    requires p > 0
    ensures (n % (10 * p)) / 10 == (n / 10) % p && (n % (10 * p)) % 10 == n % 10
  {
    var q, r := (n / 10) / p, (n / 10) % p;
    DivModSplit(n / 10, p);
    assert q * (10 * p) == 10 * (q * p);
    DivModUnique(n, 10 * p, q, 10 * r + n % 10);
  }

  lemma {:induction false} FixedDigitsSuffix(n: nat, d: nat, e: nat)
    requires d <= e
    ensures FixedDigits(n, e)[e - d..] == FixedDigits(n, d)
  {
    if d > 0 {
      FixedDigitsSuffix(n / 10, d - 1, e - 1);
    }
  }

  /** A shorter code is the tail of any longer one. */
  lemma ShorterCodeIsSuffix(key: seq<Byte>, counter: U64, p: Params, longer: U32, mac: Hmac)
    requires IsHmac(mac) && 1 <= p.digits <= longer <= 9
    ensures var short := HotpCode(key, counter, p, mac);
            var long := HotpCode(key, counter, p.(digits := longer), mac);
            short.Ok? && long.Ok? && |long.value| == longer && short.value == long.value[longer - p.digits..]
  {
    var n := Truncated31(mac(p.algorithm, key, BigEndian(counter, 8)));
    PaddedIsFixed(n % Pow10(p.digits), p.digits);
    PaddedIsFixed(n % Pow10(longer), longer);
    FixedDigitsMod(n, p.digits);
    FixedDigitsMod(n, longer);
    FixedDigitsSuffix(n, p.digits, longer);
  }

  /** A time code is the counter code of its window: it is the same throughout
      the window and changes only with the window's number. */
  lemma CodeOfWindow(key: seq<Byte>, window: nat, t: U64, p: Params, mac: Hmac)
    requires IsHmac(mac) && p.period > 0
    requires window * p.period <= t < (window + 1) * p.period
    ensures window < 0x1_0000_0000_0000_0000
    ensures TotpCode(key, t, p, mac) == HotpCode(key, window, p, mac)
  {
    assert (window + 1) * p.period == window * p.period + p.period;
    DivModUnique(t, p.period, window, t - window * p.period);
    PeriodDivides(t, p.period);
  }
}
