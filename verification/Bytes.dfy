/** Bytes, fixed-width big-endian integers, and the ordering of byte strings. */
module Bytes {

  type Byte = b: int | 0 <= b < 256

  type U16 = n: int | 0 <= n < 0x1_0000
  type U32 = n: int | 0 <= n < 0x1_0000_0000
  type U64 = n: int | 0 <= n < 0x1_0000_0000_0000_0000

  /** The bytes of an ASCII literal. */
  function Ascii(s: string): (b: seq<Byte>)
    ensures |b| == |s|
  {
    seq(|s|, i requires 0 <= i < |s| => s[i] as int % 256)
  }

  function Zeros(n: nat): (z: seq<Byte>)
    ensures |z| == n && forall i :: 0 <= i < n ==> z[i] == 0
  {
    seq(n, _ => 0)
  }

  lemma SliceOfSlice(t: seq<Byte>, i: nat, j: nat, a: nat, b: nat)
    requires i <= j <= |t| && a <= b <= j - i
    ensures t[i..j][a..b] == t[i + a..i + b]
  {
    var x, y := t[i..j][a..b], t[i + a..i + b];
    assert |x| == |y|;
    forall m | 0 <= m < |x| ensures x[m] == y[m] {
      assert x[m] == t[i..j][a + m] == t[i + (a + m)];
      assert y[m] == t[i + a + m];
    }
  }

  /** The position of the first `b` in `s`, or `|s|`. */
  function Find(s: seq<Byte>, b: Byte): (i: nat)
    ensures i <= |s|
    ensures i < |s| ==> s[i] == b
    ensures forall j :: 0 <= j < i ==> s[j] != b
  {
    if s == [] || s[0] == b then 0 else 1 + Find(s[1..], b)
  }

  // ---- big-endian integers ----

  function Pow256(n: nat): (r: nat)
    ensures r > 0
  {
    if n == 0 then 1 else 256 * Pow256(n - 1)
  }

  /** The low `w` bytes of `v`, most significant first (`to_be_bytes`). */
  function BigEndian(v: nat, w: nat): (r: seq<Byte>)
    ensures |r| == w
  {
    if w == 0 then [] else BigEndian(v / 256, w - 1) + [v % 256]
  }

  /** The low 32 bits of `n`, big-endian (`as u32` followed by `to_be_bytes`). */
  function PutU32(n: nat): (r: seq<Byte>)
    ensures |r| == 4
  {
    BigEndian(n, 4)
  }

  /** The unsigned value of a big-endian byte string (`from_be_bytes`). */
  function Value(b: seq<Byte>): (v: nat)
    ensures v < Pow256(|b|)
  {
    if b == [] then 0 else 256 * Value(b[..|b| - 1]) + b[|b| - 1]
  }

  lemma {:induction false} ValueOfBigEndian(v: nat, w: nat)
    requires v < Pow256(w)
    ensures Value(BigEndian(v, w)) == v
  {
    if w > 0 {
      ValueOfBigEndian(v / 256, w - 1);
      assert BigEndian(v, w)[..w - 1] == BigEndian(v / 256, w - 1);
    }
  }

  lemma {:induction false} BigEndianOfValue(b: seq<Byte>)
    ensures BigEndian(Value(b), |b|) == b
  {
    if b != [] {
      hide Value, Pow256;
      BigEndianOfValue(b[..|b| - 1]);
      ValueUnfold(b);
      LastByte(Value(b[..|b| - 1]), b[|b| - 1]);
      assert b == b[..|b| - 1] + [b[|b| - 1]];
    }
  }

  lemma LastByte(high: nat, last: Byte)
    ensures (256 * high + last) / 256 == high && (256 * high + last) % 256 == last
  {
  }

  lemma {:induction false} ValueAppend(a: seq<Byte>, b: seq<Byte>)
    ensures Value(a + b) == Value(a) * Pow256(|b|) + Value(b)
  {
    if b == [] {
      assert a + b == a;
    } else {
      hide Value, Pow256;
      var b' := b[..|b| - 1];
      assert (a + b)[..|a + b| - 1] == a + b';
      ValueAppend(a, b');
      ValueUnfold(a + b);
      ValueUnfold(b);
      AppendStep(Value(a), Pow256(|b'|), Value(b'), b[|b| - 1], Pow256(|b|), Value(b), Value(a + b'), Value(a + b));
    }
  }

  lemma ValueUnfold(b: seq<Byte>)
    requires b != []
    ensures Value(b) == 256 * Value(b[..|b| - 1]) + b[|b| - 1] && Pow256(|b|) == 256 * Pow256(|b| - 1)
  {
  }

  lemma AppendStep(va: nat, p: nat, vb': nat, last: nat, pb: nat, vb: nat, vab': nat, vab: nat)
    requires pb == 256 * p && vab' == va * p + vb' && vab == 256 * vab' + last && vb == 256 * vb' + last
    ensures vab == va * pb + vb
  {
    assert va * (256 * p) == 256 * (va * p);
  }

  lemma PowersOf256()
    ensures Pow256(1) == 0x100
    ensures Pow256(2) == 0x1_0000
    ensures Pow256(4) == 0x1_0000_0000
    ensures Pow256(8) == 0x1_0000_0000_0000_0000
  {
    assert Pow256(1) == 256 * Pow256(0);
    assert Pow256(2) == 256 * Pow256(1);
    assert Pow256(3) == 256 * Pow256(2);
    assert Pow256(4) == 256 * Pow256(3);
    assert Pow256(5) == 256 * Pow256(4);
    assert Pow256(6) == 256 * Pow256(5);
    assert Pow256(7) == 256 * Pow256(6);
    assert Pow256(8) == 256 * Pow256(7);
  }

  lemma {:induction false} Pow256Monotone(m: nat, n: nat)
    requires m <= n
    ensures Pow256(m) <= Pow256(n)
  {
    if m < n {
      Pow256Monotone(m, n - 1);
    }
  }

  // ---- lexicographic order (Rust's `Ord` for `str` and `[u8]`) ----

  predicate Less(a: seq<Byte>, b: seq<Byte>) {
    b != [] && (a == [] || a[0] < b[0] || (a[0] == b[0] && Less(a[1..], b[1..])))
  }

  lemma {:induction false} LessIrreflexive(a: seq<Byte>)
    ensures !Less(a, a)
  {
    if a != [] {
      LessIrreflexive(a[1..]);
    }
  }

  lemma {:induction false} LessTransitive(a: seq<Byte>, b: seq<Byte>, c: seq<Byte>)
    requires Less(a, b) && Less(b, c)
    ensures Less(a, c)
  {
    if a != [] && a[0] == b[0] == c[0] {
      LessTransitive(a[1..], b[1..], c[1..]);
    }
  }

  lemma {:induction false} LessTotal(a: seq<Byte>, b: seq<Byte>)
    ensures Less(a, b) || a == b || Less(b, a)
  {
    if a != [] && b != [] && a[0] == b[0] {
      LessTotal(a[1..], b[1..]);
      assert a == [a[0]] + a[1..] && b == [b[0]] + b[1..];
    }
  }

  // ---- sorted, duplicate-free lists (`sort` followed by `dedup`) ----

  ghost predicate StrictlySorted(s: seq<seq<Byte>>) {
    forall i, j :: 0 <= i < j < |s| ==> Less(s[i], s[j])
  }

  function Insert(x: seq<Byte>, s: seq<seq<Byte>>): (r: seq<seq<Byte>>)
    ensures forall k :: k in r <==> k == x || k in s
  {
    if s == [] then [x]
    else if x == s[0] then s
    else if Less(x, s[0]) then [x] + s
    else
      assert s == [s[0]] + s[1..];
      [s[0]] + Insert(x, s[1..])
  }

  lemma {:induction false} InsertSorted(x: seq<Byte>, s: seq<seq<Byte>>)
    requires StrictlySorted(s)
    ensures StrictlySorted(Insert(x, s))
  {
    if s == [] || x == s[0] {
    } else if Less(x, s[0]) {
      forall j | 0 < j < |s| ensures Less(x, s[j]) {
        LessTransitive(x, s[0], s[j]);
      }
    } else {
      LessTotal(x, s[0]);
      InsertSorted(x, s[1..]);
      var t := Insert(x, s[1..]);
      forall j | 0 <= j < |t| ensures Less(s[0], t[j]) {
        assert t[j] in t;
        if t[j] != x {
          assert t[j] in s[1..];
        }
      }
    }
  }

  function SortDedup(xs: seq<seq<Byte>>): (r: seq<seq<Byte>>)
    ensures forall k :: k in r <==> k in xs
  {
    if xs == [] then [] else
      assert xs == [xs[0]] + xs[1..];
      Insert(xs[0], SortDedup(xs[1..]))
  }

  lemma {:induction false} SortDedupSorted(xs: seq<seq<Byte>>)
    ensures StrictlySorted(SortDedup(xs))
  {
    if xs != [] {
      SortDedupSorted(xs[1..]);
      InsertSorted(xs[0], SortDedup(xs[1..]));
    }
  }

  /** A strictly increasing list is determined by its members. */
  lemma {:induction false} StrictlySortedUnique(a: seq<seq<Byte>>, b: seq<seq<Byte>>)
    requires StrictlySorted(a) && StrictlySorted(b)
    requires forall k :: k in a <==> k in b
    ensures a == b
  {
    if a != [] && b != [] {
      assert a[0] in b && b[0] in a;
      LeastIsFirst(a, b[0]);
      LeastIsFirst(b, a[0]);
      LessIrreflexive(a[0]);
      if a[0] != b[0] {
        LessTransitive(a[0], b[0], a[0]);
      }
      assert a == [a[0]] + a[1..] && b == [b[0]] + b[1..];
      forall k ensures k in a[1..] <==> k in b[1..] {
        assert a[0] !in a[1..] && b[0] !in b[1..];
        assert k in a <==> k in b;
      }
      StrictlySortedUnique(a[1..], b[1..]);
    } else {
      NonemptyHasMember(a);
      NonemptyHasMember(b);
    }
  }

  lemma NonemptyHasMember(a: seq<seq<Byte>>)
    ensures a == [] || exists k :: k in a
  {
    if a != [] {
      assert a[0] in a;
    }
  }

  lemma LeastIsFirst(a: seq<seq<Byte>>, k: seq<Byte>)
    requires StrictlySorted(a) && k in a
    ensures k == a[0] || Less(a[0], k)
  {
    var i :| 0 <= i < |a| && a[i] == k;
  }
}
