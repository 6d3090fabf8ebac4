/** Namespaces and composed keys: `crates/cache-warden-cli/src/namespace.rs`. */
module Namespace {
  import opened Wrappers
  import opened Bytes

  const SLASH: Byte := 47

  /** `[A-Za-z0-9_]` */
  predicate IsIdentByte(b: Byte) {
    65 <= b <= 90 || 97 <= b <= 122 || 48 <= b <= 57 || b == 95
  }

  predicate IsIdentifier(s: seq<Byte>) {
    s != [] && forall i :: 0 <= i < |s| ==> IsIdentByte(s[i])
  }

  function Compose(ns: seq<Byte>, key: seq<Byte>): seq<Byte> {
    ns + [SLASH] + key
  }

  /** Split at the first `/`; both halves must be identifiers. */
  function SplitComposed(s: seq<Byte>): Option<(seq<Byte>, seq<Byte>)> {
    var i := Find(s, SLASH);
    if i == |s| then None
    else if IsIdentifier(s[..i]) && IsIdentifier(s[i + 1..]) then Some((s[..i], s[i + 1..]))
    else None
  }

  function Qualify(referenceKey: seq<Byte>, ctx: seq<Byte>): seq<Byte> {
    if SLASH in referenceKey then referenceKey else Compose(ctx, referenceKey)
  }

  /** Composition and splitting are mutually inverse, and nothing else splits. */
  lemma SplitIffComposed(s: seq<Byte>, ns: seq<Byte>, key: seq<Byte>)
    ensures SplitComposed(s) == Some((ns, key))
       <==> IsIdentifier(ns) && IsIdentifier(key) && s == Compose(ns, key)
  {
    var i := Find(s, SLASH);
    if IsIdentifier(ns) && IsIdentifier(key) && s == Compose(ns, key) {
      assert s[|ns|] == SLASH;
      assert forall j :: 0 <= j < |ns| ==> s[j] == ns[j];
      assert i == |ns|;
      assert s[..i] == ns && s[i + 1..] == key;
    }
    if i < |s| {
      assert s == Compose(s[..i], s[i + 1..]);
    }
  }

  /** Qualifying is idempotent, whatever the second context is. */
  lemma QualifyAbsolute(k: seq<Byte>, ctx: seq<Byte>, other: seq<Byte>)
    ensures Qualify(Qualify(k, ctx), other) == Qualify(k, ctx)
  {
    if SLASH !in k {
      assert Compose(ctx, k)[|ctx|] == SLASH;
    }
  }

  /** Comparing composed keys is comparing (namespace, key) pairs: `/` sorts
      below every identifier byte. */
  lemma {:induction false} ComposedOrder(ns1: seq<Byte>, k1: seq<Byte>, ns2: seq<Byte>, k2: seq<Byte>)
    requires forall i :: 0 <= i < |ns1| ==> IsIdentByte(ns1[i])
    requires forall i :: 0 <= i < |ns2| ==> IsIdentByte(ns2[i])
    ensures Less(Compose(ns1, k1), Compose(ns2, k2))
       <==> Less(ns1, ns2) || (ns1 == ns2 && Less(k1, k2))
  {
    var a, b := Compose(ns1, k1), Compose(ns2, k2);
    if ns1 == [] && ns2 == [] {
      assert a[1..] == k1 && b[1..] == k2;
    } else if ns1 != [] && ns2 != [] {
      assert a[1..] == Compose(ns1[1..], k1);
      assert b[1..] == Compose(ns2[1..], k2);
      ComposedOrder(ns1[1..], k1, ns2[1..], k2);
      if ns1[0] == ns2[0] && ns1[1..] == ns2[1..] {
        assert ns1 == [ns1[0]] + ns1[1..] && ns2 == [ns2[0]] + ns2[1..];
      }
    } else if ns1 == [] {
      assert a[0] == SLASH && b[0] == ns2[0];
    } else {
      assert b[0] == SLASH && a[0] == ns1[0];
    }
  }
}
