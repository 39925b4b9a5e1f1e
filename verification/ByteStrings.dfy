/** Byte strings, and the order in which the database keeps its keys. */
module ByteStrings {
  type byte = b: int | 0 <= b < 0x100
  type Bytes = seq<byte>

  /** Lexicographic order: a proper prefix comes before its extensions. */
  predicate Less(a: Bytes, b: Bytes) {
    b != [] && (a == [] || a[0] < b[0] || (a[0] == b[0] && Less(a[1..], b[1..])))
  }

  predicate AtMost(a: Bytes, b: Bytes) {
    a == b || Less(a, b)
  }

  lemma {:induction false} LessIrreflexive(a: Bytes)
    ensures !Less(a, a)
  {
    if a != [] {
      LessIrreflexive(a[1..]);
    }
  }

  lemma {:induction false} LessTransitive(a: Bytes, b: Bytes, c: Bytes)
    requires Less(a, b) && Less(b, c)
    ensures Less(a, c)
  {
    if a != [] && a[0] == b[0] == c[0] {
      LessTransitive(a[1..], b[1..], c[1..]);
    }
  }

  lemma AtMostTransitive(a: Bytes, b: Bytes, c: Bytes)
    requires AtMost(a, b) && AtMost(b, c)
    ensures AtMost(a, c)
  {
    if a != b && b != c {
      LessTransitive(a, b, c);
    }
  }

  /** `AtMost` and `Less` the other way round exclude each other and leave no third case. */
  lemma NotAtMost(a: Bytes, b: Bytes)
    ensures !AtMost(a, b) <==> Less(b, a)
  {
  }

  /** A common prefix does not take part in a comparison. */
  lemma {:induction false} LessAfterPrefix(p: Bytes, a: Bytes, b: Bytes)
    ensures Less(p + a, p + b) <==> Less(a, b)
  {
    if p == [] {
      assert p + a == a && p + b == b;
    } else {
      assert (p + a)[1..] == p[1..] + a && (p + b)[1..] == p[1..] + b;
      LessAfterPrefix(p[1..], a, b);
    }
  }

  /** Strings that differ before either one ends keep their order however they go on. */
  lemma {:induction false} LessExtended(a: Bytes, b: Bytes, x: Bytes, y: Bytes)
    requires Less(a, b) && !(a <= b)
    ensures Less(a + x, b + y)
  {
    assert (a + x)[1..] == a[1..] + x && (b + y)[1..] == b[1..] + y;
    if a[0] == b[0] {
      LessExtended(a[1..], b[1..], x, y);
    }
  }

  /** Whatever lies between two strings with a common prefix has that prefix too. */
  lemma {:induction false} PrefixBetween(p: Bytes, x: Bytes, k: Bytes, y: Bytes)
    requires AtMost(p + x, k) && AtMost(k, p + y)
    ensures p <= k
  {
    if p != [] {
      assert (p + x)[1..] == p[1..] + x && (p + y)[1..] == p[1..] + y;
      assert k != [] && k[0] == p[0];
      assert k == [k[0]] + k[1..] && p == [p[0]] + p[1..];
      PrefixBetween(p[1..], x, k[1..], y);
    }
  }
}
