/**
 Reverse iteration over an ordered key-value database: where an iterator stands after
 a seek, and after a step. The order is the one in ByteStrings.
 */
module SortedKeys {
  import opened ByteStrings
  import opened Wrappers

  /** Whether a key counts as reached from the target, which itself counts or not. */
  predicate Reached(k: Bytes, target: Bytes, strict: bool) {
    if strict then Less(k, target) else AtMost(k, target)
  }

  /** A reverse iterator stands on the greatest reached key, if there is one. */
  ghost predicate Stands(keys: set<Bytes>, target: Bytes, strict: bool, cursor: Option<Bytes>) {
    match cursor
    case None => forall k :: k in keys ==> !Reached(k, target, strict)
    case Some(c) =>
      && c in keys && Reached(c, target, strict)
      && forall k :: k in keys && Reached(k, target, strict) ==> AtMost(k, c)
  }

  /** A seek goes to the target or below, a step to below the current key. */
  ghost predicate SeeksTo(keys: set<Bytes>, target: Bytes, cursor: Option<Bytes>) {
    Stands(keys, target, false, cursor)
  }

  ghost predicate StepsTo(keys: set<Bytes>, current: Bytes, cursor: Option<Bytes>) {
    Stands(keys, current, true, cursor)
  }

  /** it.ValidForPrefix */
  predicate ValidForPrefix(cursor: Option<Bytes>, prefix: Bytes) {
    cursor.Some? && prefix <= cursor.value
  }

  method Find(keys: set<Bytes>, target: Bytes, strict: bool) returns (cursor: Option<Bytes>)
    ensures Stands(keys, target, strict, cursor)
  {
    cursor := None;
    var rest := keys;
    while rest != {}
      invariant rest <= keys
      invariant Stands(keys - rest, target, strict, cursor)
      decreases rest
    {
      var k :| k in rest;
      if Reached(k, target, strict) && (cursor.None? || Less(cursor.value, k)) {
        Better(keys - rest, target, strict, cursor, k);
        cursor := Some(k);
      } else if Reached(k, target, strict) {
        NotAtMost(k, cursor.value);
      }
      assert keys - (rest - {k}) == keys - rest + {k};
      rest := rest - {k};
    }
    assert keys - rest == keys;
  }

  method Seek(keys: set<Bytes>, target: Bytes) returns (cursor: Option<Bytes>)
    ensures SeeksTo(keys, target, cursor)
  {
    cursor := Find(keys, target, false);
  }

  method Step(keys: set<Bytes>, current: Bytes) returns (cursor: Option<Bytes>)
    ensures StepsTo(keys, current, cursor)
  {
    cursor := Find(keys, current, true);
  }

  lemma Better(seen: set<Bytes>, target: Bytes, strict: bool, cursor: Option<Bytes>, k: Bytes)
    requires Stands(seen, target, strict, cursor) && Reached(k, target, strict)
    requires cursor.None? || Less(cursor.value, k)
    ensures Stands(seen + {k}, target, strict, Some(k))
  {
    forall j | j in seen && Reached(j, target, strict)
      ensures AtMost(j, k)
    {
      AtMostTransitive(j, cursor.value, k);
    }
  }
}
