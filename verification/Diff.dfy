/** The difference between two maps whose values carry their own hash. */
module Diff {

  /** Go's map loops visit the keys in an unspecified order, here an arbitrary choice from the keys
      that are still to be visited. */
  method Maps<K(==, !new), V>(current: map<K, V>, m: map<K, V>, hash: V -> K)
    returns (additions: map<K, V>, removals: map<K, V>)
    ensures forall k :: k in additions <==> k in m && (k !in current || hash(current[k]) != hash(m[k]))
    ensures forall k :: k in removals <==> k in current && (k !in m || hash(current[k]) != hash(m[k]))
    ensures forall k :: k in additions ==> additions[k] == m[k]
    ensures forall k :: k in removals ==> removals[k] == current[k]
  {
    additions, removals := map[], map[];
    var pending := m.Keys;
    while pending != {}
      invariant pending <= m.Keys
      invariant forall k :: k in additions <==>
        k in m.Keys - pending && (k !in current || hash(current[k]) != hash(m[k]))
      invariant forall k :: k in removals <==>
        k in m.Keys - pending && k in current && hash(current[k]) != hash(m[k])
      invariant forall k :: k in additions ==> additions[k] == m[k]
      invariant forall k :: k in removals ==> removals[k] == current[k]
      decreases pending
    {
      var key :| key in pending;
      pending := pending - {key};
      if key !in current {
        additions := additions[key := m[key]];
      } else if hash(current[key]) != hash(m[key]) {
        additions := additions[key := m[key]];
        removals := removals[key := current[key]];
      }
    }
    pending := current.Keys;
    while pending != {}
      invariant pending <= current.Keys
      invariant forall k :: k in removals <==>
        || (k in m && k in current && hash(current[k]) != hash(m[k]))
        || (k in current.Keys - pending && k !in m)
      invariant forall k :: k in removals ==> removals[k] == current[k]
      decreases pending
    {
      var key :| key in pending;
      pending := pending - {key};
      if key !in m {
        removals := removals[key := current[key]];
      }
    }
  }

  /** When every key is the hash of its value, an entry is never replaced: the additions are the
      new keys and the removals the missing ones. */
  lemma KeyedByHash<K, V>(current: map<K, V>, m: map<K, V>, hash: V -> K, additions: map<K, V>, removals: map<K, V>)
    requires forall k :: k in current ==> hash(current[k]) == k
    requires forall k :: k in m ==> hash(m[k]) == k
    requires forall k :: k in additions <==> k in m && (k !in current || hash(current[k]) != hash(m[k]))
    requires forall k :: k in removals <==> k in current && (k !in m || hash(current[k]) != hash(m[k]))
    ensures additions.Keys == m.Keys - current.Keys
    ensures removals.Keys == current.Keys - m.Keys
  {
    forall k | k in m.Keys - current.Keys ensures k in additions.Keys {
    }
    forall k | k in current.Keys - m.Keys ensures k in removals.Keys {
    }
  }
}
