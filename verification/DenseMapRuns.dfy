/** Whole runs of DenseMap calls against an ordinary map. */
module DenseMapRuns {
  import opened DenseMaps

  datatype Call<K, V> =
    | Put(k: K, v: V)
    | Insert(k: K, v: V)
    | Construct(k: K)
    | Remove(k: K)
    | Clear
    | Compact
    | Reserve(entries: nat)

  /** What a call may do to an ordinary map.  Inserting a key whose value is
      purgeable finds the old value or, if that was purged, binds the new one;
      every other effect is certain. */
  ghost predicate Meant<K, V>(purgeable: V -> bool, dflt: V, before: map<K, V>, call: Call<K, V>, after: map<K, V>) {
    match call
    case Put(k, v) => after == before[k := v]
    case Insert(k, v) => Bound(purgeable, before, k, v, after)
    case Construct(k) => Bound(purgeable, before, k, dflt, after)
    case Remove(k) => after == before - {k}
    case Clear => after == map[]
    case Compact => after == before
    case Reserve(_) => after == before
  }

  ghost predicate Bound<K, V>(purgeable: V -> bool, before: map<K, V>, k: K, v: V, after: map<K, V>) {
    && (k !in before ==> after == before[k := v])
    && (k in before && !purgeable(before[k]) ==> after == before)
    && (k in before && purgeable(before[k]) ==> after == before || after == before[k := v])
  }

  /** The ordinary maps that a run goes through. */
  ghost predicate Trace<K, V>(purgeable: V -> bool, dflt: V, maps: seq<map<K, V>>, calls: seq<Call<K, V>>) {
    |maps| == |calls| + 1 && forall i :: 0 <= i < |calls| ==> Meant(purgeable, dflt, maps[i], calls[i], maps[i + 1])
  }

  /** The call can be made within the limits of 32-bit sizes. */
  predicate Within<K, V>(size: nat, call: Call<K, V>) {
    size <= MAX_BUCKETS && (call.Reserve? ==> call.entries <= MAX_BUCKETS)
  }

  /** One call. */
  method Step<K(==, !new), V(==)>(d: DenseMap<K, V>, call: Call<K, V>)
    requires d.Valid() && Within(d.buckets.Length, call)
    modifies d, d.buckets
    ensures d.Valid() && (d.buckets == old(d.buckets) || fresh(d.buckets))
    ensures Meant(d.purgeable, d.dflt, old(d.Model), call, d.Model)
  {
    match call
    case Put(k, v) => d.Assign(k, v);
    case Insert(k, v) => var _ := d.TryEmplace(k, v);
    case Construct(k) => var _ := d.FindAndConstruct(k);
    case Remove(k) => var _ := d.Erase(k);
    case Clear => d.Clear();
    case Compact => d.Compact();
    case Reserve(entries) => d.Reserve(entries);
  }

  /** Any run of calls, as long as the table stays within its limits: the table
      holds what an ordinary map would hold, less some purgeable bindings, and a
      lookup of any key tells the two apart only by a purged value. */
  method Run<K(==, !new), V(==)>(d: DenseMap<K, V>, calls: seq<Call<K, V>>, key: K)
    returns (n: nat, v: V, ghost maps: seq<map<K, V>>)
    requires d.Valid()
    modifies d, d.buckets
    ensures d.Valid() && n <= |calls| && (n < |calls| ==> !Within(d.buckets.Length, calls[n]))
    ensures Trace(d.purgeable, d.dflt, maps, calls[..n]) && maps[0] == old(d.Model) && maps[n] == d.Model
    ensures key !in maps[n] ==> v == d.dflt
    ensures key in maps[n] ==> v == maps[n][key] || (d.purgeable(maps[n][key]) && v == d.dflt)
  {
    n, maps := 0, [d.Model];
    while n < |calls|
      invariant n <= |calls| && d.Valid() && (d.buckets == old(d.buckets) || fresh(d.buckets))
      invariant Trace(d.purgeable, d.dflt, maps, calls[..n]) && maps[0] == old(d.Model) && maps[n] == d.Model
    {
      if !Within(d.buckets.Length, calls[n]) { break; }
      Step(d, calls[n]);
      TraceMore(d.purgeable, d.dflt, maps, calls, n, d.Model);
      maps := maps + [d.Model];
      n := n + 1;
    }
    v := d.Lookup(key);
  }

  lemma TraceMore<K, V>(purgeable: V -> bool, dflt: V, maps: seq<map<K, V>>, calls: seq<Call<K, V>>, n: nat,
                        after: map<K, V>)
    requires n < |calls| && Trace(purgeable, dflt, maps, calls[..n]) && Meant(purgeable, dflt, maps[n], calls[n], after)
    ensures Trace(purgeable, dflt, maps + [after], calls[..n + 1])
  {
  }
}
