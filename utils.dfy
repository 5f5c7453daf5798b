/** `get_element_counts`: how many particles carry each element label. */
module Utils {
  import opened Particle

  /** `d.get(key, default)` of a Python dictionary. */
  function Get(d: map<string, nat>, key: string, default: nat): (v: nat)
    ensures key in d ==> v == d[key]
    ensures key !in d ==> v == default
  {
    if key in d then d[key] else default
  }

  /** The sum of the values stored under `keys`. */
  ghost function Total(counts: map<string, nat>, keys: set<string>): nat
    requires keys <= counts.Keys
    decreases keys
  {
    if keys == {} then 0
    else
      var e :| e in keys;
      counts[e] + Total(counts, keys - {e})
  }

  /** Any one key can be taken out of the sum first. */
  lemma {:induction false} TotalRemove(counts: map<string, nat>, keys: set<string>, x: string)
    requires keys <= counts.Keys && x in keys
    ensures Total(counts, keys) == counts[x] + Total(counts, keys - {x})
    decreases keys
  {
    var e :| e in keys && Total(counts, keys) == counts[e] + Total(counts, keys - {e});
    if e != x {
      TotalRemove(counts, keys - {e}, x);
      TotalRemove(counts, keys - {x}, e);
      assert keys - {e} - {x} == keys - {x} - {e};
    }
  }

  /** Two maps that agree on `keys` have the same sum over them. */
  lemma {:induction false} TotalAgree(c1: map<string, nat>, c2: map<string, nat>, keys: set<string>)
    requires keys <= c1.Keys && keys <= c2.Keys
    requires forall e :: e in keys ==> c1[e] == c2[e]
    ensures Total(c1, keys) == Total(c2, keys)
    decreases keys
  {
    if keys != {} {
      var e :| e in keys;
      TotalRemove(c1, keys, e);
      TotalRemove(c2, keys, e);
      TotalAgree(c1, c2, keys - {e});
    }
  }

  /** Adding one to the count of `e` (a new key or an existing one) adds one
      to the sum of all counts. */
  lemma Increment(counts: map<string, nat>, e: string)
    ensures Total(counts[e := Get(counts, e, 0) + 1], counts.Keys + {e}) == Total(counts, counts.Keys) + 1
  {
    var next := counts[e := Get(counts, e, 0) + 1];
    var rest := counts.Keys - {e};
    TotalRemove(next, counts.Keys + {e}, e);
    assert counts.Keys + {e} - {e} == rest;
    TotalAgree(next, counts, rest);
    if e in counts {
      TotalRemove(counts, counts.Keys, e);
    } else {
      assert rest == counts.Keys;
    }
  }

  /** The labels that occur in `elements`. */
  ghost function Labels(elements: seq<string>): set<string> {
    set e | e in elements
  }

  /** `get_element_counts`: one entry per label that occurs, holding the
      number of its occurrences; the counts add up to the number of labels. */
  method GetElementCounts(particles: ParticleSystem) returns (counts: map<string, nat>)
    ensures counts.Keys == Labels(particles.elements)
    ensures forall e :: e in counts ==> counts[e] == multiset(particles.elements)[e] && counts[e] >= 1
    ensures Total(counts, counts.Keys) == |particles.elements|
    ensures particles.Valid() ==> Total(counts, counts.Keys) == particles.NParticles()
    ensures particles.elements == [] ==> counts == map[]
  {
    var elements := particles.elements;
    counts := map[];
    for i := 0 to |elements|
      invariant counts.Keys == Labels(elements[..i])
      invariant forall e :: e in counts ==> counts[e] == multiset(elements[..i])[e]
      invariant Total(counts, counts.Keys) == i
    {
      var elem := elements[i];
      assert elements[..i + 1] == elements[..i] + [elem];
      ghost var before := counts;
      Increment(counts, elem);
      counts := counts[elem := Get(counts, elem, 0) + 1];
      assert counts.Keys == before.Keys + {elem};
    }
    assert elements[..|elements|] == elements;
  }
}
