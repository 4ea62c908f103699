/** Counters kept in a map, one per key. */
module Tally {

  /** The counters are the multiplicities of the counted secrets. */
  ghost predicate Tallies(counts: map<int, int>, secrets: seq<int>) {
    && (forall s :: s in counts <==> s in secrets)
    && (forall s :: s in counts ==> counts[s] == multiset(secrets)[s])
  }

  lemma TallySnoc(counts: map<int, int>, secrets: seq<int>, s: int)
    requires Tallies(counts, secrets)
    ensures Tallies(counts[s := if s in counts then counts[s] + 1 else 1], secrets + [s])
  {
    assert s !in secrets ==> multiset(secrets)[s] == 0;
  }

  ghost function Sum(counts: map<int, int>, keys: set<int>): int
    requires keys <= counts.Keys
  {
    if exists s :: s in keys then
      var s :| s in keys;
      counts[s] + Sum(counts, keys - {s})
    else 0
  }

  ghost function Total(counts: map<int, int>): int {
    Sum(counts, counts.Keys)
  }

  lemma {:induction false} SumRemove(counts: map<int, int>, keys: set<int>, s: int)
    requires keys <= counts.Keys && s in keys
    ensures Sum(counts, keys) == counts[s] + Sum(counts, keys - {s})
    decreases |keys|
  {
    var t :| t in keys && Sum(counts, keys) == counts[t] + Sum(counts, keys - {t});
    if t == s {
    } else {
      SumRemove(counts, keys - {t}, s);
      SumRemove(counts, keys - {s}, t);
      assert keys - {t} - {s} == keys - {s} - {t};
    }
  }

  lemma {:induction false} SumSame(a: map<int, int>, b: map<int, int>, keys: set<int>)
    requires keys <= a.Keys && keys <= b.Keys
    requires forall s :: s in keys ==> a[s] == b[s]
    ensures Sum(a, keys) == Sum(b, keys)
    decreases |keys|
  {
    if exists s :: s in keys {
      var s :| s in keys;
      SumRemove(a, keys, s);
      SumRemove(b, keys, s);
      SumSame(a, b, keys - {s});
    }
  }

  lemma TotalUpdate(counts: map<int, int>, s: int, n: int)
    ensures Total(counts[s := n]) == (if s in counts then Total(counts) - counts[s] else Total(counts)) + n
  {
    var updated := counts[s := n];
    SumRemove(updated, updated.Keys, s);
    SumSame(counts, updated, counts.Keys - {s});
    if s in counts {
      SumRemove(counts, counts.Keys, s);
      assert updated.Keys - {s} == counts.Keys - {s};
    } else {
      assert updated.Keys - {s} == counts.Keys == counts.Keys - {s};
    }
  }
}
