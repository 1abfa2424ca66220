/** Counting the threads that are in a given phase. */
module ThreadCount {
  import opened Common

  type Tid = nat

  ghost function Those<V>(m: map<Tid, V>, p: V -> bool): set<Tid> {
    set k | k in m && p(m[k])
  }

  ghost function Count<V>(m: map<Tid, V>, p: V -> bool): nat {
    |Those(m, p)|
  }

  lemma CountUpdate<V>(m: map<Tid, V>, k: Tid, v: V, p: V -> bool)
    requires k in m
    ensures Count(m[k := v], p) == Count(m, p) - One(p(m[k])) + One(p(v))
  {
    var m' := m[k := v];
    var others := Those(m, p) - {k};
    assert Those(m, p) == if p(m[k]) then others + {k} else others;
    assert Those(m', p) == if p(v) then others + {k} else others;
  }

  lemma CountPositive<V>(m: map<Tid, V>, k: Tid, p: V -> bool)
    requires k in m && p(m[k])
    ensures Count(m, p) > 0
  {
    assert k in Those(m, p);
  }

  lemma CountZero<V>(m: map<Tid, V>, p: V -> bool)
    ensures Count(m, p) == 0 <==> forall k | k in m :: !p(m[k])
  {
    if k :| k in m && p(m[k]) {
      CountPositive(m, k, p);
    } else {
      assert Those(m, p) == {};
    }
  }

  lemma CountAtMost<V>(m: map<Tid, V>, p: V -> bool)
    ensures Count(m, p) <= |m.Keys|
  {
    assert m.Keys == Those(m, p) + (m.Keys - Those(m, p));
  }
}
