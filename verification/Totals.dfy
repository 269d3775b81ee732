/** Counting and summing the sizes of a finite map, for quotas. */
module Totals {

  ghost function Sum(m: map<string, nat>): nat {
    if m == map[] then 0
    else
      var k :| k in m;
      m[k] + Sum(m - {k})
  }

  lemma {:induction false} SumRemove(m: map<string, nat>, k: string)
    requires k in m
    ensures Sum(m) == m[k] + Sum(m - {k})
    decreases |m|
  {
    var x :| x in m && Sum(m) == m[x] + Sum(m - {x});
    if x != k {
      SumRemove(m - {x}, k);
      SumRemove(m - {k}, x);
      assert m - {x} - {k} == m - {k} - {x};
    }
  }

  ghost predicate Within(a: map<string, nat>, b: map<string, nat>) {
    forall k :: k in a ==> k in b && a[k] == b[k]
  }

  lemma {:induction false} WithinBounds(a: map<string, nat>, b: map<string, nat>)
    requires Within(a, b)
    ensures |a| <= |b| && Sum(a) <= Sum(b)
    decreases |a|
  {
    if a == map[] {
    } else {
      var k :| k in a;
      WithinBounds(a - {k}, b - {k});
      SumRemove(a, k);
      SumRemove(b, k);
    }
  }

  /** Within `b` but for one more entry. */
  lemma WithinButOne(a: map<string, nat>, b: map<string, nat>, k: string)
    requires Within(a - {k}, b) && k in a
    ensures |a| <= |b| + 1 && Sum(a) <= Sum(b) + a[k]
  {
    WithinBounds(a - {k}, b);
    SumRemove(a, k);
  }

  /** The recount a repository makes over its rows. */
  method SumValues(m: map<string, nat>) returns (total: nat)
    ensures total == Sum(m)
  {
    total := 0;
    var rest := m;
    while rest != map[]
      invariant total + Sum(rest) == Sum(m)
      decreases |rest|
    {
      var k :| k in rest;
      SumRemove(rest, k);
      total := total + rest[k];
      rest := rest - {k};
    }
  }
}
