/**
  Iteration over a `HashMap`: a fixed order of its entries that the
  program does not choose. It is given here by a choice of key at each
  step, so that two equal maps are iterated alike but nothing else about
  the order is known.
 */
module Iteration {

  /** The keys of `m`, each once, in iteration order. */
  ghost function Keys<V>(m: map<string, V>): (ks: seq<string>)
    ensures |ks| == |m|
    ensures forall k :: k in ks <==> k in m
    ensures forall i, j :: 0 <= i < j < |ks| ==> ks[i] != ks[j]
    decreases |m|
  {
    if m == map[] then []
    else
      var k :| k in m;
      var rest := Keys(m - {k});
      assert forall j :: 0 <= j < |rest| ==> rest[j] != k;
      [k] + rest
  }

  /** The (key, value) pairs of `m` in iteration order. */
  ghost function Entries<V>(m: map<string, V>): (es: seq<(string, V)>)
    ensures |es| == |m|
    ensures forall i :: 0 <= i < |es| ==> es[i].0 in m && es[i].1 == m[es[i].0]
    ensures forall k :: k in m ==> (k, m[k]) in es
    ensures forall i, j :: 0 <= i < j < |es| ==> es[i].0 != es[j].0
  {
    var ks := Keys(m);
    var es := seq(|ks|, i requires 0 <= i < |ks| => (ks[i], m[ks[i]]));
    EntriesCover(m, ks, es);
    es
  }

  /** Every key listed gives its pair. */
  lemma EntriesCover<V>(m: map<string, V>, ks: seq<string>, es: seq<(string, V)>)
    requires forall k :: k in ks <==> k in m
    requires |es| == |ks| && forall i :: 0 <= i < |ks| ==> ks[i] in m && es[i] == (ks[i], m[ks[i]])
    ensures forall k :: k in m ==> (k, m[k]) in es
  {
    forall k | k in m ensures (k, m[k]) in es {
      var i :| 0 <= i < |ks| && ks[i] == k;
      assert es[i] == (k, m[k]);
    }
  }
}
