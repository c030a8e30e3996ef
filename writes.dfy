/** A dictionary that receives a sequence of indexer writes `d[k] = v`, one
    after another: the registrar's handler map and its effects map are both
    filled this way, so the later write for a key wins. */
module Writes {

  /** The map after performing `writes` on `m` in order. */
  function Apply<K, V>(m: map<K, V>, writes: seq<(K, V)>): map<K, V>
  {
    if |writes| == 0 then m
    else
      var last := writes[|writes| - 1];
      Apply(m, writes[..|writes| - 1])[last.0 := last.1]
  }

  /** One more write on the end is one more indexer assignment. */
  lemma ApplySnoc<K, V>(m: map<K, V>, writes: seq<(K, V)>, w: (K, V))
    ensures Apply(m, writes + [w]) == Apply(m, writes)[w.0 := w.1]
  {
  }

  /** Writing `a` then `b` is writing `a + b`. */
  lemma {:induction false} ApplyConcat<K, V>(m: map<K, V>, a: seq<(K, V)>, b: seq<(K, V)>)
    ensures Apply(m, a + b) == Apply(Apply(m, a), b)
    decreases |b|
  {
    if |b| == 0 {
      assert a + b == a;
    } else {
      var init := b[..|b| - 1];
      var last := b[|b| - 1];
      assert b == init + [last];
      assert a + b == (a + init) + [last];
      ApplySnoc(m, a + init, last);
      ApplyConcat(m, a, init);
      ApplySnoc(Apply(m, a), init, last);
    }
  }

  /** Last write wins: the value of a key is the one its last write carried. */
  lemma {:induction false} ApplyLastWriteWins<K, V>(m: map<K, V>, writes: seq<(K, V)>, i: nat)
    requires i < |writes|
    requires forall j :: i < j < |writes| ==> writes[j].0 != writes[i].0
    ensures writes[i].0 in Apply(m, writes)
    ensures Apply(m, writes)[writes[i].0] == writes[i].1
    decreases |writes|
  {
    var init := writes[..|writes| - 1];
    if i < |writes| - 1 {
      ApplyLastWriteWins(m, init, i);
    }
  }

  /** A key that no write names keeps its old entry, or stays absent. */
  lemma {:induction false} ApplyUntouched<K, V>(m: map<K, V>, writes: seq<(K, V)>, k: K)
    requires forall j :: 0 <= j < |writes| ==> writes[j].0 != k
    ensures k in Apply(m, writes) <==> k in m
    ensures k in m ==> Apply(m, writes)[k] == m[k]
    decreases |writes|
  {
    if |writes| > 0 {
      ApplyUntouched(m, writes[..|writes| - 1], k);
    }
  }
}
