/** A run of `HashMap::insert` calls, as a sequence of key/value writes applied
    in order to a map: later writes to a key replace earlier ones, and no
    write removes a key. */
module Writes {

  /** The keys a run of writes touches. */
  function KeysOf<K, V>(w: seq<(K, V)>): set<K>
  {
    set i | 0 <= i < |w| :: w[i].0
  }

  /** The map after inserting every write of `w`, first to last: no key is
      lost, and the final write is the one its key holds. */
  function ApplyWrites<K, V>(m: map<K, V>, w: seq<(K, V)>): (r: map<K, V>)
    ensures m.Keys <= r.Keys
    ensures w != [] ==> w[|w| - 1].0 in r && r[w[|w| - 1].0] == w[|w| - 1].1
    decreases |w|
  {
    if w == [] then m
    else
      var last := w[|w| - 1];
      ApplyWrites(m, w[..|w| - 1])[last.0 := last.1]
  }

  /** Write `i` is the last one to key `k`. */
  predicate LastWriteAt<K(==), V>(w: seq<(K, V)>, k: K, i: nat)
  {
    i < |w| && w[i].0 == k && forall j :: i < j < |w| ==> w[j].0 != k
  }

  /** Inserting never removes: the keys afterwards are the old keys plus the written ones. */
  lemma {:induction false} ApplyWritesKeys<K, V>(m: map<K, V>, w: seq<(K, V)>)
    ensures ApplyWrites(m, w).Keys == m.Keys + KeysOf(w)
    decreases |w|
  {
    if w != [] {
      var init := w[..|w| - 1];
      ApplyWritesKeys(m, init);
      assert KeysOf(w) == KeysOf(init) + {w[|w| - 1].0} by {
        forall k | k in KeysOf(w) ensures k in KeysOf(init) + {w[|w| - 1].0} {
          var i :| 0 <= i < |w| && w[i].0 == k;
          if i < |w| - 1 { assert init[i] == w[i]; }
        }
        forall k | k in KeysOf(init) ensures k in KeysOf(w) {
          var i :| 0 <= i < |init| && init[i].0 == k;
          assert w[i] == init[i];
        }
      }
    }
  }

  /** A key no write touches keeps its old value, or stays absent. */
  lemma {:induction false} ApplyWritesUntouched<K, V>(m: map<K, V>, w: seq<(K, V)>, k: K)
    requires k !in KeysOf(w)
    ensures k in ApplyWrites(m, w) <==> k in m
    ensures k in m ==> ApplyWrites(m, w)[k] == m[k]
    decreases |w|
  {
    if w != [] {
      var init := w[..|w| - 1];
      assert w[|w| - 1].0 in KeysOf(w);
      forall i | 0 <= i < |init| ensures init[i].0 != k {
        assert init[i] == w[i];
      }
      ApplyWritesUntouched(m, init, k);
    }
  }

  /** A written key holds the value of its last write. */
  lemma {:induction false} ApplyWritesLast<K, V>(m: map<K, V>, w: seq<(K, V)>, k: K)
    requires k in KeysOf(w)
    ensures k in ApplyWrites(m, w)
    ensures exists i: nat :: LastWriteAt(w, k, i) && ApplyWrites(m, w)[k] == w[i].1
    decreases |w|
  {
    var n := |w| - 1;
    if w[n].0 == k {
      assert LastWriteAt(w, k, n);
    } else {
      var init := w[..n];
      var i :| 0 <= i < |w| && w[i].0 == k;
      assert init[i] == w[i];
      ApplyWritesLast(m, init, k);
      var j: nat :| LastWriteAt(init, k, j) && ApplyWrites(m, init)[k] == init[j].1;
      assert w[j] == init[j];
      assert LastWriteAt(w, k, j);
    }
  }

  /** Writing `a` then `b` is writing `a + b`. */
  lemma {:induction false} ApplyWritesAppend<K, V>(m: map<K, V>, a: seq<(K, V)>, b: seq<(K, V)>)
    ensures ApplyWrites(m, a + b) == ApplyWrites(ApplyWrites(m, a), b)
    decreases |b|
  {
    if b == [] {
      assert a + b == a;
    } else {
      var ab := a + b;
      assert ab[..|ab| - 1] == a + b[..|b| - 1];
      ApplyWritesAppend(m, a, b[..|b| - 1]);
    }
  }

  /** One more write is one more insert. */
  lemma ApplyWritesSnoc<K, V>(m: map<K, V>, w: seq<(K, V)>, k: K, v: V)
    ensures ApplyWrites(m, w + [(k, v)]) == ApplyWrites(m, w)[k := v]
  {
    assert (w + [(k, v)])[..|w|] == w;
  }

  /** A key written before a final write to another key keeps its last earlier write. */
  lemma ApplyWritesLastBefore<K, V>(m: map<K, V>, w: seq<(K, V)>, top: K, v: V, k: K)
    requires k in KeysOf(w) && k != top
    ensures k in ApplyWrites(m, w + [(top, v)])
    ensures exists i: nat :: LastWriteAt(w, k, i) && ApplyWrites(m, w + [(top, v)])[k] == w[i].1
  {
    ApplyWritesSnoc(m, w, top, v);
    ApplyWritesLast(m, w, k);
  }
}
