/** A JavaScript object or `Map` as the ordered sequence of its entries, in the
    order `Object.entries` / `Map.prototype.values` enumerate them.  Lookup
    finds the entry with the key, `set` replaces a present key's value in
    place and appends a new key at the end. */
module JsObject {
  import opened Wrappers

  type Entries<V> = seq<(string, V)>

  function Keys<V>(m: Entries<V>): (ks: seq<string>)
    ensures |ks| == |m|
    ensures forall i :: 0 <= i < |m| ==> ks[i] == m[i].0
  {
    seq(|m|, i requires 0 <= i < |m| => m[i].0)
  }

  predicate DistinctKeys<V>(m: Entries<V>) {
    forall i, j :: 0 <= i < j < |m| ==> m[i].0 != m[j].0
  }

  /** Position of the first occurrence of `k` in `ks`, or `|ks|` when absent. */
  function IndexOf(ks: seq<string>, k: string): (i: nat)
    ensures i <= |ks|
    ensures i < |ks| ==> ks[i] == k
    ensures forall j :: 0 <= j < i ==> ks[j] != k
  {
    if ks == [] then 0 else if ks[0] == k then 0 else 1 + IndexOf(ks[1..], k)
  }

  /** `obj[k]` / `map.get(k)`: the value of the entry with key `k`. */
  function Get<V>(m: Entries<V>, k: string): (r: Option<V>)
    ensures r.None? <==> k !in Keys(m)
    ensures r.Some? ==> exists i :: 0 <= i < |m| && m[i] == (k, r.value)
  {
    var i := IndexOf(Keys(m), k);
    if i < |m| then Some(m[i].1) else None
  }

  /** `map.set(k, v)`: a present key keeps its position and takes the new
      value; a new key is appended. */
  function Put<V>(m: Entries<V>, k: string, v: V): (r: Entries<V>)
    ensures k in Keys(m) ==> Keys(r) == Keys(m)
    ensures k !in Keys(m) ==> r == m + [(k, v)]
    ensures Get(r, k) == Some(v)
  {
    var i := IndexOf(Keys(m), k);
    if i < |m| then
      assert Keys(m[i := (k, v)]) == Keys(m);
      m[i := (k, v)]
    else
      assert Keys(m + [(k, v)]) == Keys(m) + [k];
      m + [(k, v)]
  }

  /** `set` leaves every other key's value alone. */
  lemma PutGetOther<V>(m: Entries<V>, k: string, v: V, k': string)
    requires k' != k
    ensures Get(Put(m, k, v), k') == Get(m, k')
  {
    var r := Put(m, k, v);
    if k !in Keys(m) {
      assert Keys(r) == Keys(m) + [k];
      if k' in Keys(m) {
        var i := IndexOf(Keys(m), k');
        assert IndexOf(Keys(r), k') == i by {
          assert Keys(r)[i] == k';
          assert forall j :: 0 <= j < i ==> Keys(r)[j] == Keys(m)[j];
          assert forall j :: 0 <= j < IndexOf(Keys(r), k') ==> Keys(r)[j] != k';
        }
        assert r[i] == m[i];
      }
    }
  }

  /** `set` never creates a second entry for a key. */
  lemma PutDistinct<V>(m: Entries<V>, k: string, v: V)
    requires DistinctKeys(m)
    ensures DistinctKeys(Put(m, k, v))
  {
    var r := Put(m, k, v);
    if k !in Keys(m) {
      forall i, j | 0 <= i < j < |r| ensures r[i].0 != r[j].0 {
        if j == |m| {
          assert Keys(m)[i] == r[i].0;
        }
      }
    } else {
      forall i, j | 0 <= i < j < |r| ensures r[i].0 != r[j].0 {
        assert Keys(r)[i] == Keys(m)[i] && Keys(r)[j] == Keys(m)[j];
      }
    }
  }

  /** Applies `set` for each entry of `es` in order. */
  function PutAll<V>(m: Entries<V>, es: Entries<V>): Entries<V>
  {
    if es == [] then m
    else
      var last := es[|es| - 1];
      Put(PutAll(m, es[..|es| - 1]), last.0, last.1)
  }

  /** `Object.fromEntries(es)` / `new Map(es)`. */
  function FromEntries<V>(es: Entries<V>): Entries<V>
  {
    PutAll([], es)
  }

  /** The value of the last entry of `es` with key `k`. */
  function LastValue<V>(es: Entries<V>, k: string): (r: Option<V>)
    ensures r.None? <==> k !in Keys(es)
    ensures r.Some? ==> exists i :: 0 <= i < |es| && es[i] == (k, r.value)
  {
    if es == [] then None
    else
      var last := es[|es| - 1];
      assert Keys(es) == Keys(es[..|es| - 1]) + [last.0];
      if last.0 == k then Some(last.1)
      else
        var r := LastValue(es[..|es| - 1], k);
        assert r.Some? ==> exists i :: 0 <= i < |es| && es[i] == (k, r.value) by {
          if r.Some? {
            var i :| 0 <= i < |es| - 1 && es[..|es| - 1][i] == (k, r.value);
            assert es[i] == (k, r.value);
          }
        }
        r
  }

  /** Key `k1` occurs in `es` before any occurrence of key `k2`. */
  ghost predicate FirstBefore<V>(es: Entries<V>, k1: string, k2: string) {
    exists a :: 0 <= a < |es| && es[a].0 == k1 && forall b :: 0 <= b <= a ==> es[b].0 != k2
  }

  /** After a run of `set`s, a key holds the value of its last entry in `es`,
      and a key `es` never mentions keeps its old value. */
  lemma {:induction false} PutAllGet<V>(m: Entries<V>, es: Entries<V>, k: string)
    ensures Get(PutAll(m, es), k) == if k in Keys(es) then LastValue(es, k) else Get(m, k)
  {
    if es != [] {
      var init := es[..|es| - 1];
      var last := es[|es| - 1];
      assert Keys(es) == Keys(init) + [last.0];
      PutAllGet(m, init, k);
      if k != last.0 {
        PutGetOther(PutAll(m, init), last.0, last.1, k);
      }
    }
  }

  /** The keys after a run of `set`s are the old keys and those of `es`. */
  lemma {:induction false} PutAllKeys<V>(m: Entries<V>, es: Entries<V>, k: string)
    ensures k in Keys(PutAll(m, es)) <==> k in Keys(m) || k in Keys(es)
  {
    if es != [] {
      var init := es[..|es| - 1];
      var last := es[|es| - 1];
      var prev := PutAll(m, init);
      assert Keys(es) == Keys(init) + [last.0];
      PutAllKeys(m, init, k);
      if last.0 !in Keys(prev) {
        assert Keys(prev + [last]) == Keys(prev) + [last.0];
      }
    }
  }

  /** A run of `set`s never creates a second entry for a key. */
  lemma {:induction false} PutAllDistinct<V>(m: Entries<V>, es: Entries<V>)
    requires DistinctKeys(m)
    ensures DistinctKeys(PutAll(m, es))
  {
    if es != [] {
      PutAllDistinct(m, es[..|es| - 1]);
      PutDistinct(PutAll(m, es[..|es| - 1]), es[|es| - 1].0, es[|es| - 1].1);
    }
  }

  lemma {:induction false} PutAllAppend<V>(m: Entries<V>, a: Entries<V>, b: Entries<V>)
    ensures PutAll(m, a + b) == PutAll(PutAll(m, a), b)
    decreases |b|
  {
    if b == [] {
      assert a + b == a;
    } else {
      assert (a + b)[..|a + b| - 1] == a + b[..|b| - 1];
      assert (a + b)[|a + b| - 1] == b[|b| - 1];
      PutAllAppend(m, a, b[..|b| - 1]);
    }
  }

  /** Keys of `Object.fromEntries(es)` appear in the order of their first
      occurrence in `es`. */
  lemma {:induction false} FromEntriesOrder<V>(es: Entries<V>)
    ensures forall i, j :: 0 <= i < j < |FromEntries(es)| ==>
      FirstBefore(es, FromEntries(es)[i].0, FromEntries(es)[j].0)
  {
    if es != [] {
      var init := es[..|es| - 1];
      var last := es[|es| - 1];
      var prev := FromEntries(init);
      var r := FromEntries(es);
      assert r == Put(prev, last.0, last.1);
      FromEntriesOrder(init);
      if last.0 in Keys(prev) {
        assert Keys(r) == Keys(prev);
        forall i, j | 0 <= i < j < |r| ensures FirstBefore(es, r[i].0, r[j].0) {
          assert r[i].0 == Keys(r)[i] == Keys(prev)[i] == prev[i].0;
          assert r[j].0 == Keys(r)[j] == Keys(prev)[j] == prev[j].0;
          FirstBeforeSnoc(es, r[i].0, r[j].0);
        }
      } else {
        assert r == prev + [(last.0, last.1)];
        forall i, j | 0 <= i < j < |r| ensures FirstBefore(es, r[i].0, r[j].0) {
          if j < |prev| {
            assert r[i] == prev[i] && r[j] == prev[j];
            FirstBeforeSnoc(es, r[i].0, r[j].0);
          } else {
            assert r[i] == prev[i];
            PutAllKeys([], init, last.0);
            PutAllKeys([], init, r[i].0);
            assert r[i].0 in Keys(prev);
            FirstBeforeNew(es, r[i].0);
          }
        }
      }
    }
  }

  /** An order witnessed before the last entry is witnessed with it. */
  lemma FirstBeforeSnoc<V>(es: Entries<V>, k1: string, k2: string)
    requires es != [] && FirstBefore(es[..|es| - 1], k1, k2)
    ensures FirstBefore(es, k1, k2)
  {
    var init := es[..|es| - 1];
    var a :| 0 <= a < |init| && init[a].0 == k1 && forall b :: 0 <= b <= a ==> init[b].0 != k2;
    assert es[a].0 == k1;
    assert forall b :: 0 <= b <= a ==> es[b] == init[b];
  }

  /** A key met before a last key that is new comes first. */
  lemma FirstBeforeNew<V>(es: Entries<V>, k1: string)
    requires es != [] && k1 in Keys(es[..|es| - 1]) && es[|es| - 1].0 !in Keys(es[..|es| - 1])
    ensures FirstBefore(es, k1, es[|es| - 1].0)
  {
    var init := es[..|es| - 1];
    var a :| 0 <= a < |init| && Keys(init)[a] == k1;
    assert es[a].0 == k1;
    forall b | 0 <= b <= a ensures es[b].0 != es[|es| - 1].0 {
      assert es[b] == init[b];
      assert Keys(init)[b] == init[b].0;
    }
  }

  /** The last entry with key `k` gives `LastValue`. */
  lemma {:induction false} LastValueAt<V>(es: Entries<V>, j: nat)
    requires j < |es|
    requires forall b :: j < b < |es| ==> es[b].0 != es[j].0
    ensures LastValue(es, es[j].0) == Some(es[j].1)
  {
    if j < |es| - 1 {
      var init := es[..|es| - 1];
      assert init[j] == es[j];
      LastValueAt(init, j);
    }
  }

  /** Every entry after a run of `set`s was an old entry or one of `es`. */
  lemma {:induction false} PutAllFrom<V>(m: Entries<V>, es: Entries<V>)
    ensures forall e :: e in PutAll(m, es) ==> e in m || e in es
  {
    if es != [] {
      var init := es[..|es| - 1];
      var last := es[|es| - 1];
      PutAllFrom(m, init);
      var prev := PutAll(m, init);
      var r := Put(prev, last.0, last.1);
      assert forall e :: e in init ==> e in es;
      var k := IndexOf(Keys(prev), last.0);
      if k < |prev| {
        assert r == prev[k := last];
        forall e | e in r ensures e in m || e in es {
          var i :| 0 <= i < |r| && r[i] == e;
          if i != k {
            assert prev[i] in prev;
          }
        }
      } else {
        assert r == prev + [last];
      }
    }
  }

  /** One more entry is one more `set`. */
  lemma PutAllSnoc<V>(m: Entries<V>, es: Entries<V>, e: (string, V))
    ensures PutAll(m, es + [e]) == Put(PutAll(m, es), e.0, e.1)
  {
    assert (es + [e])[..|es|] == es;
  }

  /** Entries with pairwise distinct keys come out of `Object.fromEntries`
      as they went in. */
  lemma {:induction false} FromEntriesDistinct<V>(es: Entries<V>)
    requires DistinctKeys(es)
    ensures FromEntries(es) == es
  {
    if es != [] {
      var init := es[..|es| - 1];
      var last := es[|es| - 1];
      FromEntriesDistinct(init);
      assert last.0 !in Keys(init) by {
        forall i | 0 <= i < |init| ensures Keys(init)[i] != last.0 {
          assert init[i] == es[i];
        }
      }
      assert init + [last] == es;
    }
  }
}
