/** Insertion-ordered dictionaries, as Python (3.7 and later) keeps them.
    A dictionary is the sequence of its (key, value) entries in insertion order;
    assigning to an existing key keeps its position, a new key is appended. */
module Dicts {
  import opened Wrappers

  type Dict<K, V> = seq<(K, V)>

  function Keys<K, V>(d: Dict<K, V>): seq<K> {
    seq(|d|, i requires 0 <= i < |d| => d[i].0)
  }

  function Values<K, V>(d: Dict<K, V>): seq<V> {
    seq(|d|, i requires 0 <= i < |d| => d[i].1)
  }

  predicate Distinct<T(==)>(s: seq<T>) {
    forall i, j :: 0 <= i < j < |s| ==> s[i] != s[j]
  }

  /** The position of the first entry with key `k`. */
  function Find<K(==), V>(d: Dict<K, V>, k: K): (r: Option<nat>)
    ensures r.Some? ==> r.value < |d| && d[r.value].0 == k
    ensures r.Some? ==> forall j :: 0 <= j < r.value ==> d[j].0 != k
    ensures r.None? <==> k !in Keys(d)
    decreases |d|
  {
    if |d| == 0 then None
    else if d[0].0 == k then assert Keys(d)[0] == k; Some(0)
    else
      var rest := Find(d[1..], k);
      assert forall j :: 1 <= j < |d| ==> d[1..][j - 1] == d[j];
      assert Keys(d) == [d[0].0] + Keys(d[1..]);
      if rest.Some? then Some(rest.value + 1) else None
  }

  /** The first entry with key `k` is at `p`. */
  lemma FindAt<K, V>(d: Dict<K, V>, k: K, p: nat)
    requires p < |d| && d[p].0 == k
    requires forall j :: 0 <= j < p ==> d[j].0 != k
    ensures Find(d, k) == Some(p)
  {
    assert Keys(d)[p] == k;
  }

  /** `d[k]` as a lookup that may miss. */
  function Get<K(==), V>(d: Dict<K, V>, k: K): Option<V> {
    var i := Find(d, k);
    if i.Some? then Some(d[i.value].1) else None
  }

  /** The first `j + 1` elements hold those of the first `j` and the next one. */
  lemma InPrefixStep<T>(s: seq<T>, j: nat)
    requires j < |s|
    ensures forall x :: x in s[..j + 1] <==> x in s[..j] || x == s[j]
  {
    assert s[..j + 1] == s[..j] + [s[j]];
  }

  /** A key that can be looked up is a key of the dictionary. */
  lemma GetIn<K, V>(d: Dict<K, V>, k: K)
    requires Get(d, k).Some?
    ensures k in Keys(d)
  {
  }

  /** `d[k] = v`: overwrite in place when present, otherwise append. */
  function Put<K(==), V>(d: Dict<K, V>, k: K, v: V): (r: Dict<K, V>)
    ensures Keys(r) == if k in Keys(d) then Keys(d) else Keys(d) + [k]
    ensures Get(r, k) == Some(v)
  {
    var i := Find(d, k);
    if i.Some? then
      var r := d[i.value := (k, v)];
      assert Keys(r) == Keys(d);
      assert Find(r, k) == i by { FindAt(r, k, i.value); }
      r
    else
      var r := d + [(k, v)];
      assert Keys(r) == Keys(d) + [k];
      assert Find(r, k) == Some(|d|) by {
        assert forall j :: 0 <= j < |d| ==> r[j] == d[j] && Keys(d)[j] == d[j].0;
        FindAt(r, k, |d|);
      }
      r
  }

  /** Assigning one key leaves every other key's lookup as it was. */
  lemma PutGetOther<K, V>(d: Dict<K, V>, k: K, v: V, j: K)
    requires j != k
    ensures Get(Put(d, k, v), j) == Get(d, j)
  {
    var i := Find(d, k);
    var r := Put(d, k, v);
    var fj := Find(d, j);
    if i.Some? {
      assert r == d[i.value := (k, v)];
      if fj.Some? {
        assert forall q :: 0 <= q < |d| && q != i.value ==> r[q] == d[q];
        FindAt(r, j, fj.value);
      } else {
        assert Keys(r) == Keys(d);
      }
    } else {
      assert r == d + [(k, v)];
      if fj.Some? {
        assert forall q :: 0 <= q < |d| ==> r[q] == d[q];
        FindAt(r, j, fj.value);
      } else {
        assert j !in Keys(d) + [k];
      }
    }
  }

  /** Assigning a key twice is assigning it the second value. */
  lemma PutPut<K, V>(d: Dict<K, V>, k: K, v: V, w: V)
    ensures Put(Put(d, k, v), k, w) == Put(d, k, w)
  {
    var i := Find(d, k);
    var e := Put(d, k, v);
    if i.Some? {
      var n := i.value;
      assert e == d[n := (k, v)];
      assert e[n].0 == k && forall j :: 0 <= j < n ==> e[j] == d[j];
      FindAt(e, k, n);
      assert Put(e, k, w) == e[n := (k, w)];
      assert e[n := (k, w)] == d[n := (k, w)];
    } else {
      assert e == d + [(k, v)];
      assert forall j :: 0 <= j < |d| ==> e[j] == d[j] && Keys(d)[j] == d[j].0;
      FindAt(e, k, |d|);
      assert Put(e, k, w) == e[|d| := (k, w)];
      assert e[|d| := (k, w)] == d + [(k, w)];
    }
  }

  /** Assigning a key the value it has changes nothing. */
  lemma PutSame<K, V>(d: Dict<K, V>, k: K, v: V)
    requires Get(d, k) == Some(v)
    ensures Put(d, k, v) == d
  {
    var n := Find(d, k).value;
    assert d[n] == (k, v);
    assert d[n := (k, v)] == d;
  }

  /** Put leaves every other key as it was. */
  lemma PutOthers<K, V>(d: Dict<K, V>, k: K, v: V)
    ensures forall j :: j != k ==> Get(Put(d, k, v), j) == Get(d, j)
  {
    forall j | j != k ensures Get(Put(d, k, v), j) == Get(d, j) {
      PutGetOther(d, k, v, j);
    }
  }

  /** The tail of a sequence without repetitions has none and lacks the head. */
  lemma DistinctTail<T>(s: seq<T>)
    requires |s| > 0 && Distinct(s)
    ensures Distinct(s[1..]) && s[0] !in s[1..]
  {
    forall a, b | 0 <= a < b < |s| - 1 ensures s[1..][a] != s[1..][b] {
      assert s[1..][a] == s[a + 1] && s[1..][b] == s[b + 1];
    }
    forall j | 0 <= j < |s| - 1 ensures s[1..][j] != s[0] {
      assert s[1..][j] == s[j + 1];
    }
  }

  /** In a dictionary without repeated keys, every entry is the one `Find` returns. */
  lemma FindDistinct<K, V>(d: Dict<K, V>, i: nat)
    requires Distinct(Keys(d)) && i < |d|
    ensures Find(d, d[i].0) == Some(i)
  {
    assert forall j :: 0 <= j < i ==> Keys(d)[j] != Keys(d)[i] && Keys(d)[j] == d[j].0;
    FindAt(d, d[i].0, i);
  }

  lemma PutDistinct<K, V>(d: Dict<K, V>, k: K, v: V)
    requires Distinct(Keys(d))
    ensures Distinct(Keys(Put(d, k, v)))
  {
  }

  /** Assigning several keys in turn: `for k in ks: d[k] = v`. */
  function PutAll<K(==), V>(d: Dict<K, V>, ks: seq<K>, v: V): Dict<K, V>
    decreases |ks|
  {
    if |ks| == 0 then d else PutAll(Put(d, ks[0], v), ks[1..], v)
  }

  lemma {:induction false} PutAllAppend<K, V>(d: Dict<K, V>, a: seq<K>, b: seq<K>, v: V)
    ensures PutAll(d, a + b, v) == PutAll(PutAll(d, a, v), b, v)
    decreases |a|
  {
    if |a| == 0 {
      assert a + b == b;
    } else {
      assert (a + b)[1..] == a[1..] + b;
      PutAllAppend(Put(d, a[0], v), a[1..], b, v);
    }
  }

  /** One more key: the prefix of `i + 1` keys is the prefix of `i` and then key `i`. */
  lemma PutAllStep<K, V>(d: Dict<K, V>, ks: seq<K>, i: nat, v: V)
    requires i < |ks|
    ensures PutAll(d, ks[..i + 1], v) == Put(PutAll(d, ks[..i], v), ks[i], v)
  {
    var a := ks[..i];
    assert ks[..i + 1] == a + [ks[i]];
    PutAllAppend(d, a, [ks[i]], v);
    var e := PutAll(d, a, v);
    assert [ks[i]][1..] == [];
    assert PutAll(e, [ks[i]], v) == PutAll(Put(e, ks[i], v), [], v);
  }

  /** After `for k in ks: d[k] = v`: the dictionary holds exactly the old keys and
      the new ones, each new key maps to `v`, every other key is as it was. */
  lemma {:induction false} PutAllSpec<K, V>(d: Dict<K, V>, ks: seq<K>, v: V)
    ensures forall k :: k in Keys(PutAll(d, ks, v)) <==> k in Keys(d) || k in ks
    ensures forall k :: k in ks ==> Get(PutAll(d, ks, v), k) == Some(v)
    ensures forall k :: k !in ks ==> Get(PutAll(d, ks, v), k) == Get(d, k)
    ensures Distinct(Keys(d)) ==> Distinct(Keys(PutAll(d, ks, v)))
    ensures |PutAll(d, ks, v)| >= |d|
    decreases |ks|
  {
    if |ks| > 0 {
      var d1 := Put(d, ks[0], v);
      PutAllSpec(d1, ks[1..], v);
      forall k | k !in ks ensures Get(d1, k) == Get(d, k) {
        assert k != ks[0];
        PutGetOther(d, ks[0], v, k);
      }
      forall k | k in ks && k !in ks[1..] ensures Get(PutAll(d, ks, v), k) == Some(v) {
        assert k == ks[0];
      }
      assert forall k :: k in ks <==> k == ks[0] || k in ks[1..];
    }
  }

  /** Assigning new, distinct keys in turn appends them in that order. */
  lemma {:induction false} PutAllFresh<K, V>(d: Dict<K, V>, ks: seq<K>, v: V)
    requires Distinct(ks) && forall i :: 0 <= i < |ks| ==> ks[i] !in Keys(d)
    ensures Keys(PutAll(d, ks, v)) == Keys(d) + ks
    decreases |ks|
  {
    if |ks| > 0 {
      var d1 := Put(d, ks[0], v);
      var more := ks[1..];
      assert forall i :: 0 <= i < |more| ==> more[i] == ks[i + 1];
      PutAllFresh(d1, more, v);
      var kd := Keys(d);
      assert Keys(d1) == kd + [ks[0]];
      assert ks == [ks[0]] + more;
      SeqAssoc(kd, [ks[0]], more);
    }
  }

  /** A sequence is its front followed by its last element. */
  lemma FrontLast<T>(s: seq<T>)
    requires |s| > 0
    ensures s[..|s| - 1] + [s[|s| - 1]] == s
  {
  }

  /** A prefix is the shorter prefix followed by its last element. */
  lemma TakeStep<T>(s: seq<T>, n: nat)
    requires 0 < n <= |s|
    ensures s[..n - 1] + [s[n - 1]] == s[..n]
  {
  }

  /** The first `n` elements agree with the sequence. */
  lemma TakeIndex<T>(s: seq<T>, n: nat)
    requires n <= |s|
    ensures |s[..n]| == n && forall i :: 0 <= i < n ==> s[..n][i] == s[i]
  {
  }

  lemma SeqAssoc<T>(a: seq<T>, b: seq<T>, c: seq<T>)
    ensures a + b + c == a + (b + c)
  {
  }
}
