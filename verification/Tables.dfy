/** Insertion-ordered hash tables (the `IndexMap` and `RingMap` of the tracker), as sequences of
    entries with distinct keys. */
module Tables {
  import opened Results

  type Table<K, V> = seq<(K, V)>

  ghost predicate Distinct<K, V>(t: Table<K, V>) {
    forall i, j :: 0 <= i < j < |t| ==> t[i].0 != t[j].0
  }

  /** The position of the key, or the table's length if the key is absent */
  function Find<K(==), V>(t: Table<K, V>, k: K): (i: nat)
    ensures i <= |t|
    ensures i < |t| ==> t[i].0 == k
    ensures forall j :: 0 <= j < i ==> t[j].0 != k
  {
    if |t| == 0 || t[0].0 == k then 0 else 1 + Find(t[1..], k)
  }

  function Lookup<K(==), V>(t: Table<K, V>, k: K): Option<V> {
    var i := Find(t, k);
    if i < |t| then Some(t[i].1) else None
  }

  /** Overwrites the entry in its slot, or appends a new one */
  function Put<K(==), V>(t: Table<K, V>, k: K, v: V): Table<K, V> {
    var i := Find(t, k);
    if i < |t| then t[i := (k, v)] else t + [(k, v)]
  }

  /** Removes slot `i` by moving the last entry into it */
  function SwapRemove<T>(s: seq<T>, i: nat): seq<T>
    requires i < |s|
  {
    var last := |s| - 1;
    if i == last then s[..last] else s[..last][i := s[last]]
  }

  lemma LookupIsMembership<K, V>(t: Table<K, V>, k: K)
    requires Distinct(t)
    ensures Lookup(t, k).Some? ==> (k, Lookup(t, k).value) in t
    ensures forall v :: (k, v) in t ==> Lookup(t, k) == Some(v)
  {
    forall v | (k, v) in t ensures Lookup(t, k) == Some(v) {
      var j :| 0 <= j < |t| && t[j] == (k, v);
      var i := Find(t, k);
      assert !(j < i);
      assert i == j;
    }
  }

  lemma PutSpec<K, V>(t: Table<K, V>, k: K, v: V)
    requires Distinct(t)
    ensures Distinct(Put(t, k, v))
    ensures forall q :: Lookup(Put(t, k, v), q) == if q == k then Some(v) else Lookup(t, q)
  {
    var t' := Put(t, k, v);
    var i := Find(t, k);
    assert Distinct(t');
    forall q ensures Lookup(t', q) == if q == k then Some(v) else Lookup(t, q) {
      LookupIsMembership(t', q);
      LookupIsMembership(t, q);
      if q == k {
        assert t'[i] == (k, v);
      } else if Lookup(t, q).Some? {
        var j := Find(t, q);
        assert t'[j] == t[j];
      }
    }
  }

  lemma DistinctParts<K, V>(a: Table<K, V>, b: Table<K, V>)
    requires Distinct(a + b)
    ensures Distinct(a) && Distinct(b)
    ensures forall e, f :: e in a && f in b ==> e.0 != f.0
  {
    var t := a + b;
    forall i, j | 0 <= i < j < |b| ensures b[i].0 != b[j].0 {
      assert t[|a| + i] == b[i] && t[|a| + j] == b[j];
    }
    forall i, j | 0 <= i < j < |a| ensures a[i].0 != a[j].0 {
      assert t[i] == a[i] && t[j] == a[j];
    }
    forall e, f | e in a && f in b ensures e.0 != f.0 {
      var i :| 0 <= i < |a| && a[i] == e;
      var j :| 0 <= j < |b| && b[j] == f;
      assert t[i] == e && t[|a| + j] == f;
    }
  }

  lemma LookupConcat<K, V>(a: Table<K, V>, b: Table<K, V>, k: K)
    requires Distinct(a + b)
    ensures Lookup(a + b, k) == if Lookup(a, k).Some? then Lookup(a, k) else Lookup(b, k)
    ensures Lookup(a, k).None? || Lookup(b, k).None?
  {
    DistinctParts(a, b);
    LookupIsMembership(a, k);
    LookupIsMembership(b, k);
    LookupIsMembership(a + b, k);
    if Lookup(a + b, k).Some? {
      assert (k, Lookup(a + b, k).value) in a || (k, Lookup(a + b, k).value) in b;
    }
  }

  lemma {:induction false} TwiceInMultiset<T>(s: seq<T>, x: T)
    ensures multiset(s)[x] >= 2 ==> exists i, j :: 0 <= i < j < |s| && s[i] == x && s[j] == x
  {
    if s != [] {
      var front, last := s[..|s| - 1], s[|s| - 1];
      assert s == front + [last];
      TwiceInMultiset(front, x);
      if multiset(s)[x] >= 2 && multiset(front)[x] < 2 {
        assert x in front;
        var i :| 0 <= i < |front| && front[i] == x;
        assert s[i] == x && s[|s| - 1] == x;
      } else if multiset(s)[x] >= 2 {
        var i, j :| 0 <= i < j < |front| && front[i] == x && front[j] == x;
        assert s[i] == x && s[j] == x;
      }
    }
  }

  lemma TwiceAtPositions<T>(s: seq<T>, i: nat, j: nat)
    requires i < j < |s| && s[i] == s[j]
    ensures multiset(s)[s[i]] >= 2
  {
    assert s == s[..i] + [s[i]] + s[i + 1..j] + [s[j]] + s[j + 1..];
  }

  lemma DistinctUnderPermutation<K, V>(a: Table<K, V>, b: Table<K, V>)
    requires Distinct(a) && multiset(a) == multiset(b)
    ensures Distinct(b)
    ensures forall e :: e in a <==> e in b
    ensures forall k :: Lookup(a, k) == Lookup(b, k)
  {
    assert forall e :: e in a <==> e in multiset(a);
    assert forall e :: e in b <==> e in multiset(b);
    forall i, j | 0 <= i < j < |b| ensures b[i].0 != b[j].0 {
      if b[i].0 == b[j].0 {
        assert b[i] in a && b[j] in a;
        LookupIsMembership(a, b[i].0);
        assert b[i] == (b[i].0, b[i].1) && b[j] == (b[i].0, b[j].1);
        assert b[i] == b[j];
        TwiceAtPositions(b, i, j);
        TwiceInMultiset(a, b[i]);
        assert false;
      }
    }
    forall k ensures Lookup(a, k) == Lookup(b, k) {
      LookupIsMembership(a, k);
      LookupIsMembership(b, k);
    }
  }

  lemma Associate<T>(a: seq<T>, b: seq<T>, c: seq<T>)
    ensures (a + b) + c == a + (b + c)
  {
  }

  function Flatten<T>(ss: seq<seq<T>>): seq<T> {
    if ss == [] then [] else ss[0] + Flatten(ss[1..])
  }

  lemma {:induction false} FlattenConcat<T>(a: seq<seq<T>>, b: seq<seq<T>>)
    ensures Flatten(a + b) == Flatten(a) + Flatten(b)
  {
    if a == [] {
      assert a + b == b;
    } else {
      FlattenConcat(a[1..], b);
      assert (a + b)[0] == a[0] && (a + b)[1..] == a[1..] + b;
    }
  }

  lemma FlattenAround<T>(ss: seq<seq<T>>, i: nat)
    requires i < |ss|
    ensures Flatten(ss) == Flatten(ss[..i]) + (ss[i] + Flatten(ss[i + 1..]))
    ensures Flatten(ss[..i] + ss[i + 1..]) == Flatten(ss[..i]) + Flatten(ss[i + 1..])
  {
    var tail := ss[i..];
    assert ss == ss[..i] + tail;
    assert tail[0] == ss[i] && tail[1..] == ss[i + 1..];
    FlattenConcat(ss[..i], tail);
    FlattenConcat(ss[..i], ss[i + 1..]);
  }
}
