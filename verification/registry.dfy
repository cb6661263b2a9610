/** The line registry of generate.py (lines 29-32): an `OrderedDict` filled by
    `lines_dict[slug] = line` for every line in input order.  It is modelled
    as an insertion-ordered sequence of unique keys next to a key-to-value map,
    which makes the dictionary's two rules explicit: a key keeps the position
    of its first insertion, and its value is that of its last one. */
module Registry {
  import opened Slug

  /** An insertion-ordered dictionary. */
  datatype OrderedMap<K, V> = OrderedMap(keys: seq<K>, values: map<K, V>)

  /** No element occurs twice. */
  predicate Distinct<T(==)>(s: seq<T>)
  {
    forall i, j :: 0 <= i < j < |s| ==> s[i] != s[j]
  }

  /** The dictionary invariant: the key order lists every key of the map
      exactly once and nothing else. */
  predicate Valid<K, V>(d: OrderedMap<K, V>)
  {
    && Distinct(d.keys)
    && (forall k :: k in d.values ==> k in d.keys)
    && (forall k :: k in d.keys ==> k in d.values)
  }

  /** `collections.OrderedDict()` */
  function Empty<K, V>(): (d: OrderedMap<K, V>)
    ensures Valid(d) && |d.keys| == 0 && |d.values| == 0
  {
    OrderedMap([], map[])
  }

  /** `d[key] = value`: the map gains or overwrites the one binding for `key`,
      and the key order grows by one place exactly when `key` is new. */
  function Insert<K, V>(d: OrderedMap<K, V>, key: K, value: V): (d': OrderedMap<K, V>)
    ensures d'.values == d.values[key := value]
    ensures |d'.keys| == |d.keys| + (if key in d.values then 0 else 1)
  {
    if key in d.values then OrderedMap(d.keys, d.values[key := value])
    else OrderedMap(d.keys + [key], d.values[key := value])
  }

  /** Insertion keeps the dictionary invariant and never moves a key that is
      already present: the old key order is a prefix of the new one, and a new
      key takes the last place. */
  lemma InsertValid<K, V>(d: OrderedMap<K, V>, key: K, value: V)
    requires Valid(d)
    ensures Valid(Insert(d, key, value))
    ensures d.keys <= Insert(d, key, value).keys
    ensures key !in d.values ==> Insert(d, key, value).keys[|d.keys|] == key
  {
    var d' := Insert(d, key, value);
    if key !in d.values {
      forall i, j | 0 <= i < j < |d'.keys|
        ensures d'.keys[i] != d'.keys[j]
      {
        if j == |d.keys| {
          assert d'.keys[i] == d.keys[i];
        }
      }
    }
  }

  /** Inserting twice under one key is inserting the second value once. */
  lemma InsertOverwrites<K, V>(d: OrderedMap<K, V>, key: K, v1: V, v2: V)
    ensures Insert(Insert(d, key, v1), key, v2) == Insert(d, key, v2)
  {
  }

  /** The slug of every line, in input order. */
  function Slugs(lines: seq<string>): (s: seq<string>)
    ensures |s| == |lines|
    ensures forall i :: 0 <= i < |lines| ==> s[i] == Slugify(lines[i])
  {
    seq(|lines|, i requires 0 <= i < |lines| => Slugify(lines[i]))
  }

  /** `d[keys[i]] = vals[i]` for i = 0, 1, ... on an empty dictionary, as a
      left fold: the dictionary of all pairs is that of all but the last,
      with the last pair inserted. */
  function Assign<K(!new), V>(keys: seq<K>, vals: seq<V>): (d: OrderedMap<K, V>)
    requires |keys| == |vals|
    ensures forall k :: k in d.values <==> k in keys
    ensures |d.keys| <= |keys|
    decreases |keys|
  {
    if |keys| == 0 then Empty()
    else
      var n := |keys| - 1;
      assert keys == keys[..n] + [keys[n]];
      Insert(Assign(keys[..n], vals[..n]), keys[n], vals[n])
  }

  /** Every dictionary built by assignments satisfies the invariant. */
  lemma {:induction false} AssignValid<K(!new), V>(keys: seq<K>, vals: seq<V>)
    requires |keys| == |vals|
    ensures Valid(Assign(keys, vals))
    decreases |keys|
  {
    if |keys| > 0 {
      var n := |keys| - 1;
      AssignValid(keys[..n], vals[..n]);
      InsertValid(Assign(keys[..n], vals[..n]), keys[n], vals[n]);
    }
  }

  /** One step of the fold: assigning one more pair is one more insertion. */
  lemma AssignStep<K(!new), V>(keys: seq<K>, vals: seq<V>, i: nat)
    requires |keys| == |vals| && i < |keys|
    ensures Assign(keys[..i + 1], vals[..i + 1]) == Insert(Assign(keys[..i], vals[..i]), keys[i], vals[i])
  {
    assert keys[..i + 1][..i] == keys[..i];
    assert vals[..i + 1][..i] == vals[..i];
  }

  /** The loop of generate.py lines 30-32: every line is inserted under its
      slug, in input order.  There are at most as many entries as lines, and
      the keys are exactly the slugs of the lines. */
  function Build(lines: seq<string>): (d: OrderedMap<string, string>)
    ensures |d.keys| <= |lines|
    ensures forall k :: k in d.values <==> exists i :: 0 <= i < |lines| && Slugify(lines[i]) == k
  {
    Assign(Slugs(lines), lines)
  }

  /** The loop itself, as generate.py runs it: one insertion per line.  The
      result is the fold, satisfies the invariant, and has one key per
      distinct slug. */
  method BuildRegistry(lines: seq<string>) returns (d: OrderedMap<string, string>)
    ensures d == Build(lines)
    ensures Valid(d)
    ensures forall k :: k in d.values <==> k in Slugs(lines)
  {
    ghost var slugs := Slugs(lines);
    d := Empty();
    var i := 0;
    while i < |lines|
      invariant 0 <= i <= |lines|
      invariant d == Assign(slugs[..i], lines[..i])
    {
      var line := lines[i];
      AssignStep(slugs, lines, i);
      d := Insert(d, Slugify(line), line);
      i := i + 1;
    }
    assert lines[..i] == lines;
    assert slugs[..i] == slugs;
    AssignValid(slugs, lines);
  }

  /** The position of the first occurrence of `x` in `s`. */
  function FirstIndex<T(==)>(s: seq<T>, x: T): (i: nat)
    requires x in s
    ensures i < |s| && s[i] == x && x !in s[..i]
  {
    if s[0] == x then 0
    else
      var i := 1 + FirstIndex(s[1..], x);
      assert s[..i] == [s[0]] + s[1..][..i - 1];
      i
  }

  /** The position of the last occurrence of `x` in `s`. */
  function LastIndex<T(==)>(s: seq<T>, x: T): (i: nat)
    requires x in s
    ensures i < |s| && s[i] == x && x !in s[i + 1..]
  {
    var n := |s| - 1;
    if s[n] == x then n
    else
      assert x in s[..n];
      var i := LastIndex(s[..n], x);
      assert s[i + 1..] == s[..n][i + 1..] + [s[n]];
      i
  }

  lemma {:induction false} FirstIndexPrefix<T>(s: seq<T>, t: seq<T>, x: T)
    requires x in s
    ensures x in s + t && FirstIndex(s + t, x) == FirstIndex(s, x)
    decreases |s|
  {
    assert (s + t)[0] == s[0];
    if s[0] != x {
      assert (s + t)[1..] == s[1..] + t;
      FirstIndexPrefix(s[1..], t, x);
    }
  }

  /** Every element of `order` occurs in `s`, and `order` lists them by
      the position of their first occurrence in `s`. */
  predicate FirstOrdered<T(==)>(order: seq<T>, s: seq<T>)
  {
    && (forall i :: 0 <= i < |order| ==> order[i] in s)
    && (forall i, j :: 0 <= i < j < |order| ==>
          order[i] in s && order[j] in s && FirstIndex(s, order[i]) < FirstIndex(s, order[j]))
  }

  /** Appending to `s` keeps every first occurrence; an element new to `s`
      may be appended to the order. */
  lemma FirstOrderedSnoc<T>(order: seq<T>, s: seq<T>, x: T)
    requires FirstOrdered(order, s)
    ensures FirstOrdered(order, s + [x])
    ensures x !in s ==> FirstOrdered(order + [x], s + [x])
  {
    forall k | k in s
      ensures k in s + [x] && FirstIndex(s + [x], k) == FirstIndex(s, k) < |s|
    {
      FirstIndexPrefix(s, [x], k);
    }
    if x !in s {
      var o := order + [x];
      assert FirstIndex(s + [x], x) == |s| by {
        assert (s + [x])[..|s|] == s;
      }
      forall i, j | 0 <= i < j < |o|
        ensures o[i] in s + [x] && o[j] in s + [x]
        ensures FirstIndex(s + [x], o[i]) < FirstIndex(s + [x], o[j])
      {
        assert o[i] == order[i];
        if j < |order| {
          assert o[j] == order[j];
        }
      }
    }
  }

  /** One assignment keeps the key order one of first occurrence. */
  lemma AssignKeyOrderStep<K, V>(prev: OrderedMap<K, V>, s: seq<K>, x: K, v: V)
    requires FirstOrdered(prev.keys, s)
    requires forall k :: k in prev.values <==> k in s
    ensures FirstOrdered(Insert(prev, x, v).keys, s + [x])
  {
    FirstOrderedSnoc(prev.keys, s, x);
  }

  /** Key order is order of first occurrence: of two keys, the one that
      occurs first in the input comes first. */
  lemma {:induction false} AssignKeyOrder<K(!new), V>(keys: seq<K>, vals: seq<V>)
    requires |keys| == |vals|
    ensures FirstOrdered(Assign(keys, vals).keys, keys)
    decreases |keys|
  {
    if |keys| > 0 {
      var n := |keys| - 1;
      var prev := Assign(keys[..n], vals[..n]);
      AssignKeyOrder(keys[..n], vals[..n]);
      assert Assign(keys, vals) == Insert(prev, keys[n], vals[n]);
      assert keys == keys[..n] + [keys[n]];
      AssignKeyOrderStep(prev, keys[..n], keys[n], vals[n]);
    }
  }

  /** Last write wins: the value stored under a key is the one paired with
      the key's last occurrence. */
  lemma {:induction false} AssignLastWins<K(!new), V>(keys: seq<K>, vals: seq<V>)
    requires |keys| == |vals|
    ensures var d := Assign(keys, vals);
      forall k :: k in d.values ==> d.values[k] == vals[LastIndex(keys, k)]
    decreases |keys|
  {
    if |keys| > 0 {
      var n := |keys| - 1;
      AssignLastWins(keys[..n], vals[..n]);
      forall k | k in Assign(keys, vals).values && k != keys[n]
        ensures Assign(keys, vals).values[k] == vals[LastIndex(keys, k)]
      {
        assert k in keys[..n];
        assert LastIndex(keys, k) == LastIndex(keys[..n], k);
      }
    }
  }

  /** Appending an element keeps a sequence distinct exactly when the
      element is new. */
  lemma DistinctSnoc<T>(s: seq<T>, x: T)
    ensures Distinct(s + [x]) <==> Distinct(s) && x !in s
  {
    if Distinct(s + [x]) {
      forall i, j | 0 <= i < j < |s|
        ensures s[i] != s[j]
      {
        assert s[i] == (s + [x])[i] && s[j] == (s + [x])[j];
      }
      forall i | 0 <= i < |s|
        ensures s[i] != x
      {
        assert s[i] == (s + [x])[i] && x == (s + [x])[|s|];
      }
    }
  }

  /** When the keys are distinct, and only then, every assignment adds a key,
      so the dictionary lists the keys in input order. */
  lemma {:induction false} AssignDistinct<K(!new), V>(keys: seq<K>, vals: seq<V>)
    requires |keys| == |vals|
    ensures |Assign(keys, vals).keys| == |keys| <==> Distinct(keys)
    ensures Assign(keys, vals).keys == keys <==> Distinct(keys)
    decreases |keys|
  {
    if |keys| > 0 {
      var n := |keys| - 1;
      AssignDistinct(keys[..n], vals[..n]);
      assert keys == keys[..n] + [keys[n]];
      DistinctSnoc(keys[..n], keys[n]);
      AssignValid(keys, vals);
    }
  }

  /** A sequence without repeats has as many elements as its set. */
  lemma {:induction false} DistinctCard<T>(s: seq<T>)
    requires Distinct(s)
    ensures |set x | x in s| == |s|
    decreases |s|
  {
    if |s| > 0 {
      var n := |s| - 1;
      assert s == s[..n] + [s[n]];
      DistinctSnoc(s[..n], s[n]);
      DistinctCard(s[..n]);
      assert (set x | x in s) == (set x | x in s[..n]) + {s[n]};
    }
  }

  /** A valid dictionary has exactly one binding per listed key. */
  lemma ValidSize<K, V>(d: OrderedMap<K, V>)
    requires Valid(d)
    ensures |d.values| == |d.keys|
  {
    DistinctCard(d.keys);
    assert d.values.Keys == set x | x in d.keys;
  }

  /** With distinct keys every key is bound to its own value. */
  lemma AssignDistinctValues<K(!new), V>(keys: seq<K>, vals: seq<V>)
    requires |keys| == |vals| && Distinct(keys)
    ensures forall i :: 0 <= i < |keys| ==> Assign(keys, vals).values[keys[i]] == vals[i]
  {
    AssignLastWins(keys, vals);
  }
}
