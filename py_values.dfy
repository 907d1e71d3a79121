/**
  The Python 2 values `byteify` walks and a PolygonWriter stores: what a JSON
  document decodes to, plus byte strings. A dict is written as its (key,
  value) entries in iteration order, and `d[k] = v` as Insert.
 */
module PyValues {
  import opened Wrappers
  import Utf8

  datatype Value =
    | Dict(items: seq<(Value, Value)>)
    | List(elems: seq<Value>)
    | Unicode(text: string)
    | Str(bytes: seq<Utf8.byte>)
    | Int(i: int)
    | Float(f: real)
    | Bool(b: bool)
    | NoneValue

  type Items = seq<(Value, Value)>

  function Keys(items: Items): set<Value> {
    set p | p in items :: p.0
  }

  lemma KeysConcat(a: Items, b: Items)
    ensures Keys(a + b) == Keys(a) + Keys(b)
  {
    assert forall p :: p in a + b <==> p in a || p in b;
  }

  predicate DistinctKeys(items: Items) {
    forall i, j :: 0 <= i < j < |items| ==> items[i].0 != items[j].0
  }

  lemma DistinctKeysSplit(a: Items, b: Items)
    requires DistinctKeys(a + b)
    ensures DistinctKeys(a) && DistinctKeys(b) && Keys(a) !! Keys(b)
  {
    forall p, q | p in a && q in b ensures p.0 != q.0 {
      var i :| 0 <= i < |a| && a[i] == p;
      var j :| 0 <= j < |b| && b[j] == q;
      assert (a + b)[i] == p && (a + b)[|a| + j] == q;
    }
    forall i, j | 0 <= i < j < |b| ensures b[i].0 != b[j].0 {
      assert (a + b)[|a| + i] == b[i] && (a + b)[|a| + j] == b[j];
    }
    forall i, j | 0 <= i < j < |a| ensures a[i].0 != a[j].0 {
      assert (a + b)[i] == a[i] && (a + b)[j] == a[j];
    }
  }

  lemma DistinctKeysCons(p: (Value, Value), s: Items)
    requires DistinctKeys(s) && p.0 !in Keys(s)
    ensures DistinctKeys([p] + s)
  {
    forall j | 0 < j < |[p] + s| ensures ([p] + s)[j].0 != p.0 {
      assert ([p] + s)[j] == s[j - 1];
    }
  }

  /** `d.get(k)`: the value of the entry whose key is k. */
  function Lookup(items: Items, k: Value): (r: Option<Value>)
    ensures r.Some? <==> k in Keys(items)
  {
    if |items| == 0 then None
    else if items[0].0 == k then Some(items[0].1)
    else
      KeysConcat([items[0]], items[1..]);
      assert [items[0]] + items[1..] == items;
      Lookup(items[1..], k)
  }

  /** The value of the last pair in `ps` whose key is k. */
  function LastValue(ps: Items, k: Value): (r: Option<Value>)
    ensures r.Some? <==> k in Keys(ps)
  {
    if |ps| == 0 then None
    else
      KeysConcat(ps[..|ps| - 1], [ps[|ps| - 1]]);
      assert ps[..|ps| - 1] + [ps[|ps| - 1]] == ps;
      if ps[|ps| - 1].0 == k then Some(ps[|ps| - 1].1) else LastValue(ps[..|ps| - 1], k)
  }

  /**
    `d[k] = v`: rebinds k where it stands, dropping its old value, or adds the
    entry at the end when k is new.
   */
  function Insert(items: Items, k: Value, v: Value): (r: Items)
    ensures Keys(r) == Keys(items) + {k}
    ensures forall p :: p in r ==> p in items || p == (k, v)
    ensures k !in Keys(items) ==> r == items + [(k, v)]
  {
    if |items| == 0 then [(k, v)]
    else
      KeysConcat([items[0]], items[1..]);
      assert [items[0]] + items[1..] == items;
      if items[0].0 == k then
        KeysConcat([(k, v)], items[1..]);
        [(k, v)] + items[1..]
      else
        var tail := Insert(items[1..], k, v);
        KeysConcat([items[0]], tail);
        [items[0]] + tail
  }

  /** After `d[k] = v`, k finds v and every other key finds what it found before. */
  lemma {:induction false} InsertLookup(items: Items, k: Value, v: Value, k': Value)
    ensures Lookup(Insert(items, k, v), k') == if k' == k then Some(v) else Lookup(items, k')
  {
    if |items| > 0 && items[0].0 != k {
      InsertLookup(items[1..], k, v, k');
      assert Insert(items, k, v)[1..] == Insert(items[1..], k, v);
    } else if |items| > 0 {
      assert Insert(items, k, v)[1..] == items[1..];
    }
  }

  /** `d[k] = v` keeps the keys of a dict distinct. */
  lemma {:induction false} InsertKeepsKeysDistinct(items: Items, k: Value, v: Value)
    requires DistinctKeys(items)
    ensures DistinctKeys(Insert(items, k, v))
  {
    if |items| > 0 {
      assert [items[0]] + items[1..] == items;
      DistinctKeysSplit([items[0]], items[1..]);
      KeysConcat([items[0]], items[1..]);
      if items[0].0 == k {
        DistinctKeysCons((k, v), items[1..]);
      } else {
        InsertKeepsKeysDistinct(items[1..], k, v);
        DistinctKeysCons(items[0], Insert(items[1..], k, v));
      }
    }
  }

  /** The dict a comprehension builds by assigning the pairs of `ps` one after another. */
  function FromPairs(ps: Items): (r: Items)
    ensures DistinctKeys(r)
    ensures Keys(r) == Keys(ps)
    ensures forall p :: p in r ==> p in ps
  {
    if |ps| == 0 then []
    else
      var init := ps[..|ps| - 1];
      var last := ps[|ps| - 1];
      KeysConcat(init, [last]);
      assert ps == init + [last];
      InsertKeepsKeysDistinct(FromPairs(init), last.0, last.1);
      Insert(FromPairs(init), last.0, last.1)
  }

  /** Looking a key up in the built dict finds the value of the last pair with that key. */
  lemma {:induction false} FromPairsLookup(ps: Items, k: Value)
    ensures Lookup(FromPairs(ps), k) == LastValue(ps, k)
    decreases |ps|
  {
    if |ps| > 0 {
      FromPairsLookup(ps[..|ps| - 1], k);
      InsertLookup(FromPairs(ps[..|ps| - 1]), ps[|ps| - 1].0, ps[|ps| - 1].1, k);
    }
  }

  /** Pairs that already have distinct keys build exactly themselves. */
  lemma {:induction false} FromPairsOfDict(ps: Items)
    requires DistinctKeys(ps)
    ensures FromPairs(ps) == ps
    decreases |ps|
  {
    if |ps| > 0 {
      var init := ps[..|ps| - 1];
      var last := ps[|ps| - 1];
      assert ps == init + [last];
      DistinctKeysSplit(init, [last]);
      FromPairsOfDict(init);
    }
  }

  /** Every dict inside x has distinct keys, as a Python dict does. */
  predicate ProperDicts(x: Value) {
    match x
    case Dict(items) =>
      DistinctKeys(items) &&
      forall i :: 0 <= i < |items| ==> ProperDicts(items[i].0) && ProperDicts(items[i].1)
    case List(elems) => forall i :: 0 <= i < |elems| ==> ProperDicts(elems[i])
    case _ => true
  }

  /** No unicode string occurs in x at any depth. */
  predicate NoUnicode(x: Value) {
    match x
    case Dict(items) => forall i :: 0 <= i < |items| ==> NoUnicode(items[i].0) && NoUnicode(items[i].1)
    case List(elems) => forall i :: 0 <= i < |elems| ==> NoUnicode(elems[i])
    case Unicode(_) => false
    case _ => true
  }
}
