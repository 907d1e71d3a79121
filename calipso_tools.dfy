/**
  calipso/tools/tools.py: `byteify`, which turns every unicode string inside
  a JSON-like value into its UTF-8 byte string, and `center`, which writes a
  window geometry that centres a window of a given size on the screen.
 */
module CalipsoTools {
  import opened Wrappers
  import opened PyValues
  import Utf8
  import opened Geometry

  /**
    `byteify(inp)`: a dict becomes the dict comprehension over its entries, a
    list the list of its converted elements, a unicode string its UTF-8 bytes,
    and any other value is returned as it is.
   */
  function Byteify(x: Value): (r: Value)
    ensures x.Dict? <==> r.Dict?
    ensures x.List? <==> r.List?
    ensures x.List? ==> |r.elems| == |x.elems|
    ensures !r.Unicode?
  {
    match x
    case Dict(items) =>
      Dict(FromPairs(seq(|items|, i requires 0 <= i < |items| => (Byteify(items[i].0), Byteify(items[i].1)))))
    case List(elems) => List(seq(|elems|, i requires 0 <= i < |elems| => Byteify(elems[i])))
    case Unicode(text) => Str(Utf8.Encode(text))
    case _ => x
  }

  /** The (byteify(key), byteify(value)) pairs the dict comprehension assigns, in iteration order. */
  function ByteifyEntries(items: Items): (r: Items)
    ensures |r| == |items|
    ensures forall i :: 0 <= i < |items| ==> r[i] == (Byteify(items[i].0), Byteify(items[i].1))
  {
    seq(|items|, i requires 0 <= i < |items| => (Byteify(items[i].0), Byteify(items[i].1)))
  }

  lemma ByteifyDict(items: Items)
    ensures Byteify(Dict(items)) == Dict(FromPairs(ByteifyEntries(items)))
  {
    var inline := seq(|items|, i requires 0 <= i < |items| => (Byteify(items[i].0), Byteify(items[i].1)));
    assert inline == ByteifyEntries(items);
  }

  /** A list becomes a list of the same length whose i-th element is the i-th element converted. */
  lemma ByteifyList(elems: seq<Value>)
    ensures Byteify(List(elems)).List?
    ensures |Byteify(List(elems)).elems| == |elems|
    ensures forall i :: 0 <= i < |elems| ==> Byteify(List(elems)).elems[i] == Byteify(elems[i])
  {
  }

  /** A unicode string becomes the byte string that decodes back to it. */
  lemma ByteifyUnicode(text: string)
    ensures Byteify(Unicode(text)).Str?
    ensures Utf8.Decode(Byteify(Unicode(text)).bytes) == Some(text)
  {
    Utf8.DecodeEncode(text);
  }

  /** Neither a dict, nor a list, nor a unicode string: returned unchanged. */
  lemma ByteifyOther(x: Value)
    requires !x.Dict? && !x.List? && !x.Unicode?
    ensures Byteify(x) == x
  {
  }

  /**
    Looking a converted key up in the converted dict finds the converted value
    of the last entry, in iteration order, whose key converts to it.
   */
  lemma ByteifyDictLookup(items: Items, k: Value)
    ensures Lookup(Byteify(Dict(items)).items, k) == LastValue(ByteifyEntries(items), k)
  {
    ByteifyDict(items);
    FromPairsLookup(ByteifyEntries(items), k);
  }

  /**
    When no two keys convert to the same key, the converted dict has exactly one
    entry `byteify(key): byteify(value)` per entry, in the same order.
   */
  lemma ByteifyDictEntries(items: Items)
    requires DistinctKeys(ByteifyEntries(items))
    ensures Byteify(Dict(items)).items == ByteifyEntries(items)
  {
    ByteifyDict(items);
    FromPairsOfDict(ByteifyEntries(items));
  }

  /**
    Two hashable keys convert to the same key exactly when they are equal or one
    is a unicode string and the other its UTF-8 byte string; only then can the
    comprehension merge two entries.
   */
  lemma ByteifyKeysCollide(a: Value, b: Value)
    requires !a.Dict? && !a.List? && !b.Dict? && !b.List?
    ensures Byteify(a) == Byteify(b) <==>
      a == b || (a.Unicode? && b == Str(Utf8.Encode(a.text))) || (b.Unicode? && a == Str(Utf8.Encode(b.text)))
  {
    if a.Unicode? && b.Unicode? && Byteify(a) == Byteify(b) {
      Utf8.EncodeInjective(a.text, b.text);
    }
  }

  /** The result holds no unicode string at any depth, and every dict in it has distinct keys. */
  lemma {:induction false} ByteifyClean(x: Value)
    ensures NoUnicode(Byteify(x)) && ProperDicts(Byteify(x))
  {
    match x
    case Dict(items) =>
      var entries := ByteifyEntries(items);
      forall i | 0 <= i < |items|
        ensures NoUnicode(entries[i].0) && ProperDicts(entries[i].0)
        ensures NoUnicode(entries[i].1) && ProperDicts(entries[i].1)
      {
        ByteifyClean(items[i].0);
        ByteifyClean(items[i].1);
      }
      ByteifyDict(items);
      var built := FromPairs(entries);
      forall j | 0 <= j < |built|
        ensures NoUnicode(built[j].0) && ProperDicts(built[j].0)
        ensures NoUnicode(built[j].1) && ProperDicts(built[j].1)
      {
        assert built[j] in entries;
      }
    case List(elems) =>
      forall i | 0 <= i < |elems| ensures NoUnicode(Byteify(elems[i])) && ProperDicts(Byteify(elems[i])) {
        ByteifyClean(elems[i]);
      }
    case _ =>
  }

  /** A value without unicode strings whose dicts have distinct keys is left as it is. */
  lemma {:induction false} ByteifyFixedPoint(x: Value)
    requires NoUnicode(x) && ProperDicts(x)
    ensures Byteify(x) == x
  {
    match x
    case Dict(items) =>
      var entries := ByteifyEntries(items);
      forall i | 0 <= i < |items| ensures entries[i] == items[i] {
        ByteifyFixedPoint(items[i].0);
        ByteifyFixedPoint(items[i].1);
      }
      assert entries == items;
      ByteifyDict(items);
      FromPairsOfDict(items);
    case List(elems) =>
      forall i | 0 <= i < |elems| ensures Byteify(elems[i]) == elems[i] {
        ByteifyFixedPoint(elems[i]);
      }
      assert Byteify(x).elems == elems;
    case _ =>
  }

  /** The fixed points of byteify are exactly the values it could have produced. */
  lemma ByteifyFixedPoints(x: Value)
    ensures Byteify(x) == x <==> NoUnicode(x) && ProperDicts(x)
  {
    ByteifyClean(x);
    if NoUnicode(x) && ProperDicts(x) {
      ByteifyFixedPoint(x);
    }
  }

  /** Converting twice is converting once. */
  lemma ByteifyIdempotent(x: Value)
    ensures Byteify(Byteify(x)) == Byteify(x)
  {
    ByteifyClean(x);
    ByteifyFixedPoint(Byteify(x));
  }

  /**
    `center(toplevel, size)` with the screen's width and height given: the
    geometry string it passes to `toplevel.geometry`. A size with fewer than two
    entries fails at `size[0]` or `size[1]`, one with more than two at the
    "%dx%d+%d+%d" formatting.
   */
  function Center(size: seq<int>, screenWidth: int, screenHeight: int): (r: Result<string, PyError>)
    ensures |size| < 2 <==> r == Failure(IndexError)
    ensures |size| > 2 <==> r == Failure(TypeError)
    ensures |size| == 2 <==> r.Success?
    ensures r.Success? ==> ParseSize(r.value) == Success(size)
    ensures r.Success? ==>
      ParsePosition(r.value) == Success([CenterOffset(screenWidth, size[0]), CenterOffset(screenHeight, size[1])])
    ensures r.Success? ==>
      r.value == FormatGeometry(size[0], size[1], CenterOffset(screenWidth, size[0]), CenterOffset(screenHeight, size[1]))
  {
    if |size| < 2 then Failure(IndexError)
    else if |size| > 2 then Failure(TypeError)
    else
      var x := CenterOffset(screenWidth, size[0]);
      var y := CenterOffset(screenHeight, size[1]);
      SizeRoundTrip(size[0], size[1], x, y);
      PositionRoundTrip(size[0], size[1], x, y);
      assert [size[0], size[1]] == size;
      Success(FormatGeometry(size[0], size[1], x, y))
  }
}
