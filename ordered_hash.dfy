/**
  Ruby's insertion-ordered `Hash` with string keys, as the attribute mergers
  build it: a value is either a string or Ruby's `true` (a valueless attribute).
  Assigning an existing key keeps its position; assigning a new key appends it.
 */
module RubyHash {
  import opened Wrappers
  import opened Text

  /** An attribute value: a string, or `true` for an attribute written without a value. */
  datatype Value = Str(s: String) | Flag {

    /** Ruby's `to_s`: `true` prints as `"true"`. */
    function ToS(): String
    {
      match this
      case Str(s) => s
      case Flag => "true"
    }
  }

  type Entry = (String, Value)

  /** The entries in insertion order. */
  type Hash = seq<Entry>

  /** `hash.keys` */
  function Keys(h: Hash): (r: seq<String>)
    ensures |r| == |h|
  {
    if h == [] then [] else [h[0].0] + Keys(h[1..])
  }

  /** The keys in order: the `i`-th key is the `i`-th entry's. */
  lemma {:induction false} KeysAt(h: Hash)
    ensures forall i :: 0 <= i < |h| ==> Keys(h)[i] == h[i].0
  {
    if h != [] {
      KeysAt(h[1..]);
      assert forall i :: 1 <= i < |h| ==> Keys(h)[i] == Keys(h[1..])[i - 1];
    }
  }

  /** A hash never holds a key twice. */
  predicate Valid(h: Hash)
  {
    NoDuplicates(Keys(h))
  }

  /** `hash.key?(k)` */
  predicate HasKey(h: Hash, k: String)
  {
    k in Keys(h)
  }

  /** `hash[k]`, with `nil` as `None`. */
  function Get(h: Hash, k: String): (r: Option<Value>)
    ensures r.Some? <==> HasKey(h, k)
    ensures r.Some? ==> exists i :: 0 <= i < |h| && h[i] == (k, r.value)
  {
    if h == [] then None
    else if h[0].0 == k then Some(h[0].1)
    else
      var r := Get(h[1..], k);
      assert r.Some? ==> exists i :: 0 <= i < |h[1..]| && h[1..][i] == (k, r.value);
      r
  }

  /** `hash[k] = v` */
  function Put(h: Hash, k: String, v: Value): (r: Hash)
    ensures Get(r, k) == Some(v)
  {
    if h == [] then [(k, v)]
    else if h[0].0 == k then [(k, v)] + h[1..]
    else
      var t := Put(h[1..], k, v);
      assert ([h[0]] + t)[1..] == t;
      [h[0]] + t
  }

  /** An existing key keeps its place; a new key goes last. */
  lemma {:induction false} PutKeys(h: Hash, k: String, v: Value)
    ensures Keys(Put(h, k, v)) == if HasKey(h, k) then Keys(h) else Keys(h) + [k]
  {
    if h != [] && h[0].0 != k {
      var t := Put(h[1..], k, v);
      var rest := Keys(h[1..]);
      PutKeys(h[1..], k, v);
      assert Keys(h) == [h[0].0] + rest;
      assert ([h[0]] + t)[1..] == t;
      assert Keys(Put(h, k, v)) == [h[0].0] + Keys(t);
      assert HasKey(h, k) == (k in rest);
      if k !in rest {
        assert [h[0].0] + (rest + [k]) == ([h[0].0] + rest) + [k];
      }
    } else if h != [] {
      assert ([(k, v)] + h[1..])[1..] == h[1..];
    }
  }

  /** Assigning `k` leaves every other key's value alone. */
  lemma {:induction false} PutOthers(h: Hash, k: String, v: Value, k': String)
    requires k' != k
    ensures Get(Put(h, k, v), k') == Get(h, k')
  {
    if h != [] && h[0].0 != k {
      var t := Put(h[1..], k, v);
      PutOthers(h[1..], k, v, k');
      assert ([h[0]] + t)[1..] == t;
    } else if h != [] {
      assert ([(k, v)] + h[1..])[1..] == h[1..];
    }
  }

  /** Assignment never duplicates a key. */
  lemma PutValid(h: Hash, k: String, v: Value)
    requires Valid(h)
    ensures Valid(Put(h, k, v))
  {
    PutKeys(h, k, v);
  }
}
