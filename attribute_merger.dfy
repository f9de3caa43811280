/**
  `AttributeMerger`: merges two rendered attribute strings (` k="v" flag …`).
  Both sides are read into ordered hashes, the additional hash is folded into
  the base one (class tokens are unioned, style declarations concatenated, any
  other key overwritten), and the result is rendered again.
 */
module AttributeMerger {
  import opened Wrappers
  import opened Text
  import opened RubyHash

  // ---------------------------------------------------------------------------
  // The scan for /(\S+?)="([^"]*)"/

  /** One `key="value"` match: the key, the value and the index just past the closing quote. */
  datatype Pair = Pair(key: String, value: String, end: nat)

  /** `s` holds the match `m` starting at `p`. */
  predicate PairShape(s: String, p: nat, m: Pair)
  {
    && m.key != [] && NoSpace(m.key) && '"' !in m.value
    && m.end == p + |m.key| + |m.value| + 3 <= |s|
    && s[p..m.end] == m.key + "=\"" + m.value + "\""
  }

  /**
    The match at `p` with a key of at least `q - p` characters. The lazy key grows
    one non-space character at a time until `="` follows it and a closing `"`
    exists; a whitespace character ends the attempt.
   */
  function PairFrom(s: String, p: nat, q: nat): (r: Option<Pair>)
    requires p < q <= |s| && NoSpace(s[p..q - 1])
    ensures r.Some? ==> PairShape(s, p, r.value)
    decreases |s| - q
  {
    if IsSpace(s[q - 1]) then None
    else
    assert NoSpace(s[p..q]) by {
      assert s[p..q] == s[p..q - 1] + [s[q - 1]];
    }
    if q + 1 < |s| && s[q] == '=' && s[q + 1] == '"' && IndexOfChar(s, '"', q + 2).Some? then
      var c := IndexOfChar(s, '"', q + 2).value;
      var v := s[q + 2..c];
      assert '"' !in v by {
        forall m | 0 <= m < |v| ensures v[m] != '"' { assert v[m] == s[q + 2 + m]; }
      }
      assert s[p..c + 1] == s[p..q] + "=\"" + s[q + 2..c] + "\"";
      Some(Pair(s[p..q], s[q + 2..c], c + 1))
    else if q < |s| then
      PairFrom(s, p, q + 1)
    else None
  }

  /** The match of the pattern at `p`, if it has one. */
  function PairAt(s: String, p: nat): (r: Option<Pair>)
    requires p < |s|
    ensures r.Some? ==> PairShape(s, p, r.value)
  {
    PairFrom(s, p, p + 1)
  }

  /** `s.scan(...)` from `p`: each match, then the scan resumes after it. */
  function ValuePairs(s: String, p: nat): (r: seq<(String, String)>)
    decreases |s| - p
  {
    if p >= |s| then []
    else match PairAt(s, p)
      case Some(m) => [(m.key, m.value)] + ValuePairs(s, m.end)
      case None => ValuePairs(s, p + 1)
  }

  // ---------------------------------------------------------------------------
  // The scan for /(?:^|\s)([\w-]+)(?:\s|$)/

  /** `[\w-]+` at `j`, up to a whitespace character (consumed) or the end: the word and where the match ends. */
  function WordAt(s: String, j: nat): (r: Option<(String, nat)>)
    requires j <= |s|
    ensures r.Some? ==> j < r.value.1 <= |s|
  {
    var e := WordRunEnd(s, j);
    if e == j then None
    else if e == |s| then Some((s[j..e], e))
    else if IsSpace(s[e]) then Some((s[j..e], e + 1))
    else None
  }

  /** The match at `p`: the start of the string, or a whitespace character at `p`, then the word. */
  function BareWordAt(s: String, p: nat): (r: Option<(String, nat)>)
    requires p < |s|
    ensures r.Some? ==> p < r.value.1 <= |s|
  {
    if p == 0 && WordAt(s, 0).Some? then WordAt(s, 0)
    else if IsSpace(s[p]) then WordAt(s, p + 1)
    else None
  }

  function BareWords(s: String, p: nat): (r: seq<String>)
    decreases |s| - p
  {
    if p >= |s| then []
    else match BareWordAt(s, p)
      case Some((w, e)) => [w] + BareWords(s, e)
      case None => BareWords(s, p + 1)
  }

  // ---------------------------------------------------------------------------
  // Building, merging and rendering hashes

  /** `pairs.each { |k, v| hash[k] = v }` */
  function PutPairs(h: Hash, pairs: seq<(String, String)>): Hash
    decreases |pairs|
  {
    if pairs == [] then h else PutPairs(Put(h, pairs[0].0, Str(pairs[0].1)), pairs[1..])
  }

  /** `words.each { |w| hash[w] = true unless hash.key?(w) }` */
  function PutFlags(h: Hash, words: seq<String>): Hash
    decreases |words|
  {
    if words == [] then h
    else PutFlags(if HasKey(h, words[0]) then h else Put(h, words[0], Flag), words[1..])
  }

  /** `parse_attributes_to_hash` */
  function AttributesHash(s: String): Hash
  {
    if s == [] then [] else PutFlags(PutPairs([], ValuePairs(s, 0)), BareWords(s, 0))
  }

  /** `base_list + additional_list` split on whitespace, de-duplicated, joined with spaces. */
  function MergeClassValues(base: Value, additional: Value): String
  {
    Join(Uniq(Words(base.ToS()) + Words(additional.ToS())), " ")
  }

  /** A declaration list ends with `;` unless it is empty. */
  function Terminated(x: String): String
  {
    if x == [] || EndsWith(x, ";") then x else x + ";"
  }

  function MergeStyleValues(base: Value, additional: Value): String
  {
    Strip(Terminated(Strip(base.ToS())) + " " + Terminated(Strip(additional.ToS())))
  }

  /** One step of `merge_hashes`. */
  function MergeEntry(merged: Hash, key: String, value: Value): Hash
  {
    if key == "class" && HasKey(merged, "class") then
      Put(merged, "class", Str(MergeClassValues(Get(merged, "class").value, value)))
    else if key == "style" && HasKey(merged, "style") then
      Put(merged, "style", Str(MergeStyleValues(Get(merged, "style").value, value)))
    else Put(merged, key, value)
  }

  /** `merge_hashes`: the entries of `additional`, in order, folded into `merged`. */
  function MergedHash(merged: Hash, additional: Hash): Hash
    decreases |additional|
  {
    if additional == [] then merged
    else MergedHash(MergeEntry(merged, additional[0].0, additional[0].1), additional[1..])
  }

  /** One attribute of the output: a bare key for `true`, `key="value"` otherwise. */
  function RenderEntry(e: Entry): String
  {
    if e.1 == Flag then e.0 else e.0 + "=\"" + e.1.s + "\""
  }

  function RenderEntries(h: Hash): (r: seq<String>)
    ensures |r| == |h|
    ensures forall i :: 0 <= i < |h| ==> r[i] == RenderEntry(h[i])
  {
    if h == [] then [] else [RenderEntry(h[0])] + RenderEntries(h[1..])
  }

  /** `build_attributes_string` */
  function BuildAttributesString(h: Hash): String
  {
    if h == [] then [] else " " + Join(RenderEntries(h), " ")
  }

  /** `AttributeMerger.merge(base, additional)`, with `nil` as `None`. */
  function Merge(base: Option<String>, additional: Option<String>): String
  {
    BuildAttributesString(MergedHash(AttributesHash(base.GetOr([])), AttributesHash(additional.GetOr([]))))
  }

  // ---------------------------------------------------------------------------
  // The mutating loops of the Ruby code

  /** `parse_attributes_to_hash`: the two scans, each assigning into `hash`. */
  method ParseAttributesToHash(s: String) returns (hash: Hash)
    ensures hash == AttributesHash(s)
    ensures Valid(hash)
  {
    hash := [];
    if s == [] {
      return;
    }
    var p := 0;
    while p < |s|
      invariant p <= |s|
      invariant PutPairs(hash, ValuePairs(s, p)) == PutPairs([], ValuePairs(s, 0))
      invariant Valid(hash)
      decreases |s| - p
    {
      var m := PairAt(s, p);
      if m.Some? {
        PutValid(hash, m.value.key, Str(m.value.value));
        hash := Put(hash, m.value.key, Str(m.value.value));
        p := m.value.end;
      } else {
        p := p + 1;
      }
    }
    p := 0;
    while p < |s|
      invariant p <= |s|
      invariant PutFlags(hash, BareWords(s, p)) == AttributesHash(s)
      invariant Valid(hash)
      decreases |s| - p
    {
      var w := BareWordAt(s, p);
      if w.Some? {
        var (key, e) := w.value;
        if !HasKey(hash, key) {
          PutValid(hash, key, Flag);
          hash := Put(hash, key, Flag);
        }
        p := e;
      } else {
        p := p + 1;
      }
    }
  }

  /** `merge_hashes`: `merged = base.dup`, then one assignment per additional entry. */
  method MergeHashes(base: Hash, additional: Hash) returns (merged: Hash)
    ensures merged == MergedHash(base, additional)
  {
    merged := base;
    var i := 0;
    while i < |additional|
      invariant i <= |additional|
      invariant MergedHash(merged, additional[i..]) == MergedHash(base, additional)
    {
      assert additional[i..][1..] == additional[i + 1..];
      merged := MergeEntry(merged, additional[i].0, additional[i].1);
      i := i + 1;
    }
  }

  /** `merge`: both strings parsed, merged and rendered; `nil` counts as "". */
  method MergeAttributes(base: Option<String>, additional: Option<String>) returns (r: String)
    ensures r == Merge(base, additional)
  {
    var baseHash := ParseAttributesToHash(base.GetOr([]));
    var additionalHash := ParseAttributesToHash(additional.GetOr([]));
    var merged := MergeHashes(baseHash, additionalHash);
    r := BuildAttributesString(merged);
  }

  // ---------------------------------------------------------------------------
  // What the merge promises

  /** Class values: the whitespace-separated tokens of both sides, base first, each kept once. */
  lemma ClassMerge(base: Value, additional: Value)
    ensures Words(MergeClassValues(base, additional)) == Uniq(Words(base.ToS()) + Words(additional.ToS()))
    ensures forall w :: w in Words(MergeClassValues(base, additional)) <==>
                          w in Words(base.ToS()) || w in Words(additional.ToS())
    ensures NoDuplicates(Words(MergeClassValues(base, additional)))
  {
    var ws := Words(base.ToS()) + Words(additional.ToS());
    UniqSpec(ws);
    var u := Uniq(ws);
    forall i | 0 <= i < |u| ensures u[i] != [] && NoSpace(u[i]) {
      assert u[i] in ws;
    }
    WordsOfJoin(u);
  }

  lemma TerminatedTrimmed(x: String)
    requires x == [] || (!IsSpace(x[0]) && !IsSpace(x[|x| - 1]))
    ensures Terminated(x) == [] <==> x == []
    ensures Terminated(x) == [] || (!IsSpace(Terminated(x)[0]) && EndsWith(Terminated(x), ";"))
  {
  }

  /**
    Style values: each side stripped and ended with `;` unless empty; two
    non-empty sides are joined by exactly one space.
   */
  lemma StyleMerge(base: Value, additional: Value)
    ensures var b := Terminated(Strip(base.ToS()));
            var a := Terminated(Strip(additional.ToS()));
            && (b == [] <==> Strip(base.ToS()) == [])
            && (a == [] <==> Strip(additional.ToS()) == [])
            && (b == [] || EndsWith(b, ";")) && (a == [] || EndsWith(a, ";"))
            && MergeStyleValues(base, additional) == if b == [] then a else if a == [] then b else b + " " + a
  {
    var b := Terminated(Strip(base.ToS()));
    var a := Terminated(Strip(additional.ToS()));
    TerminatedTrimmed(Strip(base.ToS()));
    TerminatedTrimmed(Strip(additional.ToS()));
    if b == [] {
      assert b + " " + a == " " + a + [];
      StripOfPadded(" ", a, []);
    } else if a == [] {
      assert b + " " + a == [] + b + " ";
      StripOfPadded([], b, " ");
    } else {
      StripTrimmed(b + " " + a);
    }
  }

  lemma KeysTail(h: Hash)
    requires h != []
    ensures Keys(h) == [h[0].0] + Keys(h[1..])
  {
  }

  /** A step of the merge assigns only its own key. */
  lemma MergeEntryOthers(m: Hash, key: String, v: Value, k: String)
    requires k != key
    ensures Get(MergeEntry(m, key, v), k) == Get(m, k)
  {
    if key == "class" && HasKey(m, "class") {
      PutOthers(m, "class", Str(MergeClassValues(Get(m, "class").value, v)), k);
    } else if key == "style" && HasKey(m, "style") {
      PutOthers(m, "style", Str(MergeStyleValues(Get(m, "style").value, v)), k);
    } else {
      PutOthers(m, key, v, k);
    }
  }

  lemma MergeEntryKeys(m: Hash, key: String, v: Value)
    ensures Keys(MergeEntry(m, key, v)) == if HasKey(m, key) then Keys(m) else Keys(m) + [key]
  {
    if key == "class" && HasKey(m, "class") {
      PutKeys(m, "class", Str(MergeClassValues(Get(m, "class").value, v)));
    } else if key == "style" && HasKey(m, "style") {
      PutKeys(m, "style", Str(MergeStyleValues(Get(m, "style").value, v)));
    } else {
      PutKeys(m, key, v);
    }
  }

  /** The value the merge gives `k`. */
  function MergedValue(base: Hash, additional: Hash, k: String): Option<Value>
  {
    if !HasKey(additional, k) then Get(base, k)
    else if k == "class" && HasKey(base, "class") then
      Some(Str(MergeClassValues(Get(base, k).value, Get(additional, k).value)))
    else if k == "style" && HasKey(base, "style") then
      Some(Str(MergeStyleValues(Get(base, k).value, Get(additional, k).value)))
    else Get(additional, k)
  }

  /**
    Per key: a base-only key keeps its value, a class or style present on both
    sides is merged, and any other key of the additional hash overwrites.
   */
  lemma {:induction false} MergedGet(base: Hash, additional: Hash, k: String)
    requires Valid(additional)
    ensures Get(MergedHash(base, additional), k) == MergedValue(base, additional, k)
    decreases |additional|
  {
    if additional != [] {
      var (key, v) := additional[0];
      var rest := additional[1..];
      var next := MergeEntry(base, key, v);
      KeysTail(additional);
      assert Valid(rest) && key !in Keys(rest) by {
        var ka := Keys(additional);
        assert ka == [key] + Keys(rest);
        assert forall i :: 0 <= i < |rest| ==> Keys(rest)[i] == ka[i + 1];
        assert ka[0] == key;
      }
      MergedGet(next, rest, k);
      if k == key {
        assert !HasKey(rest, k);
      } else {
        MergeEntryOthers(base, key, v, k);
        if k == "class" { MergeEntryOthers(base, key, v, "class"); }
        if k == "style" { MergeEntryOthers(base, key, v, "style"); }
      }
    }
  }

  /** Key order: the base keys in their order, then the new keys in the order they are met. */
  lemma {:induction false} MergedKeys(base: Hash, additional: Hash)
    ensures Keys(MergedHash(base, additional)) == Keys(base) + UniqAfter(Keys(additional), Keys(base))
    decreases |additional|
  {
    if additional != [] {
      var (key, v) := additional[0];
      var rest := additional[1..];
      var next := MergeEntry(base, key, v);
      assert MergedHash(base, additional) == MergedHash(next, rest);
      KeysTail(additional);
      MergeEntryKeys(base, key, v);
      MergedKeys(next, rest);
      MergedKeysStep(Keys(base), key, Keys(rest), Keys(next));
    }
  }

  lemma MergedKeysStep(kb: seq<String>, key: String, kr: seq<String>, kn: seq<String>)
    requires kn == if key in kb then kb else kb + [key]
    ensures kn + UniqAfter(kr, kn) == kb + UniqAfter([key] + kr, kb)
  {
    assert ([key] + kr)[1..] == kr;
    if key !in kb {
      assert kb + [key] + UniqAfter(kr, kb + [key]) == kb + ([key] + UniqAfter(kr, kb + [key]));
    }
  }

  /** The last assignment of a key wins; keys never assigned keep their value. */
  lemma {:induction false} PutPairsGet(h: Hash, pairs: seq<(String, String)>, k: String, i: int)
    requires i == -1 ==> forall j :: 0 <= j < |pairs| ==> pairs[j].0 != k
    requires 0 <= i ==> i < |pairs| && pairs[i].0 == k && forall j :: i < j < |pairs| ==> pairs[j].0 != k
    requires -1 <= i
    ensures Get(PutPairs(h, pairs), k) == if i == -1 then Get(h, k) else Some(Str(pairs[i].1))
    decreases |pairs|
  {
    if pairs != [] {
      var h' := Put(h, pairs[0].0, Str(pairs[0].1));
      if i == 0 {
        PutPairsGet(h', pairs[1..], k, -1);
      } else {
        if pairs[0].0 != k { PutOthers(h, pairs[0].0, Str(pairs[0].1), k); }
        PutPairsGet(h', pairs[1..], k, if i == -1 then -1 else i - 1);
      }
    }
  }

  /** A bare word becomes `true` only when the key is still unassigned. */
  lemma {:induction false} PutFlagsGet(h: Hash, words: seq<String>, k: String)
    ensures Get(PutFlags(h, words), k) == if !HasKey(h, k) && k in words then Some(Flag) else Get(h, k)
    decreases |words|
  {
    if words != [] {
      var w := words[0];
      var h' := if HasKey(h, w) then h else Put(h, w, Flag);
      PutFlagsGet(h', words[1..], k);
      assert words == [w] + words[1..];
      if k != w && !HasKey(h, w) { PutOthers(h, w, Flag, k); }
    }
  }

  /** `key="value"`: the last such pair for a key gives its value, even if the key also stands alone. */
  lemma KeyedValue(s: String, k: String, i: nat)
    requires s != []
    requires i < |ValuePairs(s, 0)| && ValuePairs(s, 0)[i].0 == k
    requires forall j :: i < j < |ValuePairs(s, 0)| ==> ValuePairs(s, 0)[j].0 != k
    ensures Get(AttributesHash(s), k) == Some(Str(ValuePairs(s, 0)[i].1))
  {
    var pairs := ValuePairs(s, 0);
    PutPairsGet([], pairs, k, i);
    PutFlagsGet(PutPairs([], pairs), BareWords(s, 0), k);
  }

  /** A valueless word that no pair assigns becomes `true`. */
  lemma BareWordFlag(s: String, k: String)
    requires s != [] && k in BareWords(s, 0)
    requires forall j :: 0 <= j < |ValuePairs(s, 0)| ==> ValuePairs(s, 0)[j].0 != k
    ensures Get(AttributesHash(s), k) == Some(Flag)
  {
    var pairs := ValuePairs(s, 0);
    PutPairsGet([], pairs, k, -1);
    PutFlagsGet(PutPairs([], pairs), BareWords(s, 0), k);
  }

  /** Each entry appears in the output: `true` as the bare key, a string as `key="value"`. */
  lemma RenderedEntry(h: Hash, k: String)
    requires HasKey(h, k)
    ensures Get(h, k) == Some(Flag) ==> k in RenderEntries(h)
    ensures Get(h, k).value.Str? ==> k + "=\"" + Get(h, k).value.s + "\"" in RenderEntries(h)
  {
    var i :| 0 <= i < |h| && h[i] == (k, Get(h, k).value);
    assert RenderEntries(h)[i] == RenderEntry(h[i]);
  }

  /** The merged string is empty exactly when both sides hold no attribute, and otherwise starts with a space. */
  lemma MergeEmpty(base: Option<String>, additional: Option<String>)
    ensures Merge(base, additional) == [] <==>
            AttributesHash(base.GetOr([])) == [] && AttributesHash(additional.GetOr([])) == []
    ensures Merge(base, additional) != [] ==> Merge(base, additional)[0] == ' '
  {
    var b := AttributesHash(base.GetOr([]));
    var a := AttributesHash(additional.GetOr([]));
    MergedKeys(b, a);
    if a != [] && b == [] {
      assert Keys(a)[0] !in Keys(b);
      assert UniqAfter(Keys(a), Keys(b)) != [];
    }
  }
}
