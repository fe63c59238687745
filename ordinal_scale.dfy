/** The ordinal scales the view builds for node sizes and label texts
    (`d3.scaleOrdinal` with an explicit domain and range): a key found in the
    domain maps to the range entry at its position, cyclically; a key not
    found is appended to the domain first, so later lookups of it agree. */
module OrdinalScale {
  import opened Js

  /** A scale's state: its domain, which lookups may grow, and its range. */
  datatype Scale<T> = Scale(domain: seq<JsValue>, range: seq<T>)

  /** The position of `key` in `domain`, or -1 when it is absent. */
  function IndexOf(domain: seq<JsValue>, key: JsValue): (i: int)
    ensures -1 <= i < |domain|
    ensures i == -1 <==> key !in domain
    ensures 0 <= i ==> domain[i] == key && key !in domain[..i]
    decreases |domain|
  {
    if domain == [] then -1
    else if domain[0] == key then 0
    else
      var i := IndexOf(domain[1..], key);
      assert 0 <= i ==> domain[..i + 1] == [domain[0]] + domain[1..][..i];
      if i == -1 then -1 else i + 1
  }

  /** One lookup `scale(key)`: the value and the scale afterwards. */
  function Apply<T>(s: Scale<T>, key: JsValue): (T, Scale<T>)
    requires |s.range| > 0
  {
    var i := IndexOf(s.domain, key);
    if i == -1 then (s.range[|s.domain| % |s.range|], s.(domain := s.domain + [key]))
    else (s.range[i % |s.range|], s)
  }

  /** Lookups of `keys` in order, each against the scale the previous one
      left: the values and the final scale. */
  function ApplyAll<T>(s: Scale<T>, keys: seq<JsValue>): (r: (seq<T>, Scale<T>))
    requires |s.range| > 0
    ensures |r.0| == |keys| && r.1.range == s.range
    decreases |keys|
  {
    if keys == [] then ([], s)
    else
      var (values, s1) := ApplyAll(s, keys[..|keys| - 1]);
      var (v, s2) := Apply(s1, keys[|keys| - 1]);
      (values + [v], s2)
  }

  /** A lookup only ever appends the key, and only when it is missing. */
  lemma {:induction false} ApplyDomain<T>(s: Scale<T>, key: JsValue)
    requires |s.range| > 0
    ensures var s' := Apply(s, key).1;
      s'.range == s.range
      && s'.domain == (if key in s.domain then s.domain else s.domain + [key])
  {
  }

  /** Positions of keys already in a domain survive an append. */
  lemma {:induction false} IndexOfAppend(domain: seq<JsValue>, extra: JsValue, key: JsValue)
    requires key in domain
    ensures IndexOf(domain + [extra], key) == IndexOf(domain, key)
  {
    var i := IndexOf(domain, key);
    var j := IndexOf(domain + [extra], key);
    assert (domain + [extra])[i] == key;
    assert (domain + [extra])[..i] == domain[..i];
  }

  /** After a run of lookups the domain is the old one with some keys
      appended, and it holds every key looked up. */
  lemma {:induction false} ApplyAllDomain<T>(s: Scale<T>, keys: seq<JsValue>)
    requires |s.range| > 0
    ensures var s' := ApplyAll(s, keys).1;
      |s.domain| <= |s'.domain| && s'.domain[..|s.domain|] == s.domain
      && forall k :: k in s'.domain <==> k in s.domain || k in keys
    decreases |keys|
  {
    if keys != [] {
      var init := keys[..|keys| - 1];
      var key := keys[|keys| - 1];
      ApplyAllDomain(s, init);
      var s1 := ApplyAll(s, init).1;
      ApplyDomain(s1, key);
      if key !in s1.domain {
        assert (s1.domain + [key])[..|s.domain|] == s1.domain[..|s.domain|];
      }
    }
  }

  /** Every value a run of lookups returns is the range entry at its key's
      position in the final domain, cyclically: so the same key always gets
      the same value. */
  lemma {:induction false} ApplyAllAt<T>(s: Scale<T>, keys: seq<JsValue>)
    requires |s.range| > 0
    ensures forall i :: 0 <= i < |keys| ==>
      keys[i] in ApplyAll(s, keys).1.domain
      && ApplyAll(s, keys).0[i] == s.range[IndexOf(ApplyAll(s, keys).1.domain, keys[i]) % |s.range|]
    decreases |keys|
  {
    if keys != [] {
      var init := keys[..|keys| - 1];
      var key := keys[|keys| - 1];
      ApplyAllAt(s, init);
      var values1 := ApplyAll(s, init).0;
      var s1 := ApplyAll(s, init).1;
      var values := ApplyAll(s, keys).0;
      var s' := ApplyAll(s, keys).1;
      assert values == values1 + [Apply(s1, key).0];
      assert s' == Apply(s1, key).1;
      forall i | 0 <= i < |keys|
        ensures keys[i] in s'.domain
        ensures values[i] == s.range[IndexOf(s'.domain, keys[i]) % |s.range|]
      {
        if i < |init| {
          assert keys[i] == init[i] && values[i] == values1[i];
          ApplyKeeps(s1, key, init[i]);
        } else {
          ApplyFinds(s1, key);
        }
      }
    }
  }

  /** A lookup does not move the keys already in the domain. */
  lemma {:induction false} ApplyKeeps<T>(s: Scale<T>, key: JsValue, k: JsValue)
    requires |s.range| > 0 && k in s.domain
    ensures k in Apply(s, key).1.domain
    ensures IndexOf(Apply(s, key).1.domain, k) == IndexOf(s.domain, k)
  {
    if key !in s.domain {
      IndexOfAppend(s.domain, key, k);
    }
  }

  /** A lookup returns the range entry at the key's position afterwards. */
  lemma {:induction false} ApplyFinds<T>(s: Scale<T>, key: JsValue)
    requires |s.range| > 0
    ensures key in Apply(s, key).1.domain
    ensures Apply(s, key).0 == s.range[IndexOf(Apply(s, key).1.domain, key) % |s.range|]
  {
    if key !in s.domain {
      var d := s.domain + [key];
      assert d[|s.domain|] == key && d[..|s.domain|] == s.domain;
      assert IndexOf(d, key) == |s.domain|;
    }
  }

  /** Equal keys get equal values, and every value is an entry of the range. */
  lemma {:induction false} ApplyAllConsistent<T>(s: Scale<T>, keys: seq<JsValue>, i: nat, j: nat)
    requires |s.range| > 0
    requires i < |keys| && j < |keys|
    ensures keys[i] == keys[j] ==> ApplyAll(s, keys).0[i] == ApplyAll(s, keys).0[j]
    ensures ApplyAll(s, keys).0[i] in s.range
  {
    ApplyAllAt(s, keys);
    var s' := ApplyAll(s, keys).1;
    assert keys[i] in s'.domain;
    var k := IndexOf(s'.domain, keys[i]);
    assert 0 <= k % |s.range| < |s.range|;
  }

  /** Keys that are all in the domain leave the scale unchanged, and each gets
      the range entry at its position in the given domain. */
  lemma {:induction false} ApplyAllKnown<T>(s: Scale<T>, keys: seq<JsValue>)
    requires |s.range| > 0
    requires forall i :: 0 <= i < |keys| ==> keys[i] in s.domain
    ensures ApplyAll(s, keys).1 == s
    ensures forall i :: 0 <= i < |keys| ==>
      ApplyAll(s, keys).0[i] == s.range[IndexOf(s.domain, keys[i]) % |s.range|]
    decreases |keys|
  {
    if keys != [] {
      var init := keys[..|keys| - 1];
      ApplyAllKnown(s, init);
      ApplyDomain(s, keys[|keys| - 1]);
    }
    ApplyAllAt(s, keys);
  }

  /** How the domain grows does not depend on the range. */
  lemma {:induction false} ApplyAllSameDomain<T, U>(s: Scale<T>, t: Scale<U>, keys: seq<JsValue>)
    requires |s.range| > 0 && |t.range| > 0 && s.domain == t.domain
    ensures ApplyAll(s, keys).1.domain == ApplyAll(t, keys).1.domain
    decreases |keys|
  {
    if keys != [] {
      var init := keys[..|keys| - 1];
      ApplyAllSameDomain(s, t, init);
      ApplyDomain(ApplyAll(s, init).1, keys[|keys| - 1]);
      ApplyDomain(ApplyAll(t, init).1, keys[|keys| - 1]);
    }
  }
}
