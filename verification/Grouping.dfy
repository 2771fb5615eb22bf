/**
 Two passes over a sequence that the evidence reduction makes with its own key and coverage functions
 (internal/contextinput/evidence.go:52-89 and 185-204): coalescing values with the same key, and
 finding the values that cover something new.
 */
module Grouping {
  import Sequences

  // ---------------------------------------------------------------- one value per key

  /** The values with the given key. */
  function Group<V, K(==)>(f: V -> K, values: seq<V>, key: K): seq<V>
  {
    if values == [] then []
    else Group(f, values[..|values| - 1], key) + if f(values[|values| - 1]) == key then [values[|values| - 1]] else []
  }

  /** The keys in the order of their first value. */
  function Keys<V, K(==)>(f: V -> K, values: seq<V>): seq<K>
  {
    if values == [] then []
    else
      var keys, key := Keys(f, values[..|values| - 1]), f(values[|values| - 1]);
      if key in keys then keys else keys + [key]
  }

  lemma {:induction false} GroupMembers<V(!new), K(!new)>(f: V -> K, values: seq<V>, key: K)
    ensures forall v :: v in Group(f, values, key) <==> v in values && f(v) == key
    ensures |Group(f, values, key)| > 0 <==> key in Keys(f, values)
  {
    if values != [] {
      var n := |values| - 1;
      GroupMembers(f, values[..n], key);
      assert values == values[..n] + [values[n]];
    }
  }

  lemma {:induction false} KeysDistinct<V, K>(f: V -> K, values: seq<V>)
    ensures forall i, j :: 0 <= i < j < |Keys(f, values)| ==> Keys(f, values)[i] != Keys(f, values)[j]
  {
    if values != [] {
      KeysDistinct(f, values[..|values| - 1]);
    }
  }

  ghost predicate KnownKeys<V, K(!new)>(f: V -> K, values: seq<V>, keys: seq<K>) { forall k :: k in keys ==> k in Keys(f, values) }

  /** The middle value of the group of a key. */
  ghost function MiddleOf<V(!new), K(!new)>(f: V -> K, values: seq<V>, key: K): V
    requires key in Keys(f, values)
  {
    GroupMembers(f, values, key);
    var group := Group(f, values, key);
    group[|group| / 2]
  }

  ghost function Middles<V(!new), K(!new)>(f: V -> K, values: seq<V>, keys: seq<K>): seq<V>
    requires KnownKeys(f, values, keys)
  {
    if keys == [] then [] else Middles(f, values, keys[..|keys| - 1]) + [MiddleOf(f, values, keys[|keys| - 1])]
  }

  /** One actual value per key. */
  ghost function Coalesced<V(!new), K(!new)>(f: V -> K, values: seq<V>): seq<V> { Middles(f, values, Keys(f, values)) }

  lemma MiddleIsValue<V(!new), K(!new)>(f: V -> K, values: seq<V>, key: K)
    requires key in Keys(f, values)
    ensures MiddleOf(f, values, key) in values && f(MiddleOf(f, values, key)) == key
  {
    GroupMembers(f, values, key);
    var group := Group(f, values, key);
    assert group[|group| / 2] in group;
  }

  lemma {:induction false} MiddlesAt<V(!new), K(!new)>(f: V -> K, values: seq<V>, keys: seq<K>)
    requires KnownKeys(f, values, keys)
    ensures |Middles(f, values, keys)| == |keys|
    ensures forall i :: 0 <= i < |keys| ==> Middles(f, values, keys)[i] in values && f(Middles(f, values, keys)[i]) == keys[i]
  {
    if keys != [] {
      var n := |keys| - 1;
      MiddlesAt(f, values, keys[..n]);
      MiddleIsValue(f, values, keys[n]);
    }
  }

  lemma {:induction false} MiddlesAre<V(!new), K(!new)>(f: V -> K, values: seq<V>, keys: seq<K>)
    requires KnownKeys(f, values, keys)
    ensures |Middles(f, values, keys)| == |keys|
    ensures forall i :: 0 <= i < |keys| ==> Middles(f, values, keys)[i] == MiddleOf(f, values, keys[i])
  {
    if keys != [] {
      MiddlesAre(f, values, keys[..|keys| - 1]);
    }
  }

  /** The values kept are the middle values of the groups. */
  lemma CoalescedAre<V(!new), K(!new)>(f: V -> K, values: seq<V>, x: V)
    ensures x in Coalesced(f, values) <==> exists k :: k in Keys(f, values) && x == MiddleOf(f, values, k)
  {
    var keys := Keys(f, values);
    MiddlesAre(f, values, keys);
    if k :| k in keys && x == MiddleOf(f, values, k) {
      var i :| 0 <= i < |keys| && keys[i] == k;
      assert Coalesced(f, values)[i] == x;
    }
  }

  ghost predicate Grouped<V, K(!new)>(f: V -> K, groups: map<K, seq<V>>, values: seq<V>)
  {
    && (forall k :: k in groups <==> k in Keys(f, values))
    && (forall k :: k in groups ==> groups[k] == Group(f, values, k))
  }

  lemma GroupOfMore<V(!new), K(!new)>(f: V -> K, values: seq<V>, value: V, key: K)
    ensures Group(f, values + [value], key) == Group(f, values, key) + if f(value) == key then [value] else []
    ensures key in Keys(f, values + [value]) <==> key in Keys(f, values) || key == f(value)
  {
    var more := values + [value];
    assert more[..|more| - 1] == values && more[|more| - 1] == value;
  }

  lemma KeysOfMore<V, K>(f: V -> K, values: seq<V>, value: V)
    ensures Keys(f, values + [value]) == if f(value) in Keys(f, values) then Keys(f, values) else Keys(f, values) + [f(value)]
  {
    var more := values + [value];
    assert more[..|more| - 1] == values && more[|more| - 1] == value;
  }

  lemma NoGroup<V(!new), K(!new)>(f: V -> K, values: seq<V>, key: K)
    requires key !in Keys(f, values)
    ensures Group(f, values, key) == []
  {
    GroupMembers(f, values, key);
  }

  lemma GroupStep<V(!new), K(!new)>(f: V -> K, groups: map<K, seq<V>>, values: seq<V>, value: V)
    requires Grouped(f, groups, values)
    ensures var group := if f(value) in groups then groups[f(value)] else [];
            Grouped(f, groups[f(value) := group + [value]], values + [value])
    ensures Keys(f, values + [value]) == if f(value) in groups then Keys(f, values) else Keys(f, values) + [f(value)]
  {
    KeysOfMore(f, values, value);
    if f(value) !in groups {
      NoGroup(f, values, f(value));
    }
    var group := if f(value) in groups then groups[f(value)] else [];
    var after := groups[f(value) := group + [value]];
    forall k ensures k in after <==> k in Keys(f, values + [value]) {
      GroupOfMore(f, values, value, k);
    }
    forall k | k in after ensures after[k] == Group(f, values + [value], k) {
      GroupOfMore(f, values, value, k);
    }
  }

  method Groups<V(!new), K(!new, ==)>(f: V -> K, values: seq<V>) returns (groups: map<K, seq<V>>, keys: seq<K>)
    ensures keys == Keys(f, values) && Grouped(f, groups, values)
  {
    groups, keys := map[], [];
    for n := 0 to |values|
      invariant keys == Keys(f, values[..n]) && Grouped(f, groups, values[..n])
    {
      Sequences.TakeSnoc(values, n);
      GroupStep(f, groups, values[..n], values[n]);
      var key := f(values[n]);
      if key !in groups {
        keys := keys + [key];
        groups := groups[key := [values[n]]];
      } else {
        groups := groups[key := groups[key] + [values[n]]];
      }
    }
    assert values[..|values|] == values;
  }

  method Coalesce<V(!new), K(!new, ==)>(f: V -> K, values: seq<V>) returns (result: seq<V>)
    ensures result == Coalesced(f, values)
  {
    var groups, keys := Groups(f, values);
    result := [];
    for i := 0 to |keys|
      invariant KnownKeys(f, values, keys[..i]) && result == Middles(f, values, keys[..i])
    {
      Sequences.TakeSnoc(keys, i);
      GroupMembers(f, values, keys[i]);
      var group := groups[keys[i]];
      result := result + [group[|group| / 2]];
    }
    assert keys[..|keys|] == keys;
  }

  lemma KeptIsValue<V(!new), K(!new)>(f: V -> K, values: seq<V>, v: V)
    requires v in Coalesced(f, values)
    ensures v in values
  {
    MiddlesAt(f, values, Keys(f, values));
    var i :| 0 <= i < |Coalesced(f, values)| && Coalesced(f, values)[i] == v;
  }

  lemma KeptApart<V(!new), K(!new)>(f: V -> K, values: seq<V>, i: nat, j: nat)
    requires i < j < |Coalesced(f, values)|
    ensures f(Coalesced(f, values)[i]) != f(Coalesced(f, values)[j])
  {
    KeysDistinct(f, values);
    MiddlesAt(f, values, Keys(f, values));
  }

  /** Every value kept is one of the values, and every key has exactly one. */
  lemma CoalescedRepresents<V(!new), K(!new)>(f: V -> K, values: seq<V>)
    ensures forall v :: v in Coalesced(f, values) ==> v in values
    ensures forall v :: v in values ==> exists w :: w in Coalesced(f, values) && f(w) == f(v)
    ensures forall i, j :: 0 <= i < j < |Coalesced(f, values)| ==> f(Coalesced(f, values)[i]) != f(Coalesced(f, values)[j])
  {
    forall v | v in Coalesced(f, values) ensures v in values {
      KeptIsValue(f, values, v);
    }
    forall v | v in values ensures exists w :: w in Coalesced(f, values) && f(w) == f(v) {
      KeyIsKept(f, values, v);
    }
    forall i, j | 0 <= i < j < |Coalesced(f, values)| ensures f(Coalesced(f, values)[i]) != f(Coalesced(f, values)[j]) {
      KeptApart(f, values, i, j);
    }
  }

  lemma KeyIsKept<V(!new), K(!new)>(f: V -> K, values: seq<V>, v: V)
    requires v in values
    ensures exists w :: w in Coalesced(f, values) && f(w) == f(v)
  {
    var keys, kept := Keys(f, values), Coalesced(f, values);
    MiddlesAt(f, values, keys);
    GroupMembers(f, values, f(v));
    assert v in Group(f, values, f(v));
    var i :| 0 <= i < |keys| && keys[i] == f(v);
    assert kept[i] in kept && f(kept[i]) == f(v);
  }

  // ---------------------------------------------------------------- what is covered first

  function Covered<C>(keys: seq<C>): set<C> { set k | k in keys }

  function Coverage<V, C>(f: V -> seq<C>, values: seq<V>): set<C>
  {
    if values == [] then {} else Coverage(f, values[..|values| - 1]) + Covered(f(values[|values| - 1]))
  }

  lemma {:induction false} CoverageMembers<V(!new), C(!new)>(f: V -> seq<C>, values: seq<V>, key: C)
    ensures key in Coverage(f, values) <==> exists v :: v in values && key in f(v)
  {
    if values != [] {
      var n := |values| - 1;
      CoverageMembers(f, values[..n], key);
      assert values == values[..n] + [values[n]];
    }
  }

  /** The indices below n that cover something no earlier value covers. */
  function Novel<V, C(==)>(f: V -> seq<C>, values: seq<V>, n: nat): seq<int>
    requires n <= |values|
  {
    if n == 0 then []
    else Novel(f, values, n - 1) + if Covered(f(values[n - 1])) <= Coverage(f, values[..n - 1]) then [] else [n - 1]
  }

  lemma {:induction false} NovelIncreasing<V, C>(f: V -> seq<C>, values: seq<V>, n: nat)
    requires n <= |values|
    ensures Sequences.Increasing(Novel(f, values, n), n)
  {
    if n > 0 {
      NovelIncreasing(f, values, n - 1);
      Sequences.IncreasingStep(Novel(f, values, n - 1), n - 1);
      assert Novel(f, values, n - 1) + [] == Novel(f, values, n - 1);
    }
  }

  lemma {:induction false} NovelMembers<V(!new), C(!new)>(f: V -> seq<C>, values: seq<V>, n: nat, i: int)
    requires n <= |values|
    ensures i in Novel(f, values, n) <==> 0 <= i < n && !(Covered(f(values[i])) <= Coverage(f, values[..i]))
  {
    if n > 0 {
      NovelMembers(f, values, n - 1, i);
    }
  }

  /** Of values that all cover the same, only the first is novel. */
  lemma {:induction false} NovelOfAlike<V(!new), C(!new)>(f: V -> seq<C>, values: seq<V>, n: nat)
    requires 1 <= n <= |values| && f(values[0]) != [] && forall i :: 0 <= i < |values| ==> f(values[i]) == f(values[0])
    ensures Novel(f, values, n) == [0] && Coverage(f, values[..n]) == Covered(f(values[0]))
  {
    assert values[..n][..n - 1] == values[..n - 1];
    if n > 1 {
      NovelOfAlike(f, values, n - 1);
    } else {
      assert f(values[0])[0] in Covered(f(values[0]));
      assert Novel(f, values, 0) == [];
    }
  }

  /** Whatever is covered below n is covered by a novel index below n. */
  lemma {:induction false} NovelCovers<V(!new), C(!new)>(f: V -> seq<C>, values: seq<V>, n: nat, key: C)
    requires n <= |values| && key in Coverage(f, values[..n])
    ensures exists i :: 0 <= i < n && i in Novel(f, values, n) && key in f(values[i])
  {
    if n > 0 {
      assert values[..n][..n - 1] == values[..n - 1];
      if key in Coverage(f, values[..n - 1]) {
        NovelCovers(f, values, n - 1, key);
        var i :| 0 <= i < n - 1 && i in Novel(f, values, n - 1) && key in f(values[i]);
        assert i in Novel(f, values, n);
      } else {
        assert n - 1 in Novel(f, values, n);
      }
    }
  }

  /** The seen set grows by the keys of one value; the value is required if one of them is new. */
  method Mark<C(==)>(keys: seq<C>, before: set<C>) returns (seen: set<C>, required: bool)
    ensures seen == before + Covered(keys)
    ensures required <==> !(Covered(keys) <= before)
  {
    seen, required := before, false;
    for k := 0 to |keys|
      invariant seen == before + Covered(keys[..k])
      invariant required <==> !(Covered(keys[..k]) <= before)
    {
      Sequences.TakeSnoc(keys, k);
      assert Covered(keys[..k + 1]) == Covered(keys[..k]) + {keys[k]};
      if keys[k] !in seen {
        seen := seen + {keys[k]};
        required := true;
      }
    }
    assert keys[..|keys|] == keys;
  }

  method NovelIndices<V, C(==)>(f: V -> seq<C>, values: seq<V>) returns (indices: seq<int>)
    ensures indices == Novel(f, values, |values|)
  {
    var seen: set<C> := {};
    indices := [];
    for index := 0 to |values|
      invariant seen == Coverage(f, values[..index])
      invariant indices == Novel(f, values, index)
    {
      assert values[..index + 1][..index] == values[..index];
      var required;
      seen, required := Mark(f(values[index]), seen);
      if required {
        indices := indices + [index];
      }
    }
  }
}
