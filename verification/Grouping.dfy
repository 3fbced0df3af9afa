/** Items collected under string keys in a Map, the idiom of buildCohortPlan and of the manifest merge. */
module Grouping {
  import opened Common

  /** The items of one key, in item order. */
  function GroupOf<T>(items: seq<T>, key: T -> string, k: string): seq<T>
    decreases |items|
  {
    if items == [] then []
    else
      var before := GroupOf(items[..|items| - 1], key, k);
      if key(items[|items| - 1]) == k then before + [items[|items| - 1]] else before
  }

  /** Keys in order of first appearance, the order a Map iterates in. */
  function GroupOrder<T>(items: seq<T>, key: T -> string): seq<string>
    decreases |items|
  {
    if items == [] then []
    else
      var before := GroupOrder(items[..|items| - 1], key);
      var k := key(items[|items| - 1]);
      if k in before then before else before + [k]
  }

  method Group<T>(items: seq<T>, key: T -> string) returns (order: seq<string>, groups: map<string, seq<T>>)
    ensures order == GroupOrder(items, key)
    ensures groups.Keys == set k | k in order
    ensures forall k :: k in groups ==> groups[k] == GroupOf(items, key, k)
  {
    order, groups := [], map[];
    for i := 0 to |items|
      invariant order == GroupOrder(items[..i], key)
      invariant groups.Keys == set k | k in order
      invariant forall k :: k in groups ==> groups[k] == GroupOf(items[..i], key, k)
      invariant forall k :: k !in groups ==> GroupOf(items[..i], key, k) == []
    {
      assert items[..i + 1][..i] == items[..i];
      var k := key(items[i]);
      var group := if k in groups then groups[k] else [];
      if k !in groups { order := order + [k]; }
      groups := groups[k := group + [items[i]]];
    }
    assert items[..|items|] == items;
  }

  lemma {:induction false} GroupFacts<T>(items: seq<T>, key: T -> string, k: string)
    ensures forall x :: x in GroupOf(items, key, k) <==> x in items && key(x) == k
    ensures Distinct(items) ==> Distinct(GroupOf(items, key, k))
    ensures k in GroupOrder(items, key) <==> GroupOf(items, key, k) != []
    ensures Distinct(GroupOrder(items, key))
    decreases |items|
  {
    if items != [] {
      GroupFacts(items[..|items| - 1], key, k);
      assert items == items[..|items| - 1] + [items[|items| - 1]];
    }
  }

  lemma {:induction false} GroupNotLarger<T>(items: seq<T>, key: T -> string, k: string)
    ensures |GroupOf(items, key, k)| <= |items|
    decreases |items|
  {
    if items != [] { GroupNotLarger(items[..|items| - 1], key, k); }
  }

  /** Where the items of a key stand. */
  ghost function Places<T>(items: seq<T>, key: T -> string, k: string): seq<nat>
    decreases |items|
  {
    if items == [] then []
    else
      var n := |items| - 1;
      Places(items[..n], key, k) + if key(items[n]) == k then [n] else []
  }

  /** A group holds the items at all places of its key, from first to last. */
  lemma {:induction false} GroupKeepsOrder<T>(items: seq<T>, key: T -> string, k: string)
    ensures var at, g := Places(items, key, k), GroupOf(items, key, k);
            && |g| == |at|
            && (forall i :: 0 <= i < |at| ==> at[i] < |items| && g[i] == items[at[i]])
            && (forall i, j :: 0 <= i < j < |at| ==> at[i] < at[j])
            && (forall p :: 0 <= p < |items| ==> (p in at <==> key(items[p]) == k))
    decreases |items|
  {
    if items != [] {
      var n := |items| - 1;
      GroupKeepsOrder(items[..n], key, k);
      var before := Places(items[..n], key, k);
      assert forall p :: 0 <= p < n ==> items[..n][p] == items[p];
    }
  }

  /** Key a occurs before the first item of key b. */
  ghost predicate Precedes<T>(items: seq<T>, key: T -> string, a: string, b: string) {
    exists p: nat :: p < |items| && key(items[p]) == a && forall q: nat :: q <= p ==> key(items[q]) != b
  }

  lemma PrecedesMore<T>(items: seq<T>, key: T -> string, a: string, b: string, n: nat)
    requires n <= |items| && Precedes(items[..n], key, a, b)
    ensures Precedes(items, key, a, b)
  {
    var p: nat :| p < n && key(items[..n][p]) == a && forall q: nat :: q <= p ==> key(items[..n][q]) != b;
    assert forall q: nat :: q <= p ==> items[..n][q] == items[q];
  }

  lemma {:induction false} KeyOccurs<T>(items: seq<T>, key: T -> string, a: string) returns (p: nat)
    requires a in GroupOrder(items, key)
    ensures p < |items| && key(items[p]) == a
    decreases |items|
  {
    p := |items| - 1;
    if key(items[p]) != a { p := KeyOccurs(items[..p], key, a); }
  }

  lemma {:induction false} KeyListed<T>(items: seq<T>, key: T -> string, q: nat)
    requires q < |items|
    ensures key(items[q]) in GroupOrder(items, key)
    decreases |items|
  {
    if q < |items| - 1 { KeyListed(items[..|items| - 1], key, q); }
  }

  /** The keys stand in order of first appearance. */
  lemma {:induction false} FirstAppearance<T>(items: seq<T>, key: T -> string, i: nat, j: nat)
    requires i < j < |GroupOrder(items, key)|
    ensures Precedes(items, key, GroupOrder(items, key)[i], GroupOrder(items, key)[j])
    decreases |items|
  {
    var n := |items| - 1;
    var order, before := GroupOrder(items, key), GroupOrder(items[..n], key);
    if j < |before| {
      FirstAppearance(items[..n], key, i, j);
      PrecedesMore(items, key, order[i], order[j], n);
    } else {
      var p := KeyOccurs(items[..n], key, order[i]);
      forall q: nat | q <= p ensures key(items[q]) != order[j] {
        KeyListed(items[..n], key, q);
      }
    }
  }
}
