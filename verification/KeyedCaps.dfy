/** The caps of named items: groups, or the tenants of a group. */
module KeyedCaps {
  import opened SlotCaps

  datatype Item<K> = Item(key: K, weight: int)

  ghost predicate DistinctKeys<K>(items: seq<Item<K>>) { forall i, j | 0 <= i < j < |items| :: items[i].key != items[j].key }

  function Weights<K>(items: seq<Item<K>>): (ws: seq<int>)
    ensures |ws| == |items|
  {
    seq(|items|, i requires 0 <= i < |items| => items[i].weight)
  }

  /** Each item's key holds its cap. */
  ghost predicate Keyed<K>(items: seq<Item<K>>, s: seq<nat>, caps: map<K, nat>) {
    |s| == |items| && forall i | 0 <= i < |items| :: items[i].key in caps && caps[items[i].key] == s[i]
  }

  /** The caps by key. */
  method WeightedCaps<K(==)>(max: nat, items: seq<Item<K>>) returns (caps: map<K, nat>)
    ensures max == 0 || items == [] ==> caps == map[]
    ensures max > 0 && items != [] ==> forall k :: k in caps <==> exists i :: 0 <= i < |items| && items[i].key == k
    ensures max > 0 && items != [] && DistinctKeys(items) ==>
              exists s: seq<nat> :: Keyed(items, s, caps) && Apportioned(max, Weights(items), s)
  {
    hide Apportioned, Weights;
    var s := Split(max, Weights(items));
    caps := map[];
    for i := 0 to |s|
      invariant |s| <= |items|
      invariant forall k :: k in caps <==> exists j :: 0 <= j < i && items[j].key == k
      invariant DistinctKeys(items) ==> forall j | 0 <= j < i :: items[j].key in caps && caps[items[j].key] == s[j]
    {
      caps := caps[items[i].key := s[i]];
    }
    if max > 0 && items != [] && DistinctKeys(items) {
      assert Keyed(items, s, caps);
    }
  }
}
