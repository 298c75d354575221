/** The query engine of `src/entity/query.rs`: a query collects a mask and an ordered list of
    kinds, and `run` returns the matching slots with, per requested kind, the values stored there. */
module EntityQuery {
  import opened Common
  import opened Masks
  import opened EntityStore

  /** Strictly increasing, hence ascending and free of repeats. */
  predicate Ascending(s: seq<nat>)
  {
    forall a, b :: 0 <= a < b < |s| ==> s[a] < s[b]
  }

  /** The `filter_map` of `run` from slot `from` on: the slots whose mask contains every bit of
      `mask` (`entity_map & mask == mask`), in ascending order. */
  function MatchingSlots(masks: seq<Mask>, mask: Mask, from: nat): (r: seq<nat>)
    decreases |masks| - from
    ensures Ascending(r)
    ensures forall j :: 0 <= j < |r| ==> from <= r[j] < |masks|
    ensures forall i :: from <= i < |masks| ==> (i in r <==> masks[i] * mask == mask)
  {
    if from >= |masks| then []
    else
      var rest := MatchingSlots(masks, mask, from + 1);
      if masks[from] * mask == mask then [from] + rest else rest
  }

  /** Every slot holds every kind of the empty query, tombstones included; a non-empty query never
      returns a tombstone. */
  lemma TombstonesExcluded(masks: seq<Mask>, mask: Mask, i: nat)
    requires i < |masks| && masks[i] == {}
    ensures i in MatchingSlots(masks, mask, 0) <==> mask == {}
  {
    // A corollary of the contract of `MatchingSlots`: `{} * mask == mask` exactly when `mask` is empty.
  }

  class Query<V> {
    /** The store the query borrows. */
    const entities: Entities<V>
    /** `map`: the OR of the masks of the requested kinds. */
    var mask: Mask
    /** `type_ids`: the requested kinds, in the order they were added. */
    var kinds: seq<nat>

    ghost predicate Valid()
      reads this, entities
    {
      && entities.Valid()
      && AllBelow(kinds, |entities.columns|)
      && mask == MaskOf(kinds)
    }

    /** `Query::new`: an empty mask and no kinds. */
    constructor (entities: Entities<V>)
      requires entities.Valid()
      ensures Valid()
      ensures this.entities == entities && mask == {} && kinds == []
    {
      this.entities := entities;
      mask := {};
      kinds := [];
    }

    /** `Query::with_component`: a registered kind ORs its mask into the query's and is appended
        to the kind list. For an unregistered kind the source builds `ComponetNotRegister` and
        drops it, so the call succeeds and leaves the query as it was. */
    method WithComponent(kind: nat) returns (r: Outcome)
      requires Valid()
      modifies this
      ensures Valid()
      ensures r == Ok
      ensures if kind < |entities.columns| then
          mask == old(mask) + Bit(kind) && kinds == old(kinds) + [kind]
        else
          mask == old(mask) && kinds == old(kinds)
    {
      var bitMask := entities.GetBitmask(kind);
      if bitMask.Some? {
        mask := mask + bitMask.value;
        kinds := kinds + [kind];
        assert kinds[..|kinds| - 1] == old(kinds);
      }
      r := Ok;
    }

    /** `Query::run`: the slots holding every requested kind, ascending, and for each requested
        kind, in the order the kinds were added, the values stored at those slots, position by
        position. Reading a value never finds `None`: the store keeps every set bit backed. */
    method Run() returns (indexes: seq<nat>, result: seq<seq<V>>)
      requires Valid()
      ensures Ascending(indexes)
      ensures forall j :: 0 <= j < |indexes| ==> indexes[j] < |entities.entityMap|
      ensures forall i :: 0 <= i < |entities.entityMap| ==> (i in indexes <==> HasAll(entities.entityMap[i], kinds))
      ensures |result| == |kinds|
      ensures forall c :: 0 <= c < |kinds| ==> |result[c]| == |indexes|
      ensures forall c, j :: 0 <= c < |kinds| && 0 <= j < |indexes| ==>
        entities.columns[kinds[c]][indexes[j]] == Some(result[c][j])
    {
      indexes := MatchingSlots(entities.entityMap, mask, 0);
      forall i | 0 <= i < |entities.entityMap|
        ensures i in indexes <==> HasAll(entities.entityMap[i], kinds)
      {
        MaskOfKinds(entities.entityMap[i], kinds);
      }
      result := [];
      for c := 0 to |kinds|
        invariant |result| == c
        invariant forall c' :: 0 <= c' < c ==> |result[c']| == |indexes|
        invariant forall c', j :: 0 <= c' < c && 0 <= j < |indexes| ==>
          entities.columns[kinds[c']][indexes[j]] == Some(result[c'][j])
      {
        var components := entities.columns[kinds[c]];
        var queryComponents := [];
        for j := 0 to |indexes|
          invariant |queryComponents| == j
          invariant forall j' :: 0 <= j' < j ==> components[indexes[j']] == Some(queryComponents[j'])
        {
          var index := indexes[j];
          assert kinds[c] in entities.entityMap[index];
          queryComponents := queryComponents + [components[index].value];
        }
        result := result + [queryComponents];
      }
    }
  }
}
