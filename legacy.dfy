/** The earlier, mask-free store of `src/entity.rs`: one column of optional values per registered
    kind, creation always appends, and attaching writes the last entry of the kind's column. */
module LegacyStore {
  import opened Common

  class Entities<V> {
    /** `components`: one column per registered kind, in registration order. */
    var columns: seq<seq<Option<V>>>

    /** All columns have the same length, so the last entries of all columns belong to the same
        entity. */
    ghost predicate Aligned()
      reads this
    {
      forall j, k :: 0 <= j < |columns| && 0 <= k < |columns| ==> |columns[j]| == |columns[k]|
    }

    /** `Entites::default()`. */
    constructor ()
      ensures columns == [] && Aligned()
    {
      columns := [];
    }

    /** `register_component`: append an empty column for the new kind. The columns stay aligned
        exactly when they were aligned and no entity had been created yet. */
    method RegisterComponent() returns (kind: nat)
      modifies this
      ensures kind == old(|columns|)
      ensures columns == old(columns) + [[]]
      ensures Aligned() <==> old(Aligned()) && forall k :: 0 <= k < |old(columns)| ==> old(columns)[k] == []
    {
      kind := |columns|;
      columns := columns + [[]];
      if Aligned() {
        forall k | 0 <= k < kind
          ensures old(columns)[k] == []
        {
          assert |columns[k]| == |columns[kind]| == 0;
        }
      }
    }

    /** `create_entity`: append `None` to every column, so every column grows by exactly one and
        alignment is kept. */
    method CreateEntity()
      modifies this
      ensures |columns| == |old(columns)|
      ensures forall k :: 0 <= k < |columns| ==> columns[k] == old(columns[k]) + [None]
      ensures Aligned() == old(Aligned())
    {
      var k := 0;
      while k < |columns|
        invariant 0 <= k <= |columns| == |old(columns)|
        invariant forall j :: 0 <= j < k ==> columns[j] == old(columns[j]) + [None]
        invariant forall j :: k <= j < |columns| ==> columns[j] == old(columns[j])
      {
        columns := columns[k := columns[k] + [None]];
        k := k + 1;
      }
      assert forall j :: 0 <= j < |columns| ==> |columns[j]| == |old(columns[j])| + 1;
    }

    /** `with_component`: overwrite the last entry of the kind's column with `Some(value)`. The
        column must not be empty (`last_mut` followed by `unwrap` panics). For an unregistered
        kind the source builds `ComponetNotRegister` and drops it, so the call succeeds and
        changes nothing. */
    method WithComponent(kind: nat, value: V) returns (r: Outcome)
      requires kind < |columns| ==> |columns[kind]| > 0
      modifies this
      ensures r == Ok
      ensures if kind < |old(columns)| then
          columns == old(columns)[kind := old(columns[kind])[|old(columns[kind])| - 1 := Some(value)]]
        else
          columns == old(columns)
      ensures Aligned() == old(Aligned())
    {
      if kind < |columns| {
        var column := columns[kind];
        columns := columns[kind := column[|column| - 1 := Some(value)]];
        assert forall j :: 0 <= j < |columns| ==> |columns[j]| == |old(columns[j])|;
      }
      r := Ok;
    }
  }
}
