/** The entity/component store of `src/entity/mod.rs` (`Entites`): a registry of component kinds,
    one presence mask per entity slot, and one column of optional values per kind, all
    index-aligned. A kind is identified by its registration index `0, 1, 2, ...`, which stands for
    the source's `TypeId`. */
module EntityStore {
  import opened Common
  import opened Masks

  /** `map.iter().enumerate().find(|(_, mask)| **mask == 0)`: the lowest tombstoned slot, if any. */
  function LowestTombstone(masks: seq<Mask>): (r: Option<nat>)
    ensures r.Some? ==> r.value < |masks| && masks[r.value] == {}
    ensures r.Some? ==> forall j :: 0 <= j < r.value ==> masks[j] != {}
    ensures r.None? <==> forall j :: 0 <= j < |masks| ==> masks[j] != {}
  {
    if masks == [] then None
    else if masks[0] == {} then Some(0)
    else match LowestTombstone(masks[1..])
      case None => None
      case Some(j) => Some(j + 1)
  }

  /** Tombstoned slots are reused before storage grows: whenever slot `i` is a tombstone,
      creation picks a slot no higher than `i`. */
  lemma TombstoneReused(masks: seq<Mask>, i: nat)
    requires i < |masks| && masks[i] == {}
    ensures LowestTombstone(masks).Some? && LowestTombstone(masks).value <= i
  {
  }

  /** Every set bit has a stored value behind it: bit `k` of slot `i` is set only when column
      `k` holds `Some` at `i`. This is what makes the `unwrap` in `Query::run` safe. */
  ghost predicate Backed<V>(masks: seq<Mask>, columns: seq<seq<Option<V>>>)
  {
    forall i, k {:trigger k in masks[i]} :: 0 <= i < |masks| && k in masks[i] ==> k < |columns| && i < |columns[k]| && columns[k][i].Some?
  }

  /** Every mask in a valid store fits in a `u32`: its bits are registered kinds, of which there
      are at most 32. */
  lemma MasksAreWords<V>(e: Entities<V>, i: nat)
    requires e.Valid() && i < |e.entityMap|
    ensures IsWord(e.entityMap[i])
  {
    // A corollary of `Valid`: a set bit is backed by a column, and there are at most 32 columns.
  }

  /** Storing a value and setting its bit together keep every bit backed. */
  lemma BackedAttach<V>(masks: seq<Mask>, columns: seq<seq<Option<V>>>, index: nat, kind: nat, value: V)
    requires Backed(masks, columns)
    requires index < |masks| && kind < |columns| && index < |columns[kind]|
    ensures Backed(masks[index := masks[index] + {kind}], columns[kind := columns[kind][index := Some(value)]])
  {
    // A corollary of `Backed`: only slot `index` of column `kind` gains a bit, and it gains a value.
  }

  /** Clearing bits (a detach, a tombstone) keeps every remaining bit backed. */
  lemma BackedClear<V>(masks: seq<Mask>, masks': seq<Mask>, columns: seq<seq<Option<V>>>)
    requires Backed(masks, columns)
    requires |masks'| == |masks| && forall i :: 0 <= i < |masks| ==> masks'[i] <= masks[i]
    ensures Backed(masks', columns)
  {
    // A corollary of `Backed`: every bit still set was set before.
  }

  /** Appending an empty slot (mask `0`, `None` in every column) keeps every bit backed. */
  lemma BackedGrow<V>(masks: seq<Mask>, columns: seq<seq<Option<V>>>, columns': seq<seq<Option<V>>>)
    requires Backed(masks, columns)
    requires |columns'| == |columns| && forall k :: 0 <= k < |columns| ==> columns'[k] == columns[k] + [None]
    ensures Backed(masks + [{}], columns')
  {
    // A corollary of `Backed`: the new slot has no bit, and old entries keep their values.
  }

  class Entities<V> {
    /** `bit_masks`: the mask of each registered kind, in registration order. */
    var bitMasks: seq<Mask>
    /** `components`: one column per registered kind, one entry per slot. */
    var columns: seq<seq<Option<V>>>
    /** `map`: the presence mask of each slot; `{}` (the `u32` 0) marks a tombstone. */
    var entityMap: seq<Mask>
    /** `inserting_into_index`: the slot that cursor-based attaches write to. */
    var cursor: nat

    /** The store's invariant: kind `k` has mask `2^k` and fewer than 33 kinds exist, every column
        is as long as `map`, and a set bit always has a stored value behind it. */
    ghost predicate Valid()
      reads this
    {
      && |bitMasks| == |columns| <= Width
      && (forall k :: 0 <= k < |bitMasks| ==> bitMasks[k] == Bit(k))
      && (forall k :: 0 <= k < |columns| ==> |columns[k]| == |entityMap|)
      && Backed(entityMap, columns)
    }

    /** `Entites::default()`. */
    constructor ()
      ensures Valid()
      ensures bitMasks == [] && columns == [] && entityMap == [] && cursor == 0
    {
      bitMasks, columns, entityMap, cursor := [], [], [], 0;
    }

    /** `register_component`: the new kind gets mask `2^n`, `n` the number of kinds registered
        before it, and an empty column. Registration is only allowed while no slot exists (an
        empty column beside non-empty ones would break the alignment) and while the mask has a
        free bit (`2_u32.pow` overflows past 31). */
    method RegisterComponent() returns (kind: nat)
      requires Valid()
      requires |columns| < Width
      requires |entityMap| == 0
      modifies this
      ensures Valid()
      ensures kind == old(|columns|)
      ensures bitMasks == old(bitMasks) + [Bit(kind)]
      ensures columns == old(columns) + [[]]
      ensures entityMap == old(entityMap) && cursor == old(cursor)
    {
      kind := |bitMasks|;
      var bitMask := Bit(kind);
      columns := columns + [[]];
      bitMasks := bitMasks + [bitMask];
    }

    /** `create_entity`: reuse the lowest tombstone, leaving lengths and contents alone (stale
        column values stay), or else append `None` to every column and `0` to `map`. Either way
        the cursor points at the new entity's slot. */
    method CreateEntity()
      requires Valid()
      modifies this
      ensures Valid()
      ensures bitMasks == old(bitMasks)
      ensures cursor < |entityMap|
      ensures match LowestTombstone(old(entityMap))
        case Some(i) =>
          cursor == i && entityMap == old(entityMap) && columns == old(columns)
        case None =>
          && cursor == |old(entityMap)|
          && entityMap == old(entityMap) + [{}]
          && |columns| == |old(columns)|
          && forall k :: 0 <= k < |columns| ==> columns[k] == old(columns[k]) + [None]
    {
      var i := 0;
      while i < |entityMap| && entityMap[i] != {}
        invariant 0 <= i <= |entityMap|
        invariant forall j :: 0 <= j < i ==> entityMap[j] != {}
        invariant unchanged(this)
      {
        i := i + 1;
      }
      if i < |entityMap| {
        cursor := i;
      } else {
        var k := 0;
        while k < |columns|
          invariant 0 <= k <= |columns| == |old(columns)|
          invariant forall j :: 0 <= j < k ==> columns[j] == old(columns[j]) + [None]
          invariant forall j :: k <= j < |columns| ==> columns[j] == old(columns[j])
          invariant entityMap == old(entityMap) && bitMasks == old(bitMasks)
        {
          columns := columns[k := columns[k] + [None]];
          k := k + 1;
        }
        BackedGrow(entityMap, old(columns), columns);
        entityMap := entityMap + [{}];
        cursor := |entityMap| - 1;
      }
    }

    /** `with_component`: for a registered kind, store `Some(value)` at the cursor and set the
        kind's bit there, or fail with `ComponentNotFound` when the cursor is past the column.
        For an unregistered kind the source builds `ComponetNotRegister` and drops it, so the
        call succeeds and changes nothing. */
    method WithComponent(kind: nat, value: V) returns (r: Outcome)
      requires Valid()
      modifies this
      ensures Valid()
      ensures bitMasks == old(bitMasks) && cursor == old(cursor)
      ensures r == if kind < |bitMasks| && cursor >= |entityMap| then Err(ComponentNotFound) else Ok
      ensures if kind < |bitMasks| && cursor < |old(entityMap)| then
          && entityMap == old(entityMap)[cursor := old(entityMap)[cursor] + Bit(kind)]
          && columns == old(columns)[kind := old(columns)[kind][cursor := Some(value)]]
        else
          entityMap == old(entityMap) && columns == old(columns)
    {
      var index := cursor;
      if kind < |columns| {
        if index >= |columns[kind]| {
          return Err(ComponentNotFound);
        }
        BackedAttach(entityMap, columns, index, kind, value);
        columns := columns[kind := columns[kind][index := Some(value)]];
        var bitMask := bitMasks[kind];
        entityMap := entityMap[index := entityMap[index] + bitMask];
      }
      r := Ok;
    }

    /** `get_bitmask`: the mask of a registered kind, which is `2^kind`. */
    function GetBitmask(kind: nat): (r: Option<Mask>)
      requires Valid()
      reads this
      ensures r.Some? <==> kind < |columns|
      ensures r.Some? ==> kind < Width && r.value == Bit(kind)
    {
      if kind < |bitMasks| then Some(bitMasks[kind]) else None
    }

    /** `has_component`: slot `index` holds every kind whose bit is in `mask`. */
    function HasComponent(index: nat, mask: Mask): (r: bool)
      requires index < |entityMap|
      reads this
      ensures r <==> mask <= entityMap[index]
    {
      entityMap[index] * mask == mask
    }

    /** `delete_component_by_entity_id`: clear the kind's bit in slot `index` if it is set. The
        column keeps its (now unreachable) value, and a second call changes nothing. An
        unregistered kind fails with `ComponetNotRegister`. The slot must exist once the kind is
        known to be registered: the source indexes `map` unchecked. */
    method DeleteComponentByEntityId(kind: nat, index: nat) returns (r: Outcome)
      requires Valid()
      requires kind < |bitMasks| ==> index < |entityMap|
      modifies this
      ensures Valid()
      ensures bitMasks == old(bitMasks) && columns == old(columns) && cursor == old(cursor)
      ensures r == if kind < |bitMasks| then Ok else Err(ComponetNotRegister)
      ensures entityMap == if r.Ok? then old(entityMap)[index := old(entityMap)[index] - Bit(kind)] else old(entityMap)
    {
      if kind >= |bitMasks| {
        return Err(ComponetNotRegister);
      }
      var mask := bitMasks[kind];
      if HasComponent(index, mask) {
        XorBit(entityMap[index], kind);
        entityMap := entityMap[index := Xor(entityMap[index], mask)];
      } else {
        assert entityMap[index] == entityMap[index] - Bit(kind);
      }
      BackedClear(old(entityMap), entityMap, columns);
      r := Ok;
    }

    /** `add_component_to_entity_by_id`: set the kind's bit in slot `index` and store
        `Some(value)` there; an unregistered kind fails with `ComponetNotRegister`. The slot must
        exist once the kind is known to be registered: the source indexes unchecked. */
    method AddComponentToEntityById(value: V, kind: nat, index: nat) returns (r: Outcome)
      requires Valid()
      requires kind < |bitMasks| ==> index < |entityMap|
      modifies this
      ensures Valid()
      ensures bitMasks == old(bitMasks) && cursor == old(cursor)
      ensures r == if kind < |bitMasks| then Ok else Err(ComponetNotRegister)
      ensures if r.Ok? then
          && entityMap == old(entityMap)[index := old(entityMap)[index] + Bit(kind)]
          && columns == old(columns)[kind := old(columns)[kind][index := Some(value)]]
        else
          entityMap == old(entityMap) && columns == old(columns)
    {
      if kind >= |bitMasks| {
        return Err(ComponetNotRegister);
      }
      var mask := bitMasks[kind];
      BackedAttach(entityMap, columns, index, kind, value);
      entityMap := entityMap[index := entityMap[index] + mask];
      columns := columns[kind := columns[kind][index := Some(value)]];
      r := Ok;
    }

    /** `delete_entity_by_id`: tombstone slot `index` by zeroing its mask; columns keep their
        values. A slot that does not exist fails with `EntityDoesNotExist`. */
    method DeleteEntityById(index: nat) returns (r: Outcome)
      requires Valid()
      modifies this
      ensures Valid()
      ensures bitMasks == old(bitMasks) && columns == old(columns) && cursor == old(cursor)
      ensures r == if index < |old(entityMap)| then Ok else Err(EntityDoesNotExist)
      ensures entityMap == if r.Ok? then old(entityMap)[index := {}] else old(entityMap)
    {
      if index < |entityMap| {
        BackedClear(entityMap, entityMap[index := {}], columns);
        entityMap := entityMap[index := {}];
      } else {
        return Err(EntityDoesNotExist);
      }
      r := Ok;
    }
  }
}
