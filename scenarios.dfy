/** The behaviour the source's own tests check, proved from the contracts of the store and the
    query engine. Payloads are integers (the tests' `f32` values are replaced by nearby integers). Kind 0
    plays `Health` (or `u32`, `Location`), kind 1 plays `Speed` (or `f32`, `Size`). */
module Scenarios {
  import opened Common
  import opened Masks
  import EntityStore
  import opened EntityQuery
  import LegacyStore

  /** A fresh store with two registered kinds, 0 and 1. */
  method TwoKinds() returns (e: EntityStore.Entities<int>)
    ensures fresh(e) && e.Valid()
    ensures |e.columns| == 2 && e.columns == [[], []] && e.entityMap == []
  {
    e := new EntityStore.Entities<int>();
    var health := e.RegisterComponent();
    var speed := e.RegisterComponent();
  }

  /** `create_entity().with_component(value)` on a store without tombstones: a new last slot
      holding exactly `kind`, with `value`. */
  method CreateWith(e: EntityStore.Entities<int>, kind: nat, value: int)
    requires e.Valid() && kind < |e.columns|
    requires forall i :: 0 <= i < |e.entityMap| ==> e.entityMap[i] != {}
    modifies e
    ensures e.Valid() && |e.columns| == old(|e.columns|) && e.cursor == old(|e.entityMap|)
    ensures e.entityMap == old(e.entityMap) + [{kind}]
    ensures forall k :: 0 <= k < |e.columns| ==>
      e.columns[k] == old(e.columns[k]) + [if k == kind then Some(value) else None]
  {
    e.CreateEntity();
    var r := e.WithComponent(kind, value);
  }

  /** `create_entity().with_component(health).with_component(speed)` on a store with two kinds
      and no tombstones: a new last slot holding both kinds, with their values. */
  method CreateWithBoth(e: EntityStore.Entities<int>, health: int, speed: int)
    requires e.Valid() && |e.columns| == 2
    requires forall i :: 0 <= i < |e.entityMap| ==> e.entityMap[i] != {}
    modifies e
    ensures e.Valid() && |e.columns| == 2 && e.cursor == old(|e.entityMap|)
    ensures e.entityMap == old(e.entityMap) + [{0, 1}]
    ensures e.columns[0] == old(e.columns[0]) + [Some(health)]
    ensures e.columns[1] == old(e.columns[1]) + [Some(speed)]
  {
    CreateWith(e, 0, health);
    var r := e.WithComponent(1, speed);
    assert {0} + Bit(1) == {0, 1};
  }

  /** One entity created with both kinds, holding `health` and `speed`. */
  method FirstEntity(health: int, speed: int) returns (e: EntityStore.Entities<int>)
    ensures fresh(e) && e.Valid() && |e.columns| == 2
    ensures |e.entityMap| == 1 && e.entityMap[0] == {0, 1} && e.cursor == 0
    ensures e.columns[0][0] == Some(health) && e.columns[1][0] == Some(speed)
  {
    e := TwoKinds();
    CreateWithBoth(e, health, speed);
  }

  /** One entity created with kind 0 holding `health`, then given kind 1 holding `speed` by
      index. */
  method AttachedById(health: int, speed: int) returns (e: EntityStore.Entities<int>)
    ensures fresh(e) && e.Valid() && |e.columns| == 2
    ensures |e.entityMap| == 1 && e.entityMap[0] == {0, 1}
    ensures e.columns[0][0] == Some(health) && e.columns[1][0] == Some(speed)
  {
    e := TwoKinds();
    CreateWith(e, 0, health);
    var r := e.AddComponentToEntityById(speed, 1, 0);
  }

  /** Registering gives the kinds masks 1 and 2 and an empty column each. */
  method RegisteringTwoKinds() returns (healthMask: nat, speedMask: nat, healthColumn: seq<Option<int>>)
    ensures healthMask == 1 && speedMask == 2 && healthColumn == []
  {
    var e := new EntityStore.Entities<int>();
    var health := e.RegisterComponent();
    var speed := e.RegisterComponent();
    healthMask, speedMask := Value(e.bitMasks[health]), Value(e.bitMasks[speed]);
    healthColumn := e.columns[health];
    SmallValues();
  }

  /** Creating an entity gives every column one `None` entry. */
  method CreatingAnEntity() returns (health: seq<Option<int>>, speed: seq<Option<int>>)
    ensures health == [None] && speed == [None]
  {
    var e := TwoKinds();
    e.CreateEntity();
    health, speed := e.columns[0], e.columns[1];
  }

  /** Chained attaches store the values and set both bits (mask 3); a second entity with only
      kind 1 gets mask 2. */
  method ChainedAttaches() returns (firstHealth: Option<int>, firstMask: nat, secondMask: nat)
    ensures firstHealth == Some(100) && firstMask == 3 && secondMask == 2
  {
    var e := FirstEntity(100, 25);
    e.CreateEntity();
    assert e.cursor == 1;
    var r := e.WithComponent(1, 25);
    assert |e.entityMap| == 2 && e.entityMap[0] == {0, 1} && e.entityMap[1] == {1};
    firstHealth := e.columns[0][0];
    firstMask, secondMask := Value(e.entityMap[0]), Value(e.entityMap[1]);
    SmallValues();
  }

  /** Detaching kind 0 from slot 0 leaves mask 2, and detaching it again changes nothing. */
  method DetachingAComponent() returns (mask: nat, maskAfterSecond: nat)
    ensures mask == 2 && maskAfterSecond == 2
  {
    var e := FirstEntity(100, 25);
    var r := e.DeleteComponentByEntityId(0, 0);
    assert e.entityMap[0] == {1};
    mask := Value(e.entityMap[0]);
    r := e.DeleteComponentByEntityId(0, 0);
    assert e.entityMap[0] == {1};
    maskAfterSecond := Value(e.entityMap[0]);
    SmallValues();
  }

  /** Attaching by index sets the bit (mask 3) and stores the value. */
  method AttachingById() returns (mask: nat, speed: Option<int>)
    ensures mask == 3 && speed == Some(25)
  {
    var e := AttachedById(100, 25);
    mask, speed := Value(e.entityMap[0]), e.columns[1][0];
    SmallValues();
  }

  /** One registered kind and two entities holding it (100 and 150), after which slot 0 is
      deleted. */
  method OneKindDeleted() returns (e: EntityStore.Entities<int>)
    ensures fresh(e) && e.Valid() && |e.columns| == 1
    ensures |e.entityMap| == 2 && e.entityMap[0] == {} && e.entityMap[1] == {0}
  {
    e := new EntityStore.Entities<int>();
    var healthKind := e.RegisterComponent();
    CreateWith(e, 0, 100);
    CreateWith(e, 0, 150);
    var r := e.DeleteEntityById(0);
  }

  /** Deleting slot 0 zeroes its mask; the next entity reuses slot 0, which then holds the new
      value under mask 1, and no slot is added. */
  method ReusingADeletedSlot() returns (deletedMask: nat, reusedMask: nat, health: Option<int>, slots: nat)
    ensures deletedMask == 0 && reusedMask == 1 && health == Some(25) && slots == 2
  {
    var e := OneKindDeleted();
    deletedMask := Value(e.entityMap[0]);
    e.CreateEntity();
    assert e.cursor == 0 && |e.entityMap| == 2;
    var r := e.WithComponent(0, 25);
    assert e.entityMap[0] == {0};
    reusedMask, health, slots := Value(e.entityMap[0]), e.columns[0][0], |e.entityMap|;
    SmallValues();
  }

  /** A query over kinds 0 and 1 has mask 3 and lists the kinds in the order they were added. */
  method BuildingAQuery() returns (mask: nat, kinds: seq<nat>)
    ensures mask == 3 && kinds == [0, 1]
  {
    var e := TwoKinds();
    var q := new Query<int>(e);
    var r := q.WithComponent(0);
    r := q.WithComponent(1);
    assert q.mask == {0, 1};
    mask, kinds := Value(q.mask), q.kinds;
    SmallValues();
  }

  /** A strictly ascending sequence holding exactly `a < b` is `[a, b]`. */
  lemma AscendingPair(s: seq<nat>, a: nat, b: nat)
    requires Ascending(s) && a < b
    requires forall x :: x in s <==> x == a || x == b
    ensures s == [a, b]
  {
    assert a in s && b in s;
    assert s[0] in s && s[|s| - 1] in s;
    assert s[1] in s;
    assert s[1] == s[|s| - 1];
  }

  /** The first two entities of the query tests: kinds {0, 1} holding 10 and 20, then kind {0}. */
  method TwoEntities() returns (e: EntityStore.Entities<int>)
    ensures fresh(e) && e.Valid() && |e.columns| == 2
    ensures |e.entityMap| == 2 && e.entityMap[0] == {0, 1} && e.entityMap[1] == {0}
    ensures e.columns[0][0] == Some(10) && e.columns[1][0] == Some(20)
  {
    e := FirstEntity(10, 20);
    CreateWith(e, 0, 5);
  }

  /** The first three entities of the query tests: the third holds only kind 1. */
  method ThreeEntities() returns (e: EntityStore.Entities<int>)
    ensures fresh(e) && e.Valid() && |e.columns| == 2
    ensures |e.entityMap| == 3 && e.entityMap[0] == {0, 1} && e.entityMap[1] == {0} && e.entityMap[2] == {1}
    ensures e.columns[0][0] == Some(10) && e.columns[1][0] == Some(20)
  {
    e := TwoEntities();
    CreateWith(e, 1, 10);
  }

  /** The store of the query tests: four entities holding kinds {0, 1}, {0}, {1} and {0, 1}. */
  method FourEntities() returns (e: EntityStore.Entities<int>)
    ensures fresh(e) && e.Valid() && |e.columns| == 2
    ensures |e.entityMap| == 4
    ensures e.entityMap[0] == {0, 1} && e.entityMap[1] == {0} && e.entityMap[2] == {1} && e.entityMap[3] == {0, 1}
    ensures e.columns[0][0] == Some(10) && e.columns[0][3] == Some(15)
    ensures e.columns[1][0] == Some(20) && e.columns[1][3] == Some(30)
  {
    e := ThreeEntities();
    CreateWithBoth(e, 15, 30);
  }

  /** Querying kinds 0 and 1 over `store` yields the slots holding both, together with their
      values of kind 0 and of kind 1. */
  method QueryBoth(store: EntityStore.Entities<int>) returns (indexes: seq<nat>, result: seq<seq<int>>)
    requires store.Valid() && |store.columns| == 2
    ensures Ascending(indexes)
    ensures forall i :: 0 <= i < |store.entityMap| ==> (i in indexes <==> 0 in store.entityMap[i] && 1 in store.entityMap[i])
    ensures forall j :: 0 <= j < |indexes| ==> indexes[j] < |store.entityMap|
    ensures |result| == 2 && |result[0]| == |indexes| && |result[1]| == |indexes|
    ensures forall j :: 0 <= j < |indexes| ==>
      store.columns[0][indexes[j]] == Some(result[0][j]) && store.columns[1][indexes[j]] == Some(result[1][j])
  {
    var q := new Query<int>(store);
    var r := q.WithComponent(0);
    r := q.WithComponent(1);
    assert q.kinds == [0, 1];
    indexes, result := q.Run();
  }

  /** The query for kinds 0 and 1 over `FourEntities` returns slots 0 and 3 with their values,
      column by column in the order the kinds were added. */
  method RunningAQuery() returns (indexes: seq<nat>, result: seq<seq<int>>)
    ensures indexes == [0, 3]
    ensures result == [[10, 15], [20, 30]]
  {
    var e := FourEntities();
    indexes, result := QueryBoth(e);
    forall x
      ensures x in indexes <==> x == 0 || x == 3
    {
      if x in indexes {
        assert x < 4;
      }
    }
    AscendingPair(indexes, 0, 3);
    assert |result| == 2 && |result[0]| == 2 && |result[1]| == 2;
    assert result[0][0] == 10 && result[0][1] == 15 && result[1][0] == 20 && result[1][1] == 30;
    assert result[0] == [10, 15] && result[1] == [20, 30];
  }

  /** A strictly ascending sequence holding exactly `a` is `[a]`. */
  lemma AscendingSingle(s: seq<nat>, a: nat)
    requires Ascending(s)
    requires forall x :: x in s <==> x == a
    ensures s == [a]
  {
    assert a in s;
    assert s[0] in s && s[|s| - 1] in s;
  }

  /** Two entities holding kinds 0 and 1, after which kind 0 is detached from slot 0. */
  method DetachedStore() returns (e: EntityStore.Entities<int>)
    ensures fresh(e) && e.Valid() && |e.columns| == 2
    ensures |e.entityMap| == 2 && e.entityMap[0] == {1} && e.entityMap[1] == {0, 1}
  {
    e := FirstEntity(10, 10);
    CreateWithBoth(e, 20, 20);
    var r := e.DeleteComponentByEntityId(0, 0);
  }

  /** After detaching kind 0 from slot 0, the query for kinds 0 and 1 finds only slot 1. */
  method QueryAfterDetaching() returns (indexes: seq<nat>)
    ensures indexes == [1]
  {
    var e := DetachedStore();
    var result;
    indexes, result := QueryBoth(e);
    forall x
      ensures x in indexes <==> x == 1
    {
      if x in indexes {
        assert x < 2;
      }
    }
    AscendingSingle(indexes, 1);
  }

  /** Attaching kind 1 by index to an entity holding kind 0 makes the query for both kinds find
      it, with both values. */
  method QueryAfterAttachingById() returns (indexes: seq<nat>, result: seq<seq<int>>)
    ensures indexes == [0]
    ensures result == [[10], [20]]
  {
    var e := AttachedById(10, 20);
    indexes, result := QueryBoth(e);
    forall x
      ensures x in indexes <==> x == 0
    {
      if x in indexes {
        assert x < 1;
      }
    }
    AscendingSingle(indexes, 0);
    assert |result| == 2 && |result[0]| == 1 && |result[1]| == 1;
    assert result[0][0] == 10 && result[1][0] == 20;
    assert result[0] == [10] && result[1] == [20];
  }

  /** Two entities holding kind 0 (values 10 and 20), after which slot 0 is deleted. */
  method DeletedEntityStore() returns (e: EntityStore.Entities<int>)
    ensures fresh(e) && e.Valid() && |e.columns| == 2
    ensures |e.entityMap| == 2 && e.entityMap[0] == {} && e.entityMap[1] == {0}
    ensures e.columns[0][1] == Some(20)
  {
    e := TwoKinds();
    CreateWith(e, 0, 10);
    CreateWith(e, 0, 20);
    var r := e.DeleteEntityById(0);
  }

  /** Querying kind 0 over `store` yields the slots holding it, together with their values. */
  method QueryKindZero(store: EntityStore.Entities<int>) returns (indexes: seq<nat>, values: seq<int>)
    requires store.Valid() && |store.columns| == 2
    ensures Ascending(indexes)
    ensures forall i :: 0 <= i < |store.entityMap| ==> (i in indexes <==> 0 in store.entityMap[i])
    ensures forall j :: 0 <= j < |indexes| ==> indexes[j] < |store.entityMap|
    ensures |values| == |indexes|
    ensures forall j :: 0 <= j < |indexes| ==> store.columns[0][indexes[j]] == Some(values[j])
  {
    var q := new Query<int>(store);
    var r := q.WithComponent(0);
    assert q.kinds == [0];
    var result;
    indexes, result := q.Run();
    values := result[0];
  }

  /** Deleting entity 0 hides it from the query, which then yields only slot 1 with value 20;
      the next entity reuses slot 0, and the query then yields slots 0 and 1, the new value 30
      first. */
  method DeletingAnEntity() returns (firstIndexes: seq<nat>, firstValues: seq<int>, secondIndexes: seq<nat>, secondFirstValue: int)
    ensures firstIndexes == [1] && firstValues == [20]
    ensures secondIndexes == [0, 1] && secondFirstValue == 30
  {
    var e := DeletedEntityStore();
    firstIndexes, firstValues := QueryKindZero(e);
    forall x
      ensures x in firstIndexes <==> x == 1
    {
      if x in firstIndexes {
        assert x < 2;
      }
    }
    AscendingSingle(firstIndexes, 1);
    assert firstValues == [20];
    e.CreateEntity();
    assert e.cursor == 0 && |e.entityMap| == 2;
    var r := e.WithComponent(0, 30);
    assert e.entityMap[0] == {0} && e.entityMap[1] == {0};
    assert e.columns[0][0] == Some(30);
    var secondValues;
    secondIndexes, secondValues := QueryKindZero(e);
    forall x
      ensures x in secondIndexes <==> x == 0 || x == 1
    {
      if x in secondIndexes {
        assert x < 2;
      }
    }
    AscendingPair(secondIndexes, 0, 1);
    secondFirstValue := secondValues[0];
  }

  /** An entity given no component keeps mask 0, which reads as a tombstone: the next creation
      reuses its slot, so two creations without attaches leave a single slot. */
  method CreatingTwiceWithoutAttaching() returns (slots: nat, cursor: nat)
    ensures slots == 1 && cursor == 0
  {
    var e := TwoKinds();
    e.CreateEntity();
    assert e.entityMap == [{}];
    e.CreateEntity();
    slots, cursor := |e.entityMap|, e.cursor;
  }

  /** Creating an entity and attaching both kinds succeeds at each step, leaving mask 3. */
  method CreatingWithTwoComponents() returns (first: Outcome, second: Outcome, mask: nat)
    ensures first == Ok && second == Ok && mask == 3
  {
    var e := TwoKinds();
    e.CreateEntity();
    assert e.entityMap == [{}] && e.cursor == 0;
    first := e.WithComponent(0, 42);
    assert |e.entityMap| == 1 && e.entityMap[0] == {0};
    second := e.WithComponent(1, 10);
    assert e.entityMap[0] == {0, 1};
    mask := Value(e.entityMap[0]);
    SmallValues();
  }

  /** The first two entities of the integration query test: kinds {0, 1} holding 42 and 10,
      then kind {1} holding 11. */
  method LocatedAndSized() returns (e: EntityStore.Entities<int>)
    ensures fresh(e) && e.Valid() && |e.columns| == 2
    ensures |e.entityMap| == 2 && e.entityMap[0] == {0, 1} && e.entityMap[1] == {1}
    ensures e.columns[0][0] == Some(42) && e.columns[1][0] == Some(10)
  {
    e := FirstEntity(42, 10);
    CreateWith(e, 1, 11);
  }

  /** The store of the integration query test: four entities holding kinds {0, 1}, {1}, {0} and
      {0, 1}. */
  method FourLocatedEntities() returns (e: EntityStore.Entities<int>)
    ensures fresh(e) && e.Valid() && |e.columns| == 2
    ensures |e.entityMap| == 4
    ensures e.entityMap[0] == {0, 1} && e.entityMap[1] == {1} && e.entityMap[2] == {0} && e.entityMap[3] == {0, 1}
    ensures e.columns[0][0] == Some(42) && e.columns[0][3] == Some(44)
    ensures e.columns[1][0] == Some(10) && e.columns[1][3] == Some(12)
  {
    e := LocatedAndSized();
    CreateWith(e, 0, 43);
    CreateWithBoth(e, 44, 12);
  }

  /** The query for both kinds over `FourLocatedEntities` returns slots 0 and 3, with kind-0
      values `[42, 44]` and kind-1 values `[10, 12]`. */
  method QueryForEntities() returns (indexes: seq<nat>, result: seq<seq<int>>)
    ensures indexes == [0, 3]
    ensures result == [[42, 44], [10, 12]]
  {
    var e := FourLocatedEntities();
    indexes, result := QueryBoth(e);
    forall x
      ensures x in indexes <==> x == 0 || x == 3
    {
      if x in indexes {
        assert x < 4;
      }
    }
    AscendingPair(indexes, 0, 3);
    assert result[0][0] == 42 && result[0][1] == 44 && result[1][0] == 10 && result[1][1] == 12;
    assert result[0] == [42, 44] && result[1] == [10, 12];
  }

  /** Legacy store: registering a kind gives it an empty column. */
  method LegacyRegistering() returns (health: seq<Option<int>>)
    ensures health == []
  {
    var e := new LegacyStore.Entities<int>();
    var kind := e.RegisterComponent();
    health := e.columns[kind];
  }

  /** Legacy store: creating an entity gives each of the two columns one `None` entry. */
  method LegacyCreating() returns (health: seq<Option<int>>, speed: seq<Option<int>>)
    ensures health == [None] && speed == [None]
  {
    var e := new LegacyStore.Entities<int>();
    var healthKind := e.RegisterComponent();
    var speedKind := e.RegisterComponent();
    e.CreateEntity();
    health, speed := e.columns[healthKind], e.columns[speedKind];
  }

  /** Legacy store: chained attaches write the new entity's entries. */
  method LegacyAttaching() returns (health: Option<int>, speed: Option<int>)
    ensures health == Some(100) && speed == Some(25)
  {
    var e := new LegacyStore.Entities<int>();
    var healthKind := e.RegisterComponent();
    var speedKind := e.RegisterComponent();
    e.CreateEntity();
    var r := e.WithComponent(healthKind, 100);
    r := e.WithComponent(speedKind, 25);
    health, speed := e.columns[healthKind][0], e.columns[speedKind][0];
  }
}
