# Entity/component store and query engine

A model of the entity/component store of a small Rust ECS library, together with its query
engine. The store (`Entites`, `src/entity/mod.rs`) is a columnar table. Each registered
component kind gets a power-of-two presence mask and a column of optional values. Each entity
slot gets a presence mask in `map`, and every column is index-aligned with `map`. A slot whose
mask is 0 is a tombstone, and `create_entity` reuses the lowest one before growing. A query
(`Query`, `src/entity/query.rs`) ORs the masks of the kinds it asks for. `run` then returns the
ascending slots whose mask contains every asked-for bit, and for each asked-for kind, in the
order the kinds were added, the values stored at those slots. The earlier, mask-free store of
`src/entity.rs` is modelled too.

The Dafny files:

- `common.dfy`: `Option`, the three error tags, and `Outcome` (the source's `Result<()>`).
- `masks.dfy`: masks. A `u32` mask is the set of positions of its 1-bits, all below 32. `|` is
  set union, `&` is intersection, `^` is symmetric difference and `2_u32.pow(k)` is `{k}`.
  `Value` maps a mask back to its number.
- `store.dfy`: `EntityStore.Entities`, a class whose fields are the source's `bit_masks`,
  `components`, `map` and `inserting_into_index`. Its `Valid` invariant says that:
  - kind `k` has mask `{k}`;
  - every column is as long as `map`;
  - every set bit has a `Some` behind it in the kind's column.
  Every method keeps `Valid` and states its whole new state.
- `query.dfy`: `EntityQuery.Query`, holding a reference to the store, the query mask and the
  kind list. `run` is proved against `MatchingSlots`, the specification of the `filter_map`.
- `legacy.dfy`: `LegacyStore.Entities`, the variant of `src/entity.rs`.
- `scenarios.dfy`: the source's own unit and integration tests as methods. Their results are
  proved from the contracts of the store and the query alone.

Modelling choices:

- A component kind is its registration index `0, 1, 2, ...`, standing for the source's `TypeId`.
- Stored values have a generic type `V`, standing for `Rc<RefCell<dyn Any>>`.
- The source builds `ComponetNotRegister` and drops it in three places (mod.rs:63,
  query.rs:33, entity.rs:35). There, the model returns `Ok` and changes nothing.
- The source builds `ComponetNotRegister` but never returns it at those places, and it indexes
  slots without checking them (mod.rs:74, 103, 105), so an out-of-range slot panics. The model
  follows the code: a dropped error is `Ok`, and unchecked indexing is a precondition.
- Each precondition states what the code demands:
  - fewer than 32 kinds, because `2_u32.pow` overflows past bit 31;
  - registration only while no slot exists, because a new empty column beside longer ones
    breaks the alignment;
  - a slot index in range where `map` and the columns are indexed unchecked
    (mod.rs:74, 103, 105);
  - in the legacy store, a non-empty column for `with_component`, because `last_mut().unwrap()`
    panics.
- An entity created without any component keeps mask 0, so it reads as a tombstone. The next
  `create_entity` reuses its slot (`Scenarios.CreatingTwiceWithoutAttaching`).

## Model

| member | source | states |
|---|---|---|
| Masks.Bit | src/entity/mod.rs:29 | the mask of the `k`-th kind has exactly the one bit `k`, below 32 |
| Masks.Xor | src/entity/mod.rs:87 | a bit is in `a ^ b` exactly when it is in one of `a`, `b` but not both |
| Masks.XorBit | src/entity/mod.rs:86-87 | toggling bit `k` clears it when set and sets it when clear, so detaching is only a removal behind the `has_component` guard |
| Masks.ValueAddBit | src/entity/mod.rs:29 | setting an absent bit `k` adds 2^k, and the mask of kind `k` is the number 2^k |
| Masks.SmallValues | src/entity/mod.rs:139-153 | the empty mask is 0, `{0}` is 1, `{1}` is 2 and `{0, 1}` is 3, the numbers the tests compare against |
| Masks.ValueInjective | src/entity/query.rs:41 | two 32-bit masks are the same number exactly when they have the same bits, so the set comparisons stand for the `u32` comparisons |
| Masks.ValueZero | src/entity/mod.rs:35 | a mask is the number 0 exactly when no bit is set, which is the tombstone test |
| Masks.MaskOfKinds | src/entity/query.rs:27-47 | the query mask holds exactly the bits of the listed kinds, and `m & mask == mask` holds exactly when `m` holds every listed kind |
| EntityStore.LowestTombstone | src/entity/mod.rs:35 | the result is the lowest slot with mask 0, or none exactly when every mask is non-zero |
| EntityStore.TombstoneReused | src/entity/mod.rs:35-36 | whenever slot `i` is a tombstone, creation picks a tombstone no higher than `i` |
| EntityStore.MasksAreWords | src/entity/mod.rs:21-22 | in a valid store every slot mask fits in a `u32`: all its bits are below 32 |
| EntityStore.BackedAttach | src/entity/mod.rs:57-60 | storing `Some(value)` and setting its bit at the same slot keeps every set bit backed by a value |
| EntityStore.BackedClear | src/entity/mod.rs:86-87 | clearing bits, whether one bit or a whole slot, keeps every set bit backed |
| EntityStore.BackedGrow | src/entity/mod.rs:38-41 | appending `None` to every column and mask 0 to `map` keeps every set bit backed |
| EntityStore.Entities.constructor | src/entity/mod.rs:18-24 | a default store has no kinds, no slots and cursor 0, and is valid |
| EntityStore.Entities.RegisterComponent | src/entity/mod.rs:27-32 | the new kind is the next index `n`, gets mask `2^n` and an empty column, and the slots and cursor are unchanged |
| EntityStore.Entities.CreateEntity | src/entity/mod.rs:34-45 | reuses the lowest tombstone, moving only the cursor; with no tombstone, appends `None` to every column and 0 to `map`, and points the cursor at the new last slot |
| EntityStore.Entities.WithComponent | src/entity/mod.rs:47-67 | for a registered kind at a cursor inside the column: stores `Some(value)` at the cursor and ORs in the kind's bit, nothing else; `ComponentNotFound` with no change when the cursor is outside; `Ok` with no change for an unregistered kind |
| EntityStore.Entities.GetBitmask | src/entity/mod.rs:69-71 | present exactly for registered kinds, and then the kind's one-bit mask |
| EntityStore.Entities.HasComponent | src/entity/mod.rs:73-75 | true exactly when every bit of the mask is set in the slot |
| EntityStore.Entities.DeleteComponentByEntityId | src/entity/mod.rs:77-91 | clears exactly the kind's bit in the slot if set, with the columns unchanged, so a second call has no effect; `ComponetNotRegister` with no change for an unregistered kind |
| EntityStore.Entities.AddComponentToEntityById | src/entity/mod.rs:93-108 | ORs the kind's bit into the slot and stores `Some(value)` there, nothing else; `ComponetNotRegister` with no change for an unregistered kind |
| EntityStore.Entities.DeleteEntityById | src/entity/mod.rs:110-118 | zeroes the slot's mask, with the columns untouched; `EntityDoesNotExist` with no change for an out-of-range slot |
| EntityQuery.MatchingSlots | src/entity/query.rs:39-47 | strictly ascending, in range, and containing exactly the slots whose mask contains every bit of the query mask |
| EntityQuery.TombstonesExcluded | src/entity/query.rs:39-47 | a tombstoned slot is matched exactly when the query mask is empty |
| EntityQuery.Query.constructor | src/entity/query.rs:19-25 | a new query has mask 0 and no kinds |
| EntityQuery.Query.WithComponent | src/entity/query.rs:27-36 | for a registered kind, ORs its bit into the query mask and appends the kind; for an unregistered one returns `Ok` and changes nothing |
| EntityQuery.Query.Run | src/entity/query.rs:38-62 | the indexes are ascending and are exactly the slots holding every asked-for kind; there is one result column per asked-for kind, in order, each as long as the indexes; entry `j` of column `c` is the value stored for kind `c` at slot `indexes[j]`; the store is only read, and no entry read is `None` |
| LegacyStore.Entities.constructor | src/entity.rs:9-12 | a default store has no columns, and its columns are aligned |
| LegacyStore.Entities.RegisterComponent | src/entity.rs:15-17 | appends an empty column; the columns stay aligned exactly when they were aligned and all empty |
| LegacyStore.Entities.CreateEntity | src/entity.rs:19-24 | appends exactly one `None` to every column, which keeps the alignment |
| LegacyStore.Entities.WithComponent | src/entity.rs:26-39 | for a registered kind, overwrites the last entry of its column with `Some(value)`, nothing else; `Ok` with no change for an unregistered kind |
| Scenarios.RegisteringTwoKinds | src/entity/mod.rs:139-153 | two registrations give masks 1 and 2, and the first kind's column is empty |
| Scenarios.CreatingAnEntity | src/entity/mod.rs:155-174 | creating one entity gives both columns exactly one `None` |
| Scenarios.ChainedAttaches | src/entity/mod.rs:199-217 | chained attaches give mask 3 and the stored value 100; a second entity with one kind gets mask 2 |
| Scenarios.DetachingAComponent | src/entity/mod.rs:219-232 | detaching kind 0 from mask 3 leaves 2, and a second detach leaves 2 |
| Scenarios.AttachingById | src/entity/mod.rs:234-252 | attaching by index gives mask 3 and stores the value 25 |
| Scenarios.ReusingADeletedSlot | src/entity/mod.rs:279-299 | a deleted slot has mask 0; the next entity takes that slot and gets mask 1 and the value 25, and no slot is added |
| Scenarios.CreatingTwiceWithoutAttaching | src/entity/mod.rs:34-43 | an entity with no component is taken for a tombstone, so two creations leave one slot |
| Scenarios.BuildingAQuery | src/entity/query.rs:72-86 | asking for two kinds gives mask 3 and the kinds in order |
| Scenarios.RunningAQuery | src/entity/query.rs:89-132 | over the four test entities, the query for both kinds returns slots `[0, 3]` and the columns `[10, 15]` and `[20, 30]` |
| Scenarios.QueryAfterDetaching | tests/entity.rs:77-103 | after detaching a kind from slot 0, the query for both kinds returns only slot 1 |
| Scenarios.QueryAfterAttachingById | tests/entity.rs:106-125 | after attaching by index, the query for both kinds returns slot 0 with both values |
| Scenarios.DeletingAnEntity | tests/entity.rs:128-167 | a deleted slot is not returned; after reuse, the query returns both slots, and the reused slot's new value comes first |
| Scenarios.CreatingWithTwoComponents | tests/entity.rs:10-22 | creating an entity and attaching both kinds succeeds at each step and leaves mask 3 |
| Scenarios.QueryForEntities | tests/entity.rs:25-75 | over entities holding {0, 1}, {1}, {0}, {0, 1}, the query for both kinds returns slots `[0, 3]`, kind-0 values `[42, 44]` and kind-1 values `[10, 12]` |
| Scenarios.LegacyRegistering | src/entity.rs:49-58 | a registered kind starts with an empty column |
| Scenarios.LegacyCreating | src/entity.rs:60-79 | creating one entity gives both columns exactly one `None` |
| Scenarios.LegacyAttaching | src/entity.rs:82-102 | chained attaches store 100 and 25 for the new entity |

## Left out

- Re-registering a kind that is already registered is not modelled, because kinds are
  registration indexes. In the source it would empty the kind's column and give the kind
  the mask `2^n`, `n` the number of distinct kinds so far, the same mask that the next new kind
  then receives.
- Sharing and type erasure are not modelled: `Rc<RefCell<..>>` sharing, `borrow`/`borrow_mut`
  conflicts and `Any` downcasting. Stored values are plain `V`, so the tests' mutation of a
  value through a query result is not modelled.
- The error message strings and the `error` module are not modelled, only the three variant
  tags. `src/entity/error.rs` is not part of this model.
- `f32` payloads are not modelled. The scenarios replace them by nearby integers (20.2 by 20,
  30.2 by 30).
- `HashMap` iteration order is not modelled. The columns are a sequence indexed by kind, and
  `create_entity` visits them in that order, which cannot be observed.
- `src/resources.rs` and `src/lib.rs` (`World`, `Resource`) are not modelled, because they only
  forward to a library map. The integration tests in `tests/entity.rs` are modelled against
  the store and query directly.
- Masks are not modelled as machine words: a mask is a set of bit positions. `Masks.Value` and
  its lemmas give the correspondence with the `u32` numbers (`Masks.ValueInjective`), and
  `EntityStore.MasksAreWords` shows that every mask of a valid store lies inside 32 bits.
- `Query::run` returns copies of the stored values rather than shared handles, so aliasing
  between the result and the store is not modelled.
