# mongoid_orderable, modelled in Dafny

mongoid_orderable gives every record of an orderable class a dense integer
position for each orderable field. The position counts among the siblings
that share a scope. Inserting, moving, changing scope or destroying a record
shifts a range of siblings by one, so that the scope keeps the positions
`base, base + 1, …` with no gap and no duplicate. The repository holds
several generations of this machinery, and this project models all of them:

- the current handlers (`handlers/base.rb`, `document*.rb` and `embedded.rb`);
- the earlier `Engine`;
- the `Mixins::Callbacks` variant;
- the oldest `Callbacks`, `Listable` and `Movable` modules;
- the helpers, list queries, pending-move buffers and scope generators of
  both generations;
- the four option normalisers (`Configs::FieldConfig`, `Configs::ModelConfig`,
  `Configuration` and `Configurable`).

How the model is built:

- **Collection and scopes.** The collection is a `map<Id, Rec>`. A record
  holds its attribute values and an optional position per field; a missing
  entry is nil. A scope is a predicate over attribute values (`Records`).
  `inc(filter, d)` is `Records.Inc`.
- **In-place state.** The handler, engine and hook objects are classes over a
  `Collection` and a `Document` whose fields the methods update in place.
  Each method is proved equal to a specification function (`Positioning`,
  `MixinCallbacks`, `LegacyCallbacks`). The density theorems are proved about
  those functions (`Shifting`, `Placement`).
- **Option hashes.** Ruby's insertion-ordered `Hash` is a sequence of entries
  (`Hashes`). The normalisers are classes whose `options` field the
  constructor steps rebuild, proved against functions on those hashes
  (`Configs`, `LegacyConfigs`).

Calls into code outside the modelled files are inputs:

- `orderable_if` / `orderable_unless` are a Proc, a method name or a value,
  resolved against the record (`Documents.Cond`);
- `orderable_top` is the field's `base`;
- `orderable_bottom(field, in_list)` is `Helpers.Bottom` with the in-list flag
  passed explicitly;
- `orderable_position_was(field)` (`handlers/base.rb:77`) is taken as the
  record's last-saved position, that is its stored copy; no modelled file
  defines it (`generators/position.rb:9-21` defines only the position getter
  and setter), and Mongoid's change tracking is not part of this model;
- `orderable_inherited_class`'s configured keys are `Model.keys`;
- a Proc scope is the criteria it builds and the selector of that criteria;
- `relations` is a map from a relation's name to its foreign key;
- `Mongoid::Orderable.config` is a `Globals` value.

Every exception the modelled code raises is an error value, never a
precondition:

- `InvalidTargetPosition` for a String or Symbol target that is not
  recognised;
- `NoMethodErrorOnNil` for arithmetic or a comparison on nil. `higher` and
  `lower` on a record with no position call `nil.pred` / `nil.next`, and
  `previous_item` / `next_item` compute `nil - 1` / `nil + 1`;
- `UndefinedMethod` for a method the receiver does not define. A Symbol
  target spelled in digits reaches `Symbol#to_i`, and the oldest list
  queries call `self.position` whether or not the class defines `position`;
- `DocumentNotFound` when `find(_id)` misses, and the `ArgumentError` of an
  invalid scope.

When the handler runs inside a
transaction, an exception aborts the transaction's writes: the collection
returns to its state before the transaction, and in-memory assignments stay.

## Model

| member | source | states |
|---|---|---|
| Records.Inc | lib/mongoid/orderable/handlers/base.rb:101-107 | `inc`: every record of the scope that holds the field with a position in the window moves by `d`; every other record is unchanged; no record is added or removed |
| Records.WithPosition | lib/mongoid/orderable/handlers/base.rb:112 | assigning one field's position leaves the attributes and every other field's position as they were |
| Records.Members | lib/mongoid/orderable/mixins/helpers.rb:34 | the scope's members are exactly the records in the scope that hold a non-nil position, mapped to that position |
| Records.DenseIsExactRange | lib/mongoid/orderable/handlers/base.rb:99-112 | a duplicate-free scope whose positions all lie in `[base, base + n)` holds exactly the positions `base .. base + n - 1` |
| Records.MembersOfInc | lib/mongoid/orderable/handlers/base.rb:101-107 | after `inc` the scope's members are the old members with the window's positions bumped |
| Resolver.Clamp | lib/mongoid/orderable/handlers/base.rb:158-162 | anything at or below top becomes top, anything above bottom becomes bottom, anything between is kept; the result lies in `[top, bottom]` |
| Resolver.Resolve | lib/mongoid/orderable/handlers/base.rb:144-165 | fails exactly for an unknown String/Symbol, `higher`/`lower` without a position (`NoMethodError` on nil) or a Symbol spelled in digits (`Symbol#to_i` is undefined); otherwise the result lies in `[top, bottom]`; nil gives bottom; an Integer is clamped |
| Resolver.ResolveKeywords | lib/mongoid/orderable/handlers/base.rb:145-152 | `top`, `bottom`, `higher` and `lower`, as Symbol or String, resolve to top, bottom, position − 1 and position + 1, clamped |
| Resolver.EdgeMovesStay | lib/mongoid/orderable/handlers/base.rb:151-152 | `higher` at top and `lower` at bottom resolve to the record's own position |
| Resolver.DigitStringResolvesToItsValue | lib/mongoid/orderable/handlers/base.rb:153 | the decimal String of `n` resolves exactly as the Integer `n` |
| Resolver.DigitSymbolRaises | lib/mongoid/orderable/handlers/base.rb:153 | the digits of `n` as a Symbol raise the undefined `to_i`, whatever the bounds and position, while the same digits as a String resolve |
| Resolver.NonNumericStringRejected | lib/mongoid/orderable/handlers/base.rb:154 | a String starting with a letter that is not a keyword raises `InvalidTargetPosition` with that target |
| Resolver.ClampIsIdempotent | lib/mongoid/orderable/handlers/base.rb:158-162 | resolving an Integer at or below top equals resolving top, above bottom equals bottom, and resolving a clamped value changes nothing |
| Resolver.LegacyTargetPosition | lib/mongoid/orderable/callbacks.rb:38-51 | the oldest resolver fails exactly for a non-Integer target other than the four keywords, or `higher`/`lower` without a position; otherwise the result lies in `[base, bottom]` |
| Resolver.LegacyRejectsDigitStrings | lib/mongoid/orderable/callbacks.rb:41-46 | a digit String fails in the oldest resolver and resolves to its value in the current one |
| Resolver.LegacyAgreesOnIntegers | lib/mongoid/orderable/callbacks.rb:46-50 | on an Integer target both resolvers give the same position |
| Shifting.ShiftInc | lib/mongoid/orderable/handlers/base.rb:99-108 | the shift rule: not in list, `[target, ∞)` gets +1; target below current, `[target, current)` gets +1; target above current, `(current, target]` gets −1; target equals current, nothing |
| Shifting.Shift | lib/mongoid/orderable/handlers/base.rb:99-108 | records outside the scope or without the field are unchanged; members move exactly as the shift rule says; no other field changes |
| Shifting.CloseGap | lib/mongoid/orderable/handlers/base.rb:121-127 | members strictly above the removed position move down one; every other record and field is unchanged |
| Shifting.MembersOfShift | lib/mongoid/orderable/handlers/base.rb:99-108 | the scope's members after the shift are the shifted members |
| Shifting.MembersOfCloseGap | lib/mongoid/orderable/handlers/base.rb:126 | the scope's members after closing the gap are the old members with the gap closed |
| Shifting.InsertKeepsDense | lib/mongoid/orderable/handlers/base.rb:99-112 | inserting a new member at a target in `[base, base + n]` into a dense scope leaves it dense with one more member |
| Shifting.MoveKeepsDense | lib/mongoid/orderable/handlers/base.rb:102-112 | moving a member to a target in `[base, base + n - 1]` leaves the scope dense with the same members |
| Shifting.RemoveKeepsDense | lib/mongoid/orderable/handlers/base.rb:121-127 | removing a member and closing its gap leaves the scope dense with one member fewer |
| Scopes.Criteria | lib/mongoid/orderable/generators/scope.rb:16-23 | a Symbol scope is equality on that field, an Array equality on every listed field, nil matches all, a Proc is used as given |
| Scopes.ScopeSelector | lib/mongoid/orderable/generators/scope.rb:19-21 | the selector pairs each scope key with the document's value, in order; an Array scope fills a Hash, so each listed key appears once, where it is first listed; nil gives the empty selector |
| Scopes.FirstOccurrencesKeys | lib/mongoid/orderable/generators/scope.rb:20 | the keys of the Hash the Array scope fills are exactly the listed keys, with no key twice |
| Scopes.FirstOccurrencesOfDistinct | lib/mongoid/orderable/generators/scope.rb:20 | an Array scope that lists each key once keeps them as listed |
| Scopes.RepeatedArrayKeySelectedOnce | lib/mongoid/orderable/generators/scope.rb:20 | `[:group_id, :group_id]` gives the one-pair selector `group_id =>` the document's value |
| Scopes.OwnScope | lib/mongoid/orderable/generators/scope.rb:19-21 | a document belongs to its own Symbol, Array or nil scope |
| Scopes.DisjointScopes | lib/mongoid/orderable/generators/scope.rb:19-20 | documents that differ on a scope key have disjoint scopes |
| Scopes.SameKeysSameScope | lib/mongoid/orderable/generators/scope.rb:19-21 | documents that agree on every scope key have the same scope |
| Scopes.EmptyArrayMatchesAll | lib/mongoid/orderable/generators/scope.rb:20 | an empty Array scope matches every document |
| Scopes.LegacyCriteria | lib/mongoid/orderable/generator/scope.rb:7-11 | the older generator: a Symbol is equality on that field, a Proc is used as given, anything else matches all |
| Scopes.LegacyOwnScope | lib/mongoid/orderable/generator/scope.rb:8-10 | under the older generator a document belongs to its own Symbol or catch-all scope |
| Helpers.Bottom | lib/mongoid/orderable/mixins/helpers.rb:31-37 | with no non-nil position in the scope, bottom is base; otherwise it is the highest position (in list) or one above it (not in list) |
| Helpers.BottomOfDense | lib/mongoid/orderable/mixins/helpers.rb:34-36 | for a dense scope of `n` members, bottom is base, `base + n - 1` (in list) or `base + n` (not in list) |
| Helpers.BottomIgnoresNil | lib/mongoid/orderable/mixins/helpers.rb:34-35 | a scope whose records all have a nil position has bottom base, so renumbering starts again at base |
| Helpers.DistinctPositions | lib/mongoid/orderable/helpers.rb:38 | `distinct(column)`: every position value of a scope member, nil included |
| Helpers.LegacyBottom | lib/mongoid/orderable/helpers.rb:35-43 | the older bottom: base for an empty list, otherwise the maximum of the values with nil as 0, plus one when not in the list |
| Helpers.LegacyBottomCountsNilAsZero | lib/mongoid/orderable/helpers.rb:38-41 | one record with a nil position in a zero-based scope: the older bottom is 1, the current one is 0 |
| Helpers.ScopeChanged | lib/mongoid/orderable/mixins/helpers.rb:27-29 | `orderable_scope_changed?`: no record of the scope carries the record's id |
| Helpers.ScopeChangedAfterSave | lib/mongoid/orderable/mixins/helpers.rb:27-29 | once the record is stored, its scope has changed exactly when its stored attributes leave the scope |
| Helpers.FirstDefault | lib/mongoid/orderable/mixins/helpers.rb:12 | `detect`: the first configured field whose config has `:default`, or nil when there is none |
| Helpers.OrderableKeys | lib/mongoid/orderable/mixins/helpers.rb:7-9 | the inherited class's configured keys, or empty when it has none |
| Helpers.DefaultOrderableColumn | lib/mongoid/orderable/mixins/helpers.rb:11-13 | the first field with `:default` if any, otherwise the first orderable key (nil when there is none) |
| Helpers.DefaultFlagWins | lib/mongoid/orderable/mixins/helpers.rb:12 | with two fields, the one flagged `:default` is the default column; with neither flagged, the first |
| Helpers.LegacyDefaultOrderableColumn | lib/mongoid/orderable/helpers.rb:5-7 | the older default column is the first key, nil when there is none |
| Listable.PreviousItems | lib/mongoid/orderable/mixins/listable.rb:13-16 | exactly the scope's members with a smaller position |
| Listable.NextItems | lib/mongoid/orderable/mixins/listable.rb:21-24 | exactly the scope's members with a larger position |
| Listable.PreviousItem | lib/mongoid/orderable/mixins/listable.rb:27-30 | raises `NoMethodError` exactly when the record has no position (`nil - 1`); otherwise nil exactly when no member is at position − 1, else a member at position − 1 |
| Listable.NextItem | lib/mongoid/orderable/mixins/listable.rb:34-37 | raises `NoMethodError` exactly when the record has no position (`nil + 1`); otherwise nil exactly when no member is at position + 1, else a member at position + 1 |
| Listable.NoPreviousItemsIffFirst | lib/mongoid/orderable/mixins/listable.rb:13-41 | in a dense scope a member has no previous items exactly when it is `first?` |
| Listable.NoNextItemsIffLast | lib/mongoid/orderable/mixins/listable.rb:21-45 | in a dense scope a member has no next items exactly when it is `last?` |
| Listable.NeighboursOfDense | lib/mongoid/orderable/mixins/listable.rb:27-37 | in a dense scope a member's neighbour queries do not raise; only the top has no previous item and only the bottom has no next item |
| Listable.LegacyPosition | lib/mongoid/orderable/listable.rb:9 | `self.position` raises the undefined `position` exactly when the class has no `position` accessor; otherwise it is the field that accessor reads |
| Listable.LegacyPreviousItems | lib/mongoid/orderable/listable.rb:8-10 | the older `previous_items` raises exactly when there is no `position` accessor; otherwise exactly the members whose column is below `self.position` |
| Listable.LegacyNextItems | lib/mongoid/orderable/listable.rb:16-18 | the older `next_items`: the same with the column above `self.position` |
| Listable.LegacyPreviousItem | lib/mongoid/orderable/listable.rb:21-28 | the older `previous_item` raises exactly when there is no `position` accessor; nil when `previous_items` is empty; otherwise a member whose `position` field is one less than `self.position` |
| Listable.LegacyNextItem | lib/mongoid/orderable/listable.rb:32-39 | the older `next_item`: the same with one more |
| Listable.LegacyNeighboursIgnoreColumn | lib/mongoid/orderable/listable.rb:9-24 | with the column `pos` and records at 1 and 2: with no `position` accessor `previous_items` raises; with a separate unset `position` field the record at 2 has no older `previous_item`, while the current and corrected queries find the record at 1 |
| Listable.LegacyAgreesWhenPositionIsColumn | lib/mongoid/orderable/listable.rb:21-39 | when `position` reads the configured column (the column is `position`, or it is declared `as: :position`) the older neighbour queries are the corrected ones |
| Listable.LegacyPreviousItemOnColumn | lib/mongoid/orderable/listable.rb:21-28 | on the configured column: nil exactly when there is no position or no member at position − 1 |
| Listable.LegacyNextItemOnColumn | lib/mongoid/orderable/listable.rb:32-39 | on the configured column: nil exactly when there is no position or no member at position + 1 |
| Listable.InList | lib/mongoid/orderable/mixins/listable.rb:7-9 | `in_list?`: persisted and holding a position |
| Listable.IsFirst | lib/mongoid/orderable/mixins/listable.rb:39-41 | `first?`: in the list and at `orderable_top` |
| Listable.IsLast | lib/mongoid/orderable/mixins/listable.rb:43-45 | `last?`: in the list and at `orderable_bottom` |
| Listable.LegacyInList | lib/mongoid/orderable/listable.rb:49-51 | the older `in_list?`: holding a position, persisted or not |
| Listable.LegacyIsFirst | lib/mongoid/orderable/listable.rb:41-43 | the older `first?`: holding a position equal to `orderable_base` |
| Listable.LegacyIsLast | lib/mongoid/orderable/listable.rb:45-47 | the older `last?`: holding a position equal to the older `bottom_orderable_position` (`helpers.rb:35-43`), nil counted as 0 |
| Listable.FirstAndLastNeedList | lib/mongoid/orderable/listable.rb:41-51 | `first?`/`last?` need a position in both versions, and in the current one also persistence; for a persisted record in a scope with no nil position the two `last?` agree |
| Listable.LegacyLastCountsNilAsZero | lib/mongoid/orderable/listable.rb:45-47 | base 1, the only stored record with a nil position, and a persisted record holding 1: the current `last?` holds and the older one does not, because its bottom counts the nil as 0 |
| Documents.PendingTarget | lib/mongoid/orderable/mixins/movable.rb:49-51 | `move_all[field]`: the recorded target, or nil when none was recorded |
| Documents.Document.MoveAll | lib/mongoid/orderable/mixins/movable.rb:49-51 | `@move_all`, or the empty map when nothing was ever recorded |
| Documents.Document.MoveColumnTo | lib/mongoid/orderable/mixins/movable.rb:53-56 | records the target under `options[:column]` or the default column, keeps every other pending target, changes nothing else |
| Documents.Document.MoveTo | lib/mongoid/orderable/mixins/movable.rb:13-16 | `move_to` records the target without saving |
| Documents.Document.MoveToTop | lib/mongoid/orderable/mixins/movable.rb:23-27 | records `:top` for the column |
| Documents.Document.MoveToBottom | lib/mongoid/orderable/mixins/movable.rb:23-27 | records `:bottom` for the column |
| Documents.Document.MoveHigher | lib/mongoid/orderable/mixins/movable.rb:35-39 | records `:higher` for the column |
| Documents.Document.MoveLower | lib/mongoid/orderable/mixins/movable.rb:35-39 | records `:lower` for the column |
| Collections.SetAttrs | lib/mongoid/orderable/handlers/base.rb:111 | the changed scope keys take their new values; every other attribute is kept |
| Collections.SetPosition | lib/mongoid/orderable/handlers/base.rb:111 | the atomic `set` writes the position and the changed scope keys of one stored record, and no other record |
| Collections.Collection.Inc | lib/mongoid/orderable/handlers/base.rb:101 | the collection after `inc` is `Records.Inc` of the old one |
| Collections.Collection.Set | lib/mongoid/orderable/handlers/base.rb:111 | the collection after `set` is `SetPosition` of the old one |
| Collections.Collection.Write | lib/mongoid/orderable/engine.rb:22 | the save stores the record under its id |
| Collections.Collection.Rollback | lib/mongoid/orderable/engine.rb:182-190 | an aborted transaction restores the collection's snapshot |
| Collections.Collection.Find | lib/mongoid/orderable/handlers/base.rb:84 | `find(_id)` returns the stored copy, or `DocumentNotFound` when there is none |
| Collections.Collection.PluckPosition | lib/mongoid/orderable/handlers/base.rb:75 | `pluck(f).first` is the stored position |
| Collections.StoredPosition | lib/mongoid/orderable/handlers/base.rb:75 | the stored position is present exactly when the record is stored with that field |
| Positioning.ResolveCondition | lib/mongoid/orderable/handlers/base.rb:175-184 | `resolve_condition`: a Proc's answer for the record, the truthiness of the value a Symbol names, or a literal's own truthiness |
| Positioning.Allowed | lib/mongoid/orderable/handlers/base.rb:167-173 | `allowed?`: no `if` condition or one that holds, and no `unless` condition or one that fails |
| Positioning.ScopeKeys | lib/mongoid/orderable/handlers/base.rb:195-199 | `scope_keys`: the keys of the scope's selector for this record |
| Positioning.Changed | lib/mongoid/orderable/handlers/base.rb:186-193 | `changed?`: a new record, a nil position or a pending move; otherwise the column or a scope key is dirty |
| Positioning.AnyFieldChanged | lib/mongoid/orderable/handlers/base.rb:40-42 | `any_field_changed?`: some key is `changed?`, or `move_all` holds any entry |
| Positioning.AnyChanged | lib/mongoid/orderable/handlers/embedded.rb:21-24 | the embedded `before_update` gate: some key is `changed?`, with no look at `move_all` as a whole |
| Positioning.Current | lib/mongoid/orderable/handlers/base.rb:70-80 | the current position: nil for a new record or a changed scope, the stored value for a persisted record, the in-memory one otherwise; the embedded handler and the engine branch as their own code does |
| Positioning.ChangedScopeHash | lib/mongoid/orderable/handlers/base.rb:201-205 | exactly the dirty scope keys, each with its current value |
| Positioning.RemoveOne | lib/mongoid/orderable/handlers/base.rb:121-127 | when `allowed?` is false the handler removes nothing; otherwise only records of the record's scope change, and no attribute changes |
| Positioning.LeaveOldScope | lib/mongoid/orderable/handlers/base.rb:82-86 | a persisted top-level record whose scope changed has its stored copy removed from the old scope, or raises `DocumentNotFound`; otherwise nothing happens |
| Positioning.PlaceAt | lib/mongoid/orderable/handlers/base.rb:98-112 | the record ends at the target; only records of the scope and the record itself change in the collection |
| Positioning.ApplyOne | lib/mongoid/orderable/handlers/base.rb:56-113 | as written: with `allowed?` or `changed?` false nothing happens; an exception leaves the record unchanged; only the record's position changes; records outside both scopes are untouched |
| Positioning.TargetError | lib/mongoid/orderable/handlers/base.rb:154 | an invalid target raises the same exception whatever the bounds |
| Positioning.ApplyOneChecked | lib/mongoid/orderable/handlers/base.rb:56-113 | the target is checked before any write: an exception leaves collection and record as they were; a valid target gives exactly `ApplyOne` |
| Positioning.ApplyFields | lib/mongoid/orderable/handlers/base.rb:52-54 | `apply_all_positions` changes only the orderable columns of the record, adds or removes no stored record, and stops at the first exception |
| Positioning.ApplyFieldsStep | lib/mongoid/orderable/handlers/base.rb:52-54 | one more field applies `apply_one_position(field, move_all[field])` to the record and collection the earlier fields left, unless one raised |
| Positioning.ApplyFieldsStopsAtError | lib/mongoid/orderable/handlers/base.rb:52-54 | once a field raises, the later fields change nothing |
| Positioning.RemoveFields | lib/mongoid/orderable/handlers/base.rb:115-119 | `remove_all_positions` changes no attribute and no record outside every field's scope |
| Positioning.RemoveFieldsStep | lib/mongoid/orderable/handlers/base.rb:115-119 | one more field is `remove_one_position` of that field on the result so far |
| Positioning.ClearFields | lib/mongoid/orderable/handlers/document_transactional.rb:21-23 | every orderable column becomes nil; attributes and other fields are kept |
| Placement.LeaveKeepsOtherScope | lib/mongoid/orderable/handlers/base.rb:83-86 | leaving the old scope does not change the members of a separate new scope |
| Placement.CurrentMatchesMembership | lib/mongoid/orderable/handlers/base.rb:72-89 | the record is `in_list` exactly when it is a stored member of its scope, and then `current` is its stored position; where `current` comes from memory (embedded records) this needs the in-memory position to be the stored one |
| Placement.PlaceKeepsDense | lib/mongoid/orderable/handlers/base.rb:99-112 | placing the record at a resolved target keeps its scope dense once saved, with the record as a member |
| Placement.ApplyKeepsScopeDense | lib/mongoid/orderable/handlers/base.rb:56-113 | headline: after a successful `apply_one_position` and the save, the record's scope is dense and the record holds a position; with a target, a top-level record may hold any position in memory, since `current` is read back from the collection |
| Placement.PlaceLeavesOtherScope | lib/mongoid/orderable/handlers/base.rb:99-112 | placing in the new scope leaves a separate scope's members as they were, minus the record |
| Placement.ApplyKeepsOldScopeDense | lib/mongoid/orderable/handlers/base.rb:82-86 | after a scope change, the scope the record left is dense once it is saved |
| Placement.CheckedApplyKeepsScopesDense | lib/mongoid/orderable/handlers/base.rb:56-113 | with the checked order, both scopes are dense after success, and an exception leaves the collection untouched; the same in-memory freedom as above when a target is given |
| Placement.DirectAssignmentLeavesDuplicate | lib/mongoid/orderable/handlers/base.rb:88-94 | records 1, 2, 3 at 1, 2, 3 and record 3 assigned 1 in memory with no target: `in_list` holds and there is no target, so nothing moves, and the save leaves records 1 and 3 both at 1 |
| Placement.AssignedTargetReorders | lib/mongoid/orderable/handlers/base.rb:96-112 | the same record with its assigned 1 as the target moves records 1 and 2 to 2 and 3 and saves record 3 at 1, the order `spec/integration/embedded_spec.rb:196-201` expects |
| Placement.AssignedTargetIsMove | lib/mongoid/orderable/handlers/base.rb:70-112 | for that record `current` is the stored 3, the target resolves to 1, and `apply_one_position` is the move from 3 to 1 |
| Placement.MoveOfThirdToFirst | lib/mongoid/orderable/handlers/base.rb:104-112 | the move from 3 to 1 increments the positions 1 and 2 and saves the record at 1 |
| Placement.AssignedTargetKeepsScopeDense | lib/mongoid/orderable/handlers/base.rb:44-113 | after `set_target_positions` a key whose column holds a position has a target, and `apply_one_position` with that target keeps the scope dense, whatever was assigned in memory |
| Placement.CreateGoesToBottom | lib/mongoid/orderable/handlers/base.rb:96-101 | a new record with no target is placed at the bottom of its scope, `max + 1` |
| Placement.InvalidTargetAfterScopeChangeLeavesDuplicate | lib/mongoid/orderable/handlers/base.rb:83-96 | as written, a scope change with target "four" closes the old gap and raises, leaving two records at position 1; the checked order raises untouched |
| Placement.RemoveOneKeepsOtherColumns | lib/mongoid/orderable/handlers/base.rb:121-127 | removing one field's position leaves every other column's members unchanged |
| Placement.DestroyKeepsDense | lib/mongoid/orderable/handlers/base.rb:121-127 | destroying a member of a dense scope and closing its gap leaves the scope dense |
| Placement.RemoveFieldsKeepsOtherColumns | lib/mongoid/orderable/handlers/base.rb:115-119 | removing all fields leaves the members of non-orderable columns unchanged |
| Placement.ClosedGapDense | lib/mongoid/orderable/handlers/base.rb:126 | dropping a member and closing its gap, in either order, leaves a dense scope dense; a record that was not in the list changes nothing |
| Placement.DestroyKeepsEveryFieldDense | lib/mongoid/orderable/handlers/document.rb:19-21 | `after_destroy` leaves every orderable field's scope dense |
| Handlers.Committed | lib/mongoid/orderable/handlers/document_transactional.rb:17-19 | inside a transaction an exception restores the collection; success or no transaction keeps the outcome |
| Handlers.FilledTargets | lib/mongoid/orderable/handlers/base.rb:44-50 | `move_all[field] \|\|= position`: each key whose column holds a position and has no pending target gets that position (`doc.send(key)` reads the column through an `as:` alias); other entries are kept |
| Handlers.FilledTargetsStep | lib/mongoid/orderable/handlers/base.rb:44-50 | one more key of the loop fills that key's entry only when it is empty and the key's column holds a position |
| Handlers.FilledTargetsUnderAlias | lib/mongoid/orderable/handlers/base.rb:46-48 | a key declared `as: :my_position` over the column `pos` (`spec/support/models.rb:72`) gets the position stored in `pos` as its target |
| Handlers.ShiftSiblings | lib/mongoid/orderable/handlers/base.rb:99-108 | the `inc` calls leave the collection `Shift` of the old one |
| Handlers.CloseGapAt | lib/mongoid/orderable/handlers/base.rb:126 | the `inc` leaves the collection with the record's gap closed |
| Handlers.Handler.constructor | lib/mongoid/orderable/handlers/base.rb:9-12 | the handler keeps the document and takes the `new_record?` snapshot |
| Handlers.Handler.RemoveOnePositionOf | lib/mongoid/orderable/handlers/base.rb:121-127 | the collection becomes `RemoveOne` of another record's copy |
| Handlers.Handler.RemoveOnePosition | lib/mongoid/orderable/handlers/base.rb:121-127 | the collection becomes `RemoveOne` of the record |
| Handlers.Handler.CurrentPosition | lib/mongoid/orderable/handlers/base.rb:72-80 | `current` as the specification defines it |
| Handlers.Handler.LeaveOldScopeOf | lib/mongoid/orderable/handlers/base.rb:82-86 | the collection after leaving the old scope, or the exception with the collection unchanged |
| Handlers.Handler.PlaceRecord | lib/mongoid/orderable/handlers/base.rb:98-112 | collection and record become `PlaceAt`'s; the document's flags are kept |
| Handlers.Handler.ApplyOnePosition | lib/mongoid/orderable/handlers/base.rb:56-113 | collection, record and exception are `ApplyOneChecked`'s |
| Handlers.Handler.ApplyNextPosition | lib/mongoid/orderable/handlers/base.rb:53 | one loop step: the state is `ApplyFields` of the fields so far; after an exception the whole loop's result is already reached |
| Handlers.Handler.ApplyEachPosition | lib/mongoid/orderable/handlers/base.rb:52-54 | the loop over the fields leaves the state `ApplyFields` of the old state |
| Handlers.Handler.ApplyAllPositions | lib/mongoid/orderable/handlers/document_transactional.rb:17-19 | `apply_all_positions`, inside the transaction when the handler uses one |
| Handlers.Handler.RemoveAllPositions | lib/mongoid/orderable/handlers/base.rb:115-119 | the collection becomes `RemoveFields` of the record |
| Handlers.Handler.ClearAllPositions | lib/mongoid/orderable/handlers/document_transactional.rb:21-23 | every orderable column of the record becomes nil; the collection is untouched |
| Handlers.Handler.SetTargetPositions | lib/mongoid/orderable/handlers/base.rb:44-50 | `move_all` becomes `FilledTargets` of itself, read from each key's column; nothing else changes |
| Handlers.Handler.BeforeCreate | lib/mongoid/orderable/handlers/document.rb:8-10 | without transactions all positions are applied; the transactional handler only clears them (`document_transactional.rb:7-9`) |
| Handlers.Handler.AfterCreate | lib/mongoid/orderable/handlers/document_transactional.rb:11-13 | the transactional handler applies all positions in a transaction; the others do nothing |
| Handlers.Handler.BeforeUpdate | lib/mongoid/orderable/handlers/document.rb:14-17 | nothing happens unless some field changed or a move is pending; otherwise all positions are applied |
| Handlers.Handler.AfterDestroy | lib/mongoid/orderable/handlers/document_embedded.rb:7-10 | an embedded document whose root is destroyed changes nothing; otherwise all positions are removed |
| Handlers.Handler.Save | lib/mongoid/orderable/handlers/document.rb:8-21 | without transactions a new record gets `ApplyFields` of the old state and is then stored; an existing one is stored unchanged when no field changed, else after `ApplyFields` (in its transaction when it uses one); an exception leaves the collection as the hooks left it and stores nothing; success leaves the record persisted and clean |
| Handlers.Handler.MoveToBang | lib/mongoid/orderable/mixins/movable.rb:7-10 | `move_to!` records the target, then record, collection and exception are the save's for the state with that target pending |
| Handlers.EmbeddedApplyRaisesBeforeWriting | lib/mongoid/orderable/handlers/embedded.rb:53-64 | the embedded handler resolves before any write, so its as-written order equals the checked one and an exception writes nothing |
| Handlers.Embedded.ApplyOnePosition | lib/mongoid/orderable/handlers/embedded.rb:35-65 | collection, record and exception are the embedded `ApplyOne`'s, which equals the checked order |
| Handlers.Embedded.RemoveOnePosition | lib/mongoid/orderable/handlers/embedded.rb:67-71 | the record's gap is closed, with no `allowed?` check |
| Handlers.Embedded.ApplyNextPosition | lib/mongoid/orderable/handlers/embedded.rb:14 | one step of the loop over the fields |
| Handlers.Embedded.ApplyEachPosition | lib/mongoid/orderable/handlers/embedded.rb:14 | the loop leaves the state `ApplyFields` of the old state |
| Handlers.Embedded.BeforeCreate | lib/mongoid/orderable/handlers/embedded.rb:13-15 | every field is positioned |
| Handlers.Embedded.BeforeUpdate | lib/mongoid/orderable/handlers/embedded.rb:21-24 | nothing happens unless some field reports `changed?`; otherwise every field is positioned |
| Handlers.Embedded.AfterDestroy | lib/mongoid/orderable/handlers/embedded.rb:26-31 | nothing when the root is destroyed; otherwise every field's gap is closed |
| Engines.AnyUsesTransactions | lib/mongoid/orderable/engine.rb:168-170 | true exactly when some field enables transactions |
| Engines.MaxRetries | lib/mongoid/orderable/engine.rb:172-174 | nil exactly when no field sets a retry count; otherwise the largest one set |
| Engines.FlattenedPairs | lib/mongoid/orderable/engine.rb:164 | `sel.to_a.flatten` gives each key followed by its value's text |
| Engines.EngineLockScope | lib/mongoid/orderable/engine.rb:162-166 | the engine's lock key: the collection name, then the selector's keys after a scope change or its flattened pairs otherwise, joined with `\|` |
| Engines.HandlerLockScope | lib/mongoid/orderable/handlers/base.rb:215-219 | the handler's lock key: the collection name, then the field for the generic lock or the selector's flattened pairs otherwise, joined with `\|` |
| Engines.EngineLockScopeParts | lib/mongoid/orderable/engine.rb:162-166 | the lock key splits at `\|` into the collection name and then the selector's keys (scope changed) or its key/value pairs |
| Engines.HandlerLockScopeParts | lib/mongoid/orderable/handlers/base.rb:215-219 | the handler's lock key splits into the collection name and the field (generic) or the selector's key/value pairs |
| Engines.Engine.constructor | lib/mongoid/orderable/engine.rb:10-12 | the engine keeps the document; it uses transactions when some field enables them |
| Engines.Engine.RemoveOnePosition | lib/mongoid/orderable/engine.rb:83-88 | the record's gap is closed |
| Engines.Engine.RemovePositions | lib/mongoid/orderable/engine.rb:28-32 | every field's gap is closed |
| Engines.Engine.CurrentPosition | lib/mongoid/orderable/engine.rb:50-56 | nil when unpersisted or the scope changed, else the stored position (top level) or the in-memory one |
| Engines.Engine.LeaveOldScopeOf | lib/mongoid/orderable/engine.rb:58-62 | the stored copy leaves its old scope, or `DocumentNotFound` with nothing written |
| Engines.Engine.PlaceRecord | lib/mongoid/orderable/engine.rb:68-80 | siblings shift, the atomic set when in a transaction, and the record ends at the target |
| Engines.Engine.ApplyOnePosition | lib/mongoid/orderable/engine.rb:34-81 | collection, record and exception are the engine's `ApplyOneChecked` |
| Engines.Engine.ApplyNextPosition | lib/mongoid/orderable/engine.rb:21 | one step of the loop over the fields |
| Engines.Engine.ApplyEachPosition | lib/mongoid/orderable/engine.rb:21 | the loop leaves the state `ApplyFields` of the old state |
| Engines.Engine.Persist | lib/mongoid/orderable/engine.rb:22-25 | the save block stores the record and leaves it persisted and clean |
| Engines.Engine.UpdatePositions | lib/mongoid/orderable/engine.rb:16-26 | with no changed field only the save runs; otherwise every field is applied inside a transaction, and a new record is saved inside it, an existing one after it |
| MixinCallbacks.MixinLeave | lib/mongoid/orderable/mixins/callbacks.rb:58-61 | the stored copy of a persisted top-level record whose scope changed leaves its old scope |
| MixinCallbacks.MixinPlace | lib/mongoid/orderable/mixins/callbacks.rb:63-72 | siblings shift and the record ends at the target; once saved, this is the embedded handler's placement |
| MixinCallbacks.MixinApplyWith | lib/mongoid/orderable/mixins/callbacks.rb:40-76 | an invalid target raises before any write; the only other exception is `DocumentNotFound`; on success the flag is `persisted? && scope_changed` |
| MixinCallbacks.MixinFields | lib/mongoid/orderable/mixins/callbacks.rb:22-24 | every field in order changes only the record's orderable columns |
| MixinCallbacks.MixinFieldsStep | lib/mongoid/orderable/mixins/callbacks.rb:22-24 | one more field of the map, with the flags or-ed |
| MixinCallbacks.MixinFieldsStopsAtError | lib/mongoid/orderable/mixins/callbacks.rb:22-24 | once a field raises, the later fields change nothing |
| MixinCallbacks.MixinVersionsAgreeWithoutScopeChange | lib/mongoid/orderable/mixins/callbacks.rb:42-56 | without a scope change the as-written and corrected bottoms give the same result |
| MixinCallbacks.MixinMoveLandsAtBottom | lib/mongoid/orderable/mixins/callbacks.rb:42-72 | a persisted record moved to another scope with no target lands at the bottom it was given and reports the change |
| MixinCallbacks.MixinCorrectedMovesToBottom | lib/mongoid/orderable/mixins/callbacks.rb:42-72 | corrected, that record lands at `base + n`, below all `n` members |
| MixinCallbacks.MixinAsWrittenStopsShortOfBottom | lib/mongoid/orderable/mixins/callbacks.rb:42-72 | as written, a record with an in-memory position lands at `base + n - 1`, above the scope's last member |
| MixinCallbacks.MixinCurrentMatchesMembership | lib/mongoid/orderable/mixins/callbacks.rb:46-55 | `in_list` exactly when the record is a stored member of its scope, with `current` its position |
| MixinCallbacks.MixinKeepsScopeDense | lib/mongoid/orderable/mixins/callbacks.rb:40-76 | the new scope is dense after a successful save whenever the bottom counts the record as in the list exactly when the shift does; with a target a top-level record may hold any position in memory |
| MixinCallbacks.MixinMoveKeepsScopeDense | lib/mongoid/orderable/mixins/callbacks.rb:58-74 | when the record is not in the list or has a target, the shift and the `set` to the resolved target keep the new scope dense once saved |
| MixinCallbacks.MixinApplyOnScopeChange | lib/mongoid/orderable/mixins/callbacks.rb:42-72 | a persisted record whose scope changed leaves its old scope and is placed at the resolved target as a newcomer |
| MixinCallbacks.MixinKeepsOldScopeDense | lib/mongoid/orderable/mixins/callbacks.rb:58-61 | the scope the record left stays dense |
| MixinCallbacks.MixinScopeMoveCounterexample | lib/mongoid/orderable/mixins/callbacks.rb:42 | as written, record 3 moved into group 1 (positions 1, 2) lands at 2 |
| MixinCallbacks.MixinScopeMoveCorrected | lib/mongoid/orderable/mixins/callbacks.rb:42 | corrected, record 3 lands at 3 |
| MixinCallbacks.Hooks.CurrentPosition | lib/mongoid/orderable/mixins/callbacks.rb:46-52 | `current` as `MixinCurrent` defines it |
| MixinCallbacks.Hooks.LeaveOldScopeOf | lib/mongoid/orderable/mixins/callbacks.rb:58-61 | the collection after `MixinLeave`, or the exception with nothing written |
| MixinCallbacks.Hooks.PlaceRecord | lib/mongoid/orderable/mixins/callbacks.rb:63-72 | collection and record become `MixinPlace`'s |
| MixinCallbacks.Hooks.ApplyOnePosition | lib/mongoid/orderable/mixins/callbacks.rb:40-76 | collection, record, exception and flag are the corrected `orderable_apply_one_position`'s |
| MixinCallbacks.Hooks.ApplyNextPosition | lib/mongoid/orderable/mixins/callbacks.rb:23 | one step of the map over the fields |
| MixinCallbacks.Hooks.ApplyEachPosition | lib/mongoid/orderable/mixins/callbacks.rb:22-24 | the map leaves the state and flag of `MixinFields` |
| MixinCallbacks.Hooks.Persist | lib/mongoid/orderable/mixins/callbacks.rb:25-27 | the save stores the record and leaves it persisted and clean |
| MixinCallbacks.Hooks.ApplyPositions | lib/mongoid/orderable/mixins/callbacks.rb:19-28 | every field applied in a transaction; the save runs inside it exactly when some field reported a scope change; an exception rolls back and skips the save |
| MixinCallbacks.Hooks.RemoveOnePosition | lib/mongoid/orderable/mixins/callbacks.rb:78-82 | the record's gap is closed |
| MixinCallbacks.Hooks.RemovePositions | lib/mongoid/orderable/mixins/callbacks.rb:30-34 | every field's gap is closed |
| LegacyCallbacks.LegacyLeave | lib/mongoid/orderable/callbacks.rb:19-22 | after a scope change the stored copy leaves its old list and the in-memory position is cleared; `DocumentNotFound` when there is no stored copy |
| LegacyCallbacks.LegacyApply | lib/mongoid/orderable/callbacks.rb:18-36 | `apply_position`: adds or removes no record; raises only `DocumentNotFound` (nothing written) or `NoMethodError` |
| LegacyCallbacks.LegacyStaysWithoutTarget | lib/mongoid/orderable/callbacks.rb:24 | a record in the list with no target and no scope change is left alone |
| LegacyCallbacks.LegacyScope | lib/mongoid/orderable/helpers.rb:11-19 | `orderable_scoped`: the records the class's scope generator selects for this record |
| LegacyCallbacks.LegacyLeaves | lib/mongoid/orderable/callbacks.rb:19-22 | `apply_position` takes the stored copy out of its old list exactly when the record is persisted, top-level and its scope changed |
| LegacyCallbacks.LegacyScopeChangeInsertsAsNew | lib/mongoid/orderable/callbacks.rb:19-29 | after a scope change the record is inserted into the new list as a new one |
| Helpers.LegacyBottomWithoutNil | lib/mongoid/orderable/helpers.rb:38-41 | with no nil position in the scope the two bottoms agree |
| LegacyCallbacks.LegacyLeavingKeepsScopeDense | lib/mongoid/orderable/callbacks.rb:19-35 | a record changing scope leaves the new list dense once saved |
| LegacyCallbacks.LegacyInsertionIntoNewScopeDense | lib/mongoid/orderable/callbacks.rb:19-35 | inserting the record into its new list at a position the oldest resolver accepts keeps that list dense |
| LegacyCallbacks.LegacyStayingKeepsScopeDense | lib/mongoid/orderable/callbacks.rb:24-35 | a record staying in its scope leaves the list dense once saved |
| LegacyCallbacks.LegacyKeepsScopeDense | lib/mongoid/orderable/callbacks.rb:18-36 | after a successful `apply_position` and the save, the record's list is dense and the record holds a position |
| LegacyCallbacks.LegacyKeepsOldScopeDense | lib/mongoid/orderable/callbacks.rb:19-22 | the list the record left stays dense |
| LegacyCallbacks.LegacyDocument.MoveTo | lib/mongoid/orderable/movable.rb:11-13 | `move_to` only sets the single `@move_to` slot, overwriting it |
| LegacyCallbacks.LegacyDocument.MoveToTop | lib/mongoid/orderable/movable.rb:21-24 | sets `:top` |
| LegacyCallbacks.LegacyDocument.MoveToBottom | lib/mongoid/orderable/movable.rb:21-24 | sets `:bottom` |
| LegacyCallbacks.LegacyDocument.MoveHigher | lib/mongoid/orderable/movable.rb:31-34 | sets `:higher` |
| LegacyCallbacks.LegacyDocument.MoveLower | lib/mongoid/orderable/movable.rb:31-34 | sets `:lower` |
| LegacyCallbacks.LegacyDocument.RemoveFromList | lib/mongoid/orderable/callbacks.rb:14-16 | the members above the record move down one |
| LegacyCallbacks.LegacyDocument.LeaveOldList | lib/mongoid/orderable/callbacks.rb:19-22 | collection and position become `LegacyLeave`'s |
| LegacyCallbacks.LegacyDocument.ApplyPosition | lib/mongoid/orderable/callbacks.rb:18-36 | collection, record and exception become `LegacyApply`'s |
| LegacyCallbacks.LegacyDocument.AddToList | lib/mongoid/orderable/callbacks.rb:10-12 | `apply_position @move_to` |
| LegacyCallbacks.LegacyDocument.Save | lib/mongoid/orderable/callbacks.rb:56-58 | `before_save :add_to_list`, then the record is stored unless it raised |
| LegacyCallbacks.LegacyDocument.MoveToAndSave | lib/mongoid/orderable/movable.rb:5-8 | `move_to!` sets the slot and saves |
| Hashes.Get | lib/mongoid/orderable/configs/field_config.rb:55 | `h[k]` is nil exactly when `k` is not a key |
| Hashes.Put | lib/mongoid/orderable/configs/field_config.rb:76 | `h[k] = v`: `k` maps to `v`, every other key keeps its value, and keys stay distinct |
| Hashes.Delete | lib/mongoid/orderable/configs/field_config.rb:56 | `delete` returns the value held and leaves the other keys as they were |
| Hashes.MergeInto | lib/mongoid/orderable/configs/field_config.rb:49 | `merge`: a key of the second hash takes its value there, any other key keeps the first hash's |
| Hashes.Slice | lib/mongoid/orderable/configs/field_config.rb:49 | `slice`: exactly the listed keys the hash holds, with their values |
| Hashes.TransformKeys | lib/mongoid/orderable/configs/field_config.rb:49 | `transform_keys`: each pair stored under its new key, a later pair winning |
| Hashes.ToSym | lib/mongoid/orderable/configs/field_config.rb:70 | `to_sym`: the Symbol of the key's text |
| Hashes.SymbolizeKeys | lib/mongoid/orderable/configs/field_config.rb:49 | `symbolize_keys`: every key a Symbol of its text, a later pair winning |
| Configs.ToS | lib/mongoid/orderable/configs/field_config.rb:72 | the interpolated scope: an Array's text starts with `[`, a Symbol's is its name |
| Wrappers.Lookup | lib/mongoid/orderable/configs/field_config.rb:67 | `relations[name]` and every other Hash read: the value when the key is present, nil otherwise |
| Configs.MoveKeys | lib/mongoid/orderable/configs/model_config.rb:48-53 | each listed key the hash holds moves into the nested hash; listed keys are gone; other keys are kept |
| Configs.MoveEach | lib/mongoid/orderable/configs/field_config.rb:54-57 | the `each` loop gives `MoveKeys` |
| Configs.FieldGlobals | lib/mongoid/orderable/configs/field_config.rb:33-42 | the global defaults: `:as` is the global alias, no `:scope`, only valid keys |
| Configs.AliasKey | lib/mongoid/orderable/configs/field_config.rb:19 | `ALIASES[k] \|\| k`: `:column` becomes `:field`, every other key is kept |
| Configs.FieldCallerOptions | lib/mongoid/orderable/configs/field_config.rb:49 | the caller's options, symbolized and aliased, never hold `:column` |
| Configs.FieldAssigned | lib/mongoid/orderable/configs/field_config.rb:46-50 | without a Hash only the defaults; otherwise a valid key takes the caller's value if given, else the default, and any invalid key is dropped |
| Configs.FieldWithFieldOptions | lib/mongoid/orderable/configs/field_config.rb:52-58 | `:field_options` holds exactly `{as: v}` when `:as` was present, `{}` otherwise; `:as` is gone; other keys are kept |
| Configs.ScopeElement | lib/mongoid/orderable/configs/field_config.rb:65-70 | an element becomes a Symbol: a String's own text, a Symbol's relation key when the looked-up name is a relation, else itself |
| Configs.ScopeElements | lib/mongoid/orderable/configs/field_config.rb:63-74 | succeeds exactly when every element is a Symbol or String, then element by element; otherwise `ArgumentError` naming the scope |
| Configs.ArrayOf | lib/mongoid/orderable/configs/field_config.rb:63 | `Array(v)`: an Array as it is, anything else wrapped |
| Configs.FieldScopedWith | lib/mongoid/orderable/configs/field_config.rb:60-77 | a Proc, nil or other scope is left as is; a Symbol, String or Array becomes the Array of normalised elements, or `ArgumentError`; other keys are kept |
| Configs.FieldScopedAsWritten | lib/mongoid/orderable/configs/field_config.rb:60-77 | `set_orderable_scope` as written: `FieldScopedWith` with the lookup under the whole option's text |
| Configs.FieldScoped | lib/mongoid/orderable/configs/field_config.rb:60-77 | `set_orderable_scope` corrected: `FieldScopedWith` with the lookup under each element's own name |
| Configs.FieldConfigOptions | lib/mongoid/orderable/configs/field_config.rb:26-31 | the options built by `initialize` are a well-formed hash |
| Configs.FieldConfigCallerWins | lib/mongoid/orderable/configs/field_config.rb:46-50 | a valid option other than `:scope` and `:as` given by the caller keeps the caller's value |
| Configs.FieldConfigKeepsDefaults | lib/mongoid/orderable/configs/field_config.rb:47-49 | an option the caller does not give keeps the global default |
| Configs.FieldConfigDropsUnknown | lib/mongoid/orderable/configs/field_config.rb:21 | a key outside `VALID_OPTIONS` and not added by the normaliser is absent |
| Configs.FieldConfigFieldOptions | lib/mongoid/orderable/configs/field_config.rb:52-58 | `:field_options` is `{as: v}`, with `v` the caller's `:as` or the global one |
| Configs.ColumnIsField | lib/mongoid/orderable/configs/field_config.rb:19 | the caller's `:column` becomes the `:field` option |
| Configs.FieldScopedMeaning | lib/mongoid/orderable/configs/field_config.rb:60-77 | with the corrected lookup: unchanged for other scopes; success exactly when every element is a Symbol or String; each element normalised under its own name |
| Configs.FieldConfigScope | lib/mongoid/orderable/configs/field_config.rb:60-76 | the same for the whole `initialize`, in terms of the caller's `:scope` |
| Configs.ArrayScopeIgnoresRelations | lib/mongoid/orderable/configs/field_config.rb:67 | as written, every Symbol element of an Array scope is kept as it is |
| Configs.FieldScopeVersionsAgreeOnSymbol | lib/mongoid/orderable/configs/field_config.rb:63-68 | for a non-Array scope, looking up the whole option or the one element is the same |
| Configs.ArrayScopeCounterexample | lib/mongoid/orderable/configs/field_config.rb:67 | as written, `scope: [:group]` with relation `group` stays `[:group]` |
| Configs.ArrayScopeCorrected | lib/mongoid/orderable/configs/field_config.rb:67 | corrected, it becomes `[:group_id]` |
| Configs.MapScope | lib/mongoid/orderable/configs/field_config.rb:64-74 | the `map!` loop gives `ScopeElements` |
| Configs.ScopeElementsStopsAt | lib/mongoid/orderable/configs/field_config.rb:71-72 | an element that is neither Symbol nor String raises `ArgumentError("Orderable :scope invalid: …")` |
| Configs.FieldConfig.Initialize | lib/mongoid/orderable/configs/field_config.rb:26-31 | `options` becomes `FieldConfigOptions`, or the exception is returned |
| Configs.FieldConfig.AssignOptions | lib/mongoid/orderable/configs/field_config.rb:46-50 | `options` becomes `FieldAssigned` |
| Configs.FieldConfig.SetFieldOptions | lib/mongoid/orderable/configs/field_config.rb:52-58 | `options` becomes `FieldWithFieldOptions` of itself |
| Configs.FieldConfig.SetOrderableScope | lib/mongoid/orderable/configs/field_config.rb:60-77 | `options` becomes the corrected normalised scope, or the exception is returned |
| LegacyConfigs.SuffixAppendedMatches | lib/mongoid/orderable/configs/model_config.rb:61 | a name with `_id` appended matches `/_id$/` |
| LegacyConfigs.SuffixedName | lib/mongoid/orderable/configs/model_config.rb:56-62 | the relation's key when the relation exists, otherwise the name with `_id` |
| LegacyConfigs.SuffixedScope | lib/mongoid/orderable/configs/model_config.rb:55-66 | `set_orderable_scope` changes no key but `:scope` |
| LegacyConfigs.SuffixedScopeMeaning | lib/mongoid/orderable/configs/model_config.rb:55-66 | Symbol matching `/_id$/` kept, else relation key or `_id` appended; String to Symbol; others kept; a Symbol result matches the suffix or is a relation key |
| LegacyConfigs.SuffixedScopeIdempotent | lib/mongoid/orderable/configs/model_config.rb:56 | when every relation key ends in `_id`, a second pass changes nothing for a non-String scope |
| LegacyConfigs.MultiLineScopeKept | lib/mongoid/orderable/configs/model_config.rb:56 | `$` matches before a newline, so `:"group_id\ntail"` is kept |
| LegacyConfigs.FieldOptsNotValid | lib/mongoid/orderable/configs/model_config.rb:7-17 | the caller cannot set `:field_opts`; `:as` is a valid option |
| LegacyConfigs.ModelGlobals | lib/mongoid/orderable/configs/model_config.rb:29-38 | the global defaults, with a copy of `field_opts`, no `:as`, and the global scope |
| LegacyConfigs.ConfigurationDefaults | lib/mongoid/orderable/configuration.rb:18-24 | `column :position`, `scope nil`, `base 1`, `field_opts {type: Integer}`, no `:as` |
| LegacyConfigs.MergedValid | lib/mongoid/orderable/configs/model_config.rb:42-46 | without a Hash the defaults; otherwise a valid symbolized caller key wins, every other key is the default's |
| LegacyConfigs.LegacyOptions | lib/mongoid/orderable/configs/model_config.rb:22-27 | `initialize`'s three steps give a well-formed hash |
| LegacyConfigs.ModelConfigOptions | lib/mongoid/orderable/configs/model_config.rb:22-27 | `ModelConfig`'s options are a well-formed hash |
| LegacyConfigs.ConfigurationOptions | lib/mongoid/orderable/configuration.rb:11-16 | `Configuration`'s options are a well-formed hash |
| LegacyConfigs.LegacyOptionsMerge | lib/mongoid/orderable/configs/model_config.rb:42-46 | any key other than `:scope`, `:as` and `:field_opts` is the valid caller value if given, else the default |
| LegacyConfigs.LegacyOptionsFieldOpts | lib/mongoid/orderable/configs/model_config.rb:48-53 | `:as` is no longer a top-level key; `field_opts` holds the caller's `:as` when given and keeps its defaults otherwise |
| LegacyConfigs.LegacyOptionsScope | lib/mongoid/orderable/configs/model_config.rb:55-66 | the scope is the caller's (or the default) under the suffix rule |
| LegacyConfigs.ModelConfig.Initialize | lib/mongoid/orderable/configs/model_config.rb:22-27 | `options` becomes `ModelConfigOptions` |
| LegacyConfigs.ModelConfig.SetFieldOptions | lib/mongoid/orderable/configs/model_config.rb:48-53 | `options` becomes `MoveKeys` of itself into `field_opts` |
| LegacyConfigs.ModelConfig.SetOrderableScope | lib/mongoid/orderable/configs/model_config.rb:55-66 | `options` becomes `SuffixedScope` of itself |
| LegacyConfigs.Configuration.Initialize | lib/mongoid/orderable/configuration.rb:11-16 | `options` becomes `ConfigurationOptions` |
| LegacyConfigs.Configuration.SetFieldOptions | lib/mongoid/orderable/configuration.rb:38-43 | `options` becomes `MoveKeys` of itself into `field_opts` |
| LegacyConfigs.Configuration.SetOrderableScope | lib/mongoid/orderable/configuration.rb:45-56 | `options` becomes `SuffixedScope` of itself |
| LegacyConfigs.Build | lib/mongoid/orderable/configuration.rb:26-28 | `Configuration.build` returns `ConfigurationOptions` |
| LegacyConfigs.ConfigurableDefaults | lib/mongoid/orderable/configurable.rb:7-12 | the mixin's defaults hold `scope nil` |
| LegacyConfigs.ConfigurableSetup | lib/mongoid/orderable/configurable.rb:14-19 | the merged and scope-normalised configuration is a well-formed hash |
| LegacyConfigs.ConfigurableMerge | lib/mongoid/orderable/configurable.rb:17 | `merge!` keeps any caller key unfiltered and unsymbolized; every other key is the default |
| LegacyConfigs.DefinedScope | lib/mongoid/orderable/configurable.rb:39-49 | a Symbol scope gives a Symbol criteria and a Proc a Proc criteria; anything else gives neither |
| LegacyConfigs.ConfigurableCriteria | lib/mongoid/orderable/configurable.rb:39-49 | the generated criteria: equality on the suffixed field for a Symbol, on the String's field for a String, the Proc as given, all otherwise |
| LegacyConfigs.Configurable.SetupOrderableClass | lib/mongoid/orderable/configurable.rb:14-24 | `configuration` becomes `ConfigurableSetup` |
| LegacyConfigs.Configurable.ConfigureOrderableScope | lib/mongoid/orderable/configurable.rb:26-37 | `configuration` becomes `SuffixedScope` of itself |

## Left out

- Transactions: the retry loop, the `sleep`, the thread-local "in transaction" flag and `TransactionFailed` (`engine.rb:176-203`, `handlers/transaction.rb`, `mixins/callbacks.rb:115-139`). These are database sessions and concurrency. A transaction is modelled only as "writes kept, or all restored after an exception". The retry loop makes at most `max_retries + 1` attempts.
- `set_lock` and its advisory-lock upserts (`handlers/base.rb:207-213`, `engine.rb:154-160`): database I/O. Only the `lock_scope` key string is modelled.
- Concurrent saves and the races between them: the model is sequential.
- The debug `puts` in `handlers/base.rb:90-106`: output only.
- `define_method` / `class_eval` generators, `generate_orderable_class_helpers`, `installer.rb` and `orderable_class.rb`: they only wire the modelled pieces onto the host class.
- Host callbacks and dirty tracking: which Mongoid callback calls which hook, `reset` / `clear_move_all!`, `changed?` per attribute, and the `as:` field alias in `scope_keys`. A document's dirty keys are an input set.
- The `insert_at` aliases: they are the same methods under a second name.
- Proc scopes are opaque criteria over attribute values, so a Proc that reads positions is outside the model. Parent and association lookup for embedded scopes is not part of this model.
- Within one `apply_all_positions` over several fields, density is proved per field (`Placement.ApplyKeepsScopeDense` per call). Two fields scoped on the same key inside one transaction are not analysed together.
- Positioning.ApplyFieldsStep: each step uses `ApplyOneChecked`, the corrected order of the first finding, so `ApplyFields` raises before any write; the order as written is `Positioning.ApplyOne`.
- Handlers.Handler.ApplyOnePosition: runs the corrected order (`ApplyOneChecked`), not `handlers/base.rb:82-96` as written (`Positioning.ApplyOne`).
- Handlers.Handler.ApplyNextPosition: a step of the corrected order; the as-written order is `Positioning.ApplyOne`.
- Handlers.Handler.ApplyEachPosition: the loop of the corrected order; the as-written order is `Positioning.ApplyOne`.
- Handlers.Handler.ApplyAllPositions: the corrected order, inside the transaction when used; the as-written order is `Positioning.ApplyOne`.
- Handlers.Handler.BeforeCreate: applies the corrected order; the as-written order is `Positioning.ApplyOne`.
- Handlers.Handler.AfterCreate: applies the corrected order; the as-written order is `Positioning.ApplyOne`.
- Handlers.Handler.BeforeUpdate: applies the corrected order; the as-written order is `Positioning.ApplyOne`.
- Engines.Engine.ApplyOnePosition: runs the corrected order; `engine.rb:58-69` leaves the old scope before resolving, which is `Positioning.ApplyOne` with the engine flavour.
- Engines.Engine.ApplyNextPosition: a step of the corrected order; the as-written order is `Positioning.ApplyOne`.
- Engines.Engine.ApplyEachPosition: the loop of the corrected order; the as-written order is `Positioning.ApplyOne`.
- Engines.Engine.UpdatePositions: applies the corrected order; the as-written order is `Positioning.ApplyOne`.
- MixinCallbacks.MixinFields: every field uses the corrected bottom (`MixinApplyOneCorrected`); the bottom as written is `MixinCallbacks.MixinApplyOne`.
- MixinCallbacks.MixinFieldsStep: a step with the corrected bottom; as written is `MixinCallbacks.MixinApplyOne`.
- MixinCallbacks.Hooks.ApplyOnePosition: runs the corrected bottom; `mixins/callbacks.rb:42` as written is `MixinCallbacks.MixinApplyOne`.
- MixinCallbacks.Hooks.ApplyNextPosition: a step with the corrected bottom; as written is `MixinCallbacks.MixinApplyOne`.
- MixinCallbacks.Hooks.ApplyEachPosition: the map with the corrected bottom; as written is `MixinCallbacks.MixinApplyOne`.
- MixinCallbacks.Hooks.ApplyPositions: the corrected bottom inside the transaction; as written is `MixinCallbacks.MixinApplyOne`.
- Configs.FieldConfigOptions: uses the corrected per-element relation lookup (`FieldScoped`); the lookup as written, under the whole option's text, is `Configs.FieldScopedAsWritten`.
- Configs.FieldConfigScope: states the corrected lookup; as written is `Configs.FieldScopedAsWritten`.
- Configs.FieldConfig.Initialize: builds the corrected lookup; as written is `Configs.FieldScopedAsWritten`.
- Handlers.Handler.Save: a minimal host save, needed only for `move_to!`. For a new record of the transactional handler the contract states only what a successful save leaves, not the collection after `after_create`.
- Handlers.Handler.MoveToBang: inherits that gap: for a new record of the transactional handler it states only that the target is recorded and that a success leaves the record persisted.
- Resolver.Resolve: targets are Integers, Strings and Symbols. A Float, or any other `Numeric` that `is_a?(Numeric)` lets through unchanged (`handlers/base.rb:147`), is not modelled, so fractional and non-Integer positions are outside the model. The same holds for Resolver.LegacyTargetPosition.
- The save block of `Engine#update_positions` is taken to succeed; a failing host save is outside the model.
- `mixins/callbacks.rb` calls `orderable_bottom(column)`, which is not part of this model. It is taken as `bottom_orderable_position` with `in_list?(column)` as its in-list flag.
- `in_list?` checks of the oldest modules are taken at the record's own column. The oldest `MoveTo…!` shorthands call the same code as `MoveToAndSave`, so only that one is modelled.
- The oldest destroy hook is `remove_from_list` (`LegacyDocument.RemoveFromList`); removing the record itself from the collection is the host's.
- `Mongoid::Orderable.config` and `configs/global_config.rb` are not part of this model. The global defaults are an input value (`Configs.Globals`).
- Configs.ToS: Ruby's `inspect` is modelled for Symbols, Strings, Integers, nil, booleans and flat Arrays. Nested collections and escaping inside quotes are simplified.
- Configs.FieldConfig.SetOrderableScope: normalises with the corrected lookup; as written is `Configs.FieldScopedAsWritten`.
- Configs.FieldConfig.SetOrderableScope: `Array(@options[:scope])` returns the caller's own Array, and `map!` changes it in place. When an element raises, the caller's Array stays partly converted. The model builds a new Array and does not capture that aliasing.
- Hashes.SymbolizeKeys: keys are only Symbols or Strings. Other key types do not occur in option hashes.
- Error messages and i18n composition (`errors/*`): errors are plain values.
- Driver-level `$inc` (`lib/mongoid_orderable/mongoid/contexts/*`, `contextual/memory.rb`): modelled as the abstract `Records.Inc`.
- Positioning.Current: the base handler's `orderable_position_was` (`handlers/base.rb:75-77`) is read as the stored copy, so for every persisted record, embedded or not, that handler's `current` is the saved position. Mongoid's change tracking, which defines `orderable_position_was`, is not part of this model. The embedded handler (`handlers/embedded.rb:43-47`) and the engine on an embedded record (`engine.rb:50-56`) read the in-memory `orderable_position(field)`, and the model does the same there.
- Placement.ApplyKeepsScopeDense: for an embedded record (the embedded handler, or the engine on an embedded record) it assumes no position was assigned in memory since the last save (`PositionSynced`), because there `current` is the in-memory `orderable_position(field)` (`handlers/embedded.rb:43-47`, `engine.rb:50-56`), so an assigned value is taken for the stored one. With no target it assumes the same for every record: there the code saves an assigned position as it is, which is the direct-assignment finding (`Placement.DirectAssignmentLeavesDuplicate`), not a theorem.
- Placement.CheckedApplyKeepsScopesDense: the same two assumptions as `Placement.ApplyKeepsScopeDense`.
- Placement.CurrentMatchesMembership: for an embedded record under the embedded handler or the engine it assumes the in-memory position is the stored one, because those read `current` from memory (`handlers/embedded.rb:43-47`, `engine.rb:50-56`).
- MixinCallbacks.MixinKeepsScopeDense: it assumes an embedded record, whose `current` is the in-memory `orderable_position(column)` (`mixins/callbacks.rb:50-51`), and a record saved with no target, hold their stored position in memory. `mixins/callbacks.rb:56` returns early, and the save writes a directly assigned position as it is, the duplicate of the direct-assignment finding.
- MixinCallbacks.MixinMoveKeepsScopeDense: it assumes an embedded record holds its stored position in memory, because for an embedded record `current` is the in-memory `orderable_position(column)` (`mixins/callbacks.rb:50-51`).
- LegacyCallbacks.LegacyStayingKeepsScopeDense: it assumes a persisted record holds its stored position in memory and an unpersisted one holds none. The oldest code reads the in-memory `orderable_position` both for `in_list?` and for the window it shifts (`callbacks.rb:24-32`). So after a direct assignment it either saves the assigned value unchanged (no target) or shifts the range measured from it; neither case is stated.
- LegacyCallbacks.LegacyKeepsScopeDense: the same assumption as `LegacyCallbacks.LegacyStayingKeepsScopeDense`.
- Handlers.Handler.BeforeCreate: like the code, it does not call `SetTargetPositions`, so a position assigned in memory is not a target (the direct-assignment finding).
- Handlers.Handler.BeforeUpdate: the same as `Handlers.Handler.BeforeCreate`.

## Findings

| source | as written | input that shows it | evidently intended | confidence | as-written member | corrected member |
|---|---|---|---|---|---|---|
| lib/mongoid/orderable/handlers/base.rb:83-96 | without transactions, the stored copy leaves its old scope (the gap closes) before the target is resolved, and only then can `resolve_target_position` raise | records 1, 2, 3 of group 1 at 1, 2, 3; record 1 is moved to group 2 with target `"four"`: group 1 is left with records 2 and 1 both at 1, and the save is aborted | raise before any write, as `mixins/callbacks.rb:42` does | not executed; high | Placement.InvalidTargetAfterScopeChangeLeavesDuplicate, Positioning.ApplyOne | Positioning.ApplyOneChecked, Placement.CheckedApplyKeepsScopesDense |
| lib/mongoid/orderable/helpers.rb:38-41 | `distinct(column)` includes nil, and `to_i` turns it into 0 | a zero-based scope whose only record has a nil position: bottom is 1 and a new record gets 1, leaving 0 empty | ignore nil positions, as `mixins/helpers.rb:34` does with `ne(col => nil)` | not executed; high | Helpers.LegacyBottomCountsNilAsZero, Helpers.LegacyBottom | Helpers.Bottom, Helpers.BottomIgnoresNil |
| lib/mongoid/orderable/listable.rb:9-35 | `previous_items` / `next_items` compare the configured column with `self.position`, and `previous_item` / `next_item` compute from `self.position` and look up `:position`; only a class whose `position` reads the column gets the column's neighbours | column `pos`, records at 1 and 2: with no `position` accessor `previous_items` raises `NoMethodError`; with a separate unset `position` field `previous_items` of the record at 2 is empty, so it has no `previous_item` although the record at 1 precedes it | read and look up the configured column, as `mixins/listable.rb:15,29` do | not executed; medium | Listable.LegacyNeighboursIgnoreColumn, Listable.LegacyPreviousItem | Listable.LegacyPreviousItemOnColumn, Listable.LegacyNextItemOnColumn |
| lib/mongoid/orderable/mixins/callbacks.rb:42 | the target is resolved before `in_list` is known, and the bottom comes from `in_list?`, which looks at the in-memory position even after a scope change | group 1 holds records at 1 and 2; record 3 (group 2, position 1) is updated to group 1 with no target: it lands at 2 instead of 3 | count the record as in the list for the bottom exactly when the shift does, as `handlers/base.rb:96` passes `in_list` | not executed; medium | MixinCallbacks.MixinScopeMoveCounterexample, MixinCallbacks.MixinAsWrittenStopsShortOfBottom | MixinCallbacks.MixinScopeMoveCorrected, MixinCallbacks.MixinCorrectedMovesToBottom |
| lib/mongoid/orderable/configs/field_config.rb:67 | each Symbol element of the scope is looked up under `@options[:scope].to_s`, the text of the whole option | `scope: [:group]` with a relation `group` whose key is `group_id`: the lookup asks for `"[:group]"` and the scope stays `[:group]` | look up each element under its own name, as a Symbol scope `:group` does | not executed; medium | Configs.ArrayScopeCounterexample, Configs.FieldScopedAsWritten | Configs.ArrayScopeCorrected, Configs.FieldScoped |
| lib/mongoid/orderable/handlers/base.rb:52-94 | `apply_all_positions` takes each target from `move_all` only, and a position assigned in memory records no move (`orderable_X_position=` is the plain setter). A new record then goes to the bottom, and a stored record in the list returns early and is saved at the assigned position. `set_target_positions` (`handlers/base.rb:44-50`), which makes the assigned position the target, is called nowhere in the library | records 1, 2, 3 at 1, 2, 3; record 3 is set to 1 and saved with no target: records 1 and 3 both end at 1, where `spec/integration/embedded_spec.rb:196-201` expects 2, 3, 1; likewise `create!(position: 3)` next to 1 … 5 goes to 6, where `spec/integration/simple_spec.rb:106-135` expects 3 | fill the targets from the assigned positions (`set_target_positions`) before applying them | not executed; medium | Placement.DirectAssignmentLeavesDuplicate, Placement.CreateGoesToBottom | Handlers.FilledTargets, Placement.AssignedTargetKeepsScopeDense, Placement.AssignedTargetReorders |

The handlers and the engine use the checked order. Their hooks apply `move_all`
as written and do not call `set_target_positions`: the corrected behaviour of
the direct-assignment row is `Handlers.Handler.SetTargetPositions` run before them, and
`Placement.AssignedTargetKeepsScopeDense` is what that order guarantees. The
mixin hooks use the corrected bottom. The field configuration uses the corrected lookup. The
oldest callbacks keep their own `LegacyBottom`, because that is the bottom
they call; `Helpers.LegacyBottomWithoutNil` shows that it agrees
with the corrected one whenever no position in the scope is nil. The density
theorems for those callbacks assume exactly that.
