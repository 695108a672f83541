/**
 * The handler objects that run a document's positioning hooks: the common
 * base (apply and remove one field, every field, and the pending targets),
 * the plain, transactional and embedded document handlers with their hook
 * dispatch, and the save that runs the hooks around the write.
 */
module Handlers {
  import opened Wrappers
  import opened Records
  import opened Shifting
  import opened Resolver
  import opened Helpers
  import opened Collections
  import opened Documents
  import opened Positioning

  /** Which handler class drives the document. */
  datatype HandlerKind =
    | PlainDocument           // the plain document handler
    | TransactionalDocument   // clears on create and applies after the insert, inside a transaction
    | EmbeddedDocument        // the plain handler with the root-destroyed guard on destroy

  /** The effect of a run of writes that a transaction wraps: an exception discards its writes. */
  function Committed(useTransactions: bool, o: Outcome, s: Store): (o': Outcome)
    ensures o'.doc == o.doc && o'.error == o.error
    ensures o'.error.None? ==> o'.store == o.store
    ensures useTransactions && o'.error.Some? ==> o'.store == s
    ensures !useTransactions ==> o' == o
  {
    if useTransactions && o.error.Some? then o.(store := s) else o
  }

  /**
   * The pending targets after `set_target_positions`. A key may be an
   * `as:` alias; `doc.send(key)` reads the position under the key's column.
   */
  function FilledTargets(m: Model, ks: seq<Field>, r: Rec, pending: map<Field, Option<Target>>): (p: map<Field, Option<Target>>)
    requires Configured(m, ks)
    ensures forall g :: g in p <==> g in pending || (g in ks && Position(r, m.configs[g].column).Some?)
    ensures forall g | g in p ::
              p[g] == if g in ks && (g !in pending || pending[g].None?) && Position(r, m.configs[g].column).Some?
                      then Some(TInt(Position(r, m.configs[g].column).value)) else pending[g]
    decreases |ks|
  {
    if ks == [] then pending
    else
      var prefix := ks[..|ks| - 1];
      assert Configured(m, prefix);
      var k := ks[|ks| - 1];
      var position := Position(r, m.configs[k].column);
      var p := FilledTargets(m, prefix, r, pending);
      assert forall g :: g in ks <==> g in prefix || g == k;
      if position.Some? && (k !in p || p[k].None?) then p[k := Some(TInt(position.value))] else p
  }

  /** One more field of `set_target_positions`. */
  lemma FilledTargetsStep(m: Model, ks: seq<Field>, i: nat, r: Rec, pending: map<Field, Option<Target>>)
    requires Configured(m, ks) && i < |ks|
    ensures Configured(m, ks[..i]) && Configured(m, ks[..i + 1])
    ensures var p := FilledTargets(m, ks[..i], r, pending);
            var position := Position(r, m.configs[ks[i]].column);
            FilledTargets(m, ks[..i + 1], r, pending) ==
              if position.Some? && (ks[i] !in p || p[ks[i]].None?) then p[ks[i] := Some(TInt(position.value))] else p
  {
    assert ks[..i + 1][..i] == ks[..i];
  }

  /**
   * A key declared with `as:` (`orderable field: :pos, as: :my_position`)
   * fills its target from the stored column `pos`, which holds the
   * position; the record has no attribute named after the key.
   */
  lemma FilledTargetsUnderAlias(conf: FieldConf, r: Rec)
    requires conf.column == "pos" && r.pos == map["pos" := 3]
    ensures var m := Model(["my_position"], map["my_position" := conf]);
            Configured(m, m.keys) &&
            FilledTargets(m, m.keys, r, map[]) == map["my_position" := Some(TInt(3))]
  {
    var m := Model(["my_position"], map["my_position" := conf]);
    assert Configured(m, m.keys);
    var p := FilledTargets(m, m.keys, r, map[]);
    assert "my_position" in p;
    assert forall g | g in p :: g == "my_position";
  }

  /** The three range increments that move the siblings out of the way of a record going from `current` to `t`. */
  method ShiftSiblings(coll: Collection, scope: Scope, f: Field, current: Option<int>, t: int)
    modifies coll
    ensures coll.records == Shift(old(coll.records), scope, f, current, t)
  {
    if current.None? {
      coll.Inc(scope, f, Window(t, None), 1);
    } else if t < current.value {
      coll.Inc(scope, f, Window(t, Some(current.value)), 1);
    } else if t > current.value {
      coll.Inc(scope, f, Window(current.value + 1, Some(t + 1)), -1);
    }
  }

  /**
   * `scope.gt(f => current).inc(f => -1)` for the record `r`: the members
   * above it move up one. A nil position matches no record, so no write is
   * issued.
   */
  method CloseGapAt(coll: Collection, conf: FieldConf, r: Rec)
    modifies coll
    ensures coll.records == CloseGap(old(coll.records), ScopeOf(conf, r.attrs), conf.column, Position(r, conf.column))
  {
    var current := Position(r, conf.column);
    if current.Some? {
      coll.Inc(ScopeOf(conf, r.attrs), conf.column, Window(current.value + 1, None), -1);
    }
  }

  class Handler {
    const doc: Document
    const coll: Collection
    const model: Model
    const kind: HandlerKind
    /** `@new_record`: `new_record?` as it was when the handler was built. */
    var newRecordSnapshot: bool

    constructor(doc: Document, coll: Collection, model: Model, kind: HandlerKind)
      ensures this.doc == doc && this.coll == coll && this.model == model && this.kind == kind
      ensures newRecordSnapshot == doc.newRecord
    {
      this.doc := doc;
      this.coll := coll;
      this.model := model;
      this.kind := kind;
      this.newRecordSnapshot := doc.newRecord;
    }

    predicate UseTransactions() {
      kind == TransactionalDocument
    }

    function Flavor(): Flavor
      reads this
    {
      BaseHandler(UseTransactions(), newRecordSnapshot)
    }

    /**
     * `remove_one_position` for the record `r` (the handler's own document,
     * or the stored copy when it leaves its old scope), skipped when the
     * field is not `allowed?`.
     */
    method RemoveOnePositionOf(conf: FieldConf, r: Rec)
      modifies coll
      ensures coll.records == RemoveOne(Flavor(), conf, r, old(coll.records))
    {
      if Allowed(conf, r) {
        CloseGapAt(coll, conf, r);
      }
    }

    method RemoveOnePosition(k: Field)
      requires k in model.configs
      modifies coll
      ensures coll.records == RemoveOne(Flavor(), model.configs[k], doc.rec, old(coll.records))
    {
      RemoveOnePositionOf(model.configs[k], doc.rec);
    }

    /** The record's current position: nil when new or moved to another scope, else the stored value of a persisted record. */
    method CurrentPosition(d: DocState, f: Field, scopeChanged: bool) returns (current: Option<int>)
      ensures current == Current(Flavor(), d, coll.records, f, scopeChanged)
    {
      if NewRecord(Flavor(), d) || scopeChanged {
        current := None;
      } else if d.persisted {
        current := coll.PluckPosition(d.id, f);
      } else {
        current := Position(d.rec, f);
      }
    }

    /** Leaving the old scope: the stored copy is looked up and its gap closed, when the record moved out of a stored scope. */
    method LeaveOldScopeOf(conf: FieldConf, d: DocState, scopeChanged: bool) returns (err: Option<Error>)
      modifies coll
      ensures var r := LeaveOldScope(Flavor(), conf, d, old(coll.records), scopeChanged);
              if r.Ok? then err.None? && coll.records == r.value
              else err == Some(r.error) && coll.records == old(coll.records)
    {
      err := None;
      if ClosesOldScope(Flavor(), d, scopeChanged) {
        var existing := coll.Find(d.id);
        if existing.Err? {
          return Some(existing.error);
        }
        RemoveOnePositionOf(conf, existing.value);
      }
    }

    /** The tail of `apply_one_position` once the target is resolved: shift, atomic set, assignment. */
    method PlaceRecord(conf: FieldConf, d: DocState, scope: Scope, current: Option<int>, t: int)
      requires d.id == doc.id && d.rec == doc.rec && d.persisted == doc.persisted && d.embedded == doc.embedded
      modifies doc, coll
      ensures var o := PlaceAt(Flavor(), conf, d, old(coll.records), scope, current, t);
              coll.records == o.store && doc.rec == o.doc
      ensures doc.Flags() == old(doc.Flags())
    {
      ShiftSiblings(coll, scope, conf.column, current, t);
      if UseTransactions() && doc.persisted {
        coll.Set(doc.id, conf.column, t, ChangedScopeHash(conf, d));
      }
      doc.rec := WithPosition(doc.rec, conf.column, Some(t));
    }

    /**
     * `apply_one_position(field, target)`, with the target checked before
     * the stored copy leaves its old scope.
     */
    method ApplyOnePosition(k: Field, target: Option<Target>) returns (err: Option<Error>)
      requires k in model.configs
      modifies doc, coll
      ensures var o := ApplyOneChecked(Flavor(), model.configs[k], k, target, old(doc.State()), old(coll.records));
              coll.records == o.store && doc.rec == o.doc && err == o.error
      ensures doc.Flags() == old(doc.Flags())
    {
      var conf := model.configs[k];
      var d := doc.State();
      var fl := Flavor();
      ghost var s0 := coll.records;
      ghost var o := ApplyOneChecked(fl, conf, k, target, d, s0);
      var f := conf.column;
      if !Gate(fl, conf, k, d) {
        return None;
      }
      if InvalidTarget(target, Position(d.rec, f)) {
        return Some(TargetError(target, Position(d.rec, f)));
      }
      assert o == ApplyOne(fl, conf, k, target, d, s0);
      var scope := ScopeOf(conf, d.rec.attrs);
      var scopeChanged := ScopeChanged(coll.records, scope, d.id);
      var current := CurrentPosition(d, f, scopeChanged);
      err := LeaveOldScopeOf(conf, d, scopeChanged);
      if err.Some? {
        return;
      }
      var inList := d.persisted && current.Some?;
      if inList && target.None? {
        return None;
      }
      var t := Resolve(target, conf.base, Bottom(coll.records, scope, f, conf.base, inList), Position(d.rec, f)).value;
      assert o == PlaceAt(fl, conf, d, coll.records, scope, if inList then current else None, t);
      PlaceRecord(conf, d, scope, if inList then current else None, t);
      return None;
    }

    /** The step of `ApplyEachPosition` for the field `ks[i]`, once every earlier field was applied without an exception. */
    method ApplyNextPosition(ks: seq<Field>, i: nat, ghost d0: DocState, ghost s0: Store) returns (err: Option<Error>)
      requires ks == model.keys && Configured(model, ks) && i < |ks|
      requires var o := ApplyFields(Flavor(), model, ks[..i], d0, s0);
               coll.records == o.store && doc.rec == o.doc && o.error.None?
      requires doc.State() == d0.(rec := doc.rec)
      modifies doc, coll
      ensures var o := ApplyFields(Flavor(), model, ks[..i + 1], d0, s0);
              coll.records == o.store && doc.rec == o.doc && err == o.error
      ensures err.Some? ==> ApplyFields(Flavor(), model, ks, d0, s0) == ApplyFields(Flavor(), model, ks[..i + 1], d0, s0)
      ensures doc.Flags() == old(doc.Flags())
    {
      var target := PendingTarget(doc.State(), ks[i]);
      ApplyFieldsStep(Flavor(), model, ks, i, d0, s0);
      err := ApplyOnePosition(ks[i], target);
      if err.Some? {
        ApplyFieldsStopsAtError(Flavor(), model, ks, i + 1, d0, s0);
      }
    }

    /** `apply_all_positions` of the handler base class: every field in order, stopping at the first exception. */
    method ApplyEachPosition() returns (err: Option<Error>)
      requires Configured(model, model.keys)
      modifies doc, coll
      ensures var o := ApplyFields(Flavor(), model, model.keys, old(doc.State()), old(coll.records));
              coll.records == o.store && doc.rec == o.doc && err == o.error
      ensures doc.Flags() == old(doc.Flags())
    {
      ghost var d0 := doc.State();
      ghost var s0 := coll.records;
      var ks := model.keys;
      var i := 0;
      err := None;
      while i < |ks|
        invariant 0 <= i <= |ks|
        invariant Configured(model, ks[..i])
        invariant var o := ApplyFields(Flavor(), model, ks[..i], d0, s0);
                  coll.records == o.store && doc.rec == o.doc && err == o.error
        invariant doc.Flags() == old(doc.Flags()) && doc.State() == d0.(rec := doc.rec)
        invariant err.None?
      {
        err := ApplyNextPosition(ks, i, d0, s0);
        i := i + 1;
        if err.Some? {
          return;
        }
      }
      assert ks[..i] == ks;
    }

    /**
     * `apply_all_positions` as each handler runs it: the transactional
     * handler wraps it in a transaction, so an exception discards the
     * writes it made; the positions already assigned in memory stay.
     */
    method ApplyAllPositions() returns (err: Option<Error>)
      requires Configured(model, model.keys)
      modifies doc, coll
      ensures var o := Committed(UseTransactions(), ApplyFields(Flavor(), model, model.keys, old(doc.State()), old(coll.records)), old(coll.records));
              coll.records == o.store && doc.rec == o.doc && err == o.error
      ensures doc.Flags() == old(doc.Flags())
    {
      var snapshot := coll.records;
      err := ApplyEachPosition();
      if UseTransactions() && err.Some? {
        coll.Rollback(snapshot);
      }
    }

    /** `remove_all_positions`: `remove_one_position` of every field in order. */
    method RemoveAllPositions()
      requires Configured(model, model.keys)
      modifies coll
      ensures coll.records == RemoveFields(Flavor(), model, model.keys, doc.rec, old(coll.records))
    {
      ghost var s0 := coll.records;
      var ks := model.keys;
      var i := 0;
      while i < |ks|
        invariant 0 <= i <= |ks|
        invariant Configured(model, ks[..i])
        invariant coll.records == RemoveFields(Flavor(), model, ks[..i], doc.rec, s0)
      {
        RemoveFieldsStep(Flavor(), model, ks, i, doc.rec, s0);
        RemoveOnePosition(ks[i]);
        i := i + 1;
      }
      assert ks[..i] == ks;
    }

    /** `clear_all_positions`: every orderable field of the document set to nil. */
    method ClearAllPositions()
      requires Configured(model, model.keys)
      modifies doc
      ensures doc.rec == ClearFields(model, model.keys, old(doc.rec))
      ensures doc.Flags() == old(doc.Flags())
    {
      var r := doc.rec;
      var ks := model.keys;
      var i := 0;
      while i < |ks|
        invariant 0 <= i <= |ks|
        invariant Configured(model, ks[..i])
        invariant r == ClearFields(model, ks[..i], doc.rec)
        invariant unchanged(doc)
      {
        assert ks[..i + 1][..i] == ks[..i];
        r := WithPosition(r, model.configs[ks[i]].column, None);
        i := i + 1;
      }
      assert ks[..i] == ks;
      doc.rec := r;
    }

    /**
     * `set_target_positions`: every field holding a position gets it as its
     * pending target unless one is already recorded. `move_all` hands out a
     * fresh empty map while nothing was recorded, so then every update is
     * lost and the document is left as it was.
     */
    method SetTargetPositions()
      requires Configured(model, model.keys)
      modifies doc
      ensures old(doc.moveAllVar).None? ==> doc.moveAllVar.None?
      ensures old(doc.moveAllVar).Some? ==>
                doc.moveAllVar == Some(FilledTargets(model, model.keys, doc.rec, old(doc.moveAllVar).value))
      ensures doc.rec == old(doc.rec) && doc.persisted == old(doc.persisted) && doc.newRecord == old(doc.newRecord)
      ensures doc.dirty == old(doc.dirty) && doc.rootDestroyed == old(doc.rootDestroyed)
    {
      if doc.moveAllVar.None? {
        return;
      }
      ghost var pending0 := doc.moveAllVar.value;
      var pending := doc.moveAllVar.value;
      var ks := model.keys;
      var i := 0;
      while i < |ks|
        invariant 0 <= i <= |ks|
        invariant Configured(model, ks[..i])
        invariant pending == FilledTargets(model, ks[..i], doc.rec, pending0)
        invariant unchanged(doc)
      {
        FilledTargetsStep(model, ks, i, doc.rec, pending0);
        var k := ks[i];
        var position := Position(doc.rec, model.configs[k].column);
        if position.Some? && (k !in pending || pending[k].None?) {
          pending := pending[k := Some(TInt(position.value))];
        }
        i := i + 1;
      }
      assert ks[..i] == ks;
      doc.moveAllVar := Some(pending);
    }

    /** `before_create`: the transactional handler only clears the positions; the others apply every field. */
    method BeforeCreate() returns (err: Option<Error>)
      requires Configured(model, model.keys)
      modifies doc, coll
      ensures UseTransactions() ==>
                coll.records == old(coll.records) && doc.rec == ClearFields(model, model.keys, old(doc.rec)) && err.None?
      ensures !UseTransactions() ==>
                var o := ApplyFields(Flavor(), model, model.keys, old(doc.State()), old(coll.records));
                coll.records == o.store && doc.rec == o.doc && err == o.error
      ensures doc.Flags() == old(doc.Flags())
    {
      if UseTransactions() {
        ClearAllPositions();
        err := None;
      } else {
        err := ApplyAllPositions();
      }
    }

    /** `after_create`: the transactional handler applies every field, inside its transaction, once the record is inserted. */
    method AfterCreate() returns (err: Option<Error>)
      requires Configured(model, model.keys)
      modifies doc, coll
      ensures UseTransactions() ==>
                var o := Committed(true, ApplyFields(Flavor(), model, model.keys, old(doc.State()), old(coll.records)), old(coll.records));
                coll.records == o.store && doc.rec == o.doc && err == o.error
      ensures !UseTransactions() ==> coll.records == old(coll.records) && doc.rec == old(doc.rec) && err.None?
      ensures doc.Flags() == old(doc.Flags())
    {
      if UseTransactions() {
        err := ApplyAllPositions();
      } else {
        err := None;
      }
    }

    /** `before_update`: nothing unless some field changed or some move is pending. */
    method BeforeUpdate() returns (err: Option<Error>)
      requires Configured(model, model.keys)
      modifies doc, coll
      ensures !AnyFieldChanged(Flavor(), model, old(doc.State())) ==>
                coll.records == old(coll.records) && doc.rec == old(doc.rec) && err.None?
      ensures AnyFieldChanged(Flavor(), model, old(doc.State())) ==>
                var o := Committed(UseTransactions(), ApplyFields(Flavor(), model, model.keys, old(doc.State()), old(coll.records)), old(coll.records));
                coll.records == o.store && doc.rec == o.doc && err == o.error
      ensures doc.Flags() == old(doc.Flags())
    {
      if !AnyFieldChanged(Flavor(), model, doc.State()) {
        return None;
      }
      err := ApplyAllPositions();
    }

    /** `after_destroy`: every field's gap is closed, except for an embedded document whose root was destroyed. */
    method AfterDestroy()
      requires Configured(model, model.keys)
      modifies coll
      ensures kind == EmbeddedDocument && doc.rootDestroyed ==> coll.records == old(coll.records)
      ensures !(kind == EmbeddedDocument && doc.rootDestroyed) ==>
                coll.records == RemoveFields(Flavor(), model, model.keys, doc.rec, old(coll.records))
    {
      if kind == EmbeddedDocument && doc.rootDestroyed {
        return;
      }
      RemoveAllPositions();
    }

    /**
     * The host's `save` around the hooks: a new record runs `before_create`,
     * is inserted and becomes persisted, then runs `after_create`; an
     * existing one runs `before_update` and is written back. An exception
     * in a hook stops the save before the write.
     */
    method Save() returns (err: Option<Error>)
      requires Configured(model, model.keys)
      modifies doc, coll
      ensures err.None? ==> doc.persisted && !doc.newRecord && doc.dirty == {}
      ensures err.None? && !UseTransactions() ==> doc.id in coll.records && coll.records[doc.id] == doc.rec
      ensures old(doc.newRecord) && !UseTransactions() ==>
                var o := ApplyFields(Flavor(), model, model.keys, old(doc.State()), old(coll.records));
                err == o.error && doc.rec == o.doc && coll.records == (if o.error.None? then o.store[doc.id := o.doc] else o.store)
      ensures !old(doc.newRecord) && !AnyFieldChanged(Flavor(), model, old(doc.State())) ==>
                err.None? && doc.rec == old(doc.rec) && coll.records == old(coll.records)[doc.id := old(doc.rec)]
      ensures !old(doc.newRecord) && AnyFieldChanged(Flavor(), model, old(doc.State())) ==>
                var o := Committed(UseTransactions(), ApplyFields(Flavor(), model, model.keys, old(doc.State()), old(coll.records)), old(coll.records));
                err == o.error && doc.rec == o.doc && coll.records == (if o.error.None? then o.store[doc.id := o.doc] else o.store)
      ensures doc.moveAllVar == old(doc.moveAllVar) && doc.rootDestroyed == old(doc.rootDestroyed)
    {
      if doc.newRecord {
        err := BeforeCreate();
        if err.Some? {
          return;
        }
        coll.Write(doc.id, doc.rec);
        doc.persisted := true;
        doc.newRecord := false;
        doc.dirty := {};
        err := AfterCreate();
      } else {
        err := BeforeUpdate();
        if err.Some? {
          return;
        }
        coll.Write(doc.id, doc.rec);
        doc.persisted := true;
        doc.dirty := {};
      }
    }

    /** `move_to!` (also `insert_at!` and the `!` shorthands): records the target, then saves. */
    method MoveToBang(position: Option<Target>, column: Option<Field>) returns (err: Option<Error>)
      requires Configured(model, model.keys)
      modifies doc, coll
      ensures doc.MoveAll() == old(doc.MoveAll())[column.GetOr(doc.defaultColumn) := position]
      ensures err.None? ==> doc.persisted && !doc.newRecord
      ensures old(doc.newRecord) && !UseTransactions() ==>
                var d1 := old(doc.State()).(moveAll := doc.MoveAll());
                var o := ApplyFields(Flavor(), model, model.keys, d1, old(coll.records));
                err == o.error && doc.rec == o.doc && coll.records == (if o.error.None? then o.store[doc.id := o.doc] else o.store)
      ensures !old(doc.newRecord) ==>
                var d1 := old(doc.State()).(moveAll := doc.MoveAll());
                if AnyFieldChanged(Flavor(), model, d1) then
                  var o := Committed(UseTransactions(), ApplyFields(Flavor(), model, model.keys, d1, old(coll.records)), old(coll.records));
                  err == o.error && doc.rec == o.doc && coll.records == (if o.error.None? then o.store[doc.id := o.doc] else o.store)
                else
                  err.None? && doc.rec == old(doc.rec) && coll.records == old(coll.records)[doc.id := old(doc.rec)]
    {
      doc.MoveColumnTo(position, column);
      err := Save();
    }
  }

  /**
   * The embedded handler sees the scope's members without the old-scope
   * step, so checking the target first changes nothing: an invalid target
   * raises before any write either way.
   */
  lemma EmbeddedApplyRaisesBeforeWriting(conf: FieldConf, k: Field, target: Option<Target>, d: DocState, s: Store)
    ensures ApplyOne(EmbeddedHandler, conf, k, target, d, s) == ApplyOneChecked(EmbeddedHandler, conf, k, target, d, s)
    ensures ApplyOne(EmbeddedHandler, conf, k, target, d, s).error.Some? ==> ApplyOne(EmbeddedHandler, conf, k, target, d, s).store == s
  {
    var fl := EmbeddedHandler;
    var p := Position(d.rec, conf.column);
    if Gate(fl, conf, k, d) && InvalidTarget(target, p) {
      assert LeaveOldScope(fl, conf, d, s, ScopeChanged(s, ScopeOf(conf, d.rec.attrs), d.id)) == Ok(s);
      assert target.Some?;
    }
  }

  /** The in-memory handler for embedded documents: no lock, no stored copy read, no atomic set, no `allowed?`. */
  class Embedded {
    const doc: Document
    const coll: Collection
    const model: Model

    constructor(doc: Document, coll: Collection, model: Model)
      ensures this.doc == doc && this.coll == coll && this.model == model
    {
      this.doc := doc;
      this.coll := coll;
      this.model := model;
    }

    /** `apply_one_position`: gated by `changed?` alone; the in-memory position is the current one. */
    method ApplyOnePosition(k: Field, target: Option<Target>) returns (err: Option<Error>)
      requires k in model.configs
      modifies doc, coll
      ensures var o := ApplyOne(EmbeddedHandler, model.configs[k], k, target, old(doc.State()), old(coll.records));
              coll.records == o.store && doc.rec == o.doc && err == o.error
      ensures ApplyOne(EmbeddedHandler, model.configs[k], k, target, old(doc.State()), old(coll.records))
           == ApplyOneChecked(EmbeddedHandler, model.configs[k], k, target, old(doc.State()), old(coll.records))
      ensures doc.Flags() == old(doc.Flags())
    {
      var conf := model.configs[k];
      var d := doc.State();
      EmbeddedApplyRaisesBeforeWriting(conf, k, target, d, coll.records);
      ghost var o := ApplyOne(EmbeddedHandler, conf, k, target, d, coll.records);
      var f := conf.column;
      if !Changed(EmbeddedHandler, conf, k, d) {
        return None;
      }
      var scope := ScopeOf(conf, d.rec.attrs);
      var scopeChanged := ScopeChanged(coll.records, scope, d.id);
      var current := if scopeChanged then None else Position(d.rec, f);
      assert LeaveOldScope(EmbeddedHandler, conf, d, coll.records, scopeChanged) == Ok(coll.records);
      var inList := d.persisted && current.Some?;
      if inList && target.None? {
        return None;
      }
      var r := Resolve(target, conf.base, Bottom(coll.records, scope, f, conf.base, inList), Position(d.rec, f));
      if r.Err? {
        return Some(r.error);
      }
      assert o == PlaceAt(EmbeddedHandler, conf, d, coll.records, scope, if inList then current else None, r.value);
      ShiftSiblings(coll, scope, f, if inList then current else None, r.value);
      doc.rec := WithPosition(doc.rec, f, Some(r.value));
      err := None;
    }

    /** `remove_one_position`: the gap is closed with no `allowed?` check. */
    method RemoveOnePosition(k: Field)
      requires k in model.configs
      modifies coll
      ensures coll.records == RemoveOne(EmbeddedHandler, model.configs[k], doc.rec, old(coll.records))
    {
      CloseGapAt(coll, model.configs[k], doc.rec);
    }

    /** The step of `ApplyEachPosition` for the field `ks[i]`, once every earlier field was applied without an exception. */
    method ApplyNextPosition(ks: seq<Field>, i: nat, ghost d0: DocState, ghost s0: Store) returns (err: Option<Error>)
      requires ks == model.keys && Configured(model, ks) && i < |ks|
      requires var o := ApplyFields(EmbeddedHandler, model, ks[..i], d0, s0);
               coll.records == o.store && doc.rec == o.doc && o.error.None?
      requires doc.State() == d0.(rec := doc.rec)
      modifies doc, coll
      ensures var o := ApplyFields(EmbeddedHandler, model, ks[..i + 1], d0, s0);
              coll.records == o.store && doc.rec == o.doc && err == o.error
      ensures err.Some? ==> ApplyFields(EmbeddedHandler, model, ks, d0, s0) == ApplyFields(EmbeddedHandler, model, ks[..i + 1], d0, s0)
      ensures doc.Flags() == old(doc.Flags())
    {
      var target := PendingTarget(doc.State(), ks[i]);
      ApplyFieldsStep(EmbeddedHandler, model, ks, i, d0, s0);
      err := ApplyOnePosition(ks[i], target);
      if err.Some? {
        ApplyFieldsStopsAtError(EmbeddedHandler, model, ks, i + 1, d0, s0);
      }
    }

    /** Every field in order, each with its pending target; the first exception stops the rest. */
    method ApplyEachPosition() returns (err: Option<Error>)
      requires Configured(model, model.keys)
      modifies doc, coll
      ensures var o := ApplyFields(EmbeddedHandler, model, model.keys, old(doc.State()), old(coll.records));
              coll.records == o.store && doc.rec == o.doc && err == o.error
      ensures doc.Flags() == old(doc.Flags())
    {
      ghost var d0 := doc.State();
      ghost var s0 := coll.records;
      var ks := model.keys;
      var i := 0;
      err := None;
      while i < |ks|
        invariant 0 <= i <= |ks|
        invariant Configured(model, ks[..i])
        invariant var o := ApplyFields(EmbeddedHandler, model, ks[..i], d0, s0);
                  coll.records == o.store && doc.rec == o.doc && err == o.error
        invariant doc.Flags() == old(doc.Flags()) && doc.State() == d0.(rec := doc.rec)
        invariant err.None?
      {
        err := ApplyNextPosition(ks, i, d0, s0);
        i := i + 1;
        if err.Some? {
          return;
        }
      }
      assert ks[..i] == ks;
    }

    /** `before_create`: every field is positioned, at the bottom unless a move is pending. */
    method BeforeCreate() returns (err: Option<Error>)
      requires Configured(model, model.keys)
      modifies doc, coll
      ensures var o := ApplyFields(EmbeddedHandler, model, model.keys, old(doc.State()), old(coll.records));
              coll.records == o.store && doc.rec == o.doc && err == o.error
      ensures doc.Flags() == old(doc.Flags())
    {
      err := ApplyEachPosition();
    }

    /** `before_update`: nothing unless some field reports `changed?`. */
    method BeforeUpdate() returns (err: Option<Error>)
      requires Configured(model, model.keys)
      modifies doc, coll
      ensures !AnyChanged(EmbeddedHandler, model, old(doc.State())) ==>
                coll.records == old(coll.records) && doc.rec == old(doc.rec) && err.None?
      ensures AnyChanged(EmbeddedHandler, model, old(doc.State())) ==>
                var o := ApplyFields(EmbeddedHandler, model, model.keys, old(doc.State()), old(coll.records));
                coll.records == o.store && doc.rec == o.doc && err == o.error
      ensures doc.Flags() == old(doc.Flags())
    {
      if !AnyChanged(EmbeddedHandler, model, doc.State()) {
        return None;
      }
      err := ApplyEachPosition();
    }

    /** `after_destroy`: nothing when the root was destroyed; otherwise every field's gap is closed. */
    method AfterDestroy()
      requires Configured(model, model.keys)
      modifies coll
      ensures doc.rootDestroyed ==> coll.records == old(coll.records)
      ensures !doc.rootDestroyed ==> coll.records == RemoveFields(EmbeddedHandler, model, model.keys, doc.rec, old(coll.records))
    {
      if doc.rootDestroyed {
        return;
      }
      ghost var s0 := coll.records;
      var ks := model.keys;
      var i := 0;
      while i < |ks|
        invariant 0 <= i <= |ks|
        invariant Configured(model, ks[..i])
        invariant coll.records == RemoveFields(EmbeddedHandler, model, ks[..i], doc.rec, s0)
      {
        RemoveFieldsStep(EmbeddedHandler, model, ks, i, doc.rec, s0);
        RemoveOnePosition(ks[i]);
        i := i + 1;
      }
      assert ks[..i] == ks;
    }
  }
}
