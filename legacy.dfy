/**
 * The oldest version of the positioning hooks: one orderable column, a
 * single pending target `@move_to`, `apply_position` run before every
 * save and `remove_from_list` after a destroy, with no transaction.
 */
module LegacyCallbacks {
  import opened Wrappers
  import opened Records
  import opened Shifting
  import opened Scopes
  import opened Resolver
  import opened Helpers
  import opened Collections
  import opened Documents
  import opened Positioning
  import opened Placement
  import opened Handlers
  import opened Listable

  /** The scope of a record in the oldest code. */
  function LegacyScope(conf: FieldConf, a: Attrs): Scope {
    LegacyCriteria(conf.scope, a)
  }

  /** Whether `apply_position` first takes the stored copy out of its old list. */
  predicate LegacyLeaves(conf: FieldConf, d: DocState, s: Store) {
    d.persisted && !d.embedded && ScopeChanged(s, LegacyScope(conf, d.rec.attrs), d.id)
  }

  /**
   * The scope-change step: `find(_id).remove_from_list` closes the stored
   * copy's gap in its own scope, then the in-memory position is cleared.
   */
  function LegacyLeave(conf: FieldConf, d: DocState, s: Store): (r: Result<(Store, Rec), Error>)
    ensures !LegacyLeaves(conf, d, s) ==> r == Ok((s, d.rec))
    ensures LegacyLeaves(conf, d, s) && d.id !in s ==> r == Err(DocumentNotFound(d.id))
    ensures LegacyLeaves(conf, d, s) && d.id in s ==>
              r == Ok((CloseGap(s, LegacyScope(conf, s[d.id].attrs), conf.column, Position(s[d.id], conf.column)),
                       WithPosition(d.rec, conf.column, None)))
  {
    if !LegacyLeaves(conf, d, s) then Ok((s, d.rec))
    else if d.id in s then
      Ok((CloseGap(s, LegacyScope(conf, s[d.id].attrs), conf.column, Position(s[d.id], conf.column)),
          WithPosition(d.rec, conf.column, None)))
    else Err(DocumentNotFound(d.id))
  }

  /**
   * `apply_position(target)`: after the scope-change step, a record whose
   * in-memory position is set and that has no target is left alone;
   * otherwise the target is resolved (the bottom counting nil positions as
   * 0), the siblings are shifted as for an insertion when the position is
   * nil and as for a move otherwise, and the record takes the target.
   * An exception from the resolver comes after the scope-change step.
   */
  function LegacyApply(conf: FieldConf, target: Option<Target>, d: DocState, s: Store): (o: Outcome)
    ensures o.store.Keys == s.Keys
    ensures o.error.Some? ==> o.error == Some(DocumentNotFound(d.id)) || o.error == Some(NoMethodErrorOnNil)
    ensures o.error == Some(DocumentNotFound(d.id)) ==> o.store == s && o.doc == d.rec
    ensures o.error == Some(NoMethodErrorOnNil) ==> LegacyLeave(conf, d, s).Ok? && o.store == LegacyLeave(conf, d, s).value.0
    ensures o.error.None? ==> o.doc == d.rec || o.doc == WithPosition(d.rec, conf.column, Position(o.doc, conf.column))
    ensures o.doc.attrs == d.rec.attrs
  {
    var f := conf.column;
    var scope := LegacyScope(conf, d.rec.attrs);
    match LegacyLeave(conf, d, s)
    case Err(e) => Outcome(s, d.rec, Some(e))
    case Ok((s1, r1)) =>
      var p := Position(r1, f);
      if target.None? && LegacyInList(p) then Outcome(s1, r1, None)
      else
        match LegacyTargetPosition(target, conf.base, LegacyBottom(s1, scope, f, conf.base, LegacyInList(p)), p)
        case Err(e) => Outcome(s1, r1, Some(e))
        case Ok(t) => Outcome(Shift(s1, scope, f, p, t), WithPosition(r1, f, Some(t)), None)
  }

  /** A record whose scope did not change, with a position and no target, is left as it is. */
  lemma LegacyStaysWithoutTarget(conf: FieldConf, d: DocState, s: Store)
    requires !LegacyLeaves(conf, d, s) && Position(d.rec, conf.column).Some?
    ensures LegacyApply(conf, None, d, s) == Outcome(s, d.rec, None)
  {
  }

  /**
   * After a scope change the record is inserted as a newcomer: the stored
   * copy leaves its old list, the bottom is taken as for a record not in
   * the list, and the new scope's members at or after the target move down.
   */
  lemma LegacyScopeChangeInsertsAsNew(conf: FieldConf, target: Option<Target>, d: DocState, s: Store)
    requires LegacyLeaves(conf, d, s) && d.id in s
    ensures var f := conf.column;
            var scope := LegacyScope(conf, d.rec.attrs);
            var s1 := CloseGap(s, LegacyScope(conf, s[d.id].attrs), f, Position(s[d.id], f));
            var r := LegacyTargetPosition(target, conf.base, LegacyBottom(s1, scope, f, conf.base, false), None);
            && (r.Ok? ==> LegacyApply(conf, target, d, s) == Outcome(Shift(s1, scope, f, None, r.value), WithPosition(d.rec, f, Some(r.value)), None))
            && (r.Err? ==> LegacyApply(conf, target, d, s) == Outcome(s1, WithPosition(d.rec, f, None), Some(r.error)))
  {
    assert Position(WithPosition(d.rec, conf.column, None), conf.column).None?;
    forall t ensures WithPosition(WithPosition(d.rec, conf.column, None), conf.column, Some(t)) == WithPosition(d.rec, conf.column, Some(t)) {
      WithPositionTwice(d.rec, conf.column, None, t);
    }
  }

  /** Setting a position again overwrites the earlier one. */
  lemma WithPositionTwice(r: Rec, f: Field, p: Option<int>, t: int)
    ensures WithPosition(WithPosition(r, f, p), f, Some(t)) == WithPosition(r, f, Some(t))
  {
    var a := WithPosition(WithPosition(r, f, p), f, Some(t));
    var b := WithPosition(r, f, Some(t));
    assert a.pos == b.pos;
  }

  /** The new scope after the stored copy left its old one: the record joins it as a newcomer. */
  lemma LegacyLeavingKeepsScopeDense(conf: FieldConf, target: Option<Target>, d: DocState, s: Store)
    requires LegacyLeaves(conf, d, s) && d.id in s
    requires LegacyScope(conf, d.rec.attrs)(d.rec.attrs)
    requires Dense(Members(s, LegacyScope(conf, d.rec.attrs), conf.column), conf.base)
    requires forall j | j in s && LegacyScope(conf, d.rec.attrs)(s[j].attrs) :: conf.column in s[j].pos
    requires Separate(LegacyScope(conf, s[d.id].attrs), LegacyScope(conf, d.rec.attrs))
    ensures var o := LegacyApply(conf, target, d, s);
            o.error.None? ==>
              && conf.column in o.doc.pos
              && Dense(Members(Saved(o, d.id), LegacyScope(conf, d.rec.attrs), conf.column), conf.base)
  {
    var f := conf.column;
    var scope := LegacyScope(conf, d.rec.attrs);
    var s1 := CloseGap(s, LegacyScope(conf, s[d.id].attrs), f, Position(s[d.id], f));
    LegacyScopeChangeInsertsAsNew(conf, target, d, s);
    var r := LegacyTargetPosition(target, conf.base, LegacyBottom(s1, scope, f, conf.base, false), None);
    if r.Ok? {
      LegacyInsertionIntoNewScopeDense(conf, d, s, r.value);
    }
  }

  /** The insertion into the new scope at a position the legacy resolver accepts keeps that scope dense. */
  lemma LegacyInsertionIntoNewScopeDense(conf: FieldConf, d: DocState, s: Store, t: int)
    requires LegacyLeaves(conf, d, s) && d.id in s
    requires LegacyScope(conf, d.rec.attrs)(d.rec.attrs)
    requires Dense(Members(s, LegacyScope(conf, d.rec.attrs), conf.column), conf.base)
    requires forall j | j in s && LegacyScope(conf, d.rec.attrs)(s[j].attrs) :: conf.column in s[j].pos
    requires Separate(LegacyScope(conf, s[d.id].attrs), LegacyScope(conf, d.rec.attrs))
    requires var s1 := CloseGap(s, LegacyScope(conf, s[d.id].attrs), conf.column, Position(s[d.id], conf.column));
             conf.base <= t <= LegacyBottom(s1, LegacyScope(conf, d.rec.attrs), conf.column, conf.base, false)
    ensures var s1 := CloseGap(s, LegacyScope(conf, s[d.id].attrs), conf.column, Position(s[d.id], conf.column));
            var scope := LegacyScope(conf, d.rec.attrs);
            Dense(Members(Shift(s1, scope, conf.column, None, t)[d.id := WithPosition(d.rec, conf.column, Some(t))], scope, conf.column), conf.base)
  {
    var f := conf.column;
    var scope := LegacyScope(conf, d.rec.attrs);
    var oldScope := LegacyScope(conf, s[d.id].attrs);
    var s1 := CloseGap(s, oldScope, f, Position(s[d.id], f));
    var r1 := WithPosition(d.rec, f, None);
    forall j | j in s && scope(s[j].attrs) ensures s1[j] == s[j] {
      assert !oldScope(s[j].attrs);
    }
    MembersAgree(s, s1, scope, f);
    assert !scope(s1[d.id].attrs);
    LegacyBottomWithoutNil(s1, scope, f, conf.base, false);
    BottomOfDense(s1, scope, f, conf.base, false);
    var d1 := d.(rec := r1);
    assert !AtomicSet(EmbeddedHandler, d1);
    WithPositionTwice(d.rec, f, None, t);
    assert PlaceAt(EmbeddedHandler, conf, d1, s1, scope, None, t)
        == Outcome(Shift(s1, scope, f, None, t), WithPosition(d.rec, f, Some(t)), None);
    PlaceKeepsDense(EmbeddedHandler, conf, d1, s1, scope, None, t);
  }

  /** The record's own scope when the stored copy stays where it is: a move within it, or an insertion. */
  lemma LegacyStayingKeepsScopeDense(conf: FieldConf, target: Option<Target>, d: DocState, s: Store)
    requires !LegacyLeaves(conf, d, s)
    requires LegacyScope(conf, d.rec.attrs)(d.rec.attrs)
    requires Dense(Members(s, LegacyScope(conf, d.rec.attrs), conf.column), conf.base)
    requires forall j | j in s && LegacyScope(conf, d.rec.attrs)(s[j].attrs) :: conf.column in s[j].pos
    requires !d.persisted ==> d.id !in s && Position(d.rec, conf.column).None?
    requires d.persisted && d.id in s ==> Position(d.rec, conf.column) == Position(s[d.id], conf.column)
    requires d.persisted ==> !ScopeChanged(s, LegacyScope(conf, d.rec.attrs), d.id)
    ensures var o := LegacyApply(conf, target, d, s);
            o.error.None? ==>
              && conf.column in o.doc.pos
              && Dense(Members(Saved(o, d.id), LegacyScope(conf, d.rec.attrs), conf.column), conf.base)
  {
    var o := LegacyApply(conf, target, d, s);
    var f := conf.column;
    var scope := LegacyScope(conf, d.rec.attrs);
    var ms := Members(s, scope, f);
    var p := Position(d.rec, f);
    assert p.Some? <==> d.id in ms;
    if target.None? && p.Some? {
      MembersOfUpdate(s, scope, f, d.id, d.rec);
      assert Members(Saved(o, d.id), scope, f) == ms;
    } else {
      LegacyBottomWithoutNil(s, scope, f, conf.base, p.Some?);
      var r := LegacyTargetPosition(target, conf.base, LegacyBottom(s, scope, f, conf.base, p.Some?), p);
      if r.Ok? {
        BottomOfDense(s, scope, f, conf.base, p.Some?);
        assert o == PlaceAt(EmbeddedHandler, conf, d, s, scope, p, r.value);
        PlaceKeepsDense(EmbeddedHandler, conf, d, s, scope, p, r.value);
      }
    }
  }

  /**
   * With no nil position in the new scope, the save after `apply_position`
   * leaves that scope dense, whatever the target; a record that is not
   * persisted has no position yet. Embedded records never leave a scope
   * here, so an embedded record is taken to stay in its own.
   */
  lemma LegacyKeepsScopeDense(conf: FieldConf, target: Option<Target>, d: DocState, s: Store)
    requires LegacyScope(conf, d.rec.attrs)(d.rec.attrs)
    requires Dense(Members(s, LegacyScope(conf, d.rec.attrs), conf.column), conf.base)
    requires forall j | j in s && LegacyScope(conf, d.rec.attrs)(s[j].attrs) :: conf.column in s[j].pos
    requires !d.persisted ==> d.id !in s && Position(d.rec, conf.column).None?
    requires d.persisted && d.id in s ==> Position(d.rec, conf.column) == Position(s[d.id], conf.column)
    requires d.persisted && d.embedded ==> !ScopeChanged(s, LegacyScope(conf, d.rec.attrs), d.id)
    requires LegacyLeaves(conf, d, s) && d.id in s ==> Separate(LegacyScope(conf, s[d.id].attrs), LegacyScope(conf, d.rec.attrs))
    ensures var o := LegacyApply(conf, target, d, s);
            o.error.None? ==>
              && conf.column in o.doc.pos
              && Dense(Members(Saved(o, d.id), LegacyScope(conf, d.rec.attrs), conf.column), conf.base)
  {
    if LegacyLeaves(conf, d, s) {
      if d.id in s {
        LegacyLeavingKeepsScopeDense(conf, target, d, s);
      }
    } else {
      LegacyStayingKeepsScopeDense(conf, target, d, s);
    }
  }

  /** The old scope the stored copy leaves stays dense once the record is saved elsewhere. */
  lemma LegacyKeepsOldScopeDense(conf: FieldConf, target: Option<Target>, d: DocState, s: Store)
    requires LegacyLeaves(conf, d, s) && d.id in s
    requires LegacyScope(conf, d.rec.attrs)(d.rec.attrs) && LegacyScope(conf, s[d.id].attrs)(s[d.id].attrs)
    requires Separate(LegacyScope(conf, s[d.id].attrs), LegacyScope(conf, d.rec.attrs))
    requires Dense(Members(s, LegacyScope(conf, s[d.id].attrs), conf.column), conf.base)
    ensures var o := LegacyApply(conf, target, d, s);
            o.error.None? ==> Dense(Members(Saved(o, d.id), LegacyScope(conf, s[d.id].attrs), conf.column), conf.base)
  {
    var o := LegacyApply(conf, target, d, s);
    var f := conf.column;
    var scope := LegacyScope(conf, d.rec.attrs);
    var oldScope := LegacyScope(conf, s[d.id].attrs);
    var ps := Members(s, oldScope, f);
    var p := Position(s[d.id], f);
    var s1 := CloseGap(s, oldScope, f, p);
    var r1 := WithPosition(d.rec, f, None);
    var r := LegacyTargetPosition(target, conf.base, LegacyBottom(s1, scope, f, conf.base, false), None);
    if r.Ok? {
      assert o == PlaceAt(EmbeddedHandler, conf, d.(rec := r1), s1, scope, None, r.value);
      PlaceLeavesOtherScope(EmbeddedHandler, conf, d.(rec := r1), s1, scope, oldScope, None, r.value);
      MembersOfCloseGap(s, oldScope, f, p);
      ClosedGapDense(ps, conf.base, d.id, p);
    }
  }

  /** A document of the oldest code: its one orderable column, and the pending target `@move_to`. */
  class LegacyDocument {
    const id: Id
    const embedded: bool
    const conf: FieldConf
    const coll: Collection
    var rec: Rec
    var persisted: bool
    /** `@move_to`: set by the movable methods and never cleared, so a later save applies it again. */
    var moveTo: Option<Target>

    constructor(id: Id, embedded: bool, conf: FieldConf, coll: Collection, rec: Rec, persisted: bool)
      ensures this.id == id && this.embedded == embedded && this.conf == conf && this.coll == coll
      ensures this.rec == rec && this.persisted == persisted && moveTo.None?
    {
      this.id := id;
      this.embedded := embedded;
      this.conf := conf;
      this.coll := coll;
      this.rec := rec;
      this.persisted := persisted;
      this.moveTo := None;
    }

    function State(): DocState
      reads this
    {
      DocState(id, rec, persisted, !persisted, embedded, {}, map[], false)
    }

    /** `move_to` (also `insert_at` and `move_to=`): records the target without saving. */
    method MoveTo(target: Option<Target>)
      modifies this
      ensures moveTo == target && rec == old(rec) && persisted == old(persisted)
    {
      moveTo := target;
    }

    method MoveToTop()
      modifies this
      ensures moveTo == Some(TSym("top")) && rec == old(rec) && persisted == old(persisted)
    {
      MoveTo(Some(TSym("top")));
    }

    method MoveToBottom()
      modifies this
      ensures moveTo == Some(TSym("bottom")) && rec == old(rec) && persisted == old(persisted)
    {
      MoveTo(Some(TSym("bottom")));
    }

    method MoveHigher()
      modifies this
      ensures moveTo == Some(TSym("higher")) && rec == old(rec) && persisted == old(persisted)
    {
      MoveTo(Some(TSym("higher")));
    }

    method MoveLower()
      modifies this
      ensures moveTo == Some(TSym("lower")) && rec == old(rec) && persisted == old(persisted)
    {
      MoveTo(Some(TSym("lower")));
    }

    /** `remove_from_list`, the `after_destroy` hook: the members of its scope above its in-memory position move up one. */
    method RemoveFromList()
      modifies coll
      ensures coll.records == CloseGap(old(coll.records), LegacyScope(conf, rec.attrs), conf.column, Position(rec, conf.column))
    {
      var p := Position(rec, conf.column);
      if p.Some? {
        coll.Inc(LegacyScope(conf, rec.attrs), conf.column, Window(p.value + 1, None), -1);
      }
    }

    /** The scope-change step of `apply_position`: the stored copy's gap closes, and the record to go on with has no position. */
    method LeaveOldList(d: DocState) returns (left: Result<Rec, Error>)
      requires d.id == id
      modifies coll
      ensures var l := LegacyLeave(conf, d, old(coll.records));
              if l.Ok? then left == Ok(l.value.1) && coll.records == l.value.0
              else left == Err(l.error) && coll.records == old(coll.records)
    {
      if d.persisted && !d.embedded && ScopeChanged(coll.records, LegacyScope(conf, d.rec.attrs), id) {
        var existing := coll.Find(id);
        if existing.Err? {
          return Err(existing.error);
        }
        var q := Position(existing.value, conf.column);
        if q.Some? {
          coll.Inc(LegacyScope(conf, existing.value.attrs), conf.column, Window(q.value + 1, None), -1);
        }
        return Ok(WithPosition(d.rec, conf.column, None));
      }
      return Ok(d.rec);
    }

    /** `apply_position(target)`. */
    method ApplyPosition(target: Option<Target>) returns (err: Option<Error>)
      modifies this, coll
      ensures var o := LegacyApply(conf, target, old(State()), old(coll.records));
              coll.records == o.store && rec == o.doc && err == o.error
      ensures persisted == old(persisted) && moveTo == old(moveTo)
    {
      var f := conf.column;
      var d := State();
      var scope := LegacyScope(conf, d.rec.attrs);
      var left := LeaveOldList(d);
      if left.Err? {
        return Some(left.error);
      }
      var r1 := left.value;
      var p := Position(r1, f);
      if target.None? && LegacyInList(p) {
        rec := r1;
        return None;
      }
      var r := LegacyTargetPosition(target, conf.base, LegacyBottom(coll.records, scope, f, conf.base, LegacyInList(p)), p);
      if r.Err? {
        rec := r1;
        return Some(r.error);
      }
      ShiftSiblings(coll, scope, f, p, r.value);
      rec := WithPosition(r1, f, Some(r.value));
      return None;
    }

    /** `add_to_list`, the `before_save` hook: `apply_position(@move_to)`. */
    method AddToList() returns (err: Option<Error>)
      modifies this, coll
      ensures var o := LegacyApply(conf, old(moveTo), old(State()), old(coll.records));
              coll.records == o.store && rec == o.doc && err == o.error
      ensures persisted == old(persisted) && moveTo == old(moveTo)
    {
      err := ApplyPosition(moveTo);
    }

    /**
     * `save`: the `before_save` hook, then the write. An exception from the
     * hook stops the save, but the writes it made stay: there is no
     * transaction.
     */
    method Save() returns (err: Option<Error>)
      modifies this, coll
      ensures var o := LegacyApply(conf, old(moveTo), old(State()), old(coll.records));
              && rec == o.doc && err == o.error
              && (err.None? ==> coll.records == Saved(o, id) && persisted)
              && (err.Some? ==> coll.records == o.store && persisted == old(persisted))
      ensures moveTo == old(moveTo)
    {
      err := AddToList();
      if err.None? {
        coll.Write(id, rec);
        persisted := true;
      }
    }

    /** `move_to!` (also `insert_at!`, and the `!` shorthands with their keyword): records the target and saves. */
    method MoveToAndSave(target: Option<Target>) returns (err: Option<Error>)
      modifies this, coll
      ensures var o := LegacyApply(conf, target, old(State()), old(coll.records));
              && rec == o.doc && err == o.error
              && (err.None? ==> coll.records == Saved(o, id) && persisted)
              && (err.Some? ==> coll.records == o.store && persisted == old(persisted))
      ensures moveTo == target
    {
      MoveTo(target);
      err := Save();
    }
  }
}
