/**
 * The callbacks mixin's version of the positioning hooks: the target is
 * resolved first, each field reports whether the stored record changed
 * scope, every field is applied inside one transaction, and the save runs
 * inside it exactly when some field reported a scope change.
 */
module MixinCallbacks {
  import opened Wrappers
  import opened Records
  import opened Shifting
  import opened Scopes
  import opened Resolver
  import opened Helpers
  import opened Collections
  import opened Documents
  import opened Positioning
  import opened Placement
  import opened Handlers
  import opened Listable

  /** The effect of `orderable_apply_one_position`, and the flag it returns: whether the save must run in the transaction. */
  datatype Applied = Applied(outcome: Outcome, scopeChanged: bool)

  /** The current position: nil after a scope change, the stored value for a persisted top-level record, the in-memory one otherwise. */
  function MixinCurrent(d: DocState, s: Store, f: Field, scopeChanged: bool): Option<int> {
    if scopeChanged then None
    else if d.persisted && !d.embedded then StoredPosition(s, d.id, f)
    else Position(d.rec, f)
  }

  /**
   * Leaving the old scope: for a persisted top-level record whose scope
   * changed, `find(_id)` and the stored copy's own gap close, with no
   * `allowed?` check. This is the engine's step.
   */
  function MixinLeave(conf: FieldConf, d: DocState, s: Store, scopeChanged: bool): (r: Result<Store, Error>)
    ensures r == LeaveOldScope(EngineFlavor(true), conf, d, s, scopeChanged)
  {
    if d.persisted && !d.embedded && scopeChanged then
      if d.id in s then Ok(CloseGap(s, ScopeOf(conf, s[d.id].attrs), conf.column, Position(s[d.id], conf.column)))
      else Err(DocumentNotFound(d.id))
    else Ok(s)
  }

  /**
   * Shifting the siblings, `set(col => target)` of the position alone for
   * a persisted record, and the in-memory assignment. Once the record is
   * saved the set is overwritten, so the collection is the one the
   * embedded handler's placement leaves.
   */
  function MixinPlace(conf: FieldConf, d: DocState, s: Store, scope: Scope, current: Option<int>, t: int): (o: Outcome)
    ensures o.error.None? && o.doc == WithPosition(d.rec, conf.column, Some(t))
    ensures o.store.Keys == s.Keys
    ensures Saved(o, d.id) == Saved(PlaceAt(EmbeddedHandler, conf, d, s, scope, current, t), d.id)
  {
    var s2 := Shift(s, scope, conf.column, current, t);
    SetThenOverwrite(s2, d.id, conf.column, t, map[], WithPosition(d.rec, conf.column, Some(t)));
    Outcome(if d.persisted then SetPosition(s2, d.id, conf.column, t, map[]) else s2,
            WithPosition(d.rec, conf.column, Some(t)), None)
  }

  /**
   * `orderable_apply_one_position(column, target)`, with the bottom taken
   * as if the record were in the list exactly when `bottomInList`. The
   * target is resolved before anything is read back or written; a record
   * in the list with no target is left alone; otherwise the stored copy
   * leaves its old scope, the new scope is shifted and the record placed.
   */
  function MixinApplyWith(conf: FieldConf, target: Option<Target>, d: DocState, s: Store, bottomInList: bool): (a: Applied)
    ensures InvalidTarget(target, Position(d.rec, conf.column)) ==>
              a == Applied(Outcome(s, d.rec, Some(TargetError(target, Position(d.rec, conf.column)))), false)
    ensures !InvalidTarget(target, Position(d.rec, conf.column)) && a.outcome.error.Some? ==>
              a.outcome.error == Some(DocumentNotFound(d.id))
    ensures a.outcome.error.Some? ==> a.outcome.store == s && a.outcome.doc == d.rec && !a.scopeChanged
    ensures a.outcome.error.None? ==> a.scopeChanged == (d.persisted && ScopeChanged(s, ScopeOf(conf, d.rec.attrs), d.id))
    ensures a.outcome.store.Keys == s.Keys
    ensures a.outcome.doc == d.rec || a.outcome.doc == WithPosition(d.rec, conf.column, Position(a.outcome.doc, conf.column))
  {
    var f := conf.column;
    var scope := ScopeOf(conf, d.rec.attrs);
    match Resolve(target, conf.base, Bottom(s, scope, f, conf.base, bottomInList), Position(d.rec, f))
    case Err(e) => Applied(Outcome(s, d.rec, Some(e)), false)
    case Ok(t) =>
      var sc := ScopeChanged(s, scope, d.id);
      var current := MixinCurrent(d, s, f, sc);
      var inList := d.persisted && current.Some?;
      if inList && target.None? then Applied(Outcome(s, d.rec, None), false)
      else
        match MixinLeave(conf, d, s, sc)
        case Err(e) => Applied(Outcome(s, d.rec, Some(e)), false)
        case Ok(s1) => Applied(MixinPlace(conf, d, s1, scope, if inList then current else None, t), d.persisted && sc)
  }

  /** As written: the bottom comes from `in_list?`, which looks at the in-memory position even after a scope change. */
  function MixinApplyOne(conf: FieldConf, target: Option<Target>, d: DocState, s: Store): Applied {
    MixinApplyWith(conf, target, d, s, InList(d.persisted, Position(d.rec, conf.column)))
  }

  /** Corrected: the bottom counts the record as in the list exactly when the shift does. */
  function MixinApplyOneCorrected(conf: FieldConf, target: Option<Target>, d: DocState, s: Store): Applied {
    var sc := ScopeChanged(s, ScopeOf(conf, d.rec.attrs), d.id);
    MixinApplyWith(conf, target, d, s, d.persisted && MixinCurrent(d, s, conf.column, sc).Some?)
  }

  /**
   * `orderable_keys.map { |column| orderable_apply_one_position(column, move_all[column]) }.any?`:
   * every field in order, each seeing the record as the previous one left
   * it, until one raises; the flag is whether any field reported a change.
   */
  function MixinFields(m: Model, ks: seq<Field>, d: DocState, s: Store): (a: Applied)
    requires Configured(m, ks)
    ensures a.outcome.store.Keys == s.Keys
    ensures a.outcome.doc.attrs == d.rec.attrs
    ensures forall g | g !in Columns(m, ks) :: Position(a.outcome.doc, g) == Position(d.rec, g)
    decreases |ks|
  {
    if ks == [] then Applied(Outcome(s, d.rec, None), false)
    else
      var prefix := ks[..|ks| - 1];
      assert Configured(m, prefix);
      var a := MixinFields(m, prefix, d, s);
      var k := ks[|ks| - 1];
      if a.outcome.error.Some? then a
      else
        var b := MixinApplyOneCorrected(m.configs[k], PendingTarget(d, k), d.(rec := a.outcome.doc), a.outcome.store);
        Applied(b.outcome, a.scopeChanged || b.scopeChanged)
  }

  /** One more field of the fold. */
  lemma MixinFieldsStep(m: Model, ks: seq<Field>, i: nat, d: DocState, s: Store)
    requires Configured(m, ks) && i < |ks|
    ensures Configured(m, ks[..i]) && Configured(m, ks[..i + 1])
    ensures var a := MixinFields(m, ks[..i], d, s);
            MixinFields(m, ks[..i + 1], d, s) ==
              if a.outcome.error.Some? then a
              else
                var b := MixinApplyOneCorrected(m.configs[ks[i]], PendingTarget(d, ks[i]), d.(rec := a.outcome.doc), a.outcome.store);
                Applied(b.outcome, a.scopeChanged || b.scopeChanged)
  {
    assert ks[..i + 1][..i] == ks[..i];
  }

  /** Once a field raises, the fields after it are not applied. */
  lemma {:induction false} MixinFieldsStopsAtError(m: Model, ks: seq<Field>, i: nat, d: DocState, s: Store)
    requires Configured(m, ks) && i <= |ks|
    requires MixinFields(m, ks[..i], d, s).outcome.error.Some?
    ensures MixinFields(m, ks, d, s) == MixinFields(m, ks[..i], d, s)
    decreases |ks|
  {
    if i < |ks| {
      var prefix := ks[..|ks| - 1];
      assert prefix[..i] == ks[..i];
      MixinFieldsStopsAtError(m, prefix, i, d, s);
    } else {
      assert ks[..i] == ks;
    }
  }

  /**
   * Outside a scope change the two bottoms agree: a persisted record that
   * stayed in its scope has its stored position in memory, so `in_list?`
   * and the current position say the same.
   */
  lemma MixinVersionsAgreeWithoutScopeChange(conf: FieldConf, target: Option<Target>, d: DocState, s: Store)
    requires d.persisted && d.id in s ==> Position(d.rec, conf.column) == Position(s[d.id], conf.column)
    requires !d.persisted || !ScopeChanged(s, ScopeOf(conf, d.rec.attrs), d.id) || Position(d.rec, conf.column).None?
    ensures MixinApplyOne(conf, target, d, s) == MixinApplyOneCorrected(conf, target, d, s)
  {
  }

  /**
   * A persisted top-level record whose stored copy is in another scope,
   * saved with no target, lands at the bottom the resolver was given, and
   * the scope change is reported.
   */
  lemma MixinMoveLandsAtBottom(conf: FieldConf, d: DocState, s: Store, bottomInList: bool)
    requires d.persisted && !d.embedded && d.id in s
    requires !ScopeOf(conf, d.rec.attrs)(s[d.id].attrs)
    requires conf.base <= Bottom(s, ScopeOf(conf, d.rec.attrs), conf.column, conf.base, bottomInList)
    ensures var a := MixinApplyWith(conf, None, d, s, bottomInList);
            var b := Bottom(s, ScopeOf(conf, d.rec.attrs), conf.column, conf.base, bottomInList);
            a.outcome.error.None? && a.scopeChanged && a.outcome.doc == WithPosition(d.rec, conf.column, Some(b))
  {
    var scope := ScopeOf(conf, d.rec.attrs);
    var b := Bottom(s, scope, conf.column, conf.base, bottomInList);
    assert Resolve(None, conf.base, b, Position(d.rec, conf.column)) == Ok(b);
    assert ScopeChanged(s, scope, d.id);
    assert MixinCurrent(d, s, conf.column, true).None?;
    assert MixinLeave(conf, d, s, true).Ok?;
  }

  /**
   * A persisted top-level record that moves to a dense scope with `n > 0`
   * members and no target: the corrected version puts it at the bottom,
   * `base + n`, one past every member, and reports the scope change.
   */
  lemma MixinCorrectedMovesToBottom(conf: FieldConf, d: DocState, s: Store)
    requires d.persisted && !d.embedded && d.id in s
    requires !ScopeOf(conf, d.rec.attrs)(s[d.id].attrs)
    requires Dense(Members(s, ScopeOf(conf, d.rec.attrs), conf.column), conf.base)
    requires Members(s, ScopeOf(conf, d.rec.attrs), conf.column) != map[]
    ensures var a := MixinApplyOneCorrected(conf, None, d, s);
            var n := |Members(s, ScopeOf(conf, d.rec.attrs), conf.column)|;
            && a.outcome.error.None? && a.scopeChanged
            && a.outcome.doc == WithPosition(d.rec, conf.column, Some(conf.base + n))
  {
    var scope := ScopeOf(conf, d.rec.attrs);
    assert ScopeChanged(s, scope, d.id);
    assert MixinApplyOneCorrected(conf, None, d, s) == MixinApplyWith(conf, None, d, s, false);
    BottomOfDense(s, scope, conf.column, conf.base, false);
    MixinMoveLandsAtBottom(conf, d, s, false);
  }

  /**
   * The same move as written: when the record had a position in memory,
   * `in_list?` holds, the bottom is the highest position `base + n - 1`,
   * and the record lands there, above the scope's last member.
   */
  lemma MixinAsWrittenStopsShortOfBottom(conf: FieldConf, d: DocState, s: Store)
    requires d.persisted && !d.embedded && d.id in s
    requires !ScopeOf(conf, d.rec.attrs)(s[d.id].attrs)
    requires Position(d.rec, conf.column).Some?
    requires Dense(Members(s, ScopeOf(conf, d.rec.attrs), conf.column), conf.base)
    requires Members(s, ScopeOf(conf, d.rec.attrs), conf.column) != map[]
    ensures var a := MixinApplyOne(conf, None, d, s);
            var n := |Members(s, ScopeOf(conf, d.rec.attrs), conf.column)|;
            && a.outcome.error.None? && a.scopeChanged
            && a.outcome.doc == WithPosition(d.rec, conf.column, Some(conf.base + n - 1))
  {
    var scope := ScopeOf(conf, d.rec.attrs);
    MixinAsWrittenInList(conf, None, d, s);
    BottomOfDense(s, scope, conf.column, conf.base, true);
    MixinMoveLandsAtBottom(conf, d, s, true);
  }

  /** As written, a persisted record with a position in memory takes the bottom as in the list. */
  lemma MixinAsWrittenInList(conf: FieldConf, target: Option<Target>, d: DocState, s: Store)
    requires d.persisted && Position(d.rec, conf.column).Some?
    ensures MixinApplyOne(conf, target, d, s) == MixinApplyWith(conf, target, d, s, true)
  {
  }

  /**
   * The record counts as in the list exactly when it is a member of its
   * scope in the collection, at its stored position; an embedded record's
   * current position is the in-memory one, which must then be the stored one.
   */
  lemma MixinCurrentMatchesMembership(conf: FieldConf, d: DocState, s: Store)
    requires !d.persisted ==> d.id !in s
    requires d.persisted && d.embedded && d.id in s ==> Position(d.rec, conf.column) == Position(s[d.id], conf.column)
    ensures var scope := ScopeOf(conf, d.rec.attrs);
            var ms := Members(s, scope, conf.column);
            var current := MixinCurrent(d, s, conf.column, ScopeChanged(s, scope, d.id));
            && (d.persisted && current.Some? <==> d.id in ms)
            && (d.id in ms ==> current == Some(ms[d.id]))
  {
  }

  /**
   * The new scope stays dense once the record is saved, whatever the
   * target, in either version: all it takes is that the bottom counts the
   * record as in the list whenever the shift does. A top-level record's
   * current position is read back from the collection, so a position
   * assigned to it in memory only matters when there is no target and the
   * save writes it as it is.
   */
  lemma MixinKeepsScopeDense(conf: FieldConf, target: Option<Target>, d: DocState, s: Store, bottomInList: bool)
    requires ScopeOf(conf, d.rec.attrs)(d.rec.attrs)
    requires Dense(Members(s, ScopeOf(conf, d.rec.attrs), conf.column), conf.base)
    requires !d.persisted ==> d.id !in s
    requires (target.None? || d.embedded) && d.persisted && d.id in s ==>
               Position(d.rec, conf.column) == Position(s[d.id], conf.column)
    requires d.persisted && !d.embedded && d.id in s && ScopeChanged(s, ScopeOf(conf, d.rec.attrs), d.id) ==>
               Separate(ScopeOf(conf, s[d.id].attrs), ScopeOf(conf, d.rec.attrs))
    requires d.persisted && MixinCurrent(d, s, conf.column, ScopeChanged(s, ScopeOf(conf, d.rec.attrs), d.id)).Some? ==> bottomInList
    ensures var a := MixinApplyWith(conf, target, d, s, bottomInList);
            a.outcome.error.None? ==>
              && conf.column in a.outcome.doc.pos
              && Dense(Members(Saved(a.outcome, d.id), ScopeOf(conf, d.rec.attrs), conf.column), conf.base)
  {
    var a := MixinApplyWith(conf, target, d, s, bottomInList);
    var f := conf.column;
    var scope := ScopeOf(conf, d.rec.attrs);
    var ms := Members(s, scope, f);
    var sc := ScopeChanged(s, scope, d.id);
    var current := MixinCurrent(d, s, f, sc);
    var inList := d.persisted && current.Some?;
    var b := Bottom(s, scope, f, conf.base, bottomInList);
    var r := Resolve(target, conf.base, b, Position(d.rec, f));
    if r.Ok? {
      if inList && target.None? {
        MixinCurrentMatchesMembership(conf, d, s);
        assert a.outcome == Outcome(s, d.rec, None);
        MembersOfUpdate(s, scope, f, d.id, d.rec);
        assert Members(Saved(a.outcome, d.id), scope, f) == ms;
      } else {
        MixinMoveKeepsScopeDense(conf, target, d, s, bottomInList, r.value);
      }
    }
  }

  /** The branch of the above that shifts the siblings and places the record at the resolved target `t`. */
  lemma MixinMoveKeepsScopeDense(conf: FieldConf, target: Option<Target>, d: DocState, s: Store, bottomInList: bool, t: int)
    requires ScopeOf(conf, d.rec.attrs)(d.rec.attrs)
    requires Dense(Members(s, ScopeOf(conf, d.rec.attrs), conf.column), conf.base)
    requires !d.persisted ==> d.id !in s
    requires d.embedded && d.persisted && d.id in s ==> Position(d.rec, conf.column) == Position(s[d.id], conf.column)
    requires d.persisted && !d.embedded && d.id in s && ScopeChanged(s, ScopeOf(conf, d.rec.attrs), d.id) ==>
               Separate(ScopeOf(conf, s[d.id].attrs), ScopeOf(conf, d.rec.attrs))
    requires d.persisted && MixinCurrent(d, s, conf.column, ScopeChanged(s, ScopeOf(conf, d.rec.attrs), d.id)).Some? ==>
               bottomInList && target.Some?
    requires Resolve(target, conf.base, Bottom(s, ScopeOf(conf, d.rec.attrs), conf.column, conf.base, bottomInList), Position(d.rec, conf.column)) == Ok(t)
    ensures var a := MixinApplyWith(conf, target, d, s, bottomInList);
            a.outcome.error.None? ==>
              && conf.column in a.outcome.doc.pos
              && Dense(Members(Saved(a.outcome, d.id), ScopeOf(conf, d.rec.attrs), conf.column), conf.base)
  {
    var a := MixinApplyWith(conf, target, d, s, bottomInList);
    var f := conf.column;
    var scope := ScopeOf(conf, d.rec.attrs);
    var sc := ScopeChanged(s, scope, d.id);
    var current := MixinCurrent(d, s, f, sc);
    var inList := d.persisted && current.Some?;
    MixinCurrentMatchesMembership(conf, d, s);
    var leave := MixinLeave(conf, d, s, sc);
    if leave.Ok? {
      var s1 := leave.value;
      LeaveKeepsOtherScope(EngineFlavor(true), conf, d, s, sc, s1);
      BottomOfDense(s, scope, f, conf.base, bottomInList);
      var c := if inList then current else None;
      assert a.outcome == MixinPlace(conf, d, s1, scope, c, t);
      PlaceKeepsDense(EmbeddedHandler, conf, d, s1, scope, c, t);
    }
  }

  /** A persisted record whose scope changed leaves its old scope, then is placed at the resolved target as a newcomer. */
  lemma MixinApplyOnScopeChange(conf: FieldConf, target: Option<Target>, d: DocState, s: Store, bottomInList: bool, t: int)
    requires d.persisted && !d.embedded && d.id in s
    requires ScopeOf(conf, d.rec.attrs)(d.rec.attrs) && ScopeOf(conf, s[d.id].attrs)(s[d.id].attrs)
    requires Separate(ScopeOf(conf, s[d.id].attrs), ScopeOf(conf, d.rec.attrs))
    requires Resolve(target, conf.base, Bottom(s, ScopeOf(conf, d.rec.attrs), conf.column, conf.base, bottomInList), Position(d.rec, conf.column)) == Ok(t)
    ensures MixinApplyWith(conf, target, d, s, bottomInList).outcome ==
              MixinPlace(conf, d, CloseGap(s, ScopeOf(conf, s[d.id].attrs), conf.column, Position(s[d.id], conf.column)),
                         ScopeOf(conf, d.rec.attrs), None, t)
  {
    var scope := ScopeOf(conf, d.rec.attrs);
    assert ScopeChanged(s, scope, d.id);
    assert MixinCurrent(d, s, conf.column, true) == None;
  }

  /**
   * When the stored copy leaves its old scope, that scope stays dense: its
   * members above the record move up one and the saved record is no longer
   * among them.
   */
  lemma MixinKeepsOldScopeDense(conf: FieldConf, target: Option<Target>, d: DocState, s: Store, bottomInList: bool)
    requires d.persisted && !d.embedded && d.id in s
    requires ScopeOf(conf, d.rec.attrs)(d.rec.attrs) && ScopeOf(conf, s[d.id].attrs)(s[d.id].attrs)
    requires Separate(ScopeOf(conf, s[d.id].attrs), ScopeOf(conf, d.rec.attrs))
    requires Dense(Members(s, ScopeOf(conf, s[d.id].attrs), conf.column), conf.base)
    ensures var a := MixinApplyWith(conf, target, d, s, bottomInList);
            a.outcome.error.None? ==> Dense(Members(Saved(a.outcome, d.id), ScopeOf(conf, s[d.id].attrs), conf.column), conf.base)
  {
    var a := MixinApplyWith(conf, target, d, s, bottomInList);
    var f := conf.column;
    var scope := ScopeOf(conf, d.rec.attrs);
    var oldScope := ScopeOf(conf, s[d.id].attrs);
    var ps := Members(s, oldScope, f);
    var p := Position(s[d.id], f);
    var s1 := CloseGap(s, oldScope, f, p);
    var r := Resolve(target, conf.base, Bottom(s, scope, f, conf.base, bottomInList), Position(d.rec, f));
    if r.Ok? {
      MixinApplyOnScopeChange(conf, target, d, s, bottomInList, r.value);
      PlaceLeavesOtherScope(EmbeddedHandler, conf, d, s1, scope, oldScope, None, r.value);
      MembersOfCloseGap(s, oldScope, f, p);
      ClosedGapDense(ps, conf.base, d.id, p);
    } else {
      assert a.outcome.error.Some?;
    }
  }

  /** Group 1 holds records 1 and 2 at positions 1 and 2; record 3 is alone in group 2. */
  function TwoGroups(): Store {
    map[1 := Rec(map["group_id" := VInt(1)], map["position" := 1]), 2 := Rec(map["group_id" := VInt(1)], map["position" := 2]),
        3 := Rec(map["group_id" := VInt(2)], map["position" := 1])]
  }

  /** `orderable scope: :group`, counting from 1. */
  function GroupConf(): FieldConf {
    FieldConf("position", 1, SymbolScope("group_id"), None, None, true, None)
  }

  /** Record 3 after `update_attributes group_id: 1`, before its save. */
  function MovedToGroupOne(): DocState {
    DocState(3, Rec(map["group_id" := VInt(1)], map["position" := 1]), true, false, false, {"group_id"}, map[], false)
  }

  /** Group 1's members: records 1 and 2 at positions 1 and 2. */
  lemma GroupOneMembers()
    ensures Members(TwoGroups(), ScopeOf(GroupConf(), map["group_id" := VInt(1)]), "position") == map[1 := 1, 2 := 2]
  {
    var s := TwoGroups();
    var scope := ScopeOf(GroupConf(), map["group_id" := VInt(1)]);
    assert scope(s[1].attrs) && scope(s[2].attrs) && !scope(s[3].attrs);
    var ms := Members(s, scope, "position");
    assert ms.Keys == {1, 2};
  }

  /** The move meets the conditions of both bottom lemmas, with two members in the new scope. */
  lemma GroupMoveConditions()
    ensures var d := MovedToGroupOne();
            var ms := Members(TwoGroups(), ScopeOf(GroupConf(), d.rec.attrs), "position");
            && d.id in TwoGroups() && !ScopeOf(GroupConf(), d.rec.attrs)(TwoGroups()[d.id].attrs)
            && Dense(ms, 1) && ms != map[] && |ms| == 2
  {
    GroupOneMembers();
    assert |map[1 := 1, 2 := 2]| == 2;
  }

  /** As written, record 3 lands at 2, below the group's last member. */
  lemma MixinScopeMoveCounterexample()
    ensures Position(MixinApplyOne(GroupConf(), None, MovedToGroupOne(), TwoGroups()).outcome.doc, "position") == Some(2)
  {
    GroupMoveConditions();
    MixinAsWrittenStopsShortOfBottom(GroupConf(), MovedToGroupOne(), TwoGroups());
  }

  /** Corrected, record 3 lands at 3, the bottom of group 1, as the scope movement example expects. */
  lemma MixinScopeMoveCorrected()
    ensures Position(MixinApplyOneCorrected(GroupConf(), None, MovedToGroupOne(), TwoGroups()).outcome.doc, "position") == Some(3)
  {
    GroupMoveConditions();
    MixinCorrectedMovesToBottom(GroupConf(), MovedToGroupOne(), TwoGroups());
  }

  /** The mixin's hooks on one document of an orderable class. */
  class Hooks {
    const doc: Document
    const coll: Collection
    const model: Model

    constructor(doc: Document, coll: Collection, model: Model)
      ensures this.doc == doc && this.coll == coll && this.model == model
    {
      this.doc := doc;
      this.coll := coll;
      this.model := model;
    }

    /** The current position: nil after a scope change, plucked from the collection for a persisted top-level record, the in-memory one otherwise. */
    method CurrentPosition(d: DocState, f: Field, scopeChanged: bool) returns (current: Option<int>)
      ensures current == MixinCurrent(d, coll.records, f, scopeChanged)
    {
      if scopeChanged {
        current := None;
      } else if d.persisted && !d.embedded {
        current := coll.PluckPosition(d.id, f);
      } else {
        current := Position(d.rec, f);
      }
    }

    /** `self.class.unscoped.find(_id).orderable_remove_one_position(column)` for a persisted top-level record whose scope changed. */
    method LeaveOldScopeOf(conf: FieldConf, d: DocState, scopeChanged: bool) returns (err: Option<Error>)
      modifies coll
      ensures var r := MixinLeave(conf, d, old(coll.records), scopeChanged);
              if r.Ok? then err.None? && coll.records == r.value
              else err == Some(r.error) && coll.records == old(coll.records)
    {
      err := None;
      if d.persisted && !d.embedded && scopeChanged {
        var existing := coll.Find(d.id);
        if existing.Err? {
          return Some(existing.error);
        }
        CloseGapAt(coll, conf, existing.value);
      }
    }

    /** The shift, `set(col => target) if persisted?`, and the in-memory assignment. */
    method PlaceRecord(conf: FieldConf, d: DocState, scope: Scope, current: Option<int>, t: int)
      requires d.id == doc.id && d.rec == doc.rec && d.persisted == doc.persisted
      modifies doc, coll
      ensures var o := MixinPlace(conf, d, old(coll.records), scope, current, t);
              coll.records == o.store && doc.rec == o.doc
      ensures doc.Flags() == old(doc.Flags())
    {
      ShiftSiblings(coll, scope, conf.column, current, t);
      if doc.persisted {
        coll.Set(doc.id, conf.column, t, map[]);
      }
      doc.rec := WithPosition(doc.rec, conf.column, Some(t));
    }

    /**
     * `orderable_apply_one_position(column, target)`, with the bottom
     * counting the record as in the list exactly when the shift does. The
     * scope check and the current position are reads, taken before the
     * target is resolved; nothing is written before it.
     */
    method ApplyOnePosition(k: Field, target: Option<Target>) returns (err: Option<Error>, scopeChanged: bool)
      requires Configured(model, model.keys) && k in model.configs
      modifies doc, coll
      ensures var a := MixinApplyOneCorrected(model.configs[k], target, old(doc.State()), old(coll.records));
              coll.records == a.outcome.store && doc.rec == a.outcome.doc && err == a.outcome.error && scopeChanged == a.scopeChanged
      ensures doc.Flags() == old(doc.Flags())
    {
      var conf := model.configs[k];
      var d := doc.State();
      var f := conf.column;
      var scope := ScopeOf(conf, d.rec.attrs);
      var sc := ScopeChanged(coll.records, scope, d.id);
      var current := CurrentPosition(d, f, sc);
      var inList := d.persisted && current.Some?;
      var r := Resolve(target, conf.base, Bottom(coll.records, scope, f, conf.base, inList), Position(d.rec, f));
      if r.Err? {
        return Some(r.error), false;
      }
      if inList && target.None? {
        return None, false;
      }
      err := LeaveOldScopeOf(conf, d, sc);
      if err.Some? {
        return err, false;
      }
      PlaceRecord(conf, d, scope, if inList then current else None, r.value);
      return None, d.persisted && sc;
    }

    /** One field of the map, once the earlier ones raised nothing; `any` accumulates the flags. */
    method ApplyNextPosition(ks: seq<Field>, i: nat, ghost d0: DocState, ghost s0: Store, anyBefore: bool) returns (err: Option<Error>, any: bool)
      requires ks == model.keys && Configured(model, ks) && i < |ks|
      requires var a := MixinFields(model, ks[..i], d0, s0);
               coll.records == a.outcome.store && doc.rec == a.outcome.doc && a.outcome.error.None? && anyBefore == a.scopeChanged
      requires doc.State() == d0.(rec := doc.rec)
      modifies doc, coll
      ensures var a := MixinFields(model, ks[..i + 1], d0, s0);
              coll.records == a.outcome.store && doc.rec == a.outcome.doc && err == a.outcome.error && any == a.scopeChanged
      ensures err.Some? ==> MixinFields(model, ks, d0, s0) == MixinFields(model, ks[..i + 1], d0, s0)
      ensures doc.Flags() == old(doc.Flags())
    {
      var target := PendingTarget(doc.State(), ks[i]);
      MixinFieldsStep(model, ks, i, d0, s0);
      var changed;
      err, changed := ApplyOnePosition(ks[i], target);
      any := anyBefore || changed;
      if err.Some? {
        MixinFieldsStopsAtError(model, ks, i + 1, d0, s0);
      }
    }

    /** `orderable_keys.map { ... }.any?`: every field in order until one raises, and whether any reported a scope change. */
    method ApplyEachPosition() returns (err: Option<Error>, any: bool)
      requires Configured(model, model.keys)
      modifies doc, coll
      ensures var a := MixinFields(model, model.keys, old(doc.State()), old(coll.records));
              coll.records == a.outcome.store && doc.rec == a.outcome.doc && err == a.outcome.error && any == a.scopeChanged
      ensures doc.Flags() == old(doc.Flags())
    {
      ghost var d0 := doc.State();
      ghost var s0 := coll.records;
      var ks := model.keys;
      var i := 0;
      err, any := None, false;
      while i < |ks|
        invariant 0 <= i <= |ks|
        invariant Configured(model, ks[..i])
        invariant var a := MixinFields(model, ks[..i], d0, s0);
                  coll.records == a.outcome.store && doc.rec == a.outcome.doc && err == a.outcome.error && any == a.scopeChanged
        invariant doc.Flags() == old(doc.Flags()) && doc.State() == d0.(rec := doc.rec)
        invariant err.None?
      {
        err, any := ApplyNextPosition(ks, i, d0, s0, any);
        i := i + 1;
        if err.Some? {
          return;
        }
      }
      assert ks[..i] == ks;
    }

    /** The save block: the record is written and becomes persisted and clean. */
    method Persist()
      modifies doc, coll
      ensures coll.records == old(coll.records)[doc.id := doc.rec]
      ensures doc.rec == old(doc.rec) && doc.persisted && !doc.newRecord && doc.dirty == {}
      ensures doc.moveAllVar == old(doc.moveAllVar) && doc.rootDestroyed == old(doc.rootDestroyed)
    {
      coll.Write(doc.id, doc.rec);
      doc.persisted := true;
      doc.newRecord := false;
      doc.dirty := {};
    }

    /**
     * `orderable_apply_positions { save }`: every field is applied inside
     * the transaction (`use_transactions` is always true here); an exception
     * aborts it, discarding its writes, and skips the save. Otherwise the
     * save runs inside the transaction when some field reported a scope
     * change, and after it commits when none did.
     */
    method ApplyPositions() returns (err: Option<Error>, savedInTransaction: bool)
      requires Configured(model, model.keys)
      modifies doc, coll
      ensures var a := MixinFields(model, model.keys, old(doc.State()), old(coll.records));
              && doc.rec == a.outcome.doc && err == a.outcome.error
              && (err.Some? ==> coll.records == old(coll.records) && !savedInTransaction && doc.Flags() == old(doc.Flags()))
              && (err.None? ==> coll.records == Saved(a.outcome, doc.id) && savedInTransaction == a.scopeChanged)
      ensures err.None? ==> doc.persisted && !doc.newRecord && doc.dirty == {}
      ensures doc.moveAllVar == old(doc.moveAllVar) && doc.rootDestroyed == old(doc.rootDestroyed)
    {
      var snapshot := coll.records;
      var any;
      err, any := ApplyEachPosition();
      if err.Some? {
        coll.Rollback(snapshot);
        return err, false;
      }
      Persist();
      savedInTransaction := any;
    }

    /** `orderable_remove_one_position(column)`: the gap above the in-memory position closes, with no `allowed?` check. */
    method RemoveOnePosition(k: Field)
      requires Configured(model, model.keys) && k in model.configs
      modifies coll
      ensures coll.records == RemoveOne(EngineFlavor(true), model.configs[k], doc.rec, old(coll.records))
    {
      CloseGapAt(coll, model.configs[k], doc.rec);
    }

    /** `orderable_remove_positions`, the `after_destroy` hook: every field's gap, in order. */
    method RemovePositions()
      requires Configured(model, model.keys)
      modifies coll
      ensures coll.records == RemoveFields(EngineFlavor(true), model, model.keys, doc.rec, old(coll.records))
    {
      ghost var s0 := coll.records;
      var ks := model.keys;
      var i := 0;
      while i < |ks|
        invariant 0 <= i <= |ks|
        invariant Configured(model, ks[..i])
        invariant coll.records == RemoveFields(EngineFlavor(true), model, ks[..i], doc.rec, s0)
      {
        RemoveFieldsStep(EngineFlavor(true), model, ks, i, doc.rec, s0);
        RemoveOnePosition(ks[i]);
        i := i + 1;
      }
      assert ks[..i] == ks;
    }
  }
}
