/**
 * What one `apply_one_position` followed by the save does to a scope: the
 * new scope stays dense whatever the target, the old scope stays dense when
 * the target was checked first, and the as-written order can leave a
 * duplicate behind in the old scope.
 */
module Placement {
  import opened Wrappers
  import opened Records
  import opened Shifting
  import opened Scopes
  import opened Resolver
  import opened Helpers
  import opened Collections
  import opened Documents
  import opened Positioning
  import opened Handlers

  /**
   * What the handlers rely on about the stored copy: an unpersisted record
   * is not stored yet, and a record the handler takes for new has no
   * stored position (the transactional create clears it before the first
   * write).
   */
  ghost predicate StoreSynced(fl: Flavor, f: Field, d: DocState, s: Store) {
    && (!d.persisted ==> d.id !in s)
    && (NewRecord(fl, d) && d.id in s ==> f !in s[d.id].pos)
  }

  /** A stored persisted record holds its stored position in memory: no position was assigned to it directly. */
  ghost predicate PositionSynced(f: Field, d: DocState, s: Store) {
    d.persisted && d.id in s ==> Position(d.rec, f) == Position(s[d.id], f)
  }

  /**
   * Whether the current position of a persisted record is its stored one
   * (read back with `pluck`, or the base handler's last-saved
   * `orderable_position_was` for an embedded record) rather than the
   * position the record holds in memory.
   */
  predicate ReadsStoredPosition(fl: Flavor, d: DocState) {
    fl.BaseHandler? || (fl.EngineFlavor? && !d.embedded)
  }

  /** Two scopes no record belongs to at once. */
  ghost predicate Separate(a: Scope, b: Scope) {
    forall x :: !(a(x) && b(x))
  }

  /** The collection after the save that follows the callback. */
  function Saved(o: Outcome, id: Id): Store {
    o.store[id := o.doc]
  }

  /** Members of a scope depend only on the records the scope holds, when no record changes its attributes. */
  lemma MembersAgree(s: Store, t: Store, scope: Scope, f: Field)
    requires s.Keys == t.Keys
    requires forall j | j in s :: t[j].attrs == s[j].attrs
    requires forall j | j in s && scope(s[j].attrs) :: t[j] == s[j]
    ensures Members(t, scope, f) == Members(s, scope, f)
  {
    var a := Members(t, scope, f);
    var b := Members(s, scope, f);
    assert forall j :: j in a <==> j in b;
    forall j | j in a ensures a[j] == b[j] {
      assert t[j] == s[j];
    }
  }

  /** Overwriting a record hides whatever an atomic `set` wrote to it. */
  lemma SetThenOverwrite(s: Store, id: Id, f: Field, t: int, h: map<Key, Option<Val>>, r: Rec)
    ensures SetPosition(s, id, f, t, h)[id := r] == s[id := r]
  {
    var a := SetPosition(s, id, f, t, h)[id := r];
    var b := s[id := r];
    assert a.Keys == b.Keys;
    forall j | j in a ensures a[j] == b[j] {
    }
  }

  /** Closing the gap of a member, or of a record that was not in the list, and dropping it leaves a dense scope dense. */
  lemma ClosedGapDense(ps: map<Id, int>, base: int, id: Id, p: Option<int>)
    requires Dense(ps, base)
    requires p.Some? ==> id in ps && p.value == ps[id]
    requires p.None? ==> id !in ps
    ensures CloseGapPositions(ps, p) - {id} == CloseGapPositions(ps - {id}, p)
    ensures Dense(CloseGapPositions(ps, p) - {id}, base)
  {
    assert CloseGapPositions(ps, p) - {id} == CloseGapPositions(ps - {id}, p);
    if p.Some? {
      RemoveKeepsDense(ps, base, id);
    } else {
      assert ps - {id} == ps;
    }
  }

  /** Leaving the old scope changes nothing in a scope separate from it. */
  lemma LeaveKeepsOtherScope(fl: Flavor, conf: FieldConf, d: DocState, s: Store, sc: bool, s1: Store)
    requires LeaveOldScope(fl, conf, d, s, sc) == Ok(s1)
    requires ClosesOldScope(fl, d, sc) && d.id in s ==>
               Separate(ScopeOf(conf, s[d.id].attrs), ScopeOf(conf, d.rec.attrs))
    ensures Members(s1, ScopeOf(conf, d.rec.attrs), conf.column) == Members(s, ScopeOf(conf, d.rec.attrs), conf.column)
  {
    var scope := ScopeOf(conf, d.rec.attrs);
    if ClosesOldScope(fl, d, sc) {
      assert d.id in s;
      var old_ := ScopeOf(conf, s[d.id].attrs);
      assert s1 == RemoveOne(fl, conf, s[d.id], s);
      forall j | j in s && scope(s[j].attrs) ensures s1[j] == s[j] {
        assert !old_(s[j].attrs);
      }
      MembersAgree(s, s1, scope, conf.column);
    }
  }

  /**
   * The record counts as in the list exactly when it is a member of its
   * scope in the collection, and its current position is then its stored
   * one; where the current position is taken from memory this needs the
   * in-memory position to be the stored one.
   */
  lemma CurrentMatchesMembership(fl: Flavor, conf: FieldConf, d: DocState, s: Store)
    requires StoreSynced(fl, conf.column, d, s)
    requires !ReadsStoredPosition(fl, d) ==> PositionSynced(conf.column, d, s)
    ensures var scope := ScopeOf(conf, d.rec.attrs);
            var ms := Members(s, scope, conf.column);
            var current := Current(fl, d, s, conf.column, ScopeChanged(s, scope, d.id));
            && (d.persisted && current.Some? <==> d.id in ms)
            && (d.id in ms ==> current == Some(ms[d.id]))
  {
  }

  /**
   * Shifting the siblings and saving the record at `t` keeps a dense scope
   * dense: an insertion at any of `base .. base + n`, a move of a member to
   * any of `base .. base + n - 1`.
   */
  /** Saving after `PlaceAt` stores the shifted siblings and the record at `t`; the atomic set is overwritten. */
  lemma SavedPlaceAt(fl: Flavor, conf: FieldConf, d: DocState, s: Store, scope: Scope, c: Option<int>, t: int)
    ensures Saved(PlaceAt(fl, conf, d, s, scope, c, t), d.id)
         == Shift(s, scope, conf.column, c, t)[d.id := WithPosition(d.rec, conf.column, Some(t))]
  {
    if AtomicSet(fl, d) {
      SetThenOverwrite(Shift(s, scope, conf.column, c, t), d.id, conf.column, t, ChangedScopeHash(conf, d),
                       WithPosition(d.rec, conf.column, Some(t)));
    }
  }

  lemma PlaceKeepsDense(fl: Flavor, conf: FieldConf, d: DocState, s: Store, scope: Scope, c: Option<int>, t: int)
    requires scope(d.rec.attrs)
    requires Dense(Members(s, scope, conf.column), conf.base)
    requires c.None? ==> d.id !in Members(s, scope, conf.column)
    requires c.Some? ==> d.id in Members(s, scope, conf.column) && c.value == Members(s, scope, conf.column)[d.id]
    requires conf.base <= t <= conf.base + |Members(s, scope, conf.column)| - (if c.Some? then 1 else 0)
    ensures Dense(Members(Saved(PlaceAt(fl, conf, d, s, scope, c, t), d.id), scope, conf.column), conf.base)
    ensures Members(Saved(PlaceAt(fl, conf, d, s, scope, c, t), d.id), scope, conf.column).Keys
         == Members(s, scope, conf.column).Keys + {d.id}
  {
    var f := conf.column;
    var ms := Members(s, scope, f);
    var s2 := Shift(s, scope, f, c, t);
    var doc' := WithPosition(d.rec, f, Some(t));
    var o := PlaceAt(fl, conf, d, s, scope, c, t);
    SavedPlaceAt(fl, conf, d, s, scope, c, t);
    MembersOfShift(s, scope, f, c, t);
    MembersOfUpdate(s2, scope, f, d.id, doc');
    var qs := ShiftPositions(ms, c, t)[d.id := t];
    assert Members(Saved(o, d.id), scope, f) == qs;
    if c.Some? {
      MoveKeepsDense(ms, conf.base, d.id, t);
    } else {
      InsertKeepsDense(ms, conf.base, d.id, t);
    }
  }

  /**
   * Changing the positions of one scope and then saving the record keeps
   * that scope dense, whatever the flavour and the target: an insertion
   * lands in `base .. base + n`, a move in `base .. base + n - 1`, and
   * an early return leaves the record where it is.
   */
  lemma ApplyKeepsScopeDense(fl: Flavor, conf: FieldConf, k: Field, target: Option<Target>, d: DocState, s: Store)
    requires Gate(fl, conf, k, d)
    requires ScopeOf(conf, d.rec.attrs)(d.rec.attrs)
    requires Dense(Members(s, ScopeOf(conf, d.rec.attrs), conf.column), conf.base)
    requires StoreSynced(fl, conf.column, d, s)
    requires target.None? || !ReadsStoredPosition(fl, d) ==> PositionSynced(conf.column, d, s)
    requires ClosesOldScope(fl, d, ScopeChanged(s, ScopeOf(conf, d.rec.attrs), d.id)) && d.id in s ==>
               Separate(ScopeOf(conf, s[d.id].attrs), ScopeOf(conf, d.rec.attrs))
    ensures var o := ApplyOne(fl, conf, k, target, d, s);
            o.error.None? ==>
              && conf.column in o.doc.pos
              && Dense(Members(Saved(o, d.id), ScopeOf(conf, d.rec.attrs), conf.column), conf.base)
  {
    var o := ApplyOne(fl, conf, k, target, d, s);
    var f := conf.column;
    var scope := ScopeOf(conf, d.rec.attrs);
    var ms := Members(s, scope, f);
    var sc := ScopeChanged(s, scope, d.id);
    var current := Current(fl, d, s, f, sc);
    var leave := LeaveOldScope(fl, conf, d, s, sc);
    if leave.Ok? {
      var s1 := leave.value;
      LeaveKeepsOtherScope(fl, conf, d, s, sc, s1);
      CurrentMatchesMembership(fl, conf, d, s);
      var inList := d.persisted && current.Some?;
      if inList && target.None? {
        assert o == Outcome(s1, d.rec, None);
        MembersOfUpdate(s1, scope, f, d.id, d.rec);
        assert Members(Saved(o, d.id), scope, f) == ms;
      } else {
        var b := Bottom(s1, scope, f, conf.base, inList);
        var r := Resolve(target, conf.base, b, Position(d.rec, f));
        if r.Ok? {
          BottomOfDense(s1, scope, f, conf.base, inList);
          var c := if inList then current else None;
          assert o == PlaceAt(fl, conf, d, s1, scope, c, r.value);
          PlaceKeepsDense(fl, conf, d, s1, scope, c, r.value);
        }
      }
    }
  }

  /** Placing a record in its scope and saving it takes it out of every scope separate from that one, and changes no other member there. */
  lemma PlaceLeavesOtherScope(fl: Flavor, conf: FieldConf, d: DocState, s: Store, scope: Scope, other: Scope, c: Option<int>, t: int)
    requires scope(d.rec.attrs) && Separate(other, scope)
    ensures Members(Saved(PlaceAt(fl, conf, d, s, scope, c, t), d.id), other, conf.column)
         == Members(s, other, conf.column) - {d.id}
  {
    var f := conf.column;
    var s2 := Shift(s, scope, f, c, t);
    var doc' := WithPosition(d.rec, f, Some(t));
    var o := PlaceAt(fl, conf, d, s, scope, c, t);
    SavedPlaceAt(fl, conf, d, s, scope, c, t);
    forall j | j in s && other(s[j].attrs) ensures s2[j] == s[j] {
      assert !scope(s[j].attrs);
    }
    MembersAgree(s, s2, other, f);
    MembersOfUpdate(s2, other, f, d.id, doc');
    assert !other(doc'.attrs);
  }

  /**
   * When the stored copy leaves its old scope, that scope stays dense: the
   * members after the record move up one and the saved record is no
   * longer among them.
   */
  lemma ApplyKeepsOldScopeDense(fl: Flavor, conf: FieldConf, k: Field, target: Option<Target>, d: DocState, s: Store)
    requires Gate(fl, conf, k, d)
    requires d.id in s && ClosesOldScope(fl, d, ScopeChanged(s, ScopeOf(conf, d.rec.attrs), d.id))
    requires fl.BaseHandler? ==> Allowed(conf, s[d.id])
    requires ScopeOf(conf, d.rec.attrs)(d.rec.attrs) && ScopeOf(conf, s[d.id].attrs)(s[d.id].attrs)
    requires Separate(ScopeOf(conf, s[d.id].attrs), ScopeOf(conf, d.rec.attrs))
    requires Dense(Members(s, ScopeOf(conf, s[d.id].attrs), conf.column), conf.base)
    ensures var o := ApplyOne(fl, conf, k, target, d, s);
            o.error.None? ==> Dense(Members(Saved(o, d.id), ScopeOf(conf, s[d.id].attrs), conf.column), conf.base)
  {
    var o := ApplyOne(fl, conf, k, target, d, s);
    var f := conf.column;
    var scope := ScopeOf(conf, d.rec.attrs);
    var oldScope := ScopeOf(conf, s[d.id].attrs);
    var ps := Members(s, oldScope, f);
    var sc := ScopeChanged(s, scope, d.id);
    var p := Position(s[d.id], f);
    var s1 := CloseGap(s, oldScope, f, p);
    assert LeaveOldScope(fl, conf, d, s, sc) == Ok(s1);
    assert Current(fl, d, s, f, sc).None?;
    var r := Resolve(target, conf.base, Bottom(s1, scope, f, conf.base, false), Position(d.rec, f));
    if r.Ok? {
      assert o == PlaceAt(fl, conf, d, s1, scope, None, r.value);
      PlaceLeavesOtherScope(fl, conf, d, s1, scope, oldScope, None, r.value);
      MembersOfCloseGap(s, oldScope, f, p);
      ClosedGapDense(ps, conf.base, d.id, p);
    }
  }

  /** With the target checked first, a valid move keeps both scopes dense, and an invalid one writes nothing. */
  lemma CheckedApplyKeepsScopesDense(fl: Flavor, conf: FieldConf, k: Field, target: Option<Target>, d: DocState, s: Store)
    requires Gate(fl, conf, k, d)
    requires ScopeOf(conf, d.rec.attrs)(d.rec.attrs)
    requires Dense(Members(s, ScopeOf(conf, d.rec.attrs), conf.column), conf.base)
    requires StoreSynced(fl, conf.column, d, s)
    requires target.None? || !ReadsStoredPosition(fl, d) ==> PositionSynced(conf.column, d, s)
    requires d.id in s && ClosesOldScope(fl, d, ScopeChanged(s, ScopeOf(conf, d.rec.attrs), d.id))
    requires fl.BaseHandler? ==> Allowed(conf, s[d.id])
    requires ScopeOf(conf, s[d.id].attrs)(s[d.id].attrs)
    requires Separate(ScopeOf(conf, s[d.id].attrs), ScopeOf(conf, d.rec.attrs))
    requires Dense(Members(s, ScopeOf(conf, s[d.id].attrs), conf.column), conf.base)
    ensures var o := ApplyOneChecked(fl, conf, k, target, d, s);
            && (o.error.None? ==>
                  && Dense(Members(Saved(o, d.id), ScopeOf(conf, d.rec.attrs), conf.column), conf.base)
                  && Dense(Members(Saved(o, d.id), ScopeOf(conf, s[d.id].attrs), conf.column), conf.base))
            && (o.error.Some? ==> o.store == s)
  {
    ApplyKeepsScopeDense(fl, conf, k, target, d, s);
    ApplyKeepsOldScopeDense(fl, conf, k, target, d, s);
  }

  /** Records 1, 2 and 3 of group 1 at positions 1, 2 and 3. */
  function ThreeInGroup(): (s: Store)
    ensures s.Keys == {1, 2, 3}
    ensures forall j | j in s :: s[j].attrs == map["group" := VInt(1)] && s[j].pos == map["position" := j]
  {
    var g := map["group" := VInt(1)];
    map[1 := Rec(g, map["position" := 1]), 2 := Rec(g, map["position" := 2]), 3 := Rec(g, map["position" := 3])]
  }

  /** Record 3 with 1 assigned to its position in memory and no target recorded. */
  function ThirdAssignedFirst(): (d: DocState)
    ensures d.id == 3 && d.persisted && !d.newRecord && !d.embedded && d.moveAll == map[]
    ensures d.rec == Rec(map["group" := VInt(1)], map["position" := 1]) && "position" in d.dirty
  {
    DocState(3, Rec(map["group" := VInt(1)], map["position" := 1]), true, false, false, {"position"}, map[], false)
  }

  /**
   * A position assigned directly to a stored record (record 3 of 1, 2, 3
   * set to 1, no target recorded): the record is in the list and has no
   * target, so nothing moves, and the save writes 1 next to record 1's 1.
   */
  lemma DirectAssignmentLeavesDuplicate()
    ensures var conf := FieldConf("position", 1, SymbolScope("group"), None, None, false, None);
            var s := ThreeInGroup();
            var o := ApplyOne(BaseHandler(false, false), conf, "position", None, ThirdAssignedFirst(), s);
            && o.error.None? && o.store == s
            && Saved(o, 3)[1].pos["position"] == 1 && Saved(o, 3)[3].pos["position"] == 1
            && !Dense(Members(Saved(o, 3), ScopeOf(conf, map["group" := VInt(1)]), "position"), 1)
  {
    var conf := FieldConf("position", 1, SymbolScope("group"), None, None, false, None);
    var s := ThreeInGroup();
    var d := ThirdAssignedFirst();
    var fl := BaseHandler(false, false);
    var scope := ScopeOf(conf, d.rec.attrs);
    assert Gate(fl, conf, "position", d);
    assert !ScopeChanged(s, scope, 3);
    assert Current(fl, d, s, "position", false) == Some(3);
    var o := ApplyOne(fl, conf, "position", None, d, s);
    assert o == Outcome(s, d.rec, None);
    var ms := Members(Saved(o, 3), scope, "position");
    assert 1 in ms && 3 in ms && ms[1] == ms[3];
  }

  /**
   * The same record with its assigned position as the target, as
   * `set_target_positions` would record it: records 1 and 2 move down to
   * 2 and 3 and record 3 is saved at 1.
   */
  lemma AssignedTargetReorders()
    ensures var conf := FieldConf("position", 1, SymbolScope("group"), None, None, false, None);
            var c := ApplyOne(BaseHandler(false, false), conf, "position", Some(TInt(1)), ThirdAssignedFirst(), ThreeInGroup());
            && c.error.None?
            && Saved(c, 3)[1].pos["position"] == 2 && Saved(c, 3)[2].pos["position"] == 3
            && Saved(c, 3)[3].pos["position"] == 1
  {
    AssignedTargetIsMove();
    MoveOfThirdToFirst();
  }

  /** The call above is a move of record 3 from its stored 3 to 1. */
  lemma AssignedTargetIsMove()
    ensures var conf := FieldConf("position", 1, SymbolScope("group"), None, None, false, None);
            ApplyOne(BaseHandler(false, false), conf, "position", Some(TInt(1)), ThirdAssignedFirst(), ThreeInGroup())
              == PlaceAt(BaseHandler(false, false), conf, ThirdAssignedFirst(), ThreeInGroup(), ScopeOf(conf, map["group" := VInt(1)]), Some(3), 1)
  {
    var conf := FieldConf("position", 1, SymbolScope("group"), None, None, false, None);
    var s := ThreeInGroup();
    var d := ThirdAssignedFirst();
    var fl := BaseHandler(false, false);
    var scope := ScopeOf(conf, d.rec.attrs);
    assert Gate(fl, conf, "position", d);
    assert !ScopeChanged(s, scope, 3);
    assert Current(fl, d, s, "position", false) == Some(3);
    assert Members(s, scope, "position") == map[1 := 1, 2 := 2, 3 := 3];
    BottomOfDense(s, scope, "position", 1, true);
    assert Resolve(Some(TInt(1)), 1, 3, Some(1)) == Ok(1);
  }

  /** Moving record 3 from 3 to 1 and saving it: records 1 and 2 move down one. */
  lemma MoveOfThirdToFirst()
    ensures var conf := FieldConf("position", 1, SymbolScope("group"), None, None, false, None);
            var fl := BaseHandler(false, false);
            var c := PlaceAt(fl, conf, ThirdAssignedFirst(), ThreeInGroup(), ScopeOf(conf, map["group" := VInt(1)]), Some(3), 1);
            && Saved(c, 3)[1].pos["position"] == 2 && Saved(c, 3)[2].pos["position"] == 3
            && Saved(c, 3)[3].pos["position"] == 1
  {
    var conf := FieldConf("position", 1, SymbolScope("group"), None, None, false, None);
    var s := ThreeInGroup();
    var d := ThirdAssignedFirst();
    var scope := ScopeOf(conf, d.rec.attrs);
    var s2 := Shift(s, scope, "position", Some(3), 1);
    assert scope(s[1].attrs) && scope(s[2].attrs);
    assert s2[1].pos["position"] == 2 && s2[2].pos["position"] == 3;
  }

  /**
   * A persisted record whose position was assigned in memory keeps its
   * scope dense once that position is its target, which is what
   * `set_target_positions` makes of it: the handler reads the current
   * position back from the collection, so the assigned value only says
   * where the record goes.
   */
  lemma AssignedTargetKeepsScopeDense(fl: Flavor, m: Model, k: Field, pending: map<Field, Option<Target>>, d: DocState, s: Store)
    requires Configured(m, m.keys) && k in m.keys
    requires Gate(fl, m.configs[k], k, d) && ReadsStoredPosition(fl, d)
    requires Position(d.rec, m.configs[k].column).Some?
    requires ScopeOf(m.configs[k], d.rec.attrs)(d.rec.attrs)
    requires Dense(Members(s, ScopeOf(m.configs[k], d.rec.attrs), m.configs[k].column), m.configs[k].base)
    requires StoreSynced(fl, m.configs[k].column, d, s)
    requires ClosesOldScope(fl, d, ScopeChanged(s, ScopeOf(m.configs[k], d.rec.attrs), d.id)) && d.id in s ==>
               Separate(ScopeOf(m.configs[k], s[d.id].attrs), ScopeOf(m.configs[k], d.rec.attrs))
    ensures var conf := m.configs[k];
            var p := FilledTargets(m, m.keys, d.rec, pending);
            var o := ApplyOne(fl, conf, k, p[k], d, s);
            && p[k].Some?
            && (o.error.None? ==> Dense(Members(Saved(o, d.id), ScopeOf(conf, d.rec.attrs), conf.column), conf.base))
  {
    var p := FilledTargets(m, m.keys, d.rec, pending);
    assert k in p;
    ApplyKeepsScopeDense(fl, m.configs[k], k, p[k], d, s);
  }

  /**
   * A record new to the handler, with no pending move, goes to the bottom:
   * one past the scope's highest position, or the top in an empty scope
   * (when the positions in use are not below the top).
   */
  lemma CreateGoesToBottom(fl: Flavor, conf: FieldConf, k: Field, d: DocState, s: Store)
    requires NewRecord(fl, d) && (!d.persisted || fl.BaseHandler?)
    requires fl.BaseHandler? ==> Allowed(conf, d.rec)
    requires d.persisted ==> d.id in s && s[d.id].attrs == d.rec.attrs
    requires ScopeOf(conf, d.rec.attrs)(d.rec.attrs)
    ensures var b := Bottom(s, ScopeOf(conf, d.rec.attrs), conf.column, conf.base, false);
            var o := ApplyOneChecked(fl, conf, k, None, d, s);
            conf.base <= b ==>
              && o == PlaceAt(fl, conf, d, s, ScopeOf(conf, d.rec.attrs), None, b)
              && o.error.None?
              && o.doc == WithPosition(d.rec, conf.column, Some(b))
  {
    var b := Bottom(s, ScopeOf(conf, d.rec.attrs), conf.column, conf.base, false);
    assert Gate(fl, conf, k, d);
    assert !InvalidTarget(None, Position(d.rec, conf.column));
    assert !ClosesOldScope(fl, d, ScopeChanged(s, ScopeOf(conf, d.rec.attrs), d.id));
    if conf.base <= b {
      assert Resolve(None, conf.base, b, Position(d.rec, conf.column)) == Ok(b);
    }
  }

  /**
   * Moving record 1 of group 1 (positions 1, 2, 3) to group 2 with the
   * unknown target "four": the as-written order closes the gap in group 1
   * and then raises, leaving records 1 and 2 of group 1 both at position 1
   * in the collection; the checked order raises with the collection as it was.
   */
  lemma InvalidTargetAfterScopeChangeLeavesDuplicate()
    ensures var conf := FieldConf("position", 1, SymbolScope("group"), None, None, false, None);
            var g1 := map["group" := VInt(1)];
            var s := map[1 := Rec(g1, map["position" := 1]), 2 := Rec(g1, map["position" := 2]), 3 := Rec(g1, map["position" := 3])];
            var d := DocState(1, Rec(map["group" := VInt(2)], map["position" := 1]), true, false, false,
                              {"group"}, map["position" := Some(TStr("four"))], false);
            var fl := BaseHandler(false, false);
            var o := ApplyOne(fl, conf, "position", Some(TStr("four")), d, s);
            var c := ApplyOneChecked(fl, conf, "position", Some(TStr("four")), d, s);
            && o.error == Some(InvalidTargetPosition(TStr("four")))
            && o.store[1] == s[1] && o.store[2].pos["position"] == 1
            && !Dense(Members(o.store, ScopeOf(conf, g1), "position"), 1)
            && c.error == o.error && c.store == s
  {
    var conf := FieldConf("position", 1, SymbolScope("group"), None, None, false, None);
    var g1 := map["group" := VInt(1)];
    var s := map[1 := Rec(g1, map["position" := 1]), 2 := Rec(g1, map["position" := 2]), 3 := Rec(g1, map["position" := 3])];
    var d := DocState(1, Rec(map["group" := VInt(2)], map["position" := 1]), true, false, false,
                      {"group"}, map["position" := Some(TStr("four"))], false);
    var fl := BaseHandler(false, false);
    var target := Some(TStr("four"));
    LetterFirstIsNotDigitPattern("four");
    assert InvalidTarget(target, Some(1)) && !NeedsPosition(target) && !DigitSymbol(target);
    assert Gate(fl, conf, "position", d);
    var scope := ScopeOf(conf, d.rec.attrs);
    var oldScope := ScopeOf(conf, g1);
    assert ScopeChanged(s, scope, 1);
    var s1 := CloseGap(s, oldScope, "position", Some(1));
    assert LeaveOldScope(fl, conf, d, s, true) == Ok(s1);
    var o := ApplyOne(fl, conf, "position", target, d, s);
    assert o == Outcome(s1, d.rec, Some(InvalidTargetPosition(TStr("four"))));
    assert oldScope(s[2].attrs) && oldScope(s[1].attrs);
    var ms := Members(s1, oldScope, "position");
    assert 1 in ms && 2 in ms && ms[1] == ms[2];
  }

  /** A removal for one column leaves the members of every other column as they were. */
  lemma RemoveOneKeepsOtherColumns(fl: Flavor, conf: FieldConf, r: Rec, s: Store, scope: Scope, g: Field)
    requires g != conf.column
    ensures Members(RemoveOne(fl, conf, r, s), scope, g) == Members(s, scope, g)
  {
    var t := RemoveOne(fl, conf, r, s);
    var a := Members(t, scope, g);
    var b := Members(s, scope, g);
    assert forall j :: j in a <==> j in b;
    forall j | j in a ensures a[j] == b[j] {
    }
  }

  /**
   * `after_destroy` for one field: the record has left the collection and
   * the members after it move up one, so its scope stays dense.
   */
  lemma DestroyKeepsDense(fl: Flavor, conf: FieldConf, r: Rec, id: Id, s: Store)
    requires id in s && s[id] == r
    requires fl.BaseHandler? ==> Allowed(conf, r)
    requires ScopeOf(conf, r.attrs)(r.attrs)
    requires Dense(Members(s, ScopeOf(conf, r.attrs), conf.column), conf.base)
    ensures Dense(Members(RemoveOne(fl, conf, r, s - {id}), ScopeOf(conf, r.attrs), conf.column), conf.base)
  {
    var scope := ScopeOf(conf, r.attrs);
    var f := conf.column;
    var ps := Members(s, scope, f);
    MembersOfRemoval(s, scope, f, id);
    MembersOfCloseGap(s - {id}, scope, f, Position(r, f));
    ClosedGapDense(ps, conf.base, id, Position(r, f));
  }

  /** No two of the fields share a column. */
  predicate DistinctColumns(m: Model, ks: seq<Field>)
    requires Configured(m, ks)
  {
    forall i, j | 0 <= i < j < |ks| :: m.configs[ks[i]].column != m.configs[ks[j]].column
  }

  lemma {:induction false} RemoveFieldsKeepsOtherColumns(fl: Flavor, m: Model, ks: seq<Field>, r: Rec, s: Store, scope: Scope, g: Field)
    requires Configured(m, ks) && g !in Columns(m, ks)
    ensures Members(RemoveFields(fl, m, ks, r, s), scope, g) == Members(s, scope, g)
    decreases |ks|
  {
    if ks != [] {
      var prefix := ks[..|ks| - 1];
      assert Configured(m, prefix);
      var k := ks[|ks| - 1];
      assert m.configs[k].column != g;
      forall i | 0 <= i < |prefix| ensures m.configs[prefix[i]].column != g {
        assert ks[i] == prefix[i];
      }
      RemoveFieldsKeepsOtherColumns(fl, m, prefix, r, s, scope, g);
      RemoveOneKeepsOtherColumns(fl, m.configs[k], r, RemoveFields(fl, m, prefix, r, s), scope, g);
    }
  }

  /** The record's own scope of field `k` is dense, and the record is positioned and removed there. */
  ghost predicate RemovableFrom(fl: Flavor, conf: FieldConf, r: Rec, s: Store) {
    && (fl.BaseHandler? ==> Allowed(conf, r))
    && ScopeOf(conf, r.attrs)(r.attrs)
    && Dense(Members(s, ScopeOf(conf, r.attrs), conf.column), conf.base)
  }

  /** The field removed last finds its scope as the destroy left it, and closes its gap there. */
  lemma LastFieldDense(fl: Flavor, m: Model, prefix: seq<Field>, last: FieldConf, r: Rec, id: Id, s: Store)
    requires Configured(m, prefix)
    requires forall j | 0 <= j < |prefix| :: m.configs[prefix[j]].column != last.column
    requires id in s && s[id] == r
    requires RemovableFrom(fl, last, r, s)
    ensures Dense(Members(RemoveOne(fl, last, r, RemoveFields(fl, m, prefix, r, s - {id})), ScopeOf(last, r.attrs), last.column), last.base)
  {
    var scope := ScopeOf(last, r.attrs);
    var t := RemoveFields(fl, m, prefix, r, s - {id});
    RemoveFieldsKeepsOtherColumns(fl, m, prefix, r, s - {id}, scope, last.column);
    MembersOfRemoval(s, scope, last.column, id);
    MembersOfCloseGap(t, scope, last.column, Position(r, last.column));
    ClosedGapDense(Members(s, scope, last.column), last.base, id, Position(r, last.column));
  }

  /**
   * `remove_all_positions` after a destroy keeps the record's scope of
   * every field dense, when no two fields share a column.
   */
  lemma {:induction false} DestroyKeepsEveryFieldDense(fl: Flavor, m: Model, ks: seq<Field>, r: Rec, id: Id, s: Store)
    requires Configured(m, ks) && DistinctColumns(m, ks)
    requires id in s && s[id] == r
    requires forall i | 0 <= i < |ks| :: RemovableFrom(fl, m.configs[ks[i]], r, s)
    ensures forall i | 0 <= i < |ks| ::
              var c := m.configs[ks[i]];
              Dense(Members(RemoveFields(fl, m, ks, r, s - {id}), ScopeOf(c, r.attrs), c.column), c.base)
    decreases |ks|
  {
    if ks != [] {
      var n := |ks| - 1;
      var prefix := ks[..n];
      assert Configured(m, prefix);
      assert DistinctColumns(m, prefix) by {
        forall i, j | 0 <= i < j < |prefix| ensures m.configs[prefix[i]].column != m.configs[prefix[j]].column {
          assert prefix[i] == ks[i] && prefix[j] == ks[j];
        }
      }
      forall i | 0 <= i < |prefix| ensures RemovableFrom(fl, m.configs[prefix[i]], r, s) {
        assert prefix[i] == ks[i];
      }
      DestroyKeepsEveryFieldDense(fl, m, prefix, r, id, s);
      var last := m.configs[ks[n]];
      var t := RemoveFields(fl, m, prefix, r, s - {id});
      assert RemoveFields(fl, m, ks, r, s - {id}) == RemoveOne(fl, last, r, t);
      forall i | 0 <= i < |ks|
        ensures var c := m.configs[ks[i]];
                Dense(Members(RemoveFields(fl, m, ks, r, s - {id}), ScopeOf(c, r.attrs), c.column), c.base)
      {
        var c := m.configs[ks[i]];
        var scope := ScopeOf(c, r.attrs);
        if i == n {
          forall j | 0 <= j < |prefix| ensures m.configs[prefix[j]].column != last.column {
            assert prefix[j] == ks[j];
          }
          LastFieldDense(fl, m, prefix, last, r, id, s);
        } else {
          assert prefix[i] == ks[i];
          RemoveOneKeepsOtherColumns(fl, last, r, t, scope, c.column);
        }
      }
    }
  }
}
