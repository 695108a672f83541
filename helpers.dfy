/**
 * Queries over one scope that the positioning code asks before it moves
 * anything: the bottom position, whether the record's scope changed, and
 * which orderable field a call without an explicit column refers to.
 */
module Helpers {
  import opened Wrappers
  import opened Records

  lemma NonEmptySetHasElement(vs: set<int>)
    requires vs != {}
    ensures exists x :: x in vs
  {
    if forall x :: x !in vs { assert false; }
  }

  lemma {:induction false} HasMaximum(vs: set<int>)
    requires vs != {}
    ensures exists m :: m in vs && forall v | v in vs :: v <= m
  {
    NonEmptySetHasElement(vs);
    var x :| x in vs;
    var rest := vs - {x};
    if rest == {} {
      forall v | v in vs ensures v <= x { assert v !in rest; }
    } else {
      HasMaximum(rest);
      var r :| r in rest && forall v | v in rest :: v <= r;
      var m := if x > r then x else r;
      forall v | v in vs ensures v <= m { if v != x { assert v in rest; } }
    }
  }

  /** The largest element of a non-empty set of positions (`max`). */
  function MaxOf(vs: set<int>): (m: int)
    requires vs != {}
    ensures m in vs && forall v | v in vs :: v <= m
  {
    HasMaximum(vs);
    var m :| m in vs && forall v | v in vs :: v <= m; m
  }

  /**
   * `bottom_orderable_position`: the largest non-nil position in the scope,
   * plus one when the record is not itself in the list; `base` when no
   * member has a position.
   */
  function Bottom(s: Store, scope: Scope, f: Field, base: int, inList: bool): (b: int)
    ensures Members(s, scope, f) == map[] ==> b == base
    ensures Members(s, scope, f) != map[] ==>
              var top := if inList then b else b - 1;
              top in Members(s, scope, f).Values && forall v | v in Members(s, scope, f).Values :: v <= top
  {
    var vs := Members(s, scope, f).Values;
    if vs == {} then base
    else if inList then MaxOf(vs)
    else MaxOf(vs) + 1
  }

  lemma MembersValuesEmpty(ps: map<Id, int>)
    requires ps.Values == {}
    ensures ps == map[]
  {
    if ps != map[] {
      assert false;
    }
  }

  /** On a dense scope of `n` members the bottom is `base + n - 1` for a member, `base + n` for a newcomer. */
  lemma BottomOfDense(s: Store, scope: Scope, f: Field, base: int, inList: bool)
    requires Dense(Members(s, scope, f), base)
    ensures var n := |Members(s, scope, f)|;
            Bottom(s, scope, f, base, inList) == if n == 0 then base else if inList then base + n - 1 else base + n
  {
    var ps := Members(s, scope, f);
    if ps.Values == {} {
      MembersValuesEmpty(ps);
    } else {
      DenseMaximum(ps, base);
    }
  }

  /** Records whose position is nil never count: a scope of nil positions has its bottom at `base`. */
  lemma BottomIgnoresNil(s: Store, scope: Scope, f: Field, base: int, inList: bool)
    requires forall id | id in s && scope(s[id].attrs) :: f !in s[id].pos
    ensures Bottom(s, scope, f, base, inList) == base
  {
    var ps := Members(s, scope, f);
    if ps != map[] {
      NonEmptyHasKey(ps);
      assert false;
    }
  }

  /** `to_i` of a stored position: nil converts to 0. */
  function ToInt(p: Option<int>): int {
    p.GetOr(0)
  }

  /** `distinct(column)` over the scope: every stored value, nil included. */
  function DistinctPositions(s: Store, scope: Scope, f: Field): (ds: set<Option<int>>)
    ensures forall p :: p in ds <==> exists id | id in s && scope(s[id].attrs) :: Position(s[id], f) == p
  {
    set id | id in s && scope(s[id].attrs) :: Position(s[id], f)
  }

  /**
   * The older `bottom_orderable_position`: `base` when the scope has no
   * record at all, otherwise the largest position with nil counted as 0,
   * plus one when the record is not in the list.
   */
  function LegacyBottom(s: Store, scope: Scope, f: Field, base: int, inList: bool): (b: int)
    ensures DistinctPositions(s, scope, f) == {} ==> b == base
    ensures DistinctPositions(s, scope, f) != {} ==>
              var top := if inList then b else b - 1;
              (exists p | p in DistinctPositions(s, scope, f) :: ToInt(p) == top) &&
              forall p | p in DistinctPositions(s, scope, f) :: ToInt(p) <= top
  {
    var ds := DistinctPositions(s, scope, f);
    if ds == {} then base
    else
      var vs := set p | p in ds :: ToInt(p);
      assert forall p | p in ds :: ToInt(p) in vs;
      NonEmptyOptionSet(ds);
      var p0 :| p0 in ds;
      assert ToInt(p0) in vs;
      var m := MaxOf(vs);
      if inList then m else m + 1
  }

  lemma NonEmptyOptionSet(ds: set<Option<int>>)
    requires ds != {}
    ensures exists p :: p in ds
  {
    if forall p :: p !in ds { assert false; }
  }

  /**
   * The two bottoms disagree as soon as a scope holds a nil position and no
   * other: with `base` 0 the older code answers 1 for a newcomer, so the
   * record is placed at 1 and slot 0 stays empty.
   */
  lemma LegacyBottomCountsNilAsZero()
    ensures var s := map[1 := Rec(map[], map[])];
            var all := (a: Attrs) => true;
            LegacyBottom(s, all, "position", 0, false) == 1 && Bottom(s, all, "position", 0, false) == 0
  {
    var s := map[1 := Rec(map[], map[])];
    var all := (a: Attrs) => true;
    assert DistinctPositions(s, all, "position") == {None} by {
      assert Position(s[1], "position") == None;
    }
    assert Members(s, all, "position") == map[];
  }

  /** When every record of a scope holds a position, the older bottom is the current one. */
  lemma LegacyBottomWithoutNil(s: Store, scope: Scope, f: Field, base: int, inList: bool)
    requires forall j | j in s && scope(s[j].attrs) :: f in s[j].pos
    ensures LegacyBottom(s, scope, f, base, inList) == Bottom(s, scope, f, base, inList)
  {
    var ds := DistinctPositions(s, scope, f);
    var ms := Members(s, scope, f);
    var vs := set p | p in ds :: ToInt(p);
    assert vs == ms.Values by {
      forall v | v in vs ensures v in ms.Values {
        var p :| p in ds && ToInt(p) == v;
        var j :| j in s && scope(s[j].attrs) && Position(s[j], f) == p;
        assert ms[j] == v;
      }
      forall v | v in ms.Values ensures v in vs {
        ValueHasKey(ms, v);
        var j :| j in ms && ms[j] == v;
        assert Position(s[j], f) in ds;
      }
    }
    if ds == {} {
      assert ms.Values == {};
    } else {
      NonEmptyOptionSet(ds);
      var p0 :| p0 in ds;
      assert ToInt(p0) in vs;
    }
  }

  /** `orderable_scope_changed?`: no record of the scope carries this id. */
  predicate ScopeChanged(s: Store, scope: Scope, id: Id) {
    !(id in s && scope(s[id].attrs))
  }

  /** Once a record has been written with attributes its scope accepts, its scope is no longer changed. */
  lemma ScopeChangedAfterSave(s: Store, scope: Scope, id: Id, r: Rec)
    ensures ScopeChanged(s[id := r], scope, id) <==> !scope(r.attrs)
  {
  }

  /** The first configured field flagged `default`, if any. */
  function FirstDefault(configs: seq<(Field, bool)>): (r: Option<Field>)
    ensures r.None? <==> forall i | 0 <= i < |configs| :: !configs[i].1
    ensures r.Some? ==> exists i | 0 <= i < |configs| :: configs[i] == (r.value, true) &&
                                                        forall j | 0 <= j < i :: !configs[j].1
  {
    if configs == [] then None
    else if configs[0].1 then Some(configs[0].0)
    else FirstDefault(configs[1..])
  }

  /** `orderable_keys`: the keys of the inheriting class's configuration, none when it has none. */
  function OrderableKeys(inheritedKeys: Option<seq<Field>>): (ks: seq<Field>)
    ensures inheritedKeys.None? ==> ks == []
    ensures inheritedKeys.Some? ==> ks == inheritedKeys.value
  {
    inheritedKeys.GetOr([])
  }

  /**
   * `default_orderable_column`: the first field of the class's own
   * configuration flagged `default`, otherwise the first orderable key.
   */
  function DefaultOrderableColumn(configs: seq<(Field, bool)>, inheritedKeys: Option<seq<Field>>): (r: Option<Field>)
    ensures (exists i | 0 <= i < |configs| :: configs[i].1) ==> r == FirstDefault(configs) && r.Some?
    ensures (forall i | 0 <= i < |configs| :: !configs[i].1) ==>
              r == if OrderableKeys(inheritedKeys) == [] then None else Some(OrderableKeys(inheritedKeys)[0])
  {
    match FirstDefault(configs)
    case Some(f) => Some(f)
    case None =>
      var keys := OrderableKeys(inheritedKeys);
      if keys == [] then None else Some(keys[0])
  }

  /** A field flagged `default` wins over an earlier unflagged one. */
  lemma DefaultFlagWins(a: Field, b: Field)
    ensures DefaultOrderableColumn([(a, false), (b, true)], Some([a, b])) == Some(b)
    ensures DefaultOrderableColumn([(a, false), (b, false)], Some([a, b])) == Some(a)
  {
    assert FirstDefault([(a, false), (b, true)]) == Some(b) by {
      assert [(a, false), (b, true)][1..] == [(b, true)];
    }
  }

  /** The older `default_orderable_column`: the first configured key. */
  function LegacyDefaultOrderableColumn(keys: seq<Field>): (r: Option<Field>)
    ensures r.None? <==> keys == []
    ensures r.Some? ==> r.value == keys[0]
  {
    if keys == [] then None else Some(keys[0])
  }
}
