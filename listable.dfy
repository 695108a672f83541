/**
 * The list queries a record answers about its own scope: whether it is in
 * the list, the members before and after it, its immediate neighbours, and
 * whether it is first or last; current and older forms.
 */
module Listable {
  import opened Wrappers
  import opened Records
  import opened Helpers

  /** `in_list?`: persisted and holding a position. */
  predicate InList(persisted: bool, p: Option<int>) {
    persisted && p.Some?
  }

  /** `previous_items`: the members of the scope with a smaller position (none when the record's own is nil). */
  function PreviousItems(s: Store, scope: Scope, f: Field, p: Option<int>): (ids: set<Id>)
    ensures forall id :: id in ids <==> id in Members(s, scope, f) && p.Some? && Members(s, scope, f)[id] < p.value
  {
    var ms := Members(s, scope, f);
    if p.None? then {} else set id | id in ms && ms[id] < p.value
  }

  /** `next_items`: the members of the scope with a larger position (none when the record's own is nil). */
  function NextItems(s: Store, scope: Scope, f: Field, p: Option<int>): (ids: set<Id>)
    ensures forall id :: id in ids <==> id in Members(s, scope, f) && p.Some? && Members(s, scope, f)[id] > p.value
  {
    var ms := Members(s, scope, f);
    if p.None? then {} else set id | id in ms && ms[id] > p.value
  }

  lemma ValueHasMember(ms: map<Id, int>, v: int)
    requires v in ms.Values
    ensures exists id :: id in ms && ms[id] == v
  {
    ValueHasKey(ms, v);
  }

  /**
   * `where(f => q).first`: some member at position `q`, nil when there is
   * none; which of several a query returns is the database's choice.
   */
  ghost function MemberAt(s: Store, scope: Scope, f: Field, q: int): (r: Option<Id>)
    ensures r.None? <==> q !in Members(s, scope, f).Values
    ensures r.Some? ==> r.value in Members(s, scope, f) && Members(s, scope, f)[r.value] == q
  {
    var ms := Members(s, scope, f);
    if q in ms.Values then
      ValueHasMember(ms, q);
      var id :| id in ms && ms[id] == q;
      Some(id)
    else None
  }

  /** `previous_item`: the member at position - 1; `nil - 1` raises when the record has no position. */
  ghost function PreviousItem(s: Store, scope: Scope, f: Field, p: Option<int>): (r: Result<Option<Id>, Error>)
    ensures r.Err? <==> p.None?
    ensures r.Err? ==> r.error == NoMethodErrorOnNil
    ensures r.Ok? ==> (r.value.None? <==> p.value - 1 !in Members(s, scope, f).Values)
    ensures r.Ok? && r.value.Some? ==> r.value.value in Members(s, scope, f) && Members(s, scope, f)[r.value.value] == p.value - 1
  {
    if p.None? then Err(NoMethodErrorOnNil) else Ok(MemberAt(s, scope, f, p.value - 1))
  }

  /** `next_item`: the member at position + 1; `nil + 1` raises. */
  ghost function NextItem(s: Store, scope: Scope, f: Field, p: Option<int>): (r: Result<Option<Id>, Error>)
    ensures r.Err? <==> p.None?
    ensures r.Err? ==> r.error == NoMethodErrorOnNil
    ensures r.Ok? ==> (r.value.None? <==> p.value + 1 !in Members(s, scope, f).Values)
    ensures r.Ok? && r.value.Some? ==> r.value.value in Members(s, scope, f) && Members(s, scope, f)[r.value.value] == p.value + 1
  {
    if p.None? then Err(NoMethodErrorOnNil) else Ok(MemberAt(s, scope, f, p.value + 1))
  }

  /** `first?`: in the list and at the top. */
  predicate IsFirst(persisted: bool, p: Option<int>, top: int) {
    InList(persisted, p) && p.value == top
  }

  /** `last?`: in the list and at `orderable_bottom`. */
  predicate IsLast(s: Store, scope: Scope, f: Field, base: int, persisted: bool, p: Option<int>) {
    InList(persisted, p) && p.value == Bottom(s, scope, f, base, InList(persisted, p))
  }

  /** In a dense scope a member has nothing before it exactly when it is first. */
  lemma NoPreviousItemsIffFirst(s: Store, scope: Scope, f: Field, base: int, id: Id)
    requires Dense(Members(s, scope, f), base) && id in Members(s, scope, f)
    ensures var p := Some(Members(s, scope, f)[id]);
            PreviousItems(s, scope, f, p) == {} <==> IsFirst(true, p, base)
  {
    var ms := Members(s, scope, f);
    var p := ms[id];
    if p > base {
      DenseIsExactRange(ms, base);
      assert p - 1 in ms.Values;
      ValueHasMember(ms, p - 1);
      var j :| j in ms && ms[j] == p - 1;
      assert j in PreviousItems(s, scope, f, Some(p));
    } else {
      assert forall j | j in ms :: !(ms[j] < p);
    }
  }

  /** In a dense scope a member has nothing after it exactly when it is last. */
  lemma NoNextItemsIffLast(s: Store, scope: Scope, f: Field, base: int, id: Id)
    requires Dense(Members(s, scope, f), base) && id in Members(s, scope, f)
    ensures var p := Some(Members(s, scope, f)[id]);
            NextItems(s, scope, f, p) == {} <==> IsLast(s, scope, f, base, true, p)
  {
    var ms := Members(s, scope, f);
    var p := ms[id];
    DenseIsExactRange(ms, base);
    BottomOfDense(s, scope, f, base, true);
    if p < base + |ms| - 1 {
      assert p + 1 in ms.Values;
      ValueHasMember(ms, p + 1);
      var j :| j in ms && ms[j] == p + 1;
      assert j in NextItems(s, scope, f, Some(p));
    }
  }

  /** In a dense scope every member but the first has a previous item and every member but the last a next item. */
  lemma NeighboursOfDense(s: Store, scope: Scope, f: Field, base: int, id: Id)
    requires Dense(Members(s, scope, f), base) && id in Members(s, scope, f)
    ensures var p := Members(s, scope, f)[id];
            && PreviousItem(s, scope, f, Some(p)).Ok? && NextItem(s, scope, f, Some(p)).Ok?
            && (PreviousItem(s, scope, f, Some(p)).value.None? <==> p == base)
            && (NextItem(s, scope, f, Some(p)).value.None? <==> p == base + |Members(s, scope, f)| - 1)
  {
    DenseIsExactRange(Members(s, scope, f), base);
  }

  /** The older `in_list?`: holding a position, whether persisted or not. */
  predicate LegacyInList(p: Option<int>) {
    p.Some?
  }

  /**
   * What `self.position` reads in the older list queries: the stored field
   * behind a `position` accessor (the column itself when it is `position`
   * or is declared `as: :position`, a separate `position` field, or none).
   * The query `where(:position => …)` resolves the same name.
   */
  type PositionAccessor = Option<Field>

  /** `self.position`, which raises when the class defines no `position` accessor. */
  function LegacyPosition(acc: PositionAccessor, self: Rec): (r: Result<Option<int>, Error>)
    ensures acc.None? <==> r.Err?
    ensures r.Err? ==> r.error == UndefinedMethod("position")
    ensures r.Ok? ==> r.value == Position(self, acc.value)
  {
    if acc.None? then Err(UndefinedMethod("position")) else Ok(Position(self, acc.value))
  }

  /** The older `previous_items`: the column `f` compared with `self.position`. */
  function LegacyPreviousItems(s: Store, scope: Scope, f: Field, acc: PositionAccessor, self: Rec): (r: Result<set<Id>, Error>)
    ensures r.Err? <==> acc.None?
    ensures r.Ok? ==> forall id :: id in r.value <==>
              id in Members(s, scope, f) && Position(self, acc.value).Some? && Members(s, scope, f)[id] < Position(self, acc.value).value
  {
    match LegacyPosition(acc, self)
    case Err(e) => Err(e)
    case Ok(p) => Ok(PreviousItems(s, scope, f, p))
  }

  /** The older `next_items`. */
  function LegacyNextItems(s: Store, scope: Scope, f: Field, acc: PositionAccessor, self: Rec): (r: Result<set<Id>, Error>)
    ensures r.Err? <==> acc.None?
    ensures r.Ok? ==> forall id :: id in r.value <==>
              id in Members(s, scope, f) && Position(self, acc.value).Some? && Members(s, scope, f)[id] > Position(self, acc.value).value
  {
    match LegacyPosition(acc, self)
    case Err(e) => Err(e)
    case Ok(p) => Ok(NextItems(s, scope, f, p))
  }

  /**
   * The older `previous_item`: nil when `previous_items` is empty, otherwise
   * the record whose `position` is one less than `self.position`. The filter
   * reads the configured column `f`; the arithmetic and the lookup read the
   * `position` accessor.
   */
  ghost function LegacyPreviousItem(s: Store, scope: Scope, f: Field, acc: PositionAccessor, self: Rec): (r: Result<Option<Id>, Error>)
    ensures r.Err? <==> acc.None?
    ensures r.Err? ==> r.error == UndefinedMethod("position")
    ensures r.Ok? && LegacyPreviousItems(s, scope, f, acc, self).value == {} ==> r.value.None?
    ensures r.Ok? && r.value.Some? ==> Position(self, acc.value).Some? && r.value.value in Members(s, scope, acc.value) &&
                                       Members(s, scope, acc.value)[r.value.value] == Position(self, acc.value).value - 1
  {
    match LegacyPreviousItems(s, scope, f, acc, self)
    case Err(e) => Err(e)
    case Ok(items) =>
      var p := Position(self, acc.value);
      if items == {} then Ok(None) else Ok(MemberAt(s, scope, acc.value, p.value - 1))
  }

  /** The older `next_item`, with the same reading of `position`. */
  ghost function LegacyNextItem(s: Store, scope: Scope, f: Field, acc: PositionAccessor, self: Rec): (r: Result<Option<Id>, Error>)
    ensures r.Err? <==> acc.None?
    ensures r.Err? ==> r.error == UndefinedMethod("position")
    ensures r.Ok? && LegacyNextItems(s, scope, f, acc, self).value == {} ==> r.value.None?
    ensures r.Ok? && r.value.Some? ==> Position(self, acc.value).Some? && r.value.value in Members(s, scope, acc.value) &&
                                       Members(s, scope, acc.value)[r.value.value] == Position(self, acc.value).value + 1
  {
    match LegacyNextItems(s, scope, f, acc, self)
    case Err(e) => Err(e)
    case Ok(items) =>
      var p := Position(self, acc.value);
      if items == {} then Ok(None) else Ok(MemberAt(s, scope, acc.value, p.value + 1))
  }

  /**
   * With a configured column `pos` the older queries go wrong unless
   * `position` reads `pos`: with no `position` accessor they raise, and
   * with a separate, unset `position` field the second of two records at 1
   * and 2 has no previous item.
   */
  lemma LegacyNeighboursIgnoreColumn()
    ensures var b := Rec(map[], map["pos" := 2]);
            var s := map[1 := Rec(map[], map["pos" := 1]), 2 := b];
            var all := (x: Attrs) => true;
            && LegacyPreviousItems(s, all, "pos", None, b) == Err(UndefinedMethod("position"))
            && LegacyPreviousItem(s, all, "pos", Some("position"), b) == Ok(None)
            && PreviousItem(s, all, "pos", Some(2)) == Ok(Some(1))
            && LegacyPreviousItemOnColumn(s, all, "pos", b) == Some(1)
  {
    var a := Rec(map[], map["pos" := 1]);
    var b := Rec(map[], map["pos" := 2]);
    var s := map[1 := a, 2 := b];
    var all := (x: Attrs) => true;
    assert Position(b, "position").None?;
    assert Members(s, all, "pos") == map[1 := 1, 2 := 2];
    assert Members(s, all, "pos")[1] == 1;
    assert 1 in Members(s, all, "pos").Values;
  }

  /**
   * The neighbour queries as they are evidently meant, on the configured
   * column: nil when nothing precedes, else the member one slot up.
   */
  ghost function LegacyPreviousItemOnColumn(s: Store, scope: Scope, f: Field, self: Rec): (r: Option<Id>)
    ensures r.None? <==> Position(self, f).None? || Position(self, f).value - 1 !in Members(s, scope, f).Values
    ensures r.Some? ==> r.value in Members(s, scope, f) && Position(self, f).Some? &&
                        Members(s, scope, f)[r.value] == Position(self, f).value - 1
  {
    var p := Position(self, f);
    if PreviousItems(s, scope, f, p) == {} then
      assert p.Some? ==> p.value - 1 !in Members(s, scope, f).Values by {
        if p.Some? && p.value - 1 in Members(s, scope, f).Values {
          ValueHasMember(Members(s, scope, f), p.value - 1);
          assert false;
        }
      }
      None
    else MemberAt(s, scope, f, p.value - 1)
  }

  ghost function LegacyNextItemOnColumn(s: Store, scope: Scope, f: Field, self: Rec): (r: Option<Id>)
    ensures r.None? <==> Position(self, f).None? || Position(self, f).value + 1 !in Members(s, scope, f).Values
    ensures r.Some? ==> r.value in Members(s, scope, f) && Position(self, f).Some? &&
                        Members(s, scope, f)[r.value] == Position(self, f).value + 1
  {
    var p := Position(self, f);
    if NextItems(s, scope, f, p) == {} then
      assert p.Some? ==> p.value + 1 !in Members(s, scope, f).Values by {
        if p.Some? && p.value + 1 in Members(s, scope, f).Values {
          ValueHasMember(Members(s, scope, f), p.value + 1);
          assert false;
        }
      }
      None
    else MemberAt(s, scope, f, p.value + 1)
  }

  /** When `position` reads the configured column, the older queries are the evidently meant ones. */
  lemma LegacyAgreesWhenPositionIsColumn(s: Store, scope: Scope, f: Field, self: Rec)
    ensures LegacyPreviousItem(s, scope, f, Some(f), self) == Ok(LegacyPreviousItemOnColumn(s, scope, f, self))
    ensures LegacyNextItem(s, scope, f, Some(f), self) == Ok(LegacyNextItemOnColumn(s, scope, f, self))
  {
  }

  /** The older `first?`: holding a position equal to `base`. */
  predicate LegacyIsFirst(p: Option<int>, base: int) {
    LegacyInList(p) && p.value == base
  }

  /** The older `last?`: holding a position equal to the older `bottom_orderable_position`. */
  predicate LegacyIsLast(s: Store, scope: Scope, f: Field, base: int, p: Option<int>) {
    LegacyInList(p) && p.value == LegacyBottom(s, scope, f, base, LegacyInList(p))
  }

  /**
   * Being first or last needs a position; the current forms also need the
   * record to be persisted. For a persisted record the two `last?` agree
   * once no record of the scope has a nil position.
   */
  lemma FirstAndLastNeedList(s: Store, scope: Scope, f: Field, base: int, persisted: bool, p: Option<int>)
    ensures IsFirst(persisted, p, base) ==> LegacyIsFirst(p, base) && persisted
    ensures !persisted ==> !IsFirst(persisted, p, base) && !IsLast(s, scope, f, base, persisted, p)
    ensures persisted && (forall j | j in s && scope(s[j].attrs) :: f in s[j].pos) ==>
              (IsLast(s, scope, f, base, persisted, p) <==> LegacyIsLast(s, scope, f, base, p))
  {
    if persisted && forall j | j in s && scope(s[j].attrs) :: f in s[j].pos {
      LegacyBottomWithoutNil(s, scope, f, base, LegacyInList(p));
    }
  }

  /**
   * The older `last?` counts a nil position as 0: in a scope with base 1
   * whose only stored record has a nil position, a record holding 1 is
   * last for the current code and not for the older one, whose bottom
   * is 0.
   */
  lemma LegacyLastCountsNilAsZero()
    ensures var s := map[1 := Rec(map[], map[])];
            var all := (a: Attrs) => true;
            IsLast(s, all, "position", 1, true, Some(1)) && !LegacyIsLast(s, all, "position", 1, Some(1))
  {
    var s := map[1 := Rec(map[], map[])];
    var all := (a: Attrs) => true;
    assert DistinctPositions(s, all, "position") == {None} by {
      assert Position(s[1], "position") == None;
    }
    assert Members(s, all, "position") == map[];
  }
}
