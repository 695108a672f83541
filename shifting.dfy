/**
 * The shift rule every version of the ordering code applies before it
 * assigns a record its new position, the gap-closing decrement it applies
 * when a record leaves a scope, and the proof that both keep a scope dense.
 */
module Shifting {
  import opened Wrappers
  import opened Records

  /**
   * The one `inc` issued for a record going from `current` (nil when it is
   * not in the list) to `target`: siblings at or after the target move down
   * for an insertion; for a move, the run between the old and the new slot
   * shifts by one towards the old slot; nothing when the slot is the same.
   */
  function ShiftInc(current: Option<int>, target: int): (r: Option<(Window, int)>)
    ensures current.None? ==> r == Some((Window(target, None), 1))
    ensures current.Some? && target < current.value ==> r == Some((Window(target, Some(current.value)), 1))
    ensures current.Some? && target > current.value ==> r == Some((Window(current.value + 1, Some(target + 1)), -1))
    ensures current == Some(target) <==> r.None?
  {
    match current
    case None => Some((Window(target, None), 1))
    case Some(c) =>
      if target < c then Some((Window(target, Some(c)), 1))
      else if target > c then Some((Window(c + 1, Some(target + 1)), -1))
      else None
  }

  /** The siblings' side of placing a record at `target` (the record's own assignment is the caller's). */
  function Shift(s: Store, scope: Scope, f: Field, current: Option<int>, target: int): (s': Store)
    ensures s'.Keys == s.Keys
    ensures forall id | id in s && !scope(s[id].attrs) :: s'[id] == s[id]
    ensures forall id | id in s && f !in s[id].pos :: s'[id] == s[id]
    ensures forall id | id in s :: s'[id].attrs == s[id].attrs && s'[id].pos.Keys == s[id].pos.Keys
    ensures forall id, g | id in s && g in s[id].pos && g != f :: s'[id].pos[g] == s[id].pos[g]
    ensures forall id | id in s && scope(s[id].attrs) && f in s[id].pos ::
              var p := s[id].pos[f];
              s'[id].pos[f] == match current
                               case None => if p >= target then p + 1 else p
                               case Some(c) =>
                                 if target < c && target <= p < c then p + 1
                                 else if target > c && c < p <= target then p - 1
                                 else p
  {
    match ShiftInc(current, target)
    case None => s
    case Some((w, d)) => Inc(s, scope, f, w, d)
  }

  /** `scope.gt(f => current).inc(f => -1)`: every member above `current` moves up one; a nil `current` matches nothing. */
  function CloseGap(s: Store, scope: Scope, f: Field, current: Option<int>): (s': Store)
    ensures s'.Keys == s.Keys
    ensures forall id | id in s && !scope(s[id].attrs) :: s'[id] == s[id]
    ensures forall id | id in s :: s'[id].attrs == s[id].attrs && s'[id].pos.Keys == s[id].pos.Keys
    ensures forall id, g | id in s && g in s[id].pos && g != f :: s'[id].pos[g] == s[id].pos[g]
    ensures forall id | id in s && scope(s[id].attrs) && f in s[id].pos ::
              s'[id].pos[f] == if current.Some? && s[id].pos[f] > current.value then s[id].pos[f] - 1 else s[id].pos[f]
  {
    match current
    case None => s
    case Some(c) => Inc(s, scope, f, Window(c + 1, None), -1)
  }

  /** `Shift` seen on the in-list members of the scope. */
  function ShiftPositions(ps: map<Id, int>, current: Option<int>, target: int): map<Id, int> {
    match ShiftInc(current, target)
    case None => ps
    case Some((w, d)) => Bump(ps, w, d)
  }

  /** `CloseGap` seen on the in-list members of the scope. */
  function CloseGapPositions(ps: map<Id, int>, current: Option<int>): map<Id, int> {
    match current
    case None => ps
    case Some(c) => Bump(ps, Window(c + 1, None), -1)
  }

  lemma MembersOfShift(s: Store, scope: Scope, f: Field, current: Option<int>, target: int)
    ensures Members(Shift(s, scope, f, current, target), scope, f) == ShiftPositions(Members(s, scope, f), current, target)
  {
    match ShiftInc(current, target)
    case None =>
    case Some((w, d)) => MembersOfInc(s, scope, f, w, d);
  }

  lemma MembersOfCloseGap(s: Store, scope: Scope, f: Field, current: Option<int>)
    ensures Members(CloseGap(s, scope, f, current), scope, f) == CloseGapPositions(Members(s, scope, f), current)
  {
    match current
    case None =>
    case Some(c) =>
      assert CloseGap(s, scope, f, current) == Inc(s, scope, f, Window(c + 1, None), -1);
      assert CloseGapPositions(Members(s, scope, f), current) == Bump(Members(s, scope, f), Window(c + 1, None), -1);
      MembersOfInc(s, scope, f, Window(c + 1, None), -1);
  }

  /** Inserting a record that is not in the list at any slot `base .. base + n` keeps the scope dense and adds one member. */
  lemma InsertKeepsDense(ps: map<Id, int>, base: int, id: Id, target: int)
    requires Dense(ps, base) && id !in ps
    requires base <= target <= base + |ps|
    ensures var qs := ShiftPositions(ps, None, target)[id := target];
            Dense(qs, base) && |qs| == |ps| + 1 && qs.Keys == ps.Keys + {id}
  {
    var bumped := ShiftPositions(ps, None, target);
    var qs := bumped[id := target];
    assert bumped.Keys == ps.Keys;
    assert |qs| == |ps| + 1;
    forall i, j | i in qs && j in qs && i != j
      ensures qs[i] != qs[j]
    {
      if i != id && j != id {
        assert ps[i] != ps[j];
      }
    }
  }

  /** Moving an in-list record to any slot `base .. base + n - 1` keeps the scope dense with the same members. */
  lemma MoveKeepsDense(ps: map<Id, int>, base: int, id: Id, target: int)
    requires Dense(ps, base) && id in ps
    requires base <= target < base + |ps|
    ensures var qs := ShiftPositions(ps, Some(ps[id]), target)[id := target];
            Dense(qs, base) && qs.Keys == ps.Keys
  {
    var c := ps[id];
    var bumped := ShiftPositions(ps, Some(c), target);
    var qs := bumped[id := target];
    assert bumped.Keys == ps.Keys;
    assert |qs| == |ps|;
    forall i | i in qs
      ensures base <= qs[i] < base + |qs|
    {
      if i != id {
        assert ps[i] != c;
      }
    }
    forall i, j | i in qs && j in qs && i != j
      ensures qs[i] != qs[j]
    {
      if i != id && j != id {
        assert ps[i] != ps[j];
      } else if i == id {
        assert ps[j] != c;
      } else {
        assert ps[i] != c;
      }
    }
  }

  /** Removing an in-list record and closing its gap keeps the scope dense with one member fewer. */
  lemma RemoveKeepsDense(ps: map<Id, int>, base: int, id: Id)
    requires Dense(ps, base) && id in ps
    ensures var qs := CloseGapPositions(ps - {id}, Some(ps[id]));
            Dense(qs, base) && |qs| == |ps| - 1 && qs.Keys == ps.Keys - {id}
  {
    var c := ps[id];
    var rest := ps - {id};
    var qs := CloseGapPositions(rest, Some(c));
    assert qs.Keys == rest.Keys;
    assert |rest| == |ps| - 1;
    forall i | i in qs
      ensures base <= qs[i] < base + |qs|
    {
      assert ps[i] != c;
    }
    forall i, j | i in qs && j in qs && i != j
      ensures qs[i] != qs[j]
    {
      assert ps[i] != ps[j];
    }
  }
}
