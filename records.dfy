/**
 * The data model shared by every version of the ordering code: records with
 * attribute values and nullable integer positions, a collection of records
 * keyed by id, scopes as membership predicates, and the one write primitive
 * the code issues against a collection, `inc(filter, delta)`.
 */
module Records {
  import opened Wrappers

  type Id = int
  /** An attribute name (a scope key or a condition attribute). */
  type Key = string
  /** The storage name of an orderable position field. */
  type Field = string

  /** A requested move target: an Integer, a String, or a Symbol given by its name. */
  datatype Target = TInt(n: int) | TStr(s: string) | TSym(name: string)

  /** The exceptions the ordering code raises, as values. */
  datatype Error =
    | InvalidTargetPosition(value: Target)
    | NoMethodErrorOnNil               // a comparison or arithmetic on nil
    | DocumentNotFound(id: Id)         // `find(_id)` of a record missing from the collection
    | ArgumentError(message: string)
    | UndefinedMethod(name: string)    // a method the receiver's class does not define

  /** A stored attribute value; nil is absence from the attribute map. */
  datatype Val = VBool(b: bool) | VInt(i: int) | VStr(s: string)

  type Attrs = map<Key, Val>

  /** A record: its attribute values and the positions of its orderable fields (a field absent from `pos` is nil). */
  datatype Rec = Rec(attrs: Attrs, pos: map<Field, int>)

  type Store = map<Id, Rec>

  /** Which records share one position sequence: a predicate over attribute values only. */
  type Scope = Attrs -> bool

  function Attr(a: Attrs, k: Key): (v: Option<Val>)
    ensures v.Some? <==> k in a
    ensures v.Some? ==> v.value == a[k]
  {
    Lookup(a, k)
  }

  function Position(r: Rec, f: Field): (p: Option<int>)
    ensures p.Some? <==> f in r.pos
    ensures p.Some? ==> p.value == r.pos[f]
  {
    Lookup(r.pos, f)
  }

  /** Ruby truthiness: nil and false are falsy, every other value is truthy. */
  predicate Truthy(v: Option<Val>) {
    v.Some? && v.value != VBool(false)
  }

  /** The record with field `f` set to `p` (nil clears it); nothing else changes. */
  function WithPosition(r: Rec, f: Field, p: Option<int>): (r': Rec)
    ensures r'.attrs == r.attrs
    ensures Position(r', f) == p
    ensures forall g | g != f :: Position(r', g) == Position(r, g)
  {
    match p
    case Some(v) => Rec(r.attrs, r.pos[f := v])
    case None => Rec(r.attrs, r.pos - {f})
  }

  /**
   * A filter on a position value: `lo <= p` and, when `hi` is given, `p < hi`.
   * The source's selectors `gte t`, `gt c`, `[t, c)` and `(c, t]` are
   * Window(t, None), Window(c + 1, None), Window(t, Some(c)) and
   * Window(c + 1, Some(t + 1)): positions are integers.
   */
  datatype Window = Window(lo: int, hi: Option<int>)

  predicate InWindow(w: Window, p: int) {
    w.lo <= p && (w.hi.None? || p < w.hi.value)
  }

  /** The selector of an `inc`: in the scope, position non-nil (a nil never compares) and in the window. */
  predicate Matches(r: Rec, scope: Scope, f: Field, w: Window) {
    scope(r.attrs) && f in r.pos && InWindow(w, r.pos[f])
  }

  /** `scope.where(f => window).inc(f => d)`: adds `d` to field `f` of every matching record and changes nothing else. */
  function Inc(s: Store, scope: Scope, f: Field, w: Window, d: int): (s': Store)
    ensures s'.Keys == s.Keys
    ensures forall id | id in s && !Matches(s[id], scope, f, w) :: s'[id] == s[id]
    ensures forall id | id in s && Matches(s[id], scope, f, w) ::
              s'[id] == WithPosition(s[id], f, Some(s[id].pos[f] + d))
  {
    map id | id in s :: if Matches(s[id], scope, f, w) then WithPosition(s[id], f, Some(s[id].pos[f] + d)) else s[id]
  }

  /** The records of a scope that are in the list for `f`, mapped to their positions. */
  function Members(s: Store, scope: Scope, f: Field): (ps: map<Id, int>)
    ensures forall id :: id in ps <==> id in s && scope(s[id].attrs) && f in s[id].pos
    ensures forall id | id in ps :: ps[id] == s[id].pos[f]
  {
    map id | id in s && scope(s[id].attrs) && f in s[id].pos :: s[id].pos[f]
  }

  /** The effect of an `inc` on a map of positions. */
  function Bump(ps: map<Id, int>, w: Window, d: int): (qs: map<Id, int>)
    ensures qs.Keys == ps.Keys
    ensures forall id | id in ps :: qs[id] == if InWindow(w, ps[id]) then ps[id] + d else ps[id]
  {
    map id | id in ps :: if InWindow(w, ps[id]) then ps[id] + d else ps[id]
  }

  /** The positions `lo .. lo + n - 1`. */
  function Range(lo: int, n: nat): (r: set<int>)
    ensures forall k :: k in r <==> lo <= k < lo + n
  {
    if n == 0 then {} else Range(lo, n - 1) + {lo + n - 1}
  }

  /**
   * The invariant the ordering code maintains for every scope: the positions
   * of the in-list members are pairwise distinct and lie in `base .. base + n - 1`
   * (`DenseIsExactRange` shows this means they are exactly that range).
   */
  predicate Dense(ps: map<Id, int>, base: int) {
    && (forall i, j | i in ps && j in ps && i != j :: ps[i] != ps[j])
    && (forall i | i in ps :: base <= ps[i] < base + |ps|)
  }

  lemma {:induction false} RangeSize(lo: int, n: nat)
    ensures |Range(lo, n)| == n
  {
    if n > 0 {
      RangeSize(lo, n - 1);
      assert lo + n - 1 !in Range(lo, n - 1);
    }
  }

  lemma NonEmptyHasKey(m: map<Id, int>)
    requires m != map[]
    ensures exists k :: k in m
  {
    if forall k :: k !in m { assert false; }
  }

  lemma ValueHasKey(m: map<Id, int>, v: int)
    requires v in m.Values
    ensures exists k :: k in m && m[k] == v
  {
    if forall k :: k in m ==> m[k] != v { assert false; }
  }

  lemma {:induction false} InjectiveValuesSize(ps: map<Id, int>)
    requires forall i, j | i in ps && j in ps && i != j :: ps[i] != ps[j]
    ensures |ps.Values| == |ps|
  {
    if ps != map[] {
      NonEmptyHasKey(ps);
      var id :| id in ps;
      var rest := ps - {id};
      InjectiveValuesSize(rest);
      forall v | v in ps.Values
        ensures v in rest.Values + {ps[id]}
      {
        ValueHasKey(ps, v);
        var j :| j in ps && ps[j] == v;
        if j != id { assert rest[j] == v; }
      }
      assert ps.Values == rest.Values + {ps[id]};
      assert ps[id] !in rest.Values;
    }
  }

  /** Pigeonhole: a dense map of positions takes every value of its range exactly once. */
  lemma DenseIsExactRange(ps: map<Id, int>, base: int)
    requires Dense(ps, base)
    ensures ps.Values == Range(base, |ps|)
  {
    var r := Range(base, |ps|);
    RangeSize(base, |ps|);
    InjectiveValuesSize(ps);
    assert ps.Values <= r;
    assert ps.Values * r == ps.Values;
    assert |r - ps.Values| == 0;
    assert r - ps.Values == {};
  }

  /** The largest position of a non-empty dense scope is `base + n - 1`. */
  lemma DenseMaximum(ps: map<Id, int>, base: int)
    requires Dense(ps, base) && |ps| > 0
    ensures base + |ps| - 1 in ps.Values
    ensures forall v | v in ps.Values :: v <= base + |ps| - 1
  {
    DenseIsExactRange(ps, base);
  }

  lemma MembersOfInc(s: Store, scope: Scope, f: Field, w: Window, d: int)
    ensures Members(Inc(s, scope, f, w, d), scope, f) == Bump(Members(s, scope, f), w, d)
  {
  }

  lemma MembersOfUpdate(s: Store, scope: Scope, f: Field, id: Id, r: Rec)
    ensures Members(s[id := r], scope, f)
         == if scope(r.attrs) && f in r.pos then Members(s, scope, f)[id := r.pos[f]] else Members(s, scope, f) - {id}
  {
  }

  lemma MembersOfRemoval(s: Store, scope: Scope, f: Field, id: Id)
    ensures Members(s - {id}, scope, f) == Members(s, scope, f) - {id}
  {
  }
}
