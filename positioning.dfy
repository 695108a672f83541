/**
 * What one save does to the positions: the gate (`allowed?`, `changed?`),
 * the record's current position, leaving the old scope, resolving the
 * target, shifting the siblings and placing the record, for the handler
 * base class, the embedded handler and the engine; removal on destroy; and
 * the same steps folded over every orderable field.
 */
module Positioning {
  import opened Wrappers
  import opened Records
  import opened Shifting
  import opened Scopes
  import opened Resolver
  import opened Helpers
  import opened Collections
  import opened Documents

  /** Which implementation of `apply_one_position` is meant. */
  datatype Flavor =
    | BaseHandler(useTransactions: bool, newRecordSnapshot: bool)   // the handler base class and its Document subclasses
    | EmbeddedHandler                                                // the in-memory handler for embedded documents
    | EngineFlavor(useTransactions: bool)                            // the earlier engine

  /** `resolve_condition`: a Proc's answer, a method's value, or the literal's truthiness. */
  function ResolveCondition(c: Cond, r: Rec): bool {
    match c
    case ProcCond(call) => call(r)
    case SymbolCond(name) => Truthy(Attr(r.attrs, name))
    case LiteralCond(v) => Truthy(Some(v))
  }

  /** `allowed?`: the `if` condition is absent or holds, and the `unless` condition is absent or fails. */
  predicate Allowed(conf: FieldConf, r: Rec) {
    && (conf.ifCond.None? || ResolveCondition(conf.ifCond.value, r))
    && (conf.unlessCond.None? || !ResolveCondition(conf.unlessCond.value, r))
  }

  /** `new_record?`: the snapshot taken when a transactional handler was built, otherwise the live flag. */
  function NewRecord(fl: Flavor, d: DocState): bool {
    match fl
    case BaseHandler(useTx, snapshot) => if useTx then snapshot else d.newRecord
    case _ => d.newRecord
  }

  function ScopeOf(conf: FieldConf, a: Attrs): Scope {
    Criteria(conf.scope, a)
  }

  /** `scope_keys`: the attributes the scope's selector names. */
  function ScopeKeys(conf: FieldConf, a: Attrs): seq<Key> {
    SelectorKeys(ScopeSelector(conf.scope, a))
  }

  predicate ScopeKeyDirty(conf: FieldConf, d: DocState) {
    exists i | 0 <= i < |ScopeKeys(conf, d.rec.attrs)| :: ScopeKeys(conf, d.rec.attrs)[i] in d.dirty
  }

  /**
   * `changed?`: a new record, a nil position or a pending move always
   * count; otherwise the position attribute or a scope key must be dirty.
   */
  predicate Changed(fl: Flavor, conf: FieldConf, k: Field, d: DocState) {
    || NewRecord(fl, d)
    || conf.column !in d.rec.pos
    || PendingTarget(d, k).Some?
    || conf.column in d.dirty
    || ScopeKeyDirty(conf, d)
  }

  /** `any_field_changed?`: some field changed, or `move_all` holds any entry at all. */
  predicate AnyFieldChanged(fl: Flavor, m: Model, d: DocState)
    requires Configured(m, m.keys)
  {
    || (exists i | 0 <= i < |m.keys| :: Changed(fl, m.configs[m.keys[i]], m.keys[i], d))
    || d.moveAll != map[]
  }

  /** The embedded handler's update gate: only `changed?`, with no look at `move_all` as a whole. */
  predicate AnyChanged(fl: Flavor, m: Model, d: DocState)
    requires Configured(m, m.keys)
  {
    exists i | 0 <= i < |m.keys| :: Changed(fl, m.configs[m.keys[i]], m.keys[i], d)
  }

  /** The guard at the head of `apply_one_position`. */
  predicate Gate(fl: Flavor, conf: FieldConf, k: Field, d: DocState) {
    (fl.BaseHandler? ==> Allowed(conf, d.rec)) && Changed(fl, conf, k, d)
  }

  /** `changed_scope_hash`: every dirty scope key with its current value. */
  function ChangedScopeHash(conf: FieldConf, d: DocState): (h: map<Key, Option<Val>>)
    ensures forall k :: k in h <==> k in ScopeKeys(conf, d.rec.attrs) && k in d.dirty
    ensures forall k | k in h :: h[k] == Attr(d.rec.attrs, k)
  {
    var ks := ScopeKeys(conf, d.rec.attrs);
    map k | k in ks && k in d.dirty :: Attr(d.rec.attrs, k)
  }

  /**
   * The record's current position: nil for a new record or a changed
   * scope; for a persisted record the stored value (read back from the
   * collection, or `orderable_position_was` when embedded, taken as the
   * last-saved copy); otherwise the in-memory one. The embedded handler
   * reads the in-memory position, as does the engine for an embedded
   * record, and the engine treats every unpersisted record as new.
   */
  function Current(fl: Flavor, d: DocState, s: Store, f: Field, scopeChanged: bool): Option<int> {
    match fl
    case BaseHandler(_, _) =>
      if NewRecord(fl, d) || scopeChanged then None
      else if d.persisted then StoredPosition(s, d.id, f)
      else Position(d.rec, f)
    case EmbeddedHandler =>
      if scopeChanged then None else Position(d.rec, f)
    case EngineFlavor(_) =>
      if !d.persisted || scopeChanged then None
      else if !d.embedded then StoredPosition(s, d.id, f)
      else Position(d.rec, f)
  }

  /** Whether the stored copy must first leave its old scope. */
  predicate ClosesOldScope(fl: Flavor, d: DocState, scopeChanged: bool) {
    !fl.EmbeddedHandler? && d.persisted && !d.embedded && scopeChanged
  }

  /** Whether the new position is also written to the stored copy at once. */
  predicate AtomicSet(fl: Flavor, d: DocState) {
    match fl
    case BaseHandler(useTx, _) => useTx && d.persisted
    case EmbeddedHandler => false
    case EngineFlavor(useTx) => useTx && d.persisted && !d.embedded
  }

  /**
   * `remove_one_position` for a record `r`: the members of its scope above
   * its position move up one; the handler base class first checks `allowed?`.
   */
  function RemoveOne(fl: Flavor, conf: FieldConf, r: Rec, s: Store): (s': Store)
    ensures fl.BaseHandler? && !Allowed(conf, r) ==> s' == s
    ensures s'.Keys == s.Keys
    ensures forall j | j in s && !ScopeOf(conf, r.attrs)(s[j].attrs) :: s'[j] == s[j]
    ensures forall j | j in s :: s'[j].attrs == s[j].attrs
  {
    if fl.BaseHandler? && !Allowed(conf, r) then s
    else CloseGap(s, ScopeOf(conf, r.attrs), conf.column, Position(r, conf.column))
  }

  /** The effect of one `apply_one_position`: the collection, the in-memory record, and the exception raised, if any. */
  datatype Outcome = Outcome(store: Store, doc: Rec, error: Option<Error>)

  /** Leaving the old scope: `find(_id)` of the stored copy, then its removal. */
  function LeaveOldScope(fl: Flavor, conf: FieldConf, d: DocState, s: Store, scopeChanged: bool): (r: Result<Store, Error>)
    ensures !ClosesOldScope(fl, d, scopeChanged) ==> r == Ok(s)
    ensures ClosesOldScope(fl, d, scopeChanged) && d.id !in s ==> r == Err(DocumentNotFound(d.id))
    ensures ClosesOldScope(fl, d, scopeChanged) && d.id in s ==> r == Ok(RemoveOne(fl, conf, s[d.id], s))
  {
    if !ClosesOldScope(fl, d, scopeChanged) then Ok(s)
    else if d.id in s then Ok(RemoveOne(fl, conf, s[d.id], s))
    else Err(DocumentNotFound(d.id))
  }

  /** Shifting the siblings for a record going to `t`, the atomic set, and the in-memory assignment. */
  function PlaceAt(fl: Flavor, conf: FieldConf, d: DocState, s: Store, scope: Scope, current: Option<int>, t: int): (o: Outcome)
    ensures o.error.None? && o.doc == WithPosition(d.rec, conf.column, Some(t))
    ensures o.store.Keys == s.Keys
    ensures forall j | j in s && j != d.id && !scope(s[j].attrs) :: o.store[j] == s[j]
  {
    var s2 := Shift(s, scope, conf.column, current, t);
    var s3 := if AtomicSet(fl, d) then SetPosition(s2, d.id, conf.column, t, ChangedScopeHash(conf, d)) else s2;
    Outcome(s3, WithPosition(d.rec, conf.column, Some(t)), None)
  }

  /**
   * `apply_one_position(field, target)` as written: the old scope is left
   * before the target is resolved, so an invalid target raises after that
   * write.
   */
  function ApplyOne(fl: Flavor, conf: FieldConf, k: Field, target: Option<Target>, d: DocState, s: Store): (o: Outcome)
    ensures !Gate(fl, conf, k, d) ==> o == Outcome(s, d.rec, None)
    ensures o.error.Some? ==> o.doc == d.rec
    ensures o.doc == d.rec || (conf.column in o.doc.pos && o.doc == WithPosition(d.rec, conf.column, Some(o.doc.pos[conf.column])))
    ensures o.store.Keys == s.Keys
    ensures forall j | j in s && j != d.id && !ScopeOf(conf, d.rec.attrs)(s[j].attrs) &&
                       (d.id in s ==> !ScopeOf(conf, s[d.id].attrs)(s[j].attrs)) :: o.store[j] == s[j]
  {
    if !Gate(fl, conf, k, d) then Outcome(s, d.rec, None)
    else
      var f := conf.column;
      var scope := ScopeOf(conf, d.rec.attrs);
      var sc := ScopeChanged(s, scope, d.id);
      var current := Current(fl, d, s, f, sc);
      match LeaveOldScope(fl, conf, d, s, sc)
      case Err(e) => Outcome(s, d.rec, Some(e))
      case Ok(s1) =>
        var inList := d.persisted && current.Some?;
        if inList && target.None? then Outcome(s1, d.rec, None)
        else
          match Resolve(target, conf.base, Bottom(s1, scope, f, conf.base, inList), Position(d.rec, f))
          case Err(e) => Outcome(s1, d.rec, Some(e))
          case Ok(t) => PlaceAt(fl, conf, d, s1, scope, if inList then current else None, t)
  }

  /** The exception an invalid target raises, whatever the bounds. */
  function TargetError(target: Option<Target>, p: Option<int>): (e: Error)
    requires InvalidTarget(target, p)
    ensures forall top, bottom :: Resolve(target, top, bottom, p) == Err(e)
  {
    Resolve(target, 0, 0, p).error
  }

  /**
   * `apply_one_position` with the target checked before anything is
   * written: an invalid target raises with the collection untouched;
   * otherwise exactly `ApplyOne`.
   */
  function ApplyOneChecked(fl: Flavor, conf: FieldConf, k: Field, target: Option<Target>, d: DocState, s: Store): (o: Outcome)
    ensures o.error.Some? ==> o.store == s && o.doc == d.rec
    ensures Gate(fl, conf, k, d) && InvalidTarget(target, Position(d.rec, conf.column)) ==>
              o.error == Some(TargetError(target, Position(d.rec, conf.column)))
    ensures !InvalidTarget(target, Position(d.rec, conf.column)) ==> o == ApplyOne(fl, conf, k, target, d, s)
  {
    if Gate(fl, conf, k, d) && InvalidTarget(target, Position(d.rec, conf.column)) then
      Outcome(s, d.rec, Some(TargetError(target, Position(d.rec, conf.column))))
    else
      ApplyWithValidTarget(fl, conf, k, target, d, s)
  }

  /** Without an invalid target, the only exception left is `DocumentNotFound`, raised before any write. */
  function ApplyWithValidTarget(fl: Flavor, conf: FieldConf, k: Field, target: Option<Target>, d: DocState, s: Store): (o: Outcome)
    requires !Gate(fl, conf, k, d) || !InvalidTarget(target, Position(d.rec, conf.column))
    ensures o == ApplyOne(fl, conf, k, target, d, s)
    ensures o.error.Some? ==> o.store == s
  {
    ApplyOne(fl, conf, k, target, d, s)
  }

  /** The orderable fields of `ks` all have a configuration. */
  predicate Configured(m: Model, ks: seq<Field>) {
    forall i | 0 <= i < |ks| :: ks[i] in m.configs
  }

  /** The columns the fields of `ks` are stored under. */
  function Columns(m: Model, ks: seq<Field>): (cs: set<Field>)
    requires Configured(m, ks)
    ensures forall g :: g in cs <==> exists i | 0 <= i < |ks| :: m.configs[ks[i]].column == g
  {
    set i | 0 <= i < |ks| :: m.configs[ks[i]].column
  }

  /**
   * `apply_all_positions`: `apply_one_position(field, move_all[field])` for
   * every field in order, each seeing the record as the previous one left
   * it; the first exception stops the loop.
   */
  function ApplyFields(fl: Flavor, m: Model, ks: seq<Field>, d: DocState, s: Store): (o: Outcome)
    requires Configured(m, ks)
    ensures o.store.Keys == s.Keys
    ensures o.doc.attrs == d.rec.attrs
    ensures forall g | g !in Columns(m, ks) :: Position(o.doc, g) == Position(d.rec, g)
    decreases |ks|
  {
    if ks == [] then Outcome(s, d.rec, None)
    else
      var prefix := ks[..|ks| - 1];
      assert Configured(m, prefix);
      var o := ApplyFields(fl, m, prefix, d, s);
      var k := ks[|ks| - 1];
      if o.error.Some? then o
      else ApplyOneChecked(fl, m.configs[k], k, PendingTarget(d, k), d.(rec := o.doc), o.store)
  }

  /** One more field of the fold: the next field is applied unless an earlier one raised. */
  lemma ApplyFieldsStep(fl: Flavor, m: Model, ks: seq<Field>, i: nat, d: DocState, s: Store)
    requires Configured(m, ks) && i < |ks|
    ensures Configured(m, ks[..i]) && Configured(m, ks[..i + 1])
    ensures var o := ApplyFields(fl, m, ks[..i], d, s);
            ApplyFields(fl, m, ks[..i + 1], d, s) ==
              if o.error.Some? then o
              else ApplyOneChecked(fl, m.configs[ks[i]], ks[i], PendingTarget(d, ks[i]), d.(rec := o.doc), o.store)
  {
    assert ks[..i + 1][..i] == ks[..i];
  }

  /** Once a field raises, the fields after it are not applied. */
  lemma {:induction false} ApplyFieldsStopsAtError(fl: Flavor, m: Model, ks: seq<Field>, i: nat, d: DocState, s: Store)
    requires Configured(m, ks) && i <= |ks|
    requires ApplyFields(fl, m, ks[..i], d, s).error.Some?
    ensures ApplyFields(fl, m, ks, d, s) == ApplyFields(fl, m, ks[..i], d, s)
    decreases |ks|
  {
    if i < |ks| {
      var prefix := ks[..|ks| - 1];
      assert prefix[..i] == ks[..i];
      ApplyFieldsStopsAtError(fl, m, prefix, i, d, s);
    } else {
      assert ks[..i] == ks;
    }
  }

  /** `remove_all_positions`: `remove_one_position` of every field in order, for the record `r`. */
  function RemoveFields(fl: Flavor, m: Model, ks: seq<Field>, r: Rec, s: Store): (s': Store)
    requires Configured(m, ks)
    ensures s'.Keys == s.Keys
    ensures forall j | j in s :: s'[j].attrs == s[j].attrs
    ensures forall j | j in s && (forall i | 0 <= i < |ks| :: !ScopeOf(m.configs[ks[i]], r.attrs)(s[j].attrs)) :: s'[j] == s[j]
    decreases |ks|
  {
    if ks == [] then s
    else
      var prefix := ks[..|ks| - 1];
      assert Configured(m, prefix);
      var k := ks[|ks| - 1];
      RemoveOne(fl, m.configs[k], r, RemoveFields(fl, m, prefix, r, s))
  }

  /** One more field of the removal fold. */
  lemma RemoveFieldsStep(fl: Flavor, m: Model, ks: seq<Field>, i: nat, r: Rec, s: Store)
    requires Configured(m, ks) && i < |ks|
    ensures Configured(m, ks[..i]) && Configured(m, ks[..i + 1])
    ensures RemoveFields(fl, m, ks[..i + 1], r, s) == RemoveOne(fl, m.configs[ks[i]], r, RemoveFields(fl, m, ks[..i], r, s))
  {
    assert ks[..i + 1][..i] == ks[..i];
  }

  /** `clear_all_positions`: every orderable field of the record set to nil. */
  function ClearFields(m: Model, ks: seq<Field>, r: Rec): (r': Rec)
    requires Configured(m, ks)
    ensures r'.attrs == r.attrs
    ensures forall g :: Position(r', g) == if g in Columns(m, ks) then None else Position(r, g)
    decreases |ks|
  {
    if ks == [] then r
    else
      var prefix := ks[..|ks| - 1];
      assert Configured(m, prefix);
      WithPosition(ClearFields(m, prefix, r), m.configs[ks[|ks| - 1]].column, None)
  }
}
