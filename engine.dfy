/**
 * The earlier positioning engine: one object per save that applies every
 * orderable field around the host's save, removes the positions on
 * destroy, and derives the transaction settings and the advisory-lock key
 * from the field configurations.
 */
module Engines {
  import opened Wrappers
  import opened Records
  import opened Scopes
  import opened Resolver
  import opened Helpers
  import opened Collections
  import opened Documents
  import opened Positioning
  import opened Handlers

  /** `use_transactions`: some orderable field enables transactions. */
  function AnyUsesTransactions(m: Model, ks: seq<Field>): (b: bool)
    requires Configured(m, ks)
    ensures b <==> exists i | 0 <= i < |ks| :: m.configs[ks[i]].useTransactions
    decreases |ks|
  {
    if ks == [] then false
    else
      assert Configured(m, ks[1..]);
      var rest := AnyUsesTransactions(m, ks[1..]);
      assert forall i | 0 <= i < |ks[1..]| :: ks[1..][i] == ks[i + 1];
      m.configs[ks[0]].useTransactions || rest
  }

  /** `transaction_max_retries`: the largest configured retry count, nil when no field sets one. */
  function MaxRetries(m: Model, ks: seq<Field>): (r: Option<int>)
    requires Configured(m, ks)
    ensures r.None? <==> forall i | 0 <= i < |ks| :: m.configs[ks[i]].maxRetries.None?
    ensures r.Some? ==> exists i | 0 <= i < |ks| :: m.configs[ks[i]].maxRetries == r
    ensures r.Some? ==> forall i | 0 <= i < |ks| && m.configs[ks[i]].maxRetries.Some? :: m.configs[ks[i]].maxRetries.value <= r.value
    decreases |ks|
  {
    if ks == [] then None
    else
      assert Configured(m, ks[1..]);
      var rest := MaxRetries(m, ks[1..]);
      assert forall i | 0 <= i < |ks[1..]| :: ks[1..][i] == ks[i + 1];
      var here := m.configs[ks[0]].maxRetries;
      if here.None? then rest
      else if rest.None? || rest.value <= here.value then here
      else rest
  }

  /** `Array#join`: the pieces with `sep` between consecutive ones. */
  function Join(pieces: seq<string>, sep: char): string
    decreases |pieces|
  {
    if |pieces| == 0 then ""
    else if |pieces| == 1 then pieces[0]
    else pieces[0] + [sep] + Join(pieces[1..], sep)
  }

  /** Cutting a string at every `sep`; the partner of `Join`. */
  function Split(s: string, sep: char): (ps: seq<string>)
    ensures |ps| >= 1
    decreases |s|
  {
    if s == [] then [""]
    else
      var rest := Split(s[1..], sep);
      if s[0] == sep then [""] + rest else [[s[0]] + rest[0]] + rest[1..]
  }

  lemma {:induction false} SplitWithoutSeparator(a: string, sep: char)
    requires sep !in a
    ensures Split(a, sep) == [a]
    decreases |a|
  {
    if a != [] {
      SplitWithoutSeparator(a[1..], sep);
      assert [a[0]] + a[1..] == a;
    }
  }

  lemma {:induction false} SplitAtFirstSeparator(a: string, b: string, sep: char)
    requires sep !in a
    ensures Split(a + [sep] + b, sep) == [a] + Split(b, sep)
    decreases |a|
  {
    var s := a + [sep] + b;
    if a == [] {
      assert s[1..] == b;
    } else {
      assert s[1..] == a[1..] + [sep] + b;
      SplitAtFirstSeparator(a[1..], b, sep);
      assert [a[0]] + a[1..] == a;
    }
  }

  /** Pieces free of the separator are recovered from their join. */
  lemma {:induction false} SplitJoin(pieces: seq<string>, sep: char)
    requires |pieces| >= 1
    requires forall i | 0 <= i < |pieces| :: sep !in pieces[i]
    ensures Split(Join(pieces, sep), sep) == pieces
    decreases |pieces|
  {
    if |pieces| == 1 {
      SplitWithoutSeparator(pieces[0], sep);
    } else {
      SplitJoin(pieces[1..], sep);
      SplitAtFirstSeparator(pieces[0], Join(pieces[1..], sep), sep);
      assert [pieces[0]] + pieces[1..] == pieces;
    }
  }

  /** The decimal spelling of an Integer, with a leading minus when negative. */
  function IntToString(n: int): string {
    if n < 0 then "-" + NatToString(-n) else NatToString(n)
  }

  /** `to_s` of an attribute value; nil spells as the empty string. */
  function ValueText(v: Option<Val>): string {
    match v
    case None => ""
    case Some(VBool(b)) => if b then "true" else "false"
    case Some(VInt(i)) => IntToString(i)
    case Some(VStr(s)) => s
  }

  /** `sel.to_a.flatten` spelled out: key, value, key, value, … */
  function FlattenedPairs(sel: Selector): (ps: seq<string>)
    ensures |ps| == 2 * |sel|
    ensures forall i | 0 <= i < |sel| :: ps[2 * i] == sel[i].0 && ps[2 * i + 1] == ValueText(sel[i].1)
  {
    if sel == [] then []
    else
      var rest := FlattenedPairs(sel[1..]);
      [sel[0].0, ValueText(sel[0].1)] + rest
  }

  /** The pieces of the engine's lock key: the collection name, then the selector keys (scope changed) or the flattened pairs. */
  function EngineLockPieces(collectionName: string, sel: Selector, scopeChanged: bool): seq<string> {
    [collectionName] + (if scopeChanged then SelectorKeys(sel) else FlattenedPairs(sel))
  }

  /** `lock_scope` of the engine: the pieces joined with `|`. */
  function EngineLockScope(collectionName: string, sel: Selector, scopeChanged: bool): string {
    Join(EngineLockPieces(collectionName, sel, scopeChanged), '|')
  }

  /** `lock_scope` of the handler base class: the field name in place of the selector for the generic lock. */
  function HandlerLockScope(collectionName: string, field: Field, sel: Selector, generic: bool): string {
    Join([collectionName] + (if generic then [field] else FlattenedPairs(sel)), '|')
  }

  /** A flattened selector holds a `|` only where one of its keys or values does. */
  lemma {:induction false} FlattenedPairsFree(sel: Selector)
    requires forall i | 0 <= i < |sel| :: '|' !in sel[i].0 && '|' !in ValueText(sel[i].1)
    ensures forall j | 0 <= j < |FlattenedPairs(sel)| :: '|' !in FlattenedPairs(sel)[j]
    decreases |sel|
  {
    if sel != [] {
      assert forall i | 0 <= i < |sel[1..]| :: sel[1..][i] == sel[i + 1];
      FlattenedPairsFree(sel[1..]);
    }
  }

  /**
   * The engine's lock key names the collection and then, in order, the
   * selector keys or the keys and values, whenever none of them holds a `|`.
   */
  lemma EngineLockScopeParts(collectionName: string, sel: Selector, scopeChanged: bool)
    requires '|' !in collectionName
    requires forall i | 0 <= i < |sel| :: '|' !in sel[i].0 && '|' !in ValueText(sel[i].1)
    ensures Split(EngineLockScope(collectionName, sel, scopeChanged), '|') == EngineLockPieces(collectionName, sel, scopeChanged)
  {
    var pieces := EngineLockPieces(collectionName, sel, scopeChanged);
    FlattenedPairsFree(sel);
    assert forall j | 0 <= j < |pieces| :: '|' !in pieces[j];
    SplitJoin(pieces, '|');
  }

  /** The handler's lock key splits back into the collection name and the field, or the flattened selector. */
  lemma HandlerLockScopeParts(collectionName: string, field: Field, sel: Selector, generic: bool)
    requires '|' !in collectionName && '|' !in field
    requires forall i | 0 <= i < |sel| :: '|' !in sel[i].0 && '|' !in ValueText(sel[i].1)
    ensures generic ==> Split(HandlerLockScope(collectionName, field, sel, generic), '|') == [collectionName, field]
    ensures !generic ==> Split(HandlerLockScope(collectionName, field, sel, generic), '|') == [collectionName] + FlattenedPairs(sel)
  {
    if generic {
      SplitJoin([collectionName, field], '|');
    } else {
      var pieces := [collectionName] + FlattenedPairs(sel);
      FlattenedPairsFree(sel);
      assert forall j | 0 <= j < |pieces| :: '|' !in pieces[j];
      SplitJoin(pieces, '|');
    }
  }

  class Engine {
    const doc: Document
    const coll: Collection
    const model: Model
    /** `use_transactions`, fixed by the configurations. */
    const useTransactions: bool

    constructor(doc: Document, coll: Collection, model: Model)
      requires Configured(model, model.keys)
      ensures this.doc == doc && this.coll == coll && this.model == model
      ensures useTransactions == AnyUsesTransactions(model, model.keys)
    {
      this.doc := doc;
      this.coll := coll;
      this.model := model;
      this.useTransactions := AnyUsesTransactions(model, model.keys);
    }

    function Flavor(): Flavor {
      EngineFlavor(useTransactions)
    }

    /** Whether `with_transaction` opens a transaction: transactions are on and the document is not embedded. */
    predicate InTransaction()
      reads doc
    {
      useTransactions && !doc.embedded
    }

    /** `remove_one_position`: the gap above the in-memory position is closed; the engine does not look at `allowed?`. */
    method RemoveOnePosition(k: Field)
      requires Configured(model, model.keys) && k in model.configs
      modifies coll
      ensures coll.records == RemoveOne(Flavor(), model.configs[k], doc.rec, old(coll.records))
    {
      CloseGapAt(coll, model.configs[k], doc.rec);
    }

    /** `remove_positions`: every field's gap, in order. */
    method RemovePositions()
      requires Configured(model, model.keys)
      modifies coll
      ensures coll.records == RemoveFields(Flavor(), model, model.keys, doc.rec, old(coll.records))
    {
      ghost var s0 := coll.records;
      var ks := model.keys;
      var i := 0;
      while i < |ks|
        invariant 0 <= i <= |ks|
        invariant Configured(model, ks[..i])
        invariant coll.records == RemoveFields(Flavor(), model, ks[..i], doc.rec, s0)
      {
        RemoveFieldsStep(Flavor(), model, ks, i, doc.rec, s0);
        RemoveOnePosition(ks[i]);
        i := i + 1;
      }
      assert ks[..i] == ks;
    }

    /** The current position: nil when unpersisted or moved to another scope, the stored value unless embedded. */
    method CurrentPosition(d: DocState, f: Field, scopeChanged: bool) returns (current: Option<int>)
      requires Configured(model, model.keys)
      ensures current == Current(Flavor(), d, coll.records, f, scopeChanged)
    {
      if !d.persisted || scopeChanged {
        current := None;
      } else if !d.embedded {
        current := coll.PluckPosition(d.id, f);
      } else {
        current := Position(d.rec, f);
      }
    }

    /** Leaving the old scope: the stored copy is found and its gap closed, for a persisted, non-embedded record that changed scope. */
    method LeaveOldScopeOf(conf: FieldConf, d: DocState, scopeChanged: bool) returns (err: Option<Error>)
      requires Configured(model, model.keys)
      modifies coll
      ensures var r := LeaveOldScope(Flavor(), conf, d, old(coll.records), scopeChanged);
              if r.Ok? then err.None? && coll.records == r.value
              else err == Some(r.error) && coll.records == old(coll.records)
    {
      err := None;
      if d.persisted && !d.embedded && scopeChanged {
        var existing := coll.Find(d.id);
        if existing.Err? {
          return Some(existing.error);
        }
        CloseGapAt(coll, conf, existing.value);
      }
    }

    /** Shifting the siblings, the atomic set under a transaction, and the in-memory assignment. */
    method PlaceRecord(conf: FieldConf, d: DocState, scope: Scope, current: Option<int>, t: int)
      requires Configured(model, model.keys)
      requires d.id == doc.id && d.rec == doc.rec && d.persisted == doc.persisted && d.embedded == doc.embedded
      modifies doc, coll
      ensures var o := PlaceAt(Flavor(), conf, d, old(coll.records), scope, current, t);
              coll.records == o.store && doc.rec == o.doc
      ensures doc.Flags() == old(doc.Flags())
    {
      ShiftSiblings(coll, scope, conf.column, current, t);
      if useTransactions && doc.persisted && !doc.embedded {
        coll.Set(doc.id, conf.column, t, ChangedScopeHash(conf, d));
      }
      doc.rec := WithPosition(doc.rec, conf.column, Some(t));
    }

    /** `apply_one_position(field, target)`, with the target checked before the stored copy leaves its old scope. */
    method ApplyOnePosition(k: Field, target: Option<Target>) returns (err: Option<Error>)
      requires Configured(model, model.keys) && k in model.configs
      modifies doc, coll
      ensures var o := ApplyOneChecked(Flavor(), model.configs[k], k, target, old(doc.State()), old(coll.records));
              coll.records == o.store && doc.rec == o.doc && err == o.error
      ensures doc.Flags() == old(doc.Flags())
    {
      var conf := model.configs[k];
      var d := doc.State();
      var fl := Flavor();
      ghost var s0 := coll.records;
      ghost var o := ApplyOneChecked(fl, conf, k, target, d, s0);
      var f := conf.column;
      if !Changed(fl, conf, k, d) {
        return None;
      }
      if InvalidTarget(target, Position(d.rec, f)) {
        return Some(TargetError(target, Position(d.rec, f)));
      }
      assert o == ApplyOne(fl, conf, k, target, d, s0);
      var scope := ScopeOf(conf, d.rec.attrs);
      var scopeChanged := ScopeChanged(coll.records, scope, d.id);
      var current := CurrentPosition(d, f, scopeChanged);
      err := LeaveOldScopeOf(conf, d, scopeChanged);
      if err.Some? {
        return;
      }
      var inList := d.persisted && current.Some?;
      if inList && target.None? {
        return None;
      }
      var t := Resolve(target, conf.base, Bottom(coll.records, scope, f, conf.base, inList), Position(d.rec, f)).value;
      assert o == PlaceAt(fl, conf, d, coll.records, scope, if inList then current else None, t);
      PlaceRecord(conf, d, scope, if inList then current else None, t);
      return None;
    }

    /** One field of `update_positions`, once the earlier ones raised nothing. */
    method ApplyNextPosition(ks: seq<Field>, i: nat, ghost d0: DocState, ghost s0: Store) returns (err: Option<Error>)
      requires ks == model.keys && Configured(model, ks) && i < |ks|
      requires var o := ApplyFields(Flavor(), model, ks[..i], d0, s0);
               coll.records == o.store && doc.rec == o.doc && o.error.None?
      requires doc.State() == d0.(rec := doc.rec)
      modifies doc, coll
      ensures var o := ApplyFields(Flavor(), model, ks[..i + 1], d0, s0);
              coll.records == o.store && doc.rec == o.doc && err == o.error
      ensures err.Some? ==> ApplyFields(Flavor(), model, ks, d0, s0) == ApplyFields(Flavor(), model, ks[..i + 1], d0, s0)
      ensures doc.Flags() == old(doc.Flags())
    {
      var target := PendingTarget(doc.State(), ks[i]);
      ApplyFieldsStep(Flavor(), model, ks, i, d0, s0);
      err := ApplyOnePosition(ks[i], target);
      if err.Some? {
        ApplyFieldsStopsAtError(Flavor(), model, ks, i + 1, d0, s0);
      }
    }

    /** `orderable_keys.map { apply_one_position(field, move_all[field]) }`: the first exception stops the rest. */
    method ApplyEachPosition() returns (err: Option<Error>)
      requires Configured(model, model.keys)
      modifies doc, coll
      ensures var o := ApplyFields(Flavor(), model, model.keys, old(doc.State()), old(coll.records));
              coll.records == o.store && doc.rec == o.doc && err == o.error
      ensures doc.Flags() == old(doc.Flags())
    {
      ghost var d0 := doc.State();
      ghost var s0 := coll.records;
      var ks := model.keys;
      var i := 0;
      err := None;
      while i < |ks|
        invariant 0 <= i <= |ks|
        invariant Configured(model, ks[..i])
        invariant var o := ApplyFields(Flavor(), model, ks[..i], d0, s0);
                  coll.records == o.store && doc.rec == o.doc && err == o.error
        invariant doc.Flags() == old(doc.Flags()) && doc.State() == d0.(rec := doc.rec)
        invariant err.None?
      {
        err := ApplyNextPosition(ks, i, d0, s0);
        i := i + 1;
        if err.Some? {
          return;
        }
      }
      assert ks[..i] == ks;
    }

    /** The save block `update_positions` yields to: the record is written and becomes persisted and clean. */
    method Persist()
      modifies doc, coll
      ensures coll.records == old(coll.records)[doc.id := doc.rec]
      ensures doc.rec == old(doc.rec) && doc.persisted && !doc.newRecord && doc.dirty == {}
      ensures doc.moveAllVar == old(doc.moveAllVar) && doc.rootDestroyed == old(doc.rootDestroyed)
    {
      coll.Write(doc.id, doc.rec);
      doc.persisted := true;
      doc.newRecord := false;
      doc.dirty := {};
    }

    /**
     * `update_positions { save }`: with no field changed only the save runs.
     * Otherwise every field is applied inside `with_transaction`, and the
     * save runs inside it for a new record and after it for an existing one;
     * an exception skips the save, and a transaction discards the writes.
     */
    method UpdatePositions() returns (err: Option<Error>)
      requires Configured(model, model.keys)
      modifies doc, coll
      ensures !AnyChanged(Flavor(), model, old(doc.State())) ==>
                err.None? && doc.rec == old(doc.rec) && coll.records == old(coll.records)[doc.id := doc.rec]
      ensures AnyChanged(Flavor(), model, old(doc.State())) ==>
                var o := Committed(InTransaction(), ApplyFields(Flavor(), model, model.keys, old(doc.State()), old(coll.records)), old(coll.records));
                doc.rec == o.doc && err == o.error &&
                (err.None? ==> coll.records == o.store[doc.id := o.doc]) &&
                (err.Some? ==> coll.records == o.store)
      ensures err.None? ==> doc.persisted && !doc.newRecord && doc.dirty == {}
      ensures doc.moveAllVar == old(doc.moveAllVar) && doc.rootDestroyed == old(doc.rootDestroyed)
    {
      if !AnyChanged(Flavor(), model, doc.State()) {
        Persist();
        return None;
      }
      var newRecord := doc.newRecord;
      var snapshot := coll.records;
      err := ApplyEachPosition();
      if err.None? && newRecord {
        Persist();
      }
      if err.Some? {
        if InTransaction() {
          coll.Rollback(snapshot);
        }
        return;
      }
      if !newRecord {
        Persist();
      }
    }
  }
}
