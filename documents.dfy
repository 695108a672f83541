/**
 * The configuration of an orderable field as the positioning code reads it,
 * the state of the document being saved, and the document object with its
 * pending-move buffer (`move_to` and friends).
 */
module Documents {
  import opened Wrappers
  import opened Records
  import opened Scopes

  /** An `if:` / `unless:` condition: a Proc over the document, a method name, or a literal. */
  datatype Cond = ProcCond(call: Rec -> bool) | SymbolCond(name: Key) | LiteralCond(value: Val)

  /** What the positioning code reads from one field's configuration. */
  datatype FieldConf = FieldConf(
    column: Field,                 // `orderable_field`: the stored attribute
    base: int,                     // `orderable_top`
    scope: ScopeSpec,
    ifCond: Option<Cond>,
    unlessCond: Option<Cond>,
    useTransactions: bool,
    maxRetries: Option<int>)

  /** The orderable fields of a class, in declaration order, and their configurations. */
  datatype Model = Model(keys: seq<Field>, configs: map<Field, FieldConf>)

  /** A snapshot of the document the handlers work on. */
  datatype DocState = DocState(
    id: Id,
    rec: Rec,                                  // in-memory attributes and positions
    persisted: bool,
    newRecord: bool,
    embedded: bool,
    dirty: set<Key>,                           // attributes changed since load
    moveAll: map<Field, Option<Target>>,       // pending move targets
    rootDestroyed: bool)

  /** The pending target of field `k`: `move_all[k]`, nil when absent. */
  function PendingTarget(d: DocState, k: Field): (t: Option<Target>)
    ensures k !in d.moveAll ==> t.None?
    ensures k in d.moveAll ==> t == d.moveAll[k]
  {
    if k in d.moveAll then d.moveAll[k] else None
  }

  class Document {
    const id: Id
    const embedded: bool
    /** `default_orderable_column` of the document's class. */
    const defaultColumn: Field
    var rec: Rec
    var persisted: bool
    var newRecord: bool
    var dirty: set<Key>
    /** `@move_all`, unset (nil) until the first move is recorded. */
    var moveAllVar: Option<map<Field, Option<Target>>>
    var rootDestroyed: bool

    constructor(id: Id, embedded: bool, defaultColumn: Field, rec: Rec, persisted: bool)
      ensures this.id == id && this.embedded == embedded && this.defaultColumn == defaultColumn
      ensures this.rec == rec && this.persisted == persisted && newRecord == !persisted
      ensures dirty == {} && moveAllVar.None? && !rootDestroyed
    {
      this.id := id;
      this.embedded := embedded;
      this.defaultColumn := defaultColumn;
      this.rec := rec;
      this.persisted := persisted;
      this.newRecord := !persisted;
      this.dirty := {};
      this.moveAllVar := None;
      this.rootDestroyed := false;
    }

    /** `move_all`: the pending targets, empty when nothing was recorded. */
    function MoveAll(): (m: map<Field, Option<Target>>)
      reads this
      ensures moveAllVar.None? ==> m == map[]
      ensures moveAllVar.Some? ==> m == moveAllVar.value
    {
      moveAllVar.GetOr(map[])
    }

    /** Everything of the document but its attributes and positions. */
    function Flags(): (bool, bool, set<Key>, Option<map<Field, Option<Target>>>, bool)
      reads this
    {
      (persisted, newRecord, dirty, moveAllVar, rootDestroyed)
    }

    function State(): DocState
      reads this
    {
      DocState(id, rec, persisted, newRecord, embedded, dirty, MoveAll(), rootDestroyed)
    }

    /** `move_column_to`: records `position` for `column` (the default column when none is given), keeping every other entry. */
    method MoveColumnTo(position: Option<Target>, column: Option<Field>)
      modifies this
      ensures MoveAll() == old(MoveAll())[column.GetOr(defaultColumn) := position]
      ensures rec == old(rec) && persisted == old(persisted) && newRecord == old(newRecord)
      ensures dirty == old(dirty) && rootDestroyed == old(rootDestroyed)
    {
      moveAllVar := Some(MoveAll()[column.GetOr(defaultColumn) := position]);
    }

    /** `move_to` (also `insert_at` and `move_to=`): records the target without saving. */
    method MoveTo(position: Option<Target>, column: Option<Field>)
      modifies this
      ensures MoveAll() == old(MoveAll())[column.GetOr(defaultColumn) := position]
      ensures rec == old(rec) && persisted == old(persisted) && newRecord == old(newRecord)
      ensures dirty == old(dirty) && rootDestroyed == old(rootDestroyed)
    {
      MoveColumnTo(position, column);
    }

    method MoveToTop(column: Option<Field>)
      modifies this
      ensures MoveAll() == old(MoveAll())[column.GetOr(defaultColumn) := Some(TSym("top"))]
      ensures rec == old(rec) && persisted == old(persisted) && newRecord == old(newRecord)
      ensures dirty == old(dirty) && rootDestroyed == old(rootDestroyed)
    {
      MoveTo(Some(TSym("top")), column);
    }

    method MoveToBottom(column: Option<Field>)
      modifies this
      ensures MoveAll() == old(MoveAll())[column.GetOr(defaultColumn) := Some(TSym("bottom"))]
      ensures rec == old(rec) && persisted == old(persisted) && newRecord == old(newRecord)
      ensures dirty == old(dirty) && rootDestroyed == old(rootDestroyed)
    {
      MoveTo(Some(TSym("bottom")), column);
    }

    method MoveHigher(column: Option<Field>)
      modifies this
      ensures MoveAll() == old(MoveAll())[column.GetOr(defaultColumn) := Some(TSym("higher"))]
      ensures rec == old(rec) && persisted == old(persisted) && newRecord == old(newRecord)
      ensures dirty == old(dirty) && rootDestroyed == old(rootDestroyed)
    {
      MoveTo(Some(TSym("higher")), column);
    }

    method MoveLower(column: Option<Field>)
      modifies this
      ensures MoveAll() == old(MoveAll())[column.GetOr(defaultColumn) := Some(TSym("lower"))]
      ensures rec == old(rec) && persisted == old(persisted) && newRecord == old(newRecord)
      ensures dirty == old(dirty) && rootDestroyed == old(rootDestroyed)
    {
      MoveTo(Some(TSym("lower")), column);
    }
  }
}
