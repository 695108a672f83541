/**
 * The database collection as an object: the stored records, changed only
 * through the three writes the ordering code issues (`inc` over a filter,
 * an atomic `set` of one record, and the save of a whole record).
 */
module Collections {
  import opened Wrappers
  import opened Records

  /** The value of `$set` for some attributes: nil unsets. */
  function SetAttrs(a: Attrs, changes: map<Key, Option<Val>>): (a': Attrs)
    ensures forall k :: Attr(a', k) == if k in changes then changes[k] else Attr(a, k)
  {
    map k | k in a.Keys + changes.Keys && (k in changes ==> changes[k].Some?) ::
      if k in changes then changes[k].value else a[k]
  }

  /**
   * `doc.set(f => t, ...)` on the stored copy of record `id`: its position
   * becomes `t` and the listed attributes take their new values; a record
   * missing from the collection is not written.
   */
  function SetPosition(s: Store, id: Id, f: Field, t: int, changes: map<Key, Option<Val>>): (s': Store)
    ensures s'.Keys == s.Keys
    ensures forall j | j in s && j != id :: s'[j] == s[j]
    ensures id in s ==> s'[id] == Rec(SetAttrs(s[id].attrs, changes), s[id].pos[f := t])
  {
    if id in s then s[id := Rec(SetAttrs(s[id].attrs, changes), s[id].pos[f := t])] else s
  }

  class Collection {
    var records: Store

    constructor(records: Store)
      ensures this.records == records
    {
      this.records := records;
    }

    /** `scope.where(f => window).inc(f => d)`. */
    method Inc(scope: Scope, f: Field, w: Window, d: int)
      modifies this
      ensures records == Records.Inc(old(records), scope, f, w, d)
    {
      records := Records.Inc(records, scope, f, w, d);
    }

    /** An atomic `set` of the stored copy of one record. */
    method Set(id: Id, f: Field, t: int, changes: map<Key, Option<Val>>)
      modifies this
      ensures records == SetPosition(old(records), id, f, t, changes)
    {
      records := SetPosition(records, id, f, t, changes);
    }

    /** Inserting or updating a record with its in-memory state. */
    method Write(id: Id, r: Rec)
      modifies this
      ensures records == old(records)[id := r]
    {
      records := records[id := r];
    }

    /** An aborted transaction: its writes are discarded, leaving the records as they were when it started. */
    method Rollback(snapshot: Store)
      modifies this
      ensures records == snapshot
    {
      records := snapshot;
    }

    /** `find(_id)`: the stored copy, or `DocumentNotFound`. */
    method Find(id: Id) returns (r: Result<Rec, Error>)
      ensures id in records ==> r == Ok(records[id])
      ensures id !in records ==> r == Err(DocumentNotFound(id))
    {
      if id in records {
        r := Ok(records[id]);
      } else {
        r := Err(DocumentNotFound(id));
      }
    }

    /** `where(_id: id).pluck(f).first`: the stored position, nil when the record is absent or has none. */
    method PluckPosition(id: Id, f: Field) returns (p: Option<int>)
      ensures p == StoredPosition(records, id, f)
    {
      if id in records {
        p := Position(records[id], f);
      } else {
        p := None;
      }
    }
  }

  function StoredPosition(s: Store, id: Id, f: Field): (p: Option<int>)
    ensures p.Some? <==> id in s && f in s[id].pos
    ensures p.Some? ==> p.value == s[id].pos[f]
  {
    if id in s then Position(s[id], f) else None
  }
}
