/**
 * The option normalisers of the four configuration versions: the field
 * config of the current version, the model config and the configuration
 * class of older versions, and the oldest `Configurable` mixin. Each starts
 * from defaults, lays the caller's Hash over them, moves `:as` into the
 * nested field options and normalises `:scope`.
 */
module Configs {
  import opened Wrappers
  import opened Hashes
  import Records
  import Scopes

  /** The host class's `relations`: each relation name with the foreign key it stores. */
  type Relations = map<string, string>

  /**
   * The attributes of the global configuration (`Mongoid::Orderable.config`)
   * that the normalisers read. It is an input: the versions read different
   * attributes of it.
   */
  datatype Globals = Globals(
    field: RVal, column: RVal, fieldAlias: RVal, index: RVal, scope: RVal, base: RVal,
    fieldOpts: Hash, useTransactions: RVal, transactionMaxRetries: RVal, lockCollection: RVal)

  const AsKey := Sym("as")
  const ScopeKey := Sym("scope")
  const FieldKey := Sym("field")
  const ColumnKey := Sym("column")
  const FieldOptionsKey := Sym("field_options")
  const FieldOptsKey := Sym("field_opts")

  /** `FIELD_OPTIONS`, the keys moved into the nested field options; the same in every version. */
  const FieldOptionKeys: seq<HashKey> := [AsKey]

  // ---------------------------------------------------------------------------
  // Ruby's `to_s` and `inspect`, as far as scope values need them
  // ---------------------------------------------------------------------------

  function DigitChar(d: int): (c: char)
    requires 0 <= d < 10
    ensures '0' <= c <= '9'
  {
    "0123456789"[d]
  }

  /** The decimal digits of a natural number. */
  function Decimal(n: nat): (s: string)
    ensures |s| >= 1 && forall i | 0 <= i < |s| :: '0' <= s[i] <= '9'
  {
    if n < 10 then [DigitChar(n)] else Decimal(n / 10) + [DigitChar(n % 10)]
  }

  /** `inspect` of a value inside an array; a nested collection is shown in brief. */
  function InspectElement(v: RVal): (s: string)
    ensures |s| >= 1
  {
    match v
    case RNil => "nil"
    case RBool(b) => if b then "true" else "false"
    case RInt(i) => if i < 0 then "-" + Decimal(-i) else Decimal(i)
    case RSym(n) => ":" + n
    case RStr(s) => "\"" + s + "\""
    case RArray(_) => "[...]"
    case RHash(_) => "{...}"
    case RProc => "#<Proc>"
    case RClass(n) => if n == "" then "#<Class>" else n
  }

  /** The elements' `inspect` joined with ", ". */
  function InspectElements(es: seq<RVal>): string {
    if es == [] then ""
    else if |es| == 1 then InspectElement(es[0])
    else InspectElements(es[..|es| - 1]) + ", " + InspectElement(es[|es| - 1])
  }

  /** `v.to_s`: an Array shows as its `inspect`, which starts with a bracket. */
  function ToS(v: RVal): (s: string)
    ensures v.RArray? ==> |s| >= 1 && s[0] == '['
    ensures v.RSym? ==> s == v.name
  {
    match v
    case RSym(n) => n
    case RStr(s) => s
    case RNil => ""
    case RArray(es) => "[" + InspectElements(es) + "]"
    case _ => InspectElement(v)
  }

  /** `h[:scope]`, with nil for a missing key. */
  function ScopeOf(h: Hash): RVal {
    match Get(h, ScopeKey)
    case Some(v) => v
    case None => RNil
  }

  // ---------------------------------------------------------------------------
  // `set_field_options`: moving listed keys into a nested Hash
  // ---------------------------------------------------------------------------

  /** A hash whose `nested` key holds a Hash. */
  predicate HoldsHash(h: Hash, nested: HashKey) {
    Get(h, nested).Some? && Get(h, nested).value.RHash?
  }

  /** The nested Hash under `nested`. */
  function Nested(h: Hash, nested: HashKey): Hash
    requires HoldsHash(h, nested)
  {
    Get(h, nested).value.entries
  }

  /**
   * `keys.each { |key| next unless h.key?(key); h[nested][key] = h.delete(key) }`:
   * each listed key that `h` holds is deleted from it and stored in the nested Hash.
   */
  function MoveKeys(h: Hash, nested: HashKey, keys: seq<HashKey>): (r: Hash)
    requires WellFormed(h) && HoldsHash(h, nested) && nested !in keys
    ensures WellFormed(r) && HoldsHash(r, nested)
    ensures WellFormed(Nested(h, nested)) ==> WellFormed(Nested(r, nested))
    ensures forall k | k in keys :: Get(r, k).None?
    ensures forall j | j !in keys && j != nested :: Get(r, j) == Get(h, j)
    ensures forall k :: Get(Nested(r, nested), k) ==
              (if k in keys && k in KeySet(h) then Get(h, k) else Get(Nested(h, nested), k))
  {
    if keys == [] then h
    else
      var init := keys[..|keys| - 1];
      var key := keys[|keys| - 1];
      assert forall j :: j in keys <==> j in init || j == key;
      var h1 := MoveKeys(h, nested, init);
      if key !in KeySet(h1) then h1
      else
        var (h2, v) := Delete(h1, key);
        Put(h2, nested, RHash(Put(Nested(h2, nested), key, v.value)))
  }

  /** The `each` loop of `set_field_options`, over a hash value. */
  method MoveEach(h: Hash, nested: HashKey, keys: seq<HashKey>) returns (r: Hash)
    requires WellFormed(h) && HoldsHash(h, nested) && nested !in keys
    ensures r == MoveKeys(h, nested, keys)
  {
    r := h;
    var i := 0;
    while i < |keys|
      invariant 0 <= i <= |keys|
      invariant r == MoveKeys(h, nested, keys[..i])
    {
      assert keys[..i + 1][..i] == keys[..i];
      var key := keys[i];
      if key in KeySet(r) {
        var (h2, v) := Delete(r, key);
        r := Put(h2, nested, RHash(Put(Nested(h2, nested), key, v.value)));
      }
      i := i + 1;
    }
    assert keys[..|keys|] == keys;
  }

  // ---------------------------------------------------------------------------
  // configs/field_config.rb
  // ---------------------------------------------------------------------------

  /** `VALID_OPTIONS` of the field config: `CONFIG_OPTIONS | FIELD_OPTIONS`. */
  const FieldValidOptions: seq<HashKey> :=
    [FieldKey, ScopeKey, Sym("foreign_key"), Sym("inherited"), Sym("base"), Sym("index"),
     Sym("default"), Sym("if"), Sym("unless"), Sym("use_transactions"),
     Sym("transaction_max_retries"), Sym("lock_collection"), AsKey]

  /** `global_config`: the defaults read from the global configuration, `:as` included. */
  function FieldGlobals(g: Globals): (h: Hash)
    ensures WellFormed(h)
    ensures Get(h, AsKey) == Some(g.fieldAlias)
    ensures forall k | k !in FieldValidOptions :: Get(h, k).None?
    ensures Get(h, ScopeKey).None?
  {
    var h := [(FieldKey, g.field), (AsKey, g.fieldAlias), (Sym("index"), g.index), (Sym("base"), g.base),
              (Sym("use_transactions"), g.useTransactions),
              (Sym("transaction_max_retries"), g.transactionMaxRetries),
              (Sym("lock_collection"), g.lockCollection)];
    GetOfEntry(h, 1);
    forall k | k !in FieldValidOptions ensures Get(h, k).None? {
      forall i | 0 <= i < |h| ensures h[i].0 != k {
        assert h[i].0 in FieldValidOptions;
      }
      KeySetExcludes(h, k);
    }
    assert forall i | 0 <= i < |h| :: h[i].0 != ScopeKey;
    KeySetExcludes(h, ScopeKey);
    h
  }

  /** `ALIASES`: `:column` is read as `:field`. */
  function AliasKey(k: HashKey): (a: HashKey)
    ensures a != ColumnKey
    ensures k != ColumnKey ==> a == k
  {
    if k == ColumnKey then FieldKey else k
  }

  /** The caller's options with their keys symbolized and aliased, as `assign_options` merges them. */
  function FieldCallerOptions(entries: seq<Entry>): (h: Hash)
    ensures WellFormed(h)
    ensures ColumnKey !in KeySet(h)
  {
    var sym := SymbolizeKeys(entries);
    KeySetExcludes(Renamed(sym, AliasKey), ColumnKey);
    TransformKeys(sym, AliasKey)
  }

  /** `assign_options`: the caller's Hash over the defaults, restricted to `VALID_OPTIONS`; defaults only otherwise. */
  function FieldAssigned(g: Globals, input: RVal): (h: Hash)
    ensures WellFormed(h)
    ensures !input.RHash? ==> h == FieldGlobals(g)
    ensures input.RHash? ==>
      forall k :: Get(h, k) ==
        (if k !in FieldValidOptions then None
         else if k in KeySet(FieldCallerOptions(input.entries)) then Get(FieldCallerOptions(input.entries), k)
         else Get(FieldGlobals(g), k))
  {
    if input.RHash? then Slice(MergeInto(FieldGlobals(g), FieldCallerOptions(input.entries)), FieldValidOptions)
    else FieldGlobals(g)
  }

  /** `set_field_options`: a fresh `:field_options` Hash receives `:as`. */
  function FieldWithFieldOptions(h: Hash): (r: Hash)
    requires WellFormed(h)
    ensures WellFormed(r) && HoldsHash(r, FieldOptionsKey)
    ensures Get(r, AsKey).None?
    ensures forall j | j != AsKey && j != FieldOptionsKey :: Get(r, j) == Get(h, j)
    ensures Nested(r, FieldOptionsKey) == if AsKey in KeySet(h) then [(AsKey, Get(h, AsKey).value)] else []
  {
    var h1 := Put(h, FieldOptionsKey, RHash([]));
    var r := MoveKeys(h1, FieldOptionsKey, FieldOptionKeys);
    assert forall k :: k in FieldOptionKeys <==> k == AsKey;
    NestedOfOne(Nested(r, FieldOptionsKey), AsKey, Get(h, AsKey));
    r
  }

  /** A well-formed hash whose only possible key is `k` is fixed by the lookup of `k`. */
  lemma NestedOfOne(n: Hash, k: HashKey, v: Option<RVal>)
    requires WellFormed(n)
    requires forall j :: Get(n, j) == if j == k then v else None
    ensures n == if v.Some? then [(k, v.value)] else []
  {
    if n == [] {
      assert Get(n, k) == v;
    } else {
      GetOfEntry(n, 0);
      if |n| > 1 {
        GetOfEntry(n, 1);
        assert false;
      }
      assert n == [n[0]];
    }
  }

  /** One element of an Array scope: a Symbol becomes the relation's key if `lookup` names one, a String a Symbol. */
  function ScopeElement(relations: Relations, lookup: string, e: RVal): (r: RVal)
    requires e.RSym? || e.RStr?
    ensures r.RSym?
    ensures e.RStr? ==> r.name == e.s
    ensures e.RSym? && lookup in relations ==> r.name == relations[lookup]
    ensures e.RSym? && lookup !in relations ==> r == e
  {
    match e
    case RSym(n) => (match Lookup(relations, lookup) case Some(key) => RSym(key) case None => e)
    case RStr(s) => RSym(s)
  }

  /**
   * The relation name a Symbol element is looked up under: as written, the
   * `to_s` of the whole `:scope` option; corrected, the element's own name.
   */
  function LookupName(byElement: bool, whole: RVal, e: RVal): string {
    if byElement && e.RSym? then e.name else ToS(whole)
  }

  /** `Array(scope).map! { ... }`: every element normalised, or `ArgumentError` at the first that is neither Symbol nor String. */
  function ScopeElements(relations: Relations, byElement: bool, whole: RVal, es: seq<RVal>): (r: Result<seq<RVal>, Records.Error>)
    ensures r.Ok? <==> forall i | 0 <= i < |es| :: es[i].RSym? || es[i].RStr?
    ensures r.Ok? ==> |r.value| == |es|
    ensures r.Ok? ==> forall i | 0 <= i < |es| :: r.value[i] == ScopeElement(relations, LookupName(byElement, whole, es[i]), es[i])
    ensures r.Err? ==> r.error == Records.ArgumentError("Orderable :scope invalid: " + ToS(whole))
  {
    if es == [] then Ok([])
    else
      var init := es[..|es| - 1];
      var e := es[|es| - 1];
      assert forall i | 0 <= i < |init| :: init[i] == es[i];
      match ScopeElements(relations, byElement, whole, init)
      case Err(err) => Err(err)
      case Ok(done) =>
        if e.RSym? || e.RStr? then
          var r := done + [ScopeElement(relations, LookupName(byElement, whole, e), e)];
          assert forall i | 0 <= i < |init| :: r[i] == done[i];
          Ok(r)
        else Err(Records.ArgumentError("Orderable :scope invalid: " + ToS(whole)))
  }

  /** `Array(scope)`: an Array as it is, anything else wrapped. */
  function ArrayOf(v: RVal): (es: seq<RVal>)
    ensures v.RArray? ==> es == v.elems
    ensures !v.RArray? ==> es == [v]
  {
    if v.RArray? then v.elems else [v]
  }

  /** Whether `set_orderable_scope` acts on the scope: an Array, a Symbol or a String. */
  predicate Normalisable(v: RVal) {
    v.RArray? || v.RSym? || v.RStr?
  }

  /** `set_orderable_scope` with the lookup the code makes (`byElement` false) or the corrected one. */
  function FieldScopedWith(relations: Relations, byElement: bool, h: Hash): (r: Result<Hash, Records.Error>)
    requires WellFormed(h)
    ensures r.Ok? ==> WellFormed(r.value)
    ensures r.Ok? ==> forall j | j != ScopeKey :: Get(r.value, j) == Get(h, j)
    ensures !Normalisable(ScopeOf(h)) ==> r == Ok(h)
    ensures Normalisable(ScopeOf(h)) ==>
              (r.Ok? <==> forall i | 0 <= i < |ArrayOf(ScopeOf(h))| :: ArrayOf(ScopeOf(h))[i].RSym? || ArrayOf(ScopeOf(h))[i].RStr?)
    ensures Normalisable(ScopeOf(h)) && r.Ok? ==>
              Get(r.value, ScopeKey) == Some(RArray(ScopeElements(relations, byElement, ScopeOf(h), ArrayOf(ScopeOf(h))).value))
  {
    var v := ScopeOf(h);
    if !Normalisable(v) then Ok(h)
    else
      match ScopeElements(relations, byElement, v, ArrayOf(v))
      case Err(e) => Err(e)
      case Ok(es) => Ok(Put(h, ScopeKey, RArray(es)))
  }

  /** `set_orderable_scope` as written: a Symbol element is looked up under the whole option's `to_s`. */
  function FieldScopedAsWritten(relations: Relations, h: Hash): (r: Result<Hash, Records.Error>)
    requires WellFormed(h)
  {
    FieldScopedWith(relations, false, h)
  }

  /** `set_orderable_scope` corrected: a Symbol element is looked up under its own name. */
  function FieldScoped(relations: Relations, h: Hash): (r: Result<Hash, Records.Error>)
    requires WellFormed(h)
  {
    FieldScopedWith(relations, true, h)
  }

  /** `FieldConfig.new(parent, options).options`, with the corrected scope lookup. */
  function FieldConfigOptions(relations: Relations, g: Globals, input: RVal): (r: Result<Hash, Records.Error>)
    ensures r.Ok? ==> WellFormed(r.value)
  {
    FieldScoped(relations, FieldWithFieldOptions(FieldAssigned(g, input)))
  }

  /** `:field_options` is set after the slice, so it is never a caller option. */
  lemma FieldOptionsKeyNotValid(k: HashKey)
    requires k in FieldValidOptions
    ensures k != FieldOptionsKey
  {
  }

  lemma ScopeKeyValid()
    ensures ScopeKey in FieldValidOptions && AsKey in FieldValidOptions && FieldKey in FieldValidOptions
    ensures ScopeKey != AsKey && FieldKey != ScopeKey && FieldKey != AsKey
  {
  }

  /** The caller's value for a key, when the caller gave a Hash holding it (after symbolizing and aliasing). */
  function CallerValue(input: RVal, k: HashKey): Option<RVal> {
    if input.RHash? then Get(FieldCallerOptions(input.entries), k) else None
  }

  /** A valid option the caller gave (other than `:scope` and `:as`) overrides the default. */
  lemma FieldConfigCallerWins(relations: Relations, g: Globals, input: RVal, k: HashKey)
    requires k in FieldValidOptions && k != ScopeKey && k != AsKey
    requires FieldConfigOptions(relations, g, input).Ok?
    requires CallerValue(input, k).Some?
    ensures Get(FieldConfigOptions(relations, g, input).value, k) == CallerValue(input, k)
  {
    var a := FieldAssigned(g, input);
    var b := FieldWithFieldOptions(a);
    FieldOptionsKeyNotValid(k);
    assert Get(b, k) == Get(a, k);
  }

  /** A valid option the caller did not give keeps its default (absent when the global configuration has none). */
  lemma FieldConfigKeepsDefaults(relations: Relations, g: Globals, input: RVal, k: HashKey)
    requires k in FieldValidOptions && k != ScopeKey && k != AsKey
    requires FieldConfigOptions(relations, g, input).Ok?
    requires CallerValue(input, k).None?
    ensures Get(FieldConfigOptions(relations, g, input).value, k) == Get(FieldGlobals(g), k)
  {
    var a := FieldAssigned(g, input);
    var b := FieldWithFieldOptions(a);
    FieldOptionsKeyNotValid(k);
    assert Get(b, k) == Get(a, k);
  }

  /** Keys outside `VALID_OPTIONS`, `:column` among them, are dropped; `:as` lives only in `:field_options`. */
  lemma FieldConfigDropsUnknown(relations: Relations, g: Globals, input: RVal, k: HashKey)
    requires k !in FieldValidOptions || k == AsKey
    requires k != FieldOptionsKey
    requires FieldConfigOptions(relations, g, input).Ok?
    ensures Get(FieldConfigOptions(relations, g, input).value, k).None?
  {
    var a := FieldAssigned(g, input);
    var b := FieldWithFieldOptions(a);
    ScopeKeyValid();
    assert k != ScopeKey;
    if k != AsKey {
      assert Get(a, k).None?;
      assert Get(b, k) == Get(a, k);
    }
  }

  /** `:field_options` holds exactly `:as`: the caller's value if given, else the global one. */
  lemma FieldConfigFieldOptions(relations: Relations, g: Globals, input: RVal)
    requires FieldConfigOptions(relations, g, input).Ok?
    ensures var v := if CallerValue(input, AsKey).Some? then CallerValue(input, AsKey).value else g.fieldAlias;
            Get(FieldConfigOptions(relations, g, input).value, FieldOptionsKey) == Some(RHash([(AsKey, v)]))
  {
    var a := FieldAssigned(g, input);
    var b := FieldWithFieldOptions(a);
    ScopeKeyValid();
    FieldOptionsNotScope();
    assert Get(a, AsKey) == Some(if CallerValue(input, AsKey).Some? then CallerValue(input, AsKey).value else g.fieldAlias);
    assert Get(FieldConfigOptions(relations, g, input).value, FieldOptionsKey) == Get(b, FieldOptionsKey);
  }

  lemma FieldOptionsNotScope()
    ensures FieldOptionsKey != ScopeKey && FieldOptionsKey != AsKey
  {
  }

  /** `:column` given alone (as a Symbol or a String key) is the `:field` option. */
  lemma ColumnIsField(relations: Relations, g: Globals, es: seq<Entry>)
    requires FieldConfigOptions(relations, g, RHash(es)).Ok?
    requires ColumnKey in KeySet(SymbolizeKeys(es)) && FieldKey !in KeySet(SymbolizeKeys(es))
    ensures Get(FieldConfigOptions(relations, g, RHash(es)).value, FieldKey) == Get(SymbolizeKeys(es), ColumnKey)
  {
    var sym := SymbolizeKeys(es);
    forall i | 0 <= i < |sym| ensures AliasKey(sym[i].0) == FieldKey ==> sym[i].0 == ColumnKey {
      KeySetIndex(sym, i);
    }
    GetRenamed(sym, AliasKey, ColumnKey);
    ScopeKeyValid();
    FieldConfigCallerWins(relations, g, RHash(es), FieldKey);
  }

  /** The `:scope` the caller gave the field config, nil when none. */
  function CallerScope(input: RVal): RVal {
    match CallerValue(input, ScopeKey)
    case Some(v) => v
    case None => RNil
  }

  /** A normalised scope element: a String converted to a Symbol, a Symbol naming a relation replaced by its foreign key. */
  predicate NormalisedElement(relations: Relations, e: RVal, r: RVal) {
    && r.RSym?
    && (e.RStr? ==> r.name == e.s)
    && (e.RSym? ==> r.name == if e.name in relations then relations[e.name] else e.name)
  }

  /** `w` is the Array of Symbols that (corrected) `set_orderable_scope` makes of `v`. */
  predicate NormalisedScope(relations: Relations, v: RVal, w: RVal) {
    && w.RArray?
    && |w.elems| == |ArrayOf(v)|
    && forall i | 0 <= i < |ArrayOf(v)| :: NormalisedElement(relations, ArrayOf(v)[i], w.elems[i])
  }

  /** Whether every element of `Array(v)` is a Symbol or a String. */
  predicate ValidScopeElements(v: RVal) {
    forall i | 0 <= i < |ArrayOf(v)| :: ArrayOf(v)[i].RSym? || ArrayOf(v)[i].RStr?
  }

  /** What (corrected) `set_orderable_scope` does to the scope of any options hash. */
  lemma FieldScopedMeaning(relations: Relations, h: Hash)
    requires WellFormed(h)
    ensures var r := FieldScoped(relations, h);
            var v := ScopeOf(h);
            && (!Normalisable(v) ==> r == Ok(h))
            && (Normalisable(v) ==> (r.Ok? <==> ValidScopeElements(v)))
            && (Normalisable(v) && r.Ok? ==> NormalisedScope(relations, v, ScopeOf(r.value)))
  {
    var v := ScopeOf(h);
    var r := FieldScoped(relations, h);
    if Normalisable(v) && r.Ok? {
      var es := ScopeElements(relations, true, v, ArrayOf(v));
      assert ScopeOf(r.value) == RArray(es.value);
      forall i | 0 <= i < |ArrayOf(v)| ensures NormalisedElement(relations, ArrayOf(v)[i], es.value[i]) {
        var e := ArrayOf(v)[i];
        assert es.value[i] == ScopeElement(relations, LookupName(true, v, e), e);
      }
    }
  }

  /**
   * The scope of the field config: a Proc, nil or any other class is kept as
   * given; an Array, Symbol or String becomes an Array of Symbols, a Symbol
   * naming a relation replaced by that relation's foreign key, a String
   * converted; any other element raises `ArgumentError`.
   */
  lemma FieldConfigScope(relations: Relations, g: Globals, input: RVal)
    ensures var r := FieldConfigOptions(relations, g, input);
            var v := CallerScope(input);
            && (!Normalisable(v) ==> r.Ok? && ScopeOf(r.value) == v)
            && (Normalisable(v) ==> (r.Ok? <==> ValidScopeElements(v)))
            && (Normalisable(v) && r.Ok? ==> NormalisedScope(relations, v, ScopeOf(r.value)))
  {
    var a := FieldAssigned(g, input);
    var b := FieldWithFieldOptions(a);
    ScopeKeyValid();
    FieldOptionsNotScope();
    assert Get(b, ScopeKey) == Get(a, ScopeKey);
    assert ScopeOf(b) == CallerScope(input);
    FieldScopedMeaning(relations, b);
  }

  /** As written, an Array scope never takes a relation's key unless some relation is named like an Array's `to_s`. */
  lemma ArrayScopeIgnoresRelations(relations: Relations, h: Hash)
    requires WellFormed(h) && ScopeOf(h).RArray?
    requires forall n | n in relations :: |n| == 0 || n[0] != '['
    requires FieldScopedAsWritten(relations, h).Ok?
    ensures var es := ScopeOf(h).elems;
            forall i | 0 <= i < |es| && es[i].RSym? :: ScopeOf(FieldScopedAsWritten(relations, h).value).elems[i] == es[i]
  {
    var v := ScopeOf(h);
    assert ToS(v) !in relations;
  }

  /** For a single Symbol scope the written lookup and the corrected one agree. */
  lemma FieldScopeVersionsAgreeOnSymbol(relations: Relations, h: Hash)
    requires WellFormed(h) && ScopeOf(h).RSym?
    ensures FieldScopedAsWritten(relations, h) == FieldScoped(relations, h)
  {
    var v := ScopeOf(h);
    var w := ScopeElements(relations, false, v, [v]);
    var c := ScopeElements(relations, true, v, [v]);
    assert w.Ok? && c.Ok? && |w.value| == 1 && |c.value| == 1;
    assert w.value[0] == c.value[0];
    assert w.value == c.value;
  }

  /** The relations of a model that `belongs_to :group`. */
  function GroupRelations(): Relations {
    map["group" := "group_id"]
  }

  /** Options whose scope is the Array `[:group]`. */
  function ArrayGroupScope(): Hash {
    [(ScopeKey, RArray([RSym("group")]))]
  }

  /** As written, `scope: [:group]` stays `[:group]`, a field the documents do not store. */
  lemma ArrayScopeCounterexample()
    ensures FieldScopedAsWritten(GroupRelations(), ArrayGroupScope()) == Ok([(ScopeKey, RArray([RSym("group")]))])
  {
    var h := ArrayGroupScope();
    var v := RArray([RSym("group")]);
    assert Get(h, ScopeKey) == Some(v);
    assert InspectElements([RSym("group")]) == ":group";
    assert ToS(v) == "[:group]";
    assert "[:group]" !in GroupRelations();
    assert [RSym("group")][..0] == [];
    assert ScopeElement(GroupRelations(), LookupName(false, v, RSym("group")), RSym("group")) == RSym("group");
    assert ScopeElements(GroupRelations(), false, v, []) == Ok([]);
    ScopeElementsSnoc(GroupRelations(), false, v, [RSym("group")], 0, []);
    assert [RSym("group")][..1] == [RSym("group")];
    var es := ScopeElements(GroupRelations(), false, v, [RSym("group")]);
    assert es == Ok([] + [RSym("group")]);
    assert [] + [RSym("group")] == [RSym("group")];
  }

  /** Corrected, `scope: [:group]` becomes `[:group_id]`, as `scope: :group` does. */
  lemma ArrayScopeCorrected()
    ensures FieldScoped(GroupRelations(), ArrayGroupScope()) == Ok([(ScopeKey, RArray([RSym("group_id")]))])
  {
    var h := ArrayGroupScope();
    var v := RArray([RSym("group")]);
    assert Get(h, ScopeKey) == Some(v);
    assert "group" in GroupRelations();
    assert [RSym("group")][..0] == [];
    assert ScopeElement(GroupRelations(), LookupName(true, v, RSym("group")), RSym("group")) == RSym("group_id");
    assert ScopeElements(GroupRelations(), true, v, []) == Ok([]);
    ScopeElementsSnoc(GroupRelations(), true, v, [RSym("group")], 0, []);
    assert [RSym("group")][..1] == [RSym("group")];
    var es := ScopeElements(GroupRelations(), true, v, [RSym("group")]);
    assert es == Ok([] + [RSym("group_id")]);
    assert [] + [RSym("group_id")] == [RSym("group_id")];
  }

  /** `scope.map!`: the elements normalised one by one, stopping at the first invalid one. */
  method MapScope(relations: Relations, byElement: bool, whole: RVal, es: seq<RVal>) returns (r: Result<seq<RVal>, Records.Error>)
    ensures r == ScopeElements(relations, byElement, whole, es)
  {
    var done: seq<RVal> := [];
    var i := 0;
    assert es[..0] == [];
    while i < |es|
      invariant 0 <= i <= |es|
      invariant ScopeElements(relations, byElement, whole, es[..i]) == Ok(done)
    {
      var e := es[i];
      if !(e.RSym? || e.RStr?) {
        ScopeElementsStopsAt(relations, byElement, whole, es, i);
        return Err(Records.ArgumentError("Orderable :scope invalid: " + ToS(whole)));
      }
      ScopeElementsSnoc(relations, byElement, whole, es, i, done);
      done := done + [ScopeElement(relations, LookupName(byElement, whole, e), e)];
      i := i + 1;
    }
    assert es[..|es|] == es;
    r := Ok(done);
  }

  /** One more valid element extends the normalised prefix by its normalised form. */
  lemma ScopeElementsSnoc(relations: Relations, byElement: bool, whole: RVal, es: seq<RVal>, i: int, done: seq<RVal>)
    requires 0 <= i < |es| && (es[i].RSym? || es[i].RStr?)
    requires ScopeElements(relations, byElement, whole, es[..i]) == Ok(done)
    ensures ScopeElements(relations, byElement, whole, es[..i + 1]) ==
              Ok(done + [ScopeElement(relations, LookupName(byElement, whole, es[i]), es[i])])
  {
    assert es[..i + 1][..i] == es[..i];
  }

  /** An invalid element makes the whole `map!` raise, whatever follows it. */
  lemma ScopeElementsStopsAt(relations: Relations, byElement: bool, whole: RVal, es: seq<RVal>, i: int)
    requires 0 <= i < |es| && !(es[i].RSym? || es[i].RStr?)
    ensures ScopeElements(relations, byElement, whole, es) == Err(Records.ArgumentError("Orderable :scope invalid: " + ToS(whole)))
  {
  }

  /**
   * `Configs::FieldConfig`: the options of one orderable field, built step by
   * step by `initialize`. `relations` is the host class's relations.
   */
  class FieldConfig {
    const relations: Relations
    var options: Hash

    constructor(relations: Relations)
      ensures this.relations == relations && options == []
    {
      this.relations := relations;
      options := [];
    }

    /** `initialize`: `assign_options`, `set_field_options`, `set_orderable_scope`; an invalid scope raises. */
    method Initialize(g: Globals, input: RVal) returns (err: Option<Records.Error>)
      modifies this
      ensures var r := FieldConfigOptions(relations, g, input);
              && (r.Ok? ==> err.None? && options == r.value)
              && (r.Err? ==> err == Some(r.error))
    {
      AssignOptions(g, input);
      SetFieldOptions();
      err := SetOrderableScope();
    }

    method AssignOptions(g: Globals, input: RVal)
      modifies this
      ensures options == FieldAssigned(g, input)
    {
      options := FieldGlobals(g);
      if input.RHash? {
        options := Slice(MergeInto(options, FieldCallerOptions(input.entries)), FieldValidOptions);
      }
    }

    method SetFieldOptions()
      requires WellFormed(options)
      modifies this
      ensures options == FieldWithFieldOptions(old(options))
    {
      options := Put(options, FieldOptionsKey, RHash([]));
      options := MoveEach(options, FieldOptionsKey, FieldOptionKeys);
    }

    method SetOrderableScope() returns (err: Option<Records.Error>)
      requires WellFormed(options)
      modifies this
      ensures var r := FieldScoped(relations, old(options));
              && (r.Ok? ==> err.None? && options == r.value)
              && (r.Err? ==> err == Some(r.error) && options == old(options))
    {
      var v := ScopeOf(options);
      if !Normalisable(v) {
        return None;
      }
      var es := MapScope(relations, true, v, ArrayOf(v));
      match es
      case Err(e) =>
        err := Some(e);
      case Ok(scope) =>
        options := Put(options, ScopeKey, RArray(scope));
        err := None;
    }
  }
}
