/**
 * The option normalisers of older versions: `Configs::ModelConfig`, the
 * `Configuration` class, and the `Configurable` mixin that stores its
 * configuration on the host class. They share one scope rule: a Symbol
 * without an `_id` suffix becomes its relation's foreign key, or gets the
 * suffix appended; a String becomes a Symbol.
 */
module LegacyConfigs {
  import opened Wrappers
  import opened Hashes
  import opened Configs
  import Records
  import Scopes

  // ---------------------------------------------------------------------------
  // The `_id` suffix rule
  // ---------------------------------------------------------------------------

  /** `_id` sits at index `i` and is followed by the end of the string or a newline. */
  predicate IdAtLineEnd(s: string, i: int) {
    0 <= i && i + 3 <= |s| && s[i..i + 3] == "_id" && (i + 3 == |s| || s[i + 3] == '\n')
  }

  /** `s =~ /_id$/`: Ruby's `$` matches at the end of the string and before every newline. */
  predicate MatchesIdSuffix(s: string) {
    exists i | 0 <= i <= |s| - 3 :: IdAtLineEnd(s, i)
  }

  /** A name with `_id` appended matches the suffix rule. */
  lemma SuffixAppendedMatches(n: string)
    ensures MatchesIdSuffix(n + "_id")
  {
    var s := n + "_id";
    assert s[|n|..|n| + 3] == "_id";
    assert IdAtLineEnd(s, |n|);
  }

  /** The name a Symbol scope without the suffix becomes: its relation's key, else the name with `_id`. */
  function SuffixedName(relations: Relations, n: string): (m: string)
    ensures n in relations ==> m == relations[n]
    ensures n !in relations ==> m == n + "_id" && MatchesIdSuffix(m)
  {
    if n in relations then relations[n]
    else
      SuffixAppendedMatches(n);
      n + "_id"
  }

  /** `set_orderable_scope` (and `configure_orderable_scope`) of the older versions. */
  function SuffixedScope(relations: Relations, h: Hash): (r: Hash)
    requires WellFormed(h)
    ensures WellFormed(r)
    ensures forall j | j != ScopeKey :: Get(r, j) == Get(h, j)
  {
    match ScopeOf(h)
    case RSym(n) => if MatchesIdSuffix(n) then h else Put(h, ScopeKey, RSym(SuffixedName(relations, n)))
    case RStr(s) => Put(h, ScopeKey, RSym(s))
    case _ => h
  }

  /**
   * The scope after the suffix rule: a Symbol either keeps a name that
   * matches `/_id$/` or becomes the matching name or a relation's key, a
   * String becomes the Symbol of its text, and any other value is kept.
   */
  lemma SuffixedScopeMeaning(relations: Relations, h: Hash)
    requires WellFormed(h)
    ensures var v := ScopeOf(h);
            var w := ScopeOf(SuffixedScope(relations, h));
            && (v.RSym? && MatchesIdSuffix(v.name) ==> w == v)
            && (v.RSym? && !MatchesIdSuffix(v.name) && v.name in relations ==> w == RSym(relations[v.name]))
            && (v.RSym? && !MatchesIdSuffix(v.name) && v.name !in relations ==> w == RSym(v.name + "_id"))
            && (v.RStr? ==> w == RSym(v.s))
            && (!v.RSym? && !v.RStr? ==> w == v)
            && (v.RSym? ==> w.RSym? && (MatchesIdSuffix(w.name) || w.name in relations.Values))
  {
  }

  /**
   * With every relation's key ending in `_id`, the rule is idempotent for a
   * Symbol scope. (A String scope is not: `'some_scope'` becomes
   * `:some_scope`, which a second pass would suffix.)
   */
  lemma SuffixedScopeIdempotent(relations: Relations, h: Hash)
    requires WellFormed(h) && !ScopeOf(h).RStr?
    requires forall n | n in relations :: MatchesIdSuffix(relations[n])
    ensures SuffixedScope(relations, SuffixedScope(relations, h)) == SuffixedScope(relations, h)
  {
    var r := SuffixedScope(relations, h);
    SuffixedScopeMeaning(relations, h);
    if ScopeOf(h).RSym? && !MatchesIdSuffix(ScopeOf(h).name) {
      assert ScopeOf(r) == RSym(SuffixedName(relations, ScopeOf(h).name));
      assert MatchesIdSuffix(ScopeOf(r).name);
    }
  }

  /** Options whose scope is the two-line Symbol `:"group_id\ntail"`. */
  function MultiLineScope(): Hash {
    [(ScopeKey, RSym("group_id\ntail"))]
  }

  /** The `$` of `/_id$/` matches before a newline, so a name with `_id` at the end of its first line is kept. */
  lemma MultiLineScopeKept(relations: Relations)
    ensures SuffixedScope(relations, MultiLineScope()) == MultiLineScope()
  {
    var h := MultiLineScope();
    assert Get(h, ScopeKey) == Some(RSym("group_id\ntail"));
    assert IdAtLineEnd("group_id\ntail", 5);
  }

  // ---------------------------------------------------------------------------
  // Defaults, merge and `:as` (configs/model_config.rb, configuration.rb)
  // ---------------------------------------------------------------------------

  /** `VALID_OPTIONS` of the model config. */
  const ModelValidOptions: seq<HashKey> :=
    [ColumnKey, ScopeKey, Sym("foreign_key"), Sym("inherited"), Sym("base"), Sym("index"),
     Sym("default"), Sym("use_transactions"), Sym("transaction_max_retries"), AsKey]

  /** `VALID_OPTIONS` of the configuration class. */
  const ConfigurationValidOptions: seq<HashKey> :=
    [ColumnKey, ScopeKey, Sym("foreign_key"), Sym("inherited"), Sym("base"), Sym("index"), Sym("default"), AsKey]

  /** Neither version lets the caller set `:field_opts`. */
  lemma FieldOptsNotValid()
    ensures FieldOptsKey !in ModelValidOptions && FieldOptsKey !in ConfigurationValidOptions
    ensures FieldOptsKey != AsKey && FieldOptsKey != ScopeKey && AsKey != ScopeKey
    ensures AsKey in ModelValidOptions && AsKey in ConfigurationValidOptions
  {
  }

  /** `global_config` of the model config: read from the global configuration, `field_opts` copied. */
  function ModelGlobals(g: Globals): (h: Hash)
    ensures WellFormed(h) && HoldsHash(h, FieldOptsKey) && Nested(h, FieldOptsKey) == g.fieldOpts
    ensures Get(h, AsKey).None? && Get(h, ScopeKey) == Some(g.scope)
  {
    var h := [(ColumnKey, g.column), (Sym("index"), g.index), (ScopeKey, g.scope), (Sym("base"), g.base),
              (FieldOptsKey, RHash(g.fieldOpts)), (Sym("use_transactions"), g.useTransactions),
              (Sym("transaction_max_retries"), g.transactionMaxRetries)];
    GetOfEntry(h, 2);
    GetOfEntry(h, 4);
    assert forall i | 0 <= i < |h| :: h[i].0 != AsKey;
    KeySetExcludes(h, AsKey);
    h
  }

  /** `default_configuration` of the configuration class. */
  function ConfigurationDefaults(): (h: Hash)
    ensures WellFormed(h) && HoldsHash(h, FieldOptsKey)
    ensures Nested(h, FieldOptsKey) == [(Sym("type"), RClass("Integer"))]
    ensures Get(h, AsKey).None? && Get(h, ScopeKey) == Some(RNil)
    ensures Get(h, ColumnKey) == Some(RSym("position")) && Get(h, Sym("base")) == Some(RInt(1))
  {
    var h := [(ColumnKey, RSym("position")), (Sym("index"), RBool(true)), (ScopeKey, RNil), (Sym("base"), RInt(1)),
              (FieldOptsKey, RHash([(Sym("type"), RClass("Integer"))]))];
    GetOfEntry(h, 0);
    GetOfEntry(h, 2);
    GetOfEntry(h, 3);
    GetOfEntry(h, 4);
    assert forall i | 0 <= i < |h| :: h[i].0 != AsKey;
    KeySetExcludes(h, AsKey);
    h
  }

  /** `@options = defaults; @options.merge! options.symbolize_keys.slice(*VALID_OPTIONS)` for a Hash. */
  function MergedValid(defaults: Hash, valid: seq<HashKey>, input: RVal): (h: Hash)
    requires WellFormed(defaults)
    ensures WellFormed(h)
    ensures !input.RHash? ==> h == defaults
    ensures input.RHash? ==>
      forall k :: Get(h, k) ==
        (if k in valid && k in KeySet(SymbolizeKeys(input.entries)) then Get(SymbolizeKeys(input.entries), k)
         else Get(defaults, k))
  {
    if input.RHash? then MergeInto(defaults, Slice(SymbolizeKeys(input.entries), valid)) else defaults
  }

  /** The options an older normaliser builds from `defaults`, its `VALID_OPTIONS` and the caller's options. */
  function LegacyOptions(relations: Relations, defaults: Hash, valid: seq<HashKey>, input: RVal): (r: Hash)
    requires WellFormed(defaults) && HoldsHash(defaults, FieldOptsKey) && FieldOptsKey !in valid
    ensures WellFormed(r)
  {
    var a := MergedValid(defaults, valid, input);
    assert Get(a, FieldOptsKey) == Get(defaults, FieldOptsKey);
    SuffixedScope(relations, MoveKeys(a, FieldOptsKey, FieldOptionKeys))
  }

  /** `Configs::ModelConfig.new(parent, options).options`. */
  function ModelConfigOptions(relations: Relations, g: Globals, input: RVal): (r: Hash)
    ensures WellFormed(r)
  {
    FieldOptsNotValid();
    LegacyOptions(relations, ModelGlobals(g), ModelValidOptions, input)
  }

  /** `Configuration.build(parent, options)`. */
  function ConfigurationOptions(relations: Relations, input: RVal): (r: Hash)
    ensures WellFormed(r)
  {
    FieldOptsNotValid();
    LegacyOptions(relations, ConfigurationDefaults(), ConfigurationValidOptions, input)
  }

  /** The caller's value for a key after `symbolize_keys`, when the caller gave a Hash. */
  function SymbolizedValue(input: RVal, k: HashKey): Option<RVal> {
    if input.RHash? then Get(SymbolizeKeys(input.entries), k) else None
  }

  /** A valid option other than `:scope` and `:as` is the caller's value if given, else the default. */
  lemma LegacyOptionsMerge(relations: Relations, defaults: Hash, valid: seq<HashKey>, input: RVal, k: HashKey)
    requires WellFormed(defaults) && HoldsHash(defaults, FieldOptsKey) && FieldOptsKey !in valid
    requires k != ScopeKey && k != AsKey && k != FieldOptsKey
    ensures Get(LegacyOptions(relations, defaults, valid, input), k) ==
              if k in valid && SymbolizedValue(input, k).Some? then SymbolizedValue(input, k) else Get(defaults, k)
  {
    var a := MergedValid(defaults, valid, input);
    assert FieldOptsKey !in FieldOptionKeys && k !in FieldOptionKeys;
    var b := MoveKeys(a, FieldOptsKey, FieldOptionKeys);
    assert Get(b, k) == Get(a, k);
  }

  /**
   * `:as` is never an option of its own; the nested `field_opts` holds the
   * caller's `:as` when given and otherwise keeps its default entries.
   */
  lemma LegacyOptionsFieldOpts(relations: Relations, defaults: Hash, valid: seq<HashKey>, input: RVal)
    requires WellFormed(defaults) && HoldsHash(defaults, FieldOptsKey) && FieldOptsKey !in valid
    requires AsKey in valid && Get(defaults, AsKey).None?
    ensures var r := LegacyOptions(relations, defaults, valid, input);
            && Get(r, AsKey).None?
            && HoldsHash(r, FieldOptsKey)
            && forall k :: Get(Nested(r, FieldOptsKey), k) ==
                 (if k == AsKey && SymbolizedValue(input, AsKey).Some? then SymbolizedValue(input, AsKey)
                  else Get(Nested(defaults, FieldOptsKey), k))
  {
    var a := MergedValid(defaults, valid, input);
    FieldOptsNotValid();
    var b := MoveKeys(a, FieldOptsKey, FieldOptionKeys);
    assert forall k :: k in FieldOptionKeys <==> k == AsKey;
    assert Get(a, FieldOptsKey) == Get(defaults, FieldOptsKey);
    assert Get(a, AsKey) == SymbolizedValue(input, AsKey);
    var r := SuffixedScope(relations, b);
    assert Get(r, FieldOptsKey) == Get(b, FieldOptsKey);
    assert Get(r, AsKey) == Get(b, AsKey);
  }

  /** The scope of the older versions is the caller's `:scope` (if valid and given) or the default, under the suffix rule. */
  lemma LegacyOptionsScope(relations: Relations, defaults: Hash, valid: seq<HashKey>, input: RVal)
    requires WellFormed(defaults) && HoldsHash(defaults, FieldOptsKey) && FieldOptsKey !in valid
    requires ScopeKey in valid
    ensures var v := if SymbolizedValue(input, ScopeKey).Some? then SymbolizedValue(input, ScopeKey)
                     else Get(defaults, ScopeKey);
            var before := [(ScopeKey, if v.Some? then v.value else RNil)];
            ScopeOf(LegacyOptions(relations, defaults, valid, input)) == ScopeOf(SuffixedScope(relations, before))
  {
    var a := MergedValid(defaults, valid, input);
    FieldOptsNotValid();
    var b := MoveKeys(a, FieldOptsKey, FieldOptionKeys);
    assert ScopeKey !in FieldOptionKeys;
    assert Get(b, ScopeKey) == Get(a, ScopeKey);
    var v := if SymbolizedValue(input, ScopeKey).Some? then SymbolizedValue(input, ScopeKey) else Get(defaults, ScopeKey);
    var before := [(ScopeKey, if v.Some? then v.value else RNil)];
    assert Get(before, ScopeKey) == Some(if v.Some? then v.value else RNil);
    assert ScopeOf(before) == ScopeOf(b);
    SuffixedScopeMeaning(relations, b);
    SuffixedScopeMeaning(relations, before);
  }

  /** `Configs::ModelConfig`: the options of one orderable column, built by `initialize`. */
  class ModelConfig {
    const relations: Relations
    var options: Hash

    constructor(relations: Relations)
      ensures this.relations == relations && options == []
    {
      this.relations := relations;
      options := [];
    }

    /** `initialize`: `assign_options`, `set_field_options`, `set_orderable_scope`. */
    method Initialize(g: Globals, input: RVal)
      modifies this
      ensures options == ModelConfigOptions(relations, g, input)
    {
      FieldOptsNotValid();
      options := ModelGlobals(g);
      if input.RHash? {
        options := MergeInto(options, Slice(SymbolizeKeys(input.entries), ModelValidOptions));
      }
      assert options == MergedValid(ModelGlobals(g), ModelValidOptions, input);
      assert Get(options, FieldOptsKey) == Get(ModelGlobals(g), FieldOptsKey);
      SetFieldOptions();
      SetOrderableScope();
    }

    method SetFieldOptions()
      requires WellFormed(options) && HoldsHash(options, FieldOptsKey)
      modifies this
      ensures options == MoveKeys(old(options), FieldOptsKey, FieldOptionKeys)
    {
      FieldOptsNotValid();
      options := MoveEach(options, FieldOptsKey, FieldOptionKeys);
    }

    method SetOrderableScope()
      requires WellFormed(options)
      modifies this
      ensures options == SuffixedScope(relations, old(options))
    {
      var v := ScopeOf(options);
      if v.RSym? && !MatchesIdSuffix(v.name) {
        options := Put(options, ScopeKey, RSym(SuffixedName(relations, v.name)));
      } else if v.RStr? {
        options := Put(options, ScopeKey, RSym(v.s));
      }
    }
  }

  /** The `Configuration` class: the options of the single orderable column of older versions. */
  class Configuration {
    const relations: Relations
    var options: Hash

    constructor(relations: Relations)
      ensures this.relations == relations && options == []
    {
      this.relations := relations;
      options := [];
    }

    /** `initialize`: `set_options`, `set_field_options`, `set_orderable_scope`. */
    method Initialize(input: RVal)
      modifies this
      ensures options == ConfigurationOptions(relations, input)
    {
      FieldOptsNotValid();
      options := ConfigurationDefaults();
      if input.RHash? {
        options := MergeInto(options, Slice(SymbolizeKeys(input.entries), ConfigurationValidOptions));
      }
      assert options == MergedValid(ConfigurationDefaults(), ConfigurationValidOptions, input);
      assert Get(options, FieldOptsKey) == Get(ConfigurationDefaults(), FieldOptsKey);
      SetFieldOptions();
      SetOrderableScope();
    }

    method SetFieldOptions()
      requires WellFormed(options) && HoldsHash(options, FieldOptsKey)
      modifies this
      ensures options == MoveKeys(old(options), FieldOptsKey, FieldOptionKeys)
    {
      FieldOptsNotValid();
      options := MoveEach(options, FieldOptsKey, FieldOptionKeys);
    }

    method SetOrderableScope()
      requires WellFormed(options)
      modifies this
      ensures options == SuffixedScope(relations, old(options))
    {
      var v := ScopeOf(options);
      if v.RSym? && !MatchesIdSuffix(v.name) {
        options := Put(options, ScopeKey, RSym(SuffixedName(relations, v.name)));
      } else if v.RStr? {
        options := Put(options, ScopeKey, RSym(v.s));
      }
    }
  }

  /** `Configuration.build(parent, options)`: a new configuration's options. */
  method Build(relations: Relations, input: RVal) returns (r: Hash)
    ensures r == ConfigurationOptions(relations, input)
  {
    var c := new Configuration(relations);
    c.Initialize(input);
    r := c.options;
  }

  // ---------------------------------------------------------------------------
  // configurable.rb
  // ---------------------------------------------------------------------------

  /** `default_configuration` of the mixin. */
  function ConfigurableDefaults(): (h: Hash)
    ensures WellFormed(h)
    ensures Get(h, ScopeKey) == Some(RNil)
  {
    var h := [(ColumnKey, RSym("position")), (Sym("index"), RBool(true)), (ScopeKey, RNil), (Sym("base"), RInt(1))];
    GetOfEntry(h, 2);
    h
  }

  /** The configuration `setup_orderable_class` leaves: the caller's Hash merged unfiltered, then the suffix rule. */
  function ConfigurableSetup(relations: Relations, input: RVal): (h: Hash)
    ensures WellFormed(h)
  {
    var merged := if input.RHash? then MergeInto(ConfigurableDefaults(), input.entries) else ConfigurableDefaults();
    SuffixedScope(relations, merged)
  }

  /**
   * The merge keeps every caller key as given: nothing is filtered and
   * nothing symbolized, so a String key `"scope"` is a key of its own and
   * the Symbol `:scope` keeps its default.
   */
  lemma ConfigurableMerge(relations: Relations, input: RVal, k: HashKey)
    requires k != ScopeKey
    ensures Get(ConfigurableSetup(relations, input), k) ==
              if input.RHash? && k in KeySet(input.entries) then Get(input.entries, k) else Get(ConfigurableDefaults(), k)
  {
  }

  /** `define_orderable_scope`: a Symbol is equality on that field, a Proc (given as its criteria) as given, anything else all. */
  function DefinedScope(v: RVal, procCriteria: Records.Attrs -> Records.Scope, procSelector: Records.Attrs -> Scopes.Selector): (spec: Scopes.ScopeSpec)
    ensures v.RSym? <==> spec.SymbolScope?
    ensures v.RProc? <==> spec.ProcScope?
  {
    match v
    case RSym(n) => Scopes.SymbolScope(n)
    case RProc => Scopes.ProcScope(procCriteria, procSelector)
    case _ => Scopes.NoScope
  }

  /**
   * The criteria the mixin generates: a Symbol scope compares the field the
   * suffix rule names, a String scope the field of that name, a Proc is
   * used as given, and no scope (or any other value) matches every document.
   */
  lemma ConfigurableCriteria(relations: Relations, input: RVal, procCriteria: Records.Attrs -> Records.Scope,
                             procSelector: Records.Attrs -> Scopes.Selector, doc: Records.Attrs, other: Records.Attrs)
    ensures var v := if input.RHash? && ScopeKey in KeySet(input.entries) then Get(input.entries, ScopeKey).value else RNil;
            var spec := DefinedScope(ScopeOf(ConfigurableSetup(relations, input)), procCriteria, procSelector);
            var key := if v.RSym? then (if MatchesIdSuffix(v.name) then v.name else SuffixedName(relations, v.name))
                       else if v.RStr? then v.s else "";
            && (v.RSym? || v.RStr? ==>
                  Scopes.LegacyCriteria(spec, doc)(other) == (Records.Attr(other, key) == Records.Attr(doc, key)))
            && (v.RProc? ==> Scopes.LegacyCriteria(spec, doc) == procCriteria(doc))
            && (!v.RSym? && !v.RStr? && !v.RProc? ==> Scopes.LegacyCriteria(spec, doc)(other))
  {
    var merged := if input.RHash? then MergeInto(ConfigurableDefaults(), input.entries) else ConfigurableDefaults();
    var v := if input.RHash? && ScopeKey in KeySet(input.entries) then Get(input.entries, ScopeKey).value else RNil;
    assert ScopeOf(merged) == v;
    SuffixedScopeMeaning(relations, merged);
  }

  /** The `Configurable` mixin: the host class's single orderable configuration. */
  class Configurable {
    const relations: Relations
    var configuration: Hash

    constructor(relations: Relations)
      ensures this.relations == relations && configuration == []
    {
      this.relations := relations;
      configuration := [];
    }

    /** `setup_orderable_class`: defaults, the caller's Hash merged, the scope configured. */
    method SetupOrderableClass(input: RVal)
      modifies this
      ensures configuration == ConfigurableSetup(relations, input)
    {
      configuration := ConfigurableDefaults();
      if input.RHash? {
        configuration := MergeInto(configuration, input.entries);
      }
      ConfigureOrderableScope();
    }

    method ConfigureOrderableScope()
      requires WellFormed(configuration)
      modifies this
      ensures configuration == SuffixedScope(relations, old(configuration))
    {
      var v := ScopeOf(configuration);
      if v.RSym? && !MatchesIdSuffix(v.name) {
        configuration := Put(configuration, ScopeKey, RSym(SuffixedName(relations, v.name)));
      } else if v.RStr? {
        configuration := Put(configuration, ScopeKey, RSym(v.s));
      }
    }

    /** The `orderable_scope` criteria `define_orderable_scope` installs. */
    function OrderableScope(procCriteria: Records.Attrs -> Records.Scope, procSelector: Records.Attrs -> Scopes.Selector): Scopes.ScopeSpec
      reads this
    {
      DefinedScope(ScopeOf(configuration), procCriteria, procSelector)
    }
  }
}
