/**
 * Scope declarations and the membership predicate each one generates
 * (the `orderable_<field>_scope` criteria), in the current generator and
 * in the older one.
 */
module Scopes {
  import opened Wrappers
  import opened Records

  /** The query selector a scope builds for a document: field/value pairs, in order. */
  type Selector = seq<(Key, Option<Val>)>

  /**
   * A configured scope. A Proc is host code: it is given as the criteria it
   * builds for a document and the selector of that criteria.
   */
  datatype ScopeSpec =
    | ProcScope(criteria: Attrs -> Scope, selector: Attrs -> Selector)
    | SymbolScope(key: Key)
    | ArrayScope(keys: seq<Key>)
    | NoScope

  /** Whether `other` agrees with `doc` on every listed key (a nil value matches only nil). */
  predicate AgreeOn(keys: seq<Key>, doc: Attrs, other: Attrs) {
    forall i | 0 <= i < |keys| :: Attr(other, keys[i]) == Attr(doc, keys[i])
  }

  /**
   * `criteria(order_scope)` applied to a document: a Proc as given, a Symbol
   * as equality on that field, an Array as equality on every listed field,
   * anything else as every document.
   */
  function Criteria(spec: ScopeSpec, doc: Attrs): (scope: Scope)
    ensures spec.SymbolScope? ==> forall other :: scope(other) == (Attr(other, spec.key) == Attr(doc, spec.key))
    ensures spec.ArrayScope? ==> forall other :: scope(other) == AgreeOn(spec.keys, doc, other)
    ensures spec.NoScope? ==> forall other :: scope(other)
    ensures spec.ProcScope? ==> scope == spec.criteria(doc)
  {
    match spec
    case ProcScope(criteria, _) => criteria(doc)
    case SymbolScope(k) => (other: Attrs) => Attr(other, k) == Attr(doc, k)
    case ArrayScope(ks) => (other: Attrs) => AgreeOn(ks, doc, other)
    case NoScope => (other: Attrs) => true
  }

  /**
   * The keys of a Hash filled from `ks` in order: each key once, at the
   * place it first occurs.
   */
  function FirstOccurrences(ks: seq<Key>): seq<Key> {
    if ks == [] then []
    else
      var rest := FirstOccurrences(ks[..|ks| - 1]);
      if ks[|ks| - 1] in rest then rest else rest + [ks[|ks| - 1]]
  }

  /** The Hash's keys are the listed keys, each once. */
  lemma {:induction false} FirstOccurrencesKeys(ks: seq<Key>)
    ensures forall k :: k in FirstOccurrences(ks) <==> k in ks
    ensures forall i, j | 0 <= i < j < |FirstOccurrences(ks)| :: FirstOccurrences(ks)[i] != FirstOccurrences(ks)[j]
  {
    if ks != [] {
      var init := ks[..|ks| - 1];
      FirstOccurrencesKeys(init);
      assert ks == init + [ks[|ks| - 1]];
    }
  }

  /** Keys listed once each are kept as listed. */
  lemma {:induction false} FirstOccurrencesOfDistinct(ks: seq<Key>)
    requires forall i, j | 0 <= i < j < |ks| :: ks[i] != ks[j]
    ensures FirstOccurrences(ks) == ks
  {
    if ks != [] {
      var init := ks[..|ks| - 1];
      FirstOccurrencesOfDistinct(init);
      assert ks[|ks| - 1] !in init;
      assert ks == init + [ks[|ks| - 1]];
    }
  }

  /**
   * The selector of the generated criteria: the scope keys with the
   * document's values. An Array scope fills a Hash, so a key listed twice
   * appears once, where it is first listed.
   */
  function ScopeSelector(spec: ScopeSpec, doc: Attrs): (sel: Selector)
    ensures spec.SymbolScope? ==> sel == [(spec.key, Attr(doc, spec.key))]
    ensures spec.ArrayScope? ==> |sel| == |FirstOccurrences(spec.keys)|
    ensures spec.ArrayScope? ==> forall i | 0 <= i < |sel| ::
      sel[i] == (FirstOccurrences(spec.keys)[i], Attr(doc, FirstOccurrences(spec.keys)[i]))
    ensures spec.NoScope? ==> sel == []
  {
    match spec
    case ProcScope(_, selector) => selector(doc)
    case SymbolScope(k) => [(k, Attr(doc, k))]
    case ArrayScope(keys) =>
      var ks := FirstOccurrences(keys);
      seq(|ks|, i requires 0 <= i < |ks| => (ks[i], Attr(doc, ks[i])))
    case NoScope => []
  }

  /** An Array scope that lists a key twice selects on it once. */
  lemma RepeatedArrayKeySelectedOnce(doc: Attrs)
    ensures ScopeSelector(ArrayScope(["group_id", "group_id"]), doc) == [("group_id", Attr(doc, "group_id"))]
  {
    assert FirstOccurrences(["group_id"]) == ["group_id"];
  }

  /** The keys of a selector, in order. */
  function SelectorKeys(sel: Selector): (ks: seq<Key>)
    ensures |ks| == |sel| && forall i | 0 <= i < |sel| :: ks[i] == sel[i].0
  {
    if sel == [] then [] else [sel[0].0] + SelectorKeys(sel[1..])
  }

  /** Every Symbol, Array or absent scope contains the document that generated it. */
  lemma OwnScope(spec: ScopeSpec, doc: Attrs)
    requires !spec.ProcScope?
    ensures Criteria(spec, doc)(doc)
  {
  }

  /** Documents that differ on a scope key generate disjoint scopes. */
  lemma DisjointScopes(spec: ScopeSpec, a: Attrs, b: Attrs, k: Key)
    requires spec.SymbolScope? ==> k == spec.key
    requires spec.ArrayScope? ==> k in spec.keys
    requires spec.SymbolScope? || spec.ArrayScope?
    requires Attr(a, k) != Attr(b, k)
    ensures forall other :: !(Criteria(spec, a)(other) && Criteria(spec, b)(other))
  {
    if spec.ArrayScope? {
      var i :| 0 <= i < |spec.keys| && spec.keys[i] == k;
      forall other | Criteria(spec, a)(other)
        ensures !Criteria(spec, b)(other)
      {
        assert Attr(other, spec.keys[i]) == Attr(a, k);
      }
    }
  }

  /** Documents that agree on the scope keys generate the same scope. */
  lemma SameKeysSameScope(spec: ScopeSpec, a: Attrs, b: Attrs)
    requires !spec.ProcScope?
    requires AgreeOn(SelectorKeys(ScopeSelector(spec, a)), a, b)
    ensures forall other :: Criteria(spec, a)(other) == Criteria(spec, b)(other)
  {
    var ks := SelectorKeys(ScopeSelector(spec, a));
    match spec
    case SymbolScope(k) =>
      assert ks[0] == k;
    case ArrayScope(keys) =>
      var ds := FirstOccurrences(keys);
      FirstOccurrencesKeys(keys);
      forall i | 0 <= i < |keys|
        ensures Attr(a, keys[i]) == Attr(b, keys[i])
      {
        assert keys[i] in ds;
        var j :| 0 <= j < |ds| && ds[j] == keys[i];
        assert ks[j] == ds[j];
      }
    case NoScope =>
  }

  /** An empty Array scope puts every document in one list. */
  lemma EmptyArrayMatchesAll(doc: Attrs)
    ensures forall other :: Criteria(ArrayScope([]), doc)(other)
  {
  }

  /**
   * The older generator (and `define_orderable_scope` of the oldest
   * configuration module): a Symbol is equality on that field, a Proc is
   * used as given, and every other scope, an Array included, matches all.
   */
  function LegacyCriteria(spec: ScopeSpec, doc: Attrs): (scope: Scope)
    ensures spec.SymbolScope? ==> forall other :: scope(other) == (Attr(other, spec.key) == Attr(doc, spec.key))
    ensures spec.ProcScope? ==> scope == spec.criteria(doc)
    ensures spec.ArrayScope? || spec.NoScope? ==> forall other :: scope(other)
  {
    match spec
    case ProcScope(criteria, _) => criteria(doc)
    case SymbolScope(k) => (other: Attrs) => Attr(other, k) == Attr(doc, k)
    case _ => (other: Attrs) => true
  }

  /** In the older generator a document belongs to its own Symbol or catch-all scope. */
  lemma LegacyOwnScope(spec: ScopeSpec, doc: Attrs)
    requires !spec.ProcScope?
    ensures LegacyCriteria(spec, doc)(doc)
  {
  }
}
