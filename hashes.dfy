/**
 * Ruby values as the option normalisers see them, and Ruby's insertion-ordered
 * `Hash` as a sequence of entries: assigning an existing key keeps its place,
 * a new key goes to the end, and a lookup finds the key's entry.
 */
module Hashes {
  import opened Wrappers

  /** A Hash key: a Symbol or a String, by its text. */
  datatype HashKey = Sym(name: string) | Str(s: string)

  /** The Ruby values an option can hold. */
  datatype RVal =
    | RNil
    | RBool(b: bool)
    | RInt(i: int)
    | RSym(name: string)
    | RStr(s: string)
    | RArray(elems: seq<RVal>)
    | RHash(entries: seq<(HashKey, RVal)>)
    | RProc                     // host code; only its class matters here
    | RClass(name: string)      // a class object such as `Integer`

  type Entry = (HashKey, RVal)
  type Hash = seq<Entry>

  /** A Hash holds each key at most once. */
  predicate WellFormed(h: Hash) {
    forall i, j | 0 <= i < j < |h| :: h[i].0 != h[j].0
  }

  /** `h.keys`, as a set. */
  function KeySet(h: Hash): set<HashKey> {
    if h == [] then {} else KeySet(h[..|h| - 1]) + {h[|h| - 1].0}
  }

  lemma {:induction false} KeySetIndex(h: Hash, i: int)
    requires 0 <= i < |h|
    ensures h[i].0 in KeySet(h)
  {
    if i < |h| - 1 {
      assert h[..|h| - 1][i] == h[i];
      KeySetIndex(h[..|h| - 1], i);
    }
  }

  lemma {:induction false} KeySetWitness(h: Hash, k: HashKey) returns (i: int)
    requires k in KeySet(h)
    ensures 0 <= i < |h| && h[i].0 == k
  {
    if h[|h| - 1].0 == k {
      i := |h| - 1;
    } else {
      i := KeySetWitness(h[..|h| - 1], k);
      assert h[..|h| - 1][i] == h[i];
    }
  }

  lemma {:induction false} KeySetExcludes(h: Hash, k: HashKey)
    requires forall i | 0 <= i < |h| :: h[i].0 != k
    ensures k !in KeySet(h)
  {
    if h != [] {
      assert forall i | 0 <= i < |h| - 1 :: h[..|h| - 1][i] == h[i];
      KeySetExcludes(h[..|h| - 1], k);
    }
  }

  /** A hash is well formed when all but its last entry are, and the last key is new. */
  lemma WellFormedSnoc(h: Hash)
    requires h != []
    ensures WellFormed(h) <==> WellFormed(h[..|h| - 1]) && h[|h| - 1].0 !in KeySet(h[..|h| - 1])
  {
    var init := h[..|h| - 1];
    if WellFormed(h) {
      forall i, j | 0 <= i < j < |init| ensures init[i].0 != init[j].0 {
        assert init[i] == h[i] && init[j] == h[j];
      }
      forall i | 0 <= i < |init| ensures init[i].0 != h[|h| - 1].0 {
        assert init[i] == h[i];
      }
      KeySetExcludes(init, h[|h| - 1].0);
    }
    if WellFormed(init) && h[|h| - 1].0 !in KeySet(init) {
      forall i, j | 0 <= i < j < |h| ensures h[i].0 != h[j].0 {
        assert init[i] == h[i];
        if j < |h| - 1 {
          assert init[j] == h[j];
        } else {
          KeySetIndex(init, i);
        }
      }
    }
  }

  /** `h[k]` (nil is `None`): the last entry with key `k`, the only one in a well-formed hash. */
  function Get(h: Hash, k: HashKey): (v: Option<RVal>)
    ensures v.None? <==> k !in KeySet(h)
  {
    if h == [] then None
    else if h[|h| - 1].0 == k then Some(h[|h| - 1].1)
    else Get(h[..|h| - 1], k)
  }

  /** In a well-formed hash, the value stored with a key is what a lookup returns. */
  lemma {:induction false} GetOfEntry(h: Hash, i: int)
    requires WellFormed(h) && 0 <= i < |h|
    ensures Get(h, h[i].0) == Some(h[i].1)
  {
    if i < |h| - 1 {
      WellFormedSnoc(h);
      assert h[..|h| - 1][i] == h[i];
      GetOfEntry(h[..|h| - 1], i);
    }
  }

  /** A lookup that succeeds returns the value of some entry with that key. */
  lemma {:induction false} GetHasEntry(h: Hash, k: HashKey) returns (i: int)
    requires Get(h, k).Some?
    ensures 0 <= i < |h| && h[i] == (k, Get(h, k).value)
  {
    if h[|h| - 1].0 == k {
      i := |h| - 1;
    } else {
      i := GetHasEntry(h[..|h| - 1], k);
      assert h[..|h| - 1][i] == h[i];
    }
  }

  /** The entry of an existing key replaced in place. */
  function Replace(h: Hash, k: HashKey, v: RVal): (r: Hash)
    requires k in KeySet(h)
    ensures |r| == |h|
    ensures forall i | 0 <= i < |h| :: r[i].0 == h[i].0
    ensures KeySet(r) == KeySet(h)
    ensures Get(r, k) == Some(v)
    ensures forall j | j != k :: Get(r, j) == Get(h, j)
  {
    var init := h[..|h| - 1];
    var last := h[|h| - 1];
    if last.0 == k then
      var r := init + [(k, v)];
      assert r[..|r| - 1] == init;
      r
    else
      var r := Replace(init, k, v) + [last];
      assert r[..|r| - 1] == Replace(init, k, v);
      r
  }

  /** `h[k] = v`: an existing key keeps its place, a new one is appended. */
  function Put(h: Hash, k: HashKey, v: RVal): (r: Hash)
    ensures KeySet(r) == KeySet(h) + {k}
    ensures WellFormed(h) ==> WellFormed(r)
    ensures Get(r, k) == Some(v)
    ensures forall j | j != k :: Get(r, j) == Get(h, j)
  {
    if k in KeySet(h) then Replace(h, k, v)
    else
      var r := h + [(k, v)];
      assert r[..|r| - 1] == h;
      WellFormedSnoc(r);
      r
  }

  /** `h.delete(k)`: the hash without `k`, and the value it held. */
  function Delete(h: Hash, k: HashKey): (r: (Hash, Option<RVal>))
    ensures r.1 == Get(h, k)
    ensures KeySet(r.0) == KeySet(h) - {k}
    ensures WellFormed(h) ==> WellFormed(r.0)
    ensures forall j | j != k :: Get(r.0, j) == Get(h, j)
  {
    (Without(h, k), Get(h, k))
  }

  /** The entries of `h` whose key is not `k`, in order. */
  function Without(h: Hash, k: HashKey): (r: Hash)
    ensures KeySet(r) == KeySet(h) - {k}
    ensures WellFormed(h) ==> WellFormed(r)
    ensures forall j | j != k :: Get(r, j) == Get(h, j)
  {
    if h == [] then []
    else
      var init := h[..|h| - 1];
      var last := h[|h| - 1];
      var rest := Without(init, k);
      WellFormedSnoc(h);
      if last.0 == k then rest
      else
        var r := rest + [last];
        assert r[..|r| - 1] == rest;
        WellFormedSnoc(r);
        r
  }

  /** A hash built from pairs in order, `h[k] = v` for each: the last pair of a key sets its value. */
  function FromPairs(ps: seq<Entry>): (h: Hash)
    ensures WellFormed(h)
    ensures KeySet(h) == KeySet(ps)
    ensures forall k :: Get(h, k) == Get(ps, k)
  {
    if ps == [] then []
    else
      var init := ps[..|ps| - 1];
      var last := ps[|ps| - 1];
      Put(FromPairs(init), last.0, last.1)
  }

  /** `a.merge(b)` (and `a.merge!(b)`): each entry of `b`, in order, assigned over `a`. */
  function MergeInto(a: Hash, b: seq<Entry>): (r: Hash)
    requires WellFormed(a)
    ensures WellFormed(r)
    ensures KeySet(r) == KeySet(a) + KeySet(b)
    ensures forall k :: Get(r, k) == if k in KeySet(b) then Get(b, k) else Get(a, k)
  {
    if b == [] then a
    else
      var init := b[..|b| - 1];
      var last := b[|b| - 1];
      Put(MergeInto(a, init), last.0, last.1)
  }

  /** `h.slice(*ks)`: the listed keys that `h` holds, in the order of `ks`. */
  function Slice(h: Hash, ks: seq<HashKey>): (r: Hash)
    requires WellFormed(h)
    ensures WellFormed(r)
    ensures forall k :: Get(r, k) == if k in ks then Get(h, k) else None
  {
    if ks == [] then []
    else
      var init := ks[..|ks| - 1];
      var k := ks[|ks| - 1];
      var rest := Slice(h, init);
      assert forall j :: j in ks <==> j in init || j == k;
      match Get(h, k)
      case None => rest
      case Some(v) => Put(rest, k, v)
  }

  /** Each pair of `h` with its key replaced by `f` of it. */
  function Renamed(h: seq<Entry>, f: HashKey -> HashKey): (ps: seq<Entry>)
    ensures |ps| == |h|
    ensures forall i | 0 <= i < |h| :: ps[i] == (f(h[i].0), h[i].1)
  {
    seq(|h|, i requires 0 <= i < |h| => (f(h[i].0), h[i].1))
  }

  /** A key's value survives renaming when no other key is renamed onto the same one. */
  lemma {:induction false} GetRenamed(h: seq<Entry>, f: HashKey -> HashKey, k: HashKey)
    requires forall i | 0 <= i < |h| :: f(h[i].0) == f(k) ==> h[i].0 == k
    ensures Get(Renamed(h, f), f(k)) == Get(h, k)
  {
    if h != [] {
      var init := h[..|h| - 1];
      assert Renamed(h, f)[..|h| - 1] == Renamed(init, f);
      assert forall i | 0 <= i < |init| :: init[i] == h[i];
      GetRenamed(init, f, k);
    }
  }

  /** `h.transform_keys(&f)`: each pair, in order, stored under its new key. */
  function TransformKeys(h: seq<Entry>, f: HashKey -> HashKey): (r: Hash)
    ensures WellFormed(r)
    ensures KeySet(r) == KeySet(Renamed(h, f))
    ensures forall k :: Get(r, k) == Get(Renamed(h, f), k)
  {
    FromPairs(Renamed(h, f))
  }

  /** `key.to_sym`: the Symbol with the key's text. */
  function ToSym(k: HashKey): (s: HashKey)
    ensures s.Sym? && s.name == (if k.Sym? then k.name else k.s)
  {
    match k
    case Sym(n) => k
    case Str(s) => Sym(s)
  }

  /** `h.symbolize_keys`. */
  function SymbolizeKeys(h: seq<Entry>): (r: Hash)
    ensures WellFormed(r)
    ensures KeySet(r) == KeySet(Renamed(h, ToSym))
    ensures forall k :: Get(r, k) == Get(Renamed(h, ToSym), k)
  {
    TransformKeys(h, ToSym)
  }
}
