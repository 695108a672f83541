/**
 * Translation of a requested move target (nil, `top`, `bottom`, `higher`,
 * `lower`, an Integer or a digit String) into a concrete position clamped
 * into `[top, bottom]`, in the current form shared by every handler and
 * engine, and in the oldest form (`target_position_to_position`).
 */
module Resolver {
  import opened Wrappers
  import opened Records

  /** `to_s` of a String or a Symbol target. */
  function Text(t: Target): string
    requires !t.TInt?
  {
    match t
    case TStr(s) => s
    case TSym(name) => name
  }

  predicate IsDigit(c: char) {
    '0' <= c <= '9'
  }

  predicate AllDigits(s: string) {
    forall i | 0 <= i < |s| :: IsDigit(s[i])
  }

  /** Ruby's `/\A\d+\Z/`: one or more ASCII digits, and `\Z` also admits a single final newline. */
  predicate DigitPattern(s: string) {
    || (|s| > 0 && AllDigits(s))
    || (|s| > 1 && s[|s| - 1] == '\n' && AllDigits(s[..|s| - 1]))
  }

  /** The number a string of decimal digits denotes. */
  function DigitsValue(s: string): nat
    requires AllDigits(s)
  {
    if s == [] then 0 else 10 * DigitsValue(s[..|s| - 1]) + (s[|s| - 1] as int - '0' as int)
  }

  /** `String#to_i` of a string that matched the digit pattern (a final newline stops the parse). */
  function ToI(s: string): nat
    requires DigitPattern(s)
  {
    if AllDigits(s) then DigitsValue(s) else DigitsValue(s[..|s| - 1])
  }

  /** The decimal spelling of a natural number. */
  function NatToString(n: nat): (s: string)
    ensures |s| > 0 && AllDigits(s) && IsDigit(s[0])
  {
    var c := ('0' as int + n % 10) as char;
    if n < 10 then [c] else NatToString(n / 10) + [c]
  }

  /** A String or Symbol target the case expression recognises. */
  predicate KnownText(s: string) {
    s == "top" || s == "bottom" || s == "higher" || s == "lower" || DigitPattern(s)
  }

  /** `higher` and `lower` read the record's own position, so they need a non-nil one. */
  predicate NeedsPosition(target: Option<Target>) {
    target.Some? && !target.value.TInt? && (Text(target.value) == "higher" || Text(target.value) == "lower")
  }

  /** A Symbol spelled in digits matches the digit pattern, and Symbol has no `to_i`. */
  predicate DigitSymbol(target: Option<Target>) {
    target.Some? && target.value.TSym? && DigitPattern(target.value.name)
  }

  /**
   * The targets the resolver raises on: an unknown String or Symbol,
   * `higher`/`lower` without a position, or a digit Symbol.
   */
  predicate InvalidTarget(target: Option<Target>, position: Option<int>) {
    target.Some? && !target.value.TInt? &&
    (!KnownText(Text(target.value)) || (NeedsPosition(target) && position.None?) || DigitSymbol(target))
  }

  /**
   * The target before clamping: nil means `bottom`; `higher`/`lower` are
   * one slot up/down (`nil.pred` raises); a digit String is its `to_i`,
   * and a digit Symbol raises because `to_i` is undefined on it.
   */
  function Requested(target: Option<Target>, top: int, bottom: int, position: Option<int>): (r: Result<int, Error>)
  {
    match target.GetOr(TSym("bottom"))
    case TInt(n) => Ok(n)
    case t =>
      var s := Text(t);
      if s == "top" then Ok(top)
      else if s == "bottom" then Ok(bottom)
      else if s == "higher" || s == "lower" then
        if position.None? then Err(NoMethodErrorOnNil)
        else if s == "higher" then Ok(position.value - 1) else Ok(position.value + 1)
      else if DigitPattern(s) then
        if t.TSym? then Err(UndefinedMethod("to_i")) else Ok(ToI(s))
      else Err(InvalidTargetPosition(t))
  }

  /** Anything at or below `top` becomes `top`; anything above `bottom` becomes `bottom`. */
  function Clamp(t: int, top: int, bottom: int): (r: int)
    ensures top <= bottom ==> top <= r <= bottom
    ensures t <= top ==> r == top
    ensures top < t <= bottom ==> r == t
    ensures top < t && bottom < t ==> r == bottom
  {
    if t <= top then top else if t > bottom then bottom else t
  }

  /**
   * `resolve_target_position(field, target, in_list)`, where `top` is
   * `orderable_top(field)` and `bottom` is `orderable_bottom(field, in_list)`.
   */
  function Resolve(target: Option<Target>, top: int, bottom: int, position: Option<int>): (r: Result<int, Error>)
    ensures r.Err? <==> InvalidTarget(target, position)
    ensures r.Err? && NeedsPosition(target) ==> r.error == NoMethodErrorOnNil
    ensures r.Err? && DigitSymbol(target) ==> r.error == UndefinedMethod("to_i")
    ensures r.Err? && !NeedsPosition(target) && !DigitSymbol(target) ==> r.error == InvalidTargetPosition(target.value)
    ensures r.Ok? && top <= bottom ==> top <= r.value <= bottom
    ensures top <= bottom && target.None? ==> r == Ok(bottom)
    ensures top <= bottom && target.Some? && target.value.TInt? ==> r == Ok(Clamp(target.value.n, top, bottom))
  {
    KeywordsAreNotDigits();
    match Requested(target, top, bottom, position)
    case Ok(t) => Ok(Clamp(t, top, bottom))
    case Err(e) => Err(e)
  }

  /** The four keywords, before clamping: top, bottom, position - 1 and position + 1. */
  lemma ResolveKeywords(top: int, bottom: int, p: int)
    requires top <= bottom
    ensures Resolve(Some(TSym("top")), top, bottom, None) == Ok(top)
    ensures Resolve(Some(TSym("bottom")), top, bottom, None) == Ok(bottom)
    ensures Resolve(Some(TSym("higher")), top, bottom, Some(p)) == Ok(Clamp(p - 1, top, bottom))
    ensures Resolve(Some(TSym("lower")), top, bottom, Some(p)) == Ok(Clamp(p + 1, top, bottom))
    ensures Resolve(Some(TStr("top")), top, bottom, None) == Ok(top)
    ensures Resolve(Some(TStr("bottom")), top, bottom, None) == Ok(bottom)
    ensures Resolve(Some(TStr("higher")), top, bottom, Some(p)) == Ok(Clamp(p - 1, top, bottom))
    ensures Resolve(Some(TStr("lower")), top, bottom, Some(p)) == Ok(Clamp(p + 1, top, bottom))
  {
    KeywordsAreNotDigits();
  }

  lemma KeywordsAreNotDigits()
    ensures !DigitPattern("top") && !DigitPattern("bottom") && !DigitPattern("higher") && !DigitPattern("lower")
  {
    LetterFirstIsNotDigitPattern("top");
    LetterFirstIsNotDigitPattern("bottom");
    LetterFirstIsNotDigitPattern("higher");
    LetterFirstIsNotDigitPattern("lower");
  }

  lemma LetterFirstIsNotDigitPattern(s: string)
    requires |s| > 0 && !IsDigit(s[0])
    ensures !DigitPattern(s)
  {
    if |s| > 1 {
      assert s[..|s| - 1][0] == s[0];
    }
  }

  /** `higher` at the top and `lower` at the bottom leave the record where it is. */
  lemma EdgeMovesStay(top: int, bottom: int)
    requires top <= bottom
    ensures Resolve(Some(TSym("higher")), top, bottom, Some(top)) == Ok(top)
    ensures Resolve(Some(TSym("lower")), top, bottom, Some(bottom)) == Ok(bottom)
  {
    ResolveKeywords(top, bottom, top);
    ResolveKeywords(top, bottom, bottom);
  }

  lemma {:induction false} NatToStringValue(n: nat)
    ensures DigitsValue(NatToString(n)) == n
  {
    var s := NatToString(n);
    if n >= 10 {
      NatToStringValue(n / 10);
      assert s[..|s| - 1] == NatToString(n / 10);
    }
  }

  /** A digit string resolves exactly like the Integer it spells. */
  lemma DigitStringResolvesToItsValue(n: nat, top: int, bottom: int)
    ensures Resolve(Some(TStr(NatToString(n))), top, bottom, None) == Resolve(Some(TInt(n)), top, bottom, None)
  {
    var s := NatToString(n);
    NatToStringValue(n);
    assert s != "top" && s != "bottom" && s != "higher" && s != "lower" by {
      assert IsDigit(s[0]);
    }
  }

  /** The same digits as a Symbol raise: `Symbol#to_i` does not exist. */
  lemma DigitSymbolRaises(n: nat, top: int, bottom: int, p: Option<int>)
    ensures Resolve(Some(TSym(NatToString(n))), top, bottom, p) == Err(UndefinedMethod("to_i"))
    ensures Resolve(Some(TStr(NatToString(n))), top, bottom, p).Ok?
  {
    var s := NatToString(n);
    assert s != "top" && s != "bottom" && s != "higher" && s != "lower" by {
      assert IsDigit(s[0]);
    }
  }

  /** A string with a character other than a digit (and not a keyword) is rejected. */
  lemma NonNumericStringRejected(s: string, i: nat, top: int, bottom: int)
    requires i < |s| && !IsDigit(s[i]) && (i < |s| - 1 || s[i] != '\n')
    requires s != "top" && s != "bottom" && s != "higher" && s != "lower"
    ensures Resolve(Some(TStr(s)), top, bottom, None) == Err(InvalidTargetPosition(TStr(s)))
  {
    if |s| > 1 && s[|s| - 1] == '\n' {
      assert s[..|s| - 1][i] == s[i];
    }
  }

  /** Asking beyond either end is the same as asking for that end. */
  lemma ClampIsIdempotent(n: int, top: int, bottom: int)
    requires top <= bottom
    ensures n <= top ==> Resolve(Some(TInt(n)), top, bottom, None) == Resolve(Some(TInt(top)), top, bottom, None)
    ensures n > bottom ==> Resolve(Some(TInt(n)), top, bottom, None) == Resolve(Some(TInt(bottom)), top, bottom, None)
    ensures Resolve(Some(TInt(Clamp(n, top, bottom))), top, bottom, None) == Resolve(Some(TInt(n)), top, bottom, None)
  {
  }

  /**
   * The oldest resolver: a String or Symbol is compared by symbol name only,
   * so a digit string, like any other unknown name, yields nil, and the
   * following `nil < base` raises. Clamping is two separate tests: below
   * `base` becomes `base`, then above `bottom` becomes `bottom`.
   */
  function LegacyTargetPosition(target: Option<Target>, base: int, bottom: int, position: Option<int>): (r: Result<int, Error>)
    ensures r.Err? <==> target.Some? && !target.value.TInt? &&
                        (Text(target.value) !in {"top", "bottom", "higher", "lower"} || (NeedsPosition(target) && position.None?))
    ensures r.Err? ==> r.error == NoMethodErrorOnNil
    ensures r.Ok? && base <= bottom ==> base <= r.value <= bottom
  {
    var requested :=
      match target.GetOr(TSym("bottom"))
      case TInt(n) => Some(n)
      case t =>
        var s := Text(t);
        if s == "top" then Some(base)
        else if s == "bottom" then Some(bottom)
        else if s == "higher" && position.Some? then Some(position.value - 1)
        else if s == "lower" && position.Some? then Some(position.value + 1)
        else None;
    match requested
    case None => Err(NoMethodErrorOnNil)
    case Some(t0) =>
      var t1 := if t0 < base then base else t0;
      Ok(if t1 > bottom then bottom else t1)
  }

  /** Where the two resolvers part: the oldest one raises on a digit string the current one accepts. */
  lemma LegacyRejectsDigitStrings(n: nat, top: int, bottom: int)
    requires top <= bottom
    ensures LegacyTargetPosition(Some(TStr(NatToString(n))), top, bottom, None).Err?
    ensures Resolve(Some(TStr(NatToString(n))), top, bottom, None) == Ok(Clamp(n, top, bottom))
  {
    DigitStringResolvesToItsValue(n, top, bottom);
    var s := NatToString(n);
    assert s !in {"top", "bottom", "higher", "lower"} by {
      assert IsDigit(s[0]);
    }
  }

  /** On Integer targets with `base <= bottom` the two resolvers agree. */
  lemma LegacyAgreesOnIntegers(n: int, base: int, bottom: int)
    requires base <= bottom
    ensures LegacyTargetPosition(Some(TInt(n)), base, bottom, None) == Resolve(Some(TInt(n)), base, bottom, None)
  {
  }
}
