/**
 * `localeVerification`: the schema a localisation record's keys go through. It accepts
 * the name of a `Locale` enum member (mapping it to the member's value) or a `Locale`
 * value itself, and rejects everything else. The enum, which comes from the Discord API
 * types, is a parameter: its members in declaration order, name to value.
 */
module LocaleVerification {
  import opened Wrappers
  import opened JsValues
  import OrderedMaps

  /** Why an argument is refused. */
  datatype LocaleError =
    /** The union schema accepts strings only. */
    | NotAString
    /** A member name whose value is `undefined`: cannot happen, enum values are strings. */
    | InvalidLocaleString(arg: string)
    /** `Invalid Locale value: ${arg}`. */
    | InvalidLocaleValue(arg: string)

  /** `Object.values(Locale).includes(s)`. */
  predicate IsLocaleValue(locale: seq<(string, string)>, s: string) {
    s in OrderedMaps.Values(locale)
  }

  /** The transform: a member name maps to its value (names are checked first), a value to itself. */
  function Verify(locale: seq<(string, string)>, arg: Value): (r: Result<string, LocaleError>)
    ensures r.Ok? ==> IsLocaleValue(locale, r.value)
  {
    if !arg.Str? then Err(NotAString)
    else if OrderedMaps.Has(locale, arg.s) then
      match OrderedMaps.Get(locale, arg.s)
      case Some(v) =>
        var i :| 0 <= i < |locale| && locale[i] == (arg.s, v);
        assert OrderedMaps.Values(locale)[i] == v;
        Ok(v)
      case None => Err(InvalidLocaleString(arg.s))
    else if IsLocaleValue(locale, arg.s) then Ok(arg.s)
    else Err(InvalidLocaleValue(arg.s))
  }

  /** A member name is mapped to that member's value, even when the name is also some value. */
  lemma NameFirst(locale: seq<(string, string)>, name: string, i: nat)
    requires OrderedMaps.DistinctKeys(locale) && i < |locale| && locale[i].0 == name
    ensures Verify(locale, Str(name)) == Ok(locale[i].1)
  {
    assert OrderedMaps.Keys(locale)[i] == name;
    FirstKeyAt(locale, i);
  }

  lemma {:induction false} FirstKeyAt(locale: seq<(string, string)>, i: nat)
    requires OrderedMaps.DistinctKeys(locale) && i < |locale|
    ensures OrderedMaps.Get(locale, locale[i].0) == Some(locale[i].1)
  {
    if i > 0 {
      assert locale[0].0 != locale[i].0;
      FirstKeyAt(locale[1..], i - 1);
    }
  }

  /** A value that is no member's name is returned as it is. */
  lemma ValueKept(locale: seq<(string, string)>, s: string)
    requires IsLocaleValue(locale, s) && !OrderedMaps.Has(locale, s)
    ensures Verify(locale, Str(s)) == Ok(s)
  {
  }

  /** Anything that is neither a member's name nor a value is refused. */
  lemma OthersRejected(locale: seq<(string, string)>, s: string)
    requires !IsLocaleValue(locale, s) && !OrderedMaps.Has(locale, s)
    ensures Verify(locale, Str(s)) == Err(InvalidLocaleValue(s))
  {
  }

  /**
   * When no value is also a member's name, verifying twice changes nothing: what comes
   * out is accepted again as itself.
   */
  lemma Idempotent(locale: seq<(string, string)>, arg: Value)
    requires forall v :: v in OrderedMaps.Values(locale) ==> !OrderedMaps.Has(locale, v)
    requires Verify(locale, arg).Ok?
    ensures Verify(locale, Str(Verify(locale, arg).value)) == Verify(locale, arg)
  {
  }
}
