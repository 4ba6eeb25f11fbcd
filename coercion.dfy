/**
 * The last step of option resolution: a table names the options whose
 * value should not stay text and the converter for each; every such option
 * that currently holds text is replaced by its converted value.
 */
module Coercion {
  import opened Values
  import opened Text

  /** The converters the table uses: `int` and the strip-lower-compare lambda. */
  datatype Converter = ToInt | ToBool

  /** Option name and converter, in the order they are applied. */
  const CoercionTable: seq<(string, Converter)> := [("port", ToInt), ("get_info", ToBool)]

  /**
   * Applies a converter to a text value: `int` gives the number of a decimal
   * literal and fails on anything else; the boolean converter never fails
   * and gives true exactly on a padded `true`.
   */
  function Convert(conv: Converter, text: string): (r: Result<Value>)
    ensures r.Err? <==> conv == ToInt && ParseDecimal(text).None?
    ensures conv == ToInt && r.Ok? ==> r.value == VInt(ParseDecimal(text).value)
  {
    match conv
    case ToInt =>
      (match ParseDecimal(text)
       case Some(n) => Ok(VInt(n))
       case None => Err(InvalidLiteral(text)))
    case ToBool => Ok(VBool(ParseBool(text)))
  }

  /** The port holds text that is not a decimal literal, which `int` rejects. */
  predicate PortRejected(opts: Options)
  {
    "port" in opts && opts["port"].VStr? && ParseDecimal(opts["port"].s).None?
  }

  /**
   * What one option holds after coercion, stated per option name: a text
   * port becomes its number, a text `get_info` becomes a boolean, and every
   * other value, and every value that is not text, stays as it is.
   */
  function CoercedValue(key: string, v: Value): Value
  {
    match v
    case VStr(s) =>
      if key == "port" then
        (match ParseDecimal(s) case Some(n) => VInt(n) case None => v)
      else if key == "get_info" then VBool(ParseBool(s))
      else v
    case _ => v
  }

  /** The outcome of coercion: failure exactly on a rejected port, otherwise every option coerced on its own. */
  function Coerce(opts: Options): (r: Result<Options>)
    ensures r.Err? <==> PortRejected(opts)
    ensures r.Ok? ==> r.value.Keys == opts.Keys
  {
    if PortRejected(opts) then Err(InvalidLiteral(opts["port"].s))
    else Ok(map k | k in opts :: CoercedValue(k, opts[k]))
  }

  /** The option names the first `i` rows of the table cover. */
  function TableKeys(i: nat): set<string>
    requires i <= |CoercionTable|
  {
    if i == 0 then {} else TableKeys(i - 1) + {CoercionTable[i - 1].0}
  }

  /** Each row of the table adds a name the earlier rows do not cover. */
  lemma TableKeysGrow(i: nat)
    requires i < |CoercionTable|
    ensures TableKeys(i + 1) == TableKeys(i) + {CoercionTable[i].0}
    ensures CoercionTable[i].0 !in TableKeys(i)
  {
  }

  /** Together the rows cover the port and the completeness flag. */
  lemma TableKeysAll()
    ensures TableKeys(0) == {}
    ensures TableKeys(|CoercionTable|) == {"port", "get_info"}
  {
    TableKeysGrow(0);
    TableKeysGrow(1);
  }

  /** `current` is `options` with the options of the first `i` table rows coerced. */
  predicate CoercedUpTo(current: Options, options: Options, i: nat)
    requires i <= |CoercionTable|
  {
    && current.Keys == options.Keys
    && forall k :: k in current ==> current[k] == (if k in TableKeys(i) then CoercedValue(k, options[k]) else options[k])
  }

  /** The converter of row `i` gives, on text it accepts, what the reference coercion gives for that row's option. */
  lemma RowConverts(i: nat, s: string)
    requires i < |CoercionTable|
    requires !(i == 0 && ParseDecimal(s).None?)
    ensures Convert(CoercionTable[i].1, s) == Ok(CoercedValue(CoercionTable[i].0, VStr(s)))
  {
    if i == 0 {
      assert CoercionTable[i] == ("port", ToInt);
    } else {
      assert CoercionTable[i] == ("get_info", ToBool);
    }
  }

  /** Handling row `i` when its option holds text: storing the reference value coerces the mapping up to that row. */
  lemma ConvertRow(current: Options, options: Options, i: nat, name: string)
    requires i < |CoercionTable| && CoercionTable[i].0 == name
    requires CoercedUpTo(current, options, i)
    requires name in current
    ensures CoercedUpTo(current[name := CoercedValue(name, options[name])], options, i + 1)
  {
    TableKeysGrow(i);
    var next := current[name := CoercedValue(name, options[name])];
    assert next.Keys == current.Keys;
    forall k | k in next
      ensures next[k] == (if k in TableKeys(i + 1) then CoercedValue(k, options[k]) else options[k])
    {
      if k != name {
        assert next[k] == current[k];
      }
    }
  }

  /** Handling row `i` when its option is absent or not text: the mapping is already coerced up to that row. */
  lemma SkipRow(current: Options, options: Options, i: nat, name: string)
    requires i < |CoercionTable| && CoercionTable[i].0 == name
    requires CoercedUpTo(current, options, i)
    requires !(name in current && current[name].VStr?)
    ensures CoercedUpTo(current, options, i + 1)
  {
    TableKeysGrow(i);
    forall k | k in current
      ensures current[k] == (if k in TableKeys(i + 1) then CoercedValue(k, options[k]) else options[k])
    {
      if k == name {
        assert current[k] == options[k];
      }
    }
  }

  /** Walks the table in order and rewrites, in place, each listed option that holds text. */
  method CoerceOptions(options: Options) returns (outcome: Result<Options>)
    ensures outcome == Coerce(options)
  {
    var current := options;
    TableKeysAll();
    for i := 0 to |CoercionTable|
      invariant CoercedUpTo(current, options, i)
      invariant i > 0 ==> !PortRejected(options)
    {
      var (name, conv) := CoercionTable[i];
      if name in current && current[name].VStr? {
        var converted := Convert(conv, current[name].s);
        if converted.Err? {
          assert i == 0 && PortRejected(options) by {
            if !(i == 0 && PortRejected(options)) { RowConverts(i, current[name].s); }
          }
          return Err(converted.error);
        }
        assert current[name] == options[name];
        RowConverts(i, current[name].s);
        ConvertRow(current, options, i, name);
        current := current[name := converted.value];
      } else {
        SkipRow(current, options, i, name);
      }
    }
    assert current == map k | k in options :: CoercedValue(k, options[k]);
    outcome := Ok(current);
  }

  /** A text port becomes its number, and coercion fails exactly when the text is not a decimal literal. */
  lemma TextPortCoercion(opts: Options)
    requires "port" in opts && opts["port"].VStr?
    ensures Coerce(opts).Ok? <==> ParseDecimal(opts["port"].s).Some?
    ensures Coerce(opts).Ok? ==> Coerce(opts).value["port"] == VInt(ParseDecimal(opts["port"].s).value)
  {
  }

  /** A text `get_info` goes through the boolean converter: it becomes true exactly on a padded `true`. */
  lemma TextGetInfoCoercion(opts: Options)
    requires "get_info" in opts && opts["get_info"].VStr?
    requires Coerce(opts).Ok?
    ensures Coerce(opts).value["get_info"] == VBool(ParseBool(opts["get_info"].s))
    ensures Coerce(opts).value["get_info"].b <==> PaddedTrue(opts["get_info"].s)
  {
  }

  /** A value that is not text passes through coercion unchanged, whatever its name. */
  lemma NonTextUnchanged(opts: Options, key: string)
    requires key in opts && !opts[key].VStr?
    requires Coerce(opts).Ok?
    ensures key in Coerce(opts).value && Coerce(opts).value[key] == opts[key]
  {
  }

  /** Options the table does not name are never touched. */
  lemma UnlistedUnchanged(opts: Options, key: string)
    requires key in opts && key != "port" && key != "get_info"
    requires Coerce(opts).Ok?
    ensures key in Coerce(opts).value && Coerce(opts).value[key] == opts[key]
  {
  }

  /** After coercion neither listed option holds text, so coercing again changes nothing. */
  lemma CoerceIdempotent(opts: Options)
    requires Coerce(opts).Ok?
    ensures "port" in Coerce(opts).value ==> !Coerce(opts).value["port"].VStr?
    ensures "get_info" in Coerce(opts).value ==> !Coerce(opts).value["get_info"].VStr?
    ensures Coerce(Coerce(opts).value) == Coerce(opts)
  {
    var once := Coerce(opts).value;
    assert !PortRejected(once);
    assert (map k | k in once :: CoercedValue(k, once[k])) == once;
  }
}
