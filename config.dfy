/**
 * The configuration side of `Helper`: the object keeps the parsed
 * configuration in its `conf` field and `parse_and_validate` checks that the
 * keys an operation needs are present in the `default` section.
 *
 * Reading the file is outside the model: the parser's answer is an input,
 * the options of the special `DEFAULT` section plus the named sections, with
 * option names already lower-cased as `configparser` stores them.
 */
module Config {
  import opened Common

  /** The name under which the helper looks up its settings. */
  const DefaultSection := "default"

  /** What `configparser` holds after reading a file. */
  datatype ParsedConfig = ParsedConfig(
    defaults: map<string, string>,                 // options of the `DEFAULT` section
    sections: map<string, map<string, string>>)    // every other section by name

  /** The three shapes the `conf` field takes over an object's life. */
  datatype Conf =
    | Unset                              // `None`, as the constructor leaves it
    | Whole(parsed: ParsedConfig)        // the whole parser object
    | Section(options: map<string, string>)  // the `default` section alone

  /** Outcome of a validation: `True`, `False` with the missing keys, or the `KeyError` raised. */
  datatype Validation =
    | Valid
    | Missing(keys: set<string>)
    | NoSection

  /**
   * A section as `configparser` presents it: the `DEFAULT` options, overridden
   * by the section's own.
   */
  function SectionView(parsed: ParsedConfig, name: string): (r: Option<map<string, string>>)
    ensures r.Some? <==> name in parsed.sections
    ensures r.Some? ==> r.value.Keys == parsed.defaults.Keys + parsed.sections[name].Keys
    ensures r.Some? ==> forall k :: k in parsed.sections[name] ==> r.value[k] == parsed.sections[name][k]
    ensures r.Some? ==> forall k :: k in parsed.defaults && k !in parsed.sections[name] ==> r.value[k] == parsed.defaults[k]
  {
    if name in parsed.sections then Some(parsed.defaults + parsed.sections[name]) else None
  }

  /** The check `set(required) - set(conf['default'].keys())` is empty. */
  function Validate(parsed: ParsedConfig, required: seq<string>): (r: Validation)
    ensures r == NoSection <==> DefaultSection !in parsed.sections
    ensures r == Valid <==>
      DefaultSection in parsed.sections &&
      forall k :: k in required ==> k in parsed.defaults || k in parsed.sections[DefaultSection]
    ensures r.Missing? ==>
      r.keys != {} &&
      forall k :: k in r.keys <==>
        k in required && k !in parsed.defaults && k !in parsed.sections[DefaultSection]
  {
    match SectionView(parsed, DefaultSection)
    case None => NoSection
    case Some(options) =>
      var missing := (set k | k in required) - options.Keys;
      if |missing| > 0 then Missing(missing)
      else
        assert missing == {};
        assert forall k :: k in required ==> k in options by {
          forall k | k in required ensures k in options {
            assert k in (set j | j in required) && k !in missing;
          }
        }
        Valid
  }

  class Helper {
    var conf: Conf

    constructor ()
      ensures conf == Unset
    {
      conf := Unset;
    }

    /**
     * Stores the parsed file, checks the required keys and, when all are
     * present, narrows `conf` to the `default` section.
     */
    method ParseAndValidate(parsed: ParsedConfig, required: seq<string>) returns (r: Validation)
      modifies this
      ensures r == Validate(parsed, required)
      ensures r == Valid ==> conf == Section(parsed.defaults + parsed.sections[DefaultSection])
      ensures r != Valid ==> conf == Whole(parsed)
    {
      conf := Whole(parsed);
      if DefaultSection !in parsed.sections {
        return NoSection;
      }
      var options := parsed.defaults + parsed.sections[DefaultSection];
      var missing := (set k | k in required) - options.Keys;
      if |missing| > 0 {
        r := Missing(missing);
      } else {
        conf := Section(options);
        r := Valid;
      }
    }
  }
}
