/**
 * DSConfig as the workflow runner uses it: options of the application's own
 * section of the loaded ini files, read as strings or as comma-separated
 * lists, with a missing option reported as `ConfigException`.
 */
module DSConfig {
  import opened Wrappers
  import Text

  /**
   * A loaded file-backed configuration: the application name, which is also
   * the section every lookup uses by default, and the sections read from the
   * ini files, each a map from option name to its raw value.
   */
  datatype Config = Config(appName: string, sections: map<string, map<string, string>>)

  /** The `option_type` argument of `get`: `None` or `'list'`. */
  datatype OptionType = Plain | AsList

  /** What `get` returns: a string, or a list of strings for `'list'`. */
  datatype Value = Str(text: string) | List(items: seq<string>)

  /** The parser's own failures: `NoSectionError` and `NoOptionError`. */
  datatype ParserError = NoSection(section: string) | NoOption(option: string)

  /**
   * What escapes `get`: `ConfigException` (a `NoOptionError` converted by
   * the `except` clause) or the parser's `NoSectionError`, which that clause
   * does not catch.
   */
  datatype ConfigError = ConfigException(option: string) | NoSectionError(section: string)

  /** `ConfigParser.get(section, option)`. */
  function ParserGet(cfg: Config, section: string, option: string): (r: Result<string, ParserError>)
    ensures r.Ok? <==> section in cfg.sections && option in cfg.sections[section]
    ensures r.Ok? ==> r.value == cfg.sections[section][option]
    ensures r.Err? ==> r.error == if section in cfg.sections then NoOption(option) else NoSection(section)
  {
    if section !in cfg.sections then Err(NoSection(section))
    else if option !in cfg.sections[section] then Err(NoOption(option))
    else Ok(cfg.sections[section][option])
  }

  /** `has_option(option, section)`: a missing section means the application's own. */
  function HasOption(cfg: Config, option: string, section: Option<string>): bool {
    var s := section.GetOr(cfg.appName);
    ParserGet(cfg, s, option).Ok?
  }

  /** Without a section, `has_option` looks in the application's section. */
  lemma HasOptionDefaultSection(cfg: Config, option: string)
    ensures HasOption(cfg, option, None) == HasOption(cfg, option, Some(cfg.appName))
    ensures HasOption(cfg, option, None) <==> cfg.appName in cfg.sections && option in cfg.sections[cfg.appName]
  {
  }

  /**
   * `_getList`: split on `,` and strip each field. There is one element per
   * comma plus one, each without surrounding whitespace and without a comma,
   * and element `i` is the `i`-th field stripped.
   */
  function GetList(raw: string): (r: seq<string>)
    ensures |r| == Text.Count(raw, ',') + 1
    ensures forall i :: 0 <= i < |r| ==> Text.Trimmed(r[i]) && ',' !in r[i]
    ensures forall i :: 0 <= i < |r| ==> r[i] == Text.Strip(Text.Split(raw, ',')[i])
  {
    var parts := Text.Split(raw, ',');
    var r := seq(|parts|, i requires 0 <= i < |parts| => Text.Strip(parts[i]));
    forall i | 0 <= i < |r| ensures ',' !in r[i] {
      StripKeepsOut(parts[i], ',');
    }
    r
  }

  lemma StripKeepsOut(s: string, c: char)
    requires c !in s
    ensures c !in Text.Strip(s)
  {
    Text.StripMargins(s);
    var i :| 0 <= i <= |s| - |Text.Strip(s)| && Text.Strip(s) == s[i..i + |Text.Strip(s)|];
    forall k | 0 <= k < |Text.Strip(s)| ensures Text.Strip(s)[k] != c {
      assert Text.Strip(s)[k] == s[i + k];
    }
  }

  /** `_getList` never returns an empty list: blank input gives `['']`. */
  lemma {:induction false} GetListBlank(raw: string)
    requires Text.AllSpace(raw)
    ensures GetList(raw) == [[]]
  {
    assert ',' !in raw by {
      forall k | 0 <= k < |raw| ensures raw[k] != ',' {
        assert Text.IsSpace(raw[k]);
      }
    }
    Text.SplitNoSeparator(raw, ',');
    Text.StripAllSpace(raw);
  }

  /** Items that are already stripped and comma-free come back from their comma-join. */
  lemma GetListJoin(items: seq<string>)
    requires items != []
    requires forall i :: 0 <= i < |items| ==> Text.Trimmed(items[i]) && ',' !in items[i]
    ensures GetList(Text.Join(items, ',')) == items
  {
    Text.SplitJoin(items, ',');
    forall i | 0 <= i < |items| ensures Text.Strip(items[i]) == items[i] {
      Text.StripTrimmed(items[i]);
    }
  }

  /**
   * `get(option, option_type)` on a file-backed configuration: the raw string
   * for `None`, its `_getList` for `'list'`; a missing option is a
   * `ConfigException`, a missing application section the parser's error.
   */
  function Get(cfg: Config, option: string, t: OptionType): (r: Result<Value, ConfigError>)
    ensures r.Ok? <==> HasOption(cfg, option, None)
    ensures r.Err? ==> r.error == if cfg.appName in cfg.sections then ConfigException(option) else NoSectionError(cfg.appName)
    ensures r.Ok? ==> r.value == match t
                                 case Plain => Str(cfg.sections[cfg.appName][option])
                                 case AsList => List(GetList(cfg.sections[cfg.appName][option]))
  {
    match ParserGet(cfg, cfg.appName, option)
    case Err(NoOption(o)) => Err(ConfigException(o))
    case Err(NoSection(s)) => Err(NoSectionError(s))
    case Ok(raw) =>
      match t
      case Plain => Ok(Str(raw))
      case AsList => Ok(List(GetList(raw)))
  }

  /** `get(option, 'list')` is `_getList` applied to what `get(option)` returns. */
  lemma GetAsListOfPlain(cfg: Config, option: string)
    ensures Get(cfg, option, AsList).Ok? == Get(cfg, option, Plain).Ok?
    ensures Get(cfg, option, Plain).Ok? ==> Get(cfg, option, AsList).value == List(GetList(Get(cfg, option, Plain).value.text))
  {
  }
}
