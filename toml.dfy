/** The view the bundlers have of `asset_config.toml` once `std::fs::read`
    and `toml::from_slice` have run: TOML's own syntax is not modelled, only
    the key/value table it yields. */
module Toml {
  import opened Common

  /** A TOML value, as far as the configuration decoders tell values apart. */
  datatype TomlValue = TomlString(s: string) | TomlBool(b: bool) | TomlOther

  type Table = map<string, TomlValue>

  /** The configuration file: it cannot be read (missing, say), it is not
      valid TOML, or it holds a table. */
  datatype ConfigFile = Unreadable | Malformed | Parsed(table: Table)

  /** The message of the `expect` that rejects a configuration. */
  const ParsePanic: string := "Could not parse asset_config.toml"

  /** The string under `key`, or `otherwise` when the key is absent (the
      `#[serde(default)]` of a missing field). */
  function StringField(t: Table, key: string, otherwise: string): (s: string)
    ensures key in t && t[key].TomlString? ==> s == t[key].s
    ensures key !in t ==> s == otherwise
  {
    if key in t && t[key].TomlString? then t[key].s else otherwise
  }

  /** The boolean under `key`, or `otherwise` when the key is absent. */
  function BoolField(t: Table, key: string, otherwise: bool): (b: bool)
    ensures key in t && t[key].TomlBool? ==> b == t[key].b
    ensures key !in t ==> b == otherwise
  {
    if key in t && t[key].TomlBool? then t[key].b else otherwise
  }

  /** `std::fs::read(path).and_then(|x| Ok(toml::from_slice(&x).expect(..)))
      .unwrap_or_default()`: a file that cannot be read gives the default
      configuration; a file that is read but is not TOML, or whose table
      `decode` rejects, panics; otherwise the decoded configuration. */
  function LoadOrDefault<C>(file: ConfigFile, decode: Table -> Option<C>, otherwise: C): (r: Exit<C>)
    ensures r.Panic? <==> file.Malformed? || (file.Parsed? && decode(file.table).None?)
    ensures r.Panic? ==> r.message == ParsePanic
    ensures file.Unreadable? ==> r == Return(otherwise)
    ensures file.Parsed? && decode(file.table).Some? ==> r == Return(decode(file.table).value)
  {
    match file
    case Unreadable => Return(otherwise)
    case Malformed => Panic(ParsePanic)
    case Parsed(table) =>
      match decode(table)
      case None => Panic(ParsePanic)
      case Some(c) => Return(c)
  }
}
