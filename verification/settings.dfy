/** The installer's settings: built-in defaults overridden by whatever the
    settings file holds, and the defaults alone when the file cannot be used. */
module Settings {
  import opened Common

  /** A JSON value as `json.load` produces it (numbers restricted to integers). */
  datatype Json =
    | JNull
    | JBool(b: bool)
    | JNum(n: int)
    | JStr(s: string)
    | JArray(items: seq<Json>)
    | JObject(members: map<string, Json>)

  type Settings = map<string, Json>

  const Defaults: Settings := map["auto_close" := JBool(false), "preferred_pm" := JStr("auto")]

  /** `load_settings`. `file` is the parsed settings file, or `None` when it
      could not be opened or parsed. Only a JSON object can update the
      defaults; any other outcome ends in the exception handler, which returns
      the defaults. */
  function Load(file: Option<Json>): (s: Settings)
    ensures Defaults.Keys <= s.Keys
    ensures file.Some? && file.value.JObject? ==>
      && s.Keys == Defaults.Keys + file.value.members.Keys
      && (forall k :: k in file.value.members ==> s[k] == file.value.members[k])
      && (forall k :: k in Defaults && k !in file.value.members ==> s[k] == Defaults[k])
    ensures !(file.Some? && file.value.JObject?) ==> s == Defaults
  {
    match file
    case Some(JObject(members)) => Defaults + members
    case _ => Defaults
  }

  /** `dict.get(key, default)`. */
  function Get(s: Settings, key: string, default: Json): (v: Json)
    ensures key in s ==> v == s[key]
    ensures key !in s ==> v == default
  {
    if key in s then s[key] else default
  }

  /** What `save_settings` writes, loaded back, is what was saved: the
      defaults add nothing to a settings map that already has their keys. */
  lemma SaveThenLoad(s: Settings)
    requires Defaults.Keys <= s.Keys
    ensures Load(Some(JObject(s))) == s
  {
  }

  /** Loading is stable: settings that were loaded once load back unchanged. */
  lemma LoadIsStable(file: Option<Json>)
    ensures Load(Some(JObject(Load(file)))) == Load(file)
  {
    SaveThenLoad(Load(file));
  }
}
