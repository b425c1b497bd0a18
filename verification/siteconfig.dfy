/**
 The site configuration: years of experience and a list of labelled stats,
 read with a safe merge against the defaults and updated by overlaying.
 */
module SiteConfig {
  import opened Wrappers
  import opened Json
  import Text

  /** A `{ label, value }` stat of strings. */
  function Stat(name: string, amount: string): Value {
    Obj(map["label" := Str(name), "value" := Str(amount)])
  }

  const DefaultStats: Value :=
    Arr([Stat("Dashboards Delivered", "50+"), Stat("Reports Created", "100+"), Stat("Enterprise Clients", "25+")])

  /** `DEFAULT_CONFIG`. */
  const DefaultConfig: Object := map["experience" := Num(5), "customStats" := DefaultStats]

  /** `stat && typeof stat.label === 'string' && typeof stat.value === 'string'`:
      only an object has such properties. */
  predicate IsStat(v: Value) {
    v.Obj? && Get(v.fields, "label").Str? && Get(v.fields, "value").Str?
  }

  /** `isValidConfig(config)`. An array is an object to typeof, but has no
      experience property, so only a plain object can pass. */
  predicate IsValidConfig(v: Value) {
    && v.Obj?
    && Get(v.fields, "experience").Num?
    && Get(v.fields, "customStats").Arr?
    && forall i :: 0 <= i < |Get(v.fields, "customStats").items| ==> IsStat(Get(v.fields, "customStats").items[i])
  }

  /** The defaults pass the check. */
  lemma DefaultConfigIsValid()
    ensures IsValidConfig(Obj(DefaultConfig))
  {
    var stats := DefaultStats.items;
    assert IsStat(stats[0]) && IsStat(stats[1]) && IsStat(stats[2]);
  }

  /** `{...v}`: the own enumerable fields. An object gives its fields, an
      array its elements under the keys "0", "1", and so on, and a string its
      characters in the same way; null, undefined, booleans and numbers give
      none. */
  function Spread(v: Value): Object {
    match v
    case Obj(fields) => fields
    case Arr(xs) => IndexKeys(xs)
    case Str(s) => IndexKeys(seq(|s|, i requires 0 <= i < |s| => Str([s[i]])))
    case _ => map[]
  }

  /** The elements of xs keyed by their index written in decimal. */
  function IndexKeys(xs: seq<Value>): (o: Object)
    ensures forall i :: 0 <= i < |xs| ==> Text.NatToString(i) in o && o[Text.NatToString(i)] == xs[i]
    ensures forall k :: k in o ==> exists i :: 0 <= i < |xs| && k == Text.NatToString(i)
  {
    Text.NatToStringInjective();
    map i | 0 <= i < |xs| :: Text.NatToString(i) := xs[i]
  }

  /** An index key is all digits, so it is never one of the configuration's
      named fields. */
  lemma IndexKeysAreNotNames(xs: seq<Value>)
    ensures "experience" !in IndexKeys(xs) && "customStats" !in IndexKeys(xs)
  {
  }

  /** `getConfig()`, given the parsed file (None when reading or parsing
      throws). Reading `experience` of a parsed null throws as well. */
  function GetConfig(parsed: Option<Value>): (c: Object)
    ensures Get(c, "experience").Num? && Get(c, "customStats").Arr?
    ensures parsed.None? || parsed.value.Null? ==> c == DefaultConfig
  {
    if parsed.None? || parsed.value.Null? then DefaultConfig
    else
      var p := Spread(parsed.value);
      DefaultConfig + p + map[
        "experience" := if Get(p, "experience").Num? then Get(p, "experience") else Num(5),
        "customStats" := if Get(p, "customStats").Arr? then Get(p, "customStats") else DefaultStats]
  }

  /** Good values in the file are kept, bad or missing ones fall back to the
      defaults, and every other field of the file is kept. */
  lemma GetConfigMerges(o: Object)
    ensures var c := GetConfig(Some(Obj(o)));
      && Get(c, "experience") == (if Get(o, "experience").Num? then Get(o, "experience") else Num(5))
      && Get(c, "customStats") == (if Get(o, "customStats").Arr? then Get(o, "customStats") else DefaultStats)
      && forall k :: k in o && k != "experience" && k != "customStats" ==> k in c && c[k] == o[k]
  {
  }

  /** A file holding a valid configuration reads back as itself, plus any
      default key it lacks. */
  lemma GetConfigOfValid(o: Object)
    requires IsValidConfig(Obj(o))
    ensures GetConfig(Some(Obj(o))) == DefaultConfig + o
  {
    var c := GetConfig(Some(Obj(o)));
    assert c.Keys == (DefaultConfig + o).Keys;
  }

  const InvalidConfiguration := "Invalid configuration data"
  const SaveFailed := "Failed to save configuration"

  /** `updateConfig(updates)`: the current configuration overlaid by the
      updates, written only when it passes isValidConfig. writeOk says whether
      the write succeeds. */
  function UpdateConfig(parsed: Option<Value>, updates: Value, writeOk: bool): (r: Result<Object, string>)
    ensures r.Success? ==> IsValidConfig(Obj(r.value))
    ensures r.Success? ==> r.value == GetConfig(parsed) + Spread(updates)
    ensures r.Failure? ==> r.error == InvalidConfiguration || r.error == SaveFailed
    ensures IsValidConfig(Obj(GetConfig(parsed) + Spread(updates))) && writeOk ==> r.Success?
    ensures IsValidConfig(Obj(GetConfig(parsed) + Spread(updates))) && !writeOk ==> r == Failure(SaveFailed)
  {
    var next := GetConfig(parsed) + Spread(updates);
    if !IsValidConfig(Obj(next)) then Failure(InvalidConfiguration)
    else if !writeOk then Failure(SaveFailed)
    else Success(next)
  }

  /** Keys the updates leave out keep their current values; keys they set take
      the new ones. */
  lemma UpdateConfigOverlays(parsed: Option<Value>, updates: Object, writeOk: bool, k: string)
    requires UpdateConfig(parsed, Obj(updates), writeOk).Success?
    ensures var c := UpdateConfig(parsed, Obj(updates), writeOk).value;
      && (k in updates ==> k in c && c[k] == updates[k])
      && (k !in updates ==> Get(c, k) == Get(GetConfig(parsed), k))
  {
  }

  /** An array body is spread by index: on a valid configuration the update
      succeeds and adds each element under its index, leaving experience and
      customStats as they were. A body `["x"]` adds the key "0". */
  lemma UpdateConfigSpreadsArray(parsed: Option<Value>, xs: seq<Value>)
    requires IsValidConfig(Obj(GetConfig(parsed)))
    ensures UpdateConfig(parsed, Arr(xs), true).Success?
    ensures var c := UpdateConfig(parsed, Arr(xs), true).value;
      && (forall i :: 0 <= i < |xs| ==> Text.NatToString(i) in c && c[Text.NatToString(i)] == xs[i])
      && Get(c, "experience") == Get(GetConfig(parsed), "experience")
      && Get(c, "customStats") == Get(GetConfig(parsed), "customStats")
  {
    var current := GetConfig(parsed);
    var next := current + Spread(Arr(xs));
    IndexKeysAreNotNames(xs);
    assert Get(next, "experience") == Get(current, "experience");
    assert Get(next, "customStats") == Get(current, "customStats");
    assert IsValidConfig(Obj(next));
  }

  /** An update that makes the configuration invalid is refused, whatever the
      write would do. */
  lemma UpdateConfigRejectsInvalid(parsed: Option<Value>, updates: Value, writeOk: bool)
    requires !IsValidConfig(Obj(GetConfig(parsed) + Spread(updates)))
    ensures UpdateConfig(parsed, updates, writeOk) == Failure(InvalidConfiguration)
  {
  }

  /** A non-numeric experience is refused. */
  lemma UpdateConfigNeedsNumber(parsed: Option<Value>, updates: Object, writeOk: bool)
    requires "experience" in updates && !updates["experience"].Num?
    ensures UpdateConfig(parsed, Obj(updates), writeOk) == Failure(InvalidConfiguration)
  {
  }
}
