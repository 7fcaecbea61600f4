/**
 * What the two `ConfigLoader` classes share: a properties file read into a
 * map, the failure they raise, and the requested keys collected into a map.
 */
module ConfigFailure {
  import opened Wrappers

  /** Every failure is rethrown as this message, with the original exception's message as the cause. */
  const LOAD_FAILED := "Error loading configuration."
  const NOT_SET := "Database configuration is not set."

  datatype ConfigError = ConfigError(message: string, cause: string)

  /** The index of the first requested key the properties lack, if any. */
  function FirstMissing(properties: map<string, string>, keys: seq<string>): (r: Option<nat>)
    ensures r.None? <==> forall j :: 0 <= j < |keys| ==> keys[j] in properties
    ensures r.Some? ==> r.value < |keys| && keys[r.value] !in properties
    ensures r.Some? ==> forall j :: 0 <= j < r.value ==> keys[j] in properties
  {
    if keys == [] then None
    else if keys[0] !in properties then Some(0)
    else
      var rest := FirstMissing(properties, keys[1..]);
      assert forall j :: 1 <= j < |keys| ==> keys[j] == keys[1..][j - 1];
      match rest
        case None => None
        case Some(i) => Some(i + 1)
  }

  /** The requested keys, each bound to its property value. */
  function Collected(properties: map<string, string>, keys: seq<string>): (config: map<string, string>)
    requires forall j :: 0 <= j < |keys| ==> keys[j] in properties
    ensures forall k :: k in config <==> k in keys
    ensures forall k :: k in config ==> config[k] == properties[k]
  {
    map k | k in keys :: properties[k]
  }
}
