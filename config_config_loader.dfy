/**
 * `utils.config.ConfigLoader`: the older loader, whose failure for a missing
 * key does not name the key.
 */
module ConfigConfigLoader {
  import opened Wrappers
  import opened ConfigFailure

  const NOT_FULLY_SET := "Database configuration is not fully set."

  /** `load(cls, keys)`: every requested key with its value, or a failure as soon as one is missing. */
  method LoadKeys(properties: Option<map<string, string>>, keys: seq<string>)
    returns (r: Result<map<string, string>, ConfigError>)
    ensures properties.None? ==> r == Err(ConfigError(LOAD_FAILED, NOT_SET))
    ensures properties.Some? && FirstMissing(properties.value, keys).Some? ==>
      r == Err(ConfigError(LOAD_FAILED, NOT_FULLY_SET))
    ensures properties.Some? && FirstMissing(properties.value, keys).None? ==>
      r == Ok(Collected(properties.value, keys))
  {
    if properties.None? {
      return Err(ConfigError(LOAD_FAILED, NOT_SET));
    }
    var props := properties.value;
    var config: map<string, string> := map[];
    for i := 0 to |keys|
      invariant forall j :: 0 <= j < i ==> keys[j] in props
      invariant config == Collected(props, keys[..i])
    {
      var key := keys[i];
      if key !in props {
        return Err(ConfigError(LOAD_FAILED, NOT_FULLY_SET));
      }
      assert keys[..i + 1] == keys[..i] + [key];
      config := config[key := props[key]];
    }
    assert keys[..|keys|] == keys;
    return Ok(config);
  }
}
