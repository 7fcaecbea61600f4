/**
 * `utils.loader.ConfigLoader`: three ways of reading `db.properties`. The
 * properties file is `None` when the resource is missing and its key/value
 * map otherwise.
 */
module LoaderConfigLoader {
  import opened Wrappers
  import opened ConfigFailure

  const KEY_NOT_FOUND := "Config loader could not found key with name: "

  /** `load(cls, keys)`: every requested key with its value, or a failure naming the first one missing. */
  method LoadKeys(properties: Option<map<string, string>>, keys: seq<string>)
    returns (r: Result<map<string, string>, ConfigError>)
    ensures properties.None? ==> r == Err(ConfigError(LOAD_FAILED, NOT_SET))
    ensures properties.Some? && FirstMissing(properties.value, keys).Some? ==>
      r == Err(ConfigError(LOAD_FAILED, KEY_NOT_FOUND + keys[FirstMissing(properties.value, keys).value]))
    ensures properties.Some? && FirstMissing(properties.value, keys).None? ==>
      r == Ok(Collected(properties.value, keys))
  {
    if properties.None? {
      return Err(ConfigError(LOAD_FAILED, NOT_SET));
    }
    var props := properties.value;
    var config: map<string, string> := map[];
    for i := 0 to |keys|
      invariant forall j :: 0 <= j < i ==> keys[j] in props
      invariant config == Collected(props, keys[..i])
    {
      var key := keys[i];
      if key !in props {
        return Err(ConfigError(LOAD_FAILED, KEY_NOT_FOUND + key));
      }
      assert keys[..i + 1] == keys[..i] + [key];
      config := config[key := props[key]];
    }
    assert keys[..|keys|] == keys;
    return Ok(config);
  }

  predicate Injective(keyMap: map<string, string>)
  {
    forall a, b :: a in keyMap && b in keyMap && keyMap[a] == keyMap[b] ==> a == b
  }

  /**
   * `load(cls, keyMap)`: each original key's value stored under its mapped
   * name. The entries are visited in an order this model leaves open, so a
   * failure names some missing original key, and when two original keys map
   * to one name either value may be the one kept.
   */
  method LoadRenamed(properties: Option<map<string, string>>, keyMap: map<string, string>)
    returns (r: Result<map<string, string>, ConfigError>)
    ensures properties.None? ==> r == Err(ConfigError(LOAD_FAILED, NOT_SET))
    ensures properties.Some? && r.Err? ==>
      && r.error.message == LOAD_FAILED
      && exists k :: k in keyMap && k !in properties.value && r.error.cause == KEY_NOT_FOUND + k
    ensures properties.Some? && (forall k :: k in keyMap ==> k in properties.value) ==> r.Ok?
    ensures properties.Some? && (exists k :: k in keyMap && k !in properties.value) ==> r.Err?
    ensures r.Ok? ==> properties.Some? && r.value.Keys == keyMap.Values
    ensures r.Ok? ==> forall t :: t in r.value ==>
      exists k :: k in keyMap && keyMap[k] == t && k in properties.value && r.value[t] == properties.value[k]
    ensures r.Ok? && Injective(keyMap) ==> forall k :: k in keyMap ==> r.value[keyMap[k]] == properties.value[k]
  {
    if properties.None? {
      return Err(ConfigError(LOAD_FAILED, NOT_SET));
    }
    var props := properties.value;
    var config: map<string, string> := map[];
    var remaining := keyMap.Keys;
    while remaining != {}
      invariant remaining <= keyMap.Keys
      invariant forall k :: k in keyMap && k !in remaining ==> k in props
      invariant config.Keys == set k | k in keyMap && k !in remaining :: keyMap[k]
      invariant forall t :: t in config ==>
        exists k :: k in keyMap && k !in remaining && keyMap[k] == t && config[t] == props[k]
      invariant Injective(keyMap) ==> forall k :: k in keyMap && k !in remaining ==> config[keyMap[k]] == props[k]
      decreases remaining
    {
      var key :| key in remaining;
      if key !in props {
        return Err(ConfigError(LOAD_FAILED, KEY_NOT_FOUND + key));
      }
      config := config[keyMap[key] := props[key]];
      remaining := remaining - {key};
    }
    return Ok(config);
  }

  /** `load(cls, key)`: the value, or nothing when the key is absent; only a missing file fails. */
  function LoadKey(properties: Option<map<string, string>>, key: string): (r: Result<Option<string>, ConfigError>)
    ensures r.Err? <==> properties.None?
    ensures r.Err? ==> r.error == ConfigError(LOAD_FAILED, NOT_SET)
    ensures r.Ok? ==> (r.value.Some? <==> key in properties.value)
    ensures r.Ok? && r.value.Some? ==> r.value.value == properties.value[key]
  {
    if properties.None? then Err(ConfigError(LOAD_FAILED, NOT_SET))
    else if key in properties.value then Ok(Some(properties.value[key]))
    else Ok(None)
  }
}
