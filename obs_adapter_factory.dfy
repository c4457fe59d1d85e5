/**
 * Building an adapter from a configuration array: the three required keys
 * are checked in order and the first bad one is reported; the optional
 * keys fall back to their defaults; the values go unchanged to the client
 * constructor and the adapter constructor.
 */
module Factory {
  import opened Wrappers
  import opened Php
  import opened PhpArray
  import Client
  import PathPrefix
  import Adapter

  /** A configuration value: null, a string, or a value of any other type. */
  datatype Value = Null | Text(text: Str) | Other

  const AccessKeyName: Str := "access_key"
  const SecretKeyName: Str := "secret_key"
  const BucketName: Str := "bucket"
  const PrefixName: Str := "prefix"
  const RegionName: Str := "region"
  const EndpointName: Str := "endpoint"

  /** The keys every configuration must set, in the order they are checked. */
  const RequiredKeys: seq<Str> := [AccessKeyName, SecretKeyName, BucketName]

  const MissingKey: Str := "Missing required config key: "
  const KeyOpen: Str := "Config key '"
  const NotAString: Str := "' must be a non-empty string"

  /** Why a configuration is refused. */
  datatype FactoryError =
    | ConfigurationError(message: Str)
    /** A non-string optional value reaches a string parameter of `create`. */
    | TypeError(key: Str)

  /** `isset($config[$key])`: present and not null. */
  predicate IsSet(config: Arr<Value>, key: Str)
  {
    Get(config, key).Some? && Get(config, key).value != Null
  }

  /** The check of one required key. */
  function CheckKey(config: Arr<Value>, key: Str): Outcome<Str>
  {
    if !IsSet(config, key) then Fail(MissingKey + key)
    else if !Get(config, key).value.Text? || Trim(Get(config, key).value.text) == [] then Fail(KeyOpen + key + NotAString)
    else Pass
  }

  /** A required key is refused as missing when unset or null, and as not a string when it is not text or only whitespace. */
  lemma CheckKeyCases(config: Arr<Value>, key: Str)
    ensures CheckKey(config, key) == Fail(MissingKey + key) <==> Get(config, key).GetOr(Null) == Null
    ensures CheckKey(config, key).Pass? <==> Get(config, key).Some? && Get(config, key).value.Text? && Trim(Get(config, key).value.text) != []
    ensures CheckKey(config, key).Fail? && CheckKey(config, key) != Fail(MissingKey + key) ==>
      CheckKey(config, key) == Fail(KeyOpen + key + NotAString)
  {
    var missing := MissingKey + key;
    var notString := KeyOpen + key + NotAString;
    assert missing != notString by { assert missing[0] != notString[0]; }
  }

  /** The foreach over the required keys: the first key that fails its check ends the validation. */
  function Validate(config: Arr<Value>, keys: seq<Str>): Outcome<Str>
    decreases |keys|
  {
    if keys == [] then Pass
    else if CheckKey(config, keys[0]).Fail? then CheckKey(config, keys[0])
    else Validate(config, keys[1..])
  }

  /** Validation passes exactly when every key passes, and otherwise reports the first key that fails. */
  lemma {:induction false} ValidateFirstFailure(config: Arr<Value>, keys: seq<Str>)
    ensures Validate(config, keys).Pass? <==> forall i :: 0 <= i < |keys| ==> CheckKey(config, keys[i]).Pass?
    ensures forall i ::
      (0 <= i < |keys| && CheckKey(config, keys[i]).Fail? && forall j :: 0 <= j < i ==> CheckKey(config, keys[j]).Pass?)
      ==> Validate(config, keys) == CheckKey(config, keys[i])
    decreases |keys|
  {
    if keys != [] {
      ValidateFirstFailure(config, keys[1..]);
      forall i | 1 <= i < |keys| ensures keys[i] == keys[1..][i - 1] {
      }
    }
  }

  /** `$config[$key] ?? null` for an optional key, which `create` takes as a string or null. */
  function Optional(config: Arr<Value>, key: Str): Result<Option<Str>, FactoryError>
  {
    match Get(config, key)
    case None => Success(None)
    case Some(v) =>
      match v
      case Null => Success(None)
      case Text(t) => Success(Some(t))
      case Other => Failure(TypeError(key))
  }

  /** The arguments `createFromConfig` passes to `create`. */
  datatype Arguments = Arguments(accessKey: Str, secretKey: Str, bucket: Str, prefix: Str, region: Option<Str>, endpoint: Option<Str>)

  /** Validates the configuration, then reads the required values and the optional ones with their defaults. */
  function CreateFromConfig(config: Arr<Value>): (r: Result<Arguments, FactoryError>)
    ensures r.Success? ==> Validate(config, RequiredKeys).Pass?
    ensures Validate(config, RequiredKeys).Fail? ==> r == Failure(ConfigurationError(Validate(config, RequiredKeys).error))
  {
    match Validate(config, RequiredKeys)
    case Fail(message) => Failure(ConfigurationError(message))
    case Pass =>
      ValidateFirstFailure(config, RequiredKeys);
      assert CheckKey(config, RequiredKeys[0]).Pass? && CheckKey(config, RequiredKeys[1]).Pass?
        && CheckKey(config, RequiredKeys[2]).Pass?;
      var accessKey := Get(config, AccessKeyName).value.text;
      var secretKey := Get(config, SecretKeyName).value.text;
      var bucket := Get(config, BucketName).value.text;
      var prefix := Optional(config, PrefixName);
      var region := Optional(config, RegionName);
      var endpoint := Optional(config, EndpointName);
      if prefix.Failure? then Failure(prefix.error)
      else if region.Failure? then Failure(region.error)
      else if endpoint.Failure? then Failure(endpoint.error)
      else Success(Arguments(accessKey, secretKey, bucket, prefix.value.GetOr([]), region.value, endpoint.value))
  }

  /**
   * On success the required values are the configuration's own strings, each
   * with something besides whitespace; the prefix defaults to "" and the
   * region and the endpoint to null.
   */
  lemma CreateFromConfigValues(config: Arr<Value>)
    requires CreateFromConfig(config).Success?
    ensures var a := CreateFromConfig(config).value;
      && Get(config, AccessKeyName) == Some(Text(a.accessKey)) && Trim(a.accessKey) != []
      && Get(config, SecretKeyName) == Some(Text(a.secretKey)) && Trim(a.secretKey) != []
      && Get(config, BucketName) == Some(Text(a.bucket)) && Trim(a.bucket) != []
      && (Get(config, PrefixName).GetOr(Null) == Null ==> a.prefix == [])
      && (Get(config, PrefixName) == Some(Text(a.prefix)) || Get(config, PrefixName).GetOr(Null) == Null)
      && (a.region.None? <==> Get(config, RegionName).GetOr(Null) == Null)
      && (a.region.Some? ==> Get(config, RegionName) == Some(Text(a.region.value)))
      && (a.endpoint.None? <==> Get(config, EndpointName).GetOr(Null) == Null)
      && (a.endpoint.Some? ==> Get(config, EndpointName) == Some(Text(a.endpoint.value)))
  {
    ValidateFirstFailure(config, RequiredKeys);
    assert CheckKey(config, RequiredKeys[0]).Pass? && CheckKey(config, RequiredKeys[1]).Pass?
      && CheckKey(config, RequiredKeys[2]).Pass?;
  }

  /** What `create` builds: the client, then the adapter's bucket and prefixer. */
  datatype Built = Built(client: Client.ObsClient, bucket: Str, prefixer: PathPrefix.PathPrefixer)

  /** `create`: the client constructor's checks first, then the adapter constructor's. */
  function Create(a: Arguments): (r: Result<Built, Str>)
    ensures r.Failure? <==> a.accessKey == [] || a.secretKey == [] || a.bucket == []
    ensures r.Success? ==> r.value.client == Client.NewObsClient(a.accessKey, a.secretKey, a.region, a.endpoint).value
    ensures r.Success? ==> r.value.bucket == a.bucket && r.value.prefixer == PathPrefix.NewPrefixer(a.prefix)
  {
    match Client.NewObsClient(a.accessKey, a.secretKey, a.region, a.endpoint)
    case Failure(e) => Failure(e)
    case Success(c) =>
      if a.bucket == [] then Failure(Adapter.BucketRequired)
      else Success(Built(c, a.bucket, PathPrefix.NewPrefixer(a.prefix)))
  }

  /** A configuration that passes validation always builds: neither constructor can refuse it. */
  lemma ValidConfigBuilds(config: Arr<Value>)
    requires CreateFromConfig(config).Success?
    ensures Create(CreateFromConfig(config).value).Success?
  {
    CreateFromConfigValues(config);
  }
}
