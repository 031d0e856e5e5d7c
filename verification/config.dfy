/** Start-up configuration read from the process environment
    (src/config.ts). `envVar` reads one variable and, unless the variable is
    optional, rejects an unset or empty value; the configuration object
    reads its four variables in declaration order, so the first missing
    required one is the one reported. */
module Config {
  import opened Wrappers

  /** The process environment: a variable that is absent from the map is
      unset (`undefined` in the source). */
  type Env = map<string, string>

  /** A required variable was unset or empty. */
  datatype ConfigError = Required(key: string)

  datatype Config = Config(
    resultPrefix: string,
    awsKeyId: string,
    awsSecretKey: string,
    bucketMountName: Option<string>)

  const ResultPrefixKey: string := "RESULT_PREFIX"
  const AwsKeyIdKey: string := "AWS_KEY_ID"
  const AwsSecretKeyKey: string := "AWS_SECRET_KEY"
  const BucketMountNameKey: string := "BUCKET_MOUNT_NAME"

  /** The required variables, in the order the configuration reads them. */
  const RequiredKeys: seq<string> := [ResultPrefixKey, AwsKeyIdKey, AwsSecretKeyKey]

  /** JavaScript truthiness of `process.env[key]`: set and not empty. */
  predicate IsSet(env: Env, key: string)
  {
    key in env && env[key] != ""
  }

  /** The text of the error thrown for a missing required variable; it
      quotes the variable's name. */
  function Message(e: ConfigError): (m: string)
    ensures |m| > |e.key| + 1
    ensures m[0] == '"' && m[1..|e.key| + 1] == e.key && m[|e.key| + 1] == '"'
  {
    var closing := "\" variable is required, but not set.";
    var m := "\"" + e.key + closing;
    assert m[|e.key| + 1] == closing[0];
    m
  }

  /** `envVar(key, optional)`: the raw value of the variable, which is an
      error exactly when the variable is required and unset or empty. */
  function EnvVar(env: Env, key: string, optional: bool): (r: Result<Option<string>, ConfigError>)
    ensures r.Failure? <==> !optional && !IsSet(env, key)
    ensures r.Failure? ==> r.error == Required(key)
    ensures r.Success? ==> (r.value.Some? <==> key in env)
    ensures r.Success? && key in env ==> r.value.value == env[key]
  {
    var value := if key in env then Some(env[key]) else None;
    if (value.None? || value.value == "") && !optional then Failure(Required(key))
    else Success(value)
  }

  /** `envVar(key)` as the source's first overload types it: a required
      variable's value, which is then a non-empty string. */
  function RequiredVar(env: Env, key: string): (r: Result<string, ConfigError>)
    ensures r.Success? <==> IsSet(env, key)
    ensures r.Success? ==> r.value == env[key] && r.value != ""
    ensures r.Failure? ==> r.error == Required(key)
  {
    var value :- EnvVar(env, key, false);
    Success(value.value)
  }

  /** `envVar(key, true)` as the second overload types it: never fails. */
  function OptionalVar(env: Env, key: string): (r: Option<string>)
    ensures r.Some? <==> key in env
    ensures r.Some? ==> r.value == env[key]
  {
    EnvVar(env, key, true).value
  }

  /** The `config` object: its fields evaluated in declaration order. A
      failure names a required variable that is unset or empty, and a
      success means every required variable is set. */
  function LoadConfig(env: Env): (r: Result<Config, ConfigError>)
    ensures r.Failure? ==> r.error.key in RequiredKeys && !IsSet(env, r.error.key)
    ensures r.Success? ==> forall i :: 0 <= i < |RequiredKeys| ==> IsSet(env, RequiredKeys[i])
  {
    var resultPrefix :- RequiredVar(env, ResultPrefixKey);
    var awsKeyId :- RequiredVar(env, AwsKeyIdKey);
    var awsSecretKey :- RequiredVar(env, AwsSecretKeyKey);
    var bucketMountName := OptionalVar(env, BucketMountNameKey);
    Success(Config(resultPrefix, awsKeyId, awsSecretKey, bucketMountName))
  }

  /** The first of `keys` that is unset or empty in `env`, if any. */
  function FirstUnset(env: Env, keys: seq<string>): (r: Option<string>)
    ensures r.Some? ==> !IsSet(env, r.value)
    ensures r.Some? ==> exists i :: 0 <= i < |keys| && keys[i] == r.value
                                    && forall j :: 0 <= j < i ==> IsSet(env, keys[j])
    ensures r.None? <==> forall i :: 0 <= i < |keys| ==> IsSet(env, keys[i])
  {
    if |keys| == 0 then None
    else if !IsSet(env, keys[0]) then Some(keys[0])
    else
      var r := FirstUnset(env, keys[1..]);
      assert forall i :: 1 <= i < |keys| ==> keys[i] == keys[1..][i - 1];
      assert r.Some? ==> exists i :: 0 <= i < |keys| && keys[i] == r.value
                                     && forall j :: 0 <= j < i ==> IsSet(env, keys[j]) by {
        if r.Some? {
          var i :| 0 <= i < |keys[1..]| && keys[1..][i] == r.value
                   && forall j :: 0 <= j < i ==> IsSet(env, keys[1..][j]);
          assert keys[i + 1] == r.value;
        }
      }
      r
  }

  /** Loading fails exactly when some required variable is unset or empty,
      and then it reports the first such variable in declaration order;
      otherwise every field holds its variable's value unchanged and the
      mount name is present exactly when its variable is set (possibly to
      the empty string). */
  lemma LoadConfigChecksInOrder(env: Env)
    ensures LoadConfig(env).Failure? <==> FirstUnset(env, RequiredKeys).Some?
    ensures LoadConfig(env).Failure? ==> LoadConfig(env).error == Required(FirstUnset(env, RequiredKeys).value)
    ensures LoadConfig(env).Success? ==>
              var c := LoadConfig(env).value;
              && c.resultPrefix == env[ResultPrefixKey]
              && c.awsKeyId == env[AwsKeyIdKey]
              && c.awsSecretKey == env[AwsSecretKeyKey]
              && c.bucketMountName == (if BucketMountNameKey in env then Some(env[BucketMountNameKey]) else None)
  {
    var rest := RequiredKeys[1..];
    assert rest == [AwsKeyIdKey, AwsSecretKeyKey];
    assert rest[1..] == [AwsSecretKeyKey];
    assert rest[1..][1..] == [];
    if !IsSet(env, ResultPrefixKey) {
      assert FirstUnset(env, RequiredKeys) == Some(ResultPrefixKey);
    } else if !IsSet(env, AwsKeyIdKey) {
      assert FirstUnset(env, rest) == Some(AwsKeyIdKey);
    } else if !IsSet(env, AwsSecretKeyKey) {
      assert FirstUnset(env, rest[1..]) == Some(AwsSecretKeyKey);
    } else {
      assert FirstUnset(env, rest[1..][1..]) == None;
    }
  }

  /** The optional mount name never stops start-up: an environment that
      sets the three required variables loads whatever the mount name is,
      and an empty mount name is kept as the empty string. */
  lemma MountNameIsOptional(env: Env)
    requires IsSet(env, ResultPrefixKey) && IsSet(env, AwsKeyIdKey) && IsSet(env, AwsSecretKeyKey)
    ensures LoadConfig(env).Success?
    ensures BucketMountNameKey in env && env[BucketMountNameKey] == "" ==>
              LoadConfig(env).value.bucketMountName == Some("")
  {
  }
}
