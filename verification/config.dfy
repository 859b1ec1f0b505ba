/** The active-key lookup `get_api_key` over the user configuration. The
    configuration is a dictionary from environment name to an entry; it is
    modelled as the sequence of its items in dictionary iteration order. */
module Config {

  import opened Wrappers
  import opened Errors

  /** One environment's entry. `apiKey` is absent when the entry has no
      "api_key" field; `active` is absent when it has no "active" field,
      and only the presence of that field matters, not its value. */
  datatype Entry = Entry(apiKey: Option<string>, active: Option<bool>)

  /** The user configuration: (environment name, entry) pairs in iteration order. */
  type UserConfig = seq<(string, Entry)>

  /** The environment name `transcribe` and `translate` pass by default. */
  const DefaultEnv: string := "default"

  predicate HasActive(e: Entry) {
    e.active.Some?
  }

  /** Entry `i` is the first one, in iteration order, with an "active" field. */
  predicate IsFirstActive(config: UserConfig, i: int) {
    && 0 <= i < |config|
    && HasActive(config[i].1)
    && forall j :: 0 <= j < i ==> !HasActive(config[j].1)
  }

  /** No entry has an "active" field. */
  predicate NoneActive(config: UserConfig) {
    forall j :: 0 <= j < |config| ==> !HasActive(config[j].1)
  }

  /** Index of the first entry with an "active" field, scanning from the front. */
  function FirstActive(config: UserConfig): (r: Option<nat>)
    ensures r.None? <==> NoneActive(config)
    ensures r.Some? ==> IsFirstActive(config, r.value)
  {
    if |config| == 0 then None
    else if HasActive(config[0].1) then Some(0)
    else
      match FirstActive(config[1..])
      case None => None
      case Some(i) => Some(i + 1)
  }

  /** `get_api_key`: the api key of the first entry that has an "active"
      field; a `NoActiveEnvironment` error when none has one. The `env`
      argument is accepted and ignored. */
  function GetApiKey(config: UserConfig, env: string): (r: Result<string, Error>)
    ensures r == Failure(NoActiveEnvironment) <==> NoneActive(config)
    ensures forall i :: IsFirstActive(config, i) ==>
      r == (match config[i].1.apiKey
            case Some(k) => Success(k)
            case None => Failure(MissingApiKey(config[i].0)))
  {
    match FirstActive(config)
    case None => Failure(NoActiveEnvironment)
    case Some(i) =>
      match config[i].1.apiKey
      case Some(k) => Success(k)
      case None => Failure(MissingApiKey(config[i].0))
  }

  /** The `env` argument has no influence on the result. */
  lemma GetApiKeyIgnoresEnv(config: UserConfig, env1: string, env2: string)
    ensures GetApiKey(config, env1) == GetApiKey(config, env2)
  {
  }

  /** An empty configuration always fails with `NoActiveEnvironment`. */
  lemma EmptyConfigFails(env: string)
    ensures GetApiKey([], env) == Failure(NoActiveEnvironment)
  {
  }

  /** Entries after an active one are never consulted: a later active entry
      is never chosen. */
  lemma {:induction false} LaterEntriesIgnored(config: UserConfig, more: UserConfig, env: string)
    requires !NoneActive(config)
    ensures GetApiKey(config + more, env) == GetApiKey(config, env)
  {
    var i := FirstActive(config).value;
    assert (config + more)[i] == config[i];
    assert IsFirstActive(config + more, i);
  }

  /** Entries without an "active" field in front are skipped over. */
  lemma {:induction false} InactivePrefixSkipped(config: UserConfig, more: UserConfig, env: string)
    requires NoneActive(config)
    ensures GetApiKey(config + more, env) == GetApiKey(more, env)
  {
    match FirstActive(more)
    case None =>
      assert NoneActive(config + more) by {
        forall j | 0 <= j < |config + more|
          ensures !HasActive((config + more)[j].1)
        {
          if j >= |config| {
            assert (config + more)[j] == more[j - |config|];
          }
        }
      }
    case Some(i) =>
      assert (config + more)[|config| + i] == more[i];
      assert IsFirstActive(config + more, |config| + i);
  }

  /** Presence of the "active" field counts, not its value: an entry whose
      field is false is chosen like one whose field is true. */
  lemma ActiveValueIrrelevant(name: string, key: string, flag: bool, more: UserConfig, env: string)
    ensures GetApiKey([(name, Entry(Some(key), Some(flag)))] + more, env) == Success(key)
  {
    assert IsFirstActive([(name, Entry(Some(key), Some(flag)))] + more, 0);
  }
}
