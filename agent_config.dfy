/**
  The configuration normalisation in `TensorforceAgent.__init__`
  (tensorforce/agents/tensorforce.py): an integer `update` is expanded into a
  timesteps update, `config['buffer_observe']` receives its default or is checked
  against the episode length or batch size, and a `reward_estimation` horizon of
  "episode" is replaced by the maximum episode length; otherwise a configuration
  error is raised.
*/
module AgentConfig {
  import opened Wrappers

  /** A configuration value as far as the normalisation looks at it. */
  datatype Setting = Int(i: int) | Float(x: real) | Str(s: string) | NoneValue

  type Dict = map<string, Setting>

  /** `update` is either an integer batch size or a dictionary. */
  datatype UpdateArg = UpdateInt(batchSize: int) | UpdateDict(spec: Dict)

  /**
    `TensorforceError.required` and `TensorforceError.value` with their argument,
    hint and condition; a missing dictionary key (KeyError); and an ordering
    comparison between values Python cannot order (TypeError).
  */
  datatype ConfigError =
    | Required(argument: string, condition: string)
    | Value(argument: string, hint: string, condition: string)
    | KeyMissing(key: string)
    | Incomparable(argument: string)

  datatype Normalised = Normalised(update: Dict, config: Dict, rewardEstimation: Dict)

  const BufferObserve := "buffer_observe"
  const Unit := "unit"
  const BatchSize := "batch_size"
  const Horizon := "horizon"

  /** A numeric setting's value; integers and floats compare with each other. */
  function Number(a: Setting): Option<real> {
    match a
    case Int(i) => Some(i as real)
    case Float(x) => Some(x)
    case _ => None
  }

  /** `a < b`, or None where Python raises a TypeError. */
  function Less(a: Setting, b: Setting): (r: Option<bool>)
    ensures r.Some? <==> Number(a).Some? && Number(b).Some?
    ensures r == Some(true) <==> Number(a).Some? && Number(b).Some? && Number(a).value < Number(b).value
  {
    if Number(a).Some? && Number(b).Some? then Some(Number(a).value < Number(b).value) else None
  }

  /** The update as a dictionary: an integer n is `dict(unit='timesteps', batch_size=n)`. */
  function UpdateOf(update: UpdateArg): (d: Dict)
    ensures update.UpdateInt? ==>
              d.Keys == {Unit, BatchSize} && d[Unit] == Str("timesteps") && d[BatchSize] == Int(update.batchSize)
    ensures update.UpdateDict? ==> d == update.spec
  {
    match update
    case UpdateInt(n) => map[Unit := Str("timesteps"), BatchSize := Int(n)]
    case UpdateDict(d) => d
  }

  /** The config copy: an absent config is the empty dictionary. */
  function ConfigOf(config: Option<Dict>): Dict {
    if config.Some? then config.value else map[]
  }

  /** `max_episode_timesteps` as a setting, None when absent. */
  function EpisodeSetting(maxEpisodeTimesteps: Option<int>): Setting {
    if maxEpisodeTimesteps.Some? then Int(maxEpisodeTimesteps.value) else NoneValue
  }

  /** The update unit is read only when it is needed: without parallel interactions. */
  ghost predicate BufferError(u: Dict, c: Dict, parallelInteractions: int, maxEpisodeTimesteps: Option<int>) {
    var m := EpisodeSetting(maxEpisodeTimesteps);
    if parallelInteractions > 1 then
      if BufferObserve !in c then maxEpisodeTimesteps.None?
      else Less(c[BufferObserve], m) != Some(false)
    else
      || Unit !in u
      || (u[Unit] == Str("timesteps") && (BatchSize !in u
           || (BufferObserve in c && Less(u[BatchSize], c[BufferObserve]) != Some(false))))
  }

  /**
    The normalisation, updating its copies of the dictionaries step by step.
    Errors: with parallel interactions a missing episode length or a
    `buffer_observe` below it; otherwise a missing unit, and for timesteps a
    missing batch size or a `buffer_observe` above it; then a missing horizon, or
    an "episode" horizon without an episode length. Results: `buffer_observe` is
    only ever added, with the default of the first applicable rule, and an
    "episode" horizon becomes the episode length; nothing else changes.
  */
  method NormaliseConfig(update: UpdateArg, config: Option<Dict>, rewardEstimation: Dict,
                         parallelInteractions: int, maxEpisodeTimesteps: Option<int>)
    returns (r: Result<Normalised, ConfigError>)
    // errors of the buffer_observe rules, in the order they are checked
    ensures parallelInteractions > 1 && BufferObserve !in ConfigOf(config) && maxEpisodeTimesteps.None? ==>
              r == Err(Required("max_episode_timesteps", "parallel_interactions > 1"))
    ensures parallelInteractions > 1 && BufferObserve in ConfigOf(config) ==>
              var less := Less(ConfigOf(config)[BufferObserve], EpisodeSetting(maxEpisodeTimesteps));
              && (less.None? ==> r == Err(Incomparable("config[buffer_observe]")))
              && (less == Some(true) ==>
                    r == Err(Value("config[buffer_observe]", "< max_episode_timesteps", "parallel_interactions > 1")))
    ensures parallelInteractions <= 1 && Unit !in UpdateOf(update) ==> r == Err(KeyMissing(Unit))
    ensures parallelInteractions <= 1 && Unit in UpdateOf(update) && UpdateOf(update)[Unit] == Str("timesteps") ==>
              var u := UpdateOf(update);
              var c := ConfigOf(config);
              && (BatchSize !in u ==> r == Err(KeyMissing(BatchSize)))
              && (BatchSize in u && BufferObserve in c && Less(u[BatchSize], c[BufferObserve]).None? ==>
                    r == Err(Incomparable("config[buffer_observe]")))
              && (BatchSize in u && BufferObserve in c && Less(u[BatchSize], c[BufferObserve]) == Some(true) ==>
                    r == Err(Value("config[buffer_observe]", "> update[batch_size]", "update[unit] = \"timesteps\"")))
    // errors of the horizon rule, reached only when the buffer_observe rules pass
    ensures !BufferError(UpdateOf(update), ConfigOf(config), parallelInteractions, maxEpisodeTimesteps) ==>
              && (Horizon !in rewardEstimation ==> r == Err(KeyMissing(Horizon)))
              && (Horizon in rewardEstimation && rewardEstimation[Horizon] == Str("episode")
                  && maxEpisodeTimesteps.None? ==>
                    r == Err(Required("max_episode_timesteps", "reward_estimation[horizon] = \"episode\"")))
              && ((Horizon in rewardEstimation
                   && !(rewardEstimation[Horizon] == Str("episode") && maxEpisodeTimesteps.None?)) ==> r.Ok?)
    ensures BufferError(UpdateOf(update), ConfigOf(config), parallelInteractions, maxEpisodeTimesteps) ==> r.Err?
    // the normalised values
    ensures r.Ok? ==> r.value.update == UpdateOf(update)
    ensures r.Ok? ==>
              var c := ConfigOf(config);
              && r.value.config.Keys <= c.Keys + {BufferObserve}
              && (forall k :: k in c ==> k in r.value.config && r.value.config[k] == c[k])
    ensures r.Ok? && (parallelInteractions > 1 || UpdateOf(update)[Unit] in {Str("timesteps"), Str("episodes")}) ==>
              BufferObserve in r.value.config
    ensures r.Ok? && BufferObserve !in ConfigOf(config) && parallelInteractions > 1 ==>
              r.value.config[BufferObserve] == Int(maxEpisodeTimesteps.value)
    ensures r.Ok? && BufferObserve !in ConfigOf(config) && parallelInteractions <= 1
            && UpdateOf(update)[Unit] == Str("timesteps") ==>
              var batchSize := UpdateOf(update)[BatchSize];
              r.value.config[BufferObserve] == (if batchSize.Int? then batchSize else Int(1))
    ensures r.Ok? && BufferObserve !in ConfigOf(config) && parallelInteractions <= 1
            && UpdateOf(update)[Unit] == Str("episodes") ==>
              r.value.config[BufferObserve]
                == (if maxEpisodeTimesteps.None? then Int(1000) else Int(maxEpisodeTimesteps.value))
    ensures r.Ok? && parallelInteractions <= 1 && UpdateOf(update)[Unit] != Str("timesteps")
            && UpdateOf(update)[Unit] != Str("episodes") ==>
              r.value.config == ConfigOf(config)
    ensures r.Ok? ==>
              && r.value.rewardEstimation.Keys == rewardEstimation.Keys
              && (forall k :: k in rewardEstimation && k != Horizon ==>
                    r.value.rewardEstimation[k] == rewardEstimation[k])
              && (rewardEstimation[Horizon] == Str("episode") ==>
                    r.value.rewardEstimation[Horizon] == Int(maxEpisodeTimesteps.value))
              && (rewardEstimation[Horizon] != Str("episode") ==>
                    r.value.rewardEstimation[Horizon] == rewardEstimation[Horizon])
  {
    var u := UpdateOf(update);
    var c := ConfigOf(config);
    var m := EpisodeSetting(maxEpisodeTimesteps);
    if parallelInteractions > 1 {
      if BufferObserve !in c {
        if maxEpisodeTimesteps.None? {
          return Err(Required("max_episode_timesteps", "parallel_interactions > 1"));
        }
        c := c[BufferObserve := m];
      } else {
        var less := Less(c[BufferObserve], m);
        if less.None? {
          return Err(Incomparable("config[buffer_observe]"));
        } else if less.value {
          return Err(Value("config[buffer_observe]", "< max_episode_timesteps", "parallel_interactions > 1"));
        }
      }
    } else {
      if Unit !in u {
        return Err(KeyMissing(Unit));
      }
      if u[Unit] == Str("timesteps") {
        if BatchSize !in u {
          return Err(KeyMissing(BatchSize));
        }
        if BufferObserve !in c {
          if u[BatchSize].Int? {
            c := c[BufferObserve := u[BatchSize]];
          } else {
            c := c[BufferObserve := Int(1)];
          }
        } else {
          var greater := Less(u[BatchSize], c[BufferObserve]);
          if greater.None? {
            return Err(Incomparable("config[buffer_observe]"));
          } else if greater.value {
            return Err(Value("config[buffer_observe]", "> update[batch_size]", "update[unit] = \"timesteps\""));
          }
        }
      } else if u[Unit] == Str("episodes") {
        if BufferObserve !in c {
          if maxEpisodeTimesteps.None? {
            c := c[BufferObserve := Int(1000)];
          } else {
            c := c[BufferObserve := m];
          }
        }
      }
    }
    var e := rewardEstimation;
    if Horizon !in e {
      return Err(KeyMissing(Horizon));
    }
    if e[Horizon] == Str("episode") {
      if maxEpisodeTimesteps.None? {
        return Err(Required("max_episode_timesteps", "reward_estimation[horizon] = \"episode\""));
      }
      e := e[Horizon := m];
    }
    return Ok(Normalised(u, c, e));
  }

  /**
    Normalising an already normalised configuration changes nothing, provided the
    batch size of a timesteps update is an integer: every default added the first
    time passes its own check the second time, and the horizon is no longer
    "episode".
  */
  method NormaliseTwice(update: UpdateArg, config: Option<Dict>, rewardEstimation: Dict,
                        parallelInteractions: int, maxEpisodeTimesteps: Option<int>)
    returns (first: Result<Normalised, ConfigError>, second: Result<Normalised, ConfigError>)
    requires var u := UpdateOf(update); Unit in u && u[Unit] == Str("timesteps") && BatchSize in u ==> u[BatchSize].Int?
    ensures first.Ok? ==> second == first
  {
    first := NormaliseConfig(update, config, rewardEstimation, parallelInteractions, maxEpisodeTimesteps);
    if first.Err? {
      return first, first;
    }
    var n := first.value;
    var m := EpisodeSetting(maxEpisodeTimesteps);
    assert maxEpisodeTimesteps.Some? ==> Less(m, m) == Some(false);
    assert !BufferError(n.update, n.config, parallelInteractions, maxEpisodeTimesteps);
    second := NormaliseConfig(UpdateDict(n.update), Some(n.config), n.rewardEstimation,
                              parallelInteractions, maxEpisodeTimesteps);
    assert second.value.config.Keys == n.config.Keys;
    assert second.value.config == n.config;
    assert second.value.rewardEstimation == n.rewardEstimation;
  }
}
