/** The repository that persists agent configurations (agent-control/src/values.rs). */
module ConfigRepository {
  import opened ConfigTypes

  datatype RepositoryError = LoadError | StoreError | DeleteError | NoRemoteConfig

  datatype Config = LocalConfig(yaml: Yaml) | StoredRemote(config: RemoteConfig)

  datatype Loaded = Loaded(config: Option<Config>) | LoadFailed

  function Lookup<K, V>(m: map<K, V>, key: K): Option<V> {
    if key in m then Some(m[key]) else None
  }

  /** Remote configurations win over local ones; a failed remote read is not papered over. */
  function FallbackSpec(remoteEnabled: bool, remote: Option<RemoteConfig>, local: Option<Yaml>,
                        remoteReadOk: bool, localReadOk: bool): Loaded {
    if remoteEnabled && !remoteReadOk then LoadFailed
    else if remoteEnabled && remote.Some? then Loaded(Some(StoredRemote(remote.value)))
    else if !localReadOk then LoadFailed
    else if local.Some? then Loaded(Some(LocalConfig(local.value)))
    else Loaded(None)
  }

  /** The boolean parameters say whether each call into the underlying data store succeeds. */
  class ConfigRepo {
    var remote: map<AgentId, RemoteConfig>
    var local: map<AgentId, Yaml>
    const remoteEnabled: bool

    constructor (remoteEnabled: bool)
      ensures this.remoteEnabled == remoteEnabled
      ensures remote == map[] && local == map[]
    {
      this.remoteEnabled := remoteEnabled;
      remote, local := map[], map[];
    }

    method LoadLocal(id: AgentId, readOk: bool) returns (loaded: Loaded)
      ensures loaded == FallbackSpec(false, None, Lookup(local, id), true, readOk)
    {
      if !readOk {
        return LoadFailed;
      }
      if id in local {
        return Loaded(Some(LocalConfig(local[id])));
      }
      return Loaded(None);
    }

    method LoadRemote(id: AgentId, readOk: bool) returns (loaded: Loaded)
      ensures !remoteEnabled ==> loaded == Loaded(None)
      ensures remoteEnabled && !readOk ==> loaded == LoadFailed
      ensures remoteEnabled && readOk ==>
                loaded == if id in remote then Loaded(Some(StoredRemote(remote[id]))) else Loaded(None)
    {
      if !remoteEnabled {
        return Loaded(None);
      }
      if !readOk {
        return LoadFailed;
      }
      if id in remote {
        return Loaded(Some(StoredRemote(remote[id])));
      }
      return Loaded(None);
    }

    method LoadRemoteFallbackLocal(id: AgentId, remoteReadOk: bool, localReadOk: bool) returns (loaded: Loaded)
      ensures loaded == FallbackSpec(remoteEnabled, Lookup(remote, id), Lookup(local, id), remoteReadOk, localReadOk)
      ensures remoteEnabled && remoteReadOk && id in remote ==> loaded == Loaded(Some(StoredRemote(remote[id])))
      ensures (remoteEnabled ==> remoteReadOk && id !in remote) && localReadOk ==>
                loaded == Loaded(if id in local then Some(LocalConfig(local[id])) else None)
      ensures loaded == LoadFailed <==>
                (remoteEnabled && !remoteReadOk) || ((remoteEnabled ==> id !in remote) && !localReadOk)
    {
      loaded := LoadRemote(id, remoteReadOk);
      if loaded == Loaded(None) {
        loaded := LoadLocal(id, localReadOk);
      }
    }

    method GetRemoteConfig(id: AgentId, readOk: bool) returns (r: Attempt<Option<RemoteConfig>>)
      ensures r.Success? <==> readOk
      ensures r.Success? ==> r.value == Lookup(remote, id)
    {
      if !readOk {
        return Failure("getting remote config hash");
      }
      return Success(Lookup(remote, id));
    }

    method StoreRemote(id: AgentId, config: RemoteConfig, writeOk: bool) returns (error: Option<RepositoryError>)
      modifies this`remote
      ensures error == if writeOk then None else Some(StoreError)
      ensures remote == if writeOk then old(remote)[id := config] else old(remote)
    {
      if !writeOk {
        return Some(StoreError);
      }
      remote := remote[id := config];
      return None;
    }

    /** A read-modify-write: the YAML and the hash survive, only the state is replaced, and there
        must already be a stored configuration. */
    method UpdateState(id: AgentId, state: ConfigState, readOk: bool, writeOk: bool)
      returns (error: Option<RepositoryError>)
      modifies this`remote
      ensures error.None? <==> readOk && writeOk && id in old(remote)
      ensures error == Some(NoRemoteConfig) <==> readOk && id !in old(remote)
      ensures error.None? ==> remote == old(remote)[id := old(remote)[id].(state := state)]
      ensures error.Some? ==> remote == old(remote)
    {
      if !readOk {
        return Some(LoadError);
      }
      if id !in remote {
        return Some(NoRemoteConfig);
      }
      if !writeOk {
        return Some(StoreError);
      }
      remote := remote[id := remote[id].(state := state)];
      return None;
    }

    method DeleteRemote(id: AgentId, writeOk: bool) returns (error: Option<RepositoryError>)
      modifies this`remote
      ensures error == if writeOk then None else Some(DeleteError)
      ensures remote == if writeOk then old(remote) - {id} else old(remote)
    {
      if !writeOk {
        return Some(DeleteError);
      }
      remote := remote - {id};
      return None;
    }
  }
}
