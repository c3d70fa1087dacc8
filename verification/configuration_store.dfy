/** The probe's configuration store: it bootstraps the leader annotations
    and configuration config maps in Kubernetes, and reads the cluster
    snapshot back from the pods, config maps and cluster object.

    The Kubernetes API is a parameter: an `Api` record says what reading
    the cluster object returns and which writes the server refuses, and a
    `Fetch` record says what the list and get calls of a refresh return.
    The clock is the parameter `now` (Unix seconds). */
module ConfigurationStore {
  import opened Wrappers
  import opened GoErrors
  import opened GoStrings
  import opened Dcs

  /** The annotation keys and config-map name suffixes of the store. */
  datatype Keys = Keys(
    leaderName: string,
    acquireTime: string,
    renewTime: string,
    ttl: string,
    sysID: string,
    maxLagOnFailover: string,
    scheduledAt: string,
    candidate: string,
    configSuffix: string,
    extraSuffix: string,
    failoverSuffix: string)
  {
    /** Keys written together in one Go map literal are distinct constants
        (the compiler rejects duplicates). */
    predicate Valid() {
      && leaderName != acquireTime && leaderName != renewTime && leaderName != ttl
      && acquireTime != renewTime && acquireTime != ttl && renewTime != ttl
      && sysID != ttl && sysID != maxLagOnFailover && ttl != maxLagOnFailover
    }
  }

  /** The environment the probe runs in. */
  datatype Env = Env(
    clusterName: string,
    clusterCompName: string,
    namespace: string,
    primaryPodName: string,
    ttl: string,
    maxLagOnFailover: string)

  /** The metadata of a Kubernetes object: the cluster object or a config
      map. */
  datatype Meta = Meta(name: string, resourceVersion: string, annotations: map<string, string>)

  /** A pod; turning a pod into a member is done by code outside this
      model, given here as a parameter where it is needed. */
  datatype Pod = Pod(meta: Meta)

  /** An annotation value; a missing key reads as the empty string. */
  function Lookup(data: map<string, string>, key: string): string {
    if key in data then data[key] else ""
  }

  /* ---------------------------------------------------------------- */
  /* Leader record                                                    */
  /* ---------------------------------------------------------------- */

  datatype LeaderRecord = LeaderRecord(acquireTime: int, leader: string, renewTime: int, ttl: int)

  /** `strconv.Atoi`, with 0 for text that does not parse. */
  function AtoiOrZero(s: string): (n: int)
    ensures MinInt64 <= n <= MaxInt64
    ensures Atoi(s).None? ==> n == 0
    ensures Atoi(s).Some? ==> n == Atoi(s).value
  {
    Atoi(s).GetOr(0)
  }

  /** The leader record annotated on the cluster object. Each time is an
      integer in the 64-bit range, and a missing or malformed time reads as
      zero. */
  function NewLeaderRecord(keys: Keys, data: map<string, string>): (r: LeaderRecord)
    ensures MinInt64 <= r.acquireTime <= MaxInt64 && MinInt64 <= r.renewTime <= MaxInt64
    ensures MinInt64 <= r.ttl <= MaxInt64
    ensures keys.ttl !in data ==> r.ttl == 0
    ensures keys.acquireTime !in data ==> r.acquireTime == 0
    ensures keys.renewTime !in data ==> r.renewTime == 0
    ensures keys.leaderName !in data ==> r.leader == ""
    ensures keys.leaderName in data ==> r.leader == data[keys.leaderName]
    ensures keys.ttl in data && Atoi(data[keys.ttl]).Some? ==> r.ttl == Atoi(data[keys.ttl]).value
    ensures keys.ttl in data && Atoi(data[keys.ttl]).None? ==> r.ttl == 0
    ensures keys.acquireTime in data && Atoi(data[keys.acquireTime]).Some?
            ==> r.acquireTime == Atoi(data[keys.acquireTime]).value
    ensures keys.acquireTime in data && Atoi(data[keys.acquireTime]).None? ==> r.acquireTime == 0
    ensures keys.renewTime in data && Atoi(data[keys.renewTime]).Some?
            ==> r.renewTime == Atoi(data[keys.renewTime]).value
    ensures keys.renewTime in data && Atoi(data[keys.renewTime]).None? ==> r.renewTime == 0
  {
    LeaderRecord(
      AtoiOrZero(Lookup(data, keys.acquireTime)),
      Lookup(data, keys.leaderName),
      AtoiOrZero(Lookup(data, keys.renewTime)),
      AtoiOrZero(Lookup(data, keys.ttl)))
  }

  /* ---------------------------------------------------------------- */
  /* Init                                                             */
  /* ---------------------------------------------------------------- */

  datatype Write = Update(obj: Meta) | Create(namespace: string, obj: Meta)

  /** What the API server does on the calls of `Init`. */
  datatype Api = Api(clusterObj: Result<Meta, Error>, refuse: Write -> Option<Error>)

  /** The writes `Init` issued, in order, and the error it returned. */
  datatype InitOutcome = InitOutcome(writes: seq<Write>, err: Option<Error>)

  /** The leader annotations written at bootstrap: the primary pod's host
      name as leader, `now` as both acquire and renew time, and the TTL
      from the environment. */
  function LeaderAnnotations(keys: Keys, env: Env, now: int): map<string, string> {
    map[keys.leaderName := Split(env.primaryPodName, '.')[0],
        keys.acquireTime := FormatInt(now),
        keys.renewTime := FormatInt(now),
        keys.ttl := env.ttl]
  }

  function ConfigAnnotations(keys: Keys, env: Env, sysID: string): map<string, string> {
    map[keys.sysID := sysID, keys.ttl := env.ttl, keys.maxLagOnFailover := env.maxLagOnFailover]
  }

  /** Bootstraps the store: replaces the cluster object's annotations by
      the leader annotations, creates the configuration config map, and
      creates the extra config map when extra data is given. It stops at
      the first refused write. */
  function Init(keys: Keys, env: Env, api: Api, sysID: string, extra: Option<map<string, string>>, now: int): (o: InitOutcome)
    ensures api.clusterObj.Failure? ==> o == InitOutcome([], Some(api.clusterObj.error))
    ensures |o.writes| <= 3
    ensures forall i :: 0 <= i < |o.writes| - 1 ==> api.refuse(o.writes[i]).None?
    ensures o.writes != [] ==> o.err == api.refuse(o.writes[|o.writes| - 1])
    ensures api.clusterObj.Success? && o.err.None? ==> |o.writes| == (if extra.Some? then 3 else 2)
    ensures api.clusterObj.Success? ==>
              o.writes != [] && o.writes[0] == Update(api.clusterObj.value.(annotations := LeaderAnnotations(keys, env, now)))
    ensures o.writes != [] ==> && o.writes[0].Update?
                               && o.writes[0].obj.name == api.clusterObj.value.name
                               && o.writes[0].obj.annotations.Keys
                                  == {keys.leaderName, keys.acquireTime, keys.renewTime, keys.ttl}
    ensures |o.writes| >= 2 ==> o.writes[1] == Create(env.namespace, Meta(env.clusterCompName + keys.configSuffix, "", ConfigAnnotations(keys, env, sysID)))
    ensures |o.writes| == 3 ==> extra.Some? && o.writes[2] == Create(env.namespace, Meta(env.clusterCompName + keys.extraSuffix, "", extra.value))
  {
    match api.clusterObj
    case Failure(err) => InitOutcome([], Some(err))
    case Success(obj) =>
      var w1 := Update(obj.(annotations := LeaderAnnotations(keys, env, now)));
      if api.refuse(w1).Some? then InitOutcome([w1], api.refuse(w1))
      else
        var w2 := Create(env.namespace, Meta(env.clusterCompName + keys.configSuffix, "", ConfigAnnotations(keys, env, sysID)));
        if api.refuse(w2).Some? then InitOutcome([w1, w2], api.refuse(w2))
        else if extra.None? then InitOutcome([w1, w2], None)
        else
          var w3 := Create(env.namespace, Meta(env.clusterCompName + keys.extraSuffix, "", extra.value));
          InitOutcome([w1, w2, w3], api.refuse(w3))
  }

  /** Reading back the annotations `Init` wrote gives the primary pod's
      host name as leader and `now` as both times. */
  lemma InitLeaderRecordRoundTrip(keys: Keys, env: Env, api: Api, sysID: string, extra: Option<map<string, string>>, now: int)
    requires keys.Valid()
    requires MinInt64 <= now <= MaxInt64
    requires Init(keys, env, api, sysID, extra, now).writes != []
    ensures var w := Init(keys, env, api, sysID, extra, now).writes[0];
            NewLeaderRecord(keys, w.obj.annotations)
            == LeaderRecord(now, Before(env.primaryPodName, '.'), now, AtoiOrZero(env.ttl))
  {
    var w := Init(keys, env, api, sysID, extra, now).writes[0];
    assert w.obj.annotations == LeaderAnnotations(keys, env, now);
    LeaderAnnotationsRecord(keys, env, now);
  }

  lemma LeaderAnnotationsRecord(keys: Keys, env: Env, now: int)
    requires keys.Valid()
    requires MinInt64 <= now <= MaxInt64
    ensures NewLeaderRecord(keys, LeaderAnnotations(keys, env, now))
            == LeaderRecord(now, Before(env.primaryPodName, '.'), now, AtoiOrZero(env.ttl))
  {
    var a := LeaderAnnotations(keys, env, now);
    assert Lookup(a, keys.acquireTime) == FormatInt(now);
    assert Lookup(a, keys.renewTime) == FormatInt(now);
    assert Lookup(a, keys.ttl) == env.ttl;
    assert Lookup(a, keys.leaderName) == Split(env.primaryPodName, '.')[0];
    AtoiFormatInt(now);
    SplitHead(env.primaryPodName, '.');
  }

  /** The configuration config map `Init` creates carries the system
      identifier, TTL and lag limit it was given. */
  lemma InitConfigRoundTrip(keys: Keys, env: Env, api: Api, sysID: string, extra: Option<map<string, string>>, now: int)
    requires keys.Valid()
    requires |Init(keys, env, api, sysID, extra, now).writes| >= 2
    ensures var a := Init(keys, env, api, sysID, extra, now).writes[1].obj.annotations;
            Lookup(a, keys.sysID) == sysID && Lookup(a, keys.ttl) == env.ttl
            && Lookup(a, keys.maxLagOnFailover) == env.maxLagOnFailover
  {
  }

  /* ---------------------------------------------------------------- */
  /* Reading the snapshot                                             */
  /* ---------------------------------------------------------------- */

  /** What the store remembers: the last snapshot, and the leader record
      observed with the time it was observed. */
  datatype Store = Store(cluster: Cluster, leaderObservedRecord: Option<LeaderRecord>, leaderObservedTime: int)

  /** What the list and get calls of a refresh return; `Success(None)` is a
      nil list without an error. */
  datatype Fetch = Fetch(
    pods: Result<Option<seq<Pod>>, Error>,
    configMaps: Result<Option<seq<Meta>>, Error>,
    clusterObj: Result<Meta, Error>)

  /** The result of a refresh: the new store and the error returned, or a
      run-time panic. */
  datatype Refresh = Refresh(store: Store, err: Option<Error>) | Panicked

  /** The last config map called `name`. */
  function LastNamed(cms: seq<Meta>, name: string): (r: Option<Meta>)
    ensures r.None? <==> forall i :: 0 <= i < |cms| ==> cms[i].name != name
    ensures r.Some? ==> exists i :: 0 <= i < |cms| && cms[i] == r.value
                                   && forall j :: i < j < |cms| ==> cms[j].name != name
    ensures r.Some? ==> r.value.name == name
  {
    if cms == [] then None
    else if cms[|cms| - 1].name == name then Some(cms[|cms| - 1])
    else
      var front := cms[..|cms| - 1];
      var r := LastNamed(front, name);
      LastNamedExtend(front, cms[|cms| - 1], name, r);
      assert front + [cms[|cms| - 1]] == cms;
      r
  }

  /** A last match in a list stays the last match when a map with another
      name is appended, and no match stays no match. */
  lemma LastNamedExtend(front: seq<Meta>, m: Meta, name: string, r: Option<Meta>)
    requires m.name != name
    requires r.Some? ==> r.value.name == name
    requires r.None? <==> forall i :: 0 <= i < |front| ==> front[i].name != name
    requires r.Some? ==> exists i :: 0 <= i < |front| && front[i] == r.value
                                    && forall j :: i < j < |front| ==> front[j].name != name
    ensures r.None? <==> forall i :: 0 <= i < |front + [m]| ==> (front + [m])[i].name != name
    ensures r.Some? ==> exists i :: 0 <= i < |front + [m]| && (front + [m])[i] == r.value
                                   && forall j :: i < j < |front + [m]| ==> (front + [m])[j].name != name
  {
    var cms := front + [m];
    if r.Some? {
      var i :| 0 <= i < |front| && front[i] == r.value && forall j :: i < j < |front| ==> front[j].name != name;
      assert cms[i] == r.value;
      assert forall j :: i < j < |cms| ==> cms[j].name != name by {
        forall j | i < j < |cms| ensures cms[j].name != name {
          if j < |front| { assert cms[j] == front[j]; }
        }
      }
    } else {
      forall k | 0 <= k < |cms| ensures cms[k].name != name {
        if k < |front| { assert cms[k] == front[k]; }
      }
    }
  }

  /** The configuration and failover config maps of a component: for each,
      the last one in the list with its name. A map whose name matches both
      is the configuration map, since the first switch case wins. */
  function SelectConfigMaps(keys: Keys, compName: string, cms: seq<Meta>): (r: (Option<Meta>, Option<Meta>))
    ensures r.0 == LastNamed(cms, compName + keys.configSuffix)
    ensures compName + keys.failoverSuffix != compName + keys.configSuffix
            ==> r.1 == LastNamed(cms, compName + keys.failoverSuffix)
    ensures compName + keys.failoverSuffix == compName + keys.configSuffix ==> r.1.None?
  {
    SelectFrom(compName + keys.configSuffix, compName + keys.failoverSuffix, cms, None, None)
  }

  /** The selection loop, with the picks made so far in the list before
      `cms`. */
  function SelectFrom(configName: string, failoverName: string, cms: seq<Meta>, config: Option<Meta>, failover: Option<Meta>): (r: (Option<Meta>, Option<Meta>))
    ensures r.0 == (if LastNamed(cms, configName).Some? then LastNamed(cms, configName) else config)
    ensures failoverName != configName
            ==> r.1 == (if LastNamed(cms, failoverName).Some? then LastNamed(cms, failoverName) else failover)
    ensures failoverName == configName ==> r.1 == failover
    decreases |cms|
  {
    if cms == [] then (config, failover)
    else
      var cf := cms[0];
      var r := if cf.name == configName then SelectFrom(configName, failoverName, cms[1..], Some(cf), failover)
               else if cf.name == failoverName then SelectFrom(configName, failoverName, cms[1..], config, Some(cf))
               else SelectFrom(configName, failoverName, cms[1..], config, failover);
      LastNamedCons(cf, cms[1..], configName);
      LastNamedCons(cf, cms[1..], failoverName);
      assert cms == [cf] + cms[1..];
      r
  }

  /** The last match in a list headed by `m` is the last match in its tail,
      or `m` when the tail has none. */
  lemma {:induction false} LastNamedCons(m: Meta, rest: seq<Meta>, name: string)
    ensures LastNamed([m] + rest, name)
            == (if LastNamed(rest, name).Some? then LastNamed(rest, name)
                else if m.name == name then Some(m) else None)
    decreases |rest|
  {
    var s := [m] + rest;
    if rest != [] {
      assert s[|s| - 1] == rest[|rest| - 1];
      assert s[..|s| - 1] == [m] + rest[..|rest| - 1];
      LastNamedCons(m, rest[..|rest| - 1], name);
    } else {
      assert s == [m];
    }
  }

  /** The same selection as written, under the loop-variable semantics of
      Go before 1.22: both picks are the address of the one loop variable,
      which holds the last config map of the list once the loop ends. */
  function SelectConfigMapsAliased(keys: Keys, compName: string, cms: seq<Meta>): (r: (Option<Meta>, Option<Meta>))
    ensures r.0.Some? <==> SelectConfigMaps(keys, compName, cms).0.Some?
    ensures r.1.Some? <==> SelectConfigMaps(keys, compName, cms).1.Some?
    ensures r.0.Some? ==> r.0.value == cms[|cms| - 1]
    ensures r.1.Some? ==> r.1.value == cms[|cms| - 1]
  {
    var (config, failover) := SelectConfigMaps(keys, compName, cms);
    (if config.Some? then Some(cms[|cms| - 1]) else None,
     if failover.Some? then Some(cms[|cms| - 1]) else None)
  }

  /** With the configuration map listed before another config map, the
      aliased pick is the other map. */
  lemma AliasedSelectionPicksLastMap(keys: Keys, compName: string, config: Meta, other: Meta)
    requires config.name == compName + keys.configSuffix
    requires other.name != config.name
    ensures SelectConfigMaps(keys, compName, [config, other]).0 == Some(config)
    ensures SelectConfigMapsAliased(keys, compName, [config, other]).0 == Some(other)
  {
    var cms := [config, other];
    assert cms[..1] == [config];
    assert cms[..1][..0] == [];
  }

  function ConfigSysID(keys: Keys, config: Option<Meta>): string {
    if config.Some? then Lookup(config.value.annotations, keys.sysID) else ""
  }

  /** The leader the cluster object's annotations name, versioned by the
      object's resource version, with member index "-1". */
  function LeaderOf(keys: Keys, clusterObj: Meta): (l: Leader)
    ensures l.version == clusterObj.resourceVersion
    ensures l.Name() == Lookup(clusterObj.annotations, keys.leaderName)
    ensures l.member.index == "-1" && l.member.data == map[]
  {
    Leader(clusterObj.resourceVersion, Member("-1", Lookup(clusterObj.annotations, keys.leaderName), map[]))
  }

  /** Builds the snapshot as written. The member slice is made with length
      zero, so indexing it panics as soon as there is a pod; and the
      failover is only decoded when it is already set, which it never is. */
  function LoadClusterFromKubernetes(
    keys: Keys, store: Store, config: Option<Meta>, failoverConfig: Option<Meta>, pods: seq<Pod>,
    clusterObj: Option<Meta>, extra: map<string, string>, now: int, decodeConfig: Meta -> ClusterConfig): (r: Option<Store>)
    ensures r.None? <==> |pods| > 0
    ensures r.Some? ==> r.value.cluster.failover.None?
    ensures r.Some? ==> r.value.cluster.members == []
    ensures r.Some? ==> r.value.cluster.sysID == ConfigSysID(keys, config)
    ensures r.Some? ==> (r.value.cluster.config.Some? <==> config.Some?)
    ensures r.Some? && clusterObj.Some? ==>
              && r.value.cluster.leader == Some(LeaderOf(keys, clusterObj.value))
              && r.value.leaderObservedRecord == Some(NewLeaderRecord(keys, clusterObj.value.annotations))
              && r.value.leaderObservedTime == now
    ensures r.Some? && clusterObj.None? ==>
              && r.value.cluster.leader.None?
              && r.value.leaderObservedRecord == store.leaderObservedRecord
              && r.value.leaderObservedTime == store.leaderObservedTime
    ensures r.Some? ==> r.value.cluster.extra == extra
    ensures r.Some? && config.Some? ==> r.value.cluster.config == Some(decodeConfig(config.value))
  {
    var failover: Option<Failover> := None;
    var clusterConfig := if config.Some? then Some(decodeConfig(config.value)) else None;
    var (store1, leader) :=
      if clusterObj.Some? then
        (store.(leaderObservedRecord := Some(NewLeaderRecord(keys, clusterObj.value.annotations)),
                leaderObservedTime := now),
         Some(LeaderOf(keys, clusterObj.value)))
      else (store, None);
    if |pods| > 0 then None
    else
      var failover :=
        if failover.None? then failover
        else match failoverConfig
             case Some(fc) => DecodeFailover(keys, fc)
             case None => failover;
      Some(store1.(cluster := Cluster(ConfigSysID(keys, config), clusterConfig, leader, [], failover, extra)))
  }

  /** The pending failover a failover config map describes, when its
      scheduled time parses. */
  function DecodeFailover(keys: Keys, fc: Meta): (r: Option<Failover>)
    ensures r.Some? <==> Atoi(Lookup(fc.annotations, keys.scheduledAt)).Some?
    ensures r.Some? ==> && r.value.version == fc.resourceVersion
                        && r.value.leader == Lookup(fc.annotations, keys.leaderName)
                        && r.value.candidate == Lookup(fc.annotations, keys.candidate)
                        && MinInt64 <= r.value.scheduledAt <= MaxInt64
  {
    var a := fc.annotations;
    match Atoi(Lookup(a, keys.scheduledAt))
    case None => None
    case Some(at) => Some(Failover(fc.resourceVersion, Lookup(a, keys.leaderName), Lookup(a, keys.candidate), at))
  }

  /** The annotations of a failover config map describing `f`. */
  function FailoverAnnotations(keys: Keys, f: Failover): map<string, string> {
    map[keys.leaderName := f.leader, keys.candidate := f.candidate, keys.scheduledAt := FormatInt(f.scheduledAt)]
  }

  /** Decoding the annotations of a failover gives it back. */
  lemma DecodeFailoverRoundTrip(keys: Keys, f: Failover)
    requires keys.leaderName != keys.candidate && keys.leaderName != keys.scheduledAt && keys.candidate != keys.scheduledAt
    requires MinInt64 <= f.scheduledAt <= MaxInt64
    ensures DecodeFailover(keys, Meta("", f.version, FailoverAnnotations(keys, f))) == Some(f)
  {
    AtoiFormatInt(f.scheduledAt);
  }

  /** The snapshot as evidently intended: one member per pod, in order,
      and the failover decoded from its config map. */
  function LoadClusterIntended(
    keys: Keys, store: Store, config: Option<Meta>, failoverConfig: Option<Meta>, pods: seq<Pod>,
    clusterObj: Option<Meta>, extra: map<string, string>, now: int, decodeConfig: Meta -> ClusterConfig,
    memberOf: Pod -> Member): (r: Store)
    ensures |r.cluster.members| == |pods|
    ensures forall i :: 0 <= i < |pods| ==> r.cluster.members[i] == memberOf(pods[i])
    ensures r.cluster.failover == (if failoverConfig.Some? then DecodeFailover(keys, failoverConfig.value) else None)
    ensures r.cluster.sysID == ConfigSysID(keys, config)
    ensures clusterObj.Some? ==> r.cluster.leader == Some(LeaderOf(keys, clusterObj.value))
    ensures clusterObj.Some? ==> r.leaderObservedRecord == Some(NewLeaderRecord(keys, clusterObj.value.annotations))
  {
    var clusterConfig := if config.Some? then Some(decodeConfig(config.value)) else None;
    var (store1, leader) :=
      if clusterObj.Some? then
        (store.(leaderObservedRecord := Some(NewLeaderRecord(keys, clusterObj.value.annotations)),
                leaderObservedTime := now),
         Some(LeaderOf(keys, clusterObj.value)))
      else (store, None);
    var members := seq(|pods|, i requires 0 <= i < |pods| => memberOf(pods[i]));
    var failover := if failoverConfig.Some? then DecodeFailover(keys, failoverConfig.value) else None;
    store1.(cluster := Cluster(ConfigSysID(keys, config), clusterConfig, leader, members, failover, extra))
  }

  /** A failover config map with a parseable scheduled time is lost by the
      snapshot as written and kept by the intended one. */
  lemma FailoverIsDropped(keys: Keys, store: Store, fc: Meta, clusterObj: Option<Meta>, now: int, decodeConfig: Meta -> ClusterConfig, memberOf: Pod -> Member)
    requires Lookup(fc.annotations, keys.scheduledAt) == "100"
    ensures LoadClusterFromKubernetes(keys, store, None, Some(fc), [], clusterObj, map[], now, decodeConfig).value.cluster.failover.None?
    ensures LoadClusterIntended(keys, store, None, Some(fc), [], clusterObj, map[], now, decodeConfig, memberOf).cluster.failover
            == Some(Failover(fc.resourceVersion, Lookup(fc.annotations, keys.leaderName), Lookup(fc.annotations, keys.candidate), 100))
  {
    AtoiFormatInt(100);
    assert FormatInt(100) == "100" by {
      assert NatDigits(100) == NatDigits(10) + [DigitChar(0)];
      assert NatDigits(10) == NatDigits(1) + [DigitChar(0)];
    }
  }

  /** Refreshes the snapshot as written: lists the pods and config maps,
      reads the cluster object, and loads the snapshot. A failed call
      returns its error, and a nil list returns no error, each leaving the
      store as it was. The pod slice is made with length zero, so any pod
      makes the refresh panic. */
  function GetClusterFromKubernetes(keys: Keys, env: Env, store: Store, fetch: Fetch, now: int, decodeConfig: Meta -> ClusterConfig): (r: Refresh)
    ensures fetch.pods.Failure? ==> r == Refresh(store, Some(fetch.pods.error))
    ensures fetch.pods == Success(None) ==> r == Refresh(store, None)
    ensures r.Panicked? <==> && fetch.pods.Success? && fetch.pods.value.Some? && |fetch.pods.value.value| > 0
                             && fetch.configMaps.Success? && fetch.configMaps.value.Some?
                             && fetch.clusterObj.Success?
    ensures fetch.pods.Success? && fetch.pods.value.Some? && fetch.configMaps.Failure?
            ==> r == Refresh(store, Some(fetch.configMaps.error))
    ensures fetch.pods.Success? && fetch.pods.value.Some? && fetch.configMaps == Success(None)
            ==> r == Refresh(store, None)
    ensures fetch.pods.Success? && fetch.pods.value.Some? && fetch.configMaps.Success? && fetch.configMaps.value.Some?
            && fetch.clusterObj.Failure?
            ==> r == Refresh(store, Some(fetch.clusterObj.error))
    ensures fetch.pods == Success(Some([])) && fetch.configMaps.Success? && fetch.configMaps.value.Some?
            && fetch.clusterObj.Success? ==>
              && r.Refresh? && r.err.None?
              && r.store.cluster.members == []
              && r.store.cluster.failover.None?
              && r.store.cluster.leader == Some(LeaderOf(keys, fetch.clusterObj.value))
              && r.store.cluster.sysID
                 == ConfigSysID(keys, SelectConfigMaps(keys, env.clusterCompName, fetch.configMaps.value.value).0)
              && r.store.leaderObservedRecord == Some(NewLeaderRecord(keys, fetch.clusterObj.value.annotations))
              && r.store.leaderObservedTime == now
              && r.store.cluster.extra == map[]
              && r.store.cluster.config
                 == (var c := SelectConfigMaps(keys, env.clusterCompName, fetch.configMaps.value.value).0;
                     if c.Some? then Some(decodeConfig(c.value)) else None)
  {
    match fetch.pods
    case Failure(e) => Refresh(store, Some(e))
    case Success(None) => Refresh(store, None)
    case Success(Some(podItems)) =>
      match fetch.configMaps
      case Failure(e) => Refresh(store, Some(e))
      case Success(None) => Refresh(store, None)
      case Success(Some(cms)) =>
        match fetch.clusterObj
        case Failure(e) => Refresh(store, Some(e))
        case Success(obj) =>
          if |podItems| > 0 then Panicked
          else
            var (config, failoverConfig) := SelectConfigMaps(keys, env.clusterCompName, cms);
            var loaded := LoadClusterFromKubernetes(keys, store, config, failoverConfig, [], Some(obj), map[], now, decodeConfig);
            Refresh(loaded.value, None)
  }

  /** The refresh as evidently intended: one entry per pod, then the
      intended load. */
  function GetClusterIntended(keys: Keys, env: Env, store: Store, fetch: Fetch, now: int, decodeConfig: Meta -> ClusterConfig, memberOf: Pod -> Member): (r: Refresh)
    ensures r.Refresh?
    ensures fetch.pods.Failure? ==> r == Refresh(store, Some(fetch.pods.error))
    ensures fetch.pods == Success(None) ==> r == Refresh(store, None)
    ensures fetch.pods.Success? && fetch.pods.value.Some? && fetch.configMaps.Failure?
            ==> r == Refresh(store, Some(fetch.configMaps.error))
    ensures fetch.pods.Success? && fetch.pods.value.Some? && fetch.configMaps.Success? && fetch.configMaps.value.Some?
            && fetch.clusterObj.Failure?
            ==> r == Refresh(store, Some(fetch.clusterObj.error))
    ensures r.err.None? && fetch.pods.Success? && fetch.pods.value.Some? && fetch.configMaps.Success?
            && fetch.configMaps.value.Some? && fetch.clusterObj.Success? ==>
              && |r.store.cluster.members| == |fetch.pods.value.value|
              && (forall i :: 0 <= i < |fetch.pods.value.value| ==> r.store.cluster.members[i] == memberOf(fetch.pods.value.value[i]))
              && r.store.cluster.failover
                 == (var fc := SelectConfigMaps(keys, env.clusterCompName, fetch.configMaps.value.value).1;
                     if fc.Some? then DecodeFailover(keys, fc.value) else None)
  {
    match fetch.pods
    case Failure(e) => Refresh(store, Some(e))
    case Success(None) => Refresh(store, None)
    case Success(Some(podItems)) =>
      match fetch.configMaps
      case Failure(e) => Refresh(store, Some(e))
      case Success(None) => Refresh(store, None)
      case Success(Some(cms)) =>
        match fetch.clusterObj
        case Failure(e) => Refresh(store, Some(e))
        case Success(obj) =>
          var (config, failoverConfig) := SelectConfigMaps(keys, env.clusterCompName, cms);
          Refresh(LoadClusterIntended(keys, store, config, failoverConfig, podItems, Some(obj), map[], now, decodeConfig, memberOf), None)
  }

  /** One pod is enough: the loader as written panics on it, and the
      intended loader lists it as the only member. */
  lemma OnePodPanicsLoader(keys: Keys, store: Store, pod: Pod, clusterObj: Option<Meta>, now: int,
                           decodeConfig: Meta -> ClusterConfig, memberOf: Pod -> Member)
    ensures LoadClusterFromKubernetes(keys, store, None, None, [pod], clusterObj, map[], now, decodeConfig).None?
    ensures LoadClusterIntended(keys, store, None, None, [pod], clusterObj, map[], now, decodeConfig, memberOf).cluster.members
            == [memberOf(pod)]
  {
  }

  /** One pod is enough: the refresh as written panics on it, and the
      intended refresh lists it as the only member. */
  lemma OnePodPanicsRefresh(keys: Keys, env: Env, store: Store, pod: Pod, cms: seq<Meta>, obj: Meta, now: int,
                            decodeConfig: Meta -> ClusterConfig, memberOf: Pod -> Member)
    ensures var fetch := Fetch(Success(Some([pod])), Success(Some(cms)), Success(obj));
            && GetClusterFromKubernetes(keys, env, store, fetch, now, decodeConfig).Panicked?
            && GetClusterIntended(keys, env, store, fetch, now, decodeConfig, memberOf).store.cluster.members
               == [memberOf(pod)]
  {
  }
}
