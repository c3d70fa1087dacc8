/** The cluster snapshot the high-availability layer works on: the members
    it knows, the leader record, an optional pending failover and the
    cluster configuration. The same shape serves the snapshot read by the
    configuration store from Kubernetes and the one handed to the database
    managers. */
module Dcs {
  import opened Wrappers

  /** One member of the cluster: a pod, named after it. */
  datatype Member = Member(index: string, name: string, data: map<string, string>)

  /** The leader record, versioned by the resource version it was read at. */
  datatype Leader = Leader(version: string, member: Member)
  {
    function Name(): string {
      member.name
    }
  }

  /** A scheduled switchover from `leader` to `candidate`. */
  datatype Failover = Failover(version: string, leader: string, candidate: string, scheduledAt: int)

  /** The decoded cluster configuration. Its decoding from the
      configuration config map is done by code that is not part of this
      model, so it is kept as the annotations it was decoded from. */
  datatype ClusterConfig = ClusterConfig(data: map<string, string>)

  datatype Cluster = Cluster(
    sysID: string,
    config: Option<ClusterConfig>,
    leader: Option<Leader>,
    members: seq<Member>,
    failover: Option<Failover>,
    extra: map<string, string>)

  /** The position of the first member called `name`; `|members|` when
      there is none. */
  function IndexOfName(members: seq<Member>, name: string): (k: nat)
    ensures k <= |members|
    ensures forall j :: 0 <= j < k ==> members[j].name != name
    ensures k < |members| ==> members[k].name == name
  {
    if members == [] then 0
    else if members[0].name == name then 0
    else 1 + IndexOfName(members[1..], name)
  }

  /** The first member called `name`, or `None` when there is none. */
  function MemberWithName(members: seq<Member>, name: string): (r: Option<Member>)
    ensures r.None? <==> forall i :: 0 <= i < |members| ==> members[i].name != name
    ensures r.Some? ==> exists i :: 0 <= i < |members| && members[i] == r.value
                                   && forall j :: 0 <= j < i ==> members[j].name != name
    ensures r.Some? ==> r.value.name == name
  {
    var k := IndexOfName(members, name);
    if k < |members| then Some(members[k]) else None
  }

  /** The member the snapshot lists under `name`. */
  function GetMemberWithName(cluster: Cluster, name: string): (r: Option<Member>)
    ensures r.Some? ==> r.value in cluster.members && r.value.name == name
    ensures r.None? <==> forall m :: m in cluster.members ==> m.name != name
  {
    MemberWithName(cluster.members, name)
  }
}
