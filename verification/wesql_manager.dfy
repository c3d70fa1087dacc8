/** The WeSQL database manager of the probe agent: how it reads the
    consensus membership string, recognises the leader, judges cluster
    health, and issues leadership and membership commands.

    Everything the manager learns from the database or from the shared
    MySQL manager arrives through an `Engine` record of observations, so
    each operation is a function of the snapshot and those observations. */
module WesqlManager {
  import opened Wrappers
  import opened GoErrors
  import opened GoStrings
  import opened Dcs

  const RoleColumn: string := "ROLE"
  const CurrentLeaderColumn: string := "CURRENT_LEADER"
  const LeaderRole: string := "Leader"

  const ErrLeaderConn: string := "Get leader conn failed"
  const ErrOwnAddr: string := "get current member's addr failed"

  /** A result row keyed by column name. */
  type Row = map<string, string>

  /** A cell as text; a column the row lacks reads as the empty string. */
  function GetString(row: Row, column: string): string {
    if column in row then row[column] else ""
  }

  /** What the manager observes during one call.
      - `replicaRole`: the local replica's role, or the error reading it;
      - `leaderMember`: the snapshot member the shared manager names leader;
      - `leaderConn`: `None` when a connection to the leader was obtained;
      - `leaderClusterInfo`, `localClusterInfo`: the `cluster_info` column of
        `mysql.consensus_info` read over the leader or the local connection,
        `None` when the query fails;
      - `globalStatus`: the rows of `wesql_cluster_global` read over the
        leader connection, `None` when the query fails;
      - `localInfo`: the local consensus row, absent, or the error;
      - `exec`: the error, if any, of executing a statement on the leader;
      - `healthy`: the shared manager's health verdict on a member. */
  datatype Engine = Engine(
    currentMemberName: string,
    replicaRole: Result<string, Error>,
    leaderMember: Option<Member>,
    leaderConn: Option<Error>,
    leaderClusterInfo: Option<string>,
    localClusterInfo: Option<string>,
    globalStatus: Option<seq<Row>>,
    localInfo: Result<Option<Row>, Error>,
    exec: string -> Option<Error>,
    healthy: Member -> bool)

  /** The error an operation returns, and the statements it sent to the
      leader, in order. */
  datatype Outcome = Outcome(err: Option<Error>, issued: seq<string>)

  /* ---------------------------------------------------------------- */
  /* Roles                                                            */
  /* ---------------------------------------------------------------- */

  lemma LeaderRoleFolded()
    ensures ToLower(LeaderRole) == "leader"
  {
    assert ToLower(LeaderRole)[0] == LowerChar('L');
  }

  /** The local replica is leader when its role equals "Leader" up to case. */
  function IsLeader(e: Engine): (r: Result<bool, Error>)
    ensures e.replicaRole.Failure? ==> r == Failure(e.replicaRole.error)
    ensures r == Success(true) <==> e.replicaRole.Success? && ToLower(e.replicaRole.value) == "leader"
    ensures e.replicaRole.Success? ==> r.Success?
  {
    LeaderRoleFolded();
    match e.replicaRole
    case Failure(err) => Failure(err)
    case Success(role) => Success(EqualFold(role, LeaderRole))
  }

  /** Roles that agree up to case give the same verdict. */
  lemma IsLeaderIgnoresCase(e: Engine, role1: string, role2: string)
    requires ToLower(role1) == ToLower(role2)
    ensures IsLeader(e.(replicaRole := Success(role1))) == IsLeader(e.(replicaRole := Success(role2)))
  {
  }

  /** Whether promotion took effect: the leader test with its error
      discarded. */
  function IsPromoted(e: Engine): (r: bool)
    ensures r <==> e.replicaRole.Success? && ToLower(e.replicaRole.value) == "leader"
  {
    IsLeader(e) == Success(true)
  }

  /** A member is the leader when the snapshot has a leader member of the
      same name. */
  function IsLeaderMember(e: Engine, member: Option<Member>): (r: Result<bool, Error>)
    ensures r.Success?
    ensures r.value <==> member.Some? && e.leaderMember.Some? && e.leaderMember.value.name == member.value.name
  {
    if member.None? then Success(false)
    else if e.leaderMember.None? then Success(false)
    else if e.leaderMember.value.name != member.value.name then Success(false)
    else Success(true)
  }

  /* ---------------------------------------------------------------- */
  /* The consensus membership string                                  */
  /* ---------------------------------------------------------------- */

  /** The `cluster_info` string, read over the leader connection when a
      snapshot is given and over the local one otherwise; any failure reads
      as the empty string. */
  function GetClusterInfo(e: Engine, cluster: Option<Cluster>): (r: string)
    ensures r != "" && cluster.Some? ==> e.leaderConn.None? && e.leaderClusterInfo == Some(r)
    ensures r != "" && cluster.None? ==> e.localClusterInfo == Some(r)
    ensures cluster.Some? && e.leaderConn.Some? ==> r == ""
    ensures cluster.Some? && e.leaderConn.None? ==> r == e.leaderClusterInfo.GetOr("")
    ensures cluster.None? ==> r == e.localClusterInfo.GetOr("")
  {
    if cluster.Some? then
      if e.leaderConn.Some? then "" else e.leaderClusterInfo.GetOr("")
    else e.localClusterInfo.GetOr("")
  }

  /** The address of every `;`-separated entry that contains a colon, with
      its `#weight` suffix cut off. */
  function EntryAddrs(entries: seq<string>): (addrs: seq<string>)
    ensures |addrs| <= |entries|
    ensures forall i :: 0 <= i < |addrs| ==> '#' !in addrs[i]
    ensures forall a :: a in addrs ==> exists x :: x in entries && Contains(x, ":") && a == Before(x, '#')
  {
    if entries == [] then []
    else
      var rest := EntryAddrs(entries[1..]);
      assert forall a :: a in rest ==> exists x :: x in entries && Contains(x, ":") && a == Before(x, '#') by {
        forall a | a in rest
          ensures exists x :: x in entries && Contains(x, ":") && a == Before(x, '#')
        {
          var x :| x in entries[1..] && Contains(x, ":") && a == Before(x, '#');
          assert x in entries;
        }
      }
      if Contains(entries[0], ":") then [Before(entries[0], '#')] + rest else rest
  }

  /** The member addresses of a membership string
      `addr#weight;addr#weight;...@epoch`: the text before the first `@`,
      split at `;`, keeping entries that hold a colon. */
  function MemberAddrs(info: string): (addrs: seq<string>)
    ensures info == "" ==> addrs == []
    ensures forall i :: 0 <= i < |addrs| ==> '#' !in addrs[i]
  {
    var entries := Split(Split(info, '@')[0], ';');
    assert info == "" ==> entries == [""];
    assert !Contains("", ":");
    EntryAddrs(entries)
  }

  function GetMemberAddrs(e: Engine, cluster: Option<Cluster>): seq<string> {
    MemberAddrs(GetClusterInfo(e, cluster))
  }

  /** The entries `addr#weight` of a membership string. */
  function Entries(addrs: seq<string>, weights: seq<string>): (r: seq<string>)
    requires |addrs| == |weights|
    ensures |r| == |addrs|
    ensures forall i :: 0 <= i < |r| ==> r[i] == addrs[i] + "#" + weights[i]
  {
    if addrs == [] then [] else [addrs[0] + "#" + weights[0]] + Entries(addrs[1..], weights[1..])
  }

  /** The membership string the engine reports for these addresses,
      weights and epoch. */
  function FormatClusterInfo(addrs: seq<string>, weights: seq<string>, epoch: string): string
    requires |addrs| == |weights|
  {
    Join(Entries(addrs, weights), ';') + "@" + epoch
  }

  /** Addresses are well formed when they hold a port colon and none of the
      three separators of the membership string. */
  predicate WellFormedAddr(a: string) {
    ':' in a && '#' !in a && ';' !in a && '@' !in a
  }

  lemma {:induction false} EntryAddrsOfEntries(addrs: seq<string>, weights: seq<string>)
    requires |addrs| == |weights|
    requires forall i :: 0 <= i < |addrs| ==> WellFormedAddr(addrs[i])
    ensures EntryAddrs(Entries(addrs, weights)) == addrs
    decreases |addrs|
  {
    if addrs != [] {
      var es := Entries(addrs, weights);
      var x := addrs[0] + "#" + weights[0];
      assert es == [x] + Entries(addrs[1..], weights[1..]);
      assert es[1..] == Entries(addrs[1..], weights[1..]);
      EntryAddrsOfEntries(addrs[1..], weights[1..]);
      ContainsChar(x, ':');
      assert ":" == [':'];
      assert x[0..|addrs[0]|] == addrs[0];
      assert ':' in x;
      assert x == addrs[0] + ['#'] + weights[0];
      BeforeConcat(addrs[0], '#', weights[0]);
    }
  }

  /** The addresses of a concatenation of entry lists are the addresses of
      the first list followed by those of the second: order is kept. */
  lemma {:induction false} EntryAddrsAppend(a: seq<string>, b: seq<string>)
    ensures EntryAddrs(a + b) == EntryAddrs(a) + EntryAddrs(b)
    decreases |a|
  {
    if a != [] {
      assert (a + b)[1..] == a[1..] + b;
      EntryAddrsAppend(a[1..], b);
    } else {
      assert a + b == b;
    }
  }

  /** One entry gives its address, cut at the first `#`, exactly when it
      holds a colon. */
  lemma EntryAddrsSingle(x: string)
    ensures EntryAddrs([x]) == (if Contains(x, ":") then [Before(x, '#')] else [])
  {
    assert [x][1..] == [];
  }

  /** Only the text before the first `@` is read, split at `;`. */
  lemma MemberAddrsBeforeAt(info: string)
    ensures MemberAddrs(info) == EntryAddrs(Split(Before(info, '@'), ';'))
  {
  }

  /** Whatever follows the first `@` (the epoch) is ignored. */
  lemma MemberAddrsIgnoresEpoch(x: string, y: string)
    requires '@' !in x
    ensures MemberAddrs(x + "@" + y) == MemberAddrs(x)
  {
    assert x + "@" + y == x + ['@'] + y;
    BeforeConcat(x, '@', y);
    BeforeWithout(x, '@');
    MemberAddrsBeforeAt(x + "@" + y);
    MemberAddrsBeforeAt(x);
  }

  /** Reading back a membership string gives the addresses it was built
      from, in order. */
  lemma MemberAddrsRoundTrip(addrs: seq<string>, weights: seq<string>, epoch: string)
    requires |addrs| == |weights|
    requires forall i :: 0 <= i < |addrs| ==> WellFormedAddr(addrs[i])
    requires forall i :: 0 <= i < |weights| ==> ';' !in weights[i] && '@' !in weights[i]
    ensures MemberAddrs(FormatClusterInfo(addrs, weights, epoch)) == addrs
  {
    var es := Entries(addrs, weights);
    var j := Join(es, ';');
    forall i | 0 <= i < |es| ensures '@' !in es[i] && ';' !in es[i] {
      assert es[i] == addrs[i] + ['#'] + weights[i];
    }
    JoinWithout(es, ';', '@');
    var info := FormatClusterInfo(addrs, weights, epoch);
    assert info == j + ['@'] + epoch;
    SplitHead(info, '@');
    BeforeConcat(j, '@', epoch);
    assert Split(info, '@')[0] == j;
    EntryAddrsOfEntries(addrs, weights);
    if addrs == [] {
      assert j == [];
      assert Split(j, ';') == [[]];
      assert !Contains([], ":");
    } else {
      SplitJoin(es, ';');
    }
  }

  lemma ExampleText()
    ensures "10.0.0.1:13306#1;10.0.0.2:13306#1@1000" == "10.0.0.1:13306#1" + ";" + "10.0.0.2:13306#1" + "@" + "1000"
  {
  }

  lemma ExampleFormat()
    ensures FormatClusterInfo(["10.0.0.1:13306", "10.0.0.2:13306"], ["1", "1"], "1000")
            == "10.0.0.1:13306#1;10.0.0.2:13306#1@1000"
  {
    var a := ["10.0.0.1:13306", "10.0.0.2:13306"];
    var w := ["1", "1"];
    var e0 := "10.0.0.1:13306#1";
    var e1 := "10.0.0.2:13306#1";
    var es := Entries(a, w);
    assert es[0] == e0 && es[1] == e1;
    assert es == [e0, e1];
    JoinCons(e0, [e1], ';');
    ExampleText();
  }

  /** Two members on port 13306 with weight 1 and epoch 1000. */
  lemma MemberAddrsExample()
    ensures MemberAddrs("10.0.0.1:13306#1;10.0.0.2:13306#1@1000") == ["10.0.0.1:13306", "10.0.0.2:13306"]
  {
    var a := ["10.0.0.1:13306", "10.0.0.2:13306"];
    var w := ["1", "1"];
    assert WellFormedAddr(a[0]) by { assert a[0][8] == ':'; }
    assert WellFormedAddr(a[1]) by { assert a[1][8] == ':'; }
    MemberAddrsRoundTrip(a, w, "1000");
    ExampleFormat();
  }

  /* ---------------------------------------------------------------- */
  /* Finding a member's address                                       */
  /* ---------------------------------------------------------------- */

  /** The position of the first address that starts with `name`. */
  function PrefixIndex(addrs: seq<string>, name: string): (k: nat)
    ensures k <= |addrs|
    ensures forall j :: 0 <= j < k ==> !HasPrefix(addrs[j], name)
    ensures k < |addrs| ==> HasPrefix(addrs[k], name)
  {
    if addrs == [] then 0
    else if HasPrefix(addrs[0], name) then 0
    else 1 + PrefixIndex(addrs[1..], name)
  }

  /** The first address that starts with `name`, or the empty string. */
  function FirstWithPrefix(addrs: seq<string>, name: string): (r: string)
    ensures (forall i :: 0 <= i < |addrs| ==> !HasPrefix(addrs[i], name)) ==> r == ""
    ensures (exists i :: 0 <= i < |addrs| && HasPrefix(addrs[i], name)) ==>
              exists i :: 0 <= i < |addrs| && r == addrs[i] && HasPrefix(addrs[i], name)
                       && forall j :: 0 <= j < i ==> !HasPrefix(addrs[j], name)
  {
    var k := PrefixIndex(addrs, name);
    if k < |addrs| then addrs[k] else ""
  }

  function GetAddrWithMemberName(e: Engine, cluster: Option<Cluster>, memberName: string): string {
    FirstWithPrefix(GetMemberAddrs(e, cluster), memberName)
  }

  /** The lookup is by prefix, so a member name that is a prefix of another
      member's name can pick that other member's address. */
  lemma PrefixLookupIsFuzzy()
    ensures FirstWithPrefix(["pod-10:13306", "pod-1:13306"], "pod-1") == "pod-10:13306"
  {
    assert HasPrefix("pod-10:13306", "pod-1");
  }

  /** The current member belongs to the cluster when its name occurs
      anywhere in the membership string. */
  function IsCurrentMemberInCluster(e: Engine, cluster: Option<Cluster>): (r: bool)
    ensures r <==> exists i :: OccursAt(GetClusterInfo(e, cluster), e.currentMemberName, i)
  {
    ContainsOccurs(GetClusterInfo(e, cluster), e.currentMemberName);
    Contains(GetClusterInfo(e, cluster), e.currentMemberName)
  }

  /* ---------------------------------------------------------------- */
  /* Cluster health                                                   */
  /* ---------------------------------------------------------------- */

  predicate IsLeaderRow(row: Row) {
    GetString(row, RoleColumn) == LeaderRole
  }

  /** The last row whose role is "Leader", or the empty map. */
  function LeaderRecord(rows: seq<Row>): (rec: Row)
    ensures (exists i :: 0 <= i < |rows| && IsLeaderRow(rows[i])) ==> IsLeaderRow(rec) && rec in rows
    ensures (forall i :: 0 <= i < |rows| ==> !IsLeaderRow(rows[i])) ==> rec == map[]
  {
    if rows == [] then map[]
    else if IsLeaderRow(rows[|rows| - 1]) then rows[|rows| - 1]
    else
      var rest := rows[..|rows| - 1];
      assert forall i :: 0 <= i < |rest| ==> rest[i] == rows[i];
      LeaderRecord(rest)
  }

  /** The cluster is healthy when the leader's global status lists at least
      one row with role "Leader". */
  function IsClusterHealthy(e: Engine): (r: bool)
    ensures r <==> e.leaderConn.None? && e.globalStatus.Some?
                   && exists i :: 0 <= i < |e.globalStatus.value| && IsLeaderRow(e.globalStatus.value[i])
  {
    if e.leaderConn.Some? then false
    else if e.globalStatus.None? then false
    else
      var rec := LeaderRecord(e.globalStatus.value);
      assert IsLeaderRow(rec) ==> RoleColumn in rec.Keys;
      |rec| > 0
  }

  /** The cluster is initialised when the local membership string is not
      empty. */
  function IsClusterInitialized(e: Engine): (r: Result<bool, Error>)
    ensures r.Success?
    ensures r.value <==> e.localClusterInfo.Some? && e.localClusterInfo.value != ""
  {
    Success(GetClusterInfo(e, None) != "")
  }

  /* ---------------------------------------------------------------- */
  /* Leadership and membership commands                               */
  /* ---------------------------------------------------------------- */

  function ChangeLeader(addr: string): string {
    "call dbms_consensus.change_leader('" + addr + "');"
  }

  function DropMember(addr: string): string {
    "call dbms_consensus.downgrade_follower('" + addr + "');"
      + "call dbms_consensus.drop_learner('" + addr + "');"
  }

  /** Makes the current member leader: nothing to do when it already leads;
      otherwise one `change_leader` call naming its own address. */
  function Promote(e: Engine, cluster: Option<Cluster>): (o: Outcome)
    ensures IsPromoted(e) ==> o == Outcome(None, [])
    ensures !IsPromoted(e) && e.leaderConn.Some? ==> o == Outcome(Some(Wrapped(ErrLeaderConn, e.leaderConn.value)), [])
    ensures |o.issued| <= 1
    ensures o.issued != [] ==> exists a :: o.issued == [ChangeLeader(a)]
                                        && a in GetMemberAddrs(e, cluster)
                                        && HasPrefix(a, e.currentMemberName)
                                        && o.err == e.exec(ChangeLeader(a))
    ensures o.issued == [] && !IsPromoted(e) ==> o.err.Some?
    ensures !IsPromoted(e) && e.leaderConn.None? ==>
              var a := GetAddrWithMemberName(e, cluster, e.currentMemberName);
              && (a == "" ==> o == Outcome(Some(Cause(ErrOwnAddr)), []))
              && (a != "" ==> o == Outcome(e.exec(ChangeLeader(a)), [ChangeLeader(a)]))
  {
    if IsPromoted(e) then Outcome(None, [])
    else if e.leaderConn.Some? then Outcome(Some(Wrapped(ErrLeaderConn, e.leaderConn.value)), [])
    else
      var addr := GetAddrWithMemberName(e, cluster, e.currentMemberName);
      if addr == "" then Outcome(Some(Cause(ErrOwnAddr)), [])
      else Outcome(e.exec(ChangeLeader(addr)), [ChangeLeader(addr)])
  }

  /** Removes a member: a member without an address is taken as already
      gone; otherwise one statement demotes and drops its address. */
  function LeaveMemberFromCluster(e: Engine, cluster: Option<Cluster>, memberName: string): (o: Outcome)
    ensures e.leaderConn.Some? ==> o == Outcome(e.leaderConn, [])
    ensures |o.issued| <= 1
    ensures o.issued != [] ==> exists a :: o.issued == [DropMember(a)]
                                        && a in GetMemberAddrs(e, cluster)
                                        && HasPrefix(a, memberName)
    ensures o.issued != [] ==> (o.err.None? <==> e.exec(o.issued[0]).None?)
    ensures o.issued != [] && o.err.Some? ==>
              o.err == Some(Wrapped("error executing " + o.issued[0], e.exec(o.issued[0]).value))
    ensures o.issued == [] ==> o.err == e.leaderConn
    ensures e.leaderConn.None? ==>
              var a := GetAddrWithMemberName(e, cluster, memberName);
              && (a == "" ==> o == Outcome(None, []))
              && (a != "" ==> o.issued == [DropMember(a)])
  {
    if e.leaderConn.Some? then Outcome(e.leaderConn, [])
    else
      var addr := GetAddrWithMemberName(e, cluster, memberName);
      if addr == "" then Outcome(None, [])
      else
        var sql := DropMember(addr);
        match e.exec(sql)
        case Some(err) => Outcome(Some(Wrapped("error executing " + sql, err)), [sql])
        case None => Outcome(None, [sql])
  }

  /** Removing a listed member issues exactly one statement, on the first
      listed address that starts with the member's (non-empty) name. */
  lemma LeavePresentMemberDrops(e: Engine, cluster: Option<Cluster>, memberName: string, a: string)
    requires e.leaderConn.None? && memberName != ""
    requires a in GetMemberAddrs(e, cluster) && HasPrefix(a, memberName)
    ensures var first := GetAddrWithMemberName(e, cluster, memberName);
            && first in GetMemberAddrs(e, cluster) && HasPrefix(first, memberName)
            && LeaveMemberFromCluster(e, cluster, memberName).issued == [DropMember(first)]
  {
    var addrs := GetMemberAddrs(e, cluster);
    var i :| 0 <= i < |addrs| && addrs[i] == a;
    var first := GetAddrWithMemberName(e, cluster, memberName);
    assert HasPrefix(first, memberName);
    assert first != "";
  }

  /** A replica that does not lead, reaches the leader, and finds an
      address starting with its (non-empty) name issues exactly one
      `change_leader` on the first such address. */
  lemma PromoteIssuesChangeLeader(e: Engine, cluster: Option<Cluster>, a: string)
    requires !IsPromoted(e) && e.leaderConn.None? && e.currentMemberName != ""
    requires a in GetMemberAddrs(e, cluster) && HasPrefix(a, e.currentMemberName)
    ensures var first := GetAddrWithMemberName(e, cluster, e.currentMemberName);
            && first in GetMemberAddrs(e, cluster) && HasPrefix(first, e.currentMemberName)
            && Promote(e, cluster) == Outcome(e.exec(ChangeLeader(first)), [ChangeLeader(first)])
  {
    var addrs := GetMemberAddrs(e, cluster);
    var i :| 0 <= i < |addrs| && addrs[i] == a;
    var first := GetAddrWithMemberName(e, cluster, e.currentMemberName);
    assert HasPrefix(first, e.currentMemberName);
    assert first != "";
  }

  /** Removing a member the membership string does not list succeeds
      without a statement, so removal can be repeated safely. */
  lemma LeaveAbsentMemberIsNoop(e: Engine, cluster: Option<Cluster>, memberName: string)
    requires e.leaderConn.None?
    requires forall a :: a in GetMemberAddrs(e, cluster) ==> !HasPrefix(a, memberName)
    ensures LeaveMemberFromCluster(e, cluster, memberName) == Outcome(None, [])
  {
    var addrs := GetMemberAddrs(e, cluster);
    assert forall i :: 0 <= i < |addrs| ==> !HasPrefix(addrs[i], memberName) by {
      forall i | 0 <= i < |addrs| ensures !HasPrefix(addrs[i], memberName) {
        assert addrs[i] in addrs;
      }
    }
  }

  /* ---------------------------------------------------------------- */
  /* Other members                                                    */
  /* ---------------------------------------------------------------- */

  /** The snapshot member the local consensus row names as leader, unless
      the local replica is the leader itself. The leader is named by the
      host part (before the first `.`) of its address. */
  function HasOtherHealthyLeader(e: Engine, cluster: Cluster): (r: Option<Member>)
    ensures r.Some? ==> e.localInfo.Success? && e.localInfo.value.Some?
                        && !IsLeaderRow(e.localInfo.value.value)
                        && GetString(e.localInfo.value.value, CurrentLeaderColumn) != ""
                        && r.value in cluster.members
                        && r.value.name == Before(GetString(e.localInfo.value.value, CurrentLeaderColumn), '.')
    ensures e.localInfo.Success? && e.localInfo.value.Some?
            && !IsLeaderRow(e.localInfo.value.value)
            && GetString(e.localInfo.value.value, CurrentLeaderColumn) != ""
            && (exists m :: m in cluster.members
                  && m.name == Before(GetString(e.localInfo.value.value, CurrentLeaderColumn), '.'))
            ==> r.Some?
  {
    match e.localInfo
    case Failure(_) => None
    case Success(None) => None
    case Success(Some(info)) =>
      if GetString(info, RoleColumn) == LeaderRole then None
      else
        var leaderAddr := GetString(info, CurrentLeaderColumn);
        if leaderAddr == "" then None
        else
          var leaderParts := Split(leaderAddr, '.');
          SplitHead(leaderAddr, '.');
          if |leaderParts| > 0 then GetMemberWithName(cluster, leaderParts[0]) else None
  }

  /** A follower whose local row names the leader's address
      `host.rest` gets the snapshot's first member called `host`. */
  lemma HasOtherHealthyLeaderNamesHost(e: Engine, cluster: Cluster, info: Row, host: string, rest: string)
    requires e.localInfo == Success(Some(info))
    requires !IsLeaderRow(info)
    requires GetString(info, CurrentLeaderColumn) == host + "." + rest
    requires '.' !in host
    ensures HasOtherHealthyLeader(e, cluster) == GetMemberWithName(cluster, host)
  {
    assert host + "." + rest == host + ['.'] + rest;
    BeforeConcat(host, '.', rest);
    SplitHead(host + "." + rest, '.');
  }

  /** `a` is `b` with some elements left out, order kept. */
  predicate SubsequenceOf<T(==)>(a: seq<T>, b: seq<T>)
    decreases |b|
  {
    a == [] || (b != [] && ((a[0] == b[0] && SubsequenceOf(a[1..], b[1..])) || SubsequenceOf(a, b[1..])))
  }

  /** The members other than the leader that the health check accepts. */
  function OtherHealthy(members: seq<Member>, leader: string, healthy: Member -> bool): (r: seq<Member>)
    ensures |r| <= |members|
    ensures SubsequenceOf(r, members)
    ensures forall m :: m in r <==> m in members && m.name != leader && healthy(m)
  {
    if members == [] then []
    else
      var rest := OtherHealthy(members[1..], leader, healthy);
      var m := members[0];
      assert forall x :: x in members <==> x == m || x in members[1..];
      if m.name != leader && healthy(m) then [m] + rest else rest
  }

  /** The healthy members other than `leader`, in snapshot order. */
  function HasOtherHealthyMembers(e: Engine, cluster: Cluster, leader: string): (r: seq<Member>)
    ensures |r| <= |cluster.members|
    ensures SubsequenceOf(r, cluster.members)
    ensures forall m :: m in r <==> m in cluster.members && m.name != leader && e.healthy(m)
  {
    OtherHealthy(cluster.members, leader, e.healthy)
  }

  /** The same loop as written, under the loop-variable semantics of Go
      before 1.22: every appended entry is the address of the one loop
      variable, which holds the last member once the loop ends. */
  function HasOtherHealthyMembersAliased(e: Engine, cluster: Cluster, leader: string): (r: seq<Member>)
    ensures |r| == |HasOtherHealthyMembers(e, cluster, leader)|
    ensures forall i :: 0 <= i < |r| ==> r[i] == cluster.members[|cluster.members| - 1]
  {
    var kept := HasOtherHealthyMembers(e, cluster, leader);
    seq(|kept|, i requires 0 <= i < |kept| => cluster.members[|cluster.members| - 1])
  }

  /** With a healthy follower listed before the leader, the aliased result
      names the leader, which the operation exists to exclude. */
  lemma AliasedResultNamesLeader(e: Engine, follower: Member, leader: Member)
    requires follower.name == "pod-1" && leader.name == "pod-0"
    requires e.healthy(follower)
    ensures var c := Cluster("", None, None, [follower, leader], None, map[]);
            HasOtherHealthyMembers(e, c, "pod-0") == [follower]
            && HasOtherHealthyMembersAliased(e, c, "pod-0") == [leader]
  {
    var c := Cluster("", None, None, [follower, leader], None, map[]);
    assert c.members[1..] == [leader];
    assert c.members[1..][1..] == [];
    assert OtherHealthy(c.members[1..], "pod-0", e.healthy) == [];
  }
}
