/** Helpers of the data-protection controller: the order in which backups
    are listed, the names of the objects a backup policy creates, and the
    labels put on a backup's objects. */
module DataProtection {
  import opened Wrappers
  import opened GoStrings

  /** A backup: its name and, once it has started, its start time (an
      instant, in nanoseconds). */
  datatype Backup = Backup(name: string, startTimestamp: Option<int>)

  /* ---------------------------------------------------------------- */
  /* Ordering by start time                                           */
  /* ---------------------------------------------------------------- */

  /** `metav1.Time.Equal` on optional times: two absent times are equal. */
  predicate TimeEqual(t: Option<int>, u: Option<int>) {
    if t.None? && u.None? then true
    else if t.Some? && u.Some? then t.value == u.value
    else false
  }

  /** `metav1.Time.Before` on optional times: false unless both are present. */
  predicate TimeBefore(t: Option<int>, u: Option<int>) {
    t.Some? && u.Some? && t.value < u.value
  }

  function Len(o: seq<Backup>): (n: nat)
    ensures n == |o|
  {
    |o|
  }

  /** Exchanges the backups at `i` and `j`. */
  function Swap(o: seq<Backup>, i: nat, j: nat): (r: seq<Backup>)
    requires i < |o| && j < |o|
    ensures |r| == |o|
    ensures r[i] == o[j] && r[j] == o[i]
    ensures forall k :: 0 <= k < |o| && k != i && k != j ==> r[k] == o[k]
    ensures multiset(r) == multiset(o)
  {
    var r := o[i := o[j]][j := o[i]];
    if i == j then r
    else
      assert multiset(o[i := o[j]]) == multiset(o) - multiset{o[i]} + multiset{o[j]};
      r
  }

  lemma SwapTwice(o: seq<Backup>, i: nat, j: nat)
    requires i < |o| && j < |o|
    ensures Swap(Swap(o, i, j), i, j) == o
  {
  }

  /** Whether the backup at `i` sorts before the one at `j`: started
      backups before unstarted ones, then by start time, with the name as
      tie breaker. */
  function Less(o: seq<Backup>, i: nat, j: nat): (r: bool)
    requires i < |o| && j < |o|
    ensures r <==> KeyLess(KeyOf(o[i]), KeyOf(o[j]))
    ensures i == j ==> !r
    ensures r ==> !BackupLess(o[j], o[i])
  {
    BackupLessIsKeyOrder(o[i], o[j]);
    BackupLessIrreflexive(o[i]);
    BackupLessAsymmetric(o[i], o[j]);
    BackupLess(o[i], o[j])
  }

  predicate BackupLess(a: Backup, b: Backup) {
    if a.startTimestamp.None? && b.startTimestamp.Some? then false
    else if a.startTimestamp.Some? && b.startTimestamp.None? then true
    else if TimeEqual(a.startTimestamp, b.startTimestamp) then GoStrings.Less(a.name, b.name)
    else TimeBefore(a.startTimestamp, b.startTimestamp)
  }

  /** The sort key of a backup: unstarted after started, then the start
      time, then the name. */
  datatype SortKey = SortKey(unstarted: bool, time: int, name: string)

  function KeyOf(b: Backup): SortKey {
    SortKey(b.startTimestamp.None?, b.startTimestamp.GetOr(0), b.name)
  }

  /** Lexicographic order on sort keys. */
  predicate KeyLess(x: SortKey, y: SortKey) {
    if x.unstarted != y.unstarted then !x.unstarted
    else if x.time != y.time then x.time < y.time
    else GoStrings.Less(x.name, y.name)
  }

  /** The comparison is the lexicographic order of the sort keys. */
  lemma BackupLessIsKeyOrder(a: Backup, b: Backup)
    ensures BackupLess(a, b) <==> KeyLess(KeyOf(a), KeyOf(b))
  {
  }

  lemma BackupLessIrreflexive(a: Backup)
    ensures !BackupLess(a, a)
  {
    LessIrreflexive(a.name);
  }

  lemma BackupLessTransitive(a: Backup, b: Backup, c: Backup)
    requires BackupLess(a, b) && BackupLess(b, c)
    ensures BackupLess(a, c)
  {
    BackupLessIsKeyOrder(a, b);
    BackupLessIsKeyOrder(b, c);
    BackupLessIsKeyOrder(a, c);
    if KeyOf(a).unstarted == KeyOf(b).unstarted == KeyOf(c).unstarted
       && KeyOf(a).time == KeyOf(b).time == KeyOf(c).time {
      LessTransitive(a.name, b.name, c.name);
    }
  }

  /** Two backups with different sort keys are ordered one way or the
      other, so the order is a strict total order on sort keys. */
  lemma BackupLessTotal(a: Backup, b: Backup)
    requires KeyOf(a) != KeyOf(b)
    ensures BackupLess(a, b) || BackupLess(b, a)
    ensures !(BackupLess(a, b) && BackupLess(b, a))
  {
    BackupLessIsKeyOrder(a, b);
    BackupLessIsKeyOrder(b, a);
    if KeyOf(a).unstarted == KeyOf(b).unstarted && KeyOf(a).time == KeyOf(b).time {
      LessTotal(a.name, b.name);
      if GoStrings.Less(a.name, b.name) {
        LessAsymmetric(a.name, b.name);
      }
    }
  }

  /** No two backups sort before each other. */
  lemma BackupLessAsymmetric(a: Backup, b: Backup)
    ensures BackupLess(a, b) ==> !BackupLess(b, a)
  {
    if KeyOf(a) != KeyOf(b) {
      BackupLessTotal(a, b);
    } else {
      BackupLessIsKeyOrder(a, b);
      LessIrreflexive(a.name);
    }
  }

  /* ---------------------------------------------------------------- */
  /* Names and labels                                                 */
  /* ---------------------------------------------------------------- */

  const MaxPolicyPrefix: nat := 30

  /** The name of an object created for a backup policy:
      `<policy>-<namespace>`, cut to 30 characters, then `-<type>`. */
  function CreatedCRName(policyName: string, policyNamespace: string, backupType: string): (r: string)
    ensures 1 + |backupType| <= |r| <= MaxPolicyPrefix + 1 + |backupType|
    ensures r[|r| - |backupType| - 1..] == "-" + backupType
    ensures |policyName| + 1 + |policyNamespace| <= MaxPolicyPrefix
            ==> r == policyName + "-" + policyNamespace + "-" + backupType
    ensures |policyName| + 1 + |policyNamespace| > MaxPolicyPrefix
            ==> r == (policyName + "-" + policyNamespace)[..MaxPolicyPrefix] + "-" + backupType
  {
    var name := policyName + "-" + policyNamespace;
    var name := if |name| > MaxPolicyPrefix then name[..MaxPolicyPrefix] else name;
    name + "-" + backupType
  }

  /** Policies whose `<policy>-<namespace>` agree on the first 30
      characters get the same name, so the cut can make names collide. */
  lemma CreatedCRNameCollides(p1: string, ns1: string, p2: string, ns2: string, backupType: string)
    requires |p1 + "-" + ns1| >= MaxPolicyPrefix && |p2 + "-" + ns2| >= MaxPolicyPrefix
    requires (p1 + "-" + ns1)[..MaxPolicyPrefix] == (p2 + "-" + ns2)[..MaxPolicyPrefix]
    ensures CreatedCRName(p1, ns1, backupType) == CreatedCRName(p2, ns2, backupType)
  {
    var n1 := p1 + "-" + ns1;
    if |n1| == MaxPolicyPrefix {
      assert n1[..MaxPolicyPrefix] == n1;
    }
    var n2 := p2 + "-" + ns2;
    if |n2| == MaxPolicyPrefix {
      assert n2[..MaxPolicyPrefix] == n2;
    }
  }

  /** The labels of a backup's objects: the backup's own labels (none when
      absent) with the backup-name label set to the backup's name. */
  function BuildBackupLabels(labels: Option<map<string, string>>, backupNameKey: string, backupName: string): (r: map<string, string>)
    ensures backupNameKey in r && r[backupNameKey] == backupName
    ensures forall k :: k != backupNameKey ==> (k in r <==> labels.Some? && k in labels.value)
    ensures forall k :: k != backupNameKey && k in r ==> r[k] == labels.value[k]
  {
    var base := if labels.None? then map[] else labels.value;
    base[backupNameKey := backupName]
  }

  /** Building the labels again from their own result changes nothing. */
  lemma BuildBackupLabelsIdempotent(labels: Option<map<string, string>>, backupNameKey: string, backupName: string)
    ensures var r := BuildBackupLabels(labels, backupNameKey, backupName);
            BuildBackupLabels(Some(r), backupNameKey, backupName) == r
  {
  }
}
