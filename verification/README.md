# KubeBlocks probe and controller helpers, modelled in Dafny

This project models five small pieces of logic from KubeBlocks, a Kubernetes operator for databases, and proves properties about them:

- **The configuration-line scanner** (`internal/unstructured/parser_fsm.go`) splits one line of a Redis-style configuration file into tokens. It follows Redis's `sdssplitargs`: double-quoted strings with C-style escapes, single-quoted strings where only `\'` is an escape, and a configurable set of split characters. Each state of the scanner is a Dafny function from an immutable scanner record to the final record (module `ParserFsm`). Termination is proved through the unread input and the state rank. Module `ParserFsmProperties` relates the scanner to definitions that do not mention its states: the maximal runs of non-split runes, quoted renderings of words, and the escape table.
- **The WeSQL consensus-membership manager** (`pkg/lorry/engines/wesql/manager.go`, module `WesqlManager`). The database and the shared MySQL manager are replaced by an `Engine` record of observations: the replica role, the leader member, whether a leader connection was obtained, the `cluster_info` strings, the global status rows, the local consensus row, the result of executing a statement, and a health verdict per member. Administrative commands are returned as the trace of statements issued.
- **The probe's configuration store** (`cmd/probe/internal/component/configuration_store/config.go`, module `ConfigurationStore`). It covers decoding the leader lease, the write sequence of `Init`, config-map selection, and loading the cluster snapshot. The Kubernetes calls become inputs (`Api`, `Fetch`), and so do the clock (`now`) and the environment (`Env`).
- **Data-protection helpers** (`controllers/dataprotection/utils.go`, module `DataProtection`). These are the backup ordering, the names of objects a backup policy creates, and the labels of a backup's objects.
- **Migration step names** (`internal/cli/types/migrationapi/type.go`, module `MigrationApi`). These are the command-line spelling of steps and the deep copy of the parameter map.

The shared modules are:

- `Wrappers`: `Option` and `Result`.
- `GoErrors`: Go errors made with `errors.New` and `errors.Wrap`.
- `GoStrings`: the Go `strings` and `strconv` functions the code calls, with their properties proved once.
- `Dcs`: the cluster snapshot (members, leader, failover, configuration).

Annotation keys and config-map suffixes are defined outside the files modelled here, so they are passed in as a `Keys` record. The same applies to the backup-name label key.

## Model

| member | source | states |
|---|---|---|
| ParserFsm.Next | internal/unstructured/parser_fsm.go:59-68 | at end of input nothing is read and the position stays; otherwise the rune at the position is read and the position advances by its width; nothing else in the scanner changes |
| ParserFsm.AppendRune | internal/unstructured/parser_fsm.go:70-72 | the pending token grows by exactly the given rune at its end, and nothing else in the scanner changes |
| ParserFsm.Failed | internal/unstructured/parser_fsm.go:96-99 | a failure records exactly the given message as the error and changes nothing else, so the scan stops where it failed |
| ParserFsm.Peek | internal/unstructured/parser_fsm.go:74-78 | looking ahead returns what reading would return and leaves the position (and everything but the last width) unchanged |
| ParserFsm.PrepareScan | internal/unstructured/parser_fsm.go:80-94 | every scan terminates; tokens are only appended; a failure carries one of the three messages; a scan that does not fail has consumed the whole line with no token pending |
| ParserFsm.StateEOF | internal/unstructured/parser_fsm.go:101-106 | the end state finishes the scan under the same guarantees |
| ParserFsm.StateTokenEnd | internal/unstructured/parser_fsm.go:108-112 | ending a token finishes the scan under the same guarantees |
| ParserFsm.TrimLoop | internal/unstructured/parser_fsm.go:114-120 | the trimming loop consumes exactly the run of split runes at the position: all skipped runes are split runes and the rune it stops at is not |
| ParserFsm.StateTrimSplitCharacters | internal/unstructured/parser_fsm.go:114-120 | trimming then rescanning finishes the scan under the same guarantees |
| ParserFsm.StateQuotesString | internal/unstructured/parser_fsm.go:122-141 | the double-quote state finishes the scan under the same guarantees |
| ParserFsm.StateEscape | internal/unstructured/parser_fsm.go:143-161 | an escape only moves forward and changes nothing but the position and the pending token |
| ParserFsm.StateSQuotesString | internal/unstructured/parser_fsm.go:163-182 | the single-quote state finishes the scan under the same guarantees |
| ParserFsm.Parse | internal/unstructured/parser_fsm.go:46-53 | parsing a line terminates, and any error is one of "unterminated quotes.", "unterminated single quotes." or "closing quote must be followed by a space or end." |
| ParserFsmProperties.UnfoldAtEnd | internal/unstructured/parser_fsm.go:101-106 | at end of input a non-empty pending token is handed over and an empty one is not |
| ParserFsmProperties.UnfoldAtSplit | internal/unstructured/parser_fsm.go:84-85 | a split rune ends the pending token and the whole following run of split runes is skipped, so a run of separators ends exactly one token |
| ParserFsmProperties.UnfoldTokenEnd | internal/unstructured/parser_fsm.go:108-120 | ending a token hands it over, clears it, and resumes outside quotes after the run of split runes that follows |
| ParserFsmProperties.PrepareScanUnquoted | internal/unstructured/parser_fsm.go:80-94 | outside quotes the scan hands over exactly the pending text joined to the first run, followed by the maximal runs of non-split runes of the rest |
| ParserFsmProperties.ParseUnquoted | internal/unstructured/parser_fsm.go:80-120 | a line without quotes never fails and yields its maximal runs of non-split runes in order, preceded by one empty token when the line starts with a split rune |
| ParserFsmProperties.Fields | internal/unstructured/parser_fsm.go:80-94 | the reference tokens of unquoted text are non-empty and hold no split rune |
| ParserFsmProperties.FieldsSkip | internal/unstructured/parser_fsm.go:114-120 | leading split runes contribute no token |
| ParserFsmProperties.UnfoldQuoteEscape | internal/unstructured/parser_fsm.go:134-138 | inside double quotes a backslash and the next rune add one rune, `n r t b a` decoded to their control characters and any other rune kept as is |
| ParserFsmProperties.UnfoldQuoteClose | internal/unstructured/parser_fsm.go:128-133 | a closing double quote followed by a split rune or the end ends the token |
| ParserFsmProperties.UnterminatedQuotes | internal/unstructured/parser_fsm.go:126-136 | inside double quotes, input with no unescaped closing quote (a quote after a backslash is kept as text) fails with "unterminated quotes.", also when it ends right after a backslash |
| ParserFsmProperties.ParseUnterminatedQuotes | internal/unstructured/parser_fsm.go:122-141 | a line whose opening double quote is followed by no unescaped closing quote fails with "unterminated quotes." |
| ParserFsmProperties.EscapedQuoteNeverCloses | internal/unstructured/parser_fsm.go:134-138 | the line `"a\"` fails with "unterminated quotes.": the escaped quote does not close the string |
| ParserFsmProperties.QuotedContent | internal/unstructured/parser_fsm.go:122-161 | the escaped form of any word inside double quotes reads back as that word, up to the closing quote |
| ParserFsmProperties.ParseClosingQuoteFollowed | internal/unstructured/parser_fsm.go:128-133 | a closing double quote followed by a rune that is not a split rune makes the line fail with the closing-quote message |
| ParserFsmProperties.ReachQuote | internal/unstructured/parser_fsm.go:80-94 | unquoted text before an opening quote leads into the matching quoted state right after the quote |
| ParserFsmProperties.PlainThenQuote | internal/unstructured/parser_fsm.go:86-91 | text directly before a double quote is never flushed, so it joins the quoted word in one token |
| ParserFsmProperties.ParseAdjacentQuote | internal/unstructured/parser_fsm.go:86-91 | a line `ab"cd"` (prefix then quoted word) parses to the single token `abcd` |
| ParserFsmProperties.ScanQuotedWord | internal/unstructured/parser_fsm.go:122-141 | a quoted word followed by a split rune or the end is handed over as one token, joined to the pending text |
| ParserFsmProperties.ParseRender | internal/unstructured/parser_fsm.go:46-141 | any list of words, each written in double quotes with its quotes and backslashes escaped and separated by a split rune, parses back to exactly that list |
| ParserFsmProperties.UnfoldSQuoteEscapedQuote | internal/unstructured/parser_fsm.go:175-179 | inside single quotes `\'` adds a single quote to the token |
| ParserFsmProperties.UnfoldSQuoteLoneBackslash | internal/unstructured/parser_fsm.go:175-180 | inside single quotes a backslash not followed by a quote is dropped, not appended |
| ParserFsmProperties.UnterminatedSingleQuotes | internal/unstructured/parser_fsm.go:163-182 | inside single quotes, input with no closing quote other than an escaped `\'` fails with "unterminated single quotes." |
| ParserFsmProperties.ParseUnterminatedSingleQuotes | internal/unstructured/parser_fsm.go:167-168 | a line whose opening single quote is followed by no closing quote other than an escaped `\'` fails with "unterminated single quotes." |
| ParserFsmProperties.EscapedSingleQuoteNeverCloses | internal/unstructured/parser_fsm.go:175-179 | the line `'a\'` fails with "unterminated single quotes.": the escaped single quote does not close the string |
| ParserFsmProperties.SingleQuotedContent | internal/unstructured/parser_fsm.go:163-182 | any backslash-free word with its single quotes escaped reads back as that word inside single quotes |
| ParserFsmProperties.ParseClosingSingleQuoteFollowed | internal/unstructured/parser_fsm.go:169-174 | after any unquoted text, a backslash-free single-quoted word whose closing quote is followed by a rune that is not a split rune makes the line fail with the closing-quote message |
| ParserFsmProperties.ParseSingleQuote | internal/unstructured/parser_fsm.go:163-182 | a backslash-free word in single quotes parses to exactly that word |
| GoStrings.SplitHead | pkg/lorry/engines/wesql/manager.go:286-288 | the first piece of a Go split is the text before the first separator |
| GoStrings.JoinSplit | pkg/lorry/engines/wesql/manager.go:110-111 | joining the pieces of a split with the same separator gives the original string back, so splitting loses nothing |
| GoStrings.AtoiFormatInt | cmd/probe/internal/component/configuration_store/config.go:85-86 | an int64 written in decimal parses back to itself |
| WesqlManager.IsLeader | pkg/lorry/engines/wesql/manager.go:72-84 | a failed role read is returned as the error; otherwise the replica is leader exactly when its role equals "Leader" up to case |
| WesqlManager.IsLeaderIgnoresCase | pkg/lorry/engines/wesql/manager.go:79-81 | roles that agree up to case give the same verdict |
| WesqlManager.IsPromoted | pkg/lorry/engines/wesql/manager.go:252-255 | promoted exactly when the role reads and equals "Leader" up to case; a read error reads as not promoted |
| WesqlManager.IsLeaderMember | pkg/lorry/engines/wesql/manager.go:86-101 | never errors; true exactly when the member is given, the snapshot has a leader member, and their names are equal |
| WesqlManager.GetClusterInfo | pkg/lorry/engines/wesql/manager.go:206-226 | with a snapshot the string comes from the leader connection, and is empty when no connection was obtained; without one it comes from the local connection; a failed query gives the empty string |
| WesqlManager.EntryAddrs | pkg/lorry/engines/wesql/manager.go:111-116 | keeps at most one address per entry, only from entries holding a colon, each cut at its first `#` |
| WesqlManager.MemberAddrs | pkg/lorry/engines/wesql/manager.go:107-119 | an empty membership string gives no address, and no address holds a `#` |
| WesqlManager.EntryAddrsAppend | pkg/lorry/engines/wesql/manager.go:111-116 | the entries are read one by one: the addresses of two lists joined are the addresses of each, joined |
| WesqlManager.EntryAddrsSingle | pkg/lorry/engines/wesql/manager.go:112-115 | an entry without a colon gives no address, and one with a colon gives its text before the first `#` |
| WesqlManager.MemberAddrsBeforeAt | pkg/lorry/engines/wesql/manager.go:108-111 | only the text before the first `@` is read, split at `;` into entries |
| WesqlManager.MemberAddrsIgnoresEpoch | pkg/lorry/engines/wesql/manager.go:108-111 | whatever follows the first `@` does not change the addresses |
| WesqlManager.EntryAddrsOfEntries | pkg/lorry/engines/wesql/manager.go:111-116 | entries `addr#weight` of well-formed addresses read back as the addresses, in order |
| WesqlManager.MemberAddrsRoundTrip | pkg/lorry/engines/wesql/manager.go:107-119 | a membership string `addr#weight;...@epoch` built from well-formed addresses reads back as exactly those addresses, in order |
| WesqlManager.MemberAddrsExample | pkg/lorry/engines/wesql/manager.go:107-119 | `10.0.0.1:13306#1;10.0.0.2:13306#1@1000` gives the two addresses without weights or epoch |
| WesqlManager.PrefixIndex | pkg/lorry/engines/wesql/manager.go:123-128 | the position of the first address starting with the name, every earlier one not starting with it |
| WesqlManager.FirstWithPrefix | pkg/lorry/engines/wesql/manager.go:121-129 | the first address that has the member name as a prefix, or the empty string when none has |
| WesqlManager.PrefixLookupIsFuzzy | pkg/lorry/engines/wesql/manager.go:124-126 | the lookup is by prefix: looking up `pod-1` among `pod-10:13306, pod-1:13306` finds `pod-10:13306` |
| WesqlManager.IsCurrentMemberInCluster | pkg/lorry/engines/wesql/manager.go:131-134 | true exactly when the current member's name occurs somewhere in the membership string |
| WesqlManager.LeaderRecord | pkg/lorry/engines/wesql/manager.go:177-184 | the kept record is a row with role "Leader" when there is one, and empty otherwise |
| WesqlManager.IsClusterHealthy | pkg/lorry/engines/wesql/manager.go:170-194 | healthy exactly when a leader connection was obtained, the status query succeeded, and at least one row has role exactly "Leader" |
| WesqlManager.IsClusterInitialized | pkg/lorry/engines/wesql/manager.go:196-204 | never errors; true exactly when the local membership string is non-empty |
| WesqlManager.Promote | pkg/lorry/engines/wesql/manager.go:228-250 | nothing happens when the replica already leads; a missing leader connection is wrapped as "Get leader conn failed"; when no listed address starts with the current member's name it fails with "get current member's addr failed" and issues nothing; otherwise it issues exactly one `change_leader` for the first such address and returns that statement's error |
| WesqlManager.PromoteIssuesChangeLeader | pkg/lorry/engines/wesql/manager.go:238-244 | when a listed address starts with the current member's name, a replica that does not lead issues `change_leader` for the first such address and returns its error |
| WesqlManager.LeaveMemberFromCluster | pkg/lorry/engines/wesql/manager.go:148-168 | a missing leader connection is returned before any lookup; at most one demote-and-drop statement is issued, for a listed address starting with the member name; its failure is wrapped with the statement text; with no address found it succeeds without a statement, and with one it issues exactly the drop for the first address starting with the name |
| WesqlManager.LeavePresentMemberDrops | pkg/lorry/engines/wesql/manager.go:154-161 | when a listed address starts with the member name, removal issues the demote-and-drop for the first such address |
| WesqlManager.LeaveAbsentMemberIsNoop | pkg/lorry/engines/wesql/manager.go:154-158 | removing a member no listed address starts with succeeds without a statement, so removal can be repeated |
| WesqlManager.HasOtherHealthyLeader | pkg/lorry/engines/wesql/manager.go:270-292 | no leader when the local row is missing or errors, names this replica as leader, or has no current leader; a leader found is a snapshot member named by the host part of the leader address, and one is found whenever such a member exists |
| WesqlManager.HasOtherHealthyLeaderNamesHost | pkg/lorry/engines/wesql/manager.go:282-289 | a follower whose row names leader address `host.rest` gets the snapshot's member called `host` |
| WesqlManager.OtherHealthy | pkg/lorry/engines/wesql/manager.go:297-305 | the kept members are an order-preserving subsequence, and a member is kept exactly when it is not the leader and is healthy |
| WesqlManager.HasOtherHealthyMembers | pkg/lorry/engines/wesql/manager.go:294-308 | the healthy members other than the leader, in snapshot order, as an order-preserving subsequence of the snapshot's members |
| WesqlManager.HasOtherHealthyMembersAliased | pkg/lorry/engines/wesql/manager.go:297-305 | with one loop variable shared by all iterations, the result has the intended length but every entry is the snapshot's last member |
| WesqlManager.AliasedResultNamesLeader | pkg/lorry/engines/wesql/manager.go:301-304 | with a healthy follower listed before the leader, the shared-variable result returns the leader while the intended result returns the follower |
| Dcs.MemberWithName | pkg/lorry/engines/wesql/manager.go:288 | a member with the name, found exactly when one exists; the first such member is taken, as an assumption about code not shown |
| ConfigurationStore.AtoiOrZero | cmd/probe/internal/component/configuration_store/config.go:277-290 | the decimal value of text that parses, in the int64 range, and 0 for text that does not |
| ConfigurationStore.NewLeaderRecord | cmd/probe/internal/component/configuration_store/config.go:276-298 | the leader is the annotation's value, or empty when it is missing; each time and the ttl are the annotation's decimal value when it parses as an int64, and 0 when it is missing or does not parse |
| ConfigurationStore.Init | cmd/probe/internal/component/configuration_store/config.go:69-122 | a failed get returns its error with no write; otherwise the writes go in order (first the update of the cluster object with its annotations replaced by the four lease annotations, create the configuration map, then create the extra map only when extra data is given) and stop at the first refused write, whose error is returned |
| ConfigurationStore.LeaderAnnotationsRecord | cmd/probe/internal/component/configuration_store/config.go:79-88 | reading back the lease annotations gives the primary pod's host name as leader, the same instant as acquire and renew time, and the configured ttl |
| ConfigurationStore.InitLeaderRecordRoundTrip | cmd/probe/internal/component/configuration_store/config.go:79-92 | the leader record decoded from what `Init` wrote to the cluster object names the primary pod's host, with acquire time equal to renew time |
| ConfigurationStore.InitConfigRoundTrip | cmd/probe/internal/component/configuration_store/config.go:94-107 | the configuration map `Init` creates carries the system id, the ttl and the maximum failover lag |
| ConfigurationStore.LastNamed | cmd/probe/internal/component/configuration_store/config.go:152-159 | the last config map with the name, or none exactly when no map has it |
| ConfigurationStore.SelectConfigMaps | cmd/probe/internal/component/configuration_store/config.go:151-159 | the configuration map is the last one named after the component with the configuration suffix, and the failover map the last one with the failover suffix; all other maps are ignored |
| ConfigurationStore.SelectConfigMapsAliased | cmd/probe/internal/component/configuration_store/config.go:152-159 | with one loop variable shared by all iterations, the maps are found exactly when intended, but each is the last map of the list |
| ConfigurationStore.AliasedSelectionPicksLastMap | cmd/probe/internal/component/configuration_store/config.go:155 | a configuration map listed before another map is replaced by that other map under the shared loop variable |
| ConfigurationStore.LoadClusterFromKubernetes | cmd/probe/internal/component/configuration_store/config.go:166-206 | as written: any pod panics; otherwise there are no members and never a failover; the system id comes from the configuration map, or is empty without one; the configuration is the decoded configuration map, and the extra data is kept; the leader and the observed lease, observed now, come from the cluster object when there is one, and without one the observed lease and its time are kept |
| ConfigurationStore.DecodeFailover | cmd/probe/internal/component/configuration_store/config.go:190-196 | a failover is decoded exactly when the scheduled time parses, with the map's version, leader and candidate |
| ConfigurationStore.DecodeFailoverRoundTrip | cmd/probe/internal/component/configuration_store/config.go:191-195 | the annotations of a failover decode back to it |
| ConfigurationStore.LoadClusterIntended | cmd/probe/internal/component/configuration_store/config.go:166-206 | as intended: one member per pod in order, the failover decoded from the failover map, and the system id and leader as written |
| ConfigurationStore.FailoverIsDropped | cmd/probe/internal/component/configuration_store/config.go:190 | a failover map scheduled at "100" is lost by the code as written and decoded by the intended loader |
| ConfigurationStore.GetClusterFromKubernetes | cmd/probe/internal/component/configuration_store/config.go:132-164 | the first failed read (pods, config maps, cluster object) returns its error and a nil list returns none, each leaving the store unchanged; the refresh panics exactly when there is a pod and every read succeeded; with no pod and every read successful it returns no error and a snapshot without members or failover, with the cluster object's leader, the system id and decoded configuration of the selected configuration map, empty extra data, and the lease observed now |
| ConfigurationStore.GetClusterIntended | cmd/probe/internal/component/configuration_store/config.go:132-164 | as intended the refresh never panics, returns the first failed read's error like the code, and a successful one has one member per pod and the failover decoded from the selected failover map |
| ConfigurationStore.OnePodPanicsLoader | cmd/probe/internal/component/configuration_store/config.go:185-188 | one pod makes the loader as written panic, while the intended loader lists it as the only member |
| ConfigurationStore.OnePodPanicsRefresh | cmd/probe/internal/component/configuration_store/config.go:146-149 | one pod makes the refresh as written panic, while the intended refresh lists it as the only member |
| DataProtection.Swap | controllers/dataprotection/utils.go:44 | the two positions exchange their backups, every other position is unchanged, and the list is a permutation of the original |
| DataProtection.SwapTwice | controllers/dataprotection/utils.go:44 | swapping twice restores the list |
| DataProtection.Less | controllers/dataprotection/utils.go:47-58 | the backup at `i` sorts before the one at `j` exactly when its sort key is lexicographically smaller; no position sorts before itself, and two positions never sort before each other |
| DataProtection.BackupLessAsymmetric | controllers/dataprotection/utils.go:47-58 | no two backups sort before each other |
| DataProtection.BackupLessIsKeyOrder | controllers/dataprotection/utils.go:47-58 | a backup sorts before another exactly when its key is lexicographically smaller: started before unstarted, then earlier start time, then smaller name |
| DataProtection.BackupLessIrreflexive | controllers/dataprotection/utils.go:47-58 | no backup sorts before itself, also without a start time, since two absent times compare equal |
| DataProtection.BackupLessTransitive | controllers/dataprotection/utils.go:47-58 | the order is transitive |
| DataProtection.BackupLessTotal | controllers/dataprotection/utils.go:47-58 | backups with different keys are ordered exactly one way |
| DataProtection.CreatedCRName | controllers/dataprotection/utils.go:73-80 | the name ends in `-type`, has at most 30 characters before it, is exactly `policy-namespace-type` when `policy-namespace` fits in 30, and otherwise keeps its first 30 characters |
| DataProtection.CreatedCRNameCollides | controllers/dataprotection/utils.go:76-78 | policies whose `policy-namespace` agree on the first 30 characters get the same name |
| DataProtection.BuildBackupLabels | controllers/dataprotection/utils.go:97-104 | the backup-name label is set to the backup's name, every other label is kept unchanged, and no label is added; absent labels give a one-entry map |
| DataProtection.BuildBackupLabelsIdempotent | controllers/dataprotection/utils.go:97-104 | building the labels again from the result changes nothing |
| MigrationApi.StepString | internal/cli/types/migrationapi/type.go:135-137 | a step's string converts back to the same step |
| MigrationApi.CliString | internal/cli/types/migrationapi/type.go:168-170 | a command-line step's string converts back to the same command-line step |
| MigrationApi.StringInjective | internal/cli/types/migrationapi/type.go:135-137 | distinct steps, and distinct command-line steps, have distinct strings |
| MigrationApi.LowerCaseString | internal/cli/types/migrationapi/type.go:135-141 | the step's name with every ASCII upper-case letter replaced by its lower-case letter and every other rune kept |
| MigrationApi.LowerCaseStringIdempotent | internal/cli/types/migrationapi/type.go:139-141 | lowering an already lowered name changes nothing |
| MigrationApi.StepCliString | internal/cli/types/migrationapi/type.go:143-156 | never "global"; "unknown" exactly for the steps other than preCheck, initStruct, initData and cdc |
| MigrationApi.CliStringRoundTrip | internal/cli/types/migrationapi/type.go:143-166 | preCheck, initStruct, initData and cdc spell as precheck, init-struct, init-data and cdc, which read back as the same step |
| MigrationApi.ParseCliStepRoundTrip | internal/cli/types/migrationapi/type.go:160-170 | every accepted spelling is the spelling of its step; "global" and "unknown" name no step |
| MigrationApi.StepCliStringInjective | internal/cli/types/migrationapi/type.go:143-156 | the four mapped steps have distinct spellings |
| MigrationApi.DeepCopyJsonSame | internal/cli/types/migrationapi/type.go:195-201 | a deep copy of a JSON value equals the original |
| MigrationApi.DeepCopy | internal/cli/types/migrationapi/type.go:203-210 | a nil map copies to nil, any other map to a map with the same contents |

## Left out

- Input is a sequence of runes, not UTF-8 bytes, so every rune read has width one. Go's end-of-input rune is modelled as `None`, so no input rune can be mistaken for it.
- The token sink `item.addToken` is not part of this model. Tokens are appended to a list. An empty token (from a line starting with a split rune, or `""`) is kept, because no filtering can be seen.
- `fsm.Parse` does not reset the position or the pending token between calls. The model parses each line with a fresh scanner.
- The scanner's escape behaviour follows the Go code, not Redis: inside single quotes a lone backslash is dropped, where Redis keeps it.
- The manager's hooks that only return a constant are left out: `InitializeCluster`, `InitiateCluster`, `IsMemberLagging`, `Recover`, `JoinCurrentMemberToCluster`, `Demote`, `Follow` (apart from logging) and `GetHealthiestMember`. So are `NewManager` and the embedded MySQL manager.
- `GetReplicaRole`, `GetLeaderConn`, `GetLeaderMember`, `GetClusterLocalInfo`, `IsMemberHealthy` and the SQL queries are observations in `Engine`, since their code is not part of this model. The `cluster_info` query returns `None` on failure, which reads as the empty string.
- `GetClusterInfo` queries with no snapshot at all in `IsClusterInitialized`. The snapshot given to `IsLeader` inside `Promote` is nil. Both are modelled through the same observation of the replica role and the local string.
- `strings.EqualFold` is modelled as ASCII case folding. For the target "Leader" this is exact, since no other rune folds to its letters.
- Logging and the `resp` value of `Promote` are left out. So are contexts and the connection pool.
- `NewConfigurationStore` is left out: a fixed kubeconfig path, client construction and panics. So are the `GetConfigMap`, `GetPod`, `Update*`, `ListPods` and `GetClusterObj` wrappers and `ExecCmdWithPod`, which only forward to the Kubernetes client.
- Dcs.GetMemberWithName: the code of `Cluster.GetMemberWithName` is not part of this model; the model takes the first member with the name, while the caller relies only on some member with the name being found whenever one exists.
- `getClusterConfigFromConfigMap` and `getMemberFromPod` are not part of this model. They are the parameters `decodeConfig` and `memberOf`.
- ConfigurationStore.GetClusterFromKubernetes: the `&pod` aliasing in the pod loop is not modelled, since the loop panics before any of those addresses is used.
- Lease expiry, conditional writes and time arithmetic do not appear in the code modelled and are not modelled.
- `sort.Sort` itself is left out. Only the `Len`, `Swap` and `Less` it calls are modelled. `Len` is the length of the list and carries no further property.
- `buildBackupLabels` writes into the backup's own label map when there is one. The model returns the new map and does not model the mutation of the backup.
- DataProtection.CreatedCRName: Go's `len` and slicing count bytes, while the model counts runes. The two agree on ASCII names, which Kubernetes object names are.
- `getBackupToolByName`, `getBackupBatchV1Job` and `addTolerations` are left out. They are client calls and configuration parsing.
- MigrationApi.DeepCopy: `runtime.DeepCopyJSON` is a library function and is not part of this model. The model copies a JSON value structurally. It does not model the library's panic on values that are not JSON.
- MigrationApi.LowerCaseString: lowers only the ASCII letters, where Go's `strings.ToLower` lowers every Unicode letter; the step names are ASCII, so the two agree on them.
- The other enums and structs of `type.go` (`Phase`, `MigrationObjects`) carry no logic and are left out.

## Findings

| source | as written | input that shows it | evidently intended | confidence | as-written member | corrected member |
|---|---|---|---|---|---|---|
| cmd/probe/internal/component/configuration_store/config.go:190-196 | the failover is decoded only when the local `failover`, declared nil just before, is not nil, so it is never decoded | a failover config map with scheduledAt "100" | decode the failover whenever a failover config map was found | high, not executed | ConfigurationStore.FailoverIsDropped | ConfigurationStore.LoadClusterIntended |
| cmd/probe/internal/component/configuration_store/config.go:146-149 | `pods` is made with length 0 and then written at index `i`, which panics for the first pod | a pod list with one pod | one entry per pod, in order | high, not executed | ConfigurationStore.OnePodPanicsRefresh | ConfigurationStore.GetClusterIntended |
| cmd/probe/internal/component/configuration_store/config.go:185-188 | `members` is made with length 0 and then written at index `i`, which panics for the first pod | one pod passed to the loader | one member per pod, in order | high, not executed | ConfigurationStore.OnePodPanicsLoader | ConfigurationStore.LoadClusterIntended |
| pkg/lorry/engines/wesql/manager.go:297-305 | `&member` takes the address of the loop variable, which Go before 1.22 shares across iterations, so every entry ends up as the last member | members [healthy follower pod-1, leader pod-0] with leader "pod-0" | each healthy non-leader member itself | medium (depends on the Go version the module builds with), not executed | WesqlManager.AliasedResultNamesLeader | WesqlManager.HasOtherHealthyMembers |
| cmd/probe/internal/component/configuration_store/config.go:152-159 | `&cf` takes the address of the loop variable, so under Go before 1.22 both picks end up pointing at the last config map listed | the configuration map followed by any other map | the config maps that matched the names | medium (depends on the Go version the module builds with), not executed | ConfigurationStore.AliasedSelectionPicksLastMap | ConfigurationStore.SelectConfigMaps |
