# Verification of azcluster

A Dafny model of the parts of the azcluster command line whose correctness is not obvious from
reading one function, with proofs of what they promise. One module per component:

- `Calendar`, `Stamps`, `Captures`, `StampTexts`: two independent conversions from epoch seconds to civil
  dates, the fixed-width stamps made of them, the listing of captures that relies on text order being time
  order, and what the stamps read back as.
- `Octets`, `WebSocket`, `Bridge`: the hand-written RFC 6455 frame writer and reader, and the two loops
  that bridge byte streams over it, as a state machine over every interleaving, with frames torn off
  and frames added on the way.
- `Operations`, `DeploymentTree`, `WalkAgreement`, `NestedScopes`: the two recursive walks of an ARM
  deployment tree, and what they visit, told by the fields and ids of the operations. ARM is a finite map
  from scope and deployment to operations; a rank makes nesting well founded.
- `Durations`, `DurationTexts`, `TimingReport`, `ReportOrder`, `CaptureReport`: duration texts, and the report
  made from the timings walk.
- `StatePaths`, `DeployLog`, `Lifecycle`, `DeployRuns`: deploy, resume and delete as a protocol over local
  files, ARM and Key Vault. Every invocation has a budget of effects and stops when it is used up, which
  stands for a crash or for an outside call that fails at that point; what a command refuses by itself,
  and what the outside answers about the deployment, is explicit.
- `TokenCache`, `AccountChoice`: login, binding, refreshing and scoped minting over the saved token
  cache, with scopes on tokens and an explicit clock, and the two readings an ARM client is made from.
- `Base64`, `Shell`, `LdapCommand`, `Ldif`, `UidAllocation`, `LdifServer`: the base64 encoder, single-quoting,
  the commands built from both as a shell runs them, LDIF rendering and parsing, the uid counter, and the
  records of an add as the server applies them.
- `Retry`: the bounded retry loops, over any sequence of replies.
- `Wrappers`, `Strings`, `TextOrder`, `Sorting`: optional values and results, text helpers, byte-wise text
  order, and stable sorting as the standard library promises it.

Code that changes things step by step is modelled by methods, and classes where the source has objects
or files; each is proved against a specification function, and the lemmas are about those functions.
The network, clocks, random numbers and external services are inputs of the methods.

What the proofs turned up, each with an input and the exact condition:

- `resume` finalizes as Slurm whatever the marker names, so after an AKS deploy with `--no-wait` it can
  never finish (`DeployRuns.ResumeNeverFinishesAks`; `Lifecycle.Cluster.Resume`).
- `--skip-arm` takes the resource group from its arguments, so the saved state can name another group than
  the deployment was submitted in (`DeployRuns.SkipArmCanMisname`; `Lifecycle.Cluster.DeploySlurm`).
- `delete` takes the resource group from the saved state when there is one. If a later deploy with
  `--no-wait` went to another group, that deployment stays without a marker
  (`DeployRuns.DeleteCanStrand`; `Lifecycle.Cluster.Delete`).
- An AKS deploy of a new cluster saves an empty LDAP password, which a later Slurm deploy of the same
  name submits (`DeployRuns.AksFirstLeavesEmptyLdap`; `DeployRuns.RunFromNew`).
- An ARM client may pair a token with another account's subscription when a refreshed token lives
  less than five minutes (`AccountChoice.ShortLifetimeMispairs`; `AccountChoice.PairsExactly`), and later
  tokens may be another account's once one that expires later is saved
  (`AccountChoice.LaterLoginTakesOver`; `AccountChoice.CallbackPairsExactly`).
- Which of two equally long rows of one key a capture keeps, and so the state it shows, depends on the
  order of collection (`TimingReport.StateDependsOnOrder`; `ReportOrder.OrderMattersExactly`).
- A uid number can be given out twice after an add was cut off between its two records, or when a
  number was chosen by hand at or above the counter (`UidAllocation.CutOffAddRepeats`,
  `UidAllocation.ChosenAheadRepeats`; for runs of adds `UidAllocation.AddsKeepDistinctExactly` and
  `UidAllocation.AllottedRunsExactly`).

The last resort of the read loop reports "failed after 6 attempts" exactly after a successful token
refresh on the sixth attempt that follows five transient replies (`Retry.BailExactly`).

`dafny verify dfyconfig.toml` checks everything.

## Model

| member | source | states |
|---|---|---|
| Calendar.CivilFromDays | crates/azcluster-cli/src/main.rs:1879-1891 | For every day number in range the result is a valid Gregorian date whose recursive day count from 1970-01-01 is that number; every unsigned intermediate fits its type, so no subtraction underflows |
| Calendar.YearOfEraCorrect | crates/azcluster-cli/src/main.rs:1882-1884 | The closed form for the year within a 400-year era is the year whose days contain the given day, leap days at the end of 4-, 100- and 400-year periods included |
| Calendar.DayNumberInjective | crates/azcluster-cli/src/main.rs:1879-1891 | No two valid dates have one day number, so the date found is the only one |
| Calendar.CivilOfDayNumber | crates/azcluster-cli/src/main.rs:1879-1891 | The other direction: converting the day number of any valid date gives that date back |
| Calendar.EpochToYmdhms | crates/azcluster-cli/src/timings.rs:284-327 | The loops give the date the closed form gives, and a clock time that spells the rest of the timestamp, for every timestamp whose year fits 32 bits |
| Calendar.YearLoop | crates/azcluster-cli/src/timings.rs:292-301 | The year loop ends in the year that contains the day, with the day inside it |
| Calendar.MonthLoop | crates/azcluster-cli/src/timings.rs:302-325 | The month loop ends at a month no later than December with a day inside that month |
| Stamps.CurrentUtcStamp | crates/azcluster-cli/src/timings.rs:275-282 | The stamp of the loops is the fixed-width text of the closed form's date and time |
| Stamps.StampOrderIsTimeOrder | crates/azcluster-cli/src/main.rs:1830-1842 | For any separators, so for all three stamp formats: through the year 9999 byte-wise text order is time order, equal stamps are equal seconds, and all stamps have one width |
| Stamps.StampOrderEndsWithYear9999 | crates/azcluster-cli/src/main.rs:1863-1877 | The bound is exact: the first second of the year 10000 sorts before the last one of 9999 |
| Stamps.AttemptsAreToldApart | crates/azcluster-cli/src/aks/deploy.rs:53-70 | Attempts of one cluster have one name exactly when they are of one kind, Slurm or AKS, and begin in one second; names of one kind and start times sort by time |
| StampTexts.StampsRead | crates/azcluster-cli/src/main.rs:1830-1877 | Through the year 9999, read digit by digit in its format, every stamp (attempt name of either kind, start time, capture name) is a valid date and time, and its day number and clock add up to the second it was made from |
| TextOrder.LessExactly | crates/azcluster-cli/src/timings.rs:338 | The less of two texts is the one with the smaller character where they first differ, or else the shorter |
| Captures.ListForCluster | crates/azcluster-cli/src/timings.rs:329-348 | The listing is the bodies of the chosen files in order, or the first unreadable one; a missing directory lists nothing |
| Captures.CapturesAreJson | crates/azcluster-cli/src/timings.rs:337-346 | The file of a capture has the extension the listing asks for |
| Captures.JsonExactly | crates/azcluster-cli/src/timings.rs:337-341 | A file is taken for a capture exactly when something comes before its final .json |
| Captures.NewestFirstIsMostRecent | crates/azcluster-cli/src/timings.rs:337-346 | Of a directory that holds stamp-named captures and files of other kinds, exactly captures are listed, strictly newest first; one is left out only when a limit N > 0 is used up, and then it is older than all N listed |
| WebSocket.WsWriter.WriteFrame | crates/azcluster-cli/src/bastion/tunnel.rs:260-283 | The connection receives exactly one frame of the RFC layout, final, masked, in the shortest length form, or a prefix of it when a write fails |
| WebSocket.WsReader.ReadFrame | crates/azcluster-cli/src/bastion/tunnel.rs:206-251 | Result and remaining input are those of the decoding specification, errors included; what a frame read means for the application follows from its opcode alone |
| WebSocket.XorInPlace | crates/azcluster-cli/src/bastion/tunnel.rs:239-243 | The in-place loop masks every byte with its byte of the key |
| WebSocket.NetworkOrder | crates/azcluster-cli/src/bastion/tunnel.rs:210-220 | Lengths go out most significant byte first: byte i of a count-byte number is its digit of weight 256^(count-1-i) |
| WebSocket.DecodeEncode | crates/azcluster-cli/src/bastion/tunnel.rs:206-251 | Every frame sections 5.2 and 5.3 of RFC 6455 allow (three length forms, masked or not, any reserved bits) up to 16 MiB is read as its class and payload, and exactly its bytes are consumed |
| WebSocket.DecodeOversize | crates/azcluster-cli/src/bastion/tunnel.rs:225-227 | A frame above the cap is refused with its size, and only its header is consumed |
| WebSocket.DecodeTruncated | crates/azcluster-cli/src/bastion/tunnel.rs:206-251 | No proper prefix of a frame is mistaken for a frame |
| WebSocket.StreamRoundTrip | crates/azcluster-cli/src/bastion/tunnel.rs:205-283 | Reading what was written for any list of opcodes below 16, payloads up to 16 MiB and mask keys returns the same frames in order, each as its opcode tells (continuation, text and binary carry the payload, 8 closes, 9 and 10 ping and pong), and consumes exactly the written bytes |
| WebSocket.EndToEnd | crates/azcluster-cli/src/bastion/tunnel.rs:205-283 | Driving the writer over such a list and the reader over its output yields frames in order that mean what their opcodes tell, and leaves no byte |
| Bridge.StepKeeps | crates/azcluster-cli/src/bastion/tunnel.rs:92-139 | Every step keeps the books of both directions: of either loop, of the network, of an intermediary, and the end of one loop, which drops the other inside a frame or a delivery |
| Bridge.CloseCanTear | crates/azcluster-cli/src/bastion/tunnel.rs:135-138 | From any sound state in which Close has arrived, one step reaches Close and tears off the frame being written, at any point of it |
| Bridge.ReadIsNextFrame | crates/azcluster-cli/src/bastion/tunnel.rs:115-132 | However bytes arrive, what the reader reads is the next frame put on the connection, whole |
| Bridge.ArrivedFrameIsRead | crates/azcluster-cli/src/bastion/tunnel.rs:115-132 | A frame that has arrived completely, within the cap, is read |
| Bridge.DeliveredIsPrefix | crates/azcluster-cli/src/bastion/tunnel.rs:115-132 | Delivered bytes are a prefix of the data payloads sent before the first Close, and all of them once Close is read |
| Bridge.EveryRunDeliversAPrefix | crates/azcluster-cli/src/bastion/tunnel.rs:92-139 | In every interleaving, with torn frames, failed writes and added frames: delivered is a prefix of the sent data, told by opcodes (0, 1 and 2 carry data, 8 closes), all of it when Close was read; and if added frames carry no data and do not close, the same holds of the local input of the other side |
| Durations.ParseIso8601Duration | crates/azcluster-cli/src/timings.rs:35-58 | The loop computes the recursive scan, with exact decimals |
| Durations.ParsesExactly | crates/azcluster-cli/src/arm/client.rs:1023-1046 | Accepted are exactly PT followed by numbers with units H, M or S and perhaps trailing digits; the value is the sum of the parts, trailing digits counting nothing |
| DurationTexts.NumbersExactly | crates/azcluster-cli/src/timings.rs:48-52 | A number is accepted exactly with at most one dot and at least one digit; its value is what the digits before the dot spell plus those behind over their power of ten |
| DurationTexts.ClockTextReads | crates/azcluster-cli/src/timings.rs:35-58 | PT, hours, H, minutes, M, seconds with or without decimals, S: the value is 3600 h + 60 m + s plus the decimals |
| Operations.DedupOpsByTarget | crates/azcluster-cli/src/arm/client.rs:123-142 | The map-and-order loop yields first-seen ids with their last operation |
| Operations.DedupKeepsLast | crates/azcluster-cli/src/arm/client.rs:123-142 | Every id occurs once, with the last operation seen for it, in order of first appearance; exactly the ids of the input remain and id-less operations are dropped |
| Operations.DedupIdempotent | crates/azcluster-cli/src/arm/client.rs:123-142 | Removing duplicates again changes nothing |
| DeploymentTree.ListDeploymentOperationsRecursive | crates/azcluster-cli/src/arm/client.rs:672-676 | The progress walk is the pre-order flattening of the deduplicated tree |
| DeploymentTree.CollectSubOpsInto | crates/azcluster-cli/src/arm/client.rs:678-698 | Appends the flattening of one subscription deployment at its depth |
| DeploymentTree.CollectGroupOpsInto | crates/azcluster-cli/src/arm/client.rs:700-723 | Appends the flattening of one group deployment at its depth |
| DeploymentTree.ReportsExactlyTheTree | crates/azcluster-cli/src/arm/client.rs:672-723 | An entry is reported if and only if some deployment reached by a path of nested ones lists its operation; its parent is that deployment and its depth min(255, path length) |
| DeploymentTree.CollectSubOperations | crates/azcluster-cli/src/timings.rs:150-173 | The timings walk of a subscription deployment: rows of the level, then of everything nested; a failed listing fails the root and is empty below |
| DeploymentTree.CollectGroupOperations | crates/azcluster-cli/src/timings.rs:175-197 | The same for group deployments |
| DeploymentTree.WalkedBy | crates/azcluster-cli/src/timings.rs:150-197 | A row is collected if and only if some listed operation makes it or nests a deployment that collects it |
| WalkAgreement.WalksAgree | crates/azcluster-cli/src/timings.rs:150-221 | For every finite tree with id, type and name present, a group that is present or read alike from the id, canonical spelling and agreeing duplicates, recursing on duplicates and removing them first report the same (type, name, deployment) keys |
| WalkAgreement.ProperIdsReadAlike | crates/azcluster-cli/src/timings.rs:60-87 | Both walks read the same group from an id that starts with a slash and has no empty segments, at group or subscription scope |
| WalkAgreement.SubscriptionScopeIsCanonical | crates/azcluster-cli/src/arm/client.rs:83-121 | A deployment nested at subscription scope, listed without a group field under a proper id, meets the conditions of the agreement, and both walks descend to it at that scope |
| WalkAgreement.SpellingMatters | crates/azcluster-cli/src/arm/client.rs:83-111 | With another spelling of the deployments type the walks differ: what the nested deployment lists is reported by one and missing from the other |
| WalkAgreement.IdMatters | crates/azcluster-cli/src/arm/client.rs:123-142 | An operation without a target id is collected by one walk and dropped by the other |
| NestedScopes.IdReads | crates/azcluster-cli/src/timings.rs:60-76 | From an id of non-empty segments both walks read as group the segment behind the first resourceGroups, in any case, and none when there is no such segment |
| NestedScopes.GroupOfResourceId | crates/azcluster-cli/src/arm/client.rs:113-121 | From /subscriptions/S/resourceGroups/G and any segments behind both walks read the group G |
| NestedScopes.IdNames | crates/azcluster-cli/src/timings.rs:77-87 | Type and name are the three segments behind the first providers, or are not there |
| NestedScopes.PlacesExactly | crates/azcluster-cli/src/arm/client.rs:83-111 | For a well-kept operation with a proper id, both walks descend exactly to the deployment of its name in the group of the deployment above, or at subscription scope in the group its field, else its id, tells; "" or none is the subscription |
| NestedScopes.ReportsWhatIsPlaced | crates/azcluster-cli/src/arm/client.rs:672-723 | On well-kept trees with proper ids the progress walk reports exactly the last operation on each id of every deployment that such placements lead to, with that deployment as parent and the number of placements, up to 255, as depth |
| NestedScopes.WalksWhatIsPlaced | crates/azcluster-cli/src/timings.rs:150-197 | On such trees the timings walk collects exactly the rows of the operations of those deployments: type, name and state as in the fields, and the seconds the duration text spells, 0 without one that can be read |
| NestedScopes.NestedIsShown | crates/azcluster-cli/src/arm/client.rs:690-696 | What a deployment nested by the root lists, in the group the operation tells or at subscription scope, is in both walks: at depth 1 under its name, and as a row |
| NestedScopes.StaysInGroup | crates/azcluster-cli/src/arm/client.rs:700-723 | Below a group everything is listed in that group, in whatever state the tree is kept |
| NestedScopes.RowOfId | crates/azcluster-cli/src/timings.rs:89-148 | Without type and name fields the row has those of the id |
| TimingReport.DedupBy | crates/azcluster-cli/src/timings.rs:213-221 | The in-place pass keeps the first of each run of equal keys |
| TimingReport.Capture | crates/azcluster-cli/src/timings.rs:199-227 | Operations and total of a capture are the report of the timings walk |
| TimingReport.ReportKeepsLongest | crates/azcluster-cli/src/timings.rs:206-221 | After sort and dedup each key occurs once, ascending, with the longest duration collected for it; exactly the keys with a type remain |
| TimingReport.TotalOfReport | crates/azcluster-cli/src/timings.rs:222-227 | The total is the sum of the maxima over the keys that are not deployments |
| TimingReport.ReportIgnoresOrder | crates/azcluster-cli/src/timings.rs:206-227 | Keys, durations and total depend on the set of rows only |
| TimingReport.StateDependsOnOrder | crates/azcluster-cli/src/timings.rs:206-221 | An input on which the order matters: of two rows with equal key and duration the first collected stays |
| ReportOrder.KeepsFirstCollected | crates/azcluster-cli/src/timings.rs:206-221 | Of the longest rows of a key the report keeps the one collected first |
| ReportOrder.OrderMattersExactly | crates/azcluster-cli/src/timings.rs:206-221 | The report of a list of rows is the same for every order of them exactly when no two different rows with a type share a key and both carry its longest duration |
| TimingReport.CaptureReportsTheProgressTree | crates/azcluster-cli/src/timings.rs:199-227 | The keys in a capture are exactly those of the progress walk |
| CaptureReport.CaptureShowsLongest | crates/azcluster-cli/src/timings.rs:199-221 | On well-kept trees with proper ids the capture has, ordered by type, name and deployment, exactly one row for each key of the operations that placements lead to; it is the row of one of them, duration text and state included, and none with its key spells more seconds |
| CaptureReport.TotalAddsLongest | crates/azcluster-cli/src/timings.rs:222-227 | The total is the sum, once for each key that is not a deployment, of the largest duration spelled by the operations with that key |
| StatePaths.ShareAFileExactly | crates/azcluster-cli/src/cluster_state.rs:94-113 | Two clusters share a file exactly when their names are equal or one is the other followed by -secrets or -pending |
| StatePaths.OwnFilesDiffer | crates/azcluster-cli/src/cluster_state.rs:94-113 | State, secrets and pending marker of one cluster are three files |
| StatePaths.OtherFilesAreStates | crates/azcluster-cli/src/cluster_state.rs:94-113 | The secrets file and the marker of a cluster are the state files of the names with -secrets and -pending behind |
| Lifecycle.Cluster.FinalizeSlurm | crates/azcluster-cli/src/main.rs:1671-1804 | Only a deployment submitted as Slurm that has succeeded is finalized, for any other nothing changes; state file, unchanged secrets and, if the upload succeeds, a vault bundle equal to the local secrets |
| Lifecycle.Cluster.FinishAks | crates/azcluster-cli/src/aks/deploy.rs:303-402 | The same for a deployment submitted as AKS whose outputs name a vault and whose operators install; then the marker is removed |
| Lifecycle.Cluster.DeploySlurm | crates/azcluster-cli/src/main.rs:1181-1492 | For every combination of flags, every answer and every number of effects it gets to: the secrets, marker, state, log and vaults it leaves, stopped, refused or finished (`Leaves`). Given enough effects it completes exactly when the deployment succeeds and, with --skip-arm, the marker names one submitted as Slurm; then the state names the group submitted in exactly when the arguments repeat it |
| Lifecycle.Cluster.DeployAks | crates/azcluster-cli/src/aks/deploy.rs:7-196 | The same for an AKS deploy, which shares the files, saves secrets before it looks for a marker, and needs a deployment submitted as AKS with a vault among its outputs |
| Lifecycle.Cluster.Resume | crates/azcluster-cli/src/main.rs:1494-1594 | Given enough steps it completes exactly when the marker names a deployment submitted as Slurm that has succeeded and its group is found; it finishes in the group submitted in; stopped, it leaves the marker and at most state, vault and log changed in this order; refused, it changes nothing |
| Lifecycle.Cluster.Delete | crates/azcluster-cli/src/main.rs:2358-2395 | Which group is deleted; secrets and vaults stay; the latest submission stays tracked exactly when the group deleted is the one it is outstanding in |
| Lifecycle.CompletesExactly | crates/azcluster-cli/src/main.rs:1494-1509 | What completing takes, from flags, marker, submissions and answers alone, for both kinds of deploy and for resume |
| Lifecycle.SlurmSecretsKept | crates/azcluster-cli/src/main.rs:1275-1328 | The choice of secrets preserves what was saved, submits what it saves with accounting as asked, and is stable under re-invocation |
| Lifecycle.AksSecretsKept | crates/azcluster-cli/src/aks/deploy.rs:228-256 | The same for the AKS choice |
| Lifecycle.SubmittedLdapPassword | crates/azcluster-cli/src/main.rs:1275-1328 | The submitted LDAP password is empty exactly when the secrets file already held an empty one |
| DeployLog.MarkerNamesItOrLater | crates/azcluster-cli/src/main.rs:1401-1424 | While the latest submission is outstanding and no delete went astray, a marker exists and names it or an attempt begun after it |
| DeployLog.KnownMarkerIsOutstanding | crates/azcluster-cli/src/main.rs:1494-1509 | A marker whose deployment ARM knows names the outstanding one, if there is one |
| DeployRuns.Run | crates/azcluster-cli/src/main.rs:1181-1594 | Any sequence of deploys (Slurm or AKS, every flag), resumes and deletes, each stopped at any step, keeps every state good and loses nothing earlier states had |
| DeployRuns.SecretsNeverChange | crates/azcluster-cli/src/main.rs:1275-1328 | Between any two moments of such runs a saved LDAP password, MySQL password or complete key pair never changes or disappears, and every submission carries what the file holds from then on |
| DeployRuns.SubmissionsAgree | crates/azcluster-cli/src/main.rs:1275-1400 | Any two submissions of one cluster carry the same key, LDAP password and MySQL password |
| DeployRuns.SlurmRecovers | crates/azcluster-cli/src/main.rs:1401-1490 | A Slurm deploy that got as far as its submission, stopped anywhere after it or told not to wait, followed by any resumes stopped anywhere, is completed by a resume that is not stopped once the deployment has succeeded: no marker, nothing outstanding, the state naming its group, the secrets as saved |
| DeployRuns.AksRecovers | crates/azcluster-cli/src/aks/deploy.rs:111-194 | The same for an AKS deploy and deploys with --skip-arm |
| DeployRuns.RunFromNew | crates/azcluster-cli/src/main.rs:1275-1328 | For a new cluster, over every run stopped anywhere: the saved key pair is (public, private) as generated for the first invocation that saved secrets; the LDAP password is the one generated for it when it was a Slurm deploy and empty when it was an AKS deploy; the MySQL password is the one generated for the first accounting deploy that saved; every submission carries the trimmed public half of that pair and these passwords |
| DeployRuns.DeleteCanStrand | crates/azcluster-cli/src/main.rs:2358-2395 | A concrete run in which delete removes the saved state's group while the latest submission is outstanding in another one, which is then left without a marker |
| DeployRuns.AksFirstLeavesEmptyLdap | crates/azcluster-cli/src/aks/deploy.rs:228-256 | A concrete run in which a Slurm deploy submits an empty LDAP password because an AKS deploy saved one |
| DeployRuns.ResumeNeverFinishesAks | crates/azcluster-cli/src/main.rs:1697-1698 | After an AKS deploy without waiting, no sequence of resumes finishes it or changes anything, whatever the outside answers |
| DeployRuns.SkipArmCanMisname | crates/azcluster-cli/src/main.rs:1224-1227 | A concrete run in which --skip-arm with another group finalizes a deployment under that group, which delete then removes, while the group submitted in stays |
| Lifecycle.OneTarget | crates/azcluster-cli/src/main.rs:1697-1698 | No deployment can be finalized both as Slurm and as AKS |
| TokenCache.TokenProvider.GetToken | crates/azcluster-cli/src/auth/token_provider.rs:36-56 | A token is returned exactly when the subscription is cached and its token lasts five minutes more, or it has a refresh token and the answer grants one; a lasting token is returned as it stands, else the refreshed one replaces the entry; on any error the cache is unchanged |
| TokenCache.TokenProvider.GetVaultToken | crates/azcluster-cli/src/auth/token_provider.rs:58-77 | A vault-scope token, kept in the vault slot; the cached one as it stands while it lasts, else a minted one; it fails exactly when none lasts and none is granted; no key, account or refresh token is lost |
| TokenCache.TokenProvider.GetGrafanaToken | crates/azcluster-cli/src/auth/token_provider.rs:79-91 | A Grafana-scope token, exactly when the account has a refresh token and the answer grants one; the cache does not change |
| TokenCache.TokenProvider.MintScoped | crates/azcluster-cli/src/auth/token_provider.rs:93-166 | Minting stores a token of the asked scope and keeps or renews the refresh token |
| TokenCache.TokenProvider.Refresh | crates/azcluster-cli/src/auth/token_provider.rs:168-227 | A refresh replaces one entry, with the old refresh token when none is sent |
| TokenCache.PersistUnbound | crates/azcluster-cli/src/auth/token_provider.rs:240-250 | A login without a subscription is kept under the pending key of its tenant, any other under its subscription |
| TokenCache.BindSubscription | crates/azcluster-cli/src/auth/token_provider.rs:252-264 | Binding changes the key set exactly by replacing the pending key by the subscription |
| TokenCache.TryRebindCached | crates/azcluster-cli/src/auth/token_provider.rs:266-333 | Rebinding replaces the key of a usable account with the latest expiry by the target, without losing its refresh token; nothing is found exactly when no account is usable, and it fails exactly when the picked one has no lasting token by then and none is granted |
| TokenCache.Freshen | crates/azcluster-cli/src/auth/token_provider.rs:298-317 | The account to rebind, valid as it stands or refreshed in place; it fails exactly when neither is possible |
| AccountChoice.GetAccessToken | crates/azcluster-cli/src/main.rs:895-905 | The token is that of an account with the latest expiry, refreshed if need be; it fails exactly when that account can serve none |
| AccountChoice.CurrentSubscriptionId | crates/azcluster-cli/src/main.rs:907-916 | The subscription of a named account with the latest expiry; an error exactly when no account is named |
| AccountChoice.ArmClient | crates/azcluster-cli/src/main.rs:918-923 | A client is made exactly when the first reading serves a token and some account is named. With distinct expiries and lifetimes of at least five minutes, token and subscription belong to one account, even when the first reading refreshes the cache |
| AccountChoice.PairsExactly | crates/azcluster-cli/src/main.rs:895-923 | For every order of the map they belong together exactly when no other named account expires as late as the refreshed one |
| AccountChoice.LongLivedIsNotOvertaken | crates/azcluster-cli/src/main.rs:895-923 | A refreshed token of five minutes or more outlives every other cached one |
| AccountChoice.ShortLifetimeMispairs | crates/azcluster-cli/src/main.rs:895-923 | A concrete cache in which a shorter lifetime pairs a token with another account's subscription |
| AccountChoice.ServeCallbacks | crates/azcluster-cli/src/main.rs:918-923 | The refresh callback chooses anew on each call: while nothing else changes the cache and refreshed tokens live five minutes, it is always the account of the client's subscription |
| AccountChoice.CallbackPairsExactly | crates/azcluster-cli/src/main.rs:918-923 | Whatever changed since, the callback chooses the client's account for every order of the map exactly when that account expires last |
| AccountChoice.LaterLoginTakesOver | crates/azcluster-cli/src/main.rs:895-923 | Another account saved meanwhile with a later expiry takes the callback over |
| AccountChoice.Perform | crates/azcluster-cli/src/auth/token_provider.rs:36-333 | Every operation keeps keys and scopes sound; reading, minting and refreshing lose no account and no refresh token |
| AccountChoice.RunFromEmpty | crates/azcluster-cli/src/auth/cache.rs:62-132 | After any sequence of operations from an empty cache every key names its account's subscription or is pending, access slots hold management tokens and vault slots vault tokens |
| Base64.B64Encode | crates/azcluster-cli/src/user.rs:114-141 | The loop over the table yields the encoding of section 4 of RFC 4648, group by group, with its padding |
| Base64.DecodeEncode | crates/azcluster-cli/src/user.rs:114-141 | A canonical decoder of section 4 of RFC 4648 inverts it for every byte string |
| Base64.EncodeDecode | crates/azcluster-cli/src/user.rs:114-141 | Every text the decoder accepts is the encoding of its bytes, so texts and byte strings correspond one to one |
| Base64.EncodeInjective | crates/azcluster-cli/src/user.rs:114-141 | Distinct byte strings have distinct encodings |
| Base64.Shape | crates/azcluster-cli/src/user.rs:114-141 | Length 4*ceil(n/3); alphabet characters, then exactly the padding due |
| Base64.Vectors | crates/azcluster-cli/src/user.rs:114-141 | Vectors of section 10 of RFC 4648 |
| Shell.QuotedReadsBack | crates/azcluster-cli/src/aks/mod.rs:10-12 | A shell word reader takes a quoted text as it was, whatever it contains, and goes on behind it |
| Shell.QuotedIsOneWord | crates/azcluster-cli/src/aks/mod.rs:10-12 | Alone or before a delimiter it is one whole word with exactly that value |
| Shell.QuotedArgument | crates/azcluster-cli/src/aks/operators.rs:155-175 | In the scripts' printf pipes a quoted manifest is one argument, and the command ends at the pipe |
| Shell.AssignmentReads | crates/azcluster-cli/src/user.rs:393-412 | An assignment from a base64 literal, as in the search and write commands, leaves the original bytes in the variable, less newlines at the end |
| Shell.WriteCmdDelivers | crates/azcluster-cli/src/user.rs:368-382 | The write command hands password and LDIF text over, and the tool line behind is the same for all of them |
| LdapCommand.CommandRuns | crates/azcluster-cli/src/user.rs:368-382 | Read by a shell with both variables expanded, the command pipes the LDIF text into the tool, which binds as the administrator with the password as its -w argument; of both only newlines at the end are lost |
| Shell.SurvivesExactly | crates/azcluster-cli/src/user.rs:368-382 | A value arrives unchanged exactly when it does not end in a newline; nothing but such newlines is lost |
| Ldif.RenderUserAddLdif | crates/azcluster-cli/src/user.rs:27-46 | The appended text is the lines of the user entry, one sshPublicKey line for each key |
| Ldif.ParseLdifUserRows | crates/azcluster-cli/src/user.rs:625-669 | The loop yields the rows of the entries between blank lines, those with a uid, sorted stably |
| Ldif.FieldExactly | crates/azcluster-cli/src/user.rs:637-650 | A line carries a field exactly when it is key, colon, spaces, value and carriage returns, the key not starting with # and without a colon |
| Ldif.UnreadableIsLast | crates/azcluster-cli/src/user.rs:664-668 | A row whose number cannot be read is listed behind every number that can |
| Ldif.ValueStays | crates/azcluster-cli/src/user.rs:637-650 | A one-line value is read back exactly when it neither starts with a space nor ends with a carriage return |
| Ldif.UserReads | crates/azcluster-cli/src/user.rs:27-46 | The entry of a representable user reads back as its row, every field intact |
| Ldif.BumpReads | crates/azcluster-cli/src/user.rs:73-79 | The counter's record makes no row |
| Ldif.ListingRoundTrip | crates/azcluster-cli/src/user.rs:625-669 | Parsing any blank-line-joined renderings of users and counter records yields one row for each user with all fields intact, none for the counter, sorted by uid number and then name |
| UidAllocation.FetchNextUid | crates/azcluster-cli/src/user.rs:418-437 | The first uidNumber line decides |
| UidAllocation.CounterReadsBack | crates/azcluster-cli/src/user.rs:418-437 | The counter the directory holds is the number read |
| UidAllocation.Directory.UserAdd | crates/azcluster-cli/src/user.rs:485-585 | What the directory holds after an add that reached it in whole or in part; success exactly when name and stream were accepted whole and the key pair and administrator commands succeed |
| UidAllocation.Directory.Perform | crates/azcluster-cli/src/user.rs:485-613 | A sequence of adds and removals leaves what the run specification says |
| UidAllocation.AddedUserIsListed | crates/azcluster-cli/src/user.rs:554-560 | A user added under an accepted name is listed with every field, among any representable entries |
| LdifServer.UserSays | crates/azcluster-cli/src/user.rs:27-46 | Read field by field, a rendered user says its name, classes, numbers, home directory, shell and comment, and every key trimmed |
| LdifServer.BumpSays | crates/azcluster-cli/src/user.rs:73-79 | Read field by field, the counter's record replaces uidNumber of the counter by the next number |
| LdifServer.TextOfAddApplies | crates/azcluster-cli/src/user.rs:541-561 | Applying the records of the rendered text, as many of them as arrive, leaves what the model of an add says: the user under a free name with its number, and the counter at the number after it |
| UidAllocation.AllottedIsUnused | crates/azcluster-cli/src/user.rs:541-561 | While the counter is ahead of all numbers, an allotted number is unused |
| UidAllocation.GivenIsUnusedExactly | crates/azcluster-cli/src/user.rs:541-561 | An add, its number allotted or chosen, keeps numbers distinct exactly when nobody has that number |
| UidAllocation.AddsKeepDistinctExactly | crates/azcluster-cli/src/user.rs:541-561 | A run of adds, of either kind and carried out in whole or in part, ends with distinct numbers exactly when it starts with distinct ones, gives no number twice and none in use; the numbers given follow from names and counter alone |
| UidAllocation.AllottedRunsExactly | crates/azcluster-cli/src/user.rs:541-561 | From a counter that is ahead, allotted adds end with distinct numbers exactly when no new entry follows one cut off from its counter record before a later record moved the counter |
| UidAllocation.StaysAheadExactly | crates/azcluster-cli/src/user.rs:541-561 | The counter stays ahead exactly when no number is chosen at or above it, its record is applied with every entry it numbered, and it does not wrap |
| UidAllocation.SeededRunsKeepDistinct | crates/azcluster-cli/src/user.rs:541-561 | From a new cluster, runs of allotted adds carried out whole or not at all, and removals, never give two users one number |
| UidAllocation.CutOffAddRepeats | crates/azcluster-cli/src/user.rs:554-560 | An add cut off between its two records leaves its number to be given out again |
| UidAllocation.ChosenAheadRepeats | crates/azcluster-cli/src/user.rs:541-544 | Every number chosen by hand at or above the counter is given out again once enough users have been added |
| Retry.ArmClient.Get | crates/azcluster-cli/src/arm/client.rs:219-253 | The loop is the recursive retry specification: result, and every send, renewal and pause in order |
| Retry.ArmClient.PostEmpty | crates/azcluster-cli/src/arm/client.rs:847-870 | Its result and events are those of the specification; the end behind the loop is never reached |
| Retry.PostEnds | crates/azcluster-cli/src/arm/client.rs:847-870 | One send, and a second exactly when the token expired and was renewed; no pause; the last reply decides the result, a success exactly when it is one and readable; every send carries the token in force |
| Retry.GetIsBounded | crates/azcluster-cli/src/arm/client.rs:219-253 | At most six sends, one refresh and thirty seconds of sleep, and every send carries the token in force |
| Retry.BailExactly | crates/azcluster-cli/src/arm/client.rs:219-253 | The final bail is reached exactly when five transient replies are followed by an expired token that can be renewed on the sixth attempt |
| Retry.SucceedsExactly | crates/azcluster-cli/src/arm/client.rs:219-253 | A read succeeds exactly when one of the first six replies is a readable success after only transient trouble and at most one renewal |
| Retry.GetEnds | crates/azcluster-cli/src/arm/client.rs:219-253 | A read that ends at attempt k has sent k+1 times and paused 2(j+1) seconds after each transient reply j, and reply k alone decides the result, failures included |
| Retry.EveryReadEnds | crates/azcluster-cli/src/arm/client.rs:219-253 | Every read ends so at one of six attempts, except exactly those that reach the final bail |
| Retry.ExpiredExactly | crates/azcluster-cli/src/arm/client.rs:196-201 | A token counts as expired exactly on status 401 with one of three codes somewhere in the body |
| Retry.PropagationExactly | crates/azcluster-cli/src/keyvault/client.rs:167-180 | Which denials are waited out, told by the words the message has in any case |
| Retry.WithRbacRetry | crates/azcluster-cli/src/keyvault/client.rs:141-164 | The result is that of the first attempt that is not a propagation denial, or of the tenth, after thirty seconds for each earlier one; the end behind the loop is never reached |

## Left out

- HTTP, TLS, OAuth, Bastion, Kubernetes, process and terminal plumbing: only their results appear, as inputs.
- TOML, JSON and YAML encoding, JWT claims, key generation and hashing: a saved value is loaded as it was saved.
- Floating point: durations are exact decimals and totals exact sums; rounding and overflow to infinity are not modelled.
- Resource-group creation, tags, progress output and timing capture inside a deploy: no effect on secrets, marker, submission or vault; the manifest secret beside the secrets bundle is not modelled either.
- Torn file writes, several laptops and concurrent invocations: a write is atomic and one invocation runs at a time, which is all the code provides for; distinct clusters are assumed not to share files, as `StatePaths.ShareAFileExactly` delimits.
- Attempt names: attempts of one cluster are assumed to have different names; `Stamps.AttemptsAreToldApart` says when they do.
- Templates given by hand: a deployment has the outputs of the built-in template of its kind, except that the vault and group outputs may be missing.
- Calendar.CivilFromDays: day numbers within 719468 of the largest 64-bit integer are outside, because the first addition overflows there.
- Calendar.EpochToYmdhms: timestamps whose year exceeds 32 bits are outside, because the year counter overflows there.
- Scheduling of the bridge: the loops are steps of a state machine; fairness, and so eventual delivery, is not modelled.
- In-place buffers of the frame reader: masking updates an array, other buffers are sequences.
- Sorting: the standard sort is a specification function, and its own loop is not modelled.
- Cycles in ARM nesting: the tree is finite, which ARM guarantees and the code relies on.
- Shell expansions, globbing and comments: the word reader stops at them; no literal it is applied to contains any outside quotes. NUL bytes in a secret, which a shell drops, are not modelled.
- Retry.WithRbacRetry: error messages are lowered as ASCII; other letters whose lower case is ASCII are not.
- Ldif.UserReads: a key with a line break inside, or a username that starts with a space, is outside; `UidAllocation.AddedUserIsListed` shows that adds render neither.
- UidAllocation.AddsKeepDistinctExactly: removals, which free numbers, are not among its steps; `UidAllocation.SeededRunsKeepDistinct` allows them.
- The LDAP server: it applies the records of a stream in order and refuses a name it has; schema checks and other attributes are not modelled.
- SSH routes, name validators other than usernames, resource-group filters, health aggregation and tables: settled by reading one function.
