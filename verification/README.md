# A verified model of a home-cloud platform

The platform serves an app market, an authentication front, a TLS router, a
registry that tells apps where the services they consume live, an app installer
and a WireGuard host tool. This project models the parts of it that hold a
protocol, a cache, a parser or an algorithm of their own, and proves what those
parts are for. `dafny verify dfyconfig.toml` checks everything.

How it is laid out, one module per component:

- `CatalogHistory.dfy`, `Catalog.dfy` (module `MarketCatalog`): the market's index over
  sidecar files and chart archives with its bounded cache. The disk carries a
  modification time with every file; steps are writes with any contents and times,
  deletes, rescans, evictions and lookups.
- `Substitution.dfy`, `NginxTemplate.dfy`: expanding the gateway's configuration
  template, with the replacements taken in any order.
- `ClientHello.dfy`: the server-name parser of sections 4.1.2 and 5.1 of RFC 8446 and
  section 3 of RFC 6066, and the serialiser it undoes.
- `Applications.dfy`, `RegistrySpec.dfy`, `ProviderRegistry.dfy`: the provider registry
  as values over a history of calls, and as slices on a heap that are filtered in place.
- `ConsumerReconciler.dfy` (module `EnvVars`), `SystemServer.dfy`, `AddressChanges.dfy`,
  `SystemRuns.dfy`: the environment variables of consumers, the events that keep them in
  step with the registry, and those that do not.
- `PublicDomains.dfy`, `PublicDomainWatcher.dfy`: publishing public hosts, and reading
  them back in the authentication service.
- `RateLimiter.dfy`, `AuthSessions.dfy`: failed logins over time; sessions, second
  factors and logout as a state machine.
- `WebSocketHub.dfy`, `ImagePuller.dfy`: two concurrent pieces as steps that interleave
  freely.
- `ValuesMerge.dfy`, `WireGuardConfig.dfy`, `UniqueName.dfy`, `Resp.dfy`: deep merge of
  chart values, rewriting a WireGuard configuration, the search for a free file name,
  the Redis protocol client.
- `Text.dfy`, `Wrappers.dfy`: strings, decimal numbers, sorting; `Option` and a fact about finite sets.

Code that changes fields, maps, slices or buffers step by step is modelled by classes
and methods, each proved equal to a specification function or step relation; what the
component promises is proved about that specification over all inputs or all runs.
Functions of the outside world (JSON and chart parsing, message authentication codes,
password and code checks, the store's and the cluster's answers) are parameters or
outcomes chosen freely by each step.

## Where the code does less than one would hope

Each of these has an exact condition; the runs and inputs that show it stand beside it.

- A lookup can answer from the cache what the disk does not hold, exactly after the
  histories that `Confused` describes (`InvisibleIff`): a time that is given twice or put
  back, as a move that preserves times does (`RestoredIsConfused`), or an app with
  sidecars of one time in both directories (`TakenOverIsConfused`).
- Two orders of the template's replacements can give two texts, for some template,
  exactly when a value holds another placeholder that is replaced by something else, or
  ends in the beginning of one (`OrderFreeIff`, `BuildShowsOrder`).
- Deleting an app whose shared groups shrank earlier leaves consumers of the former
  groups with an address list that is no longer the registry's (`DeletedKeepsSyncedIff`,
  `DeleteLeavesStale`).
- The variable of a `permission.provider` entry is brought up to date by another app's
  event only when that event also concerns a group of the consumer's sysData
  (`ProviderEntryInStepIff`, `EntryGoesStale`), and a group's last provider leaves its
  address behind unless a static service stands in (`LastProviderGoneIff`).
- An uninstall clears its app's hosts before the record becomes uninstalled; a
  public-access toggle in between leaves an uninstalled app published
  (`IncrementalIsRebuiltIff`, `ToggleDuringUninstall`).
- A published host of 65536 characters or more makes the reader drop the whole file
  (`ReadsBackIff`, `LongLineLosesAll`), and when the first poll that sees a version cannot open it, only a
  forced one reads it (`PublishedIsPublicIff`, `HostIsNeverRead`).
- Attempts of a user, or from an address, that are in flight together can all fail after
  their checks have passed: 9 + m within an hour for m in flight, and no more
  (`FailuresWithinAnHour`, `BoundIsReached`).
- An active second-factor secret can be removed or replaced from a session that has not
  given the second factor (`SecretChangesIff`, `SecondLoginLifts`); a user called
  "pending:bob" shares a key with the pending secret of bob (`KeysAlias`).
- The search for a free file name never ends when every number for which the file
  system's limits leave room is taken (`EndsWithRoomIff`, `LongNameNeverEnds`).
- An empty bulk reply leaves its line end unread and an array its elements, so the
  commands after it do not find their own replies (`BoundariesKeptIff`, `EmptyLine`).
- `rewriteAllowedIPs` is documented to touch [Peer] sections; the code replaces such
  lines everywhere (`KeepsToPeersIff`, `InterfaceIsRewritten`).

## Model

| member | source | states |
|---|---|---|
| `CatalogHistory.InvisibleIff` | internal/market/catalog.go:97-133 | for every history of the disk, with any contents and any times: in every run and for every parser each lookup answers what the disk holds, if and only if the history is not confused, a condition on scans, times and contents alone |
| `CatalogHistory.LookupsReadTheDisk` | internal/market/catalog.go:352-407 | in every run whose disk history is not confused a lookup of an indexed app answers, in terms of the disk and the parser alone: nothing when its sidecar cannot be read or parsed, the sidecar's app with the chart's entrances in place of its own when the chart can be read and parsed, else the sidecar's app as it is; the cache never exceeds 64 entries |
| `CatalogHistory.FreshLoadIsAnswer` | internal/market/catalog.go:378-403 | a load from any disk gives such an answer |
| `CatalogHistory.AnswerUnique` | internal/market/catalog.go:378-403 | only one answer is of that kind |
| `CatalogHistory.ModelsOverCharts` | internal/market/catalog.go:97-110 | an app with sidecars in both directories is indexed from the models, with the time of that file |
| `CatalogHistory.ArchiveBelongsTo` | internal/market/catalog.go:157-170 | an archive belongs to what stands before the last dash of its name, or to its whole name when there is no dash but a leading one |
| `CatalogHistory.FreshRunsReadTheDisk` | internal/market/catalog.go:352-407 | so does every lookup of every run of writes, deletes, rescans, evictions and lookups in which each write has a new, larger time |
| `CatalogHistory.FreshIsNotConfused` | internal/market/catalog.go:360-376 | with new times a time on disk identifies one version of one file, so no such history is confused |
| `CatalogHistory.ConfusedIsServedStale` | internal/market/catalog.go:368-376 | every confused history has a schedule of rescans and lookups in which a lookup answers what the disk does not hold |
| `CatalogHistory.TimeShowsAgain` | internal/market/catalog.go:368-376 | one kind of confusion: the times of a scanned entry show over other contents than were loaded under it, because a time was given twice or put back |
| `CatalogHistory.OtherDirectoryTakesOver` | internal/market/catalog.go:113-121 | the other kind: rescan does not compare sidecar paths, so an app's sidecar in one directory can take over from the one in the other |
| `CatalogHistory.RestoredIsConfused` | internal/market/catalog.go:368-376 | a file rewritten and then put back with its time is an example, although no time was ever given to two contents |
| `CatalogHistory.TakenOverIsConfused` | internal/market/catalog.go:113-121 | two sidecars of an app with one time, one of them deleted, are an example in which nothing is put back |
| `CatalogHistory.TiedIsNotConfused` | internal/market/catalog.go:171-178 | of two archives of an app with one time a scan always finds the first in name order, so rewriting the other with that time confuses nothing |
| `CatalogHistory.EntryUnique` | internal/market/catalog.go:139-206 | a scan of a directory leaves nothing open: one entry for each app |
| `CatalogHistory.RunKeepsInv` | internal/market/catalog.go:97-133 | in every run each cached value is the load, from some earlier state of the disk, by an entry found until then and carried over since |
| `CatalogHistory.StepKeepsInv` | internal/market/catalog.go:97-133 | each single step (write, delete, rescan, eviction, lookup) keeps that invariant |
| `CatalogHistory.RescanKeepsInv` | internal/market/catalog.go:108-131 | what a rescan leaves in the cache is carried over to an entry with the same stamps |
| `CatalogHistory.LookupKeepsInv` | internal/market/catalog.go:352-407 | a lookup caches only what it loaded from the disk by its entry |
| `CatalogHistory.DiskChangeKeepsInv` | internal/market/catalog.go:360-376 | any change of the disk keeps the provenance of what is cached |
| `CatalogHistory.LruAddBound` | internal/market/catalog.go:405 | an add keeps the bound and all other entries but at most one |
| `MarketCatalog.CollectArchives` | internal/market/catalog.go:144-179 | for each app name exactly the newest archive called "<app>-version.tgz" is kept, of several with that time the first in name order, none if there is none |
| `MarketCatalog.ScanDir` | internal/market/catalog.go:139-206 | the index gains exactly one entry per regular sidecar file, with both times as on disk, and keeps the others |
| `CatalogHistory.NewestExtends` | internal/market/catalog.go:157-178 | one more file name of the sorted listing changes the newest archive of its own app only, and only when it is newer |
| `MarketCatalog.Catalog.Rescan` | internal/market/catalog.go:97-133 | the new index is apps overlaid by models, and the cache loses exactly the names whose record appeared, vanished or changed |
| `MarketCatalog.Catalog.DropDrifted` | internal/market/catalog.go:113-127 | the two eviction loops remove exactly the drifted names |
| `MarketCatalog.Catalog.EnsureFresh` | internal/market/catalog.go:76-93 | at most one rescan per interval, nothing changes otherwise |
| `MarketCatalog.Catalog.ReadApp` | internal/market/catalog.go:378-403 | on any disk: the sidecar's app, the chart's entrances in place of its own when it can be read and parsed, and nothing without a readable sidecar |
| `MarketCatalog.Catalog.CacheOrDisk` | internal/market/catalog.go:352-407 | on any disk: a hit whose times show answers from the cache, all else is loaded anew and cached, and the whole new cache is stated |
| `MarketCatalog.Catalog.LoadOne` | internal/market/catalog.go:352-407 | while the disk's history is not confused the answer is the one of the disk, in terms of the disk and the parser |
| `MarketCatalog.Catalog.AddToCache` | internal/market/catalog.go:405 | below 64 entries nothing is dropped, at 64 exactly one entry is |
| `MarketCatalog.Catalog.GetApp` | internal/market/catalog.go:263-271 | while the disk's history is not confused: nothing for a name that is not indexed, else the answer of the disk, in terms of the disk and the parser |
| `MarketCatalog.Catalog.ListApps` | internal/market/catalog.go:241-260 | while the disk's history is not confused, lists in name order, without the apps that have none, the answers of the disk for the indexed names |
| `NginxTemplate.Build` | pkg/nginx/builder.go:20-60 | the result is that of some order of the placeholders, and the simultaneous substitution of all of them when every "{{" opens a known placeholder and no parameter holds "{"; by name: each host list is the zone and the custom domain, if any, behind its prefix, the four applications of each, or the addresses with "_" when there are none; each single value its parameter; the redirect variables exactly with a custom domain; the origin and redirect maps line by line |
| `NginxTemplate.HoleBecomes` | pkg/nginx/builder.go:37-58 | where a placeholder stands in the template its value stands in the result |
| `NginxTemplate.NamesReadBack` | pkg/nginx/builder.go:62-68 | for blank-free domains a host list splits at its blanks into one prefixed name per domain, in order |
| `NginxTemplate.HostListsHold` | pkg/nginx/builder.go:39-46 | which list replaces which of the seven SERVER_NAMES placeholders |
| `NginxTemplate.SingleValuesHold` | pkg/nginx/builder.go:37-54 | which parameter or redirect replaces which of the six single values |
| `NginxTemplate.MapsHold` | pkg/nginx/builder.go:78-112 | the lines of the origin map and of the two redirect maps |
| `NginxTemplate.Replacements` | pkg/nginx/builder.go:20-54 | the fifteen values, each computed by its own helper |
| `NginxTemplate.BuildCORSEntries` | pkg/nginx/builder.go:78-93 | the indented lines of the origin map, those of absent addresses and domains left out |
| `Substitution.OrderFreeIff` | pkg/nginx/builder.go:55-58 | every template and every order give the simultaneous substitution if and only if no value holds another placeholder that is replaced by something else, or ends in the beginning of one |
| `NginxTemplate.ReplaceEach` | pkg/nginx/builder.go:55-58 | the loop over the replacement map takes each placeholder once, in some order |
| `Substitution.CalmIsOrderFree` | pkg/nginx/builder.go:55-58 | confluence: with such values every order of the placeholders gives the simultaneous substitution |
| `Substitution.ReplaceFills` | pkg/nginx/builder.go:55-58 | one step of the loop fills exactly the holes of its placeholder, whichever were filled before |
| `Substitution.Tokenize` | pkg/nginx/builder.go:37-58 | a template whose every "{{" opens a known placeholder reads as holes and plain characters |
| `Substitution.PlaceholderUnique` | pkg/nginx/builder.go:37-54 | no two placeholders can start at the same place |
| `NginxTemplate.RedirectMapsInert` | pkg/nginx/builder.go:95-112 | the multi-line redirect maps, braces and all, never bring a "{{" into the text |
| `NginxTemplate.BraceFreeIsCalm` | pkg/nginx/builder.go:37-54 | with parameters free of "{" the fifteen values meet the condition |
| `NginxTemplate.ReplacedByValue` | pkg/nginx/builder.go:37-54 | each of the fifteen placeholders is replaced by the value of its slot |
| `NginxTemplate.ValueInert` | pkg/nginx/builder.go:37-54 | the same for each of the fifteen values, the empty ones included |
| `NginxTemplate.CORSBraceFree` | pkg/nginx/builder.go:78-93 | the origin map lines hold no opening brace |
| `NginxTemplate.JoinWithPrefix` | pkg/nginx/builder.go:62-68 | the prefixed domains joined by blanks |
| `NginxTemplate.BuildSysAppNames` | pkg/nginx/builder.go:70-76 | four names for every domain, in order |
| `Substitution.OrderShows` | pkg/nginx/builder.go:55-58 | whenever the condition fails some template has two orders with different results |
| `NginxTemplate.BuildShowsOrder` | pkg/nginx/builder.go:20-60 | a zone that reads "{{RESOLVER}}" gives two orders of Build two results |
| `ClientHello.ReadingSerialised` | internal/l4proxy/sni.go:12-42 | a ClientHello of at most 16384 bytes in one record of type 22 is read back with its name, and the bytes returned for replay are exactly the record, whatever follows it |
| `ClientHello.ReadingOther` | internal/l4proxy/sni.go:21-30 | any other record type is given back after five bytes without a name, and a longer record fails there |
| `ClientHello.ReadingShort` | internal/l4proxy/sni.go:17-38 | an input that ends early fails with what came of it |
| `ClientHello.PlainHelloNames` | internal/l4proxy/sni.go:45-146 | byte by byte: a hello with one cipher suite and one host name yields that name |
| `ClientHello.ExtractFromSerialised` | internal/l4proxy/sni.go:45-119 | for every well-formed ClientHello the parser returns the first host_name of its first server_name extension, empty when there is none |
| `ClientHello.ServerNameOfSerialised` | internal/l4proxy/sni.go:122-146 | the same for the body of one server_name extension |
| `ClientHello.ScanSerialisedExtensions` | internal/l4proxy/sni.go:101-117 | the extension loop skips other extensions of any content and stops at the first server_name |
| `ClientHello.ExtensionsAtSerialised` | internal/l4proxy/sni.go:66-94 | the three length-prefixed fields are skipped to exactly the start of the extensions |
| `ClientHello.CutNeverRenames` | internal/l4proxy/sni.go:45-146 | cutting any input anywhere leaves either no name or the same name, despite the three clamps |
| `ClientHello.ExtractSNI` | internal/l4proxy/sni.go:45-119 | total on every byte string, no index out of range, and equal to the specification function |
| `ClientHello.FindServerName` | internal/l4proxy/sni.go:62-119 | the same for the part after the handshake header |
| `ClientHello.FindInExtensions` | internal/l4proxy/sni.go:101-117 | the same for the loop over the extensions |
| `ClientHello.ParseSNIExtension` | internal/l4proxy/sni.go:122-146 | the same for the name list |
| `ClientHello.Conn.ReadClientHello` | internal/l4proxy/sni.go:12-42 | takes as many bytes as the record says, fails on short or oversized records, and on success returns exactly the bytes consumed |
| `RegistrySpec.ListingsFaithful` | internal/systemserver/registry.go:39-121 | after every history of calls a group lists exactly the apps registered in it since their last unregistration, once each, in order of first registration, with the address the last entrance for the group in the latest registration names: its host or else the app's name, in the namespace of the app, and its port |
| `RegistrySpec.LastNamedDecides` | internal/systemserver/registry.go:53-88 | of several entrances of one group the last decides |
| `RegistrySpec.NoEmptyGroup` | internal/systemserver/registry.go:97-121 | no group is ever stored empty |
| `RegistrySpec.RegisterListing` | internal/systemserver/registry.go:39-94 | a registration upserts one endpoint into each group the app offers and touches no other group |
| `RegistrySpec.UnregisterListing` | internal/systemserver/registry.go:97-121 | an unregistration removes the app from every group and keeps the rest in order |
| `RegistrySpec.KeptInOrder` | internal/systemserver/registry.go:102-110 | filtering keeps the order of the endpoints that stay |
| `RegistrySpec.WithoutKeeps` | internal/systemserver/registry.go:102-110 | filtering loses nobody else |
| `ProviderRegistry.Append` | internal/systemserver/registry.go:84-86 | append in place or into a fresh array, the first elements unchanged |
| `ProviderRegistry.Put` | internal/systemserver/registry.go:75-87 | on the shared array: the app's endpoint is overwritten where it stands, or appended |
| `ProviderRegistry.FilterSlice` | internal/systemserver/registry.go:102-110 | the in-place filter of a slice onto its own array loses and reorders nothing |
| `ProviderRegistry.ProviderRegistry.RegisterProvider` | internal/systemserver/registry.go:39-94 | the heap of slices denotes the registry after the registration, and no two groups share an array |
| `ProviderRegistry.ProviderRegistry.UnregisterProvider` | internal/systemserver/registry.go:97-121 | the same for the in-place removal, whatever order the groups are visited in |
| `ProviderRegistry.ProviderRegistry.GetProviders` | internal/systemserver/registry.go:124-137 | a fresh array with the group's endpoints |
| `ProviderRegistry.ProviderRegistry.GetAllProviders` | internal/systemserver/registry.go:140-151 | a fresh array for every group |
| `ProviderRegistry.SnapshotsSurvive` | internal/systemserver/registry.go:124-151 | arrays handed out earlier are unchanged by every later sequence of registrations and unregistrations |
| `ProviderRegistry.Replay` | internal/systemserver/registry.go:39-151 | after every history of calls on a new registry the heap denotes what the history denotes, and a snapshot taken before each call still lists what its group listed then |
| `ProviderRegistry.ReplayIsFaithful` | internal/systemserver/registry.go:39-137 | on the heap, after every history of calls, a group lists exactly what it should |
| `EnvVars.MergeEnvVars` | internal/systemserver/reconciler.go:249-276 | exactly the entries that take effect are overwritten and the missing variables appended once each, and the result says whether anything changed |
| `EnvVars.MergedSettles` | internal/systemserver/reconciler.go:249-276 | afterwards each wanted variable has its wanted effective value and every other variable the value it had |
| `EnvVars.UpdateDeploymentEnv` | internal/systemserver/reconciler.go:236-245 | every container of the deployment is merged |
| `EnvVars.BuildProviderEnvVars` | internal/systemserver/reconciler.go:103-164 | the variables wanted by a consumer, later entries overriding earlier ones |
| `EnvVars.VariableSpelled` | internal/systemserver/reconciler.go:165-181 | a prefix up to the last dot makes no difference, and the variable is the rest, '_' for '-' and capitals for small letters, followed by _BASE_URLS |
| `EnvVars.SpelledOnce` | internal/systemserver/reconciler.go:165-181 | that determines the variable |
| `EnvVars.UrlListText` | internal/systemserver/reconciler.go:128-136 | the value is http://host:port of each endpoint, in order, separated by commas |
| `EnvVars.WantedText` | internal/systemserver/reconciler.go:104-137 | one entry asks for that list, without providers for its own service in the app's namespace, and for nothing when it names none |
| `EnvVars.SysDataVarsHold` | internal/systemserver/reconciler.go:107-143 | a wanted group with providers gets the comma join of all their addresses, whatever the other entries are, when variable names do not clash |
| `EnvVars.ProviderVarsHold` | internal/systemserver/reconciler.go:143-160 | a permission.provider entry that does not clash leaves a wanted group's variable as it should be |
| `EnvVars.SettledInStep` | internal/systemserver/reconciler.go:32-52 | a reconciled container is in step with the registry |
| `SystemServer.StableRunSynced` | internal/systemserver/server.go:211-282 | in every run with stable apps, after every event, each container of each consumer whose names do not clash has, under the name spelled from the part of the group behind its last dot, the current addresses of every group it wants that has a provider, as comma-separated text |
| `SystemServer.RunListingsFaithful` | internal/systemserver/server.go:211-282 | and those addresses are, in every run, those of the apps the events registered and did not unregister since, in order of first registration |
| `SystemServer.RunKeepsSynced` | internal/systemserver/server.go:211-282 | whatever the groups do, only a delete that leaves a consumer stale can end the synchrony |
| `SystemServer.UnconcernedUntouched` | internal/systemserver/registry.go:155-169 | an event that concerns no group of a consumer's sysData leaves its deployments alone, whatever its permission.provider entries name |
| `AddressChanges.ProviderEntryInStepIff` | internal/systemserver/reconciler.go:143-160 | a permission.provider entry that was in step is in step after another app's event if and only if the event also concerns a group of the consumer's sysData, or leaves the entry's addresses alone |
| `AddressChanges.AddressesChangeIff` | internal/systemserver/registry.go:39-121 | when an event changes a group's address list: the app registers there anew or with another address, or is listed there and goes |
| `AddressChanges.ContainerAfter` | internal/systemserver/server.go:211-282 | what an event does to a container of another app: its wanted variables settle when it concerns its sysData, else nothing |
| `AddressChanges.LastProviderGoneIff` | internal/systemserver/reconciler.go:111-129 | when a wanted group loses its last provider a container keeps the value it had if and only if the event does not concern the consumer, or no static service stands in, or one with that very address |
| `AddressChanges.StaticUrlIs` | internal/systemserver/reconciler.go:104-125 | the static service is that of the last entry for the group that names a service and a port |
| `SystemRuns.DeleteLeavesStale` | internal/systemserver/server.go:211-282 | a run from an empty server after which a consumer holds a deleted provider's address |
| `SystemRuns.StaleAfterDelete` | internal/systemserver/server.go:211-282 | whatever the cluster returns, the four events before that delete leave everyone in step and the delete does not |
| `SystemRuns.EntryGoesStale` | internal/systemserver/reconciler.go:143-160 | a run from an empty server after which a permission.provider entry lacks a registered provider |
| `SystemServer.ChangedKeepsSynced` | internal/systemserver/server.go:211-254 | an add or update always leaves everyone in step |
| `SystemServer.DeletedKeepsSyncedIff` | internal/systemserver/server.go:256-282 | a delete leaves everyone in step if and only if no other consumer wants a group that loses the app, keeps a provider, and is not among the deleted app's groups |
| `SystemServer.StableDeleteLeavesNone` | internal/systemserver/server.go:256-282 | with fixed groups a delete announces every group it changes |
| `SystemServer.StaleList` | internal/systemserver/server.go:256-282 | a consumer not announced keeps a list that differs from the registry's |
| `SystemServer.FindConsumers` | internal/systemserver/registry.go:155-169 | exactly the apps that name the group, each once |
| `SystemServer.PatchDeployment` | internal/systemserver/reconciler.go:185-232 | the patched containers have the wanted variables and keep the others, whether or not an update was sent |
| `SystemServer.PatchDeployments` | internal/systemserver/reconciler.go:185-232 | the same for all deployments of the app |
| `SystemServer.Server.Reconcile` | internal/systemserver/reconciler.go:32-52 | only the consumer's deployments change, to settled ones |
| `SystemServer.Server.OnProviderChanged` | internal/systemserver/reconciler.go:65-91 | exactly the consumers that want one of the provider's groups are settled, the others untouched |
| `SystemServer.Server.HandleAppCreateOrUpdate` | internal/systemserver/server.go:211-254 | refines the change step of the model |
| `SystemServer.Server.HandleAppDelete` | internal/systemserver/server.go:256-282 | refines the delete step of the model |
| `PublicDomains.IncrementalIsRebuiltIff` | internal/appservice/publicdomains.go:98-130 | for every run of stores, removals, publishing and clearing Syncs and reconciles: the incremental view equals the rebuilt one if and only if each live app's last sync step published the hosts its record calls for now, and every other app's last one was its clearing one or found no hosts |
| `PublicDomains.IncrementalIsRebuilt` | internal/appservice/service.go:605-612 | in particular when each change of a live app is followed by its Sync and each app that is not live was last cleared |
| `PublicDomains.UninstallClears` | internal/appservice/service.go:688-738 | an uninstall leaves its app kept up: cleared first, then uninstalled or removed |
| `PublicDomains.ClearedEarly` | internal/appservice/service.go:688-731 | between the clearing Sync and the change of the record the view lacks an app that a rebuild would publish |
| `PublicDomains.ToggleDuringUninstall` | internal/appservice/handler.go:641-650 | a public-access toggle in between publishes the app again, and it stays published after it is uninstalled |
| `PublicDomains.ViewIsLastSync` | internal/appservice/publicdomains.go:98-130 | at any moment the view holds of each app what its last sync step left |
| `PublicDomains.ReconcileRebuilds` | internal/appservice/publicdomains.go:111-130 | Reconcile builds the same view for every order of the records, nil records included |
| `PublicDomains.HostsForAppMembers` | internal/appservice/publicdomains.go:184-233 | a host is listed exactly when it leads, in the zone or the custom domain, to an entrance whose level is "public" in any case of letters, or any but "private" with the toggle on; or to an app without entrances whose toggle is on |
| `PublicDomains.AllPrivatePublishNone` | internal/appservice/publicdomains.go:200-214 | an app with private entrances only publishes nothing, whatever its toggle |
| `PublicDomains.OpenIsPublished` | internal/appservice/publicdomains.go:200-214 | a public entrance is listed whatever the toggle, one of any other level but private with the toggle on |
| `PublicDomains.ClosedIsPublicOnly` | internal/appservice/publicdomains.go:200-214 | without the toggle exactly the hosts of public entrances are listed |
| `PublicDomains.ListHostsForApp` | internal/appservice/publicdomains.go:184-233 | the loops list those hosts in order |
| `PublicDomains.UniqSorted` | internal/appservice/publicdomains.go:161-180 | the trimmed, non-empty hosts, sorted, each once |
| `PublicDomains.PublicDomainSync.Flush` | internal/appservice/publicdomains.go:133-158 | the ConfigMap always holds the last body, a successful call leaves it equal to the sorted join of all hosts, a failed one leaves it alone |
| `PublicDomains.PublicDomainSync.Sync` | internal/appservice/publicdomains.go:98-107 | the app's hosts are replaced or removed, the ConfigMap follows unless the write fails |
| `PublicDomains.PublicDomainSync.Reconcile` | internal/appservice/publicdomains.go:111-130 | the view is rebuilt from the records, the ConfigMap follows unless the write fails |
| `PublicDomainWatcher.ReadsBackIff` | internal/auth/publicdomainwatcher.go:86-98 | parsing the written body gives back the merged host set exactly when every host is free of newlines, does not start with "#" and is shorter than the scanner's buffer |
| `PublicDomainWatcher.LongLineLosesAll` | internal/auth/publicdomainwatcher.go:86-98 | one line that does not fit the scanner loses the whole file |
| `PublicDomainWatcher.ReadsBack` | internal/appservice/publicdomains.go:143-148 | writer and reader undo each other, the empty set included |
| `PublicDomainWatcher.ScanHosts` | internal/auth/publicdomainwatcher.go:86-98 | the set of trimmed lines that are neither empty nor comments, nothing when a line does not fit the scanner |
| `PublicDomainWatcher.Watcher.Reload` | internal/auth/publicdomainwatcher.go:58-102 | the whole new state: unchanged time and size skip, a missing file empties only an unset set, a failed read keeps the old one |
| `PublicDomainWatcher.Watcher.IsDomainPublic` | internal/auth/server.go:553-573 | public exactly when it is a configured domain or one below it, or a host read from the file; the empty one never |
| `PublicDomainWatcher.RunKeepsWatchInv` | internal/auth/publicdomainwatcher.go:58-102 | in every run, with stats and opens failing at will, the watcher has the current version's hosts exactly from the first poll on that opens it, as the first to see it or forced, and those of before until then |
| `PublicDomainWatcher.PublishedIsPublicIff` | internal/auth/publicdomainwatcher.go:58-102 | end to end in every run: the dynamically public hosts are those of the published apps if and only if such a poll came, or they were the same before |
| `PublicDomainWatcher.PublishedIsPublic` | internal/auth/server.go:553-573 | host by host, from such a poll on: dynamically public if and only if, but for white space, it leads to an open entrance of an installed app, or to such an app without entrances whose toggle is on |
| `PublicDomainWatcher.PrivateIsNeverPublic` | internal/appservice/publicdomains.go:200-214 | a host that leads only to private entrances is never dynamically public, whatever the toggles |
| `PublicDomainWatcher.PublicIsAlwaysPublic` | internal/appservice/publicdomains.go:200-214 | one that leads to a public entrance of an installed app always is |
| `PublicDomainWatcher.MergedMembers` | internal/appservice/publicdomains.go:133-148 | the written hosts are exactly those of the published apps |
| `PublicDomainWatcher.FailedOpenSticks` | internal/auth/publicdomainwatcher.go:73-83 | when the first poll that sees a version cannot open it, only a forced poll reads it after that |
| `PublicDomainWatcher.HostIsNeverRead` | internal/auth/publicdomainwatcher.go:73-83 | a run in which a published host stays private so |
| `RateLimiter.ElevenFailuresSpanAnHour` | internal/auth/ratelimit.go:40-84 | any eleven consecutive failures of a user, or from an address, with no success between them span at least an hour |
| `RateLimiter.FailuresBounded` | internal/auth/server.go:185-209 | for each user and for each address at most ten failures per started hour between two successes |
| `RateLimiter.FailuresWithinAnHour` | internal/auth/server.go:185-209 | with at most m attempts of a user, or from an address, in flight, at most 9 + m of them fail within an hour with no success between |
| `RateLimiter.FailuresBoundedInFlight` | internal/auth/server.go:185-209 | so at most 9 + m per started hour between two successes |
| `RateLimiter.BoundIsReached` | internal/auth/server.go:185-209 | for every m there is such a run in which 9 + m attempts of one user and from one address fail at one moment |
| `RateLimiter.SuccessLiftsDelay` | internal/auth/ratelimit.go:68-71 | after a success a check of that user and address is free of delay until one of them fails again |
| `RateLimiter.BlockEnds` | internal/auth/ratelimit.go:81-84 | an hour after the last failure of both there is no delay either |
| `RateLimiter.CounterAfterLast` | internal/auth/ratelimit.go:73-84 | a counter lasts exactly an hour from its last failure, unless a success deletes it |
| `RateLimiter.DelayTable` | internal/auth/ratelimit.go:40-59 | the delays are 0, 2, 4 and so on to 256 and then 300 seconds, and ten failures block |
| `RateLimiter.CounterKeepsCount` | internal/auth/ratelimit.go:81-84 | within the hour after a failure the counter never expires and is at least the number of failures since |
| `RateLimiter.DelayMonotone` | internal/auth/ratelimit.go:40-59 | more failures never shorten the delay or lift a block, and no delay exceeds 300 seconds |
| `RateLimiter.RateLimiter.Check` | internal/auth/ratelimit.go:40-59 | blocked from ten failures on either counter, else a doubling delay with its cap |
| `RateLimiter.RateLimiter.Increment` | internal/auth/ratelimit.go:81-84 | counts one and restarts the hour |
| `RateLimiter.RateLimiter.RecordFailure` | internal/auth/ratelimit.go:62-65 | counts on the address and on the user |
| `RateLimiter.RateLimiter.Reset` | internal/auth/ratelimit.go:68-71 | forgets both counters |
| `AuthSessions.VerifiedIff` | internal/auth/server.go:101-151 | in every run a host that is not public is let through exactly for a signed cookie of a stored session whose user's password was checked and on which, if that user has a secret now, a code was accepted |
| `AuthSessions.SessionsEarned` | internal/auth/server.go:293-372 | in every run every stored session came from a password check of its user, and is at level 2 exactly when a code for the then-active secret was accepted on that very id |
| `AuthSessions.GoneForever` | internal/auth/session.go:108-111 | a session that left the store (logout, revoke, expiry) is never stored again |
| `AuthSessions.LoggedOutIsRefused` | internal/auth/server.go:485-495 | after a logout that went through the cookie is refused for good |
| `AuthSessions.RevokedIsRefused` | internal/auth/server.go:606-644 | a revoke that goes through ends a session of the asking user that the request names by its id or its first eight characters, if there is one, and every cookie of it is refused for good |
| `AuthSessions.OthersNotRevoked` | internal/auth/server.go:606-644 | no session of another user, and none that is not named, is ever revoked |
| `AuthSessions.StrangerRevokesNothing` | internal/auth/server.go:606-644 | without a session a revoke changes nothing |
| `AuthSessions.SecretChangesIff` | internal/auth/server.go:648-686 | an active secret changes exactly when a session of its user removes it or confirms another one by a valid code, whatever the session's level, or when another user's pending secret is stored under its key and changes or goes |
| `AuthSessions.KeysAlias` | internal/auth/server.go:648-686 | the latter happens exactly to a user called "pending:" and that other user's name |
| `AuthSessions.ChangedByOwner` | internal/auth/server.go:378-482 | in every run a secret of any other name is changed only from a session of a login with its user's password |
| `AuthSessions.LevelOneRemoves` | internal/auth/server.go:463-476 | a session at level 1 can lift the second factor it has not given |
| `AuthSessions.SecondLoginLifts` | internal/auth/server.go:378-482 | a run in which one does: login, enrolment, confirmation, second login, removal |
| `AuthSessions.SignedIdVerifiesIff` | internal/auth/session.go:225-245 | a cookie verifies to an id exactly when it is the signed form of that id, for non-empty ids without a dot |
| `AuthSessions.Server.HandleVerify` | internal/auth/server.go:101-151 | answers 200 exactly when the model verifies |
| `AuthSessions.Server.HandleFirstFactor` | internal/auth/server.go:201-259 | a session at level 1 under the new id exactly after a good password and a good write |
| `AuthSessions.Server.HandleSecondFactorTOTP` | internal/auth/server.go:293-372 | raises exactly the session the cookie names, exactly when the code fits its user's active secret |
| `AuthSessions.Server.HandleTOTPStart` | internal/auth/server.go:378-482 | a pending secret for the signed-in user, nothing else |
| `AuthSessions.Server.HandleTOTPConfirm` | internal/auth/server.go:378-482 | the pending secret becomes the active one exactly on a valid code |
| `AuthSessions.Server.HandleTOTPRemove` | internal/auth/server.go:378-482 | removes the user's secrets as far as the writes succeed |
| `AuthSessions.Server.HandleLogout` | internal/auth/server.go:485-495 | removes exactly the session of the cookie |
| `AuthSessions.Server.HandleRevoke` | internal/auth/server.go:606-644 | removes one of the user's own sessions that the request names |
| `WebSocketHub.HubIsSafe` | internal/appservice/websocket.go:54-100 | in every interleaving no closed channel is sent to or closed again, no queue exceeds 64, and what a client received of each broadcaster is an in-order subsequence of what that broadcaster sent while the client was registered |
| `WebSocketHub.NothingElseIsLost` | internal/appservice/websocket.go:82-100 | conservation in every interleaving: what a client received of a broadcaster and what is queued are as many as that broadcaster's messages while it was registered, less those offered to a full queue and one still under way; exactly those messages, in order, when no queue was full |
| `WebSocketHub.RegisteredGetsAll` | internal/appservice/websocket.go:54-100 | so a registered client with room for each message has received or has waiting exactly the broadcasts begun since it registered, but for one that has not reached it yet |
| `WebSocketHub.RunKeepsInv` | internal/appservice/websocket.go:54-100 | the invariant behind it holds in every reachable state |
| `WebSocketHub.StepKeepsInv` | internal/appservice/websocket.go:54-100 | every step keeps it |
| `WebSocketHub.LoggedSubsequence` | internal/appservice/websocket.go:82-100 | messages of one broadcaster that went into a channel stand at increasing positions of its broadcasts |
| `WebSocketHub.SendsDeliver` | internal/appservice/websocket.go:82-100 | the single sends of one broadcast, in any order of the clients, add up to the method |
| `WebSocketHub.WSHub.Register` | internal/appservice/websocket.go:54-60 | one client more, with an empty open channel |
| `WebSocketHub.WSHub.Unregister` | internal/appservice/websocket.go:62-71 | the client is removed and its channel closed, a second call does nothing |
| `WebSocketHub.WSHub.Broadcast` | internal/appservice/websocket.go:82-100 | each registered client whose queue holds fewer than 64 messages has the message behind them, full queues and all other channels are as before |
| `ImagePuller.PullsBounded` | internal/appservice/imagepull.go:219-302 | in every interleaving at most three pulls are in flight and every reported count lies within the total |
| `ImagePuller.ReturnIsExact` | internal/appservice/imagepull.go:219-302 | on return the result is the number of failed pulls, and the reports after the pulls carry each of 1 to the total exactly once |
| `ImagePuller.PulledOnce` | internal/appservice/imagepull.go:219-302 | no image's pull ends twice, on return each has ended, and the failed ones are those whose pull failed |
| `ImagePuller.NeverStuck` | internal/appservice/imagepull.go:219-302 | before the return some step other than polling is always enabled |
| `ImagePuller.StepsRunOut` | internal/appservice/imagepull.go:219-302 | every step but polling strictly decreases what remains, so with the above every fair run returns |
| `ImagePuller.RunKeepsInv` | internal/appservice/imagepull.go:219-302 | semaphore, counters and reports agree with the states of the goroutines in every reachable state |
| `ValuesMerge.DeepMergeUnder` | internal/appservice/chartrewrite.go:64-83 | on disjoint heap trees, for every iteration order: terminates, leaves the source as it was and the destination equal to the left-biased union |
| `ValuesMerge.MergeOne` | internal/appservice/chartrewrite.go:65-82 | one key of the loop, with the keys still to come untouched |
| `ValuesMerge.MergeKey` | internal/appservice/chartrewrite.go:65-82 | a missing key is filled, two maps are merged, a clash keeps the destination |
| `ValuesMerge.AddKey` | internal/appservice/chartrewrite.go:66-71 | the platform's value is added wholesale |
| `ValuesMerge.MergeChild` | internal/appservice/chartrewrite.go:73-80 | the recursion changes only what is below its key |
| `ValuesMerge.MergedAt` | internal/appservice/chartrewrite.go:55-64 | at every path stands what the chart has, with the platform's filled under it, and where the chart misses the path at a table, what the platform has |
| `ValuesMerge.ChartWins` | internal/appservice/chartrewrite.go:55-64 | a value of the chart that is no table stays, and so does a table where the platform has none |
| `ValuesMerge.TablesUnite` | internal/appservice/chartrewrite.go:64-83 | where both have a table stands one with the keys of both |
| `ValuesMerge.MergeIdempotent` | internal/appservice/chartrewrite.go:58-83 | merging the same values again changes nothing, as trees |
| `ValuesMerge.MergeAgain` | internal/appservice/chartrewrite.go:64-83 | on the heap: where nothing is missing no node changes, with any sharing between the two |
| `ValuesMerge.MergeTwice` | internal/appservice/chartrewrite.go:64-83 | so a second merge after a first, which shares maps with the source, leaves both trees as they were |
| `WireGuardConfig.EnsureIdempotent` | cmd/hostctl/main.go:370-401 | line by line, pinning a field twice is pinning it once |
| `WireGuardConfig.RewritesIdempotent` | cmd/hostctl/main.go:370-413 | on whole texts, for newline-free values, each of the two rewrites done twice is done once |
| `WireGuardConfig.RewritesCommute` | cmd/hostctl/main.go:370-413 | on whole texts, for newline-free values and keys that do not start like AllowedIPs in any case of letters, the two rewrites commute |
| `WireGuardConfig.KeepsToPeersIff` | cmd/hostctl/main.go:403-413 | the rewrite keeps to [Peer] sections, as documented, if and only if no AllowedIPs line other than the new one stands outside them |
| `WireGuardConfig.InterfaceIsRewritten` | cmd/hostctl/main.go:403-413 | a configuration whose [Interface] section it rewrites |
| `WireGuardConfig.EnsuredIff` | cmd/hostctl/main.go:370-401 | afterwards the field is set in an [Interface] section if and only if there is one |
| `WireGuardConfig.RewriteIdempotent` | cmd/hostctl/main.go:405-413 | narrowing AllowedIPs twice is narrowing it once |
| `WireGuardConfig.EnsureAndRewriteCommute` | cmd/hostctl/main.go:370-413 | line by line, the two rewrites commute for keys that do not start like AllowedIPs, in any case of letters |
| `WireGuardConfig.AllowedIPsDoesNotCommute` | cmd/hostctl/main.go:370-413 | for the key AllowedIPs itself they do not |
| `WireGuardConfig.UserLinesKept` | cmd/hostctl/main.go:591-604 | without the pinned port and the hooks the result is the user's lines, only AllowedIPs lines replaced and only in dns-only mode |
| `WireGuardConfig.BuiltKeepsSetting` | cmd/hostctl/main.go:426-437 | the first Address, DNS and Endpoint line read the same before and after |
| `WireGuardConfig.ParsedSettingsKept` | cmd/hostctl/main.go:309-362 | the three parsers return the same on the text written out as on the user's text |
| `WireGuardConfig.BuiltReadBack` | cmd/hostctl/main.go:591-604 | the text written out splits into exactly the lines it was made of |
| `WireGuardConfig.FindField` | cmd/hostctl/main.go:371-389 | whether some [Interface] section, as opened and closed by the headers, holds a line for the key |
| `WireGuardConfig.EnsureInterfaceField` | cmd/hostctl/main.go:370-401 | the text is the lines with the field put after the first [Interface] line, unless it was set |
| `WireGuardConfig.RewriteAllowedIPs` | cmd/hostctl/main.go:405-413 | exactly the AllowedIPs lines are replaced |
| `WireGuardConfig.InsertBeforeFirst` | cmd/hostctl/main.go:591-604 | the lines are added once, right before the first line that reads the mark; every other line is copied |
| `WireGuardConfig.InsertAfterFirst` | cmd/hostctl/main.go:391-400 | the line is added once, right after the first line that reads the mark; every other line is copied |
| `WireGuardConfig.BuildWGConfig` | cmd/hostctl/main.go:426-604 | the user's lines with the listen port 51820 right after the first [Interface] line, unless the user set one there in any case of letters; with every AllowedIPs line replaced in dns-only mode; and with the two hooks right before the first [Peer] line |
| `WireGuardConfig.HasFieldIff` | cmd/hostctl/main.go:371-389 | a field is found exactly when a line sets it after an [Interface] line with no other header between |
| `WireGuardConfig.SettingIs` | cmd/hostctl/main.go:309-362 | the first line that starts with the setting's name, in any case of letters, and holds a '=' gives what follows it, trimmed |
| `WireGuardConfig.AddressAndDNS` | cmd/hostctl/main.go:309-344 | an address loses its prefix length, a list of servers all but the first |
| `WireGuardConfig.EndpointParts` | cmd/hostctl/main.go:347-362 | an endpoint is split at its last colon, and without one has port 51820 |
| `WireGuardConfig.FindSetting` | cmd/hostctl/main.go:309-362 | the value of the first line that assigns the setting |
| `UniqueName.GenerateUniqueName` | internal/files/util.go:96-107 | finds the candidate with the smallest number that does not exist, in finitely many probes |
| `UniqueName.SearchEndsIff` | internal/files/util.go:101-106 | the search ends if and only if the first free candidate is within the file system's limits on a name and on a whole path |
| `UniqueName.EndsWithRoomIff` | internal/files/util.go:101-106 | that is, if and only if the limits leave room for a digit and a number with at most that many digits is free |
| `UniqueName.FewExistingEnds` | internal/files/util.go:101-106 | so it ends whenever fewer paths exist than there are such numbers |
| `UniqueName.FirstFreeBounded` | internal/files/util.go:101-106 | that candidate's number is at most one more than the number of existing paths |
| `UniqueName.AtMostExisting` | internal/files/util.go:101-106 | pigeonhole: n existing paths take at most n candidates |
| `UniqueName.CandidatesDiffer` | internal/files/util.go:102 | different numbers give different candidates |
| `UniqueName.CandidateIsSibling` | internal/files/util.go:97-102 | a candidate lies in the same directory, has the same extension, and is another file |
| `UniqueName.CandidateSpelt` | internal/files/util.go:97-102 | a blank and the number in parentheses stand between the name and its extension |
| `UniqueName.LongNameNeverEnds` | internal/files/util.go:101-106 | when the name or the whole path is less than four bytes short of its limit the search never ends |
| `UniqueName.ShortNameEnds` | internal/files/util.go:101-106 | otherwise it ends when nothing else exists |
| `Resp.CommandsRoundTrip` | internal/middleware/redis.go:83-93 | any sequence of commands decodes to the same argument lists, whatever bytes the arguments hold |
| `Resp.CommandRoundTrip` | internal/middleware/redis.go:83-93 | one command decodes to its arguments and leaves exactly what follows |
| `Resp.BulkRoundTrip` | internal/middleware/redis.go:86-88 | the same for one argument |
| `Resp.Encode` | internal/middleware/redis.go:83-89 | the loop builds the array of bulk strings |
| `Resp.BoundariesKeptIff` | internal/middleware/redis.go:95-118 | for every sequence of replies, nested arrays included, each command finds the reader at the start of its own reply if and only if no reply but the last is an empty bulk or an array with elements |
| `Resp.ResultsMatch` | internal/middleware/redis.go:95-118 | then the k-th result is the meaning of the k-th reply, for all k |
| `Resp.ResultsMatchIff` | internal/middleware/redis.go:95-118 | for replies without array elements, which could pass for later replies, the results are the meanings if and only if no reply but the last is an empty bulk |
| `Resp.ReadsReply` | internal/middleware/redis.go:95-118 | the reader takes a reply for what it is and stops at its end, but leaves the line end of an empty bulk and the elements of an array unread |
| `Resp.LineBytes` | internal/middleware/redis.go:95-118 | byte by byte: simple and integer lines are fine, an error line is the error with its text |
| `Resp.CommandBytes` | internal/middleware/redis.go:83-89 | the bytes of a command of two parts |
| `Resp.Connection.ReadLine` | internal/middleware/redis.go:120-136 | takes the bytes up to the line feed and drops one carriage return before it |
| `Resp.Connection.ReadResponse` | internal/middleware/redis.go:95-118 | outcome and remaining input for every input, broken ones included |
| `Resp.Connection.SendCommand` | internal/middleware/redis.go:83-93 | writes the whole command or a prefix of it, and reads one reply only after a full write |

## Left out

- Characters: a string is a sequence of one-byte characters; white space and letter case are those of ASCII.
- Kubernetes, Helm, kubectl, openssl, nsenter and LDAP calls, HTTP routing, JSON and YAML encoding, cryptography: their results are parameters or free outcomes of a step.
- Market catalog: curation, search, categories, recommendations and the archive reader; `loadOne` and `rescan` are atomic steps; which entry a full cache gives up, and whether a directory can be read at a scan, is left open.
- System server: `Server` holds the registry and the applications as values, `ProviderRegistry` shows that the heap of slices denotes them; cluster updates succeed, an app's set of deployments is fixed, and the permission manager is not modelled.
- SystemServer.StableRunSynced: speaks of consumers whose groups and `permission.provider` entries derive no clashing variable names; a clashing later entry overwrites the variable.
- Public domains: computing an app's hosts and its Sync are one step; a ConfigMap left by an earlier process; the last body starts empty, so an empty first merge is not written.
- Public-domain watcher: the time between two polls; each new version of the file has a larger modification time.
- RateLimiter.ElevenFailuresSpanAnHour: the attempts on one user name, or from one address, are handled one at a time; `FailuresWithinAnHour` is the bound for any number in flight.
- Sessions: groups, the time to live extended on use, the JWT and the password change; a session may expire at any time, reads of the store succeed, writes may fail.
- WebSocket hub: the metrics pusher, the origin check and the reading half of a connection.
- Image puller: the text of the download progress and finding images in charts; the poller may report at any moment.
- Values merge: maps with keys that are not strings, which `toStringMap` converts first.
- WireGuard: the generated shell scripts, the detection of cluster networks, and the numeric meaning of addresses.
- UniqueName.GenerateUniqueName: the path is clean, as its caller passes it; it requires the condition under which the search ends (`SearchEndsIff`), and the file system does not change meanwhile.
- Redis client: connecting, time-outs and reply lengths beyond the machine's memory; an unreadable reply length counts as zero, as in the code.
- The app lifecycle (install, suspend, resume, status sync) beyond its calls of the public-domain Sync: background jobs share record pointers and follow no simple invariant.
- Metrics, thumbnails, device detection, weather, CIDR matching and password rules: single-branch or floating-point code.
