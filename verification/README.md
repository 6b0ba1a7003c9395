# Datacenter manager: a verified model

This project models the parts of the datacenter manager whose correctness spans many steps, and proves
what those steps promise together.

* **Inventory sync.** `Values`, `Diffs` and `Store` define rows, field diffs and every operation on the
  tables as one atomic step. `Engine.SyncEngine` is the sync engine as a class: its fields are the tables,
  its methods are the upserts, the tombstone sweeps and the alert writes, and a ghost history records which
  operations ran. `Replay`, `Keys`, `Alerts`, `Reconcile` and `Runs` prove what every list of operations
  keeps, `Effects` reads off column by column what each operation does to rows, extension rows, audit logs and
  alerts, `Updates` says what upserts do whose data no row can be created from; `Hypervisor` and `Inventory` hold the
  loops the hypervisor services share, and `VCenter`, `XenServer`, `Scvmm`, `Proxmox` and `XClarity` are the
  services.
* **Topology.** `Graph` is a breadth-first search proved shortest, `Topology` the service that builds the
  cached graph and answers path queries, `TopologyCache` the cache under interleaved writes, marks and rebuilds.
* **Page layout.** `Layout` is the two-pass renderer: estimate the canvas height, then draw.
* **Protocols.** `ApiClient` (token refresh), `Tokens` (revocation denylist), `Rotation` (exchanging a refresh
  token under concurrent requests), `Corridors` (the migration), `Scheduler` (the job table).

A row is a map from column to value in which an absent column reads as NULL. Each table has its declared and its
required columns: a row is created only from a dictionary of declared columns that includes the required ones,
and an update sets undeclared keys on the loaded object, counts them as a change and does not store them. Row
ids are numbers handed out in order. The clock is a parameter of every upsert. Fetched inventories are arbitrary
sequences. An upsert that raises changes nothing. The audit table is kept per entity, each entity's entries in
order.

Where several services run the same loop (hosts, VMs with their sweep, datastores) the loop is written once
and each service supplies its own host index, VM resolution, filters and status map.

The two callers of the network upsert look devices up by `management_ip` and supply the same address in the
data (backend/app/services/snmp.py:236-240 and backend/app/services/ssh_collector.py:217-221), so they meet the
hypothesis of `Keys.OwnKeyRefinesMap`. The SSH dictionary has no `name` unless the target names the device; see
below.

## What fails, and exactly when

* The hypervisor services: no sync of theirs ever creates a row. Every dictionary they build holds columns that
  its table does not declare: `platform_data` of a cluster, `name`, `status`, `cpu_count` and `ram_gb` of a host,
  `cpu_count` of a VM, `capacity_gb` and `status` of a datastore (backend/app/services/vcenter.py:171-283 against
  backend/app/models/virt_cluster.py:17-39, virt_host.py:18-48, virtual_machine.py:18-60 and datastore.py:17-38;
  likewise the other three services). The constructor rejects such keys, and the sync ends. `Updates` proves it
  of all such data (`NeverCreates`, `SucceedsIffRow`); each service's contract says that it completes exactly when
  everything it lists has a row already (the `AllHaveRows` predicates) and that it leaves rows and keys as they
  are; `VCenter.FirstSyncFails` is the simplest input, empty tables and one cluster. Where rows exist, the
  reported CPU count is not stored (`VCenter.CpuCountIsNotStored`).
* A hypervisor sync that breaks off has already swept the hosts it finished. A VM that moved from one of these
  to a host not reached is left stopped although it was reported (`VCenter.StoppedByAbort`).
* The SSH collector cannot create a device at an address whose target does not name it
  (`Keys.UnnamedDeviceRaises`).
* `TopologyCache`: a write that commits and marks the cache dirty between a rebuild's query and its flag
  clear is forgotten (`MarkIsLost`). `FreshIffUndisturbed` says exactly which orders of events serve current
  graphs whatever the tables; an order without writes during a rebuild and without silent link changes is one
  of them (`QuietSchedulesAreFresh`). Deleting an interface or a device removes links by cascade and no endpoint
  but the links one marks the cache, so the silent change is real. Production runs two worker processes
  (backend/Dockerfile:25), each with its own graph and flag: a link written through the other worker is a silent
  change too, and the commonest one (`WriteElsewhereIsLost`).
* `Scheduler`: each worker process starts a scheduler of its own, and a change of an integration is reported only
  to the one in the process that handles the request. `RunMirrors` speaks of one scheduler and the changes
  reported to it; the other process's job table keeps its old jobs until it restarts.
* `Keys`: the xClarity upsert can give two devices the same serial number (`UuidUpsertCanDuplicateSerial`);
  `DeviceUpsertUnique` says exactly when a device upsert keeps a key column unique, and `RunUniqueOn` says it
  of whole runs.
* `XClarity`: a uuid can be seen without error and end bound to no device, because a later node with another
  uuid took its device by serial number (`SeenButUnbound`); `BoundUnlessTaken` says that this is the only way,
  and distinct serial numbers exclude it (`DistinctSerialsStayBound`).
* `Alerts`: after an acknowledged overwrite alert has been followed by another overwrite, the API upsert of that
  alert fails (`OverwriteAcknowledgeOverwrite`). Such an overwrite is the only operation that adds a second row
  (`OverwriteAfterAcknowledge`, `SecondRowOnlySo`). The triple stays blocked until an administrator's deletions
  have left at most one of its rows, and nothing else unblocks it (`UnblockedOnlyByDeletion`,
  `BlockedUntilDeleted`, `BlockedIffTwoLeft`).
* `Tokens`: purging is invisible exactly for decoders that reject a token after its `exp`
  (`InvisibleIffNeverLate`), as section 4.1.4 of RFC 7519 demands. Whether this backend's decoder is one depends
  on python-jose, which is not part of this model. As far as is known it compares `exp` with the clock cut to
  whole seconds, while the purge compares with fractions of a second
  (backend/app/crud/token_revocation.py:26-28). Then it is not one (`WholeSecondsDecodeLate`): a revoked token
  whose row has been purged would be accepted again during the rest of the second in which it expires.
* `Rotation`: a refresh token is exchanged at most once, however many requests present it at a time, because the
  insert into the denylist fails for the second (`ExchangedOnce`). Its hypotheses are that no token decodes late
  and that the cleanup job does not delete the token's row while a request is between its decoding and its
  insert; a run without the second is served twice (`ExchangedTwice`).
* `Layout`: the final drawing position never passes the estimate, since the export fetches an elevation for
  every rack and gives up if one request fails (`PositionFits`). Device tiles can: nothing bounds a device's
  rack unit by the height of its rack (backend/app/schemas/device.py:147-148), and a tile is drawn where its
  unit says (`TileOffCanvas`). `Render` says that the tiles alone decide whether everything stays on the
  canvas, and `FittingTilesWithin` that devices inside their racks do. The branch for racks without elevation
  is never taken; it could overflow only with 21 or more such racks (`OverflowNeedsMissing`).

## Where code and documentation disagree

* `get_path` is documented to raise when there is no path or no such node; the code returns an unreachable
  result (backend/app/services/topology.py:110-111 and 131-138). The model follows the code.
* The Proxmox storage loop is commented as de-duplicating across nodes, but its set of names is created anew
  for every node (backend/app/services/proxmox.py:299-305). The model follows the code.
* A change to sensitive columns only is counted as an update and writes an audit entry with an empty diff,
  although the engine's header speaks of a diff for every field change (backend/app/services/sync_engine.py:6).
* The tombstone of a VM is audited after its status was assigned, so the entry's "before" already reads
  stopped (backend/app/services/sync_engine.py:692-699); only forward replay is claimed.

## Model

| member | source | states |
|---|---|---|
| Values.PrintsApart | backend/app/services/sync_engine.py:101-105 | printing tells two numbers, texts, flags, ids or datetimes apart, and a number, flag or id from NULL and the empty text |
| Values.PrintsAs | backend/app/services/sync_engine.py:101-105 | a number prints as digits that read back as the number, a flag as its Python name, a datetime as its ISO text with a blank for the T |
| Values.JsonTellsApart | backend/app/services/sync_engine.py:122-128 | coercing to JSON keeps texts, numbers and flags and tells all values of one type apart |
| Diffs.ComputeDiff | backend/app/services/sync_engine.py:108-119 | the loop yields the visible columns whose printed values differ, each with its old and new value; where both values have one type, exactly those whose values differ, and every number, flag or id that replaces NULL or is replaced by it |
| Diffs.RoundTrip | backend/app/services/sync_engine.py:108-119 | patching forward with the "after" values prints as the new row, patching back with "before" as the old one, and no smaller set of columns does either |
| Diffs.RoundTripExact | backend/app/services/sync_engine.py:108-119 | where old and new value have one type, either patch gives the very value |
| Replay.ReplayCreate | backend/app/services/sync_engine.py:263-270 | the create entry, over the column defaults, describes the inserted row |
| Replay.DescribesUpdate | backend/app/services/sync_engine.py:271-283 | an update entry takes every description of the old row to one of the new row |
| Replay.ExecGrows | backend/app/services/sync_engine.py:1-10 | no operation deletes a row or an audit entry, reuses an id, stores an undeclared column, or leaves an extension row without its device |
| Replay.ExecReplays | backend/app/services/sync_engine.py:155-170 | every operation keeps every entity's audit log replayable to its row |
| Replay.RunReplays | backend/app/services/sync_engine.py:155-170 | after any list of upserts, sweeps and alert writes from any tables, the entries added for each entity rebuild the columns of its current row that sync writes, as they print |
| Effects.RunReplaysValues | backend/app/services/sync_engine.py:155-170 | the rebuilt value is the very number, flag, text or id of the row wherever the two have one type, and a number is never rebuilt as NULL |
| Effects.RunIsClean | backend/app/services/sync_engine.py:42-43 | no run ever writes a column with one of the four secret suffixes into the audit log |
| Effects.TextLookups | backend/app/services/sync_engine.py:248-256 | the serial, host and VM lookups select exactly the rows that hold the supplied text, and none for an empty or missing one |
| Effects.PairLookups | backend/app/services/sync_engine.py:516-522 | the cluster and datastore lookups select exactly the rows with both supplied values |
| Effects.UuidLookup | backend/app/services/sync_engine.py:311-324 | the xClarity lookup selects the devices bound to the uuid, and only when there is none those with the serial number |
| Effects.UpsertStores | backend/app/services/sync_engine.py:263-277 | the written row reads every supplied declared column as supplied and every other as before, or as a new row starts; no other row changes |
| Effects.OwnColumnsRead | backend/app/services/sync_engine.py:559-665 | and the times, cluster and host the upsert itself sets |
| Effects.ServersRead | backend/app/services/sync_engine.py:359-373 | every supplied column of the server extension reads the supplied value, every other what it read before, and no other device's extension changes |
| Effects.NetworksRead | backend/app/services/sync_engine.py:417-431 | the same for the network extension |
| Effects.UpsertAudits | backend/app/services/sync_engine.py:263-286 | a created row gets one entry listing what was supplied, a changed row one telling each visible column that differs with both values, an unchanged row none; all other logs stay |
| Effects.UpsertAlerts | backend/app/services/sync_engine.py:176-233 | only a changed device touches the alerts: if one of the nineteen operator columns is told of, its open alert gets the new message, or a new warning is raised |
| Effects.RaiseReads | backend/app/crud/alert.py:50-89 | the API upsert sets severity and message of the one matching alert and opens it again, or adds an open one |
| Effects.AlertWritesRead | backend/app/crud/alert.py:91-102 | acknowledging, editing and deleting change exactly the named alert, each in its own fields |
| Effects.SweepReads | backend/app/services/sync_engine.py:438-503 | a sweep sets the status of exactly the unseen rows that are active or not yet stopped, with one audit entry each, and changes nothing else |
| Effects.SucceedsIff | backend/app/services/sync_engine.py:240-373 | while at most one alert per device is open, an upsert succeeds exactly when its lookup finds no row and the data can create one (declared columns only, all required ones, no forbidden NULL), or one row where it puts no forbidden NULL, and the extension row exists or is supplied declared columns only |
| Tables.WriteOne | backend/app/services/sync_engine.py:614-665 | writing one row that alone carries its key moves the key table's entry from the row's old key to its new one |
| Keys.TargetIsKeyed | backend/app/services/sync_engine.py:516-522 | the lookup of a keyed upsert selects exactly the rows that carry the key of its data, and nothing for a falsy key |
| Keys.UpsertRefinesMap | backend/app/services/sync_engine.py:509-754 | from unique keys a cluster, host, VM or datastore upsert succeeds if and only if the row of its key can take the data or, where there is none, a row can be created from it; it then writes one row of its kind, and on the map from key to row is one update |
| Keys.RunKeepsUnique | backend/app/services/sync_engine.py:509-754 | no run makes such a key ambiguous, so none of these lookups ever finds two rows |
| Keys.RunKeepsId | backend/app/services/sync_engine.py:559-665 | a host or VM row keeps its platform id for ever |
| Keys.RaisesIffUnacceptable | backend/app/services/sync_engine.py:209-435 | while at most one alert per device is open, an upsert of any kind raises if and only if its lookup finds several rows, a row has to be created and the data has undeclared or lacks required columns, a required column is set to NULL, or an extension row has to be created from undeclared columns |
| Keys.UnnamedDeviceRaises | backend/app/services/ssh_collector.py:217-298 | a network upsert without a name raises when no device has the address |
| Keys.DeviceUpsertUnique | backend/app/services/sync_engine.py:239-435 | a device upsert keeps a key column unique if and only if its data does not claim a value that a device outside its lookup holds before the call |
| Keys.DeviceUpsertRefinesMap | backend/app/services/sync_engine.py:239-435 | on the map from key to device, a device upsert without such a clash takes the written row from its old key to its new one and changes nothing else |
| Keys.OwnKeyRefinesMap | backend/app/services/sync_engine.py:239-435 | from unique keys the serial upsert, and the network upsert whose data carries the looked-up value, succeed if and only if the device found can take the data or one can be created from it, and are one update of the map from their key to the device; a falsy serial leaves the map alone |
| Keys.RunUniqueOn | backend/app/services/sync_engine.py:239-503 | over a run of any operations a device key is unique in every state if and only if no device upsert of the run clashes |
| Keys.OwnersKeepKey | backend/app/services/sync_engine.py:239-435 | when every device upsert of a run looks up by the column what it writes there, or does not supply the column, the column stays unique and no lookup by it finds two devices |
| Keys.RebindDuplicatesSerial | backend/app/services/sync_engine.py:311-349 | a device found by uuid that is given another device's serial number makes the serial ambiguous |
| Keys.UuidUpsertCanDuplicateSerial | backend/app/services/sync_engine.py:311-349 | concrete tables and a node for which that happens |
| Keys.UuidUpsertKeepsUuids | backend/app/services/sync_engine.py:296-373 | after the xClarity upsert the uuid is bound to the upserted device alone, also when the serial fallback re-binds it |
| Keys.RunKeepsUuids | backend/app/services/sync_engine.py:296-373 | in every run an xClarity uuid belongs to at most one device |
| Alerts.OverwriteKeepsOneOpen | backend/app/services/sync_engine.py:176-233 | the overwrite alert's query is never ambiguous and leaves at most one open alert per device |
| Alerts.TripleKeepsOneOpen | backend/app/crud/alert.py:50-89 | the API upsert succeeds exactly when at most one row matches its triple, and then keeps at most one open alert |
| Alerts.AcknowledgeKeepsOneOpen | backend/app/crud/alert.py:91-102 | acknowledging closes an alert and removes none |
| Alerts.RunKeepsOneOpen | backend/app/services/sync_engine.py:209-233 | in every interleaving of overwrites and API upserts, edits, acknowledgements and deletions a device has at most one open alert of type other, so no upsert raises because of an alert |
| Alerts.DeleteKeepsOneOpen | backend/app/api/v1/endpoints/alerts.py:175-186 | deleting an alert takes exactly that row from its triple |
| Alerts.FailsIffBlocked | backend/app/crud/alert.py:61-67 | the API upsert fails if and only if two rows match its triple |
| Alerts.UnblockedOnlyByDeletion | backend/app/crud/alert.py:61-67 | an operation unblocks a triple if and only if it deletes one of exactly two of its rows |
| Alerts.BlockedUntilDeleted | backend/app/crud/alert.py:61-67 | while two of the rows a triple had are not deleted, every API upsert of it fails, in every run |
| Alerts.BlockedIffTwoLeft | backend/app/crud/alert.py:61-67 | after a run that added no row to it, a triple is blocked if and only if two of its rows were not deleted |
| Alerts.OverwriteAfterAcknowledge | backend/app/services/sync_engine.py:211-233 | an overwrite leaves several rows for its device if and only if there were several before, or some and all of them acknowledged |
| Alerts.SecondRowOnlySo | backend/app/services/sync_engine.py:209-233 | no other operation of the engine or the alert API adds the second row |
| Alerts.OverwriteAcknowledgeOverwrite | backend/app/crud/alert.py:50-102 | a concrete run in which overwrite, acknowledgement and overwrite succeed and the API upsert then fails |
| Engine.SyncStats.Status | backend/app/services/sync_engine.py:89-95 | success exactly without errors, failed exactly with errors and nothing written |
| Engine.SyncEngine.SetAttributes | backend/app/services/sync_engine.py:272-277 | the assignment loop merges the declared part of the data into the row and reports whether any value differed, undeclared ones included |
| Engine.SyncEngine.GenerateOverwriteAlert | backend/app/services/sync_engine.py:176-233 | the alert table after the call, or failure when several open alerts match |
| Engine.SyncEngine.InsertRow | backend/app/services/sync_engine.py:263-270 | a row is created with its audit entry, or the data is rejected |
| Engine.SyncEngine.UpdateRow | backend/app/services/sync_engine.py:271-286 | the row, its alert and its audit entry change together, or nothing does; a NULL refused at the commit has been counted |
| Engine.SyncEngine.PutRow | backend/app/services/sync_engine.py:251-286 | insert or update, all or nothing, with the counter as the step leaves it |
| Engine.SyncEngine.PutDevice | backend/app/services/sync_engine.py:288-293 | the device row and its extension rows, rolled back together when the extension is rejected |
| Engine.SyncEngine.UpsertDeviceBySerial | backend/app/services/sync_engine.py:239-293 | one recorded step on the tables: the serial lookup's row and its server extension |
| Engine.SyncEngine.UpsertDeviceByXclarityUuid | backend/app/services/sync_engine.py:296-356 | one recorded step: lookup by uuid, else by serial, then the extension bound to the uuid |
| Engine.SyncEngine.FailAfterCounting | backend/app/services/sync_engine.py:350-355 | a failure after counting leaves the tables as they were but may have counted the node once |
| Engine.SyncEngine.UpsertNetworkDevice | backend/app/services/sync_engine.py:376-435 | one recorded step on the row found by the dedup field and its network extension |
| Engine.SyncEngine.UpsertVirtCluster | backend/app/services/sync_engine.py:509-553 | one recorded step on the cluster with this name and platform |
| Engine.SyncEngine.UpsertVirtHost | backend/app/services/sync_engine.py:559-608 | one recorded step on the host with this platform uuid |
| Engine.SyncEngine.UpsertVirtualMachine | backend/app/services/sync_engine.py:614-665 | one recorded step on the VM with this platform id |
| Engine.SyncEngine.UpsertStore | backend/app/services/sync_engine.py:708-754 | one recorded step on the datastore with this cluster and name |
| Engine.SyncEngine.TombstoneAll | backend/app/services/sync_engine.py:690-702 | every stale row gets the status and one audit entry, nothing else changes |
| Engine.SyncEngine.MarkMissingVmsInactive | backend/app/services/sync_engine.py:668-702 | one recorded step: the unseen, not yet stopped VMs of the host are stopped |
| Engine.SyncEngine.MarkMissingDevicesInactive | backend/app/services/sync_engine.py:438-468 | one recorded step: active devices with an unseen serial number become inactive |
| Engine.SyncEngine.MarkMissingXclarityDevicesInactive | backend/app/services/sync_engine.py:471-503 | one recorded step: active devices with an unseen uuid become inactive |
| Engine.SyncEngine.UpsertAlert | backend/app/crud/alert.py:50-89 | update and re-open the one matching alert, insert when there is none, fail when there are several |
| Engine.SyncEngine.AcknowledgeAlert | backend/app/crud/alert.py:91-102 | acknowledge an existing alert, report a missing one |
| Engine.SyncEngine.UpdateAlert | backend/app/api/v1/endpoints/alerts.py:137-154 | change severity and message of an existing alert, report a missing one |
| Engine.SyncEngine.RemoveAlert | backend/app/api/v1/endpoints/alerts.py:175-186 | delete an existing alert, report a missing one |
| Updates.NeverCreates | backend/app/services/sync_engine.py:524-530 | an upsert of data with an undeclared column never creates a row, never changes a key and never counts a creation |
| Updates.SucceedsIffRow | backend/app/services/sync_engine.py:509-754 | from unique keys it succeeds if and only if a row carries its key already |
| Hypervisor.VmRowOnlyUpdates | backend/app/services/vcenter.py:239-250 | the VM dictionary of the services is such data, and its key is the platform id |
| Inventory.HostRowOnlyUpdates | backend/app/services/vcenter.py:197-208 | the host dictionary is such data, and its key is the platform uuid |
| Inventory.ClusterRowOnlyUpdates | backend/app/services/vcenter.py:171-179 | the cluster dictionary is such data, and its key is name and platform |
| Inventory.StoreRowOnlyUpdates | backend/app/services/vcenter.py:277-283 | the datastore dictionary is such data, and its key is cluster and name |
| Reconcile.SweepSettles | backend/app/services/sync_engine.py:668-702 | a sweep stops only VMs the run does not report, because its seen set lists every VM the run puts on the host |
| Reconcile.PutSettles | backend/app/services/sync_engine.py:614-665 | an upsert settles the row of its VM and leaves every other VM row alone |
| Reconcile.RunSettles | backend/app/services/sync_engine.py:614-702 | after a completed run a VM that was put has one row with the last upsert's data, one that was not put keeps its row, stopped if its host was swept |
| Runs.RunReconciles | backend/app/services/sync_engine.py:614-702 | a run that upserts the known VMs and sweeps their hosts leaves, column by column, the reported VM table, whatever the order of its operations |
| Hypervisor.ReconcileVms | backend/app/services/vcenter.py:223-263 | the upsert loop and the sweep loop complete if and only if every VM that resolves has a row; they then put exactly these VMs, sweep exactly the given hosts, and count every VM once |
| Inventory.IndexIsLast | backend/app/services/scvmm.py:246-252 | a name leads to the last listed host that carries it |
| Inventory.SyncHosts | backend/app/services/vcenter.py:189-214 | the host loop completes if and only if every host has a row, and the index leads to rows with the reported uuids |
| Inventory.SyncTree | backend/app/services/vcenter.py:180-286 | cluster, hosts, VMs with their sweep, datastores: what was executed and counted, that rows and keys stay as they are, and that from unambiguous keys each part completes if and only if what it lists has rows |
| Inventory.HostsReadOneMore | backend/app/services/vcenter.py:197-211 | of the hosts with one uuid, the row holds the platform data, time and cluster of the last one listed |
| Inventory.StoresReadOneMore | backend/app/services/vcenter.py:277-286 | of the datastores with one name, the row under the cluster holds the type and free space of the last one listed |
| Inventory.HasRowReads | backend/app/services/sync_engine.py:509-754 | what it means that a host, a VM or a datastore has a row |
| Hypervisor.ReportedReads | backend/app/services/vcenter.py:239-254 | the row of a VM that was reported once reads its host, id, status, name, memory, platform data and time |
| VCenter.SyncCluster | backend/app/services/vcenter.py:167-286 | one cluster completes if and only if its contents have rows; it puts its VMs on its own hosts, sweeps these hosts and counts every listed item once |
| VCenter.SyncWithToken | backend/app/services/vcenter.py:155-286 | no run creates a row or changes a key; from unambiguous keys a run completes if and only if everything listed has a row; a completed run counts every listed item once and, when each host belongs to one cluster, leaves every VM on a synced host with its reported status and host if it was reported on a known host and stopped otherwise |
| VCenter.FirstSyncFails | backend/app/services/vcenter.py:167-180 | on empty tables the first cluster raises |
| VCenter.CpuCountIsNotStored | backend/app/models/virtual_machine.py:36-45 | of the reported VM columns all but the CPU count are stored |
| VCenter.StoppedByAbort | backend/app/services/vcenter.py:223-263 | when a run breaks off, a VM that no finished cluster reported is stopped if and only if it was stopped before or its old host is in a finished cluster |
| VCenter.ReportedVm | backend/app/services/vcenter.py:225-254 | a reported VM's row has the reported host and every reported column its table declares, the other columns unchanged |
| VCenter.ReportedVmReads | backend/app/services/vcenter.py:225-254 | the same with each column named: host row with the reported moref, id, mapped status, name, memory, platform data, times |
| VCenter.StatusReads | backend/app/services/vcenter.py:39-133 | which power states are stored as running, suspended and stopped; a host is in maintenance exactly when powered off, whatever its connection state |
| VCenter.NeedsRead | backend/app/services/vcenter.py:167-286 | a cluster needs a row under its name and platform, one for each host, one for each VM on a listed host, and one for each datastore under the cluster |
| VCenter.UnreportedVm | backend/app/services/vcenter.py:256-263 | an unreported VM keeps its row and is stopped exactly when its host was listed |
| VCenter.OrderDoesNotMatter | backend/app/services/vcenter.py:167-263 | two listings of the same hosts and VMs, in any order of clusters, hosts and VMs, leave the same VM table |
| XenServer.ResolvesToResidentOrMaster | backend/app/services/xenserver.py:253-260 | a VM resolves to the last host listed under the reference it is resident on, without one to the last under the pool master's, else not at all |
| XenServer.Process | backend/app/services/xenserver.py:184-314 | it completes if and only if everything it lists has a row; a VM that is neither template nor control domain then reads what was reported on the row of its resident host or of the pool master, every other VM row is as before and stopped when on a pool host; hosts, cluster and repositories are stored as listed; only the first pool counts |
| XenServer.AgreesReads | backend/app/services/xenserver.py:241-283 | that table, in the listing's own terms |
| XenServer.NeedsRead | backend/app/services/xenserver.py:184-314 | which rows the sync of a pool needs |
| XenServer.RepositoriesRead | backend/app/services/xenserver.py:286-292 | the repositories are all but those of two types |
| XenServer.StatusReads | backend/app/services/xenserver.py:42-48 | which power states are stored as running, suspended, migrating and stopped |
| XenServer.KnownReports | backend/app/services/xenserver.py:241-278 | the VM loop reports the eligible VMs that resolve, each on the row it resolves to |
| Scvmm.Short | backend/app/services/scvmm.py:251 | the part of a name before its first dot |
| Scvmm.ResolvesByAnyName | backend/app/services/scvmm.py:246-268 | a VM resolves to the last host listed under the name it gives, be it name, FQDN or short name, else to the last one under its short form, else not at all |
| Scvmm.SyncAll | backend/app/services/scvmm.py:197-320 | it completes if and only if cluster, hosts and upserted VMs have rows; a VM with an id then reads what was reported on the row of the host its name leads to, every other VM row is as before and stopped when on a named host; the datastore step cannot fail the sync |
| Scvmm.AgreesReads | backend/app/services/scvmm.py:246-293 | that table, in the listing's own terms |
| Scvmm.NeedsRead | backend/app/services/scvmm.py:197-293 | which rows the sync needs |
| Scvmm.StatusReads | backend/app/services/scvmm.py:39-51 | which statuses are stored as running, suspended, error and stopped |
| Proxmox.CompositeIdInjective | backend/app/services/proxmox.py:254 | node name and vmid can be read back from the composite id |
| Proxmox.SyncNode | backend/app/services/proxmox.py:221-320 | one node completes if and only if it, its guests and its storages have rows; it puts its guests on its own host row, sweeps it, and counts host, guests and distinct storages |
| Proxmox.SyncAll | backend/app/services/proxmox.py:193-325 | it completes if and only if the cluster and everything on the synced nodes have rows; a guest that alone has its id then reads what was reported on its node's row; every other VM row is as before, and stopped when on a synced node; rows on offline or filtered nodes are not touched |
| Proxmox.AgreesReads | backend/app/services/proxmox.py:213-297 | that table, in the listing's own terms |
| Proxmox.NeedsRead | backend/app/services/proxmox.py:193-325 | which rows the sync needs |
| Proxmox.ItemsRead | backend/app/services/proxmox.py:213-325 | a node counts itself, its VMs and its containers with an id, and its storages by name |
| Proxmox.FirstIsDistinct | backend/app/services/proxmox.py:299-305 | of storages with one name the first one listed is upserted |
| Proxmox.StatusReads | backend/app/services/proxmox.py:40-46 | which statuses are stored as running, suspended, migrating and stopped |
| Proxmox.GuestsStayOnTheirNode | backend/app/services/proxmox.py:254-295 | a reported guest's row sits on the node that reported it |
| XClarity.UpsertHolds | backend/app/services/sync_engine.py:296-356 | after its upsert the device reads every declared column of the node's data, its extension every declared column of the server data and the uuid, and no other device or extension changes |
| XClarity.NodeDataIsStored | backend/app/services/xclarity.py:150-184 | the dictionaries built for a node hold declared columns only, so all of them are stored, and the upsert fails only over an ambiguous lookup |
| XClarity.EveryNodeAccounted | backend/app/services/xclarity.py:197-216 | every node with a uuid is upserted or has its own error, there are no other errors, and the two add up to the nodes with a uuid |
| XClarity.UpsertsHold | backend/app/services/xclarity.py:197-213 | after the loop a device holds the last node written to it, and a device no node was written to is as before |
| XClarity.SweepAgrees | backend/app/services/xclarity.py:218-221 | the sweep spares every written device and deactivates exactly the other active devices bound to a uuid that was not upserted |
| XClarity.BoundUnlessTaken | backend/app/services/sync_engine.py:311-349 | an upserted uuid ends bound to the device its last node was written to, which holds that node, unless a later node of another uuid took the device by its serial number; then it is bound to none |
| XClarity.DistinctSerialsStayBound | backend/app/services/xclarity.py:186-221 | when the nodes have distinct serial numbers every seen uuid ends bound to exactly one device, which holds the data of the uuid's last node, after the sweep too |
| XClarity.SeenButUnbound | backend/app/services/sync_engine.py:311-349 | concrete tables and two nodes for which a uuid is seen without error and ends bound to no device |
| XClarity.SyncAll | backend/app/services/xclarity.py:186-226 | the seen uuids are those of the nodes whose upsert succeeds, the tables are what their upserts in order and the sweep leave, the errors added are those of the other nodes, each success counts once and each failure at most once, and uuids stay unique |
| Graph.WalkLevels | backend/app/services/topology.py:129-132 | no walk reaches an unfinished node in fewer hops than the level of the queue's head |
| Graph.ShortestPath | backend/app/services/topology.py:129-138 | breadth-first search returns no path exactly when no walk exists, otherwise a repetition-free walk of minimal length |
| Topology.LastJoinIsLast | backend/app/services/topology.py:71-84 | the link an edge takes its data from joins the two devices, is not inactive, and no later link in query order does |
| Topology.RepresentsIsUnique | backend/app/services/topology.py:48-87 | a link table determines its graph, data included |
| Topology.TopologyService.Rebuild | backend/app/services/topology.py:48-87 | the rebuilt graph has an edge for each pair of different devices joined by a link that is not inactive, with the id, type, speed and status of the last such link |
| Topology.TopologyService.GetPath | backend/app/services/topology.py:102-161 | reachable exactly when the devices are equal or a walk of links joins them; the path starts and ends there, repeats no device, is minimal, and each hop carries the id, type, speed and status of the last link that joins its devices |
| Topology.EdgesReport | backend/app/services/topology.py:71-87 | the edges of a represented graph run between different joined devices and carry those fields |
| TopologyCache.ServiceGraphIsBuilt | backend/app/services/topology.py:71-87 | the graph the service holds is the one built from the rows it queried |
| TopologyCache.GraphReallyExisted | backend/app/services/topology.py:33-43 | in every interleaving the cached graph is the graph of a link table that really existed, and before the first rebuild the flag is set |
| TopologyCache.FreshIffUndisturbed | backend/app/services/topology.py:40-87 | for an order of events: every state with a clear flag and no pending mark has the current graph, whatever the tables, if and only if no rebuild clears the flag with no mark owed after links changed behind its query, and no link changes silently while the flag is clear and no mark is owed |
| TopologyCache.HarmShows | backend/app/services/topology.py:40-87 | for each such step there are tables with which the schedule runs and answers from an old graph right after it |
| TopologyCache.QuietSchedulesAreFresh | backend/app/services/topology.py:113-115 | without writes during a rebuild and without silent changes the cache is always current when clean, wherever the marks fall |
| TopologyCache.WriteElsewhereIsLost | backend/app/services/topology.py:33-43 | a link written through another process under a clear flag leaves this process with an old graph |
| TopologyCache.MarkIsLost | backend/app/services/topology.py:55-87 | a write and its mark between query and flag clear leave a clear flag over the old graph |
| Layout.EstimateHeight | frontend/src/hooks/useExportTopologyPdf.tsx:486-510 | the estimate as a sum over occupied rooms and corridors and rack sections |
| Layout.DrawCover | frontend/src/hooks/useExportTopologyPdf.tsx:86-184 | the cover ends 180 below its start and draws nothing below that |
| Layout.DrawTiles | frontend/src/hooks/useExportTopologyPdf.tsx:210-264 | the wrapping loop adds 80 for each row of nine but the last and 84 for the last |
| Layout.DrawFloorPlan | frontend/src/hooks/useExportTopologyPdf.tsx:187-269 | the drawn height of the floor plan as the same sums, and nothing is drawn below it |
| Layout.DrawRackSection | frontend/src/hooks/useExportTopologyPdf.tsx:272-461 | a section is 44 taller than its diagram or table, draws those inside, and its device tiles down to the lowest one |
| Layout.CorridorsHaveRacks | frontend/src/hooks/useExportTopologyPdf.tsx:35-45 | there are at least as many collected racks as occupied corridors |
| Layout.CollectsExactly | frontend/src/hooks/useExportTopologyPdf.tsx:35-45 | every rack of every corridor is collected, and nothing else |
| Layout.CollectsInOrder | frontend/src/hooks/useExportTopologyPdf.tsx:35-45 | racks are collected room by room in order, none twice |
| Layout.CorridorsInOrder | frontend/src/hooks/useExportTopologyPdf.tsx:35-45 | and within a room corridor by corridor |
| Layout.PositionFits | frontend/src/hooks/useExportTopologyPdf.tsx:486-544 | when every rack has an elevation, as in every export, the estimate exceeds the final drawing position by at least 76 |
| Layout.Render | frontend/src/hooks/useExportTopologyPdf.tsx:514-544 | the exact difference between estimate and final position for every input; and while the position is on the canvas, everything drawn is if and only if every device tile ends on it |
| Layout.FittingTilesWithin | frontend/src/hooks/useExportTopologyPdf.tsx:339-382 | devices that end inside their rack end on the canvas |
| Layout.TileOffCanvas | frontend/src/hooks/useExportTopologyPdf.tsx:339-382 | a rack of one unit with a device at unit 100 is drawn down to 2591 on a canvas of height 542 |
| Layout.OverflowNeedsMissing | frontend/src/hooks/useExportTopologyPdf.tsx:503-508 | the final position can pass the estimate only when at least 21 racks lack an elevation, which the export excludes |
| Layout.OverflowWithoutElevations | frontend/src/hooks/useExportTopologyPdf.tsx:503-508 | without any elevation, one room of one-rack corridors passes it exactly from 21 on |
| ApiClient.AlwaysInv | frontend/src/api/index.ts:26-72 | every state of every run satisfies the refresh invariant |
| ApiClient.WaitersShareTheirRefresh | frontend/src/api/index.ts:26-52 | one refresh at most is in flight, nobody is suspended without it between events, nobody is sent more than twice, and all who waited for a refresh get its token or are all rejected |
| ApiClient.RunsTerminate | frontend/src/api/index.ts:54-72 | any run over n requests has at most 5 n events |
| ApiClient.NothingHangs | frontend/src/api/index.ts:54-72 | while a request is unfinished some event can happen |
| ApiClient.Api.DoRefresh | frontend/src/api/index.ts:28-52 | join the refresh in flight or start exactly one |
| ApiClient.Api.OnResponse | frontend/src/api/index.ts:54-72 | a 2xx completes the request; a first 401, unless of a refresh or a login, suspends it on the refresh in flight and starts one if there is none; everything else rejects it; nothing else changes |
| ApiClient.RefreshStartsExactly | frontend/src/api/index.ts:28-72 | in every run a refresh starts exactly at such a 401 when none is in flight, a request is suspended exactly by one, and completed exactly by a 2xx |
| ApiClient.Api.OnResume | frontend/src/api/index.ts:64-67 | a suspended request is sent once more with the token, or rejected without one |
| Tokens.PurgingCovers | backend/app/crud/token_revocation.py:24-31 | a purged denylist lacks only rows of tokens that have expired |
| Tokens.InvisibleIffNeverLate | backend/app/core/security.py:111-139 | purging changes no answer of the token check in any run if and only if the decoder rejects every token after its expiry |
| Tokens.LateTokenComesBack | backend/app/crud/token_revocation.py:24-31 | a decoder that accepts a late token lets a revoked one back in after the purge |
| Tokens.RevocationSurvivesPurging | backend/app/core/security.py:119-127 | with a decoder that never decodes late, a revoked token is never accepted again, purge or not |
| Tokens.AcceptedIff | backend/app/core/security.py:104-139 | exactly the bearer of a live, unrevoked access token of an active user is let in, and which failing check answers otherwise |
| Rotation.ExchangedOnce | backend/app/api/v1/endpoints/auth.py:186-224 | when no token decodes late and no cleanup deletes the row under a request on its way, concurrent requests exchange a refresh token at most once |
| Rotation.LateRequestRefused | backend/app/api/v1/endpoints/auth.py:186-201 | under the same hypotheses a request that looks the token up after the exchange never passes |
| Rotation.ExchangedTwice | backend/app/api/v1/endpoints/auth.py:196-224 | a run in which such a cleanup lets a second request exchange it |
| Tokens.WholeSecondsDecodeLate | backend/app/crud/token_revocation.py:24-31 | with a decoder whose clock is cut to whole seconds purging is invisible only if time itself has no finer ticks |
| Tokens.TokenRevocations.PurgeExpired | backend/app/crud/token_revocation.py:24-31 | deleting row by row removes exactly the rows whose expiry has passed, keeps the others unchanged, and returns how many went |
| Tokens.TokenRevocations.RevokeToken | backend/app/crud/token_revocation.py:18-22 | the row is inserted, or the call fails on the primary key |
| Corridors.Migration.Upgrade | backend/migrations/versions/20260313_0000_add_corridors.py:22-71 | from a valid old schema it succeeds, with one default corridor per room and every rack in a corridor of its own room |
| Corridors.Migration.Downgrade | backend/migrations/versions/20260313_0000_add_corridors.py:74-103 | every rack gets back the room of its corridor |
| Corridors.JoinReplacesColumn | backend/app/crud/rack.py:23-33 | after the upgrade the join returns, for every room, the racks the old filter returned |
| Corridors.ColumnReplacesJoin | backend/app/crud/rack.py:23-33 | a downgrade keeps what the join returned, whatever happened to the corridors in between |
| Corridors.RoundTrip | backend/migrations/versions/20260313_0000_add_corridors.py:22-103 | upgrade then downgrade restores the whole database |
| Scheduler.RunMirrors | backend/app/tasks/scheduler.py:74-118 | after any creates, updates and deletes reported to a scheduler, its jobs are the cleanup jobs and one job per enabled integration, nothing else |
| Scheduler.JobsRead | backend/app/tasks/scheduler.py:74-100 | integration by integration: a job if and only if enabled, with its name and an interval of at least a minute, an hour without one, the given one from a minute up; and the three cleanup jobs at 3:00, 3:15 and 3:30 |
| Scheduler.SecondsRead | backend/app/tasks/scheduler.py:80 | the interval in each case |
| Scheduler.JobScheduler.LoadAndScheduleAll | backend/app/tasks/scheduler.py:34-72 | startup establishes that mirror |
| Scheduler.JobScheduler.Schedule | backend/app/tasks/scheduler.py:102-110 | an enabled integration replaces its job, a disabled one loses it |

## Left out

- HTTP, SNMP, SSH, WinRM and XenAPI calls, credential decryption and the normalisation of raw payloads: the fetched inventory is an arbitrary input.
- SQLAlchemy sessions, flush, refresh and the in-place change of the caller's data dictionaries: each upsert is one atomic step.
- Values a column refuses for other reasons than NULL (length, type, foreign key): every value is accepted.
- A NULL supplied for a required column with a default when a row is created: the model rejects it; what SQLAlchemy makes of it is not part of this model, and no service supplies one. Names are strings, so a listing with a null name is not covered either.
- Undeclared attributes that outlive one upsert on an object the session still holds: they read as unset at every upsert.
- `updated_at` of devices and clusters changes on every update without an audit entry (backend/app/models/mixins.py:26-31): the replay claim covers the columns that sync writes.
- Audit order across entities: each entity has its own sequence of entries, so the order between entities is not modelled.
- Extension rows of servers and network devices are never audited by the source and are not part of the replay claim.
- Enum members are their string values, and a datetime, UUID, decimal or JSON value is identified with its text.
- Engine.SyncEngine.FailAfterCounting: assumes that what a failed upsert had pending is rolled back. The xClarity loop catches the error and goes on with the same session without a rollback (backend/app/services/xclarity.py:214-216), so after a failure on the client's side, before the commit, the next node's commit can store the failed node's device change; the model does not contain that outcome, and `XClarity.SyncAll` is stated without it. After a failed flush, on the other hand, the session rejects every later upsert of the loop until a rollback that nobody performs; the model lets them go on.
- Alert timestamps: an alert is acknowledged or open, when it happened is not recorded.
- Floating-point rounding of memory and capacity figures: the rounded values are part of the reported data.
- SNMP and SSH polling loops: they only call the network upsert once per target.
- The sync log and integration status rows written around a run: plain copies of the counters.
- Bidirectional search: the library's shortest-path routine searches from both ends; the model's search starts at one end and meets the same contract.
- Canvas text metrics and line widths: text counts with its baseline and a line with its centre, and only heights are modelled, not whether tiles overlap.
- Changes of the stored access token by login or logout while requests are in flight.
- Password hashing, encryption and token signing: a token is the record of its claims.
- Pagination of the rack query and index, constraint and timestamp columns of the migration.
- Field checks, plain create, read, update and delete endpoints, pages and stores of the frontend: each is one statement with no state of its own between calls.
