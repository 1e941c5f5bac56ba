# A verified model of the ventilation controller

This Dafny project models the state machines at the core of the ventilation controller
and proves what they promise. Check it with `dafny verify dfyconfig.toml`.

| files | component |
|---|---|
| `FanStack`, `FanSafety`, `FanRange`, `FanObjects` | service, process proxy, hardware worker, DAC driver: what the service says about its outputs is true |
| `AlertStore`, `AlertRegistry`, `AlertRuns`, `AlertGuarantees`, `AlertTable`, `AlertRecords`, `AlertRegistryService` | alert registry as a write-back cache over a list or a table, and what each call does to the visible records |
| `Correlation`, `ServicePlane` | the layer above the registry that replaces sensor faults by root causes, and its own alerts, told from the snapshot |
| `Schedule` | weekly schedule: a sort and sweep that equals a minute-by-minute specification |
| `Crc16`, `ModbusRtu`, `ModbusSlave` | Modbus checksum and frame exchange over a chunked line, and its effect on a device that decodes the bytes itself |
| `AeroControl`, `AeroProtocol`, `AeroResults`, `AeroExecutor`, `AeroFaults`, `AeroAnswers` | AERO control: two queues between core and worker, and the guarded register write with its faults and answers |
| `Heartbeat`, `HeartbeatCounters`, `HeartbeatObjects` | replay protection, expiry and gap accounting of service heartbeats |
| `Ota`, `OtaRuns`, `OtaSlots`, `OtaObjects` | firmware installation on service nodes: all workers together, one run, the two slots by name, the object |
| `ZigbeeRoleStore`, `ZigbeeFiles`, `ZigbeeRoles`, `ZigbeeNames`, `ZigbeeRuns`, `ZigbeeObjects` | Zigbee role registry in memory and on disk, with failing saves and overlapping callers |
| `Tacho` | fan speed from edge times |

Two forms stand side by side. Each operation is a function on values, in which everything
uncertain (a failing transfer, a dying process, a late answer, another caller's step) is
a script that the function consumes; the theorems speak about every script and every
sequence of operations. Where the program updates objects in place there is a class with
the same fields, whose methods are proved to compute exactly those functions. The fan
service and the Zigbee monitor also state the preserved invariant in their contracts.

The CRC and the frames follow section 2.5.1.2 of the MODBUS over Serial Line
Specification and Implementation Guide V1.02 and sections 6.3, 6.4 and 6.6 of the MODBUS
Application Protocol Specification V1.1b3.

## Findings

Where a promise fails, the model keeps the program's behaviour and states exactly when it
holds.

- **Birth race.** `VentilationService.__init__` reads `actuator.ready` three times. When
  the worker dies between the reads, the service starts with known outputs and a fault at
  once. The claims hold from construction exactly when the first and the last read agree
  (`FanSafety.ConstructIsCoherent`); the first `stop` or `health_check` ends the state.
- **Skipped restore.** `execute_control_change` documents that it restores the previous
  value when physical confirmation fails. A fan-power reading that raises inside the
  confirmation loop ends the call with the new value in force
  (`AeroExecutor.RestoreCanBeSkipped`), and so does an exception that is no `ModbusError`
  in a write that landed, in the readback or in the restore
  (`AeroFaults.LostAnswerLeavesTarget`). `AeroFaults.RaisedChangedExactly` reads off the
  script of faults, for every script, whether it happens.
- **Lost result without the lock.** Two concurrent callers of `execute_control` can
  discard each other's result. Under the AERO lock of the service only abandoned results
  are discarded (`AeroProtocol.WithoutLockAwaitedResultIsLost`,
  `AeroProtocol.OnlyAbandonedResultsDiscarded`), unless the worker dies after it has
  published: `health_check`, which does not wait for the lock, empties both queues before
  it starts a new worker, and an awaited result goes with them
  (`AeroProtocol.RestartCanLoseAwaitedResult`).
- **Late clear.** The table lets `clear` raise the count of a record that is already
  cleared, the list does not; the two agree exactly under the condition of
  `AlertStore.SameClear`, which the registry always meets.
- **OTA file writes.** `_set` assigns before it writes the file. When a write that ends an
  operation inside the try block fails, the worker still has its except clause to run: it
  fails the next operation of its node, whose own worker then revives it, and two
  operations are active at once (`Ota.LateWriteFailsNext`, `Ota.UnluckyAllowsTwo`). That
  is the only step which breaks mutual exclusion; every other write may fail
  (`Ota.ExclusiveExactlyWhenLucky`, an equivalence over all runs).
- **OTA start.** A failed first write leaves an operation active with no worker, and every
  later install on every node is refused (`Ota.FailedStartBlocksForever`); nothing else
  leads there, in any run (`Ota.WorkerlessOnlyByFailedStart`).
- **Zigbee saves.** Role operations change memory first, and a save that raises rolls
  nothing back. A device holds supply; `assign_role(device, null)` fails to save; then
  `assign_role(device, "other")` succeeds and writes both roles
  (`ZigbeeRuns.FailedReleaseThenOther`). Over all runs, every file has one role per device
  in every continuation exactly when no save that takes a role off the disk has failed;
  every other save may fail (`ZigbeeRuns.ConsistentExactlyWhenLucky`).
- **Zigbee callers.** `assign_role` reads the registry, waits up to 18 seconds for the
  bridge and then writes what it had read, with no lock. Two overlapping calls for one
  device, supply and `other`, both succeed and write both roles
  (`ZigbeeRuns.OverlapWritesTwoRoles`); two overlapping calls for different devices both
  succeed and the first device has no role (`ZigbeeRuns.OverlapLosesRole`). The run
  theorems hold for callers whose reading still fits when they write.
- **Refused role.** `assign_role` removes the role `other` and saves before it applies a
  system role. When the configurations are then refused, because the device in the other
  system role has the same name, the device has lost its old role
  (`ZigbeeRoles.AssignMeaning` says exactly when).
- **Reserved Zigbee names.** A device that the bridge knows under a name starting with
  `__unassigned_` keeps its system role on disk when it is given the role `other`
  (`ZigbeeRoles.ReservedNameKeepsOldRole`, an equivalence).
- **history_limit 0.** A Python slice from `-0` keeps everything, so a limit of zero means
  an unlimited history; `Heartbeat.ReplayHorizon` covers it.

## Model

| member | source | states |
|---|---|---|
| FanStack.WordWithinHalfStep | src/ventilation_core/infrastructure/gp8403.py:78-84 | the register word of a voltage in range lies within half a DAC step of it and fits the register |
| FanStack.EndsAreExact | src/ventilation_core/infrastructure/gp8403.py:78-84 | zero volts and full scale are represented exactly |
| FanStack.VoltageIsChecked | src/ventilation_core/infrastructure/gp8403.py:78-88 | a voltage is refused with nothing written if and only if it lies outside 0 to 10 V |
| FanSafety.SetBothWrites | src/ventilation_core/infrastructure/gp8403.py:91-93 | two separately failing writes: when reported done both registers hold the words asked for |
| FanSafety.StartZeroes | src/ventilation_core/infrastructure/dfr0971_actuator.py:27-32 | a start that reports success leaves the 10 V range and zero on both channels |
| FanSafety.RequestAchieves | src/ventilation_core/infrastructure/process_actuator.py:78-106 | a request that returns achieved its command on the registers, and leaves the proxy ready exactly then; when the worker was found dead, no command but recover is answered |
| FanSafety.FailedProbe | src/ventilation_core/infrastructure/process_actuator.py:89-106 | a health command that fails with an error leaves the worker running, one without an answer in time ends it |
| FanSafety.ConstructIsCoherent | src/ventilation_core/application/service.py:40-72 | the invariant holds after construction if and only if the first and last read of ready agree; otherwise the birth race is the state |
| FanSafety.SetManualKeepsClaims | src/ventilation_core/application/service.py:74-91 | set_manual keeps the invariant under every script of faults |
| FanSafety.SetManualMeaning | src/ventilation_core/application/service.py:74-91 | when each outcome of set_manual occurs, with the policy spelt out: a success means the words of this request are in the registers, a rejection changes nothing, a failure shows as a fault at once |
| FanSafety.StopKeepsClaims | src/ventilation_core/application/service.py:116-127 | stop keeps the invariant; its success means known zero outputs, its failure a fault at once |
| FanSafety.HealthCheckKeepsClaims | src/ventilation_core/application/service.py:168-199 | health_check keeps the invariant, including fault if and only if alarm and failures if and only if recovery |
| FanSafety.HealthCheckMeaning | src/ventilation_core/application/service.py:168-199 | a failure counts and shows as a fault from the threshold on, a healthy device keeps set points, mode and outputs, a recovery stops the fans; EveryAnswerTells says what the answered state shows |
| FanSafety.ServiceReturnsAfterFaults | src/ventilation_core/application/service.py:74-199 | when the faults end, stop and health_check succeed and answer that the hardware is ready, from every reachable state, and every acceptable set_manual then takes effect |
| FanSafety.RunKeepsClaims | src/ventilation_core/application/service.py:74-199 | the invariant holds after every run of operations |
| FanSafety.BirthRaceEnds | src/ventilation_core/application/service.py:58-72 | the birth race survives only set_manual, which it rejects, and state; the first stop or health_check restores the invariant |
| FanSafety.RunFromBirth | src/ventilation_core/application/service.py:40-199 | from every construction every run ends in the invariant or is still in the birth race |
| FanSafety.KnownOutputsAreReal | src/ventilation_core/application/service.py:129-150 | outputs reported as known equal the DAC registers, within half a step of the reported set points, in every reachable state |
| FanSafety.EveryAnswerTells | src/ventilation_core/application/service.py:129-150 | over every run, the state that set_manual, stop, health_check and state answer: mode, set points, failures and alarm are those of the service afterwards; hardware_ready holds exactly when the outputs are known, the proxy is ready and a live worker is behind it; after a failed command it never does |
| FanRange.KnownMeansTenVolts | src/ventilation_core/infrastructure/gp8403.py:74-76 | over every run, outputs reported as known, and any actuator that calls itself ready, have the register of the 10 V range programmed |
| FanSafety.ApplyNeedsRecovery | src/ventilation_core/application/service.py:229-281 | in a safe journal a recovery that zeroed both channels lies between a failure and a later apply |
| FanSafety.NoApplyBeforeRecovery | src/ventilation_core/application/service.py:168-281 | over every run no apply lands between a recorded failure and a completed zeroing recovery; until something is applied again the outputs are zero and a known state shows STOP |
| FanObjects.Gp8403.SetBoth | src/ventilation_core/infrastructure/gp8403.py:91-93 | the driver object computes the two-write step, stopping after a failed first write |
| FanObjects.Dfr0971Actuator.Start | src/ventilation_core/infrastructure/dfr0971_actuator.py:27-32 | the actuator is ready exactly when probe, range and zero writes all succeeded |
| FanObjects.Dfr0971Actuator.Perform | src/ventilation_core/infrastructure/dfr0971_actuator.py:34-59 | the object computes the actuator step, with stop_all silently accepted when not ready |
| FanObjects.HardwareWorker.Serve | src/ventilation_core/infrastructure/hardware_worker.py:16-84 | one turn of the command loop puts the answer with the id of its request on the queue, unless the process dies or is late |
| FanObjects.ProcessIsolatedActuator.Launch | src/ventilation_core/infrastructure/process_actuator.py:42-61 | starting a worker with new queues computes the start step |
| FanObjects.ProcessIsolatedActuator.Send | src/ventilation_core/infrastructure/process_actuator.py:71-106 | the proxy's request over its queues computes the request step |
| FanObjects.VentilationService.constructor | src/ventilation_core/application/service.py:40-72 | construction computes the construction step with its three reads; on a fresh rig the invariant or the birth race holds |
| FanObjects.VentilationService.ApplyManual | src/ventilation_core/application/service.py:74-91 | set_manual computes its step and its outcome, keeps the invariant, and its answer tells the state of the service |
| FanObjects.VentilationService.StopFans | src/ventilation_core/application/service.py:116-127 | stop computes its step and its outcome; the invariant holds afterwards, birth race included, and its answer tells the state of the service |
| FanObjects.VentilationService.Supervise | src/ventilation_core/application/service.py:168-199 | health_check computes its step and its outcome; the invariant holds afterwards, birth race included, and its answer tells the state of the service |
| AlertStore.SameQueries | src/ventilation_core/infrastructure/sqlite_alert_store.py:154-167 | related list and table answer both queries alike |
| AlertStore.SameCreate | src/ventilation_core/infrastructure/sqlite_alert_store.py:169-190 | creating agrees and keeps the stores related unless the key is active, which only the table's unique index refuses |
| AlertStore.SameUpdate | src/ventilation_core/infrastructure/sqlite_alert_store.py:192-212 | updating agrees for the stored active record |
| AlertStore.SameAcknowledge | src/ventilation_core/infrastructure/sqlite_alert_store.py:214-230 | acknowledging agrees on every id, errors included; AlertRecords.AcknowledgeMeaning says what it does |
| AlertStore.SameClear | src/ventilation_core/infrastructure/sqlite_alert_store.py:232-258 | clearing agrees if and only if the record is active or unknown or the final count does not exceed the stored one |
| AlertStore.MemoryAlertStore.Add | src/ventilation_core/application/alert_registry.py:47-64 | the list store creates records with increasing ids |
| AlertStore.MemoryAlertStore.Close | src/ventilation_core/application/alert_registry.py:89-105 | the list store's clear computes its step, errors included |
| AlertStore.SqliteAlertStore.Add | src/ventilation_core/infrastructure/sqlite_alert_store.py:169-190 | the insert computes its step, with the partial unique index on active keys |
| AlertStore.SqliteAlertStore.Close | src/ventilation_core/infrastructure/sqlite_alert_store.py:232-258 | the table's clear computes its step, never lowering the stored count |
| AlertRegistry.UpsertRefines | src/ventilation_core/application/alert_registry.py:160-187 | one signal has on the visible records the effect it has on the exact ledger, whatever has been persisted |
| AlertRegistry.CloseRefines | src/ventilation_core/application/alert_registry.py:177-187 | closing persists the exact final count |
| AlertRegistry.ClearKeyRefines | src/ventilation_core/application/alert_registry.py:212-226 | clear_key returns and leaves what the ledger says |
| AlertRegistry.ConfirmRefines | src/ventilation_core/application/alert_registry.py:228-233 | acknowledge returns and leaves what the ledger says, unknown and inactive ids included |
| AlertRuns.ReconcileRefines | src/ventilation_core/application/alert_registry.py:151-189 | a whole reconcile equals the ledger's reconcile |
| AlertRuns.QueriesShowLedger | src/ventilation_core/application/alert_registry.py:235-267 | active_records and history show exactly the ledger |
| AlertRuns.RunRefines | src/ventilation_core/application/alert_registry.py:151-267 | every answer of every run is the ledger's answer |
| AlertRuns.StepIsInvisible | src/ventilation_core/application/alert_registry.py:132-149 | answers, active records and history are the same for every two values of occurrence_persist_step |
| AlertGuarantees.ReconcileMeaning | src/ventilation_core/application/alert_registry.py:151-189 | after reconcile exactly the signalled keys are active, each with the last data and the larger count; cleared records never change |
| AlertGuarantees.StoredCountLagsByLessThanStep | src/ventilation_core/application/alert_registry.py:160-187 | stored count <= visible count < stored count + step for every active record of the list |
| AlertGuarantees.WritesAreAmortised | src/ventilation_core/application/alert_registry.py:160-187 | occurrence-only writes of one incident times step never exceed the growth of its count, over every run |
| AlertGuarantees.CrashLosesLessThanStep | src/ventilation_core/application/alert_registry.py:147-149 | a registry rebuilt from the list shows the same records with counts short by less than a step; AlertTable carries it over to the table |
| AlertGuarantees.StoresAreIndistinguishable | src/ventilation_core/infrastructure/sqlite_alert_store.py:128-130 | driven by the registry from empty, list and table answer every operation sequence alike and the unique index is never violated |
| AlertTable.TableLagsByLessThanStep | src/ventilation_core/application/alert_registry.py:160-187 | stored count <= visible count < stored count + step for every row of the table |
| AlertTable.TableCrashLosesLessThanStep | src/ventilation_core/application/alert_registry.py:147-149 | a registry rebuilt from the table after a crash shows the same records with counts short by less than a step |
| AlertTable.TableWritesAreAmortised | src/ventilation_core/application/alert_registry.py:160-187 | over every run, writes of the count alone to one row times step never exceed the growth of its stored count |
| AlertTable.TableStepIsInvisible | src/ventilation_core/application/alert_registry.py:132-149 | over the table, too, answers, active records and history are the same for every two steps |
| AlertTable.LivesFromEmptyTable | src/ventilation_core/infrastructure/sqlite_alert_store.py:154-258 | from the empty table, through any number of runs, crashes and restarts, the table stays that of a sound registry and its counts less than a step behind |
| AlertRecords.AcknowledgeMeaning | src/ventilation_core/application/alert_registry.py:228-233 | acknowledge succeeds exactly for the ids of active records; that record then has the given time if it had none and otherwise its first one, no other field of it and no other record changes, and a refusal changes nothing |
| AlertRecords.OperationMeaning | src/ventilation_core/application/alert_registry.py:151-233 | every operation on the visible records: a record keeps its id, key and start, its count only grows, it is acknowledged only by the call for its id and cleared only by a call that ends its key; a new record is an unacknowledged incident that a signal of this call starts |
| AlertRecords.WritesAreExact | src/ventilation_core/application/alert_registry.py:160-176 | a signal that opens an incident, changes its data or raises the stored count by a step is stored with the exact count |
| AlertRecords.RecordsLast | src/ventilation_core/application/alert_registry.py:151-233 | over every run an incident keeps its identity, its count never falls, and the times of acknowledgement and clearing stay once they are set |
| AlertRecords.AnswerMeaning | src/ventilation_core/application/alert_registry.py:151-233 | reconcile answers exactly the active records, activate the record of its key with the larger count, clear_key the record it ended or nothing when none was active |
| AlertRecords.LastSignalWins | src/ventilation_core/application/alert_registry.py:156 | of several signals with one key exactly the last one counts |
| AlertRecords.HistoryMeaning | src/ventilation_core/application/alert_registry.py:242-267 | history shows the newest records first, as many as the limit allows |
| AlertRecords.ActiveMeaning | src/ventilation_core/application/alert_registry.py:235-240 | active_records shows exactly the active records, each once, by ascending id |
| AlertRegistryService.AlertRegistry.Reconcile | src/ventilation_core/application/alert_registry.py:151-189 | the object's two loops compute the reconcile step and return the active records |
| AlertRegistryService.AlertRegistry.Activate | src/ventilation_core/application/alert_registry.py:191-210 | activate computes the one-signal step and returns its record |
| AlertRegistryService.AlertRegistry.ClearKey | src/ventilation_core/application/alert_registry.py:212-226 | clear_key finds the active record by a scan and computes the clear step |
| AlertRegistryService.AlertRegistry.Acknowledge | src/ventilation_core/application/alert_registry.py:228-233 | acknowledge computes its step |
| AlertRegistryService.AlertRegistry.History | src/ventilation_core/application/alert_registry.py:242-249 | refuses limits outside 1..1000 and otherwise shows the newest records |
| Correlation.SourceReadsBack | src/ventilation_core/application/service_plane_alert_registry.py:296-303 | a source in the form sensor:N is read back as its address N, for 1..247 |
| Correlation.TallyIsExact | src/ventilation_core/application/service_plane_alert_registry.py:204-280 | exactly the causes that some node accounts for are derived, and exactly the faults at their addresses are suppressed |
| Correlation.FaultIsReplacedExactlyWhenExplained | src/ventilation_core/application/service_plane_alert_registry.py:186-294 | with a healthy service network a production fault is replaced if and only if a node of its address accounts for it |
| Correlation.TallyIsExplained | src/ventilation_core/application/service_plane_alert_registry.py:204-280 | every suppressed key belongs to a production fault of an address with a derived cause, and every cause accuses an address with a fault |
| Correlation.CorrelationLosesNothing | src/ventilation_core/application/service_plane_alert_registry.py:94-294 | other signals pass; a fault survives or is replaced by a cause with the same source; causes are derived only for faulty addresses |
| Correlation.DerivedKeyNamesAddress | src/ventilation_core/application/service_plane_alert_registry.py:228-275 | equal derived keys name the same address |
| Correlation.EveryFaultHasActiveAlert | src/ventilation_core/application/service_plane_alert_registry.py:54-62 | after reconcile every production fault has an active alert with its own key and data, or with those of a KAMOD cause at the same sensor, whatever the service plane reports |
| ServicePlane.ServiceAlertsExactly | src/ventilation_core/application/service_plane_alert_registry.py:105-174 | after reconcile there is an active alert under the key of the agent, access point, DHCP or firewall exactly when that one is down, with its code, source and severity |
| ServicePlane.FaultGivesWay | src/ventilation_core/application/service_plane_alert_registry.py:94-294 | a fault of sensor N is taken out if and only if agent and network are up in all four respects and a node with address N is silent beyond its grace or reports its sensor or its RS-485 at fault |
| ServicePlane.BlameIsSignalled | src/ventilation_core/application/service_plane_alert_registry.py:220-280 | every node that accounts for a fault has the signal of its own cause in the list, with the key and code of that cause and the source of that sensor |
| ServicePlane.DiagnosticsMeaning | src/ventilation_core/application/service_plane_alert_registry.py:115-294 | the diagnostics give the reason that applies, and list as service-only exactly the silent nodes of which the sensor bus reports nothing |
| ServicePlane.DiagnosticsTellChanges | src/ventilation_core/application/service_plane_alert_registry.py:94-294 | the diagnostics name exactly the signals taken out and those that came in |
| Correlation.ServicePlaneCorrelatingAlertRegistry.TallyNodes | src/ventilation_core/application/service_plane_alert_registry.py:186-280 | the loops over signals and nodes compute causes, suppressed keys and heartbeat-only nodes |
| Correlation.ServicePlaneCorrelatingAlertRegistry.Reconcile | src/ventilation_core/application/service_plane_alert_registry.py:54-62 | the registry reconciles exactly the correlated signals and the diagnostics are kept |
| Schedule.SegmentsCoverMatches | src/ventilation_core/domain/schedule.py:113-139 | the segments of a window cover exactly the minutes it matches, past midnight and past Sunday |
| Schedule.ClashFreeMeansAtMostOne | src/ventilation_core/domain/schedule.py:223-236 | no shared minute if and only if every minute has at most one matching window per zone |
| Schedule.GroupingKeepsMatching | src/ventilation_core/domain/schedule.py:177-179 | grouping by zone loses no matching window |
| Schedule.Sweep | src/ventilation_core/domain/schedule.py:185-191 | on sorted segments the nested loops with the early break find an overlap if and only if there is one |
| Schedule.OverlapIsSharedMinute | src/ventilation_core/domain/schedule.py:180-191 | segments of two windows overlap if and only if some minute of the week matches both |
| Schedule.CheckZone | src/ventilation_core/domain/schedule.py:180-191 | one zone is rejected if and only if two of its windows share a minute |
| Schedule.GroupByZone | src/ventilation_core/domain/schedule.py:177-179 | every group holds exactly the windows of its zone in their order; the zones are those of the windows, each listed once, by first appearance |
| Schedule.ValidateWindows | src/ventilation_core/domain/schedule.py:176-191 | a list is accepted if and only if no minute of the week is matched by two of its windows in one zone |
| Schedule.EvaluateZone | src/ventilation_core/domain/schedule.py:231-246 | the state of a zone, with the multiple-match error exactly when two windows match |
| Schedule.EvaluateSchedule | src/ventilation_core/domain/schedule.py:216-254 | succeeds exactly on clash-free lists, so the multiple-match error cannot occur after validation |
| Crc16.ShiftLinear | src/ventilation_core/infrastructure/modbus_rtu.py:30-31 | the shift step is linear over exclusive or |
| Crc16.ShiftInjective | src/ventilation_core/infrastructure/modbus_rtu.py:30-31 | the shift step is injective on sixteen bits |
| Crc16.Crc16Modbus | src/ventilation_core/infrastructure/modbus_rtu.py:26-32 | the nested loops compute the checksum function |
| Crc16.CrcIsBitSerial | src/ventilation_core/infrastructure/modbus_rtu.py:26-32 | the byte-wise checksum equals the bit-serial division of the transmitted bits |
| Crc16.KnownCrc | src/ventilation_core/infrastructure/modbus_rtu.py:26-37 | one request in numbers: 01 04 00 00 00 13 is sent with the checksum bytes B1 C7 |
| Crc16.VerifyIsResidueZero | src/ventilation_core/infrastructure/modbus_rtu.py:40-48 | verify_crc accepts exactly the frames of length four or more with residue zero |
| Crc16.AppendedCrcVerifies | src/ventilation_core/infrastructure/modbus_rtu.py:35-48 | a frame with its checksum appended has residue zero and is accepted |
| Crc16.VerifiedIsAppended | src/ventilation_core/infrastructure/modbus_rtu.py:35-48 | accepted frames are exactly those with their own checksum appended |
| Crc16.CrcOfDifference | src/ventilation_core/infrastructure/modbus_rtu.py:26-32 | the checksum of a difference is the difference of the checksums |
| Crc16.BurstDetected | src/ventilation_core/infrastructure/modbus_rtu.py:40-48 | a change within any sixteen consecutive transmitted bits of an accepted frame of any length is rejected |
| Crc16.TwoByteChangeDetected | src/ventilation_core/infrastructure/modbus_rtu.py:40-48 | replacing two consecutive bytes of an accepted frame, CRC bytes included, is always detected |
| ModbusRtu.CollectsWhatIsOffered | src/ventilation_core/infrastructure/modbus_rtu.py:51-58 | all bytes are collected if and only if the reads that begin before the deadline have room for them, however they are split |
| ModbusRtu.ReadExact | src/ventilation_core/infrastructure/modbus_rtu.py:51-58 | the loop reads exactly what collection over the line gives and leaves the rest |
| ModbusRtu.UnpackThenPack | src/ventilation_core/infrastructure/modbus_rtu.py:146 | packing the unpacked registers gives the bytes back |
| ModbusRtu.PackThenUnpack | src/ventilation_core/infrastructure/modbus_rtu.py:146 | unpacking the packed registers gives them back |
| ModbusRtu.ReadIsSound | src/ventilation_core/infrastructure/modbus_rtu.py:99-146 | registers are returned only when an honest response for them was on the line |
| ModbusRtu.ReadIsExact | src/ventilation_core/infrastructure/modbus_rtu.py:99-146 | an honest response of 1..125 registers is decoded to them if and only if the port offers room for the header before the first deadline and for the rest before the second, however it splits them; otherwise the read fails after the time-out |
| ModbusRtu.DamagedReadFails | src/ventilation_core/infrastructure/modbus_rtu.py:40-48 | a response damaged within sixteen consecutive bits yields no registers |
| ModbusRtu.ReadRegisters | src/ventilation_core/infrastructure/modbus_rtu.py:75-146 | the exchange computes the read outcome, with every argument and protocol error |
| ModbusRtu.WriteNeedsExactEcho | src/ventilation_core/infrastructure/modbus_rtu.py:212-249 | a write returns normally if and only if the eight bytes received are the request |
| ModbusRtu.WriteSingleRegister | src/ventilation_core/infrastructure/modbus_rtu.py:183-249 | the exchange computes the write outcome, with every error |
| ModbusSlave.RequestBytes | src/ventilation_core/infrastructure/modbus_rtu.py:99-107 | a request is eight bytes: address, function, high and low byte of the register, high and low byte of the word, valid checksum |
| ModbusSlave.WriteReachesRegister | src/ventilation_core/infrastructure/modbus_rtu.py:201-249 | against a device that decodes the bytes itself a write returns normally if and only if the device has the register and answers in time, and then exactly that register of it holds the value |
| ModbusSlave.ReadReturnsRegisters | src/ventilation_core/infrastructure/modbus_rtu.py:99-146 | against the same device a read succeeds if and only if the device has all registers asked for and answers in time, and then returns them in order |
| ModbusSlave.MissingRegisterIsReported | src/ventilation_core/infrastructure/modbus_rtu.py:218-232 | a register that the device does not have is reported with its exception code |
| ModbusSlave.AcceptedReads | src/ventilation_core/infrastructure/modbus_rtu.py:84-97 | a read is sent exactly for the two read functions, the addresses of single slaves, and registers that all exist and whose answer fits a frame |
| AeroProtocol.OnlyOwnResult | src/ventilation_core/infrastructure/aero_bus_worker.py:135-159 | in every interleaving a caller gets only the result of executing its own command for its own request, with or without the lock |
| AeroProtocol.ExecutedOnce | src/ventilation_core/infrastructure/aero_bus_worker.py:290-306 | a request is executed at most once over every run |
| AeroProtocol.RunKeepsInOrder | src/ventilation_core/infrastructure/aero_bus_worker.py:356-406 | with the lock requests and results pass the queues in the order of their ids |
| AeroProtocol.OnlyAbandonedResultsDiscarded | src/ventilation_core/infrastructure/aero_bus_worker.py:116-159 | with the lock the publish loop and the waiting callers discard only results whose caller has given up; without a restart no awaited result is ever discarded |
| AeroProtocol.RestartCanLoseAwaitedResult | src/ventilation_core/infrastructure/aero_bus_worker.py:387-406 | a run with the lock in which a restarted worker loses an awaited result |
| AeroProtocol.WithoutLockAwaitedResultIsLost | src/ventilation_core/application/service.py:93-114 | a run of two callers without the lock in which an awaited result is discarded |
| AeroProtocol.PublishEnds | src/ventilation_core/infrastructure/aero_bus_worker.py:116-132 | at most three turns of the publish loop remain, each turn brings it closer to its end, and no step of anybody else sets it back |
| AeroProtocol.UndisturbedCommandIsAnswered | src/ventilation_core/infrastructure/aero_bus_worker.py:356-385 | an idle worker and one caller left to themselves execute the command and answer it, even past a stale result |
| AeroProtocol.AwaitedResultStays | src/ventilation_core/infrastructure/aero_bus_worker.py:116-159 | an awaited result stays queued until its caller takes it or gives up or the worker is restarted |
| AeroResults.ResultsAreConserved | src/ventilation_core/infrastructure/aero_bus_worker.py:116-159 | over every interleaving a result is with its caller, thrown away, queued or at the worker, never in two of these places, and in one of them as long as the worker lives |
| AeroResults.NextCommandIsAnswered | src/ventilation_core/infrastructure/aero_bus_worker.py:356-406 | after every run, once the newest caller has given up and the worker has been restarted, the next command is executed and answered with its own outcome |
| AeroProtocol.PublishControlResult | src/ventilation_core/infrastructure/aero_bus_worker.py:116-132 | against every consumer the loop ends with the new result queued and at most the old one thrown away |
| AeroProtocol.WaitForMatchingControlResult | src/ventilation_core/infrastructure/aero_bus_worker.py:135-159 | returns the first response with the right id if it arrives before the deadline, and otherwise nothing; at the deadline itself it is returned exactly when the race goes that way |
| AeroExecutor.EveryOutcomeIsHonest | src/ventilation_core/infrastructure/aero_control_executor.py:79-176 | SUCCEEDED means target in force, FAILED with recovered means previous value in force, no other register changes, and an out-of-range previous value causes no write |
| AeroExecutor.EachKindHasItsRegister | src/ventilation_core/domain/aero_control.py:8-58 | a speed call changes no register but 1080 and an airing call none but 1081, for values 0 to 3 and 0 to 1, and neither acts on another previous value |
| AeroAnswers.AnswerIsComplete | src/ventilation_core/infrastructure/aero_control_executor.py:96-176 | which fields an answer has in each of the five endings, and how they fit: powers are percentages, a readback is the target, a success by waiting saw another power and did not recover |
| AeroAnswers.EveryLevelWorks | src/ventilation_core/infrastructure/aero_control_executor.py:51-57 | without faults every level can be set over every other, and airing both ways: the register then holds the target, or the previous value when the call failed |
| AeroAnswers.MinuteOfBaseline | src/ventilation_core/infrastructure/aero_control_executor.py:145-176 | when thirty polls within 60 seconds show the baseline, the call gives up at the end of the minute and the previous value is back |
| AeroExecutor.RestoreIsHonest | src/ventilation_core/infrastructure/aero_control_executor.py:60-76 | a restore reported as successful left the previous value in the register |
| AeroExecutor.ConfirmationIsPhysical | src/ventilation_core/infrastructure/aero_control_executor.py:145-163 | the wait ends after some number of polls that all read the baseline, either because the deadline has passed or with the result of a poll that began before it and read something else, one interval later |
| AeroExecutor.WatchIsBounded | src/ventilation_core/infrastructure/aero_control_executor.py:145-150 | the loop makes at most one poll per interval of the time left |
| AeroExecutor.BrokenConfirmationLeavesTarget | src/ventilation_core/infrastructure/aero_control_executor.py:148-150 | a failing reading in the loop raises with the target in force |
| AeroExecutor.RestoreCanBeSkipped | src/ventilation_core/infrastructure/aero_control_executor.py:89-93 | a concrete run in which the documented restore does not happen |
| AeroFaults.RaisedChangedExactly | src/ventilation_core/infrastructure/aero_control_executor.py:79-176 | for every script of faults a call raises with a changed register if and only if it reaches the write and then a landed write, the readback or the unwritten restore escapes with an uncaught exception, or a power reading of the wait fails before any differs |
| AeroAnswers.ExpectedFaultsAreCaught | src/ventilation_core/infrastructure/aero_control_executor.py:117-176 | when every fault is a ModbusError or a ValueError, a call that reaches its write raises exactly when a failed reading of the wait leaves the target in force: write, readback and restore never raise |
| AeroFaults.LostAnswerLeavesTarget | src/ventilation_core/infrastructure/aero_control_executor.py:79-176 | a concrete run in which the answer to a landed write is lost to an uncaught exception and the target stays in force |
| AeroExecutor.FaultFreeCallConfirmsOrRestores | src/ventilation_core/infrastructure/aero_control_executor.py:79-176 | without faults a call returns with the target confirmed or the previous value restored, unless it refused the previous value |
| AeroExecutor.ControlPort.AwaitChange | src/ventilation_core/infrastructure/aero_control_executor.py:145-163 | the timed loop computes the wait, with the time left as its measure |
| AeroExecutor.ControlPort.Execute | src/ventilation_core/infrastructure/aero_control_executor.py:79-176 | the whole call computes its step and keeps its promise about the registers |
| Heartbeat.SequencesIncrease | src/ventilation_core/service_heartbeat.py:251-254 | consecutive accepted heartbeats of one boot have increasing numbers |
| Heartbeat.AcceptKeepsHistory | src/ventilation_core/service_heartbeat.py:255-262 | the closed-boot list is the tail of the earlier sessions, for every accepted trace |
| Heartbeat.AcceptedExactlyWhenNew | src/ventilation_core/service_heartbeat.py:245-262 | after any accepted trace a heartbeat goes through if and only if it advances the session or opens one whose boot is not among the latest earlier sessions |
| Heartbeat.ClosedBootsDistinct | src/ventilation_core/service_heartbeat.py:255-262 | the closed-boot list never repeats a boot nor holds the current one |
| Heartbeat.ReplayHorizon | src/ventilation_core/service_heartbeat.py:245-262 | a closed boot is accepted again only after at least history_limit + 1 distinct other boots |
| Heartbeat.NoPairRepeatsWithinHorizon | src/ventilation_core/service_heartbeat.py:245-262 | an accepted pair of boot and number that repeats lies beyond that horizon |
| Heartbeat.Conservation | src/ventilation_core/service_agent.py:226-280 | accepted plus missing equals the sum over the sessions of last - first + 1, in every admitted trace, with boot changes + 1 sessions and the gap bounds |
| Heartbeat.SessionConservation | src/ventilation_core/service_agent.py:226-280 | in each session accepted plus missing grows by exactly last - first + 1 |
| Heartbeat.RecordAdds | src/ventilation_core/service_agent.py:226-280 | what one record adds to accepted plus missing |
| HeartbeatCounters.CountersMean | src/ventilation_core/service_agent.py:212-283 | over every trace: online transitions count the heartbeats of a node that was not online, gap events those that skip numbers; the largest gaps bound all gaps and are among them, the last ones belong to the last heartbeat |
| Heartbeat.GapKeepsBounds | src/ventilation_core/service_agent.py:246-259 | max gap <= missing <= gap events times max gap is kept by every gap |
| HeartbeatObjects.ReplayStore.Admit | src/ventilation_core/service_heartbeat.py:245-271 | a heartbeat is admitted or rejected as the trace demands, and memory and file agree afterwards |
| HeartbeatObjects.HeartbeatReceiver.ProcessDatagram | src/ventilation_core/service_heartbeat.py:295-316 | a rejected heartbeat changes nothing, an admitted one only its own node |
| HeartbeatObjects.HeartbeatReceiver.ExpireStaleNodes | src/ventilation_core/service_heartbeat.py:318-335 | exactly the online nodes whose last heartbeat is older than the limit go offline, each listed once |
| HeartbeatObjects.ServiceAgentState.Note | src/ventilation_core/service_agent.py:212-283 | record computes the counters of its node and touches no other |
| HeartbeatObjects.ServiceAgentState.MarkOffline | src/ventilation_core/service_agent.py:285-300 | every listed online node counts one transition, others stay |
| HeartbeatObjects.ServiceAgent.ProcessDatagram | src/ventilation_core/service_agent.py:374-377 | receiver and state stay in step; an accepted heartbeat is noted as the last one of its node, a rejected one changes no counter |
| HeartbeatObjects.ServiceAgent.ExpireStaleNodes | src/ventilation_core/service_agent.py:379-382 | a node expires if and only if it was online and its last accepted heartbeat is older than the limit; every other node keeps its state |
| HeartbeatObjects.ServiceAgent.CountersConserve | src/ventilation_core/service_agent.py:212-300 | whatever arrived and expired, the counters of a node obey the conservation law, and online and offline transitions differ by the present state |
| Ota.ReportsRestOnAnswers | src/ventilation_core/service_ota.py:503-549 | whatever file writes fail: succeeded only after a poll got the target slot confirmed from this node; rolled_back only after a poll got it pending and a later poll the source slot confirmed |
| OtaSlots.ReportsNameSlots | src/ventilation_core/service_ota.py:455-549 | with the slots named: succeeded only when the preflight answer said ota_0 and a later poll ota_1 for good, or the reverse; rolled_back only when the other slot was first polled on trial and then the old one for good |
| OtaSlots.EntryShowsTurns | src/ventilation_core/service_ota.py:434-564 | at every moment of every worker the table entry shows the last status its node gave, the last number of bytes, and the state of the place where the worker is |
| OtaSlots.UnwrittenProgress | src/ventilation_core/service_ota.py:443-490 | a progress report that cannot be written ends the upload as a lost answer when it was the last one, and as a failure before that |
| OtaRuns.FirstRulingDecides | src/ventilation_core/service_ota.py:493-557 | the poll loop is a fold over the trace of polls: the first one with a ruling decides, an uncaught exception being a failure, and without one the result is uncertain |
| Ota.RunKeepsSound | src/ventilation_core/service_ota.py:392-432 | in every interleaving, whatever file writes fail but the unlucky one: every worker at work owns its operation, every operation has its worker or comes from a failed start, and one operation is active |
| Ota.AtMostOneActive | src/ventilation_core/service_ota.py:392-432 | in the same runs at most one operation is active over all nodes, each is the fold of its own turns, and its worker works exactly while it is active |
| Ota.ExclusiveExactlyWhenLucky | src/ventilation_core/service_ota.py:354-432 | over all runs: at most one operation stays active in every continuation without failed writes, from every point of the run, if and only if no write that ends an operation in the try block has failed |
| Ota.UnluckyAllowsTwo | src/ventilation_core/service_ota.py:354-564 | after such a failed write four steps without any failure make two chosen nodes active at once |
| Ota.TerminalIsFinal | src/ventilation_core/service_ota.py:354-361 | a terminal operation never changes, whatever file write fails next; only a new one can take its place |
| Ota.FailedStartBlocksForever | src/ventilation_core/service_ota.py:418-432 | after a failed first write the operation has no worker, and no sequence of steps ever starts another install |
| Ota.WorkerlessOnlyByFailedStart | src/ventilation_core/service_ota.py:418-432 | over every run and whatever writes fail, an active operation that nobody works on was entered by a start whose own write failed |
| Ota.LateWriteFailsNext | src/ventilation_core/service_ota.py:354-564 | a worker that still has its except clause to run fails the next operation of its node before its own worker has begun |
| OtaRuns.EveryInstallEnds | src/ventilation_core/service_ota.py:434-564 | for every sequence of answers and exceptions, every timing and every pattern of failed file writes the worker ends in a terminal state |
| OtaRuns.FollowIsFold | src/ventilation_core/service_ota.py:434-564 | the run of one installation is the fold of turns that the interleaving model gives the worker |
| OtaRuns.InstallEndsInVerdict | src/ventilation_core/service_ota.py:434-564 | with its writes in order every installation ends in exactly the state read off its answers and exceptions: failed before the poll loop, or the first ruling within 180 seconds, or uncertain |
| OtaSlots.RulingMeaning | src/ventilation_core/service_ota.py:511-557 | what each poll decides, both slots named: the target confirmed, the old slot confirmed after a trial, a foreign or broken answer, or the old slot after a lost upload |
| OtaSlots.SucceedsExactly | src/ventilation_core/service_ota.py:434-557 | an installation from one slot succeeds if and only if the image was sent for the other slot and some poll in time shows it confirmed there with nothing decided before |
| OtaSlots.InTimeMeaning | src/ventilation_core/service_ota.py:493-500 | exactly the polls are made that begin before the deadline, each after a pause of two seconds |
| OtaSlots.HonestUpdateSucceeds | src/ventilation_core/service_ota.py:434-557 | an update accepted for the slot that the node does not run, confirmed there in a poll that begins within 180 seconds, with silence or a slot on trial before, ends as succeeded |
| OtaObjects.OtaCoordinator.StartInstall | src/ventilation_core/service_ota.py:373-432 | refuses unknown nodes and any second active operation, and otherwise enters a queued one, also when its file write then raises |
| OtaObjects.OtaCoordinator.ReportProgress | src/ventilation_core/service_ota.py:443-447 | the callback writes only to the operation it was made for, and says whether the write failed |
| OtaObjects.OtaCoordinator.AwaitValidation | src/ventilation_core/service_ota.py:493-557 | the poll loop computes the run over the answers in time, under failing file writes |
| OtaObjects.OtaCoordinator.RunInstall | src/ventilation_core/service_ota.py:434-564 | under every pattern of failed writes the operation becomes what its run makes of it and is terminal; without failures it is the verdict; the operations of other nodes stay |
| ZigbeeRoleStore.SavedComesBack | src/ventilation_core/infrastructure/zigbee_role_store.py:76-201 | saved configurations and records come back from a reload |
| ZigbeeRoleStore.UniqueRecordsAreKept | src/ventilation_core/infrastructure/zigbee_role_store.py:98-112 | records with unique addresses are written unchanged and in order |
| ZigbeeRoleStore.WrittenKeysAreUnique | src/ventilation_core/infrastructure/zigbee_role_store.py:98-112 | whatever is written has unique addresses |
| ZigbeeRoleStore.StripMeaning | src/ventilation_core/infrastructure/zigbee_role_store.py:150-176 | stripping a text takes white space off both ends and nothing else, and leaves none there |
| ZigbeeFiles.LoadMeaning | src/ventilation_core/infrastructure/zigbee_role_store.py:135-176 | a file is refused if and only if one of its entries has a blank address or name; otherwise every entry is loaded in its place without the white space around it |
| ZigbeeFiles.FirstsAreWritten | src/ventilation_core/infrastructure/zigbee_role_store.py:98-112 | exactly the first assigned record of every address is written |
| ZigbeeRoleStore.RoleStore.LoadBundle | src/ventilation_core/infrastructure/zigbee_role_store.py:135-176 | the loading loop gives the stripped entries, or fails on an entry without content |
| ZigbeeRoleStore.RoleStore.SaveAssignments | src/ventilation_core/infrastructure/zigbee_role_store.py:76-133 | the saving loop writes the first record of every address, or leaves the file when the write raises |
| ZigbeeRoles.ApplyKeepsSound | src/ventilation_core/infrastructure/zigbee_managed_monitor.py:272-341 | applying configurations is refused exactly when the two names are equal, and keeps the invariant unless the save fails and a device loses a role that is still on disk |
| ZigbeeRoles.SaveOtherKeepsSound | src/ventilation_core/infrastructure/zigbee_managed_monitor.py:228-235 | the same for the other records |
| ZigbeeRoles.DistinctNamesFit | src/ventilation_core/infrastructure/zigbee_managed_monitor.py:322-329 | both topic maps are exact inverses of the device topics |
| ZigbeeRoles.TopicsNameRoles | src/ventilation_core/infrastructure/zigbee_managed_monitor.py:291-329 | a topic belongs to a role exactly when it is base/name of the device that has it, with /availability for the other map, and the sensor of a role shows that device or none |
| ZigbeeRoles.ResolveMeaning | src/ventilation_core/infrastructure/zigbee_managed_monitor.py:343-355 | an id stands for the first device of the inventory whose address or name is the stripped id, and for none exactly when it is blank or no device has it |
| ZigbeeRoles.OnlyOneIsChosen | src/ventilation_core/infrastructure/zigbee_managed_monitor.py:343-355 | the only device with this address or name is the one acted on |
| ZigbeeRoles.UnknownIsRefused | src/ventilation_core/infrastructure/zigbee_managed_monitor.py:343-355 | the three calls refuse a blank or unknown id and change nothing |
| ZigbeeRoles.AssignMeaning | src/ventilation_core/infrastructure/zigbee_managed_monitor.py:105-205 | for the device that the id names, a caller that nobody disturbs and every failing save: when assign_role succeeds; which role the device then has in memory, and under which name; no other device changes; and exactly when the invariant survives |
| ZigbeeRoles.AssignmentMeaning | src/ventilation_core/infrastructure/zigbee_managed_monitor.py:122-205 | the same for the part after the wait, when the reading before the wait still fits |
| ZigbeeNames.NameAllowedMeaning | src/ventilation_core/infrastructure/zigbee_managed_monitor.py:357-368 | a new name is accepted exactly when it has 1 to 64 letters, digits, underscores, dots and hyphens, the first a letter or digit, and is neither bridge in any case nor reserved |
| ZigbeeRoles.RenameMeaning | src/ventilation_core/infrastructure/zigbee_managed_monitor.py:64-103 | for the device that the id names: when rename_device succeeds; the device is then registered under the new name, also when the save fails, and no role and no other name changes |
| ZigbeeRoles.RemoveMeaning | src/ventilation_core/infrastructure/zigbee_managed_monitor.py:207-226 | for the device that the id names: when remove_device succeeds; it takes the role of that device, and no other device changes; and exactly when the invariant survives |
| ZigbeeRoles.SyncMeaning | src/ventilation_core/infrastructure/zigbee_managed_monitor.py:242-270 | an inventory changes no role, whatever save fails; it succeeds exactly when its saves do and the two system roles do not end under one name, and then every registered device is registered under its inventory name |
| ZigbeeNames.SyncedNameMeaning | src/ventilation_core/infrastructure/zigbee_managed_monitor.py:246-270 | a registered device takes the name of the last device of the list with its address and keeps its own when the list has none |
| ZigbeeRoles.BootIsSound | src/ventilation_core/infrastructure/zigbee_managed_monitor.py:33-44 | from every file with proper records, one role per device and two different system names, the program starts with the registry of the file |
| ZigbeeRuns.RolesAreCrashConsistent | src/ventilation_core/infrastructure/zigbee_managed_monitor.py:105-341 | over every interleaving of callers and device lists in which no reading is overtaken and no save that takes a role off the disk fails: each half of the file equals memory once its latest save succeeded, no device has a role on disk that it lacks in memory, the topic maps are inverses, and from every file ever written the program restarts with at most one role per device |
| ZigbeeRuns.ConsistentExactlyWhenLucky | src/ventilation_core/infrastructure/zigbee_managed_monitor.py:64-341 | over every interleaving in which no reading is overtaken, whatever saves fail: every file has one role per device in every continuation with successful saves, from every point of the run, if and only if no save that takes a role off the disk has failed |
| ZigbeeRuns.FailedReleaseThenOther | src/ventilation_core/infrastructure/zigbee_managed_monitor.py:124-171 | for every device with a system role: a release whose save fails and then the role other give it two roles on disk |
| ZigbeeRuns.CallMeaning | src/ventilation_core/infrastructure/zigbee_managed_monitor.py:64-226 | one undisturbed call keeps the invariant if and only if no save of it that takes a role off the disk fails |
| ZigbeeRuns.UndisturbedCallIsOperation | src/ventilation_core/infrastructure/zigbee_managed_monitor.py:64-226 | the two halves of a call, before and after the wait, make up the whole operation |
| ZigbeeRuns.StaleOther | src/ventilation_core/infrastructure/zigbee_managed_monitor.py:149-171 | the role other, finished on an old reading without a system role, writes two roles if and only if the device has got a system role since |
| ZigbeeRuns.OverlapWritesTwoRoles | src/ventilation_core/infrastructure/zigbee_managed_monitor.py:105-205 | two overlapping calls for one device, supply and other, both succeed and write two roles |
| ZigbeeRuns.OverlapLosesRole | src/ventilation_core/infrastructure/zigbee_managed_monitor.py:105-205 | two overlapping calls for different devices both succeed and the first device ends without a role |
| ZigbeeRoles.ReservedNameKeepsOldRole | src/ventilation_core/infrastructure/zigbee_managed_monitor.py:22-27 | a device given supply and then other has two roles on disk if and only if its name is reserved |
| ZigbeeObjects.ManagedMonitor.ApplyRoleConfigs | src/ventilation_core/infrastructure/zigbee_managed_monitor.py:272-341 | memory first and then the file, whose save may raise, computing the apply step |
| ZigbeeObjects.ManagedMonitor.AssignRole | src/ventilation_core/infrastructure/zigbee_managed_monitor.py:105-205 | assign_role computes its step, with its one to two saves, and keeps the invariant exactly when no save of it that takes a role off the disk fails |
| ZigbeeObjects.ManagedMonitor.FinishAssignment | src/ventilation_core/infrastructure/zigbee_managed_monitor.py:149-205 | the part after the wait computes its step on the reading it is given, which may be old |
| ZigbeeObjects.ManagedMonitor.RenameDevice | src/ventilation_core/infrastructure/zigbee_managed_monitor.py:64-103 | rename_device computes its step and keeps the invariant, whatever save fails |
| ZigbeeObjects.ManagedMonitor.RemoveDevice | src/ventilation_core/infrastructure/zigbee_managed_monitor.py:207-226 | remove_device computes its step and keeps the invariant exactly when no save of it that takes a role off the disk fails |
| ZigbeeObjects.ManagedMonitor.HandleInventory | src/ventilation_core/infrastructure/zigbee_managed_monitor.py:237-270 | the synchronisation loops compute the sync step, save only on a change and keep the invariant, whatever save fails |
| Tacho.RunIsInBounds | src/ventilation_core/domain/tacho.py:119-134 | for every edge history at most averaging_periods periods are kept, each between minimum and time-out |
| Tacho.ReadingIsInRange | src/ventilation_core/domain/tacho.py:136-156 | a valid speed lies between 20 / timeout and 20 / minimum |
| Tacho.ReadingMeaning | src/ventilation_core/domain/tacho.py:136-156 | a speed is valid exactly when a period was kept and the last edge is within the time-out; otherwise it reads zero |
| Tacho.SpeedFromEdges | src/ventilation_core/domain/tacho.py:119-156 | for edges at any proper distances the speed is the number of counted periods over the time from the first to the last of their edges |
| Tacho.SteadySpeedIsExact | src/ventilation_core/domain/tacho.py:119-156 | after averaging_periods + 1 equally spaced edges the speed is exactly 20 / period, whatever came before |
| Tacho.TachoEstimator.AddEdge | src/ventilation_core/domain/tacho.py:119-134 | add_edge computes the edge step, keeps the bounds and returns the reading |
| Tacho.TachoEstimator.ReadAt | src/ventilation_core/domain/tacho.py:136-156 | read computes the reading from the averaged periods |

## Left out

Assumptions of the model:

- A terminated worker process is dead, and the DAC and the AERO device keep their registers between writes.
- A fan worker that dies leaves the DAC registers as they are. One that leaves through an exception runs `actuator.close()`, which zeroes both channels (hardware_worker.py:79-84); a state that is known and MANUAL would then report set points that the DAC no longer has, until the next health check. KnownOutputsAreReal does not cover that exit.
- Clocks do not run backwards; a step that only computes takes no time.
- Voltages, periods and speeds are reals with round-half-even, not binary floating point.
- Request ids, operation ids and boot ids are unique numbers; time stamps are non-empty text.
- File writes succeed or fail as a whole. They are taken to succeed in the heartbeat model; the OTA and Zigbee models let every write fail.
- The Zigbee role operations interleave at the wait for the bridge. The part after the wait, the handling of one device list and one save with its reading of the file each run without interruption, although no lock makes them.
- A multiprocessing queue is a bounded queue without feeder threads.

Parts of the repository that are not modelled:

- Sockets, HTTP, MQTT client, subprocess, command lines, systemd units and logging.
- HMAC, SHA-256, JSON parsing and payload validation: heartbeats and snapshots are taken as decoded, OTA images and addresses as validated.
- SQL itself: the table is a map with the unique index on active keys, and there is no fallback to volatile storage.
- Time zones and daylight saving: a schedule is evaluated at an ISO weekday and a minute.
- `close` and other teardown paths, thread joins, the tachometer and sensor bus in the state of the service, the AERO health check inside `health_check`.
- Texts of alerts, alarms and operation errors.
- MQTT subscriptions of the Zigbee monitors, sensor measurements and pairing.
- AERO polling and its telemetry: `execute_control` is refused or not by the environment.
- Alert policy, shadow policy, weather, web and HMI code.

Members stated weaker than the source, or with a premise of their own:

- AeroProtocol.WaitForMatchingControlResult: takes no time between two gets; whether a get that times out at the very moment of an arrival still yields it is a parameter.
- Correlation.CorrelationLosesNothing: base signals carry distinct keys and sources of the form sensor:N, as the alerting service makes them; signs, spaces and underscores that int() would accept are not read as addresses.
- Correlation.EveryFaultHasActiveAlert: base signals do not use the keys of the correlation layer.
- Ota.AtMostOneActive: for the runs without an unlucky write; ExclusiveExactlyWhenLucky shows that no other run can rely on it.
- OtaObjects.OtaCoordinator.RunInstall: no other thread writes between its own writes; Ota.RunKeepsSound interleaves the workers.
- OtaRuns.InstallEndsInVerdict: for runs whose file writes succeed; EveryInstallEnds covers the others.
- ZigbeeRuns.RolesAreCrashConsistent: no role operation on the registry between a caller's reading and its writing; OverlapWritesTwoRoles and OverlapLosesRole show what else happens. Inventory names are trimmed, not empty and not reserved; they need not be unique. The supply and extract configurations are two fields instead of a list.
- ServicePlane.FaultGivesWay: base signals carry distinct keys, none of them of the correlation layer.
- ModbusSlave.ReadReturnsRegisters: the device answers at most once and adds no bytes of its own; ModbusRtu.ReadIsSound covers every other line.
- Tacho.SpeedFromEdges: for edges whose distances lie between the minimum and the time-out.
- Tacho.SteadySpeedIsExact: for periods between the minimum and the time-out.
