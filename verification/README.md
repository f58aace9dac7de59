# Models of the provisioning service, libgdbus and a few hard loops

This project models the parts of the repository where state, concurrency and parsing meet, and proves what
they promise.

**The 0x55AA provisioning protocol** (`system_service/protocol.c`, `proto_dispatch.c`, `unix_ipc.c`).
`Protocol` is the byte codec and the walk over a buffer; `ScanPush` splits scan lists over push payloads and
reads them back; `Client` is the reference-counted connection object; `Dispatch` says what each frame does and
`Dispatcher` is the same as imperative code. `Session` runs one connection as a state machine (a reader, any
number of CONNECT and SCAN workers, frames arriving on other transports, short and failed writes, failed
thread starts). `SessionLifetime`, `SessionTraffic`, `SessionPromises`,
`SessionPushes` and `SessionProgress` hold the results over every run; `DispatchAnswers` says what each command is
answered, octet by octet, up to the bytes a phone reads.

**The Wi-Fi STA/AP switch** (`system_service/wifi_switch.c`). `WifiSwitch` is the boot thread that becomes the
reconnect monitor, CONNECT callers, SWITCH_TO_AP callers and scans, each shell command a step with an arbitrary
outcome; daemons may die and addresses may be lost between any two steps. `WifiSwitchSafety` treats single
steps, `WifiSwitchRuns` every run. `WifiSwitchOutcomes` and `WifiSwitchPromises` say how each call ends, as a function
of what its own commands return and whatever the other threads do. `IwScan`, `HomeWifi` and `Hostapd` are the parsers and writers of the same
file, over the C string helpers in `Text`; `HomeWifiWriters` lets several threads store credentials at once, and
`HostapdLoss` says when a rewrite can cost the credentials. `IwScanLaws`, `HomeWifiLaws` and `HostapdLaws` state what
is read in terms of the lines of the text.

**libgdbus** (`watch.c`, `object.c`). `Watch` models the delivery of a signal to a list that its own callbacks
change, and shows that it is one pass over a snapshot; `WatchTable` is the imperative form and `WatchRuns` covers
every table that can arise; `WatchOrder` follows the order of the watches. `ObjectPaths`, `Introspection` and `ObjectRegistry` are the path tree with its
lazily rebuilt introspection texts. `Signature` is the nested-loop signature matcher.

**Small hard loops.** `ArgString` (`QLauncher/xdgdesktopfile.cpp`), `ShellQuote`
(`system_service/wifi_switch_a733.c`) and `TopProcs` (`system_service/sys_stat.c`).

Conventions: C strings and buffers are sequences or arrays of their meaningful length; integers are unbounded
except where the source depends on their width (frame fields, frame indices, RSSI, payload lengths). Results of
foreign calls are parameters or arbitrary step outcomes. A run is a sequence of steps and `After(run)` the state
it leads to, so a statement about `After(run)` is a statement about every reachable state.

Where a property does not hold of the code in full, the code is modelled as it is and the exact condition is
stated: a callback that removes its own watch must return TRUE (`Watch.DeliveryCorrect`), a table of argument
signatures must not end in an empty one (`Signature.ArgsHaveSignature`), stored credentials must be free of
newlines and fit the reader's buffers (`HomeWifi.PersistRoundTrip`), printed arguments must not be empty
(`ArgString.RoundTripExactly`), a call that stores credentials must not open the
temporary file while another may still rename it, unless that one has only just opened the same file for the
same pair (`HomeWifiWriters.OpenAfterRun`), a rewrite of the access-point file is safe against a failing write exactly
when there are no credentials to lose and its text must fit the reader (`HostapdLoss.SafeExactlyWithout`,
`HostapdLoss.OverlongLoses`), and unregistering an interface does not take back the Properties interface that
came with it (`Introspection.UnregisterUndoes`). The comment in `system_service/wifi_switch.c` that rejecting
double quotes makes the credentials round trip overlooks newlines; the code is followed.

## Model

| member | source | states |
|---|---|---|
| Protocol.DecodeWire | system_service/protocol.c:14-46 | the decoder returns exactly the frame that was laid out, whatever follows it, and refuses it exactly when its payload exceeds 256 bytes |
| Protocol.DecodeEncode | system_service/protocol.c:14-80 | decoding an encoded frame gives the frame back with a zero checksum, for every payload the decoder accepts |
| Protocol.WireDecode | system_service/protocol.c:14-46 | an accepted frame, laid out again, is the bytes it came from |
| Protocol.EncodeDecode | system_service/protocol.c:14-80 | re-encoding an accepted frame gives its bytes with the two checksum bytes cleared |
| Protocol.WalkWireAll | system_service/proto_dispatch.c:546-561 | any list of frames followed by bytes that start no frame is read as exactly that list, with that tail left |
| Protocol.WalkSound | system_service/proto_dispatch.c:546-561 | every buffer is the frames read from it followed by the unread rest, and the rest starts no frame |
| Protocol.ProtoDecode | system_service/protocol.c:14-46 | the method agrees with the decoding function on every input, null arguments included, and leaves the struct alone on failure |
| Protocol.ProtoEncode | system_service/protocol.c:50-80 | the buffer receives exactly the encoded frame and nothing past it; every refusal leaves the buffer unchanged |
| ScanPush.PayloadsLength | system_service/proto_dispatch.c:268-301 | a list of n entries makes max(1, ceil(n/5)) payloads |
| ScanPush.PayloadAt | system_service/proto_dispatch.c:268-301 | payload k is the k-th group of five, numbered modulo 256, with the end flag on the last one only |
| ScanPush.PayloadFits | system_service/proto_dispatch.c:268-301 | every payload fits the 220 bytes the sender allows itself |
| ScanPush.ReassemblePayloads | system_service/protocol.h:65-78 | reading the payloads by the documented layout and concatenating gives back the list, signed RSSI included |
| ScanPush.EncodeScanEntry | system_service/proto_dispatch.c:255-266 | one entry is written in place exactly when it fits, and the rest of the buffer is untouched |
| ScanPush.AppendEntry | system_service/proto_dispatch.c:279-287 | one more entry is appended behind those written, or refused when it does not fit |
| ScanPush.FillEntries | system_service/proto_dispatch.c:276-288 | as many entries as fit are written, which is always the next five or all that are left |
| ScanPush.FillPayload | system_service/proto_dispatch.c:272-296 | one payload buffer holds the header and the group of entries |
| ScanPush.SendScanResults | system_service/proto_dispatch.c:268-301 | the loop ends and hands over exactly the payloads of the list |
| ClientObject.UnixClient.constructor | system_service/unix_ipc.c:41-46 | a fresh connection object has one reference, an open descriptor and nothing written |
| ClientObject.UnixClient.Send | system_service/unix_ipc.c:48-71 | a prefix of the data reaches the socket, nothing once the descriptor is closed; the prefix is what the write calls took, it is short only when the last call failed or took nothing, and no call is made after that one |
| ClientObject.UnixClient.Retain | system_service/unix_ipc.c:73-79 | one more reference |
| ClientObject.UnixClient.Release | system_service/unix_ipc.c:81-100 | one reference less; the last one closes the descriptor if needed and frees the object |
| ClientObject.UnixClient.Finish | system_service/unix_ipc.c:123-135 | the reader closes the descriptor once and drops its reference |
| Dispatch.RouteAnswers | system_service/proto_dispatch.c:372-544 | a request is answered whatever happens, every possible answer echoes its seq, command set and id and fits a frame; other frames are not answered and store nothing |
| DispatchAnswers.RouteRight | system_service/proto_dispatch.c:372-544 | what every command is answered, octet by octet: connection state, length checks, missing SSID, AP name and passphrase cut to 255 octets, IN_PROGRESS, status codes, refusals |
| DispatchAnswers.RepliesAreRight | system_service/proto_dispatch.c:372-544 | in every reachable state the i-th reply sent is the right answer to the i-th request, given what was true while it was handled |
| DispatchAnswers.AnswersFromWire | system_service/proto_dispatch.c:372-561 | end to end: the i-th response decoded from the bytes written is the right answer to the i-th request decoded from the input |
| DispatchAnswers.AcceptedFrames | system_service/proto_dispatch.c:422-455 | which frames store an SSID or a password, connect or scan, by their octets |
| DispatchAnswers.StoredExactly | system_service/proto_dispatch.c:193-200 | an SSID is stored exactly when an earlier frame gave one of 1 to 32 octets |
| DispatchAnswers.PushOctets | system_service/proto_dispatch.c:130-151 | the status codes 0, 2, 3, 4 and 255 of each outcome, and the octets of a push |
| DispatchAnswers.WireOctets | system_service/protocol.c:50-80 | a frame on the wire octet by octet |
| DispatchAnswers.ScanOctets | system_service/protocol.h:65-78 | a scan payload and an entry octet by octet |
| Dispatch.RouteKeepsLatest | system_service/proto_dispatch.c:422-455 | the stored SSID and password are those accepted last |
| Dispatch.ConnectUsesLatest | system_service/proto_dispatch.c:193-243 | CONNECT is refused with NO_SSID exactly when no SSID was ever accepted; its job carries its seq and the credentials accepted last |
| Dispatch.JobComesFromItsCommand | system_service/proto_dispatch.c:372-544 | a connect job comes from a CONNECT and a scan job from a SCAN |
| Dispatch.PushesValid | system_service/proto_dispatch.c:130-191 | every frame a worker sends fits the codec and carries its request's seq |
| Dispatcher.SendProtoFrame | system_service/proto_dispatch.c:80-104 | a frame is encoded and handed to the sink; it comes out short only behind a write that failed or took nothing; an oversized payload is not sent |
| Dispatcher.SendResponse | system_service/proto_dispatch.c:106-112 | a one-byte response that echoes the request is sent |
| Dispatcher.SendResponseData | system_service/proto_dispatch.c:114-128 | a response with an error code and data is sent exactly when it fits a frame, nothing otherwise |
| Dispatcher.CommandDispatcher.HandleSsid | system_service/proto_dispatch.c:422-437 | the buffer holds the payload exactly when its length is in range; otherwise the store is unchanged |
| Dispatcher.CommandDispatcher.HandlePasswd | system_service/proto_dispatch.c:439-455 | as for the SSID, for the password |
| Dispatcher.CommandDispatcher.StartWorker | system_service/proto_dispatch.c:193-243 | the sink reference taken for a worker is given back exactly when the thread could not be started |
| Dispatcher.CommandDispatcher.HandleConnect | system_service/proto_dispatch.c:193-243 | what CONNECT does to store, sink and workers is what routing says, for every outcome of allocation and thread start |
| Dispatcher.CommandDispatcher.HandleScan | system_service/proto_dispatch.c:336-368 | the same for SCAN |
| Dispatcher.CommandDispatcher.HandleFrame | system_service/proto_dispatch.c:372-544 | the same for every frame |
| Dispatcher.CommandDispatcher.HandleQuery | system_service/proto_dispatch.c:390-544 | the read-only commands and the refusals send exactly one reply, the one that routing prescribes (its octets are stated by DispatchAnswers.RouteRight) |
| Dispatcher.CommandDispatcher.DispatchNext | system_service/proto_dispatch.c:550-560 | the frame at an offset is decoded and handled, or the walk stops there |
| Dispatcher.CommandDispatcher.DispatchBuffer | system_service/proto_dispatch.c:546-561 | a buffer is handled as its leading frames one after the other, and the walk ends |
| SessionLifetime.LifetimeAlways | system_service/unix_ipc.c:48-135 | in every reachable state of one reader and any number of workers, failed starts included, the reference count is the references held and exactly one thread has to free the object once it is zero |
| SessionLifetime.FreedExactlyOnce | system_service/unix_ipc.c:81-135 | no access after free; at most one free and one close; when all threads are gone the object was freed once and closed once |
| SessionLifetime.NoWriteAfterClose | system_service/unix_ipc.c:48-71 | however a run goes on after the close, the bytes on the socket stay the same |
| SessionTraffic.WireIsFrames | system_service/unix_ipc.c:48-71 | up to the first short, failed or dropped write the bytes on the socket are whole frames in lock order, and decoding them gives back exactly the frames sent |
| SessionTraffic.RequestsAnsweredInOrder | system_service/proto_dispatch.c:372-561 | end to end: the i-th response decoded from the socket answers the i-th request decoded from the input, and there are as many |
| SessionTraffic.RepliesAlways | system_service/proto_dispatch.c:372-544 | in every reachable state replies are in request order, at most one is owed, and a CONNECT is refused with NO_SSID exactly when no SSID was accepted before it |
| SessionTraffic.ConnectWorkerJob | system_service/proto_dispatch.c:193-243 | every connect worker belongs to one CONNECT of this connection and runs with its seq and the credentials accepted last before it; no request starts two |
| SessionTraffic.ConnectWorkerPushesOnce | system_service/proto_dispatch.c:162-191 | a finished connect worker has sent exactly one PUSH_RESULT, with its seq and its outcome |
| SessionTraffic.ScanWorkerJob | system_service/proto_dispatch.c:336-368 | every scan worker belongs to one SCAN of this connection and carries its seq; no request starts two |
| SessionTraffic.ScanWorkerDelivers | system_service/proto_dispatch.c:303-334 | the frames of a finished scan worker carry the seq of its SCAN and read back as exactly the scan list |
| SessionPushes.PushesFromWire | system_service/proto_dispatch.c:130-136 | the pushes of a kind and seq decoded from the bytes on the socket are exactly what the one worker with that kind and seq sent, as long as every write went out whole |
| SessionPushes.ScanFromWire | system_service/proto_dispatch.c:303-334 | end to end: the scan pushes with a seq decoded from the bytes reassemble to the list its worker found |
| SessionPushes.ResultFromWire | system_service/proto_dispatch.c:162-191 | end to end: the bytes hold exactly one PUSH_RESULT with the seq of a finished connect worker, carrying its outcome |
| SessionProgress.ReaderCanMove | system_service/unix_ipc.c:102-135 | in every reachable state the reader can take its next step, with every outcome of its call |
| SessionProgress.WorkerCanMove | system_service/proto_dispatch.c:162-191 | so can every worker, with every result that fits its job and every number of bytes that get out |
| SessionPromises.RouteProgress | system_service/proto_dispatch.c:372-544 | no answer but that of a CONNECT or SCAN whose worker started says IN_PROGRESS |
| SessionPromises.InProgressIsAPromise | system_service/proto_dispatch.c:193-243 | in every reachable state a request was answered with IN_PROGRESS exactly when a worker was started for it, and each worker is for one request |
| SessionPromises.AcceptedConnectIsPushed | system_service/proto_dispatch.c:162-243 | a CONNECT answered with IN_PROGRESS has its worker, and once that has finished, exactly one PUSH_RESULT with the seq of that CONNECT was sent by it |
| Watch.WithoutHolds | libgdbus/watch.c:368-385 | removing a watch from a list removes that one only |
| Watch.ActKeepsLock | libgdbus/watch.c:368-398 | whatever a callback does, a filter that is being delivered stays, and its list only shrinks |
| Watch.Round | libgdbus/watch.c:405-424 | one round of the delivery loop keeps the filter and shortens its list |
| Watch.AddStands | libgdbus/watch.c:322-347 | adding keeps the table equal to the set of registered watches, each once and under its rule |
| Watch.RemoveStands | libgdbus/watch.c:368-398 | so does removing, from whichever of the two lists the watch is in |
| Watch.DeliverIsWalk | libgdbus/watch.c:400-427 | the loop that consumes and rebuilds the list while callbacks change it equals one pass over a snapshot that skips watches removed before their turn |
| Watch.DispatchIsWalk | libgdbus/watch.c:556-564 | the same for the locked section around the loop: same calls, same events, same watches left |
| Watch.WalkFacts | libgdbus/watch.c:400-427 | what such a pass amounts to: turns, order, and exactly the watches there or added and not removed |
| Watch.DeliveryCorrect | libgdbus/watch.c:400-427 | a delivery is sound exactly when no callback removes its own watch and returns FALSE; then each watch present and not removed before its turn is called once, in order, none added meanwhile is called, and the filter is left unlocked with `processed` empty and exactly the unremoved watches |
| WatchRuns.AlwaysStands | libgdbus/watch.c:322-398 | after any run of adds, removes and deliveries the table holds exactly the registered watches |
| WatchRuns.EveryDelivery | libgdbus/watch.c:556-564 | so every delivery after any run is correct in the sense above |
| WatchRuns.ConsiderateDelivery | libgdbus/watch.c:556-564 | a condition on the callbacks alone, that none removes its own watch and returns FALSE, makes every delivery sound |
| WatchRuns.ConsiderateRuns | libgdbus/watch.c:400-427 | with such callbacks no run of adds, removes and deliveries goes wrong |
| WatchRuns.SelfFreeingFaults | libgdbus/watch.c:408-424 | one watch that removes itself and returns FALSE makes the loop use a freed callback |
| WatchOrder.AddComesLast | libgdbus/watch.c:322-347 | a new watch gets the next id and comes last, or behind those handled so far while the rule is being delivered |
| WatchOrder.DeliveryKeepsOrder | libgdbus/watch.c:400-427 | a delivery leaves the watches of every rule in the order in which they stood, and those added meanwhile in the order of adding |
| WatchOrder.RunKeepsOrder | libgdbus/watch.c:322-427 | over every run of adds, removes and deliveries the watches of a rule that are still there keep their order |
| WatchOrder.CalledInTheSameOrder | libgdbus/watch.c:556-564 | two watches called by a delivery and again by any later one are called in the same order both times |
| WatchOrder.DroppedExactly | libgdbus/watch.c:368-398 | a rule goes exactly when the removed watch was its only one, it is not being delivered and the bus lets go of it |
| WatchTable.Listeners.constructor | libgdbus/watch.c:43-44 | no listeners at the start |
| WatchTable.Listeners.AddSignalWatch | libgdbus/watch.c:735-760 | the add call does what the function says and returns the new id, or 0 and no change when the bus refuses the rule |
| WatchTable.Listeners.FindCallback | libgdbus/watch.c:286-304 | a watch is found exactly when it is in one of the two lists |
| WatchTable.Listeners.DropCallback | libgdbus/watch.c:368-398 | removal as specified; a locked filter is never dropped |
| WatchTable.Listeners.RemoveById | libgdbus/watch.c:790-810 | TRUE exactly when the watch was registered |
| WatchTable.Listeners.CallFirst | libgdbus/watch.c:405-424 | one round of the loop as specified |
| WatchTable.Listeners.SignalFilter | libgdbus/watch.c:400-427 | the whole loop as specified; it ends for any callback behaviour |
| WatchTable.Listeners.DeliverSignal | libgdbus/watch.c:556-564 | lock, deliver, restore, as specified |
| WifiSwitchSafety.StaSafe | system_service/wifi_switch.c:1163-1321 | no command of the STA join runs both daemons or gives up the mutex |
| WifiSwitchSafety.ApSafe | system_service/wifi_switch.c:1327-1375 | nor does one of the AP start |
| WifiSwitchSafety.MoveSafe | system_service/wifi_switch.c:1163-1803 | for every thread: outside the mutex a step leaves the radio alone; the mutex is taken only when free and is held exactly between taking and releasing it |
| WifiSwitchSafety.MoveBooks | system_service/wifi_switch.c:1505-1803 | every step keeps the books of its thread: locks against unlocks, one answer per call, BUSY only without the mutex |
| WifiSwitchSafety.MovePolls | system_service/wifi_switch.c:1505-1577 | every step keeps the miss counter honest: recovery is entered only on two misses in a row |
| WifiSwitchSafety.MoveOutcome | system_service/wifi_switch.c:1678-1803 | every step under the mutex keeps what run-now and ensure-AP know of the radio and of the AP they found, in spite of deaths |
| WifiSwitchRuns.SwitchAlways | system_service/wifi_switch.c:1163-1803 | all of this holds in every reachable state, with threads starting and daemons dying at any time |
| WifiSwitchRuns.MutualExclusion | system_service/wifi_switch.c:1163-1375 | hostapd and wpa_supplicant never both run, no two threads are in the critical section, no daemon command and no unlock by a thread that does not hold the mutex |
| WifiSwitchRuns.OnlyHolderMovesRadio | system_service/wifi_switch.c:1163-1803 | the radio changes only through the holder of the mutex or because something died on its own |
| WifiSwitchRuns.ReturnedThreads | system_service/wifi_switch.c:1678-1803 | every call that returned released the mutex as often as it took it; BUSY exactly when it never took it, and then it sent no command |
| WifiSwitchRuns.BusyIffHeld | system_service/wifi_switch.c:1686-1694 | the trylock is refused exactly when some thread is in the critical section, and then nothing changes |
| WifiSwitchRuns.RecoveryAfterTwoMisses | system_service/wifi_switch.c:1505-1577 | the monitor goes for the mutex and the radio only right after two polls in a row that saw neither AP nor connection |
| WifiSwitchRuns.RunNowOutcome | system_service/wifi_switch.c:1678-1772 | in every reachable state: run-now about to return OK has hostapd down, wpa_supplicant up unless it died since the mutex was taken, an address unless one was lost since then; about to fail, an AP that was up when the mutex was taken is up unless bringing it back failed or hostapd died since then |
| WifiSwitchRuns.EnsureApOutcome | system_service/wifi_switch.c:1774-1803 | ensure-AP about to return OK has wpa_supplicant down, and hostapd up unless it died since the mutex was taken |
| WifiSwitchOutcomes.HolderIsAlone | system_service/wifi_switch.c:1163-1803 | however other threads step and start in between, as long as nothing dies, the holder of the mutex and the radio are where its own steps have brought them |
| WifiSwitchOutcomes.JoinReturns | system_service/wifi_switch.c:1163-1321 | a join ends with NO_SSID exactly when the scan fails, UNKNOWN exactly when the configuration cannot be written, BAD_PASSWORD exactly when the association is refused for the key, OK exactly when everything goes well, CONNECT_FAIL otherwise; success leaves the supplicant alone with an address |
| WifiSwitchOutcomes.ApReturns | system_service/wifi_switch.c:1327-1375 | bringing up the AP leaves the supplicant down, and reports success exactly when configuration, start and check go well, with hostapd up then |
| WifiSwitchPromises.ConnectChecks | system_service/wifi_switch.c:1694-1718 | no credentials, or a radio that is not ready, end the call with UNKNOWN or CONNECT_FAIL and without a command; otherwise it goes on to look at the AP |
| WifiSwitchPromises.ConnectEnds | system_service/wifi_switch.c:1719-1772 | in every reachable state and for every interleaving, run-now gets from there to the unlock with the status of the first command that fails; after a failed join an AP that was up is brought up again |
| WifiSwitchPromises.ConnectSucceeds | system_service/wifi_switch.c:1719-1772 | if every command goes well it gets to the unlock with OK, hostapd down, the supplicant up and an address, and a run that does so exists |
| WifiSwitchPromises.BootSettles | system_service/wifi_switch.c:1583-1669 | the boot thread ends with the stored network joined, or with the AP brought up: without credentials, and after every failed join |
| WifiSwitchPromises.RecoverySettles | system_service/wifi_switch.c:1543-1577 | a recovery with credentials joins the network again or brings the AP up |
| WifiSwitchPromises.RecoveryWithoutCreds | system_service/wifi_switch.c:1543-1552 | without credentials it leaves an AP that is up alone and brings it up otherwise |
| WifiSwitchPromises.EnsureEndsUp | system_service/wifi_switch.c:1774-1803 | ensure-AP ends with OK exactly when the AP is up already or all it takes to start it goes well; otherwise with CONNECT_FAIL |
| WifiSwitchPromises.UnlockAnswers | system_service/wifi_switch.c:1678-1803 | the answer of a call is the status it releases the mutex with; the monitor and the boot thread go on polling |
| WifiSwitchPromises.LockedAt | system_service/wifi_switch.c:1505-1803 | what each entry point does first under the mutex |
| WifiSwitchPromises.BootRemembersCreds | system_service/wifi_switch.c:1583-1610 | the boot thread remembers whether it could read credentials and gives up without wlan0 |
| WifiSwitchPromises.PollsAreHonest | system_service/wifi_switch.c:1505-1535 | a poll is recorded as what the radio shows at that step |
| WifiSwitchPromises.SecondMissRecovers | system_service/wifi_switch.c:1505-1535 | the second poll in a row that sees neither leads to the mutex |
| WifiSwitchRuns.HolderCanMove | system_service/wifi_switch.c:1505-1803 | the holder of the mutex can always take its next step |
| WifiSwitchRuns.RankDrops | system_service/wifi_switch.c:1163-1803 | each step of the holder releases the mutex or comes closer to it |
| WifiSwitchRuns.MutexIsReleased | system_service/wifi_switch.c:1505-1803 | however a run goes on, other threads stepping and starting and daemons dying in between, a thread that takes 33 steps of its own does not hold the mutex throughout |
| ObjectPaths.ChildOnTheWay | libgdbus/object.c:218-224 | a child name is one non-empty path element, and the path it makes is the registered path or above it |
| ObjectPaths.ParentPath | libgdbus/object.c:694-703 | cutting a path at its last slash gives a shorter path, so the recursion ends |
| ObjectPaths.AncestorsExact | libgdbus/object.c:688-736 | the recursion visits exactly the proper ancestors of a path |
| Introspection.ClearedCovers | libgdbus/object.c:708-721 | it clears the cache of every registered proper ancestor and of no other object |
| Introspection.ChildrenUnchanged | libgdbus/object.c:218-224 | adding or removing a path changes the child list of its proper ancestors only |
| Introspection.RegisterRefines | libgdbus/object.c:1331-1366 | registering keeps every cache fresh and acts like the registry without caches, failure paths included |
| Introspection.UnregisterRefines | libgdbus/object.c:1368-1392 | so does unregistering, down to the removal of the object |
| Introspection.IntrospectRefines | libgdbus/object.c:233-251 | so does Introspect; the text sent is what regenerating it would give |
| Introspection.CachesAreInvisible | libgdbus/object.c:193-251 | over any run of register, unregister and Introspect calls each cached text is absent or equal to what regenerating it now gives, and every reply equals that of the registry without caches |
| Introspection.UsableExactly | libgdbus/object.c:1175-1207 | an interface is usable exactly when one method, signal or property of it is not hidden |
| Introspection.RegisterExactly | libgdbus/object.c:1331-1366 | a registration succeeds exactly when the path is known or acceptable, the name is free there and one member is not hidden |
| Introspection.RegisterAdds | libgdbus/object.c:1331-1366 | it puts the interface behind those there are, Properties behind it when it is the first with properties, counts the reference, and leaves other paths alone |
| Introspection.UnregisterUndoes | libgdbus/object.c:1331-1392 | unregistering what was just registered restores the registry exactly when the registration did not bring the Properties interface to an object that lacked it |
| Introspection.PropertiesStay | libgdbus/object.c:1356-1360 | an interface with properties registered beside one without, and unregistered, leaves the Properties interface behind |
| ObjectRegistry.FindInterface | libgdbus/object.c:598-613 | the first interface of a name, if any |
| ObjectRegistry.Connection.InvalidateParents | libgdbus/object.c:688-736 | the recursive walk clears exactly the registered ancestors and returns one of them if there is any |
| ObjectRegistry.Connection.RemoveInterface | libgdbus/object.c:646-657 | the first interface of the name leaves the list |
| ObjectRegistry.Connection.ObjectPathRef | libgdbus/object.c:1229-1264 | as specified, with the stale empty text of a new object |
| ObjectRegistry.Connection.ObjectPathUnref | libgdbus/object.c:1266-1288 | as specified |
| ObjectRegistry.Connection.RegisterInterface | libgdbus/object.c:1331-1366 | the call computes the specified registry and result |
| ObjectRegistry.Connection.UnregisterInterface | libgdbus/object.c:1368-1392 | likewise |
| ObjectRegistry.Connection.HandleIntrospect | libgdbus/object.c:233-251 | likewise |
| Signature.ArgsHaveSignature | libgdbus/object.c:615-634 | TRUE exactly when the message signature is the concatenation of the argument signatures and the table does not end in an empty one; for tables of non-empty signatures, null table included, exactly equality with the concatenation |
| Signature.TrailingEmptyRefused | libgdbus/object.c:615-634 | a table that ends in an empty signature is refused though the concatenation agrees |
| IwScan.DecodeIwSsid | system_service/wifi_switch.c:1857-1872 | the buffer receives the decoded octets up to its capacity and nothing past them |
| IwScan.DecodeInverts | system_service/wifi_switch.c:1857-1872 | decoding inverts every way of printing octets as themselves (not backslash or NUL) or as \xNN |
| IwScan.CodeItemExact | system_service/wifi_switch.c:1922-1957 | looking for keywords in the stripped line finds what is in the whole line |
| IwScan.FeedIsSummary | system_service/wifi_switch.c:1926-1957 | feeding line after line gives the last SSID, signal and frequency and whether any line shows each security mark |
| IwScan.CommitIsUsable | system_service/wifi_switch.c:1877-1900 | committing a block extends the first `cap` usable entries as it should |
| IwScan.ParseLines | system_service/wifi_switch.c:1917-1961 | the one-pass loop equals: split at BSS headers, sum up each block, keep the first `cap` usable ones |
| IwScan.ParseIwScan | system_service/wifi_switch.c:1902-1964 | the same for every text |
| IwScanLaws.ScanLaw | system_service/wifi_switch.c:1902-1964 | every result is what the lines of one block say, blocks come in the order of the text, and every block with an SSID and a 2.4 or 5 GHz frequency is among them unless the capacity was reached before it |
| IwScanLaws.EntryLaw | system_service/wifi_switch.c:1837-1900 | a block yields an entry exactly when its last SSID line gives a character and its last freq line is in [2400,2500) or [5000,6000); band, signal (last line as a signed octet, or -100) and authentication type as the lines say |
| IwScanLaws.AuthLaw | system_service/wifi_switch.c:1837-1851 | the six authentication types, each exactly when the words of the block say so |
| IwScanLaws.FieldWords | system_service/wifi_switch.c:1926-1947 | which word in front makes a line what |
| IwScanLaws.SplitAtHeaders | system_service/wifi_switch.c:1917-1924 | every text splits into blocks at its BSS lines, and that is how it is read |
| IwScanLaws.SplitIsUnique | system_service/wifi_switch.c:1917-1924 | there is only one way to split it |
| IwScan.HexDigits | system_service/wifi_switch.c:1861-1866 | hexadecimal digits of either case |
| IwScan.ScanReachesPhone | system_service/wifi_switch.c:1902-1964 | every result has an SSID of 1 to 32 octets, meets what the chunker asks for, and is what the phone decodes from the push payloads |
| HomeWifi.ReadHomeWifi | system_service/wifi_switch.c:179-220 | the reading loop computes the specified pair, or nothing for a missing file or SSID |
| HomeWifiLaws.AssignmentLaw | system_service/wifi_switch.c:197-206 | a line sets its key to its value whatever white space is around either, bare, in single or in double quotes |
| HomeWifiLaws.ReadLaw | system_service/wifi_switch.c:179-220 | the last line of each key counts; there are credentials exactly when the last HOME_SSID line keeps a character |
| HomeWifi.ReadValues | system_service/wifi_switch.c:179-220 | a value read never holds a newline and always fits its buffer |
| HomeWifi.PersistRoundTrip | system_service/wifi_switch.c:246-279 | after a successful write the pair is read back exactly when neither value holds a newline and both fit the reader's buffers |
| HomeWifi.NewlineIsLost | system_service/wifi_switch.c:246-279 | an SSID with a newline is accepted by the writer and reads back as something else |
| HomeWifi.WriterOk | system_service/wifi_switch.c:224-244 | at every step of the replacement the file is the old one, or the whole new one once success is returned |
| HomeWifi.NeverAMix | system_service/wifi_switch.c:224-279 | wherever the writer stops and whatever fails, the file reads as the old pair or the new one |
| HomeWifi.ReaderSeesLastStored | system_service/wifi_switch.c:179-279 | after any number of writes, one after the other and each stopped anywhere, a reader sees the last pair whose write returned success |
| HomeWifiWriters.NeverStuck | system_service/wifi_switch.c:224-244 | in every run of overlapping writers a call that has not returned can take its next step |
| HomeWifiWriters.HarmlessOpensAreSafe | system_service/wifi_switch.c:224-279 | for any number of threads that store credentials, with failures and restarts anywhere: as long as the temporary file is opened only while every other call is past renaming it, or has just opened the same file for the same pair, a reader sees the pair of the last call that returned success |
| HomeWifiWriters.OneWriterIsSafe | system_service/wifi_switch.c:224-279 | in particular when no call opens the temporary file while another may still rename it |
| HomeWifiWriters.OverlapHarms | system_service/wifi_switch.c:224-244 | conversely, one call that is anywhere else on its way to the rename is enough: after such an open, further calls that all succeed lead to a reader who does not see what was reported as stored, equal pairs included |
| HomeWifiWriters.OpenAfterRun | system_service/wifi_switch.c:224-279 | after any run of such harmless opens, opening the temporary file is safe against every continuation with harmless opens exactly when every other call is past renaming it or has just opened the same file for the same pair |
| HomeWifiWriters.OverlapLoses | system_service/proto_dispatch.c:162-191 | failing input: from any files with any two pairs, the same one twice included, an overlap after which the first call reports success and nothing is read, as CONNECT workers take no lock around storing |
| Hostapd.ReplaceLines | system_service/wifi_switch.c:646-668 | the loop computes the replaced lines and notices which were found, or overflows exactly when they do not fit |
| Hostapd.RewriteText | system_service/wifi_switch.c:646-687 | the text to be written is the specified one; refused exactly when it does not fit |
| Hostapd.RewriteHostapdChannel | system_service/wifi_switch.c:630-689 | file and result for an unreadable file, an overflow and every outcome of the final write |
| Hostapd.RewriteOutcome | system_service/wifi_switch.c:630-689 | success exactly when the file was read, the text fits and the write was whole; then the requested lines are there, credentials are unchanged and a second call changes nothing, if the reader can hold the file; failure before the file is opened for writing leaves it alone (what a write that is cut short does is stated by HostapdLoss.SafeExactlyWithout) |
| Hostapd.RewrittenAsRequested | system_service/wifi_switch.c:646-688 | at least one channel= and one hw_mode= line, all with the requested values |
| Hostapd.RewrittenKeepsOthers | system_service/wifi_switch.c:646-668 | every other non-empty line is kept, in order, and nothing else is added |
| HostapdLaws.RewrittenSays | system_service/wifi_switch.c:539-543 | afterwards there is a mode line and all say a for 5 GHz and g for 2.4 GHz; there is a channel line and all give the channel in decimal |
| HostapdLaws.CredentialsLaw | system_service/wifi_switch.c:581-621 | the SSID comes from the last ssid= line and the passphrase from the last wpa_passphrase= line, trimmed and cut to the buffer; none found is an error or an empty passphrase |
| HostapdLoss.GotSsid | system_service/wifi_switch.c:598-620 | credentials are found exactly when some line starts with ssid= |
| HostapdLoss.LinesOfCut | system_service/wifi_switch.c:61-95 | each line of a file that was cut short is the beginning of a line of the whole |
| HostapdLoss.SafeExactlyWithout | system_service/wifi_switch.c:61-79 | a rewrite whose text fits the reader keeps what is read of the credentials, however the final write goes, exactly when there were none |
| HostapdLoss.CutShortLoses | system_service/wifi_switch.c:61-79 | failing input: a file with an SSID and a write that stops right after emptying it |
| HostapdLoss.OverlongLoses | system_service/wifi_switch.c:630-689 | failing inputs: a rewrite that succeeds but makes a file of 8191 characters longer than what is read of it, so that the SSID reads as empty |
| HostapdLoss.OverlongExample | system_service/wifi_switch.c:630-689 | one such file, exhibited |
| Hostapd.GetApCredentials | system_service/wifi_switch.c:581-621 | the reading loop computes the specified credentials, and nothing for an unreadable file or one without ssid= |
| Hostapd.RewriteIsStable | system_service/wifi_switch.c:581-689 | a rewritten file within the read buffer is rewritten to itself, keeps the other lines, and yields the same credentials |
| ArgString.ParseCombinedArgString | QLauncher/xdgdesktopfile.cpp:647-685 | the loop computes the specified argument list |
| ArgString.ReadTripled | QLauncher/xdgdesktopfile.cpp:657-672 | inside quotes, tripled quotes and everything else are read as the argument itself |
| ArgString.ParsePrint | QLauncher/xdgdesktopfile.cpp:647-685 | printing any list (quotes around, inner quotes tripled, single spaces between) and splitting it gives the list without its empty arguments |
| ArgString.RoundTripExactly | QLauncher/xdgdesktopfile.cpp:647-685 | the round trip gives the same list exactly when no argument is empty |
| ArgString.ParseWords | QLauncher/xdgdesktopfile.cpp:647-685 | any words made of bare and quoted pieces, with any spaces before, between and after them, are split into exactly the non-empty arguments they stand for |
| ArgString.ParsePlain | QLauncher/xdgdesktopfile.cpp:673-683 | words without quotes or spaces come out exactly as they are |
| ArgString.QuoteRun | QLauncher/xdgdesktopfile.cpp:654-671 | of a run of quotes every third is a character, and one or two stay pending |
| ArgString.EmptyArgumentLost | QLauncher/xdgdesktopfile.cpp:673-683 | an empty argument is lost |
| ShellQuote.ShellQuote | system_service/wifi_switch_a733.c:124-149 | succeeds exactly when length + 3 per quote + 3 fits the capacity, then holds the quoted text and a NUL, and never writes past the capacity |
| ShellQuote.ReadQuoted | system_service/wifi_switch_a733.c:124-149 | by sections 2.2.1 and 2.2.2 of the POSIX Shell Command Language the output, followed by anything that ends a word, is one word equal to the input, the empty word included |
| TopProcs.FindPrevTicks | system_service/sys_stat.c:449-455 | the ticks of the first sample of the pid, 0 if there is none |
| TopProcs.DeltasExact | system_service/sys_stat.c:473-481 | an entry is in the list exactly when it is that of a current process that ran |
| TopProcs.EntriesMean | system_service/sys_stat.c:449-481 | a current process that is new has an entry for all its ticks, another one for the ticks beyond those of its first earlier sample, if there are any |
| TopProcs.EntryMeans | system_service/sys_stat.c:449-481 | and every entry is of that kind |
| TopProcs.DeltasDistinct | system_service/sys_stat.c:473-481 | distinct pids in the sample give distinct pids in the table |
| TopProcs.Collect | system_service/sys_stat.c:471-481 | the table holds the entries in order, as many as it has room for |
| TopProcs.Best | system_service/sys_stat.c:487-489 | the first of the largest entries from i on |
| TopProcs.Select | system_service/sys_stat.c:485-495 | one round brings it to its place, keeps those before it and permutes the rest |
| TopProcs.ComputeTop | system_service/sys_stat.c:465-501 | min(limit, number of entries) results in non-increasing order, none left out exceeds one returned, results and left-outs are a permutation of the entries, pids stay distinct |

## Left out

- Frame reassembly across socket reads: each read is dispatched on its own, so it is not a property of the code.
- The lifetime of job structs in `trigger_wifi_connect`, which logs the job after its worker may have freed it; ownership is stated for sink references only.
- Logging, hex dumps, allocation failure of small buffers, and the accept loop of `unix_ipc_thread`.
- A write interrupted by a signal is part of the write it repeats; an SSID or password with embedded NUL octets is carried as octets although the switch takes C strings.
- `system`, `popen`, sleeps and probes: commands are steps with arbitrary outcomes, `killall` takes effect at once, and `pidof` and `ip addr` tell the truth; dnsmasq, the link state and rfkill are not part of the radio's state.
- WifiSwitchRuns.MutualExclusion: assumes that hostapd and wpa_supplicant do not both run already when the service starts.
- WifiSwitchRuns.MutexIsReleased: says nothing about who takes the mutex next; a caller that only tries it can be refused every time, because the code has no queue.
- `scan_target_band`, `persist_band`, `read_band` and `explain_sta_assoc_failure` appear only as step outcomes.
- IwScan.ParseIwScan: takes the C library's strtoul and strtod as parameters, since number syntax is not the point.
- HomeWifi.ReaderSeesLastStored: one writer at a time; overlapping calls are the subject of HomeWifiWriters.
- HomeWifi.NeverAMix: a crash stops the program; loss of data that the operating system has not yet flushed is not modelled.
- HostapdLoss.SafeExactlyWithout: does not say for a single cut which credentials survive it; for a text that no longer fits the reader only the failing input and one direction are given.
- Hostapd.RewriteIsStable: holds for a rewritten file that fits the 8192-byte read buffer, because a longer one is cut when it is read again.
- Name and service watches, `service_filter`, the deletion of empty listeners in `message_filter`, `g_dbus_remove_all_watches`, and wrap-around of the listener id.
- WatchTable.Listeners.AddSignalWatch: a refused rule is an outcome given from outside; a rule that is already listened to is never refused by the code, which the parameter does not enforce.
- WatchTable.Listeners.DeliverSignal: no nested delivery of the same filter from inside a callback.
- Introspection.CachesAreInvisible: documents are compared by what they are made from (interfaces in order, set of child names), which determines the text while the flags stay the same; the object manager, signals and parent links are not modelled, and destroy callbacks do not call back into the registry.
- Property signals, `pending_prop` and the InterfacesAdded/InterfacesRemoved bookkeeping of `object.c`.
- `doUnEscape` and the rest of the desktop-file reader.
- ShellQuote.ShellQuote: null arguments, which are refused, are not represented.
- CPU percentages: ordering is proved on integer tick deltas.
- Qt applications, BLE, time sync, UART logging, `libIPCProtocol`, `dbserver`, `librkdb`: interface, device and database glue.
