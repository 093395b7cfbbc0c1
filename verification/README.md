# A verified model of the AF_XDP device plugin

The AF_XDP plugins for Kubernetes hand network devices, or slices of them, to pods. This project models the
parts of the device plugin in which state, order and text formats interact, and proves what they guarantee
together, for all inputs and over whole runs:

- **Pool assignment.** `GetPoolConfigs` goes through the configured pools and assigns whole devices (mode
  `primary`) or blocks of 64 lazily created subfunctions (mode `cdq`) from one shared map of device objects, which
  Go iterates in arbitrary order. `PoolModel`, `PoolTheorems` and `PoolRuns` describe runs on values and prove
  exclusivity, conservation and exactness, `PoolShares` how much of each device a pool gets; `Networking` and
  `DevicePlugin` hold the device objects and the engine,
  whose methods are proved to perform exactly such a run, for every iteration order.
- **The handshake.** `Handshake` is the Unix domain socket server as a function from what it reads to everything it
  does; `UdsServer` is the server object, whose `Start` is proved to do just that. `Requests` covers printing, the
  64-byte read buffer and parsing. `Lockstep` composes server and client through two message queues, with steps of
  either side in any order; `GoClient` is the client object, and proves that it does the client's part of any such
  run.
- **Allocation and BPF file systems.** `Allocation` and `PoolManager` are `Allocate`; `Admission` decides which pods
  the resulting server accepts; `BpfMaps` and `MapManagers` are the per-device mounts, their stale map entries and
  their deletion, over whole runs. `Lifecycle` connects them to pool assignment: what it guarantees of the mounts
  and servers of the emitted pools.
- **Kernel versions.** `Tools` relates the integer encoding of versions to the order of versions.

Objects the source updates in place are classes; each method is proved against a function or relation on values,
and the theorems are about those.

## How the model treats the outside world

- Everything outside the plugin answers arbitrarily: driver lookups, the order of map iteration, success of reads,
  writes, busy poll configuration, device cycling, program loading, pinning, mounts and directory operations, and
  random names. Where a theorem needs an answer to go one way it says so in a `requires` clause.
- Strings are sequences of bytes. A message longer than the read buffer is cut off, as a `unixpacket` socket does.
  A descriptor keeps its number when it travels; only "present and positive" matters to either side.
- A read of the client fails only when the server has stopped. Timeouts of the server are failed reads, possible at
  any time.
- The configured mode is one of the texts `""`, `primary` and `cdq`, or any other text, which no code path supports.
- `%04s` in the version encoding pads with zeros, which is what the tests of the repository expect.

Where code and documentation disagree the model follows the code. `README.md` (line 265) says that
`excludeAddressed` skips devices with an IPv4 address; `validateDevice` skips every device for which the address
lookup returns a list at all. The model keeps the test as an arbitrary set of devices, so the results hold for
either reading. The comment at internal/networking/device.go:279-282 calls a device fully assigned when all its
subfunctions are; the code marks only devices taken whole, so an exhausted device can still be selected
(`PoolShares.YieldsExactly`).

Results that a reader may not expect:

- Pool names stay exclusive on a host exactly when no host device is named like another one's subfunction
  (`PoolRuns.NamesExclusiveExactly`).
- A pool stays within the documented maximum of subfunctions per device exactly if the device is listed at most once, or
  yields nothing, or has no more left than its smallest limit (`PoolShares.MaximumHoldsExactly`); a device listed twice
  yields both limits (`PoolShares.ListedTwiceGetsBoth`).
- A cdq device with no subfunction left is selected all the same and counts against its driver's limit, so it can
  depend on the iteration order whether a pool is emitted at all (`PoolShares.ExhaustedDevicePicked`).
- The subfunction number is extracted correctly exactly when the device's own name does not contain `sf`
  (`Text.SfNumberExact`).
- The version encoding aligns components on the right, so versions that start above zero are compared by their number
  of components first (`Tools.ComparisonExactly`). When that agrees with the order of versions is
  `Tools.ComparisonAgreesExactly`; for the check against `4.18.0`, `Tools.CheckHostExactly`. The check refuses `5.15`
  (`Tools.NewerVersionRefused`) and accepts `4.17.0.1` (`Tools.OlderVersionAccepted`).
- A client that was refused because the pod resources API failed reads the second refusal as the answer to its call,
  and `RequestBusyPoll` then reports success (`Lockstep.RefusedPollReportsSuccess`); a reply answers the call it was
  read for exactly when the client was connected (`Lockstep.GoodExactlyWhenConnected`); a busy poll request without a
  descriptor gets two replies (`Lockstep.OneReplyExactly`).
- `validatePod` accepts a list that repeats a device (`Admission.RepeatedDeviceIsAccepted`), rejects the pod when one
  device could not be cycled (`Allocation.SkippedDeviceRejectsPod`), and rejects a pod whose devices were requested by
  more than one container in one request (`Allocation.SharedServerNeedsOneContainer`).
- A failed removal strands the directory for good (`BpfMaps.FailedRemovalStrands`), and a reused random name lets the
  stale entry of one device delete the mount of another (`BpfMaps.ReusedNameLosesMount`). For any names, a deletion
  removes the device's own mount exactly when its name was not drawn again since
  (`BpfMaps.DeletesOwnMountExactly`).
- Where two pools share a device, a deletion goes to the first of them: it removes the mount of the latest allocation
  exactly if no pool before was given the device (`BpfMaps.DeletesLatestExactly`, `BpfMaps.SharedDeviceKeepsMount`).
  Over all configurations this is excluded exactly on hosts without a device named like another one's subfunction
  (`Lifecycle.DevicesApartExactly`).
- No deletion can reach the mount that allocating a device again supersedes, nor one left by a failed pin, and both stay
  mounted for good (`BpfMaps.DeletableExactly`, `BpfMaps.ReallocationAbandons`, `BpfMaps.FailedPinAbandons`).

## Model

| member | source | states |
|---|---|---|
| Text.JoinSplit | internal/udsserver/udsserver.go:269 | a text is its pieces joined again, so the comma-separated words of a request determine it |
| Text.SplitJoin | internal/deviceplugin/poolManager.go:285 | splitting undoes joining for a non-empty list of pieces free of the separator |
| Text.SfNameInjective | internal/networking/device.go:99-100 | a subfunction name determines the device and the number, for all names |
| Text.SfNumberExact | internal/networking/device.go:161 | the text between the first two `sf` is the number of every subfunction 1 to 64 if and only if the device name does not contain `sf` |
| Text.SfNumberStuck | internal/networking/device.go:161 | if the device name contains `sf`, all its subfunctions yield the same text |
| Text.AtoiOfItoa | pkg/goclient/goclient.go:93 | every int64 survives printing and parsing |
| Text.AtoiExactly | internal/udsserver/udsserver.go:312-322 | a text is read as a number if and only if it is an optional sign and digits whose value is an int64 |
| Text.DigitsCanonical | internal/networking/device.go:99-100 | numbers are printed without leading zeros |
| Text.WithoutAppend | internal/udsserver/udsserver.go:277 | removing a character works piece by piece: nothing else goes and the order stays |
| Text.ContainsExactly | internal/udsserver/udsserver.go:217 | a request contains a keyword if and only if it is some text, the keyword and some text |
| Tools.ArrayContains | internal/tools/tools.go:29-37 | finds exactly the members of the list |
| Tools.ArrayContainsPrefix | internal/tools/tools.go:41-48 | finds exactly the texts of which a listed text is a prefix |
| Tools.KernelVersionInt | internal/tools/tools.go:90-106 | the padding loop computes the specified encoding or a parse error |
| Tools.KernelIntValue | internal/tools/tools.go:90-106 | with plus signs and a suffix ignored, the encoding is the base-10000 value of the components, and an error exactly beyond int64 |
| Tools.FourComponentsFit | internal/tools/tools.go:90-106 | up to four components always fit |
| Tools.KernelOrder | internal/tools/tools.go:90-106 | for equally many components the integer order is the lexicographic order of the components |
| Tools.MinimumKernelCheck | cmd/deviceplugin/main.go:239-256 | the comparison with the minimum kernel is right for three-part versions |
| Tools.ComparisonIsRightAligned | internal/tools/tools.go:90-106 | what is really compared, for any two versions of up to four components: the components aligned on the right |
| Tools.FewerComponentsCompareOlder | internal/tools/tools.go:90-106 | a version with fewer components compares as older than one that starts above zero, whatever its numbers |
| Tools.ComparisonExactly | internal/tools/tools.go:90-106 | for versions that start above zero: one compares as older if and only if it has fewer components, or equally many and lexicographically smaller ones |
| Tools.ComparisonAgreesExactly | internal/tools/tools.go:90-106 | the comparison agrees with the order of versions (missing components are zeros behind the others) if and only if the lengths are equal or the shared components, and what follows them, decide for the longer version |
| Tools.CheckHostExactly | cmd/deviceplugin/main.go:239-256 | for one to four components: which versions the check accepts, and that this is right if and only if there are three components, or fewer that are below 4.18, or four of which the first three are not below 4.18.0 |
| Tools.NewerVersionRefused | cmd/deviceplugin/main.go:239-256 | 5.15 is newer than 4.18.0 and refused |
| Tools.OlderVersionAccepted | cmd/deviceplugin/main.go:239-256 | 4.17.0.1 is older than 4.18.0 and accepted |
| PoolTheorems.AddSubsContents | internal/deviceplugin/config.go:334-336 | adding a block of subfunctions by name loses none of them and overwrites only those names |
| PoolTheorems.AssignAllProgress | internal/deviceplugin/config.go:315-345 | processing the entries of a pool keeps the device invariant, only grows assignments, and its map is exactly the newly assigned devices |
| PoolTheorems.CandidatesAdmissible | internal/deviceplugin/config.go:217-244 | every entry a pool ends up with was admissible when the pool was started, through all its driver scans |
| PoolTheorems.PoolEffect | internal/deviceplugin/config.go:186-269 | for any configuration and iteration order, a pool's device map is exactly the set of devices and subfunctions that became assigned while it was processed, of the kind its mode asks for and never on a prohibited device |
| PoolTheorems.NoModeConflict | internal/deviceplugin/config.go:315-345 | an entry validated for a pool is never refused for its mode, however many entries were assigned before it |
| PoolTheorems.ScansNeverRepeat | internal/deviceplugin/config.go:239-244 | driver scans append only names absent from everything before them and from the driver's exclusions |
| PoolRuns.ScanOutcomes | internal/deviceplugin/config.go:274-313 | a list is the result of the scan for some iteration order if and only if it holds min(limit, eligible) distinct eligible devices |
| PoolRuns.ScanAdds | internal/deviceplugin/config.go:274-313 | the scan for the k-th driver adds entries with that driver's `secondary`, at most `primary` of them, for devices that have this driver, are on the host, not fully assigned, in no other mode, not prohibited, not in the pool yet, not excluded and not addressed where that matters; and all such devices unless the limit was reached |
| PoolRuns.SelectionComplete | internal/deviceplugin/config.go:206-244 | a pool starts from exactly the usable entries of its own list or of the first configuration with the host's name, and all drivers of the same place are scanned |
| PoolRuns.RunEffects | internal/deviceplugin/config.go:186-269 | every step of every run keeps the device invariant and has the exact effect of its pool |
| PoolRuns.ModeWriteOnce | internal/networking/device.go:61-91 | over any run a mode once set never changes, is primary exactly for whole-assigned devices, and slices only grow |
| PoolRuns.SlotsExclusive | internal/deviceplugin/config.go:186-269 | no device and no subfunction is ever given to two pools |
| PoolRuns.SharedNameIsClash | internal/deviceplugin/config.go:315-345 | a name in two pools means a host device named like a subfunction |
| PoolRuns.ClashIsReachable | internal/deviceplugin/config.go:315-345 | such a host device is enough for some run to give two pools one name |
| PoolRuns.NamesExclusiveExactly | internal/deviceplugin/config.go:186-269 | names are exclusive in every run if and only if the host has no such device |
| PoolRuns.SubfunctionsConserved | internal/networking/device.go:97-119 | at the end of any run the subfunctions in all pools plus the unassigned ones of a cdq device are 64, and no other device has any |
| PoolRuns.WholeDevicesConserved | internal/networking/device.go:61-76 | a device is fully assigned exactly when one pool holds it whole, and never two |
| PoolRuns.SlotsReady | internal/deviceplugin/poolManager.go:219-237 | at the end of the run every device of every pool is assigned, in the pool's mode, and subfunctions have a CDQ driver |
| PoolRuns.CallsRefineCounter | internal/networking/device.go:78-122 | any sequence of slicing calls hands out the sum of the limits up to 64, or all 64 once a limit is not positive |
| PoolShares.EntriesAreCalls | internal/deviceplugin/config.go:315-345 | in cdq mode a pool's entries do to each device what a sequence of slicing calls with their limits does |
| PoolShares.PrimaryPoolNames | internal/deviceplugin/config.go:315-345 | a primary pool holds exactly the devices of its entries |
| PoolShares.PoolShare | internal/deviceplugin/config.go:315-345 | a cdq pool takes of each device the sum of the limits of its entries as far as that goes, or the rest after a limit that is not positive, and nothing without a CDQ driver |
| PoolShares.RepeatedExactly | internal/deviceplugin/config.go:217-244 | a pool has two entries for a device if and only if the configuration lists the device twice and it may be used |
| PoolShares.MaximumHoldsExactly | README.md:263 | the documented maximum per device holds if and only if the device is listed at most once, or may not be used, or has no CDQ driver, or has no more subfunctions left than the smallest of its limits |
| PoolShares.ListedTwiceGetsBoth | internal/deviceplugin/config.go:217-236 | a device that is listed twice yields the sum of both limits |
| PoolShares.YieldsExactly | internal/deviceplugin/config.go:315-345 | a selected device ends up in the pool if and only if the mode is primary, or it is cdq and the device has a CDQ driver and a subfunction left |
| PoolShares.EmittedExactly | internal/deviceplugin/config.go:186-269 | a pool is emitted if and only if the node allows unprivileged BPF in case the pool requires it and one of its selected devices yields something; otherwise, in the first case, nothing changes |
| PoolShares.ExhaustedDevicePicked | internal/deviceplugin/config.go:274-313 | with one exhausted and one usable device the same pool is emitted or empty, depending on the iteration order |
| PoolShares.DocumentedTotal | README.md:269 | a cdq pool with a single driver has at most `primary` times `secondary` subfunctions |
| Networking.Device.NewPrimary | internal/networking/device.go:380-387 | a new host device is its own primary, unset and unassigned |
| Networking.Device.NewPrimaryDevice | internal/networking/device.go:369-390 | fails exactly for an empty name or a missing handler, and otherwise makes an unset and unassigned device with that name and driver |
| Networking.Device.NewSecondary | internal/networking/device.go:410-416 | a new subfunction inherits the mode of its primary |
| Networking.Device.Driver | internal/networking/device.go:190-201 | a driver once known is returned without a lookup and never changes |
| Networking.Device.AssignAsPrimary | internal/networking/device.go:61-76 | takes the whole device exactly in mode unset or primary, and otherwise fails and changes nothing |
| Networking.Device.NewSecondaryDevice | internal/networking/device.go:396-419 | an empty name is refused without a driver lookup; with a name and a known driver the subfunction is always made, in the mode and with the driver of its primary |
| Networking.Device.CreateSecondaries | internal/networking/device.go:97-107 | makes 64 subfunctions numbered 1 to 64 with their names |
| Networking.Device.TakeUnassigned | internal/networking/device.go:109-119 | returns the next min(limit, unassigned) subfunctions in order, or all that remain |
| Networking.Device.AssignCdqSecondaries | internal/networking/device.go:78-122 | succeeds exactly with a CDQ driver in mode unset or cdq; then it returns the next block of min(limit, unassigned), or of all unassigned, and assigned subfunctions stay a prefix; otherwise nothing changes |
| Networking.Device.UnassignedSecondaries | internal/networking/device.go:318-326 | counts what is left of the 64 |
| Networking.Device.ActivateCdqSubfunction | internal/networking/device.go:127-169 | which guard fires and when, that an existing subfunction is reported and never created again, exactly when the host makes it fail, and the number of a created subfunction |
| DevicePlugin.DeviceNames | internal/deviceplugin/configFile.go:259-273 | the list has the name of every entry, in order and with repetitions, so membership is being listed |
| DevicePlugin.Engine.ValidateDevice | internal/deviceplugin/config.go:347-391 | accepts exactly the devices of the host that are not fully assigned, not prohibited and in no other mode, and for a scan those neither listed, nor excluded, nor addressed where that matters |
| DevicePlugin.Engine.GetDeviceListOfDriverType | internal/deviceplugin/config.go:274-313 | for every iteration order: distinct devices, min(limit, eligible) of them; each is on the host, has the driver, is not fully assigned, prohibited, listed, excluded, addressed where that matters, or in another mode; every such device is returned unless the limit was reached; only cached drivers change |
| DevicePlugin.Engine.GetSecondaryDevices | internal/deviceplugin/config.go:315-345 | the objects in the map are those the specification assigns, each under its name |
| DevicePlugin.Engine.ApplyNodeConfig | internal/deviceplugin/config.go:206-215 | the first entry with the host name replaces devices and drivers, and without one both stay |
| DevicePlugin.Engine.ConfiguredDevices | internal/deviceplugin/config.go:217-236 | keeps, in order, exactly the entries with a name whose device is on the host, not fully assigned, not prohibited and in no other mode |
| PoolTheorems.ValidExplicitAppend | internal/deviceplugin/config.go:217-236 | the entries are validated one by one, in order and with repetitions |
| DevicePlugin.Engine.ScanDrivers | internal/deviceplugin/config.go:238-244 | the scans of all drivers form a chain of permitted scan results |
| DevicePlugin.Engine.ResolveTimeout | internal/deviceplugin/config.go:195-204 | -1 becomes 0, 0 becomes the default of 30 seconds and any other timeout is kept; one that passed validation ends up 0 exactly for -1 and otherwise between 30 and 300 |
| DevicePlugin.Engine.ProcessPool | internal/deviceplugin/config.go:186-269 | one pool is one step of the specification, and is emitted exactly when it received a device; a pool that requires unprivileged BPF where the node forbids it is not emitted and changes nothing |
| DevicePlugin.Engine.BuildPools | internal/deviceplugin/config.go:186-269 | all pools together are a run of the specification, for every iteration order, and each emitted configuration has the name, mode, devices, timeout and both switches of its pool |
| DevicePlugin.Engine.GetPoolConfigs | internal/deviceplugin/config.go:186-272 | the emitted pools share no device object, share no name unless the host has a clash, every device is ready for Allocate, no subfunction is lost or made up, and each configuration has the name, mode, timeout and both switches of its pool, and a pool that requires unprivileged BPF where the node forbids it is not among them |
| DevicePlugin.Engine.ConfigReady | internal/deviceplugin/poolManager.go:219-237 | a device of an emitted pool is assigned, in the pool's mode, and for cdq a named subfunction of a CDQ primary |
| DevicePlugin.Engine.ObjectsConserved | internal/networking/device.go:97-119 | the subfunction objects of a cdq device in all emitted pools plus its unassigned ones are 64, and no other device has any |
| DevicePlugin.Engine.WholeObjects | internal/networking/device.go:61-76 | a host device object is fully assigned if and only if an emitted pool holds the object itself |
| Handshake.ConnectGrammar | internal/udsserver/udsserver.go:178-181 | the connection request parses to a name exactly when it is the keyword, a comma and a comma-free rest |
| Handshake.HandleFdGrammar | internal/udsserver/udsserver.go:268-291 | each answer of the descriptor handler is given to exactly one form of request, with the descriptor of the named device |
| Handshake.PollGrammar | internal/udsserver/udsserver.go:301-322 | a busy poll request parses exactly when it has the written form with two integers |
| Handshake.PollRequestIsDispatched | internal/udsserver/udsserver.go:216-232 | a well-formed busy poll request can never be taken for another request |
| Handshake.DispatchEqualsGrammar | internal/udsserver/udsserver.go:216-232 | despite overlapping guards, acknowledgement, refusal, version, busy poll and final answers are each given exactly to the requests of one form |
| Handshake.DispatchRemainder | internal/udsserver/udsserver.go:215-237 | while writes succeed, `/nak` goes exactly to the requests of no form, the server stops exactly after `/fin`, unreadable busy poll numbers or a failed configuration, and only unreadable numbers with a descriptor get no answer |
| Handshake.MapAnsweredExactly | internal/udsserver/udsserver.go:268-291 | a request with the descriptor keyword gets exactly one answer, whichever writes fail, and the server goes on exactly if it was written |
| Handshake.PlainAnsweredExactly | internal/udsserver/udsserver.go:215-237 | requests with neither keyword: the version, the final acknowledgement and stopping, or the bad request answer |
| Handshake.PollAnsweredExactly | internal/udsserver/udsserver.go:293-338 | a request with the busy poll keyword, whichever writes fail: the refusal without a descriptor, which stops the server if it cannot be written, and then the configuration and its answer |
| Handshake.PollIsAnswered | internal/udsserver/udsserver.go:293-338 | a well-formed request with a descriptor is configured with its own numbers and answered once |
| Handshake.BarePollIsAnswered | internal/udsserver/udsserver.go:294-338 | without a descriptor it is refused and then configured and answered all the same |
| Handshake.GreetAdmits | internal/udsserver/udsserver.go:175-200 | the connection is opened exactly for a named pod that is on the node and accepted |
| Handshake.GreetExactly | internal/udsserver/udsserver.go:175-200 | every answer to the first request: none without the keyword, the refusal for a malformed request and for a pod that is absent or not accepted, the error and the refusal when the API fails, and otherwise the admission |
| Handshake.UnknownPodIsRefusedTwice | internal/udsserver/udsserver.go:182-199 | when the pod resources API fails the request gets two answers |
| Handshake.LoopSafe | internal/udsserver/udsserver.go:203-238 | the loop stays safe for any handler whose rounds are safe, over any sequence of reads |
| Handshake.DescriptorSafety | internal/udsserver/udsserver.go:138-239 | in every conversation a descriptor is sent only to acknowledge the request just read, for the device named there, after an admitted first request, and nothing follows the final acknowledgement or a failed read |
| UdsServer.Server.AddDevice | internal/udsserver/udsserver.go:129-131 | records the descriptor and changes no other device |
| UdsServer.Server.HandleFdRequest | internal/udsserver/udsserver.go:268-291 | does what the specification says and stops exactly on a write error |
| UdsServer.Server.HandleBusyPollRequest | internal/udsserver/udsserver.go:293-338 | does what the specification says, including the fall-through after the refusal |
| UdsServer.Server.HandleRequest | internal/udsserver/udsserver.go:215-237 | the dispatch does what the specification says |
| UdsServer.Server.ValidatePod | internal/udsserver/udsserver.go:340-389 | the loops with the `valid` flag accept exactly if some container's non-empty list of ids for the server's type has the right length and only known devices |
| UdsServer.Server.ContainerDevices | internal/udsserver/udsserver.go:358-367 | collects exactly the ids that the container lists for the server's device type |
| UdsServer.Server.Welcome | internal/udsserver/udsserver.go:175-200 | the first request is answered as specified and sets the pod name exactly when admitted |
| UdsServer.Server.ServeRequests | internal/udsserver/udsserver.go:202-238 | the loop produces the specified conversation for every sequence of reads |
| UdsServer.Server.Start | internal/udsserver/udsserver.go:138-239 | everything the server does is the specified conversation |
| Requests.MapRoundTrip | pkg/goclient/goclient.go:63 | a device name reaches the server's lookup unchanged if and only if it has at most 51 bytes and no comma or space |
| Requests.ConnectRoundTrip | pkg/goclient/goclient.go:135 | the same for a host name of at most 54 bytes |
| Requests.PollRoundTrip | pkg/goclient/goclient.go:93 | every pair of int64 values fits the buffer and is read back |
| Lockstep.CallAnswered | internal/udsserver/udsserver.go:203-238 | a call gets at most one reply, and that reply answers exactly this call |
| Lockstep.Invariant | pkg/goclient/goclient.go:29-148 | the queue invariant holds in every reachable state of client and server |
| Lockstep.ClientServerLockstep | pkg/goclient/goclient.go:29-109 | between calls of a connected client both queues are empty until the server stops, at most one message is under way, and every reply read answers the call it was read for |
| Lockstep.GoodExactlyWhenConnected | pkg/goclient/goclient.go:29-148 | in every reachable state, a reply answers the call it was read for if and only if the client was connected |
| Lockstep.MapResult | pkg/goclient/goclient.go:54-80 | the descriptor returned is the server's for that device, and an error exactly for an unknown device |
| Lockstep.StoppedServerServed | internal/udsserver/udsserver.go:138-239 | the server of the two-queue system does exactly what the server object does, so it is safe as well |
| Lockstep.OneReplyExactly | internal/udsserver/udsserver.go:293-338 | one reply for each call, two exactly for a busy poll without a descriptor |
| Lockstep.RefusedPollReportsSuccess | pkg/goclient/goclient.go:85-109 | a reachable state in which a refused client's busy poll call reports success |
| GoClient.AskReadsTheAnswer | pkg/goclient/goclient.go:29-109 | in every reachable state a connected call consumes the one reply and returns the version, the right descriptor, or for busy poll success exactly on an acknowledgement |
| GoClient.ClientRefines | pkg/goclient/goclient.go:29-148 | over any run of the two-queue system, what the client does, the answers it records and whether it is connected are what the client object's calls make of the replies read |
| GoClient.ChannelsInOrder | pkg/goclient/goclient.go:29-148 | in every reachable state each side has read what the other has written, in order and nothing twice, apart from what is still in the queue |
| GoClient.Client.InitFunc | pkg/goclient/goclient.go:114-148 | dials, greets, and is connected exactly after `/host_ok`, without an error otherwise |
| GoClient.Client.GetServerVersion | pkg/goclient/goclient.go:29-49 | returns the text of the message read after the version request was written, and fails exactly when there is none |
| GoClient.Client.RequestXSKmapFD | pkg/goclient/goclient.go:54-80 | returns the descriptor of the message read after the map request was written exactly if its text is the acknowledgement |
| GoClient.Client.RequestBusyPoll | pkg/goclient/goclient.go:85-109 | succeeds exactly if a message was read after the busy poll request was written and its text is not the refusal |
| Admission.IdsContents | internal/udsserver/udsserver.go:358-367 | the ids that count are exactly those in lists of the server's resource |
| Admission.IdsAppend | internal/udsserver/udsserver.go:358-367 | the lists of a container are collected one after the other |
| Admission.IdsOfOne | internal/udsserver/udsserver.go:358-367 | a list counts with all its ids, or not at all if it is for another resource |
| Admission.OwnListsSkipOthers | internal/udsserver/udsserver.go:358-367 | a list of another resource, wherever it is in a container, is passed over |
| Admission.OtherResourcesIgnored | internal/udsserver/udsserver.go:356-389 | the verdict on a pod depends on nothing but the lists of the server's resource in each container |
| Admission.NoListNoAdmission | internal/udsserver/udsserver.go:356-389 | a pod with no list of the server's resource is never accepted |
| Admission.MatchesExactly | internal/udsserver/udsserver.go:369-379 | for lists without repetition the test is equality of sets |
| Admission.AcceptsPermutation | internal/udsserver/udsserver.go:356-389 | a pod without repetitions is accepted if and only if one container's list is a permutation of the registered devices |
| Admission.AcceptedListIsPermutationIff | internal/udsserver/udsserver.go:369-379 | an accepted list is a permutation if and only if nothing repeats in it |
| Admission.RepeatedDeviceIsAccepted | internal/udsserver/udsserver.go:369-379 | a list that repeats a device is accepted for two different devices |
| Admission.AcceptsOneContainerOnly | internal/udsserver/udsserver.go:356-389 | when the registered devices belong to several containers, the pod is accepted if and only if one container has them all |
| BpfMaps.PickName | internal/bpf/mapManager.go:199-250 | one of five random names that does not exist, or an error only if all five exist |
| BpfMaps.PicksFirst | internal/bpf/mapManager.go:199-250 | the name is the first of the attempts that is free |
| BpfMaps.MapsKept | internal/dpcnisyncerserver/server.go:63-97 | over any run, whatever names are drawn and whichever pools share a device, every entry of a device map is the path of the latest allocation of the device in that pool |
| BpfMaps.HistoryKept | internal/dpcnisyncerserver/server.go:63-97 | with names that never repeat, the allocation a deletion would find is mounted exactly until a deletion of the device disturbs it |
| BpfMaps.SharedDeletionLifecycle | internal/dpcnisyncerserver/server.go:63-97 | whichever pools share a device: a deletion succeeds if and only if the latest allocation in the first pool that ever had the device is undisturbed and the system calls go through, and then removes exactly that directory and mount |
| BpfMaps.DeletionLifecycle | internal/dpcnisyncerserver/server.go:63-97 | a deletion succeeds if and only if the device's latest allocation is undisturbed and the system calls go through, and then removes exactly that directory and mount |
| BpfMaps.DeletesLatestExactly | internal/dpcnisyncerserver/server.go:63-97 | a successful deletion removes the path of the device's latest allocation if and only if the pool of that allocation is the first whose map holds the device |
| BpfMaps.SharedDeviceKeepsMount | internal/dpcnisyncerserver/server.go:63-97 | with two pools sharing a device, deleting it removes the first pool's mount and leaves that of the latest allocation |
| BpfMaps.OwnedExactly | internal/dpcnisyncerserver/server.go:63-97 | all runs over given pools keep each device to one pool if and only if no two pools share a device |
| BpfMaps.RepeatedDeletionFails | internal/bpf/mapManager.go:292-314 | a repeated deletion without a new allocation fails and changes nothing |
| BpfMaps.StrandedForever | internal/bpf/mapManager.go:292-314 | an existing path without a mount is never removed or mounted by any later step |
| BpfMaps.FailedRemovalStrands | internal/bpf/mapManager.go:303-309 | a deletion that unmounts but cannot remove leaves the directory it found for good |
| BpfMaps.ReusedNameLosesMount | internal/bpf/mapManager.go:280-314 | with a reused name a stale entry deletes another device's mount |
| BpfMaps.DeletesOwnMountExactly | internal/bpf/mapManager.go:292-314 | for any names and shared devices: a successful deletion removes the path of the allocation it finds, and this was the same mount all along if and only if the name was not drawn again since |
| BpfMaps.DeletableExactly | internal/dpcnisyncerserver/server.go:63-97 | some deletion can remove a mount if and only if it is the mount of the latest allocation in the first pool that ever had some device |
| BpfMaps.AbandonedForever | internal/dpcnisyncerserver/server.go:63-97 | a mount that no deletion can reach stays so over the rest of any run |
| BpfMaps.ReallocationAbandons | internal/bpf/mapManager.go:255-257 | allocating a device again puts a mount out of reach for good: the one found so far, or the new one if a pool before already had the device |
| BpfMaps.FailedPinAbandons | internal/deviceplugin/poolManager.go:256-270 | a mount left by a failed allocation is out of reach from the start |
| BpfMaps.SegmentContinuesRun | internal/dpcnisyncerserver/server.go:63-97 | consecutive steps that start where a run ends continue it, so what holds of runs holds of them |
| MapManagers.MapManager.GenerateRandomBpffsName | internal/bpf/mapManager.go:199-250 | the counted retry loop picks the specified name |
| MapManagers.MapManager.CreateBPFFS | internal/bpf/mapManager.go:164-193 | takes the first of five names that is free, and for every failing step what was made and is left behind |
| MapManagers.MapManager.AddMap | internal/bpf/mapManager.go:255-257 | records the path and changes no other entry |
| MapManagers.MapManager.GetMaps | internal/bpf/mapManager.go:269-275 | fails exactly when there is a map, and never returns one |
| MapManagers.MapManager.GetBPFFS | internal/bpf/mapManager.go:280-290 | succeeds exactly for the devices in the map |
| MapManagers.MapManager.DeleteBPFFS | internal/bpf/mapManager.go:292-314 | unmounts exactly if the entry, the directory and the mount exist and the call succeeds, then removes exactly if that succeeds, and keeps the map entry |
| MapManagers.AllRegistered | internal/dpcnisyncerserver/server.go:49-61 | every manager is registered if and only if all names differ |
| MapManagers.SyncerServer.RegisterMapManager | internal/dpcnisyncerserver/server.go:49-61 | keeps the first manager of each name, in order |
| MapManagers.SyncerServer.DelNetDev | internal/dpcnisyncerserver/server.go:63-97 | deletes through the first manager that knows the device, and nothing while pinning is not enabled |
| Allocation.GuardsUnreachable | internal/deviceplugin/poolManager.go:219-237 | for an emitted pool neither the mode error nor the three checks of the activation can occur; only the host can make a request fail |
| Allocation.SocketPathsDiffer | internal/deviceplugin/poolManager.go:209 | different devices get different socket paths |
| Allocation.ResponseMirrorsRequest | internal/deviceplugin/poolManager.go:199-293 | one response per container in order, socket mounts in device order, a variable that splits back into the devices, and a server that knows exactly the cycled devices with positive descriptors |
| Allocation.ResponsesSoFar | internal/deviceplugin/poolManager.go:199-294 | a request that fails is answered with the containers before the failure, each like in a request that succeeds |
| Allocation.UpperExactly | internal/deviceplugin/poolManager.go:284 | upper-casing changes exactly the lower-case letters and keeps every position |
| Allocation.VariableNamedAfterPool | internal/deviceplugin/poolManager.go:283-287 | the one variable of every container is `AFXDP_DEVICES_` followed by the pool's name with each lower-case letter in upper case |
| Allocation.ResponseMounts | internal/deviceplugin/poolManager.go:199-293 | for distinct devices, the whole mount list of each container: per device, in order, its socket followed, if it was cycled, by `/xsks_map` in the directory recorded for that device |
| Allocation.RequestRecorded | internal/deviceplugin/poolManager.go:245-270 | for distinct devices the server has each device's own descriptor and the map manager a mounted directory for it |
| Allocation.AllocatedPodIsAccepted | internal/udsserver/udsserver.go:356-389 | whatever the outcome of cycling and however many containers were in the request, a pod without repetitions is accepted if and only if some device was cycled and a container holds a permutation of the cycled devices |
| Allocation.CycledPodIsAccepted | internal/udsserver/udsserver.go:356-389 | if every device was cycled, a pod without repetitions is accepted if and only if a container holds a permutation of the requested devices |
| Allocation.AllocatedServerAdmits | internal/udsserver/udsserver.go:175-200 | the connection request of a pod is answered with `/host_ok` if and only if the pod is on the node and holds such a permutation |
| Allocation.SkippedDeviceRejectsPod | internal/deviceplugin/poolManager.go:240-243 | if a device could not be cycled, no list of the requested devices is accepted |
| Allocation.SharedServerNeedsOneContainer | internal/deviceplugin/poolManager.go:189-201 | a request for several containers admits the pod if and only if one container requested everything |
| Allocation.EveryAckCarriesADescriptor | internal/bpf/bpfWrapper.go:63-71 | in every conversation with the server of an allocation each acknowledgement carries a positive descriptor of a registered device |
| Allocation.PinIsAnAllocation | internal/deviceplugin/poolManager.go:256-270 | pinning one device in Allocate is an allocation step of the mount lifecycle |
| Allocation.AllocationContinuesRun | internal/deviceplugin/poolManager.go:199-294 | a whole request, successful or not, continues a run of the mount lifecycle by allocations of requested devices in its own pool |
| Allocation.RequestStaysInPool | internal/deviceplugin/poolManager.go:199-294 | a request for devices of its pool keeps a run of the mount lifecycle within the pools |
| Allocation.ServersApartExactly | internal/deviceplugin/poolManager.go:189-252 | two pools' servers can get to know a common device, for some hosts and requests, if and only if the pools share a device |
| PoolManagers.PoolManager.ActivateDevice | internal/deviceplugin/poolManager.go:219-237 | which error, if any, precedes cycling, check by check |
| PoolManagers.PoolManager.LoadAndPin | internal/deviceplugin/poolManager.go:245-281 | descriptor, directory, map entry and mount of one device, and what each failure leaves |
| PoolManagers.PoolManager.AllocateOne | internal/deviceplugin/poolManager.go:204-282 | the body of the device loop: the socket mount always comes first, and a device that cannot be cycled leaves everything else as it was |
| PoolManagers.PoolManager.AllocateContainer | internal/deviceplugin/poolManager.go:204-282 | the device loop does what the specification says |
| PoolManagers.PoolManager.AllocateRequests | internal/deviceplugin/poolManager.go:199-294 | the container loop does what the specification says, with the responses so far on an error |
| PoolManagers.PoolManager.Allocate | internal/deviceplugin/poolManager.go:180-301 | responses with their variables named after the pool, error, file system, device map and server of a request, and nothing changed when no server can be made |
| PoolManagers.PoolManager.EmittedPoolIsPrepared | internal/deviceplugin/poolManager.go:69-86 | a pool emitted by GetPoolConfigs meets all that Allocate requires and its guards cannot fire |
| Lifecycle.DevicesApartExactly | internal/deviceplugin/config.go:186-269 | no configuration, iteration order and history of allocations and deletions serves one device from two pools if and only if no host device is named like another's subfunction |
| Lifecycle.EmittedPoolsOwn | internal/deviceplugin/config.go:186-272 | on a host without such a device every history over the emitted pools keeps each device to one pool |
| Lifecycle.RequestKeepsOwned | internal/deviceplugin/poolManager.go:180-301 | a request served by the manager of an emitted pool continues such a history |
| Lifecycle.EmittedServersApart | internal/deviceplugin/poolManager.go:189-252 | the servers of two emitted pools can get to know a common device if and only if the pools share a name, which never happens on a host without such a device |

## Left out

- gRPC servers and clients, Kubelet registration, ListAndWatch, signal handling and logging: plumbing without state of its own.
- Sockets, ACLs, netlink, ethtool, devlink, xdp-loader, libxdp and mount calls: abstract operations that succeed or fail arbitrarily.
- JSON decoding, regular expressions and the validation library: configurations are arbitrary values.
- Discovery and filtering of the host devices before the pool loop (internal/deviceplugin/config.go:138-177): the model starts from any map of new devices.
- DevicePlugin.Engine.ValidateDevice: `excludeAddressed` is an arbitrary set of devices, because the address lookup is an external call.
- DevicePlugin.Engine.ConfiguredDevices: the name found for a MAC or PCI entry is an arbitrary text; as in the source the object is looked up by the entry's own name, so such entries never resolve.
- DevicePlugin.Engine.ResolveTimeout: validation itself (internal/deviceplugin/configFile.go:217-224) is the predicate `ValidTimeout`; a timeout outside it is passed on as it is.
- DevicePlugin.Engine.GetPoolConfigs: the fields `UdsFuzz`, `UID` and `RequiresUnprivilegedBpf` are passed on unchanged by the source and not part of the emitted value; the pool objects must be distinct, as the decoder makes them.
- Networking.Device.ActivateCdqSubfunction: the caching of the primary's PCI address is not modelled; its answer is part of the host's.
- Networking.Device.Driver: one lookup answer is arbitrary and need not agree with an earlier failed one.
- PoolManagers.PoolManager.Allocate: the source starts the server concurrently; the model returns it, and the conversation is the separate method `Start`.
- UdsServer.Server.Start: the numbers in a busy poll request are passed on as integers; the truncation to a C int inside the call is not part of this model.
- Lockstep.ClientServerLockstep: covers one connection; a client that was refused dials again on its next call, which starts another conversation with the same steps.
- BpfMaps.DeletionLifecycle: needs random names that never repeat and devices that belong to one pool. A run shows the need for each; without the first there is `BpfMaps.DeletesOwnMountExactly`, without the second `BpfMaps.SharedDeletionLifecycle` and `BpfMaps.DeletesLatestExactly`. Pool assignment guarantees the second exactly on hosts without a device named like another one's subfunction (`Lifecycle.DevicesApartExactly`).
- BpfMaps.ReallocationAbandons: needs random names that never repeat; without them a mount may become another device's, and `BpfMaps.DeletableExactly` is the exact condition.
- PoolShares.DocumentedTotal: is about pools with one driver and no explicit devices, as in the documented example; `PoolShares.PoolShare` is exact for every pool.
- CNI commands, IPAM, kind network, bridge and veth helpers, pkg/subfunctions: sequences of external calls whose results are not in the repository.
- `CleanupMapManager` removes the whole base directory when a pool terminates; the runs of `BpfMaps` are what happens before that, so "for good" there means until then.
- `RemoveFromArray` has no caller, `PrettyString` only formats log lines, and the fake and fuzz handlers belong to the repository's own tests.
