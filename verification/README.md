# A model of the Zigbee control bridge and its host programs

The repository holds the firmware of a Zigbee node that bridges to a serial host, a border router
daemon, and a UDP gateway. This project models their stateful cores and proves what they promise.
Each core that changes state in place is a class whose methods follow the C functions statement by
statement; every method is proved equal to a function on values, and the theorems are about those
functions, over every input and every run.

| files | what they model |
|---|---|
| `ZllRanges`, `RangeLedger`, `TouchlinkNetwork`, `TouchlinkAddresses`, `TouchlinkSystem` | how touchlink nodes hand out addresses and group ids, exactly when a network hands one out twice or loses one, and why nodes that run the commissioning task are such a network |
| `Commissioning`, `CommissionTask`, `CommissioningRuns`, `CommissioningGrants`, `ScanResults`, `TouchlinkExchange`, `TouchlinkRules` | the touchlink commissioning task: its event machine, its timer, its scan results, how it moves ranges, what two such tasks agree on, and what it accepts and lets pass |
| `CipherTables`, `Fips197`, `Fips197Values`, `EcbDecrypt` | the AES-128 inverse cipher against the forward cipher of FIPS 197, and the worked examples of that standard |
| `SerialLine`, `LinkProtocol`, `NodeLog`, `NodeSerial`, `HostSerial` | the byte-stuffed serial link: printer, incremental parser, and the log ring sender of the node; the reader and writer of the daemon |
| `PdmBlocks`, `PdmTraffic`, `PdmHost` | records kept on the host: blocks, stop and wait, reassembly |
| `BringUp`, `BringUpRuns`, `BringUpProgress`, `JennicModule` | the daemon's bring-up of its radio module |
| `ClientTable`, `UdpMapping` | the gateway's linked list of UDP clients |
| `Uart` | the search for a baud rate divisor |
| `Bytes`, `Division` | bytes, words, exclusive or, and bounds of quotients |

The standard cited is FIPS 197, *Advanced Encryption Standard*, sections 3.4 (the order of the bytes), 4.2 (the
field), 5.1 (the cipher), 5.2 (key expansion) and 5.3 (the inverse cipher), and its appendices A.1 (key expansion)
and C.1 (encryption of one block).

Serial, persistence, bring-up and gateway code treats bytes as integers below 256; the cipher treats
them as bit vectors. What the stack, the radio, the clock or the random number generator would supply
is an input: of an event (`Commissioning.Event`), of one step (`Commissioning.Draw`), or of a method.
In code that runs until a message comes, the messages that arrive are given in advance and the result
says whether the end was reached.

Where the code and what is said about it disagree, the model follows the code:

- A network update request is meant to be taken only when it is fresher; the code compares PAN ids
  instead. `ScanResults.UpdateRequestIgnoresFreshness` says exactly when a request is taken.
- The initiator of a join does not look at the status of the answer. `TouchlinkExchange.GrantIsAdoptedIff` says that
  the target takes the ranges over if and only if it is factory new, and that the initiator ends the same either way.
- The initiator of a start stays factory new until the answer comes. If it is lost, a node without ranges can let the
  initiator join, and its ranges are gone (`TouchlinkExchange.LostStartIsOverwritten`,
  `TouchlinkNetwork.FounderLosesAll`). `TouchlinkNetwork.AddressesAreSafe` and `TouchlinkNetwork.GroupsAreSafe` say that
  nothing is lost exactly when no owner adopts a grant.
- A load response without a record ends any load, whichever record it is about. `PdmTraffic.LoadRestoresIff` says that a
  load amid any other messages restores the record if and only if no such response comes before its last block, and
  `PdmTraffic.ForeignRefusalSpoils` that one about another record is enough.
- The timer of a node that waits for network discovery is not honoured. `CommissioningRuns.OnlyDiscoveryForgetsTimer`
  says exactly which step drops the last expiry, and `CommissioningRuns.DiscoveryCanBeForgotten` shows a run to it.
- What the host says of a record's size is not checked against the caller's buffer; `PdmTraffic.AnswersFitIff` says
  that a host's answers stay inside it if and only if the record is no larger.
- Nodes without a range, such as every router that a start has created, draw the addresses that they assign at random
  and check nothing. `TouchlinkAddresses.AddressesStaySoundIff` says that addresses in use stay distinct and out of every
  range if and only if each number drawn is neither in use nor free anywhere. `TouchlinkAddresses.FreeDrawIsHandedOut` is a
  run in which a number that was no address in use is given away a second time.
- The address that a node uses is not always the one that it was assigned; `CommissioningGrants.UsesItsAddressIff` says
  when.
- A 256th byte pending in the log ring empties it; `NodeLog.TextsArePendingIff` says that 255 bytes is exactly what it
  holds. A zero character that begins a text makes an empty entry of its own (`NodeLog.EntryIff`).
- A baud rate is not checked; `Uart.FirstIsSoundIff` says for which the first divisor is computed as meant.
- A gateway client whose socket could not be opened keeps its mapping without one
  (`ClientTable.FailedSocketStaysIff`).
- Freshness of an 8-bit update id is decided by a distance of 200; `ScanResults.FresherIsSelectedIff`
  says exactly when the later of two versions is selected, and that 55 is the window that never fails.
- No check for an exhausted range is compiled in. `ZllRanges.JoinPartitionsIff` says exactly when one join splits
  soundly, and `TouchlinkNetwork.AddrExactIff` and `TouchlinkNetwork.GroupExactIff` say for every start and join exactly
  when the identifiers of a whole network stay in one place each.

## Model

| member | source | states |
|---|---|---|
| `TouchlinkNetwork.AddressesAreSafe` | Source/ZigbeeNodeControlBridge/app_ZncCommission_task.c:1306-1493 | In every run of a network grown from one founder, with start and join requests adopted by any device, late or never, and devices that adopt grants of other networks: if each request finds the addresses that it gives away, however many group ids there are, the addresses handed out are distinct, the free ranges of all devices and requests are disjoint, and no handed-out address is free. None is lost if and only if no device that owns addresses adopts a grant. |
| `TouchlinkNetwork.GroupsAreSafe` | Source/ZigbeeNodeControlBridge/app_ZncCommission_task.c:1306-1493 | The same for group ids, if each request finds those that it gives away, however many addresses there are; the ids that a join hands out are those from the begin to the end of its grant. |
| `TouchlinkNetwork.AddrExactIff` | Source/ZigbeeNodeControlBridge/app_ZncCommission_task.c:1382-1393 | From a network in which every address is in exactly one place, a start or join leaves it so if and only if it finds two addresses for a start, three for a join that assigns ranges, or one for any other join of a node that owns a range. |
| `TouchlinkNetwork.GroupExactIff` | Source/ZigbeeNodeControlBridge/app_ZncCommission_task.c:1394-1405 | The same for group ids, if and only if sixteen are there for a start, two for a split, and in what is kept as many as the target asks for. |
| `TouchlinkNetwork.FounderLosesAll` | Source/ZigbeeNodeControlBridge/app_ZncCommission_task.c:622-626 | A run of four possible steps, each with all the addresses that it needs, after which every address but the two that the start handed out is lost: the started router lets its founder join. |
| `TouchlinkNetwork.StartAddrs` | Source/ZigbeeNodeControlBridge/app_ZncCommission_task.c:1312-1316 | A start request takes exactly the two lowest addresses of the initiator's range. |
| `TouchlinkNetwork.StartGroups` | Source/ZigbeeNodeControlBridge/app_ZncCommission_task.c:1310-1311 | It takes exactly the sixteen lowest group ids. |
| `TouchlinkNetwork.AssigningJoinAddrs` | Source/ZigbeeNodeControlBridge/app_ZncCommission_task.c:1385-1393 | A join that assigns ranges takes the lowest address and splits what is left at its middle, free of 16-bit wrap-around. |
| `TouchlinkNetwork.SplittingJoinGroups` | Source/ZigbeeNodeControlBridge/app_ZncCommission_task.c:1394-1405 | It splits the group ids at their middle, and the begin and end of its grant are the ids asked for, from the low end of the part that is kept. |
| `TouchlinkNetwork.PlainJoinAddrs` | Source/ZigbeeNodeControlBridge/app_ZncCommission_task.c:1467-1472 | Any other join takes one address, or none from a node that owns no range. |
| `TouchlinkNetwork.PlainJoinGroups` | Source/ZigbeeNodeControlBridge/app_ZncCommission_task.c:1485-1493 | A join without a split hands out, from the begin to the end of its grant, the asked group ids from the low end. |
| `TouchlinkNetwork.GrantEndsBelowRest` | Source/ZigbeeNodeControlBridge/app_ZncCommission_task.c:1488-1490 | Short of a 16-bit wrap-around the grant of any join spans as many group ids as were asked for and ends right below the first that the sender has left; a target that asks for none gets none. |
| `TouchlinkAddresses.AddressesStaySoundIff` | Source/ZigbeeNodeControlBridge/app_ZncCommission_task.c:1312-1487 | From any network in which the addresses used by devices and assigned by letters are distinct and no longer free anywhere, in every run whose requests find the addresses they give away: that is so at every moment if and only if every address that a device without a range draws is neither in use nor free anywhere. |
| `TouchlinkAddresses.StepIsSoundIff` | Source/ZigbeeNodeControlBridge/app_ZncCommission_task.c:1382-1387 | One step of such a network keeps it so if and only if what it draws, if it draws, is new in this sense. |
| `TouchlinkAddresses.FounderIsSoundIff` | Source/ZigbeeNodeControlBridge/app_ZncCommission_task.c:1312-1316 | The founder's network is such a network from its start on, and before it if and only if its own address is none of its range. |
| `TouchlinkAddresses.UsedAddressIsHandedOut` | Source/ZigbeeNodeControlBridge/app_ZncCommission_task.c:1385-1387 | An address that is in use and still free at a device is handed out again by that device's ordinary joins, each of which finds what it needs. |
| `TouchlinkAddresses.FreeDrawIsHandedOut` | Source/ZigbeeNodeControlBridge/app_ZncCommission_task.c:1382-1387 | For every founder with three addresses: start, delivery, a join by the started router that draws the founder's next address, which no one uses, and the founder's own next join give one address to two devices, although every step finds what it needs. |
| `TouchlinkSystem.SystemAddressesAreSafe` | Source/ZigbeeNodeControlBridge/app_ZncCommission_task.c:267-982 | Any number of nodes that run the commissioning task, handling any events in any order, around one founder that owns the ranges, factory new or with a network formed at the host's command: if each request of the founder's network finds the addresses it gives away, no address is handed out or owned twice, and none is lost if and only if no node that owns addresses adopts a grant. Nodes of other networks may touch and be touched. |
| `TouchlinkSystem.SystemGroupsAreSafe` | Source/ZigbeeNodeControlBridge/app_ZncCommission_task.c:267-982 | The same for the group ids of such a system of tasks. |
| `TouchlinkSystem.SystemAddressesStayDistinctIff` | Source/ZigbeeNodeControlBridge/app_ZncCommission_task.c:267-982 | From the founder's start on, in every run of commissioning tasks whose requests find the addresses they give away: at every moment no two nodes of the network, and no grant on its way to one, are assigned the same address, and none of these is free to be handed out again, if and only if every address that a node without a range draws is new. |
| `TouchlinkSystem.FormedIsUnderwayIff` | Source/ZigbeeNodeControlBridge/app_Znc_cmds.c:1974-1983 | This holds at once for a founder whose network was formed at the host's command if and only if its own address is none of its range. |
| `TouchlinkSystem.StartedIsUnderway` | Source/ZigbeeNodeControlBridge/app_ZncCommission_task.c:1306-1316 | It holds after every run in which the founder's start request is all that has touched its network, whatever other nodes have done. |
| `TouchlinkSystem.UsedAddressesDiffer` | Source/ZigbeeNodeControlBridge/app_ZncCommission_task.c:1526-1529 | Any two nodes of such a network that use the addresses they were assigned use different ones. |
| `TouchlinkSystem.RunRefines` | Source/ZigbeeNodeControlBridge/app_ZncCommission_task.c:267-982 | Every run of such tasks is a run of the network of ranges. |
| `TouchlinkSystem.ActRefines` | Source/ZigbeeNodeControlBridge/app_ZncCommission_task.c:267-982 | Each event that a task handles is one step of that network or none: the sending of a request, the adoption of one of its letters, the adoption of a foreign grant, or nothing that touches a range. |
| `TouchlinkSystem.StartKeepsGrant` | Source/ZigbeeNodeControlBridge/app_ZncCommission_task.c:757-853 | Only an accepted start request leads to the start of a router, and the ranges that are then adopted are those of that request, whatever else is received in between. |
| `RangeLedger.TakeKeeps` | Source/ZigbeeNodeControlBridge/app_ZncCommission_task.c:1312-1316 | Handing out the lowest identifiers of a range keeps the ledger safe and loses none. |
| `RangeLedger.SplitKeeps` | Source/ZigbeeNodeControlBridge/app_ZncCommission_task.c:1389-1397 | Splitting a range in two keeps the ledger safe and loses none. |
| `RangeLedger.MoveKeeps` | Source/ZigbeeNodeControlBridge/app_ZncCommission_task.c:1812-1818 | An owner that takes over a range in place of its own keeps the ledger safe and loses exactly the identifiers of its own range. |
| `ZllRanges.JoinPartitionsIff` | Source/ZigbeeNodeControlBridge/app_ZncCommission_task.c:1385-1393 | In 16-bit arithmetic, a range-assigning join partitions the old address range into the assigned address, the kept part and the given part if and only if at least three addresses were free. |
| `ZllRanges.KeptSize` | Source/ZigbeeNodeControlBridge/app_ZncCommission_task.c:1386-1391 | After k range-assigning joins from S free addresses, floor((S+3)/2^k)-3 are kept. |
| `ZllRanges.ServesExactly` | Source/ZigbeeNodeControlBridge/app_ZncCommission_task.c:1471-1476 | A node with S free addresses can serve exactly the numbers k of joins with 3 * 2^k <= S + 3. |
| `CommissioningGrants.StepMovesRanges` | Source/ZigbeeNodeControlBridge/app_ZncCommission_task.c:267-982 | Whatever the event, the task adopts ranges exactly when it starts as a router or accepts a join request; otherwise it either keeps its ranges and sends no grant, or starts a network, or lets its scan target join, sending exactly the grant of that request. Requests are sent only on a device information response of the running transaction. |
| `CommissioningGrants.UsesItsAddressIff` | Source/ZigbeeNodeControlBridge/app_ZncCommission_task.c:267-982 | For every event: the address in use is the assigned one after a start as a router, an accepted join and a successful answer to the own start, after sending that start only if it happens to be the same, after a taken update request if and only if that names it, and otherwise as before. |
| `TouchlinkExchange.StartAgrees` | Source/ZigbeeNodeControlBridge/app_ZncCommission_task.c:529-978 | Two factory new nodes that touch: whatever network the target finds, after the exchange of their own messages both are in it and on the same channel, at different addresses, and the initiator reports the address that its target has. |
| `TouchlinkExchange.JoinAgrees` | Source/ZigbeeNodeControlBridge/app_ZncCommission_task.c:529-978 | A node of a network and a factory new router that touch: after the exchange both have the same PAN id, channel and update id, the target owns exactly the ranges granted to it, and the initiator reports the address that its target has. |
| `TouchlinkExchange.GrantIsAdoptedIff` | Source/ZigbeeNodeControlBridge/app_ZncCommission_task.c:1763-1828 | Whichever router the target is, the initiator ends without the ranges that it gave away and reports the address as joined; the target takes them over and answers with success if and only if it is factory new, and otherwise does nothing but refuse. |
| `TouchlinkExchange.RefusedJoinIsReported` | Source/ZigbeeNodeControlBridge/app_ZncCommission_task.c:587-644 | A router of another network that truthfully says so is asked to join; it refuses and changes nothing, and the initiator has given up the ranges and reports the address as joined, though the two are in different networks. |
| `TouchlinkExchange.EndDeviceJoinIsRefused` | Source/ZigbeeNodeControlBridge/app_ZncCommission_task.c:646-660 | A target taken for a factory new end device always refuses and keeps its ranges and identity, and the initiator reports it as joined all the same. |
| `TouchlinkExchange.LostStartIsOverwritten` | Source/ZigbeeNodeControlBridge/app_ZncCommission_task.c:617-626 | An initiator whose start was not answered in time answers the next scan, and the join request of a node without ranges replaces all its own ranges by none. |
| `TouchlinkExchange.UpdateSpreadsIff` | Source/ZigbeeNodeControlBridge/app_ZncCommission_task.c:1158-1211 | The network update request that a staler scan response provokes brings the responder to the initiator's update id if the PAN id does not fit a byte, and otherwise changes nothing. |
| `TouchlinkRules.PassesByRole` | Source/ZigbeeNodeControlBridge/app_ZncCommission_task.c:1121-1235 | What can become the target of a scan, by the role of the node: for a factory new node a router with a common key; for a node of a network any device of that network unless its update id differs; and from elsewhere, if the network is open to it, a factory new device or a router with a common key; always from an LQI of 110 on. |
| `TouchlinkRules.FresherNetworkWins` | Source/ZigbeeNodeControlBridge/app_ZncCommission_task.c:1158-1208 | For versions at most 55 apart: a scan response of the own network with a newer one makes the node take its id and channel, end the scan and rejoin; an older one makes it send its own network to the responder and scan on. |
| `TouchlinkRules.RivalScan` | Source/ZigbeeNodeControlBridge/app_ZncCommission_task.c:359-414 | Two nodes that scan at once: a factory new one gives up for a node of a network and becomes its target; any other answers the first request of its scan only, and tells about its device in that transaction only. |
| `TouchlinkRules.WeakScanIsIgnored` | Source/ZigbeeNodeControlBridge/app_ZncCommission_task.c:306-312 | A scan request with an LQI below 110 changes nothing, at rest or during a scan. |
| `TouchlinkRules.OtherTransactionIsIgnored` | Source/ZigbeeNodeControlBridge/app_ZncCommission_task.c:513-700 | A target takes orders, and an initiator the description of its target, only in the transaction of the scan. |
| `TouchlinkRules.WaitingNodeIsDeaf` | Source/ZigbeeNodeControlBridge/app_ZncCommission_task.c:289-975 | A waiting node changes nothing at an event that is neither what its state waits for nor its timer. |
| `TouchlinkRules.ExpiryMovesOn` | Source/ZigbeeNodeControlBridge/app_ZncCommission_task.c:289-975 | An expiry always takes a node to another state, unless it rests, scans, or waits for a discovery or a leave. |
| `TouchlinkRules.ResetIsObeyed` | Source/ZigbeeNodeControlBridge/app_ZncCommission_task.c:706-847 | An initiator told to reset its target does only that and rests as it was; a target of a network leaves it and is reset if and only if the leave is confirmed or the timer expires; a factory new one stays as it is. |
| `TouchlinkRules.GivenNetworkIsStarted` | Source/ZigbeeNodeControlBridge/app_ZncCommission_task.c:1682-1750 | A factory new node that is told its network starts that one after two more events, whatever they are, on channel 15 if none is given, with the ranges and the address of the request. |
| `TouchlinkRules.FinishedIsOpen` | Source/ZigbeeNodeControlBridge/app_ZncCommission_task.c:919-946 | After the start-up time a node is not factory new any more, is open to other networks if it was factory new, and keeps its network and ranges. |
| `TouchlinkExchange.ScanMeets` | Source/ZigbeeNodeControlBridge/app_ZncCommission_task.c:289-560 | An idle node that hears the request of a scan answers with what it is; when the initiator takes that for its best and its timeouts have ended the scan from any position, it asks the node for its device information, and both are in one transaction with the description true. |
| `TouchlinkExchange.JoinFromScan` | Source/ZigbeeNodeControlBridge/app_ZncCommission_task.c:289-660 | From there on, for an initiator of a network: a target that is factory new or in another network is asked to join, takes over the ranges if and only if it is factory new, and is reported in any case with the address given; a target in the same network is only reported, with its own address. |
| `TouchlinkExchange.StartFromScan` | Source/ZigbeeNodeControlBridge/app_ZncCommission_task.c:289-660 | For a factory new initiator: it gives up two addresses; a factory new target and it end in one network at different addresses; any other target refuses and stays as it is, and the initiator returns to rest. |
| `CommissioningRuns.TimerIsNeverForgotten` | Source/ZigbeeNodeControlBridge/app_ZncCommission_task.c:267-982 | In every run of events, expiries and host commands in any order, a node that is neither at rest nor waiting for a discovery has its timer armed or the expiry queued. |
| `CommissioningRuns.StepMakesProgress` | Source/ZigbeeNodeControlBridge/app_ZncCommission_task.c:267-982 | In every state an expiry lowers the rank of the state and scan position, no other event raises it except an accepted start or scan request, and the scan counters keep their bounds. |
| `CommissioningRuns.SettlesAfterBoundedExpiries` | Source/ZigbeeNodeControlBridge/app_ZncCommission_task.c:267-1037 | A run without restarts and discoveries handles at most 32 expiries, as many as its rank, before the node is idle or reset; until then an expiry is on its way. |
| `CommissioningRuns.OnlyDiscoveryForgetsTimer` | Source/ZigbeeNodeControlBridge/app_ZncCommission_task.c:757-763 | Every action leaves a node that does not rest with its timer armed or an expiry queued, except, and always, the handling of the last expiry while the node waits for a discovery. |
| `CommissioningRuns.DiscoveryCanBeForgotten` | Source/ZigbeeNodeControlBridge/app_ZncCommission_task.c:1682-1750 | From any idle factory new node, a scan request, a start request that leaves the network open and the timeout end in such a wait, with no timer and no expiry. |
| `CommissioningRuns.ForgottenStays` | Source/ZigbeeNodeControlBridge/app_ZncCommission_task.c:757-763 | From then on, whatever happens, only the end of a discovery moves the node. |
| `ScanResults.TargetIsEarliestBest` | Source/ZigbeeNodeControlBridge/app_ZncCommission_task.c:289-500 | From the event that begins a scan, at any node with any old target, until the next scan begins, whatever the task handles, the target is the earliest of greatest adjusted LQI among the responses that came during the scan and pass every filter, and its LQI is 0 if and only if none passed. |
| `ScanResults.ScanBegins` | Source/ZigbeeNodeControlBridge/app_ZncCommission_task.c:289-305 | Whatever the last scan of a node found, a new one stands before the first request of its first pass, with LQI 0, the drawn transaction, the timer armed and no answer given; nothing else has changed. |
| `ScanResults.ScanConcludes` | Source/ZigbeeNodeControlBridge/app_ZncCommission_task.c:436-497 | A scan in which nothing passed the filters goes on to a second pass on channel 12 and after that to rest, sending nothing; one in which something passed asks its target to identify, or reports it if it is an end device of the node's own network. |
| `ScanResults.ScanFollowsPlan` | Source/ZigbeeNodeControlBridge/app_ZncCommission_task.c:289-500 | From the event that begins a scan until the next scan begins, whatever the task handles, the scan requests sent are a prefix of eight requests on the primary and twelve on the secondary channels, exactly the eight when the first pass is over and all twenty when the second is. |
| `ScanResults.SecondPassVisitsSecondaries` | Source/ZigbeeNodeControlBridge/app_ZncCommission_task.c:995-1037 | Whatever responses, requests and timeouts the task handles during the second pass, its scan requests so far are the first ones of the twelve secondary channels in order, on no other channel, and all twelve when the pass is over. |
| `ScanResults.FresherIsSelectedIff` | Source/ZigbeeNodeControlBridge/app_ZncCommission_task.c:2067-2073 | For versions less than 256 apart, the byte of the later is selected if and only if they are at most 200 apart without wrap-around, or at most 55 with it; the order of the arguments does not matter. |
| `ScanResults.UpdateIdIsNewest` | Source/ZigbeeNodeControlBridge/app_ZncCommission_task.c:267-982 | In every run of a node of a network that is sent no update request, over any number of scans: if the versions that its network's responses carry stay within 55 of the newest so far, its update id is at every moment the low byte of the newest version so far, which never regresses, and nothing else of its network parameters changes. |
| `ScanResults.UpdateRequestIgnoresFreshness` | Source/ZigbeeNodeControlBridge/app_ZncCommission_task.c:1518-1531 | A network update request is taken exactly when it names the node's own network and its PAN id does not fit a byte, however old its update id. |
| `CommissionTask.Task.Handle` | Source/ZigbeeNodeControlBridge/app_ZncCommission_task.c:267-982 | One event off the queue changes the global structures and sends exactly as the step of the specification; a coordinator only takes it. |
| `CommissionTask.Queue.Activate` | Source/ZigbeeNodeControlBridge/app_ZncCommission_task.c:269-285 | Each activation of the task takes the oldest event of its queue and is one step of a run; a node that is watched by its timer stays so. |
| `CommissionTask.Queue.Expire` | Source/ZigbeeNodeControlBridge/app_ZncCommission_task.c:1891-1896 | The expiry of the timer is the expiry step of a run, after which a watched node is still watched. |
| `CommissionTask.Task.HandleWhileScanning` | Source/ZigbeeNodeControlBridge/app_ZncCommission_task.c:289-615 | The same for the states of a node that scans or is scanned. |
| `CommissionTask.Task.HandleWhileJoining` | Source/ZigbeeNodeControlBridge/app_ZncCommission_task.c:617-975 | The same for the states of a node that joins another to its network, is joined, or is reset. |
| `CommissionTask.Task.TakeScanResponse` | Source/ZigbeeNodeControlBridge/app_ZncCommission_task.c:1113-1236 | The nested filters, the update id test and the choice of the target do what the specification of a scan response says. |
| `CommissionTask.Task.SendNextScanRequest` | Source/ZigbeeNodeControlBridge/app_ZncCommission_task.c:995-1037 | The scan position moves as in the specification, with the skipped channels and the 8-bit counter. |
| `CommissionTask.Task.SendScanResponse` | Source/ZigbeeNodeControlBridge/app_ZncCommission_task.c:1050-1101 | The payload that is zeroed and filled in is what the specification says of the node: a factory new one names no network and the address 0xffff. |
| `CommissionTask.Task.SendStart` | Source/ZigbeeNodeControlBridge/app_ZncCommission_task.c:1306-1318 | The statements that move the ranges for a start request do what the specification of a start says. |
| `CommissionTask.Task.SendJoin` | Source/ZigbeeNodeControlBridge/app_ZncCommission_task.c:1382-1418 | The statements that move the ranges for a join request do what the specification of a join says, for routers and end devices. |
| `CommissionTask.Task.NewerUpdateId` | Source/ZigbeeNodeControlBridge/app_ZncCommission_task.c:2067-2073 | The returned id is the one that the specification selects. |
| `CommissionTask.Task.EndCommissioning` | Source/ZigbeeNodeControlBridge/app_ZncCommission_task.c:224-239 | Ends the transaction, stops the timer, and restarts it only if a time is given. |
| `CommissionTask.Task.TakeRouterJoinRequest` | Source/ZigbeeNodeControlBridge/app_ZncCommission_task.c:1763-1828 | A factory new node adopts all ranges of the request and answers with success, any other refuses and changes nothing. |
| `CommissionTask.Task.TakeStartRequest` | Source/ZigbeeNodeControlBridge/app_ZncCommission_task.c:1682-1750 | A factory new node takes the parameters and goes to find or skip a discovery, any other refuses. |
| `CommissionTask.Task.TakeStartResponse` | Source/ZigbeeNodeControlBridge/app_ZncCommission_task.c:1650-1669 | A successful response sets the whole network identity and starts the node up; any other changes nothing. |
| `CommissionTask.Task.ProceedWithTarget` | Source/ZigbeeNodeControlBridge/app_ZncCommission_task.c:529-612 | Chooses between reset, start, the two joins and a report exactly as the specification. |
| `Fips197.InvCipherUndoesCipher` | Source/Common/ecb_decrypt.c:302-344 | For every key and block the inverse cipher of FIPS 197 section 5.3 undoes the cipher of section 5.1. |
| `Fips197.BackwardMeetsForward` | Source/Common/ecb_decrypt.c:315-335 | Each round of the inverse cipher walks back through exactly the forward cipher's intermediate state. |
| `Fips197.MixColumnsInverse` | Source/Common/ecb_decrypt.c:281-299 | The inverse column map undoes MixColumns for every state. |
| `Fips197.SBoxIsAffineOfInverse` | Source/Common/ecb_decrypt.c:102-123 | The substitution table is the affine map of the inverse in the field, entry by entry. |
| `CipherTables.InvSBoxUndoesSBox` | Source/Common/ecb_decrypt.c:79-123 | The second table undoes the first. |
| `Fips197Values.ScheduleOfA1` | Source/Common/ecb_decrypt.c:149-215 | For the key of appendix A.1, read byte by byte, the key expansion that the routine is proved against gives all the published words. |
| `Fips197Values.RoundsOfC1` | Source/Common/ecb_decrypt.c:302-344 | For the key and plaintext of appendix C.1 every round of the cipher starts from the published state. |
| `Fips197Values.CipherOfC1` | Source/Common/ecb_decrypt.c:302-344 | The cipher makes of that plaintext the published ciphertext, and the inverse cipher makes of that the plaintext. |
| `EcbDecrypt.MacroMultiplyIsGfMul` | Source/Common/ecb_decrypt.c:55-58 | The macro, in untruncated 32-bit arithmetic and cut to a byte, is the field product for the four coefficients it is used with. |
| `EcbDecrypt.MacroRowsAreInvMixWord` | Source/Common/ecb_decrypt.c:293-296 | The four assignments of the column map compute the inverse column map of the standard. |
| `EcbDecrypt.TableHoldsRoundConstants` | Source/Common/ecb_decrypt.c:128-144 | Entries 1 to 10 of the table are the round constants of section 5.2. |
| `EcbDecrypt.TableDoubles` | Source/Common/ecb_decrypt.c:128-144 | Entry 1 is 1, and each of the next nine is the field product of the one before it and 2. |
| `EcbDecrypt.Decryptor.KeyExpansion` | Source/Common/ecb_decrypt.c:149-215 | The loops fill the round keys with the 44 words of section 5.2. |
| `EcbDecrypt.Decryptor.InvMixColumns` | Source/Common/ecb_decrypt.c:281-299 | In place, the state becomes its inverse column map. |
| `EcbDecrypt.Decryptor.InvShiftRows` | Source/Common/ecb_decrypt.c:250-276 | In place, the rows are rotated as section 5.3.1 says. |
| `EcbDecrypt.Decryptor.InvSubBytes` | Source/Common/ecb_decrypt.c:234-245 | In place, each byte is substituted by the inverse table. |
| `EcbDecrypt.Decryptor.AddRoundKey` | Source/Common/ecb_decrypt.c:220-230 | In place, the state is added to the round key. |
| `EcbDecrypt.Decryptor.InvCipher` | Source/Common/ecb_decrypt.c:302-344 | The round loop computes the inverse cipher of section 5.3 of its input block. |
| `EcbDecrypt.Decryptor.Decrypt` | Source/Common/ecb_decrypt.c:347-370 | For every key and block, decrypting what the cipher of section 5.1 made of a block returns the block. |
| `LinkProtocol.StreamIsDelivered` | Source/ZigbeeNodeControlBridge/SerialLink.c:133-236 | From any receiver state, a list of encoded messages with any bytes but START and END between them delivers exactly the messages that fit, in order, each on its END byte; for both dialects. |
| `LinkProtocol.FrameOutputs` | Source/ZigbeeNodeControlBridge/SerialLink.c:133-236 | From any receiver state, a frame whose length field is right delivers its message on its END byte if and only if it fits and its checksum is right, and nothing before. |
| `LinkProtocol.FrameIsTransparent` | Source/ZigbeeNodeControlBridge/SerialLink.c:253-284 | Between its first byte 0x01 and its last byte 0x03 an encoded message has no byte below 0x10 but 0x02, and each of these is followed by one from 0x10 to 0x1f. |
| `LinkProtocol.FramesOnTheLine` | Source/ZigbeeNodeControlBridge/SerialLink.c:253-284 | One message in each dialect, byte by byte: type and length high byte first, checksum, payload. |
| `LinkProtocol.DeliveredIffItFits` | Source/Host/6LoWPANd/Source/SerialLink.c:142-161 | From any state an encoded message is delivered, once, if and only if it is shorter than the node's buffer, or no longer than the daemon's. |
| `LinkProtocol.SecondEndDeliversAgain` | Source/ZigbeeNodeControlBridge/SerialLink.c:157-173 | Whatever has been received: an END that comes twice delivers twice what it delivers once. |
| `LinkProtocol.EarlyEnd` | Source/Host/6LoWPANd/Source/SerialLink.c:142-161 | An END before the frame is complete is as if nothing had come to the daemon, unless what it has happens to be right or is too long; the node drops the frame. |
| `LinkProtocol.CorruptionIsRejected` | Source/ZigbeeNodeControlBridge/SerialLink.c:157-230 | A sent frame with exactly one type, checksum or payload byte changed is never delivered. |
| `LinkProtocol.NothingStoredBeyondLength` | Source/Host/6LoWPANd/Source/SerialLink.c:112-221 | For every byte stream, over any number of frames: each byte is stored below the declared length and inside the buffer or not at all, and since the last START only the first positions, as many as were counted, have changed. |
| `SerialLine.OneChangeChangesXor` | Source/ZigbeeNodeControlBridge/SerialLink.c:411-428 | Changing one byte changes the exclusive-or checksum of a payload of any length. |
| `NodeSerial.SerialLink.ReadMessage` | Source/ZigbeeNodeControlBridge/SerialLink.c:133-236 | One received byte changes the static variables and the buffer as one step of the parser, and reports a message exactly when the parser delivers one. |
| `NodeSerial.SerialLink.WriteMessage` | Source/ZigbeeNodeControlBridge/SerialLink.c:253-284 | Sends exactly the encoding of the message. |
| `NodeSerial.SerialLink.CalculateCrc` | Source/ZigbeeNodeControlBridge/SerialLink.c:411-428 | The loop computes the checksum over type, length and payload. |
| `NodeSerial.SerialLink.TxByte` | Source/ZigbeeNodeControlBridge/SerialLink.c:445-454 | Sends a special byte as it is and stuffs every data byte below 0x10. |
| `NodeSerial.SerialLink.LogSend` | Source/ZigbeeNodeControlBridge/SerialLink.c:299-341 | When the pending bytes end with an entry, the sender ends with the ring empty and has sent, across the index wrap, exactly the LOG message of each entry that they are read as, in order. |
| `NodeSerial.SerialLink.LogPutch` | Source/ZigbeeNodeControlBridge/SerialLink.c:487-512 | A character adds exactly its level byte and its text to the pending bytes; a 256th byte empties the ring. |
| `NodeSerial.SerialLink.LogFlush` | Source/ZigbeeNodeControlBridge/SerialLink.c:528-533 | Ends the entry with a zero byte; a 256th byte empties the ring. |
| `NodeLog.LogOnTheLine` | Source/ZigbeeNodeControlBridge/SerialLink.c:299-341 | The log message of one entry of one byte, byte by byte. |
| `NodeLog.TextIsLevelAndPrintable` | Source/ZigbeeNodeControlBridge/SerialLink.c:487-512 | The entry of a text is its first character, cut to a level of at most 6, and then its characters from space to tilde in order. |
| `NodeLog.RunningChecksum` | Source/ZigbeeNodeControlBridge/SerialLink.c:306-325 | The checksum that the log sender sums while it looks for the terminator is that of the whole message. |
| `NodeLog.LogTextIsEntry` | Source/ZigbeeNodeControlBridge/SerialLink.c:487-512 | What a character adds is free of zero bytes except when a zero character is the first of an entry. |
| `NodeLog.EntryIff` | Source/ZigbeeNodeControlBridge/SerialLink.c:487-533 | The bytes of a text are free of zero bytes if and only if it is empty or does not begin with a zero character; otherwise the first is the only zero byte. |
| `NodeLog.TextsArePendingIff` | Source/ZigbeeNodeControlBridge/SerialLink.c:487-533 | In every run of texts, put character by character and flushed, and of sends, the ring holds exactly the terminated entries of the texts since the last send if and only if these are no more than 255 bytes. |
| `NodeLog.TextsAreSentIff` | Source/ZigbeeNodeControlBridge/SerialLink.c:299-533 | In every such run the entries sent are those of all texts before the last send if and only if no more than 255 bytes were ever put in between two sends; otherwise fewer bytes are sent. |
| `NodeLog.PendingIsTerminated` | Source/ZigbeeNodeControlBridge/SerialLink.c:299-533 | Between texts the ring always ends with the end of an entry, even when bytes have been lost, so that it can be sent. |
| `NodeLog.TextsAreDelivered` | Source/ZigbeeNodeControlBridge/SerialLink.c:299-533 | In every such run a receiver gets one LOG message for each entry sent that fits its buffer, in order and nothing else; these are the entries of all texts before the last send if the ring always had room. |
| `NodeLog.LogIsDelivered` | Source/ZigbeeNodeControlBridge/SerialLink.c:299-341 | A receiver fed with what the log sender sends gets the entries that fit, in order, and nothing else. |
| `HostSerial.SerialLink.ReadMessage` | Source/Host/6LoWPANd/Source/SerialLink.c:112-221 | The reading loop takes bytes until the first message is complete, keeps its state for the next call, and leaves the other bytes unread. |
| `HostSerial.SerialLink.WriteMessage` | Source/Host/6LoWPANd/Source/SerialLink.c:235-263 | Sends exactly the encoding of the message, or, when the device fails on the way, the prefix that it took. |
| `HostSerial.SerialLink.CalculateCrc` | Source/Host/6LoWPANd/Source/SerialLink.c:269-290 | The loop computes the same checksum as the node. |
| `HostSerial.CallTakesFirst` | Source/Host/6LoWPANd/Source/SerialLink.c:112-221 | One call returns the first message of the waiting bytes and leaves all others for later calls. |
| `HostSerial.ScheduleIsIrrelevant` | Source/Host/6LoWPANd/Source/SerialLink.c:112-221 | However the byte stream is split over arrivals and calls, the messages returned and still to come are those of the whole stream. |
| `HostSerial.MessagesAreRead` | Source/Host/6LoWPANd/Source/SerialLink.c:112-221 | When the bytes of a list of encoded messages, with noise between them, arrive split in any way, the calls of the reader return exactly the messages that fit the buffer, in order, and what they have not returned is still to come. |
| `PdmTraffic.SaveThenLoad` | Source/ZigbeeNodeControlBridge/pdm_host.c:168-361 | Whatever arrives during a save that ends, the host then has the record and all others as before; and whatever harmless messages arrive between its answers, loading restores the same bytes. |
| `PdmTraffic.SaveSends` | Source/ZigbeeNodeControlBridge/pdm_host.c:307-352 | The blocks are sent in order, each only after the answer to the one before; the save ends if and only if as many answers come as there are blocks, and no received message is lost. |
| `PdmTraffic.OthersAreHarmless` | Source/ZigbeeNodeControlBridge/pdm_host.c:222-256 | Messages of other types and blocks of other records do not change the outcome of a load, wherever they come. |
| `PdmTraffic.LoadRestoresIff` | Source/ZigbeeNodeControlBridge/pdm_host.c:213-264 | When the blocks of a record come in order, with any messages between them and after the last, the load restores the record if and only if no response before the last block says that there is no record, whichever it is about; otherwise it ends not recovered with a proper prefix of the record. |
| `PdmTraffic.ForeignRefusalSpoils` | Source/ZigbeeNodeControlBridge/pdm_host.c:243-247 | The host's answers for a record it has restore it, but not with one response about another record that it does not have before the last of them. |
| `PdmTraffic.LineRestoresIff` | Source/ZigbeeNodeControlBridge/pdm_host.c:208-264 | When the blocks of a record come over the line in order, framed, with noise, messages of any type and blocks of any record between them and any bytes after them, what the node's reader, in any state, takes into its receive buffer restores the record if and only if no response among them says that there is no record. |
| `PdmTraffic.HostAnswersRestore` | Source/ZigbeeNodeControlBridge/pdm_host.c:208-264 | The framed answers of a host that has the record restore it, whatever follows them. |
| `PdmTraffic.LoadAnswersEach` | Source/ZigbeeNodeControlBridge/pdm_host.c:213-264 | Every load response is answered with exactly one status message, of type 0x8000 and content 0, 0, 2 and a stale byte, and no received message is lost. |
| `PdmTraffic.LoadOfMissing` | Source/ZigbeeNodeControlBridge/pdm_host.c:243-247 | Loading a record that the host does not have copies nothing and leaves the descriptor not recovered. |
| `PdmTraffic.AnswersFitIff` | Source/ZigbeeNodeControlBridge/pdm_host.c:232-236 | The answers of a host for a record, with any harmless messages between them, are written inside the caller's buffer if and only if the record is no larger than the buffer. |
| `PdmTraffic.SaveAllStores` | Source/ZigbeeNodeControlBridge/pdm_host.c:378-386 | Once a save of all records has ended the host has stored each that is not empty, in list order. |
| `PdmTraffic.StoredHasEach` | Source/ZigbeeNodeControlBridge/pdm_host.c:378-386 | With distinct ids the host has each record that is not empty at its id and every other id as before. |
| `PdmBlocks.HostStores` | Source/ZigbeeNodeControlBridge/pdm_host.c:307-337 | A host that replaces on block 1 and appends afterwards ends with exactly the record. |
| `PdmBlocks.BlocksConcat` | Source/ZigbeeNodeControlBridge/pdm_host.c:307-337 | The payloads of the blocks concatenate to the record. |
| `PdmBlocks.BlockSizes` | Source/ZigbeeNodeControlBridge/pdm_host.c:292-328 | There are ceil(size/128) blocks, none empty, and every one but the last has 128 bytes. |
| `PdmBlocks.PayloadRoundTrip` | Source/ZigbeeNodeControlBridge/pdm_host.c:227-231 | The header fields and data that are written are read back, whatever follows them in the buffer. |
| `PdmBlocks.HeaderLayout` | Source/ZigbeeNodeControlBridge/pdm_host.c:309-337 | A block message is 18 bytes of header and the data: record id, size, number of blocks, number of the block and length of the data at fixed places, most significant byte first. |
| `PdmHost.Pdm.SaveRecord` | Source/ZigbeeNodeControlBridge/pdm_host.c:288-361 | The loops send and take exactly what the specification of a save says; an empty record sends nothing. |
| `PdmHost.Pdm.SendBlock` | Source/ZigbeeNodeControlBridge/pdm_host.c:309-337 | The copied fields and bytes are the message of exactly that block of the record. |
| `PdmHost.Pdm.AwaitResponse` | Source/ZigbeeNodeControlBridge/pdm_host.c:339-352 | Takes messages up to and including the first save response and no further. |
| `PdmHost.Pdm.LoadRecord` | Source/ZigbeeNodeControlBridge/pdm_host.c:168-271 | Missing parameters change nothing; otherwise the descriptor is listed once, the request is sent, the buffer holds the loaded bytes with the rest of it unchanged, and the state and traffic are those of the specification. |
| `PdmHost.Pdm.Enlist` | Source/ZigbeeNodeControlBridge/pdm_host.c:197-201 | A descriptor is put at the head of the list exactly when it is not in it; the list stays acyclic. |
| `PdmHost.Pdm.IsListed` | Source/ZigbeeNodeControlBridge/pdm_host.c:508-520 | The walk finds a descriptor exactly if it is in the list. |
| `PdmHost.Pdm.SaveAllRecords` | Source/ZigbeeNodeControlBridge/pdm_host.c:378-386 | The walk saves the records of the list from its head on. |
| `BringUpRuns.EveryRunIsPrepared` | Source/Host/6LoWPANd/Source/JennicModule.c:476-646 | In every run of starts, machine calls and messages, before each run command and since the one before it a configuration was sent, then the security step taken, with the security sent if the network was secure; and the running state is entered only after an address that came after the last run command. |
| `BringUpRuns.EveryConfigIsTheLast` | Source/Host/6LoWPANd/Source/JennicModule.c:711-803 | Every configuration sent is byte for byte the last one reported by the module, or the initial one; every security message carries the last reported key; and the security step knows whether one was reported. |
| `BringUpRuns.EveryMessageIsSupported` | Source/Host/6LoWPANd/Source/JennicModule.c:280-365 | In every run no module is sent a message that its last reported version does not support (profile from 1.1.0, activity LED from 1.3.0, radio front end from 1.4.0, pings after a version that answers them), and each carries the configured value. |
| `BringUpRuns.RunComesInTime` | Source/Host/6LoWPANd/Source/JennicModule.c:476-561 | Whatever messages come or fail to come, unless the bring-up is started over or asked for its configuration, the run command of a known mode is sent within at most seven machine calls, as long as the 32-bit retry counter is not about to wrap around. |
| `BringUpProgress.AddressEntersRunning` | Source/Host/6LoWPANd/Source/JennicModule.c:583-632 | A stored address with a reading of the uptime takes a module that waits for it into the running state at once, with its configured LED sent from 1.3.0 on, and the retries cleared. |
| `BringUpProgress.RunningComesInTime` | Source/Host/6LoWPANd/Source/JennicModule.c:476-632 | From any moment of the bring-up on, if it is not started over, asked for its configuration, or given up after ten timeouts: once the configuration has come, or is not waited for, and the machine has been called as often as the stage says (at most nine times), the module enters the running state when its address comes. |
| `BringUpProgress.RunningIsEquipped` | Source/Host/6LoWPANd/Source/JennicModule.c:280-365 | A module whose version is settled when it comes to its security step or before: whenever it runs after that, in any run, it has been sent since then the run command of its mode, from 1.1.0 on its profile, from 1.4.0 on its front end and the diversity asked for, and from 1.3.0 on the configured LED. |
| `BringUpProgress.AddressIsAskedNineTimes` | Source/Host/6LoWPANd/Source/JennicModule.c:592-616 | Without an answer the address is asked for at nine timeouts; at the tenth the module is reset and everything starts over. |
| `BringUpProgress.VersionIsAskedTwice` | Source/Host/6LoWPANd/Source/JennicModule.c:484-506 | A module that does not tell its version is asked for it twice and then configured. |
| `BringUpProgress.ConfigurationIsAskedForEver` | Source/Host/6LoWPANd/Source/JennicModule.c:567-579 | Without an answer the configuration is asked for at every timeout, for ever. |
| `BringUpProgress.VersionMovesOn` | Source/Host/6LoWPANd/Source/JennicModule.c:677-709 | The version that a module reports when asked is remembered and the configuration sent at once; it answers pings from 1.1.0 on. |
| `BringUpProgress.ConfigMovesOn` | Source/Host/6LoWPANd/Source/JennicModule.c:711-774 | The configuration reported by a module of version 1.1.0 or later is remembered byte for byte, and its address comes next, even if one was known. |
| `BringUpProgress.KeyIsSentNext` | Source/Host/6LoWPANd/Source/JennicModule.c:776-803 | The key reported by a module of version 1.1.0 or later makes the network secure, and is what the next security step sends. |
| `BringUpProgress.EarlyReportsAreIgnored` | Source/Host/6LoWPANd/Source/JennicModule.c:711-803 | A configuration or key that a module of an earlier version reports changes nothing. |
| `BringUpProgress.RequestIsAnswered` | Source/Host/6LoWPANd/Source/JennicModule.c:886-923 | Whatever the driver is about, a module that asks for its configuration is sent it at once. |
| `BringUpProgress.RunningPingsIff` | Source/Host/6LoWPANd/Source/JennicModule.c:437-473 | A running module is sent a ping, whenever one is due, if and only if it is known to answer. |
| `BringUp.ReceivedConfigRoundTrip` | Source/Host/6LoWPANd/Source/JennicModule.c:733-747 | The sixteen bytes of a received configuration are sent again byte for byte. |
| `BringUp.SentConfigRoundTrip` | Source/Host/6LoWPANd/Source/JennicModule.c:169-177 | A sent configuration is understood as the same configuration. |
| `BringUp.ConfigLayout` | Source/Host/6LoWPANd/Source/JennicModule.c:169-177 | The sixteen bytes of a configuration hold region, channel, PAN id, network id and prefix at fixed places, most significant byte first. |
| `BringUp.WriterNeverFails` | Source/Host/6LoWPANd/Source/JennicModule.c:165-231 | Exactly one of the two writing branches is taken; no version lies between 1.0.255 and 1.1.0. |
| `JennicModule.Driver.WriteConfiguration` | Source/Host/6LoWPANd/Source/JennicModule.c:165-231 | The writer succeeds and sends the configuration packed and in network byte order; its error branch is dead. |
| `JennicModule.Driver.StateMachine` | Source/Host/6LoWPANd/Source/JennicModule.c:476-663 | The switch with its fall-through is the specified step, and the status says whether a module that answers pings is lost: unheard of for more than 60 seconds. |
| `JennicModule.LostAfterOneMinute` | Source/Host/6LoWPANd/Source/JennicModule.c:646-661 | Given the uptime, a module is lost if and only if it is known to answer pings and was unheard of for more than 60 seconds. |
| `JennicModule.Driver.StartUp` | Source/Host/6LoWPANd/Source/JennicModule.c:666-675 | Clears the flags, but not the retry counter or the remembered network, and makes one step. |
| `JennicModule.Driver.ProcessConfig` | Source/Host/6LoWPANd/Source/JennicModule.c:711-774 | Three bytes are a version; otherwise a module of version 1.1.0 or later has its configuration remembered. |
| `JennicModule.Driver.ProcessMessage` | Source/Host/6LoWPANd/Source/JennicModule.c:886-923 | A handled message takes effect and, unless its handler or the query for the uptime failed, renews the time of the last communication and makes one step, whose status it returns; an unknown one is skipped. |
| `ClientTable.RunKeepsUnique` | Source/Host/JIPd/Source/IPv4_UDP.c:86-160 | In every run of client packets, with all their failures, and expiry sweeps, no client has two mappings. |
| `ClientTable.ClientStaysKnown` | Source/Host/JIPd/Source/IPv4_UDP.c:118-243 | After a packet from a client, through any run of packets, its own among them, and sweeps: it stays in the list if and only if no sweep comes more than 1800 seconds after its last packet in the run, in either direction; and then it has its old socket, or the one opened for it, and the time of that packet. |
| `ClientTable.PacketIsHeard` | Source/Host/JIPd/Source/IPv4_UDP.c:213-243 | A packet at some time gives a listed client that time and its old socket; an unlisted one that time and the new socket, or no time if opening failed, or nothing without memory; no other client is touched. |
| `ClientTable.ListedWhileHeardIff` | Source/Host/JIPd/Source/IPv4_UDP.c:118-155 | The same from any moment at which the client is listed, whatever its time and socket are. |
| `ClientTable.SweepKeepsExactly` | Source/Host/JIPd/Source/IPv4_UDP.c:124-155 | The mappings after a sweep are exactly those before it, each with the time of the packet that the sweep received on its socket if there is one, whose time is at most 1800 seconds past. |
| `ClientTable.SweepKeepsOrder` | Source/Host/JIPd/Source/IPv4_UDP.c:124-155 | The mappings that are left keep their order. |
| `ClientTable.DeleteKeepsUnique` | Source/Host/JIPd/Source/IPv4_UDP.c:479-513 | Deletion removes exactly one mapping and no other. |
| `ClientTable.FailedSocketStaysIff` | Source/Host/JIPd/Source/IPv4_UDP.c:444-449 | Through any run of packets and sweeps in which it stays in the list, a new client keeps what opening its socket gave, and so is without a socket if and only if that failed. |
| `UdpMapping.Gateway.GetMapping` | Source/Host/JIPd/Source/IPv4_UDP.c:374-387 | The walk returns the first mapping of the client, or null exactly if there is none. |
| `UdpMapping.Gateway.CreateMapping` | Source/Host/JIPd/Source/IPv4_UDP.c:391-477 | Appends one mapping at the end; without memory the list stays, without a socket the mapping stays with time zero and null is returned. |
| `UdpMapping.Gateway.DeleteMapping` | Source/Host/JIPd/Source/IPv4_UDP.c:479-513 | Unlinks exactly the given mapping and returns its successor; null and no change if it is not in the list; the list stays acyclic. |
| `UdpMapping.Gateway.SweepMappings` | Source/Host/JIPd/Source/IPv4_UDP.c:124-155 | The loop that deletes while it walks leaves exactly the swept sequence of the old entries. |
| `UdpMapping.Gateway.FromClient` | Source/Host/JIPd/Source/IPv4_UDP.c:213-243 | A packet finds or creates the client's mapping and sets its time, as `ClientTable.PacketIsHeard` says. |
| `Uart.Port.SetBaudRate` | Source/Common/uart.c:168-207 | For every 32-bit rate for which nothing that is tried divides by zero, as no supported one does, the search, with its signed 32-bit difference, ends after at most 13 divisors, and the registers take the first near setting or stay as they are. |
| `Uart.SearchFindsFirst` | Source/Common/uart.c:176-199 | What is programmed is within a sixteenth of the rate, no setting with more clocks per bit is, and nothing is programmed only if no setting is near. |
| `Uart.ErrorBound` | Source/Common/uart.c:183-197 | Each divisor d that is tried with c clocks per bit for a supported rate gives one that is off by at most (c*baud+1)/(2*c*d)+1. |
| `Uart.RoundedIsNearestIff` | Source/Common/uart.c:189-197 | For every product tried for a supported rate the rounding correction finds the divisor that is nearest, among all, if and only if the remainder is not half of an odd product, rounded down. |
| `Uart.FirstIsSoundIff` | Source/Common/uart.c:189-200 | Over all 32-bit rates, the first divisor tried is computed without wrap-around and is not zero if and only if the rate is from 16 to 2,000,000, the supported ones: from 1 to 15 the 16-bit divisor wraps, and from 2,000,001 until the product wraps too the source divides by zero. |
| `Uart.SupportedNeverByZero` | Source/Common/uart.c:176-206 | For a supported rate nothing that the search tries wraps around or divides by zero. |
| `Uart.CommonRatesAreFirst` | Source/Common/uart.c:176-206 | Every rate from 16 to 115200 is met by the first setting tried. |
| `Uart.KnownSettings` | Source/Common/uart.c:176-206 | The registers for 9600, 115200 and 1000000. |
| `Uart.DeepSettings` | Source/Common/uart.c:176-206 | 921600 is met only with nine clocks per bit, and 1500000 only with eleven. |

## Left out

- Radio, stack, persistence and timer calls: they appear as inputs, as entries of an output sequence, or not at all.
- The search for an unused PAN id: it need not end when an extended PAN id is configured, so its result is an input.
- Network keys: key indices, `eEncryptKey`, `eDecryptKey` and security material are not modelled.
- Group address records: `vSetGroupAddress` stores more records than its table holds, so only the ranges are modelled.
- The default ranges of a factory new node that joins another network: the ranges it adopts replace them.
- Channels, transmit power, LEDs, identify times and the lengths of timer intervals in commissioning; the channel in a scan response is an input.
- TouchlinkNetwork.AddressesAreSafe: the founder's ranges do not start at zero and end below 65535; their actual ends are constants of a library that is not part of this model.
- TouchlinkNetwork.GroupsAreSafe: the same for the ends of the founder's group ids.
- TouchlinkSystem.SystemAddressesAreSafe: a request is received by at most one node, once, and with the grant that was sent; what the addresses of two networks have in common is not compared.
- TouchlinkSystem.SystemGroupsAreSafe: the same; and a node that has been reset does nothing any more.
- Truncated frames: their missing bytes may be supplied by what follows; only early and repeated END bytes are described.
- The maximum message size: it is the length of the receiver's buffer, a parameter of both serial readers.
- Interrupts between two statements on the log ring.
- `vUart_WriteMessage` of the persistence code: it repeats `vSL_WriteMessage`, which is modelled.
- Concurrency and locking in the persistence code, record deletion and the wait for the host.
- PdmHost.Pdm.LoadRecord: requires the host's blocks to fit the receive buffer and the caller's; writes behind their ends are not modelled, only, in `PdmTraffic.AnswersFitIff`, exactly when a host's answers make them.
- The host script's own storage: an abstract host replaces on block 1 and appends afterwards.
- Pings: whether one is due is an input, and so is every reading of the uptime.
- Logging, the TUN device, Zeroconf, and the notification thread for a changed configuration.
- Forwarding of packets by the UDP gateway: only the client list is modelled; times are inputs.
- Uart.Port.SetBaudRate: requires that nothing the search tries divides by zero; signed arithmetic that overflows, from 2^31 on, is taken to wrap.
- CGI, JSON, TCP, the command parsers and attribute marshalling: long copies into library calls.
