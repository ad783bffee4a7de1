# UDF protocol core: model and proofs

A Dafny 4.11 model of the USB Direct Fabric protocol core and proofs about it. UDF is a small layer-2 fabric:
frames with a CRC trailer, a ring routing table learnt from HELLO lists, nodes that store and forward frames up to
a hop limit, and sequence numbers shared by several threads. Verify everything with `dafny verify dfyconfig.toml`.

| file | what it models |
|---|---|
| `Base.dfy` | octets, node ids, options, results and errors |
| `Crc32.dfy` | CRC-32 (IEEE Std 802.3, clause 3.2.9, reflected), concretely: table, register, residue, burst detection |
| `Frame.dfy`, `Integrity.dfy` | `pack`/`unpack` on octets, streams of frames, which damage is certain to be rejected |
| `Auth.dfy` | the authenticated layout under an arbitrary MAC, and capability frames |
| `Ring.dfy` | positions, distances, rotation, reversal and contraction of duplicate-free rings |
| `Routing.dfy`, `RoutingEffects.dfy`, `RoutingLaws.dfy` | class `RoutingTable` against its specification functions; what those do to each field, by positions and membership; what every run of the operations keeps |
| `RingWalk.dfy` | many tables, each deciding alone: the hops compose to a shortest path |
| `Hello.dfy` | HELLO frames, and any interleaving of their origination, loss, duplication and delivery |
| `Monitor.dfy` | class `NeighborMonitor`: who is reported dead, and when |
| `Node.dfy` | class `UDFNode`: send, receive, forward, transmit |
| `Fabric.dfy`, `FabricRuns.dfy`, `FabricRing.dfy` | n nodes joined by cables as a state machine over thread steps; termination for every cabling, the exact fate of every frame on a ring |
| `NodeThreads.dfy` | the threads inside one node, interleaved at every lock and queue operation: conservation |
| `Accounting.dfy` | what `expected_seq`, `frames_rx` and `seq_gaps` mean |
| `Sequencing.dfy` | k threads that take a number and append the frame later: overtaking, the receiver's lag and its exact bound |
| `Gadget.dfy` | class `GadgetDaemon`: receive, transmit with partial writes, heartbeat, send; its threads in every interleaving |
| `Host.dfy` | class `UDFHost`; its threads in every interleaving |
| `Link.dfy` | the host's cable into the gadget: the gadget's counters and what it delivers under both daemons' interleavings |
| `Counters.dfy` | counters incremented without a lock |

Classes keep the fields the source updates in place. Each method is proved equal to a function of the old state
(`View() == Heard(old(View()), path)`), and the laws are lemmas about those functions over every run. What each such
function computes is stated once more without its helpers: by octets, by positions, or by what the next reader unpacks
(`PackedOctets`, `HeardEffect`, `ReceivedOctets`). Reads, writes, clocks and keys are parameters. Where threads share
state outside a lock, each daemon is also a state machine whose steps are the sections another thread can observe, and a
thread left undisturbed is proved to do what the method does.

## Main results

- **Shortest loop-free paths.** With tables that are rotations of one ring, `get_next_hop` followed node by node
  reaches every destination in exactly min(cw, ccw) links without turning round (`ShortestDelivery`). While any members
  have removed a dead node and the others have not, it still never turns round and costs at most one link more
  (`RemovalUnderWay`). If forwarding nodes consulted the table under the hop test of node.py, all pairs could talk exactly
  when the ring has at most 33 nodes (`AllPairsIff`); no source file joins the two, node.py always sends one way.
- **Converged stays converged**, under any interleaving of HELLO traffic through the real octets; a HELLO keeps a
  converged table converged exactly when it is a rotation of the ring or a shorter list naming no stranger
  (`HelloKeepsConvergedIff`, `StaysSettled`). From any partial knowledge of the ring
  the network converges once each member has heard one full list, provided nobody until then passes on a complete list
  in an order that is not the ring's; that proviso is exactly what keeps all lists in flight fair, and it can fail
  (`Converges`, `FairIff`, `OwnOrderArises`, `MisorderedUnsettles`).
- **Every operation, every run.** A routing table stays sound exactly as long as nobody adds self, removes self from a
  ring of two, or makes a list with duplicates the ring (`RunSoundIff`); which destinations are routed, stale ones
  included, is characterised exactly (`RoutedIff`), and so is when the port given to add_neighbor is the route
  (`AddedPortIff`).
- **Exactly once.** On a ring of nodes, in every interleaving, a frame for a member d links on is delivered there
  once and intact if d <= 16, and dropped once, 16 links on, if not (`ExactlyOnce`, `DeliveredIntact`, `MemberGoal`).
- **It ends**, whatever the cabling: at most 15 forwards and 64 other steps for each send (`RunsEnd`).
- **Burst detection.** Any change within 32 consecutive bits, at any bit offset, outside the length field is rejected,
  at every payload length, also across the boundary of data and trailer. A change that touches the length field passes
  exactly when it shortens the frame and four octets of the payload happen to be the checksum of the damaged header and
  the payload before them (`BurstRejected`, `BurstAcceptedIff`, `ShorteningCanPass`).
- **What is sent is what arrives.** In every interleaving of both daemons' threads the gadget delivers, of the data
  payloads on the cable it has read, exactly those a read can hold, in order; at rest, with no data frame failed, that is
  every such payload the host's application gave to send, in that order, each once (`PayloadsArrive`). What a gadget passes on is exactly
  what it read for others below fifteen hops, in order, changed in hop, number and FWD bit only (`Gadget.Origins`).
- **The octets.** Packed frames octet by octet, the outcome of unpacking any octets whatever, with and without a tag
  (`PackedOctets`, `UnpackOutcome`, `PackedAuthOctets`, `UnpackAuthOutcome`); a merged ring is the one list with the old
  ring in front and the new members behind it in the order of the HELLO (`MergeOrderIff`).
- **Accounting under interleaving.** With k numbering threads and L lost frames, 0 <= expected_seq - frames_rx <=
  L + k - 1 in every state; the bound is reached for every k and L (`LagBound`, `LagReached`). A gap can be counted with
  nothing lost: exactly when some frame overtook another thread's smaller number (`GapIffOvertaken`). In the gadget's own
  counters, fed by the host's two threads through real octets and the gadget's bounded reads, frames too big for a read
  count as lost too: L + B + 1 in every state and L + B at rest, with B such frames (`HostToGadget`). With neither the
  counters agree at rest and the gap condition is the same (`NothingLost`); with big frames alone the lag is unbounded
  (`OversizedLag`).

## Where code and documents disagree

The model follows the code in each case.

- `recompute` is documented as rebuilding the routes (src/common/routing.py:86), but in a ring it never clears the
  map: a node left out of an adopted list keeps its route (`StaleRoute`, `HeardRouteKeys`, `StaleRouteExample`).
- `add_neighbor` registers a port, but the ring direction overwrites it at once: a first neighbour on 'gadget' is routed
  by 'host', and the first two added on 'host' and 'gadget' are routed the other way round until a full HELLO arrives
  (`AddedPortIff`, `FirstOnGadget`, `FirstTwoSwapped`).
- The host takes numbers under a lock but writes outside it, so number 1 can reach the cable before number 0
  (`Host.OutOfOrder`).
- `update_from_hello` speaks of lists with more nodes; lists of equal length are adopted too.
- The specification asks receivers to drop duplicates; the code delivers them, and `expected_seq` does not wrap.
- A payload of 16369 to 65535 octets is packed and written, but no receiver can read it whole: it is lost with every write
  successful, and the counters show it as a gap (`FitsRead`, `ReadEncode`, `OversizedLag`).
- On the host, one payload of 65536 octets or more ends data transmission for good while heartbeats go on
  (`Host.EveryRun`).

## Model

| member | source | states |
|---|---|---|
| Crc32.TableSeparating | src/common/frame.py:67 | the 256 table entries of the CRC polynomial have pairwise different top octets |
| Crc32.WindowInjective | src/common/frame.py:84 | for any separating table, two windows of at most four octets that take one register to one state are equal |
| Crc32.TableSpreading | src/common/frame.py:67 | a change that spares the s low bits of a table index shows in the top octet of the entry above its s low bits, for every s |
| Crc32.FiveInjective | src/common/frame.py:84 | two windows of five octets that differ within 32 consecutive bits and take one register to one state are equal |
| Crc32.StateInjective | src/common/frame.py:84 | two registers that differ keep differing under any common continuation |
| Crc32.TrailerGivesResidue | src/common/frame.py:67-68 | any register fed its own complemented trailer ends in one constant state |
| Crc32.ChecksumIffResidue | src/common/frame.py:83-86 | the trailer is the right checksum if and only if the register over data and trailer is the residue |
| Crc32.BurstDetected | src/common/frame.py:83-86 | changing bits within 32 consecutive ones of a codeword, at any bit offset, never leaves a codeword |
| Crc32.ResidueValue | spec/usb-direct-fabric-v1.0.md:337 | the residue of this table is the 0xDEBB20E3 of IEEE Std 802.3 |
| Crc32.CheckValue | spec/usb-direct-fabric-v1.0.md:337 | the checksum of "123456789" is the published check value 0xCBF43926 |
| Frames.Pad16 | src/common/frame.py:28-29 | the padded length is the least multiple of 16 not below n |
| Frames.CoveredFields | src/common/frame.py:58-66 | the parser reads back every field and the payload from what pack laid out |
| Frames.UnpackEncode | src/common/frame.py:58-88 | unpack of a packed frame followed by any octets returns exactly that frame |
| Frames.PackUnpack | src/common/frame.py:58-88 | pack succeeds exactly when number and payload length fit their fields, and then unpack inverts it |
| Frames.PackedOctets | src/common/frame.py:58-68 | the packed octets one by one: header fields little-endian at their offsets, zero reserved octets, payload, the least zero padding, checksum of all that |
| Frames.UnpackOutcome | src/common/frame.py:71-88 | for any octets: which test fails first, or that magic, lengths and checksum hold and which fields are read from where |
| Frames.PrefixFree | src/common/frame.py:58-68 | no packed frame is a proper prefix of another |
| Frames.TrailingIgnored | src/common/frame.py:71-88 | octets appended to an accepted frame do not change the result |
| Frames.NormalForm | src/common/frame.py:58-88 | re-packing an accepted frame gives octets that unpack to the same frame and are no longer |
| Frames.SameOctetsIff | src/common/frame.py:71-88 | re-packing returns the accepted octets if and only if reserved octets and padding were zero |
| Frames.FitsRead | src/common/frame.py:17 | a frame fits the 16388-octet read if and only if its payload has at most 16368 octets |
| Frames.ReadEncode | src/gadget/udf_gadget.py:184-201 | one read of a packed frame unpacks to it if its payload has at most 16368 octets, and is rejected otherwise |
| Frames.UnpackStream | src/common/frame.py:71-88 | unpacking a concatenation of packed frames one after the other returns exactly those frames |
| Integrity.AcceptedIsCodeword | src/common/frame.py:79-86 | whatever unpack accepts starts with a codeword of the CRC |
| Integrity.SameLengthBurstRejected | src/common/frame.py:71-88 | damage within 32 consecutive bits that keeps the padded length is always rejected |
| Integrity.BurstRejected | src/common/frame.py:71-88 | the same for any damage that spares octets 10 and 11, trailer included, whatever follows the frame |
| Integrity.BurstAcceptedIff | src/common/frame.py:71-88 | damage within 32 consecutive bits is accepted if and only if it shortens the padded length and four payload octets are the checksum of the damaged header and the payload before them |
| Integrity.ShorteningCanPass | src/common/frame.py:78-88 | for every header there is a payload with which one damaged length octet turns the frame into an accepted empty one |
| Auth.AuthRoundTrip | src/common/frame.py:162-207 | packing succeeds exactly when number and length fit; for any MAC the frame is then accepted under another key exactly when the first sixteen octets of both keys' MACs over header and padded payload are equal, and else refused for that |
| Auth.PackedAuthOctets | src/common/frame.py:162-177 | the octets of a plain frame, then the first sixteen octets of the key's MAC over them, then the checksum over both |
| Auth.UnpackAuthOutcome | src/common/frame.py:180-207 | for any octets: which test fails first, checksum before tag, or that the tag is the key's MAC of header and padded payload and which fields are read |
| Auth.FitsReadAuth | src/common/frame.py:146-147 | an authenticated frame fits the read if and only if its payload has at most 16352 octets |
| Auth.AuthBurstRejected | src/common/frame.py:180-207 | damage within 32 consecutive bits outside the length field is rejected under every key |
| Auth.AuthBurstAcceptedIff | src/common/frame.py:180-207 | damage within 32 consecutive bits is accepted under a key if and only if it shortens the padded length and the next twenty octets of payload and tag are the tag and checksum of the damaged, shorter frame |
| Capability.CapPayloadParses | src/common/frame.py:112-126 | parse_cap returns every field make_cap wrote, the name cut to nine octets and at the first NUL |
| Capability.CapOctets | src/common/frame.py:112-115 | the sixteen payload octets one by one: version and frame size little-endian, node, features, at most nine octets of name, zeros |
| Capability.ParseCapOutcome | src/common/frame.py:118-126 | any payload is refused exactly below sixteen octets, and else read from those offsets, the name being the octets before the first NUL |
| Capability.CapRoundTrip | src/common/frame.py:108-126 | a capability frame is made exactly when number, version and size fit, carries its source, destination and flag, and every field comes back through pack and unpack; the name is the longest NUL-free prefix of at most nine octets |
| Ring.AheadIsMod | src/common/routing.py:110-111 | the modular differences are the link counts clockwise and counter-clockwise |
| Ring.RotationKeepsAhead | src/common/routing.py:85-115 | rotating a duplicate-free ring changes no distance |
| Ring.WithoutAhead | src/common/routing.py:36-46 | removing a member shortens by one exactly the arc it lay on |
| Ring.WithoutRotation | src/common/routing.py:36-46 | removal commutes with rotation, up to rotation |
| Routing.Keep | src/common/routing.py:45 | the comprehension loop keeps, in order, everything but the removed node |
| Routing.MergeNew | src/common/routing.py:75-80 | the merge loop with its running set computes the merge described by MergeOrderIff |
| Routing.Merge | src/common/routing.py:75-80 | the old ring is a prefix, the members are exactly the union, duplicates never appear |
| RoutingEffects.MergeOrderIff | src/common/routing.py:75-80 | a list is the merge if and only if it is the old ring followed by the list's members not in it, each once, in the order of their first occurrences |
| Routing.ShorterPort | src/common/routing.py:103-115 | the modular comparison picks the way with fewer links, the clockwise one on a tie |
| Routing.RoutingTable.constructor | src/common/routing.py:18-23 | a fresh table knows no neighbour, ring or route |
| Routing.RoutingTable.AddNeighbor | src/common/routing.py:25-34 | the whole new state: neighbour and route set, ring extended by it and by self, then recomputed |
| Routing.RoutingTable.RemoveNeighbor | src/common/routing.py:36-46 | the whole new state: neighbour, route and ring position gone, then recomputed |
| Routing.RoutingTable.UpdateFromHello | src/common/routing.py:63-83 | the whole new state: list adopted if at least as long, merged if not, self appended, then recomputed |
| Routing.RoutingTable.Recompute | src/common/routing.py:85-115 | the route loop computes the route map of its specification; below two members the neighbours are the routes |
| Routing.RoutingTable.GetNextHop | src/common/routing.py:48-57 | the port of the route, none for broadcast or an unknown destination |
| Routing.AssignRoutes | src/common/routing.py:107-115 | after the route loop every other ring member has the port of the shorter way, ties to 'host' |
| Routing.AssignKeys | src/common/routing.py:107-115 | the loop adds routes for exactly the ring's other members and leaves every other route alone |
| Routing.RecomputeShortest | src/common/routing.py:85-115 | recomputing a duplicate-free ring of two or more gives shortest routes and keeps it duplicate-free |
| RoutingEffects.AddedEffect | src/common/routing.py:25-34 | for any table: registration set, ring extended at the end by the neighbour and then self where missing, each route the shorter way from self's first to the member's last position, every other route as before |
| RoutingEffects.RemovedEffect | src/common/routing.py:36-46 | for any table: registration and route gone, the other ring positions kept in order and closed up, self put back at the end of a ring of two or more, routes as above |
| RoutingEffects.HeardEffect | src/common/routing.py:63-83 | for any table and list: adopted if at least as long, otherwise merged in order behind the ring, self last if in neither, registrations untouched, routes as above |
| RoutingEffects.HeardInOrder | src/common/routing.py:75-80 | two new members of a shorter list stand behind the ring in the order of the list |
| RoutingLaws.RunSoundIff | src/common/routing.py:25-115 | over every run of any operations all tables stay sound (ring empty, or duplicate-free with self in it and shortest routes; below two members routes are the registered neighbours; self never routed) if and only if no step adds self, removes self from a ring of two, or makes a list with duplicates the ring |
| RoutingLaws.RunSound | src/common/routing.py:25-115 | in particular after operations that name other ids and duplicate-free lists |
| RoutingLaws.RegisteredIff | src/common/routing.py:25-46 | over every run a neighbour is registered on a port exactly when the last add or remove naming it added it there |
| RoutingLaws.RemovedStaysGone | src/common/routing.py:36-57 | a removed node has no route in any continuation that does not name it again |
| RoutingLaws.HeardTwice | src/common/routing.py:63-83 | hearing the same list twice equals hearing it once, for every list |
| RoutingLaws.HeardRing | src/common/routing.py:71-82 | a HELLO never shortens the ring; prefix and member set of adoption and merge are exact |
| RoutingLaws.HeardRouteKeys | src/common/routing.py:71-82 | no stale route is left if and only if the list names every destination routed so far, or is shorter than the ring and the ring names it |
| RoutingLaws.RoutedIff | src/common/routing.py:36-46 | over every run a destination is routed exactly when it was once in the ring (or registered, below two members) and since then was not removed and the ring never fell below two |
| RoutingLaws.StaleRoute | src/common/routing.py:71-73 | a destination left out by an adopted list keeps the very route it had |
| RoutingLaws.StaleRouteExample | src/common/routing.py:85-115 | two concrete lists after which node 3 is out of the ring and still routed |
| RoutingLaws.AdjacentPort | src/common/routing.py:103-115 | in rings of three or more the clockwise neighbour is routed by 'host', the other by 'gadget', however registered |
| RoutingLaws.AddedPortIff | src/common/routing.py:25-34 | the port given to add_neighbor is the route if and only if it is the one read off the ring before: 'host' for an empty ring, the shorter side for a member, for a newcomer 'host' exactly when the ring's length is at most twice self's index plus one |
| RoutingLaws.FirstOnGadget | src/common/routing.py:25-34 | a first neighbour added on 'gadget' is routed by 'host' |
| RoutingLaws.FirstTwoSwapped | src/common/routing.py:25-34 | two neighbours added on 'host' and 'gadget' are routed by the opposite ports |
| RoutingLaws.FullHelloRestores | src/common/routing.py:63-83 | a full list puts the two neighbours back on the ports the cables have |
| RoutingLaws.TowardRotation | src/common/routing.py:96-115 | the direction chosen is the same for every rotation of the ring |
| RoutingLaws.RecomputeRotation | src/common/routing.py:85-115 | recomputing over any rotation of a ring yields the same route map |
| RoutingLaws.RecomputeReversal | src/common/routing.py:85-115 | over the reversed ring a member's route is the same if and only if the member is the antipode |
| RoutingLaws.TowardReversal | src/common/routing.py:96-115 | reversing the ring swaps the ports, except at the antipode |
| RoutingLaws.RemovalKeepsDirection | src/common/routing.py:36-46 | removing x changes the direction from a to b exactly when cw = ccw + 1 with x on the clockwise arc, or cw = ccw with x on the other |
| RingWalk.HopTowards | src/common/routing.py:48-57 | in a converged ring each node's next hop is the cable of the shorter way |
| RingWalk.StraightWalk | src/common/routing.py:48-115 | after k hops the frame is exactly k links on in the direction first chosen |
| RingWalk.ShortestDelivery | src/common/routing.py:48-115 | every destination is met after exactly min(cw, ccw) links, at most n / 2, and not before |
| RingWalk.CarryFate | src/common/node.py:97-106 | with the hop test a frame arrives with one hop counted per forward, or dies exactly 16 links on |
| RingWalk.AllPairsIff | src/common/node.py:97 | all pairs of a converged ring reach each other if and only if it has at most 33 nodes |
| RingWalk.RemovedAgrees | src/common/routing.py:36-46 | a table that removes a dead member agrees with the contracted ring |
| RingWalk.RemovalReconverges | src/common/routing.py:36-46 | once all others removed it, the contracted ring is converged with shortest routes |
| RingWalk.PartlyRemoved | src/common/routing.py:36-46 | after any subset of the others removed a member, every table agrees with the ring or with the contracted ring |
| RingWalk.RemovalUnderWay | src/common/routing.py:36-115 | in that state every remaining member is met in one direction without reversing, after at most min(cw, ccw) + 1 links and not before |
| Hello.HelloRoundTrip | src/common/routing.py:159-176 | make_hello succeeds exactly below 256 ids and 2^32; the frame goes from the node to 0xFF as H, originator, count and ids, and the list comes back in order through pack, unpack and parse |
| Hello.ParseHelloOutcome | src/common/routing.py:169-176 | any frame is refused exactly below three octets or without the H, and else yields as many ids as counted and present, in order |
| Hello.FirstFullHelloConverges | src/common/routing.py:63-83 | a member with any ring no longer than R adopts the first rotation of R it hears |
| Hello.HelloKeepsConvergedIff | src/common/routing.py:63-115 | a HELLO keeps a converged table converged if and only if it is a rotation, or shorter and naming no stranger |
| Hello.StaysSettled | src/common/routing.py:63-115 | in every run of originations, losses and repeated deliveries all tables stay rotations and all paths shortest |
| Hello.FairIff | src/common/routing.py:63-166 | from an open and polite start all lists in flight stay fair if and only if no step originates a complete list in an order that is not the ring's |
| Hello.Converges | src/common/routing.py:63-115 | from tables that know any members in any order the network is converged once each member has heard one full list, if no step until then was of that kind |
| Hello.OwnOrderArises | src/common/routing.py:71-82 | for every ring of four, two fair lists that leave a member with all four in another order |
| Hello.MisorderedUnsettles | src/common/routing.py:63-115 | a converged table that hears a complete list in another order is no longer converged |
| Monitor.TimedOut | src/common/routing.py:141-144 | the list holds exactly the expired ids, each once |
| Monitor.NeighborMonitor.HeartbeatReceived | src/common/routing.py:135-137 | the time of this neighbour, and no other, is set |
| Monitor.NeighborMonitor.CheckDead | src/common/routing.py:139-147 | returns exactly the expired ids without duplicates and drops exactly them |
| Monitor.NeighborMonitor.Forget | src/common/routing.py:149-151 | this neighbour, and no other, is no longer tracked |
| Monitor.ReportedIff | src/common/routing.py:122-151 | over every run, reported exactly when the last heartbeat still counting is older than the timeout |
| Monitor.BeatBetweenReports | src/common/routing.py:125-128 | between two reports of one id lies a heartbeat of it |
| Monitor.DetectedInTime | src/common/routing.py:139-147 | with checks at most p apart a silent neighbour is reported within (timeout, timeout + p] |
| Node.WithFwd | src/common/node.py:105 | or-ing in the FWD bit sets it and leaves every other bit |
| Node.ForwardFits | src/common/node.py:93-106 | a frame accepted from a read can be forwarded without outgrowing the next read |
| Node.UDFNode.Send | src/common/node.py:75-84 | the whole new state; fails exactly when number or payload length does not fit, the number being used up all the same |
| Node.UDFNode.Recv | src/common/node.py:86-91 | the oldest received frame, or none |
| Node.UDFNode.Forward | src/common/node.py:93-108 | the whole new state: nothing for self, a drop from 15 hops on, else one re-packed frame queued; raises exactly when number or payload no longer fits |
| Node.UDFNode.ReceiveOne | src/common/node.py:162-182 | the whole new state after one receive iteration, and that the thread dies exactly when a frame is to be forwarded and the numbers have run out |
| Node.UDFNode.TransmitOne | src/common/node.py:215-227 | the oldest frame is written, dropped on failure, or discarded without a device |
| Node.RelayOnce | src/common/node.py:93-108 | what the next node unpacks has bit 3 of the flags set, every other flag bit, source, destination and payload as in the original, one hop more and the new number |
| Node.SentOctets | src/common/node.py:75-84 | what the neighbour will unpack of a send (flags 0, hop 0, this source, the number, the payload), and every counter, also when nothing fits |
| Node.PassedOctets | src/common/node.py:93-108 | forward on any frame: nothing for self, one drop from 15 hops on, else one relayed frame queued, and every counter |
| Node.ReceivedOctets | src/common/node.py:162-182 | one receive pass over any octets: nothing if refused, else delivered, dropped or relayed as unpacked, and every counter |
| Fabric.ReceiveMatches | src/common/node.py:162-182 | the steps of the network agree with the receive method, verdict by verdict |
| Fabric.SendMatches | src/common/node.py:75-84 | a send is a step exactly when the send method queues a frame, with the same octets and number |
| Fabric.StepShifts | src/common/node.py:162-227 | every other step moves one packet between the places it says and touches no other; queues and cables are taken from the front, a read ends at the node the cable leads to |
| Fabric.StepOctets | src/common/node.py:93-108 | only a forward changes octets, into the relayed frame, and only a read cuts them, at 16388 |
| FabricRuns.TagStep | src/common/node.py:75-108 | no step duplicates or loses a packet |
| FabricRuns.ForwardStep | src/common/node.py:93-108 | each forward is paid for by exactly one remaining hop of its packet |
| FabricRuns.RankStep | src/common/node.py:93-108 | every step but a send strictly lowers a measure, a send raises it by 64 |
| FabricRuns.RunsEnd | src/common/node.py:93-108 | for every cabling, m sends cause at most 15 m forwards and 64 m other steps |
| FabricRuns.RunTags | src/common/node.py:75-108 | in every reachable state each sent frame is in exactly one place, once |
| FabricRing.StepOnCourse | src/common/node.py:93-108 | each step keeps source, destination, payload, flags and position in step with the hop count |
| FabricRing.RunKeepsInv | src/common/node.py:75-108 | every packet of every reachable state is on course |
| FabricRing.NotStuck | src/common/node.py:162-227 | while a packet is on its way some step is possible |
| FabricRing.ExactlyOnce | src/common/node.py:75-108 | at rest, every sent frame is once at its fate and nowhere else |
| FabricRing.DeliveredIntact | src/common/node.py:162-182 | a delivered frame has the sender's source, destination and payload, hop = links - 1, FWD exactly if forwarded |
| FabricRing.MemberGoal | src/common/node.py:93-108 | a member d links on gets its frame if d <= 16; else the drop is at the node 16 links on |
| NodeThreads.StepKeeps | src/common/node.py:75-108 | every thread step keeps both balances, counters trailing by what threads hold |
| NodeThreads.Conservation | src/common/node.py:162-227 | in every reachable state: frames_rx, queued frames and drops are fully accounted for, and the queue is FIFO |
| NodeThreads.AtRest | src/common/node.py:110-112 | with all threads idle the statistics balance exactly |
| NodeThreads.Uninterrupted | src/common/node.py:162-182 | an undisturbed receive thread does what the receive method does |
| NodeThreads.UninterruptedSend | src/common/node.py:75-84 | an undisturbed sender does what the send method does |
| Accounting.ExpectedIsNextAfterMax | src/gadget/udf_gadget.py:208-214 | expected_seq is one past the largest number seen, 0 before any; frames_rx counts arrivals |
| Accounting.GapsCountJumps | src/gadget/udf_gadget.py:210-212 | seq_gaps counts the arrivals above one past everything before them |
| Accounting.IncreasingAccount | src/gadget/udf_gadget.py:208-214 | for increasing arrivals: lag = missing numbers, gaps = maximal missing runs, gaps = 0 iff lag = 0 |
| Accounting.DistinctBelowExpected | src/gadget/udf_gadget.py:208-214 | without duplicates frames_rx never exceeds expected_seq |
| Accounting.GapFreeIff | src/gadget/udf_gadget.py:208-214 | without duplicates no gap is counted if and only if the numbers came as 0, 1, 2 and so on |
| Accounting.DistinctLag | src/gadget/udf_gadget.py:208-214 | without duplicates expected_seq - frames_rx is the number of missing frames, in any order of arrival |
| Accounting.CaughtUpIff | src/gadget/udf_gadget.py:208-214 | it is zero if and only if every number not seen lies above every number seen |
| Gadget.GadgetDaemon.NextSeq | src/gadget/udf_gadget.py:262-266 | returns the counter and advances it modulo 2^32 |
| Gadget.GadgetDaemon.Track | src/gadget/udf_gadget.py:208-214 | the three receive counters after one more number |
| Gadget.GadgetDaemon.RxOne | src/gadget/udf_gadget.py:182-224 | the whole new state after one receive iteration; past the hop limit a frame vanishes uncounted |
| Gadget.GadgetDaemon.TxOne | src/gadget/udf_gadget.py:226-249 | the write loop puts out as much of the oldest frame as the writes before the first broken one take, busy ones counting nothing, and counts frame and octets exactly when that is all of it |
| Gadget.DrainedOctets | src/gadget/udf_gadget.py:226-249 | the whole state after one transmit pass, by the sizes accepted before the first broken write |
| Gadget.BusyOnlyDelays | src/gadget/udf_gadget.py:239-246 | a busy write anywhere changes nothing that is put out, and nothing is tried after a broken one |
| Gadget.GadgetDaemon.HbOne | src/gadget/udf_gadget.py:251-260 | one heartbeat to 0xFF is numbered and queued |
| Gadget.GadgetDaemon.SendTo | src/gadget/udf_gadget.py:276-280 | the whole new state; fails exactly from 65536 octets on, the number being used up |
| Gadget.OwnOctets | src/gadget/udf_gadget.py:251-280 | what the host will unpack of a heartbeat (flags 0x10, to 0xFF, empty) and of a send, and the rest of the state |
| Gadget.ReceivedOctets | src/gadget/udf_gadget.py:182-224 | one receive pass over any octets: counted as read and refused, or accounted and delivered, relayed as unpacked, or gone past the hop limit |
| Gadget.EveryRun | src/gadget/udf_gadget.py:182-280 | in every interleaving of the threads: FIFO pieces whole or prefix, frames_tx and bytes_tx, crc_errors, receive counters and deliveries exact |
| Gadget.Origins | src/gadget/udf_gadget.py:182-280 | in every interleaving the frames passed on are exactly those read for others below 15 hops, in that order, changed in hop, number and FWD bit only; every other numbered frame is a heartbeat or data frame of this node; nothing else is queued |
| Gadget.NumbersOfRun | src/gadget/udf_gadget.py:216-280 | in every interleaving: i-th number is i mod 2^32; before the wrap each number is in exactly one place, none queued k places early; queue order is number order exactly when none is overtaken |
| Gadget.Undisturbed | src/gadget/udf_gadget.py:182-280 | a thread that begins and queues with nobody in between does what the method does |
| Gadget.UndisturbedDrain | src/gadget/udf_gadget.py:226-249 | likewise the transmit thread |
| Gadget.StreamReturnsQueued | src/gadget/udf_gadget.py:226-249 | with no aborted frame, unpacking the written stream returns exactly the frames dequeued |
| Host.UDFHost.SendPayload | src/host/udf_host.py:179-180 | the payload is queued last and nothing else changes |
| Host.UDFHost.TxOne | src/host/udf_host.py:147-157 | the whole new state and what the gadget will unpack: the oldest payload in a data frame to 0xFF; an unpackable payload kills the thread |
| Host.DataOctets | src/host/udf_host.py:98-157 | one TX pass on a live thread: the frame as it will be unpacked, the counters per libusb answer, or the end of the thread |
| Host.BeatOctets | src/host/udf_host.py:98-166 | one heartbeat pass likewise: flags 0x10, empty, to node 0 |
| Host.ReceivedOctets | src/host/udf_host.py:114-145 | one receive pass over any answer: which counter moves, and the tuple handed on unless bit 4 of the flags is set |
| Host.UDFHost.HbOne | src/host/udf_host.py:159-166 | the whole new state and the heartbeat on the cable |
| Host.UDFHost.RxOne | src/host/udf_host.py:128-145 | the whole new state: timeout, error, CRC error, heartbeat or data |
| Host.UDFHost.BulkWrite | src/host/udf_host.py:98-112 | success counts frame and octets, a timeout is counted, an error is not |
| Host.UDFHost.BulkRead | src/host/udf_host.py:114-126 | data on success, none otherwise, timeouts counted |
| Host.EveryRun | src/host/udf_host.py:128-180 | in every interleaving of the threads: FIFO payloads, data frames and heartbeats each in order on the cable, TX alive iff all dequeued payloads fit, heartbeats and data read split exactly; the data frames numbered carry exactly the payloads dequeued, in order, and but for failed ones and the one in hand so do those on the cable |
| Host.CableOrder | src/host/udf_host.py:147-166 | the numbers on the cable are pairwise distinct and below the next one, and increase if and only if no write overtook an earlier allocation |
| Host.OutOfOrder | src/host/udf_host.py:147-166 | five steps after which the cable carries 1, 0 |
| Host.StepChain | src/host/udf_host.py:147-166 | every host step is the chain's: taking a number is an allocation, a write an append or a failure |
| Host.UndisturbedData | src/host/udf_host.py:147-157 | a TX thread that takes and writes with nobody in between does what the method does |
| Host.UndisturbedBeat | src/host/udf_host.py:159-166 | likewise the heartbeat thread |
| Sequencing.IthNumber | src/gadget/udf_gadget.py:262-266 | in every interleaving the i-th allocation returns i, on the gadget i mod 2^32 |
| Sequencing.EachInOnePlace | src/gadget/udf_gadget.py:216-224 | before the wrap each number is queued, dequeued, lost or pending, exactly once; s stands no earlier than s - (k - 1) - lost |
| Sequencing.LagBound | src/host/udf_host.py:147-166 | with k threads and L lost frames the receiver has 0 <= expected_seq - frames_rx <= L + k - 1, at most L at quiescence, 0 if L = 0 |
| Sequencing.InOrderIff | src/host/udf_host.py:147-166 | the line is in number order if and only if no frame in it was overtaken by another in it |
| Sequencing.NoGapIff | src/gadget/udf_gadget.py:208-214 | in every run before the wrap the receiver counts no gap if and only if each frame it took stands at the place its number says |
| Sequencing.GapIffOvertaken | src/gadget/udf_gadget.py:208-214 | with nothing lost a gap is counted if and only if some frame taken had overtaken another thread's number |
| Sequencing.OneThread | src/gadget/udf_gadget.py:208-214 | one thread alone never leaves its order, and with nothing lost never causes a gap |
| Link.IntactRead | src/gadget/udf_gadget.py:182-206 | of the frames read one by one exactly those that fit the read arrive, in order |
| Link.HostToGadget | src/gadget/udf_gadget.py:182-214 | the host's two threads read by the gadget, both interleaving freely, L frames failed and B too big for a read: lag in [0, L + B + 1], at most L + B at rest, zero at rest iff every frame never read is numbered above all that were, no gap iff the frames that fit came as 0, 1, 2 and so on |
| Link.PayloadsArrive | src/host/udf_host.py:147-180 | both daemons interleaving freely: of the data payloads on the cable read so far exactly those of at most 16368 octets are delivered, in order; at rest with no data frame failed, exactly those of the payloads given to send |
| Link.NothingLost | src/gadget/udf_gadget.py:182-214 | with L = B = 0: equality at rest, and a gap exactly when a frame read had overtaken the other thread's |
| Link.OversizedLag | src/gadget/udf_gadget.py:182-214 | n payloads no read can hold and one heartbeat, all written and read: lag n and a gap, with nothing failed and nothing overtaken |
| Counters.CountsIff | src/host/udf_host.py:98-126 | an unlocked counter never exceeds the increments made, and equals them if and only if no store came between another thread's load and store |
| Counters.LostUpdate | src/host/udf_host.py:98-126 | two threads can lose one of two increments |
| Sequencing.LagReached | src/host/udf_host.py:147-166 | for every k and L a reachable state has the lag L + k - 1, with a gap counted even when nothing was lost |

## Left out

- USB plumbing: libusb and FunctionFS calls, endpoint opening, ep0 events, descriptors and strings, device scanning, signals, argument parsing, printing and statistics threads. Reads and writes are parameters of the steps.
- `_heartbeat_loop` of `UDFNode`: it calls `frame.pack_heartbeat`, which no file defines. `_gadget_tx_loop` only sleeps.
- Specification-only features: SYN/ACK handshake, duplicate dropping, broadcast flooding, deduplication table, crisscross topologies. No source file implements them.
- Field ranges: octet fields are octets by type, so the `struct.error` of a source, destination, flags or hop outside 0 to 255 is not modelled; number and payload length outside their range are.
- Monitor: time is an integer, not a float of seconds; the order of the dead list (dict order) is left open.
- Capability: names are octets; UTF-8 encoding before truncation and lenient decoding after it are left out.
- Auth: HMAC-SHA256 is an arbitrary function with 32 octets of output; nothing is claimed about its strength, and `derive_link_key` is left out.
- Fabric: a read takes one written frame (cut to 16388 octets), as the packet boundaries of the bulk endpoints give it; writes succeed whole or fail (the source ignores a short count from `os.write`). A send that cannot be packed is no step of the network; it would only use up a number. Nothing is written to the port the host receive loop reads, so only the gadget receive loop has a cable.
- Sequencing.LagBound: the link is FIFO and loses only the frames counted as lost; numbers stay below 2^32, where the gadget's counter wraps and the host's does not.
- Link.HostToGadget: the link, here and for `Link.PayloadsArrive`, is FIFO; a failed write puts nothing on it, and each read takes one written frame, cut to 16388 octets. What becomes of the octets cut off is not modelled.
- Host.EveryRun: promises nothing about tx_frames, tx_bytes and timeouts, which several threads increment without a lock; its steps count at once, and `Counters` models the lost updates. `Host.CableOrder` and `Link.HostToGadget` do not depend on these counters.
- get_all_ports, get_ring_members, get_stats, make_syn, make_ack: accessors and one-line wrappers that would only add easy members.
