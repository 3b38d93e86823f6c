# netudp in Dafny

netudp is a C++ library for game servers over UDP: connections with encrypted packets, channels with
coalescing, acknowledgements, ordered delivery, fragmentation, multicast groups and property replication.
This project models its stateful core and proves what the code guarantees over whole runs.

Each component is written twice. A *specification* describes its state and steps on values (datatypes and
functions), and lemmas prove the properties, most of them for every sequence of events. A *class* with the
fields and arrays of the C++ object does the same work in place, and every method is proved to act on the
class's view exactly as the specification does.

## What is proved

- **Hash map** (`HashMap`). Every history of insert, find and remove on the open-addressing table is
  answered as a plain map bounded at the table's capacity answers it. The reinsertion loop after a delete
  restores the probe paths, keeps every other entry and ends even when the table was full.
- **Rate limiter** (`RateLimiting`). Evicting idle buckets changes no later answer. A packet is refused if and only
  if, counted from some earlier packet of its address, it would be more than 10 + 60·T in T seconds. An address is held to that bound if and only if its bucket exists or
  the table has room for it, because the limiter ignores a failed insert.
- **Server lifecycle** (`ServerSpec`, `ServerSteps`, `Server`, `Requests`, `Rosters`, `Groups`). In every run of accept, timeout,
  disconnect and group calls: active list and free stack partition the slots, the reverse map is the exact
  inverse, no two active connections share a client id, every mapped address names an active connection with
  that address, every group member is active, and live groups use disjoint storage. Hence a data packet
  reaches only an active connection whose address is the sender's, and until its connection is closed every data
  packet of a connected client reaches it. What each event does to connections and group members is exact. A connect token that opened a connection
  opens no other one from a different address for the rest of the run, if and only if it was known or the
  fingerprint map had room for it.
- **Ordered channel** (`ReliableChannel`). Over a network that loses, duplicates and reorders, with 16-bit
  wrap, the callback sees exactly the first messages sent, in order, once each, byte for byte up to 1200 bytes,
  and no frame in reach of the window is lost, as long as no arriving number can be taken for another one of the window. The window test is right
  exactly then.
- **Channel queue and scheduler** (`RingBuffers`, `Channels`, `ChannelQueue`, `Scheduling`). Every message
  carries what the call that stands for it asked to send, sequence numbers are consecutive mod 2^16, at most one pending state entry per entity carries the latest payload in
  its original place, and the rest is first in, first out. With the Nagle timer off, every history of sends and
  send rounds through the idle check and the masked fast scan is answered as full scans answer it. With the
  timer on it need not be: a channel looked at too early loses its bit.
- **Coalescing and parsing** (`Frames`, `Packing`, `Coalescing`). What the receiver parses from the packets of one send
  call is what was dequeued, in order, except at most the last message, and that one only if the budget ran
  out or it fits no packet. Nothing else leaves the queues. With the Nagle timer off, messages leave in the
  order of full scans, and the call loses a message if and only if a queued frame fits no packet or all packets
  but the last cost more than the budget; otherwise the queues end empty.
- **Packet ring and worker barrier** (`Pipeline`, `WorkerBarrier`), as interleaved steps of their threads. With
  one producer the ring loses nothing. With two, as workers have it, it loses nothing while no pushes overlap,
  and a run with overlapping pushes that loses a packet is given.
- **Acknowledgements** (`PacketTracking`). Bit n says whether packet ack-n-1 arrived, and a sender marks only
  packets that truly arrived, each once, provided the receiver is told the packet's own number. Both ends of
  this repository tell it 0 instead; for that wiring, the exact condition of a mark on a packet that did not
  arrive is proved. A receiver that has heard nothing still acknowledges packet 0.
- **Replay window and rekeying** (`Replay`, `PacketCrypto`). The window accepts no nonce twice between resets, keys
  agree through every number of rekeys, and (epoch, nonce) pairs strictly increase if and only if no counter
  wraps. The nonce is not on the wire: a packet opens exactly when the nonce the receiver expects is the
  sender's, so what is accepted in an epoch are the sender's first packets without a gap. After a rekey the
  grace path asks no window: a packet of the previous epoch is accepted, again and again while grace packets
  remain, if and only if its nonce is the one now expected.
- **Reassembly** (`FragmentSpec`, `Fragment`). A message whose fragments arrive in any order, repeated and
  mixed with fragments of up to 15 other messages, is returned byte for byte by the event that brings the
  last missing fragment and by none before it.
- **Replication** (`Varint`, `ReplicationSpec`, `Replication`). Reading an update restores id, mask and the
  selected property bytes, consumes the whole wire and touches nothing else. A replica agrees with the entity as
  long as no pass misses it. A pass that does clears the dirty mask all the same; it harms no replica if and only
  if no property with bytes was due. No byte of an owner-only property ever reaches a client that never was the
  owner.
- **Connect tokens** (`ConnectToken`). Reading a written token gives it back if and only if it names at least
  one server and every address is IPv4 or IPv6.

`Arith`, `Bits`, `Bytes`, `Collections` and `Sequences` hold shared facts.

## Modelling decisions

- Unsigned fields are natural numbers with the wrap-around written out (`% 0x1_0000`, `Cast16`, `Int16`,
  `LIMIT`). Bit masks are sets, sequences of flags, or numbers with `Bit`/`Set`/`Clear`; the reassembly mask
  keeps its 32 bytes as bit vectors. `& (N - 1)` is the remainder mod N (`WrapIsMask`).
- `double` times and token counts are reals.
- The hash function, the AEAD cipher, key derivation, the float comparison and the quantising encodings are
  parameters. The only assumptions about them are contract clauses: what was sealed under a key and a nonce
  opens under these and no other nonce, packed sizes.
- Atomics are interleaved steps; the release and acquire pairs of the source justify that.
- Where the source leaves something to its caller the method says so: `GroupRemove` needs an index that lies in
  the pool (the source checks only the sign, and an index beyond the clients but in the pool is modelled),
  `Serialize` needs room for the mask it writes unchecked, and a full mask needs fewer than 64 properties
  because `1 << 64` is not defined.

## Model

| member | source | states |
|---|---|---|
| `HashMap.FixedHashMap.Insert` | src/core/hash_map.h:44-63 | writes at the first free or matching slot of the probe path; as a map: adds or overwrites the key, and fails exactly when the key is new and the table full |
| `HashMap.FixedHashMap.Find` | src/core/hash_map.h:66-80 | returns the slot of the key if and only if the map has it, and that slot holds the map's value |
| `HashMap.FixedHashMap.Remove` | src/core/hash_map.h:87-107 | the map loses exactly that key; the answer says whether it was there; the table is well formed again |
| `HashMap.FixedHashMap.RehashAfterDelete` | src/core/hash_map.h:136-146 | reinserting the run after the hole restores the invariant and keeps the contents; terminates also when the table was full |
| `HashMap.FixedHashMap.ReinsertAt` | src/core/hash_map.h:138-145 | one round keeps the contents and lowers the displacement of the entries or the distance to the gap |
| `HashMap.FixedHashMap.Clear` | src/core/hash_map.h:114-119 | the map is empty |
| `HashMap.FixedHashMap.Probe` | src/core/hash_map.h:46-62 | finds the first slot of the probe path that is free or holds the key, or says that there is none |
| `HashMap.ProbeFindsKey` | src/core/hash_map.h:66-80 | in a well-formed table the probe stops at the key if and only if the map has it |
| `HashMap.TakeOut` | src/core/hash_map.h:97-102 | emptying a slot removes one key and leaves exactly the repair state the loop starts from |
| `HashMap.ReinsertStays` | src/core/hash_map.h:136-146 | an entry whose path does not cross the gap stays, and the cursor gets closer to the gap |
| `HashMap.ReinsertMoves` | src/core/hash_map.h:136-146 | an entry whose path crosses the gap moves into it, the contents stay, the total displacement falls |
| `HashMap.RepairDone` | src/core/hash_map.h:136-146 | when the cursor meets an empty slot no probe path has a hole |
| `HashMap.CountIsCardinality` | src/core/hash_map.h:56-58 | the occupied count is the number of keys |
| `HashMap.RunHistory` | src/core/hash_map.h:44-146 | every history of insert, find and remove is answered as the bounded plain map answers it, and the size is exact |
| `RateLimiting.RateLimiter.AllowPacket` | src/connection/rate_limiter.h:39-74 | one packet: refill, consume, or a new bucket whose failed insert is ignored, as the specification on maps says; `RefusedIff` says what that comes to |
| `RateLimiting.RateLimiter.Cleanup` | src/connection/rate_limiter.h:77-92 | removes only buckets idle for more than 30 s, at most 64, and all of them when there are fewer |
| `RateLimiting.RateLimiter.CollectExpired` | src/connection/rate_limiter.h:79-87 | collects distinct expired addresses, all of them unless it stops at 64 |
| `RateLimiting.RateLimiter.RemoveAll` | src/connection/rate_limiter.h:89-91 | the table loses exactly the collected addresses |
| `RateLimiting.IdleIsFresh` | src/connection/rate_limiter.h:44-62 | a bucket idle for more than 30 s serves a packet exactly as a new one |
| `RateLimiting.EvictionUnobservable` | src/connection/rate_limiter.h:39-92 | in every time-ordered run in which no new address meets a full table, evicting gives the same answers as never evicting |
| `RateLimiting.AvailableStep` | src/connection/rate_limiter.h:39-92 | an event spends a token per admission and gains at most the refill |
| `RateLimiting.AdmissionPotential` | src/connection/rate_limiter.h:39-92 | admissions plus tokens left never exceed the burst plus the refill |
| `RateLimiting.AdmissionBound` | src/connection/rate_limiter.h:31-74 | every window of T seconds admits at most 10 + 60·T packets of an address |
| `RateLimiting.RefusedIff` | src/connection/rate_limiter.h:39-74 | in every proper run a packet is refused if and only if, counted from some earlier packet of its address at time s, the packets admitted and this one would be more than 10 + 60·(now - s) |
| `RateLimiting.BurstOfTen` | src/connection/rate_limiter.h:39-74 | of eleven packets of a new address at one time ten are admitted and the last is refused |
| `RateLimiting.FullAdmitsAll` | src/connection/rate_limiter.h:44-52 | counterexample family: at a full table a new address is admitted every time, at whatever times it sends |
| `RateLimiting.LimitedIffRecorded` | src/connection/rate_limiter.h:42-74 | over every time-ordered sequence of arrivals an address is held to 10 + 60·T packets in T seconds, if and only if its bucket exists or the table has room |
| `Rosters.AddedOk` | src/group/group.h:35-44 | appending keeps list and reverse map inverse and adds exactly that slot |
| `Rosters.RemovedOk` | src/group/group.h:47-61 | swap-remove keeps list and reverse map inverse and removes exactly that slot |
| `Rosters.ListIsMap` | src/group/group.h:64-67 | a slot is in the list if and only if its reverse entry is set |
| `ServerSpec.InitOk` | src/server.cpp:545-575 | the initial server satisfies the lifecycle invariant |
| `ServerSpec.CloseOk` | src/server.cpp:403-427 | closing a connection keeps the invariant and shortens the active list by one |
| `ServerSpec.AcceptOk` | src/server.cpp:1732-1785 | accepting a validated request keeps the invariant, also when the client is known, no slot is free or the address map is full |
| `ServerSpec.AcceptSlot` | src/server.cpp:1759-1778 | an accepted request gets an idle slot, which is active afterwards |
| `ServerSpec.SweepOk` | src/server.cpp:983-999 | the timeout loop keeps the invariant |
| `ServerSpec.SweepExact` | src/server.cpp:983-999 | although it swap-removes while iterating, the loop closes exactly the connections that timed out |
| `ServerSpec.HandleOk` | src/server.cpp:1834-2023 | a data packet, whatever its plaintext parses to, keeps the invariant |
| `ServerSpec.CreateGroupOk` | src/server.cpp:1336-1355 | creating a group keeps the invariant |
| `ServerSpec.DestroyGroupOk` | src/server.cpp:1357-1367 | destroying a group keeps the invariant |
| `ServerSpec.JoinGroupOk` | src/server.cpp:1369-1384 | joining keeps every member of every group an active slot |
| `ServerSpec.LeaveGroupOk` | src/server.cpp:1386-1395 | leaving, with the index of a client slot, keeps the invariant |
| `ServerSpec.StepOk` | src/server.cpp:403-427 | every event keeps the invariant, a leave call with an index of the client slots |
| `ServerSpec.Run` | src/server.cpp:403-427 | the invariant holds after every run whose leave calls name client slots |
| `ServerSpec.DispatchReachesSender` | src/server.cpp:814-861 | by wire slot id or by map, a data packet goes to an active connection with the sender's address: same kind, port and address bytes |
| `ServerSpec.EveryRunDispatchesToSender` | src/server.cpp:814-861 | the same after every run |
| `ServerSpec.CloseKeepsMappedIff` | src/server.cpp:993-995 | every active connection stays mapped if and only if no other one shares the closed address |
| `ServerSpec.AcceptKeepsMappedIff` | src/server.cpp:1774 | the new connection is mapped if and only if its address is known or the map has room |
| `ServerSteps.AddressEqualIff` | src/core/address.cpp:172-190 | addresses are compared on kind, port and four bytes for IPv4, sixteen for IPv6 |
| `ServerSteps.DispatchExact` | src/server.cpp:814-861 | a request is a packet of type 0 and 1078 bytes; a packet of type 4 to 6 or prefix 0x0C goes to the slot it names if that is active with the sender's address, else to the mapped slot, and is dropped exactly when there is neither |
| `ServerSteps.ConnectedIsHeard` | src/server.cpp:814-861 | in every run without another request from its address and until it is closed, every data packet from the address of an accepted client reaches its slot, whatever slot id it carries |
| `ServerSteps.ConnectExact` | src/server.cpp:1732-1785 | a request opens a connection, with its address, id, time and timeout, if and only if no active connection has its client id and some slot is idle |
| `ServerSteps.ConnectionExact` | src/server.cpp:983-999 | an event closes an active connection if and only if it was silent for longer than its timeout or sent a disconnect; an opened packet is the last heard of it; nothing else changes it |
| `ServerSteps.DisconnectIsRead` | src/server.cpp:2010-2020 | data frames and then a disconnect frame close the connection, data frames alone do not |
| `ServerSteps.MembersExact` | src/server.cpp:1369-1395 | after every event a client is a member if and only if it joined a group in use with room while connected, or was a member and has not left, been closed or lost the group |
| `ServerSteps.CreateExact` | src/server.cpp:1336-1355 | a group that was not in use is in use without members, and no other changes; nothing happens when all are in use |
| `Groups.GroupTable.constructor` | src/server.cpp:557-575 | all groups free, pools laid out by group index |
| `Groups.GroupTable.Create` | src/server.cpp:1336-1355 | takes the top of the free stack and opens an empty group in its own region, or fails when none is free |
| `Groups.GroupTable.Destroy` | src/server.cpp:1357-1367 | the group is gone and its index free again; nothing happens for an unknown group |
| `Groups.GroupTable.Add` | src/group/group.h:35-44 | in place: appends a slot that is no member if there is room; all other groups keep their members |
| `Groups.GroupTable.Remove` | src/group/group.h:47-61 | in place: swap-removes a member, or reports that it is none; all other groups keep their members; for an index beyond the clients the table stays well formed if and only if the entry read there says no member |
| `Groups.GroupTable.RemoveFromAll` | src/server.cpp:420-426 | the slot leaves every active group |
| `Groups.GroupTable.ClearMembers` | src/group/group.h:81-88 | every reverse entry of the group is -1, and no other region changes |
| `Groups.AddMeaning` | src/group/group.h:40-42 | the two pool writes of add mean exactly the appended roster and stay in the group's regions |
| `Groups.RemoveMeaning` | src/group/group.h:52-59 | the pool writes of remove mean exactly the swap-removed roster and stay in the group's regions |
| `Groups.StrayRemovalBreaks` | src/group/group.h:47-61 | counterexample family: with an index beyond the clients, an entry that says member leaves the group's list and reverse map in disagreement |
| `Groups.OneChanged` | src/server.cpp:1348-1353 | writes inside one group's regions leave the meaning of every other group unchanged |
| `Server.SlotTable.Activate` | src/server.cpp:1762-1778 | pops the free stack and appends to the active list, keeping the partition |
| `Server.SlotTable.Deactivate` | src/server.cpp:403-417 | swap-removes the slot and pushes it on the free stack, or does nothing for an idle slot |
| `Server.Server.constructor` | src/server.cpp:545-575 | the initial state |
| `Server.Server.Close` | src/server.cpp:2017-2019 | unmap, deactivate, leave all groups, reset: acts as the specification's close |
| `Server.Server.FindClient` | src/server.cpp:1732-1736 | says whether an active connection has the client id |
| `Server.Server.Accept` | src/server.cpp:1732-1785 | acts as the specification's accept; -1 exactly when the client is connected or no slot is free; the fingerprint check between the two is in `Requests` |
| `Server.Server.CheckTimeouts` | src/server.cpp:983-999 | acts as the specification's sweep |
| `Server.Server.Dispatch` | src/server.cpp:814-861 | acts as the specification's dispatch, which `DispatchExact` spells out, and reaches only the sender's connection |
| `Server.Server.HandleData` | src/server.cpp:1834-2023 | a packet that did not open changes nothing; one that did refreshes the connection, and closes it exactly when its parsed frames end in a disconnect |
| `Server.Server.GroupCreate` | src/server.cpp:1336-1355 | acts as the specification's group creation and returns the top of the free stack, or -1 when it is empty |
| `Server.Server.GroupDestroy` | src/server.cpp:1357-1367 | acts as the specification's group destruction |
| `Server.Server.GroupAdd` | src/server.cpp:1369-1384 | acts as the specification's join, with the source's range and activity checks |
| `Server.Server.GroupRemove` | src/server.cpp:1386-1395 | acts as the specification's leave and says whether the client was a member; an index beyond the clients leaves the server well formed if and only if the call reports failure |
| `Requests.Listener.HandleRequest` | src/server.cpp:1732-1785 | a request opens no connection exactly when its client is connected, its token was used from another address or no slot is free; past the first two checks it binds the token, as the specification says |
| `Requests.BindsIff` | src/server.cpp:1753-1757 | a request past the first two checks, whether or not a slot is free, binds its token if and only if the token was known or the map has room, because a failed insert is ignored |
| `Requests.BoundForever` | src/server.cpp:1743-1757 | a token bound to an address stays bound to it through every run |
| `Requests.OneAddressPerToken` | src/server.cpp:1738-1757 | once a request has opened a connection, its token opens connections in every further run only from the same address, if and only if the token was known or the map had room |
| `Requests.UnboundTokenMoves` | src/server.cpp:1743-1757 | counterexample family: a token the full map did not bind opens a connection from any other address once the first has timed out |
| `Requests.RequestExact` | src/server.cpp:1732-1785 | a request opens a connection for its client and address if and only if no active connection has its client id, its token was not used from another address and some slot is idle; otherwise no connection changes |
| `ReliableChannel.ReliableChannelState.BufferReceivedOrdered` | src/reliability/reliable_channel.h:127-149 | buffers a frame of the window that is not there yet, cut at 1200 bytes, as the specification says; `DeliveredBytes` says what comes out |
| `ReliableChannel.ReliableChannelState.DeliverOrdered` | src/reliability/reliable_channel.h:156-170 | delivers the contiguous run and terminates |
| `ReliableChannel.WindowIff` | src/reliability/reliable_channel.h:129-135 | the 16-bit window test holds if and only if the distance of the unbounded numbers mod 2^16 is below 64 |
| `ReliableChannel.WindowExactIff` | src/reliability/reliable_channel.h:129-135 | the test is right about the unbounded number if and only if that is in the window or its distance mod 2^16 is at least 64 |
| `ReliableChannel.NearIsInTime` | src/reliability/reliable_channel.h:129-135 | every number less than a cycle ahead and at most 65472 behind is one the test is right about |
| `ReliableChannel.StaleFrameTaken` | src/reliability/reliable_channel.h:127-149 | counterexample family: whenever the test is wrong about a number, its frame is taken for another message of the window, and stored as that one if and only if that one is not held |
| `ReliableChannel.BufferTracks` | src/reliability/reliable_channel.h:127-149 | whenever the test is right about its number, a frame is new exactly when its message is in the window and not held, and then it is held |
| `ReliableChannel.DeliverTracks` | src/reliability/reliable_channel.h:156-170 | delivery hands out the longest contiguous run of held messages and keeps the others |
| `ReliableChannel.ArriveTracks` | src/reliability/reliable_channel.h:127-170 | one arrival extends the delivered prefix by the run it completes |
| `ReliableChannel.OrderedDelivery` | src/reliability/reliable_channel.h:127-170 | for every sequence of arrivals the test is right about, the callback has seen exactly the first messages sent, in order, once each, and every message that arrived in reach of the window is delivered or held |
| `ReliableChannel.DeliveredBytes` | src/reliability/reliable_channel.h:127-170 | for every sequence of arrivals the test is right about, entry u of the callback's log is message u with number u mod 65536: all its bytes up to 1200, and else its first 1200 |
| `RingBuffers.FixedRingBuffer.PushBack` | src/core/ring_buffer.h:24-31 | appends, or fails exactly when full |
| `RingBuffers.FixedRingBuffer.PopFront` | src/core/ring_buffer.h:33-44 | removes the first entry, or fails exactly when empty |
| `RingBuffers.FixedRingBuffer.Get` | src/core/ring_buffer.h:50-52 | the i-th entry of the sequence |
| `RingBuffers.FixedRingBuffer.Set` | src/core/ring_buffer.h:46-48 | replaces the i-th entry and no other |
| `Channels.Channel.QueueSend` | src/channel/channel.h:66-113 | overwrites a pending update of the entity or appends; refuses exactly bad sizes and a full queue |
| `Channels.Channel.FindState` | src/channel/channel.h:74-89 | the last pending state entry of the entity, or -1 |
| `Channels.Channel.HasPending` | src/channel/channel.h:118-130 | whether a message may be sent now: the queue is not empty, and the Nagle flag is set, the timer is off or it has run out |
| `Channels.Channel.DequeueSend` | src/channel/channel.h:133-142 | takes the first message and resets the Nagle flag and time, or changes nothing when the queue is empty |
| `ChannelQueue.EveryRun` | src/channel/channel.h:54-142 | in every reachable state: message k carries the data, flags and entity of the call that stands for it in an account of the accepted calls, numbers are consecutive mod 2^16, one pending entry per entity, carrying its latest payload |
| `ChannelQueue.AcceptsIff` | src/channel/channel.h:66-95 | in every reachable state a call is accepted if and only if its size is 1 to 1200 and an update of its entity is waiting or fewer than 256 messages are; it replaces exactly the waiting update |
| `ChannelQueue.PlacesKept` | src/channel/channel.h:73-113 | a queued message keeps its place and number for good; only a pending update's payload is replaced, by the same entity |
| `ChannelQueue.ScanFindsEntity` | src/channel/channel.h:73-89 | the overwrite scan finds an entry if and only if the entity is pending |
| `Scheduling.NextUnique` | src/channel/channel.h:216-229 | first channel of the highest priority: the choice is unique |
| `Scheduling.Connection.NextChannel` | src/channel/channel.h:216-229 | the full scan returns that choice among the channels that may send |
| `Scheduling.Connection.NextChannelFast` | src/channel/channel.h:233-255 | the masked scan returns the choice among masked channels, the new mask is those that may send, and the covering of non-empty channels survives exactly when every non-empty channel may send |
| `Scheduling.FastEqualsFull` | src/channel/channel.h:216-255 | while every waiting channel is in the mask both scans choose the same channel |
| `Scheduling.Connection.ReadyIsNonEmpty` | src/channel/channel.h:118-130 | with the Nagle timer off a channel may send exactly when it is not empty |
| `Scheduling.Connection.IdleHasNothingQueued` | src/server.cpp:1040-1053 | a connection skipped by the idle fast path has no queued message |
| `Scheduling.Connection.Send` | src/server.cpp:1127-1131 | queues, sets the pending bit on success, and keeps every non-empty channel in the mask |
| `Scheduling.Connection.Dequeue` | src/channel/channel.h:133-142 | takes the oldest message if there is one, and keeps every non-empty channel in the mask |
| `Scheduling.RunHistory` | src/server.cpp:1040-1053 | with the Nagle timer off, every history of sends and send rounds, with idle connections skipped and the others scheduled by the fast scan, is answered as by full scans |
| `Scheduling.WaitingChannelIsLost` | src/channel/channel.h:243-253 | counterexample: with the Nagle timer on the fast scan can miss a channel that the full scan chooses |
| `Frames.WriteUnreliable` | src/wire/frame.h:34-48 | writes the encoding at the position and changes no other byte, or nothing when it does not fit |
| `Frames.WriteReliable` | src/wire/frame.h:54-70 | writes the encoding at the position and changes no other byte, or nothing when it does not fit |
| `Frames.ReadFrame` | src/server.cpp:1914-2023 | reads one frame with the source's bounds checks, which `MalformedStops` spells out |
| `Frames.ParsePayload` | src/server.cpp:1911-2024 | the parse loop returns exactly the frames of the grammar, up to the first malformed one |
| `Frames.ParseOne` | src/client.cpp:572-644 | an encoded data frame is read back and the rest is parsed after it |
| `Frames.ParseUndoesWrite` | src/wire/frame.h:34-70 | parsing the concatenated encodings gives the frames back, for server and client |
| `Frames.ParseDisconnect` | src/server.cpp:2010-2020 | a disconnect frame behind data frames is read back, by server and client |
| `Frames.ParseFragment` | src/server.cpp:1980-2008 | a fragment frame behind data frames is read back by the server and ignored by the client |
| `Frames.MalformedStops` | src/server.cpp:1914-2023 | the loop stops exactly at an unknown type, a header or payload that is cut off, or a channel that does not exist; a client also at a fragment |
| `Frames.FrameBytes` | src/wire/frame.h:34-108 | the bytes of each frame: type, channel, little-endian numbers, data |
| `Coalescing.Place` | src/server.cpp:2065-2138 | a message is packed behind the others, after a flush if needed, or it is lost for one of two stated reasons |
| `Coalescing.Flushed` | src/server.cpp:2073-2104 | a packet sent parses back to its frames |
| `Coalescing.Drain` | src/server.cpp:2055-2141 | the loop accounts for every message dequeued and ends; with the Nagle timer off it takes them as full scans would, and leaves nothing unless the last one was lost |
| `Coalescing.SendLoop` | src/server.cpp:2045-2174 | the loop and the final flush together: the same, with every packet sent |
| `Coalescing.SendPending` | src/server.cpp:2032-2174 | parsed frames are the dequeued messages in order, except possibly the last; a message is lost if and only if the frames dequeued include one that fits no packet or their packets but the last cost more than the budget; queues lose exactly what was dequeued; no payload exceeds 1200 bytes; the budget is charged for every packet sent; nothing is sent over budget; with the Nagle timer off messages are taken as full scans would, the condition for a loss is about all that was queued, the mask still covers every non-empty channel, and without a loss all queues are empty |
| `Packing.MeterExact` | src/server.cpp:2068-2133 | one round packs its frame if and only if the frames so far and this one can be sent without a loss |
| `Packing.PrefixAffordable` | src/server.cpp:2073-2112 | more frames never cost less: what is affordable stays so without its last frames |
| `Packing.BudgetLosesSecond` | src/server.cpp:2073-2112 | witness: of two 1000-byte frames the second is lost with a budget of zero, and sent with a packet's worth of credit |
| `Coalescing.ConservedStep` | src/server.cpp:2059-2063 | dequeuing moves one message from its queue to the taken ones and nothing else |
| `Pipeline.EveryRun` | src/server.cpp:71-97 | the ring's invariant holds under every interleaving of one producer's and the consumer's loads, copies and stores |
| `Pipeline.QueueSafety` | src/server.cpp:71-97 | popped packets are a prefix of pushed ones, at most 4095 are held, and no slot is written while it may be copied |
| `Pipeline.ChecksExact` | src/server.cpp:77-93 | push reports full exactly when 4095 packets are held, pop reports empty exactly when none is |
| `Pipeline.SharedSafety` | src/server.cpp:106-122 | with two producers, in every interleaving in which no push starts inside another, popped packets are a prefix of pushed ones and at most 4095 are held |
| `Pipeline.OverlapLosesPacket` | src/server.cpp:106-122 | counterexample family: two producers load the same head, both pushes succeed, and the consumer gets only the second packet |
| `WorkerBarrier.SlicesPartition` | src/server.cpp:336-340 | ceiling-division slices: every index is in exactly one worker's slice |
| `WorkerBarrier.EveryRun` | src/server.cpp:323-385 | the barrier's invariant holds under every interleaving |
| `WorkerBarrier.RoundComplete` | src/server.cpp:1003-1014 | when the main thread leaves its wait loop every index was handled once, by one worker, and nothing else was |
| `PacketTracking.PacketTracker.SendPacket` | src/reliability/packet_tracker.h:40-48 | numbers and records a packet |
| `PacketTracking.PacketTracker.OnPacketReceived` | src/reliability/packet_tracker.h:62-88 | updates ack and bits as the specification says |
| `PacketTracking.PacketTracker.ProcessAckFields` | src/reliability/packet_tracker.h:110-139 | marks, counts and advances as the specification says |
| `PacketTracking.PacketTracker.MarkAcked` | src/reliability/packet_tracker.h:167-174 | marks a matching unacked record and says whether it did |
| `PacketTracking.PacketTracker.AdvanceOldest` | src/reliability/packet_tracker.h:129-136 | moves over acked records and terminates |
| `PacketTracking.ReceiveKeepsField` | src/reliability/packet_tracker.h:62-88 | an arrival within 2^15 keeps the bits exact |
| `PacketTracking.FieldExact` | src/reliability/packet_tracker.h:62-88 | for every run of such arrivals bit n (0..30) is set if and only if packet ack-n-1 arrived |
| `PacketTracking.SlotUsedRecently` | src/reliability/packet_tracker.h:43 | every one of the 33 records is reused within 66 packets, also at the wrap |
| `PacketTracking.MarkHitsItself` | src/reliability/packet_tracker.h:167-174 | an ack for one of the last 2^16 packets can only touch that packet's own record |
| `PacketTracking.MarkFieldsSound` | src/reliability/packet_tracker.h:110-127 | truthful recent fields mark only packets that arrived and count each once |
| `PacketTracking.MarksExact` | src/reliability/packet_tracker.h:110-127 | a record is acked afterwards if and only if it was, or it is in its place and the ack or a set bit names its number |
| `PacketTracking.CountExact` | src/reliability/packet_tracker.h:110-139 | the count returned is the number of records newly acked |
| `PacketTracking.ArrivalIsAcked` | src/reliability/packet_tracker.h:62-139 | an arrival among the newest and the 31 before it is acknowledged: its packet, if its record is live, is acked |
| `PacketTracking.AdvanceExact` | src/reliability/packet_tracker.h:129-136 | the oldest unacked number moves over acked packets only, and as far as they reach |
| `PacketTracking.AckSoundness` | src/reliability/packet_tracker.h:40-139 | in every run of sends, arrivals reported under the packet's own number and exchanged fields: acked packets arrived, and the count is their number |
| `PacketTracking.WiredEveryRun` | src/client.cpp:557-570 | with every arrival reported as 0, in every run: the fields say nothing but ack 0, and no record of another number is ever acked |
| `PacketTracking.WiredFalseMarkIff` | src/server.cpp:1895-1909 | with every arrival reported as 0: a packet that did not arrive is marked if and only if the record of number 0 is there and not acked and the last packet of that number did not arrive |
| `PacketTracking.WiredMarksLostPacket` | src/server.cpp:1895-1909 | counterexample: packets 0 and 1 are sent, only packet 1 arrives, and packet 0 is marked |
| `PacketTracking.SilentReceiverAcksZero` | src/reliability/packet_tracker.h:91-105 | a receiver that has heard nothing acks packet 0: exactly one false mark if its record is there and unacked, else none |
| `Replay.ReplayProtection.Check` | src/crypto/replay.h:33-43 | rejects exactly duplicates in the window and nonces that are too old |
| `Replay.ReplayProtection.AdvanceTo` | src/crypto/replay.h:49-55 | records the nonce and the most recent one |
| `Replay.ReplayProtection.Reset` | src/crypto/replay.h:58-61 | an empty window |
| `Replay.AcceptedIsRejected` | src/crypto/replay.h:33-43 | an accepted nonce is rejected from then on |
| `Replay.RejectedIff` | src/crypto/replay.h:33-43 | a nonce never accepted is rejected if and only if it is too old; not when it is within 256 of the most recent |
| `Replay.NoReplay` | src/crypto/replay.h:33-55 | over every history of 64-bit nonces none is accepted twice, and the window speaks for the whole accepted set |
| `PacketCrypto.KeyEpoch.PrepareRekey` | src/crypto/packet_crypto.cpp:72-80 | saves the receive key and leaves the keys |
| `PacketCrypto.KeyEpoch.ActivateRekey` | src/crypto/packet_crypto.cpp:82-111 | derives both keys, resets counters and window, opens the grace window |
| `PacketCrypto.KeyEpoch.ReceiveRekey` | src/crypto/packet_crypto.cpp:113-120 | the receiver's side of a rekey |
| `PacketCrypto.KeyEpoch.PacketEncrypt` | src/crypto/packet_crypto.cpp:156-178 | seals with the current key and nonce and counts packet and bytes |
| `PacketCrypto.KeyEpoch.PacketDecrypt` | src/crypto/packet_crypto.cpp:180-208 | checks the window first, opens with the receive key, and records the nonce only if that succeeded; else nothing changes |
| `PacketCrypto.KeyEpoch.PacketDecryptGrace` | src/crypto/packet_crypto.cpp:123-154 | opens with the old key while the grace window lasts, spends a grace packet per success and wipes the old key with the last one |
| `PacketCrypto.KeyEpoch.Open` | src/server.cpp:1847-1876 | the server's decryption: the expected nonce under the current key, and else under the old one |
| `PacketCrypto.StepOk` | src/crypto/packet_crypto.cpp:72-154 | every step keeps the peers' keys in agreement |
| `PacketCrypto.KeysAgreeInEveryRun` | src/crypto/packet_crypto.cpp:72-154 | through any number of rekeys by either peer, each started when a threshold is passed and processed before the next: keys and epochs agree, the old key is the previous receive key, at most 256 grace successes per epoch |
| `PacketCrypto.RekeyDueIff` | src/crypto/packet_crypto.cpp:41-60 | in every run a rekey starts if and only if none is under way and since the keys last changed 2^30 packets or 2^30 bytes were encrypted or, except in the first epoch, an hour has passed |
| `PacketCrypto.RekeyedPacketOpens` | src/crypto/packet_crypto.cpp:82-120 | after every processed rekey the initiator's next packet opens at a server |
| `PacketCrypto.NextPacketOpensIff` | src/server.cpp:1847-1861 | in every run with no rekey under way, the next packet opens to its plaintext if and only if the nonce the receiver expects is the sender's and not within 257 of the end of the range; else nothing changes |
| `PacketCrypto.AcceptedConsecutive` | src/server.cpp:1847-1876 | for every sequence of arrivals within an epoch, the plaintexts the receiver gets are the sender's first packets, in order, without a gap |
| `PacketCrypto.LostPacketStops` | src/server.cpp:1847-1876 | of a sender's packets in an epoch, none from a lost one on is accepted |
| `PacketCrypto.InOrderAllAccepted` | src/server.cpp:1847-1876 | without loss or reordering the receiver gets every packet's plaintext |
| `PacketCrypto.GraceAcceptsIff` | src/server.cpp:1863-1876 | in every run a packet sealed under the previous receive key is accepted if and only if grace packets remain and its nonce is the one the receiver expects; the window is not asked and not changed |
| `PacketCrypto.GraceRepeats` | src/crypto/packet_crypto.cpp:123-154 | a packet that opens only under the old key is accepted each time it arrives until no grace packet is left, and then the old key is wiped |
| `PacketCrypto.RekeyReopensFirst` | src/server.cpp:1847-1882 | after every run and every processed rekey the first packet of the epoch that ended is accepted as often as it arrives, up to 256 times |
| `PacketCrypto.PacketAcceptedTwice` | src/server.cpp:1863-1876 | counterexample: after 2^30 packets exchanged in order and a rekey, the first packet is accepted again |
| `PacketCrypto.NoncesIncreaseIff` | src/crypto/packet_crypto.cpp:82-178 | throughout a run the (epoch, nonce) pairs used by both peers strictly increase and the next pair is above them all, if and only if no step wraps the epoch counter or the 64-bit nonce |
| `FragmentSpec.CountExact` | src/fragment/fragment.h:58-67 | the count is between 1 and 255, and the last fragment starts inside the message and ends it |
| `FragmentSpec.CountIff` | src/fragment/fragment.h:58-67 | a message can be cut if and only if it is not empty and 255 fragments are enough |
| `FragmentSpec.CompleteIff` | src/fragment/fragment.h:84-98 | received equals total if and only if every fragment's bit is set |
| `FragmentSpec.OnFragmentOk` | src/fragment/fragment.h:167-225 | after every call, in every slot, the received count is the number of bits set, and no id has two slots |
| `FragmentSpec.RefusedExact` | src/fragment/fragment.h:167-206 | a fragment changes nothing for a bad index or count, when no slot is left, and in its message's slot exactly for another count, a repeat or an overflow |
| `FragmentSpec.StoredHolds` | src/fragment/fragment.h:199-209 | storing a fragment puts it in its place and disturbs no other |
| `FragmentSpec.Restored` | src/fragment/fragment.h:109-116 | a complete slot holds the message byte for byte, and the sizes add up to its length |
| `FragmentSpec.OwnCall` | src/fragment/fragment.h:167-225 | a fragment of the message completes it or is added to those that arrived |
| `FragmentSpec.OtherCall` | src/fragment/fragment.h:177-186 | a fragment of another message leaves this one's slot alone |
| `FragmentSpec.SlotAvailable` | src/fragment/fragment.h:255-268 | with at most 15 other messages there is a slot |
| `FragmentSpec.SweepKeeps` | src/fragment/fragment.h:228-242 | a sweep within the timeout keeps the message's slot |
| `FragmentSpec.SweepExact` | src/fragment/fragment.h:228-242 | a sweep frees exactly the slots whose message began more than five seconds ago |
| `FragmentSpec.BeforeLast` | src/fragment/fragment.h:167-268 | before the last missing fragment nothing is returned for the message and none of its fragments is lost |
| `FragmentSpec.Reassembly` | src/fragment/fragment.h:167-268 | the event that brings the last missing fragment returns the message byte for byte |
| `Fragment.SetBit` | src/fragment/fragment.h:88-98 | setting a bit of a mask byte sets that bit and no other |
| `Fragment.FragmentTracker.HasFragment` | src/fragment/fragment.h:88-90 | the byte and bit arithmetic reads the fragment's flag |
| `Fragment.FragmentTracker.MarkFragment` | src/fragment/fragment.h:92-98 | sets the flag and counts it once |
| `Fragment.FragmentTracker.NextMissing` | src/fragment/fragment.h:100-107 | the least fragment not received, or -1 when all are |
| `Fragment.FragmentTracker.TotalMessageSize` | src/fragment/fragment.h:110-116 | the sum of the fragment sizes |
| `Fragment.FragmentTracker.Clear` | src/fragment/fragment.h:118-130 | everything back to zero |
| `Fragment.FragmentTracker.Accept` | src/fragment/fragment.h:188-222 | one slot in place: mismatch, duplicate and overflow change nothing; else store, mark and complete |
| `Fragment.FragmentReassembler.FindSlot` | src/fragment/fragment.h:245-253 | the slot of an id, or -1 |
| `Fragment.FragmentReassembler.AllocateTracker` | src/fragment/fragment.h:255-268 | opens the first free slot, or -1 |
| `Fragment.FragmentReassembler.OnFragmentReceived` | src/fragment/fragment.h:167-225 | in place: acts on all 16 slots as the specification says and returns the buffer and size |
| `Fragment.FragmentReassembler.CleanupTimeout` | src/fragment/fragment.h:228-242 | resets exactly the expired slots and returns their number |
| `Varint.RoundTrip` | src/replication/replicate.cpp:15-41 | every 64-bit value is decoded from its encoding, consuming exactly its bytes, whatever follows |
| `Varint.PrefixTruncated` | src/replication/replicate.cpp:26-41 | no strict prefix of an encoding decodes |
| `Varint.AtMostTen` | src/replication/replicate.cpp:15-24 | a 64-bit value takes at most ten bytes |
| `Varint.EncodedExamples` | src/replication/replicate.cpp:15-24 | seven bits a byte, low bits first, on examples |
| `Varint.OverlongRefused` | src/replication/replicate.cpp:26-41 | ten bytes that all announce another are refused |
| `Varint.VarintEncode` | src/replication/replicate.cpp:15-24 | writes the encoding and no other byte |
| `Varint.VarintDecode` | src/replication/replicate.cpp:26-41 | the value and length, or -1 for truncated or overlong input, with 64-bit truncation |
| `ReplicationSpec.AddKeepsLayout` | src/replication/schema.h:67-83 | a new property starts where the last one ends and moves none |
| `ReplicationSpec.PropsApart` | src/replication/schema.h:67-83 | the bytes of different properties do not meet and lie in the value buffer |
| `ReplicationSpec.AssignMarks` | src/replication/entity.h:48-114 | a property whose bytes changed is marked dirty; all others keep bytes and marks |
| `ReplicationSpec.AssignExact` | src/replication/entity.h:48-114 | a setter changes the property if and only if index, type and size are right and the value differs; then the new bytes are there, the rest of the property stays and it is marked |
| `ReplicationSpec.FilteredExact` | src/replication/replicate.cpp:227-250 | the filter loop drops exactly the properties that its three tests hide; `UpdateShows` says which those are |
| `ReplicationSpec.MaskExact` | src/replication/replicate.cpp:223-250 | an update names a property if and only if it is due and the filter lets it through |
| `ReplicationSpec.BodyRoundTrip` | src/replication/replicate.cpp:259-265 | reading the values back fills exactly the named properties |
| `ReplicationSpec.UpdateRoundTrip` | src/replication/replicate.cpp:211-268 | reading an update restores id and filtered mask, consumes the whole wire, sets the named properties (byte for byte unless quantised) and leaves all other bytes |
| `ReplicationSpec.UpdateShows` | src/replication/replicate.cpp:211-268 | reading an update gives the target the value of every due property that its owner-only, skip-owner and initial-only bits let it see, and no byte of any other |
| `ReplicationSpec.WireBegins` | src/replication/replicate.cpp:211-257 | an update begins with the id in two bytes, low byte first, and the encoded mask |
| `ReplicationSpec.WrittenExact` | src/replication/replicate.cpp:172-205 | the bytes a property takes on the wire: two for a quantised float, four for a quantised vector or quaternion, else its own size |
| `ReplicationSpec.WireSizeBound` | src/replication/replicate.cpp:211-268 | an update is at most 12 bytes longer than the values, so with values that fit their 2048 bytes it fits the server's buffer |
| `ReplicationSpec.ReplicateAgreesIff` | src/server.cpp:1583-1661 | after a pass nothing is dirty, and a given replica is in step if and only if there was nothing to send, the update reached it, or it had all of it already |
| `ReplicationSpec.PassKeepsAllIff` | src/server.cpp:1583-1661 | a pass keeps every replica in step that was in step, if and only if there is nothing to send, the update reaches the target, or no property with bytes is due |
| `ReplicationSpec.MissLoses` | src/server.cpp:1611-1658 | whenever a pass misses the target, each due property with bytes is lost to some replica that was in step |
| `ReplicationSpec.MissedPassLoses` | src/server.cpp:1611-1658 | counterexample: a byte is set, the pass finds the queue full, and no later pass sends it |
| `ReplicationSpec.ReplicaAgrees` | src/server.cpp:1583-1661 | for every run of setters, owner changes and passes whose updates are delivered (neither refused, replaced in the queue nor lost), the replica is behind only on dirty properties, and right after a pass equals the entity on all unquantised unconditional ones |
| `ReplicationSpec.ConcealedThroughout` | src/server.cpp:1583-1661 | over every run the replica of a client that never was the owner keeps its bytes of an owner-only property, and that of one that always was keeps those of a skip-owner property |
| `Replication.Schema.AddProp` | src/replication/schema.h:67-83 | appends at the end of the buffer, or -1 at 64 properties |
| `Replication.Entity.SetProp` | src/replication/entity.h:48-114 | the typed setters in place: index, type and size checks, compare, copy, mark |
| `Replication.Entity.FilterMask` | src/replication/replicate.cpp:223-250 | the filter loop computes the specified mask, whose meaning on the wire is `UpdateShows` |
| `Replication.Entity.Serialize` | src/replication/replicate.cpp:211-268 | writes exactly the specified wire; 0 when nothing is due; -1 exactly when the buffer is too small |
| `Replication.Entity.WriteValues` | src/replication/replicate.cpp:258-265 | writes the named values one behind the other, or -1 |
| `Replication.Deserialize` | src/replication/replicate.cpp:315-343 | reads in place exactly as specified, also for truncated wires |
| `Replication.ReadValues` | src/replication/replicate.cpp:333-340 | the reading loop |
| `ConnectToken.AddressesRoundTrip` | src/connection/connect_token.cpp:15-56 | the address list comes back if and only if every address is IPv4 or IPv6 |
| `ConnectToken.TokenRoundTrip` | src/connection/connect_token.cpp:60-143 | the token comes back if and only if it names a server and every address is IPv4 or IPv6; otherwise reading fails |
| `ConnectToken.TokenBytes` | src/connection/connect_token.cpp:60-103 | where each field of a token is and in which byte order |
| `ConnectToken.AddressWire` | src/connection/connect_token.cpp:15-34 | an address is written as type, bytes and little-endian port |
| `ConnectToken.ParseRefuses` | src/connection/connect_token.cpp:105-125 | reading refuses a short buffer and a server count of 0 or above 32 |
| `ConnectToken.Serialize` | src/connection/connect_token.cpp:60-103 | fills the buffer with the content and zeros; -1 exactly when the buffer is smaller than 1008 bytes; never overflows |
| `ConnectToken.Deserialize` | src/connection/connect_token.cpp:105-143 | parses with the source's size, count and address checks and stays in the buffer |

## Left out

- Sockets, RIO, io_uring, CPU affinity, platform set-up, the network simulator: input and output.
- The ciphers, key derivation, hashing and random numbers: parameters of the model.
- The decryption and expiry checks of connect tokens, and how a fingerprint is computed: a request arrives decrypted, in date and with its fingerprint.
- SIMD variants: the intrinsics are not visible.
- Quantising floats, vectors and quaternions: parameters with a fixed packed size.
- RTT, throughput and congestion averages, heartbeat and integrity fields, statistics, callbacks, logging.
- The compressor: a wrapper over another library.
- Text parsing and formatting of addresses.
- Liveness of the worker barrier.
- Retransmission of reliable messages: what `record_send` stores is never resent, since neither end calls `find_retransmits`.
- The application's receive queue after the ordered callback, and reliable unordered channels.
- Pacing slices and keepalives: they only choose when a connection is served.
- Rate limits and channel choice of replication: a pass of the model is one that is not rate limited.
- Late duplicates after completion: they open a new slot that ends with the timeout.
- `last_recv_time` of a reassembly slot, which nothing reads.
- The order of the connection's own subsystems inside the send loop: rekeying and packet numbering are modelled in their own modules, and every packet of one call carries the same ack fields.
- The client's side of rekeying: `KeysAgreeInEveryRun` is about two peers that both call the functions of packet_crypto.cpp, as the server does; src/client.cpp calls neither `prepare_rekey`, `on_receive_rekey` nor `packet_decrypt_grace`.
- The size of a schema: src/replication/schema.h does not compare it with the 2048-byte value buffer, which the constructor of `Replication.Entity` asks for.
- Scheduling.Connection.NextChannelFast: the client's loop uses the full scan instead; both make the same choice under `FastEqualsFull`.
- Replication.Entity.SetProp: one method stands for the seven typed setters, with the type and the bytes as arguments.
- Replication.Entity.Serialize: requires room for the encoded mask, which the source writes without a check behind the two bytes of the id.
- Groups.GroupTable.Remove: requires an index whose entry lies in the pool; beyond it the source reads memory that is not the table's.
- Server.Server.GroupRemove: requires the same.
- ServerSpec.Run: requires leave calls to name client slots. What the source does with an index beyond them depends on the memory behind the group's map; `Server.Server.GroupRemove` says when the server survives it.
- ServerSpec.StepOk: requires the same of a leave call.
- ServerSpec.LeaveGroupOk: requires the same.
- PacketTracking.AckSoundness: is about packet_tracker.h under a caller that reports each arrival under its own number. Both callers report 0 (src/server.cpp:1907-1909, src/client.cpp:570); the `Wired` lemmas are about those. It says nothing about how long a record is kept, because 33 does not divide 65536 and records are overwritten early at the wrap.
- ReplicationSpec.ReplicaAgrees: is about passes that do not miss the target. A pass misses a client that is not yet in the group, whose queue has no room, whose update is over 1200 bytes, is replaced in the latest-wins queue before it is sent, or is lost on the way; `PassKeepsAllIff` says when that does no harm. Which of these happens is part of an event, not derived from the queue.
- Pipeline.QueueSafety: is about one producer. With `num_io_threads` of 3 or more every worker pushes to the send queue (src/server.cpp:396, 601-614); `SharedSafety` and `OverlapLosesPacket` are about two.
