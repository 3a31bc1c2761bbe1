# Cowboy Poker server: verified model

This project models the asynchronous core of the Cowboy Poker game server in Dafny and proves what it
promises: the TCP send pipeline and packet framing of `ServerCore`, the UDP registry, receive loop and
sequence filter, the weapon and ammunition economy in Redis, the binary packets, and the smaller pieces
they stand on (session lifecycle, reference counting, the guard-page allocator).

Concurrent code is modelled as a state machine whose steps are the atomic actions of the original: every
load, store, exchange and locked section is a step of its own, any number of threads take steps in any
order, and what the kernel or Redis answers is part of the schedule. Results about such a machine hold in
every reachable state or along every run. Code that updates fields in place is also a class whose methods
are proved against a function on values, and for the send pipeline and the UDP receive an uninterrupted
call is proved to be a run of the machine.

| module | models |
|---|---|
| SendPipeline, SendLedger, SendTheorems | `Session::Send`, `RegisterSend`, `ProcessSend` under concurrency: steps, invariant, theorems |
| SessionSend, SendStranding | the same operations as methods; the runs behind the exclusions |
| GameSessionManager | the game's set of live sessions, its broadcast, and a session's way in and out as methods |
| Framing, PacketSession | `PacketSession::OnRecv` on values; the receive buffer and `ProcessRecv` as objects |
| Registry, UdpService | the two client maps on values; the service, its contexts and `OnRecvPacket` as objects |
| TimeoutMachine | registration against the two phases of `Tick` and the announcements of the main loop |
| SequenceFilter | the sequence filter over whole traces of all clients |
| RecvLoop | the single re-armed UDP receive shared by all workers |
| Economy, RedisClient | purchases and shots when Redis commands may be lost; the client and handlers as methods |
| Bytes, Codec, Buffers, Packets | little-endian fields, reader and writer, the packets of the lobby |
| LobbyHandlers | what a HELLO stores and answers, where a movement and a departure go |
| Lifecycle | connect, concurrent disconnect, release, with the service's and the game's session sets |
| RefCounting, StompAllocator | intrusive pointers, guard-page allocation |
| Options, KernelAnswer, UdpPacket | an optional value; an immediate answer of the kernel; the constants of the UDP protocol |

`dafny verify dfyconfig.toml` checks everything.

## What the proofs found

Some promises do not hold without a condition. The code is modelled as it is; each such promise is proved
under a condition that names the failing branch, with a run or an input that shows the exception.

- A send can be left in the queue of a connected session. A refused `WSASend` clears the flag without
  looking at the queue (ServerCore/Session.cpp:204): a buffer is then stranded exactly when the queue was
  not empty and no `Send` has claimed the flag since. A completion of zero bytes returns with the flag
  set (ServerCore/Session.cpp:272-275), and so does `RegisterSend` on a closed session: after that nothing
  is ever sent on that session object, and everything accepted stays in the queue.
- An immediate error of `WSARecv` other than a reset leaves a session connected that never receives again
  (ServerCore/Session.cpp:141-147, 296-299).
- A TCP header whose size is zero keeps `OnRecv` in its loop forever (ServerCore/Session.cpp:327).
- The packet builders do not test for space, and a HELLO sets user ids of up to 1198 bytes: from 1174 bytes
  on the move packet is written past the end of its 1214-byte buffer
  (GameServer/UdpServerPacketHandler.cpp:164-182).
- A client heard from after the scan of `Tick` but before its removal is removed all the same
  (ServerCore/UdpService.cpp:131-142).
- A HELLO from an address whose key equals that of another client is given that client's context
  (ServerCore/UdpService.cpp:48-52), and the sender stays unknown.
- `PurchaseWeapon` treats an error reply as success (GameServer/RedisClient.cpp:107-131),
  so goods can be granted without a charge; and a purchase can be reported as failed although the money
  is gone.
- A disconnect before `AddSession` makes the assertion of `ReleaseSession` fail, and one before
  `OnConnected` leaves a released session in the game's set. Nothing in the repository disconnects that
  early, because a session is not known to anybody before.

Where code and comments disagree, the code is followed:

- `C_PURCHASE_WEAPON` is commented as needing a user id of at least one byte, yet the test asks for 6 bytes
  and accepts an empty one (GameServer/UdpServerPacketHandler.cpp:225).
- The comment gives the move packet a payload of 25 bytes; the code appends the user id with its length
  (GameServer/UdpServerPacketHandler.cpp:161-174).

## Model

| member | source | states |
|---|---|---|
| SendPipeline.StepKeepsCore | ServerCore/Session.cpp:20-37 | Every atomic action of any thread keeps the core invariant: lock ownership matches program counters, the flag is set exactly while somebody may send (or the right is lost), and a step of one thread takes neither lock nor token from another |
| SendPipeline.OthersKeep | ServerCore/Session.cpp:151-174 | What one thread may do (append to the queue under the lock, hand its own token on) never disturbs the view of a thread elsewhere in the code, in particular the batch of the thread that is draining |
| SendLedger.StepKeepsLedger | ServerCore/Session.cpp:159-174 | Every action keeps the ledger: accepted buffers are the retired batches, then the batch in the send event, then the queue, in lock order; and the `WSASend` calls are the retired batches plus the outstanding one |
| SendLedger.StepKeepsOutcome | ServerCore/Session.cpp:266-275 | Every action keeps the record of outcomes: no retired batch is empty, and a completion of zero bytes is on record only once the right to send is lost or about to be |
| SendLedger.StepKeepsUnserved | ServerCore/Session.cpp:280-287 | Every action keeps: a non-empty queue whose flag is clear is about to be claimed by the thread that holds the lock, unless the failure branch of `RegisterSend` left it behind |
| SendLedger.RunKeepsInv | ServerCore/Session.cpp:20-37 | The whole invariant holds along every schedule of every set of threads |
| SendTheorems.OneSender | ServerCore/Session.cpp:151-207 | In every reachable state at most one thread is inside `RegisterSend`/`ProcessSend` with the right to send, then nothing is in flight; in-flight implies flag and event owner set; and the flag is set with no such party exactly when the token is lost |
| SendTheorems.SendIssuedAlone | ServerCore/Session.cpp:191-196 | `WSASend` is never issued while another is outstanding, never with an empty batch, always with the owner set, and everything accepted earlier has been issued before it |
| SendTheorems.EventUntouchedWhilePending | ServerCore/Session.cpp:176-196 | While a `WSASend` is pending no step of any thread changes the send event, and the batch in it is the one last issued |
| SendTheorems.OwnerSetWhen | ServerCore/Session.cpp:155-156 | In every reachable state the event keeps the session alive exactly while a completion is due or a thread stands between setting and clearing the owner; so at rest it does not |
| SendTheorems.DisconnectsWhere | ServerCore/Session.cpp:43-52 | A step closes the session exactly if it is a call of `Disconnect`, a zero-byte completion or a refusal with a reset; only a connect opens it |
| SendTheorems.ZeroBytesDisconnect | ServerCore/Session.cpp:272-275 | A completion of zero bytes leaves the session closed, ends the call and leaves the queue as it was |
| SendTheorems.FirstInFirstOut | ServerCore/Session.cpp:27-34 | What was given to the kernel, call after call, followed by what is still held, is exactly what `Send` accepted, in order |
| SendTheorems.OutcomesInOrder | ServerCore/Session.cpp:266-270 | Each `WSASend` carries at least one buffer, and its outcome is recorded once, in call order |
| SendTheorems.NothingStranded | ServerCore/Session.cpp:280-287 | With all threads idle and nothing pending: the flag is set exactly when the token was lost; where it is clear, a buffer is stranded exactly when the flag was last cleared by the failure branch over a non-empty queue and not claimed since, and all else that was accepted has left in order, in batches refused or moved |
| SendTheorems.UndisturbedRunsDeliver | ServerCore/Session.cpp:20-37 | Along any schedule with no disconnect, no refusal and no zero-byte completion, coming to rest means queue and event empty, flag clear, everything accepted delivered in order |
| SendTheorems.UndisturbedQueueIsServed | ServerCore/Session.cpp:280-287 | At every moment of such a schedule a non-empty queue has somebody who will send it |
| SendTheorems.TokenLostWhere | ServerCore/Session.cpp:151-153 | A step leaves the flag set with no completion due and nobody with the right to send exactly if it was so before, or the step is the test of `RegisterSend` on a closed session, or a zero-byte completion |
| SendTheorems.LostForever | ServerCore/Session.cpp:272-275 | Once lost, whatever is scheduled next, reconnecting included, no `WSASend` is ever issued again, and the queue holds what it held and, in order, every buffer accepted since |
| SendTheorems.HolderAdvances | ServerCore/Session.cpp:165-173 | Every step of the token holder gives the token away or descends a well-founded order, also inside the drain loop |
| SendTheorems.HolderStepsBounded | ServerCore/Session.cpp:151-207 | Along any run in which a thread keeps the token, its own steps number at most 16, plus one for each buffer in the queue and each buffer others push meanwhile |
| SendTheorems.OthersDoNotDelay | ServerCore/Session.cpp:160-165 | No step of another thread moves the holder back, nor lengthens the queue it is draining |
| SendTheorems.HolderWaitsBriefly | ServerCore/Session.cpp:160-163 | The holder waits only for the lock, whose owner can then move and unlocks within three steps of its own: no deadlock, also when `ProcessSend` calls `RegisterSend` under the lock |
| SessionSend.Session.Send | ServerCore/Session.cpp:20-37 | Each field after an uninterrupted `Send`: a closed session is left alone; with the flag set the buffer is only queued; otherwise the whole queue goes to the kernel with owner and flag set, or is dropped with both cleared |
| SessionSend.Session.RegisterSend | ServerCore/Session.cpp:151-207 | Each field: the queue moves into the event in order, with owner set and completion due; or, refused, event, owner and flag are cleared, and a reset disconnects |
| SessionSend.Session.ProcessSend | ServerCore/Session.cpp:266-288 | Each field after a completion: the owner is set only if a new send is in flight; zero bytes disconnect and keep flag and queue; an empty queue clears the flag; otherwise the whole queue is the next batch |
| SessionSend.SendIsARun | ServerCore/Session.cpp:20-37 | A `Send` nobody interrupts is a run of the pipeline ending with the fields of the method |
| SessionSend.ProcessSendIsARun | ServerCore/Session.cpp:266-288 | The same for `ProcessSend`, including the recursive lock of the nested `RegisterSend` |
| SendStranding.ZeroByteCompletionStrands | ServerCore/Session.cpp:272-275 | A reachable state behind the exclusion of zero-byte completions: a reconnected session whose next `Send` only queues, with nobody to send |
| SendStranding.RefusedSendStrands | ServerCore/Session.cpp:200-205 | A reachable state behind the exclusion of refusals: the flag is cleared although another thread queued a buffer meanwhile |
| GameSessionManager.GameSessionManager.Broadcast | GameServer/GameSessionManager.cpp:17-23 | Every live session gets the buffer exactly once, whatever the order of the set; no other session is touched |
| Framing.ParseCovers | ServerCore/Session.cpp:311-330 | Delivered packets and residue concatenated are the stream, and the residue could not have been a packet |
| Framing.DeliveredSizes | ServerCore/Session.cpp:319-325 | Every delivered packet is as long as its own header says |
| Framing.ParseConcat | ServerCore/Session.cpp:311-330 | Packets whose headers tell their length come back exactly as they were concatenated |
| Framing.ParseAppend | ServerCore/Session.cpp:311-330 | Parsing a prefix first and the residue with the rest later makes no difference, also where the loop would spin |
| Framing.ChunkIndependence | ServerCore/Session.cpp:235-264 | However the stream is cut into receives, packets and residue are those of one pass over all of it |
| Framing.ResidueIsShort | ServerCore/Session.cpp:249-263 | After any receives the residue is incomplete and at most 65534 bytes |
| Framing.EncodeDecode | ServerCore/Session.h:104-111 | A packet survives its 4-byte header: two low-byte-first numbers, the length with the header and the id, then the payload |
| Framing.PacketsArrive | ServerCore/Session.cpp:311-330 | A list of packets sent over TCP arrives as that list with nothing left over, in any chunks |
| Framing.NeverReturnsIff | ServerCore/Session.cpp:313-328 | `OnRecv` fails to return exactly on the streams whose parse meets a header of size zero |
| Framing.SpinsCovers | ServerCore/Session.cpp:319-327 | What spinning means on bytes: after exactly the packets delivered the stream holds a header whose size is zero |
| Framing.ZeroHeaderAfter | ServerCore/Session.cpp:319-327 | Conversely, after any well-formed packets such a header makes the parse spin, with these packets delivered |
| Framing.ZeroHeaderSpins | ServerCore/Session.cpp:327-327 | Four zero bytes are such a stream |
| PacketSession.RecvBuffer.Clean | ServerCore/Session.cpp:260-260 | Contents unchanged; afterwards one buffer size is free, or more than nine are unread |
| PacketSession.RecvBuffer.OnRead | ServerCore/Session.cpp:252-253 | Succeeds exactly when that much is unread, and then drops it from the front |
| PacketSession.RecvBuffer.OnWrite | ServerCore/Session.cpp:243-244 | Succeeds exactly when that much is free, and then advances the write cursor |
| PacketSession.PacketSession.OnRecv | ServerCore/Session.cpp:311-330 | The loop delivers exactly the packets of the parse and returns where its residue starts, or gets stuck exactly when the parse does |
| PacketSession.PacketSession.HandleData | ServerCore/Session.cpp:249-263 | From buffered bytes to delivered packets: the buffer keeps the residue, has 65536 bytes free again, the receive is re-armed when the kernel takes it, and the overflow branch cannot be reached |
| PacketSession.PacketSession.ProcessRecv | ServerCore/Session.cpp:235-264 | One receive refines one step of the stream on values; zero bytes disconnect; neither overflow branch can be reached |
| PacketSession.PacketSession.RegisterRecv | ServerCore/Session.cpp:127-149 | A receive is posted exactly on a connected session whose `WSARecv` is accepted; a reset error disconnects, another immediate error leaves it connected without a receive |
| Registry.RegisterKeeps | ServerCore/UdpService.cpp:42-63 | Registration keeps the two maps in agreement: same contexts, each under its own id and its own key, ids below the counter |
| Registry.RegisterAgreesIff | ServerCore/UdpService.cpp:42-63 | Whatever the counter, after a wrap too: the two maps still agree after registration exactly when the address was known or the id handed out was free |
| Registry.RegisterStores | ServerCore/UdpService.cpp:42-63 | A known address has its time refreshed and nothing else of any context changed; an unknown one gets a context with its address, the next id, no sequence number and no user |
| Registry.TouchStores | GameServer/UdpGameSession.cpp:43-44 | An accepted datagram stores its sequence number and its time in its context, and nothing else anywhere |
| Registry.SetUserStores | GameServer/UdpServerPacketHandler.cpp:66-66 | A HELLO stores its user id in its context, and nothing else anywhere |
| Registry.RemoveKeeps | ServerCore/UdpService.cpp:65-75 | Removal keeps the agreement and removes exactly this id |
| Registry.RemoveStores | ServerCore/UdpService.cpp:65-75 | Exactly the two entries of this client go; every other entry and every context stays |
| Registry.RemoveAllKeeps | ServerCore/UdpService.cpp:139-142 | Removing a list of ids leaves exactly the others registered |
| Registry.Bijection | ServerCore/UdpService.h:71-72 | The two maps have the same values and size; different ids have different contexts and different keys |
| Registry.FindByAddrIsScan | ServerCore/UdpService.cpp:81-92 | The hashed lookup finds a context exactly when a scan of all clients for this ip and port finds it |
| Registry.RegisterFindsIff | ServerCore/UdpService.cpp:42-63 | After registering an address it can be found unless, and only unless, a client with another address has its key; then that client's context is returned and the newcomer stays unknown |
| Registry.KeysCollideIff | ServerCore/UdpService.h:77-79 | Two addresses share a key exactly when the difference of their ports makes up for that of their ips |
| Registry.KeyCollision | ServerCore/UdpService.h:77-79 | Two distinct addresses share a key only if both ip and port differ and the ips differ only within the low 16 bits of the field |
| Registry.CollisionExists | ServerCore/UdpService.cpp:47-52 | Two clients with one key, 10.0.0.1:50000 and 11.0.0.1:49744: registered one after the other, the second is given the context of the first and is then not found |
| UdpService.UdpService.GenerateSessionId | ServerCore/UdpService.cpp:151-155 | Until the counter wraps, the new id belongs to no client and exceeds that of every client |
| UdpService.UdpService.RegisterClient | ServerCore/UdpService.cpp:42-63 | The context returned is heard from now; a known one keeps sequence number and user, a new one has the address, sequence number zero and no user; maps and contexts are those of the registry on values, whatever the counter, and stay consistent until it wraps |
| UdpService.UdpService.RemoveClient | ServerCore/UdpService.cpp:65-75 | The maps after removal are those of the registry on values |
| UdpService.UdpService.FindByAddr | ServerCore/UdpService.cpp:81-92 | The lookup is that of the registry on values |
| UdpService.UdpService.FindById | ServerCore/UdpService.cpp:94-98 | The context found carries this id and is the one found by its address; nothing is found exactly when no client carries the id |
| UdpService.UdpService.BroadcastExcept | ServerCore/UdpService.cpp:111-122 | Everybody but the excluded id is sent to, once, at the address of its context; nobody else |
| UdpService.UdpService.CollectExpired | ServerCore/UdpService.cpp:131-137 | Collects exactly the ids silent for more than 10 seconds, each once |
| UdpService.UdpService.Tick | ServerCore/UdpService.cpp:128-145 | Returns exactly the ids silent too long, each once, and removes exactly those |
| UdpService.UdpGameSession.OnRecvPacket | GameServer/UdpGameSession.cpp:5-48 | A datagram is handed on exactly if the service lives, it holds a header, and it is a HELLO or its sender is registered by this very address with a sequence number of zero or above the last; then the context is heard from now and, under a session, has this sequence number; otherwise nothing changes |
| TimeoutMachine.StepKeepsInv | ServerCore/UdpService.cpp:128-145 | Registrations, touches and both phases of `Tick`, in any interleaving, keep: maps agree, and every issued id is live, removed and due to be announced, or announced, and only one of these |
| TimeoutMachine.RunKeepsInv | ServerCore/UdpService.cpp:128-145 | So does every run before the 64-bit counter wraps |
| TimeoutMachine.MapsAgree | ServerCore/UdpService.cpp:81-92 | In every reachable state, also between the two phases, the maps agree and a lookup by address is a scan |
| TimeoutMachine.IssuedIdsPartition | GameServer/GameServer.cpp:43-49 | Issued ids partition into live, removed but unannounced, and announced; while the main thread sleeps none is in between |
| TimeoutMachine.LeaveIsFinal | GameServer/UdpServerPacketHandler.cpp:138-143 | After a departure was announced, any further run leaves the id unregistered, not due again, announced at that one place; and the departed was not told of its own departure |
| TimeoutMachine.AudienceIsLive | GameServer/UdpServerPacketHandler.cpp:138-143 | Every announcement of a run went to exactly the clients registered at that moment |
| TimeoutMachine.TickReturnsDistinctIds | ServerCore/UdpService.cpp:128-145 | One `Tick` returns no id twice, and none that is registered or was announced before |
| TimeoutMachine.AliveIsLastHeard | GameServer/UdpGameSession.cpp:43-44 | In every reachable state the time kept in a context is that of the last registration or datagram of its client |
| TimeoutMachine.LastHeardIsLast | GameServer/UdpGameSession.cpp:26-45 | What that means on the acts of a run: some act has this time, and none after it is a sign of life of the client |
| TimeoutMachine.NowIsTickTime | ServerCore/UdpService.cpp:129-135 | While the scan is on, its time is the one read when the tick began |
| TimeoutMachine.EvictedWasSilent | ServerCore/UdpService.cpp:131-142 | In every run, whoever was registered and no longer is had its last registration or datagram more than 10 seconds before the time of a tick that scanned it |
| TimeoutMachine.SilentForTenSeconds | ServerCore/UdpService.cpp:131-142 | With a clock that does not run backwards: no registration or datagram of that client at all in those 10 seconds |
| TimeoutMachine.ScanDecides | ServerCore/UdpService.cpp:134-136 | The scan puts an id on the list exactly when the last registration or datagram of its client is more than 10 seconds before the time of the tick |
| TimeoutMachine.ScanMissesNobody | ServerCore/UdpService.cpp:133-137 | While the scan is on, every registered client is still to be scanned or has been scanned since the tick began; so none is left out when it ends |
| TimeoutMachine.HeardAfterScanIsEvicted | ServerCore/UdpService.cpp:139-142 | A run in which a client heard from between the scan and the removal is removed all the same |
| SequenceFilter.LastIsSegmentMaximum | GameServer/UdpGameSession.cpp:40-43 | The remembered number is the largest since the last zero: it bounds them all and is one of them, or the starting value |
| SequenceFilter.PassesIffRecord | GameServer/UdpGameSession.cpp:40-41 | A number passes exactly when it is zero or larger than every number since the last zero |
| SequenceFilter.FilterSnoc | GameServer/UdpGameSession.cpp:40-43 | The filter keeps exactly the numbers that pass, in order |
| SequenceFilter.FilterIncreases | GameServer/UdpGameSession.cpp:40-43 | What passes increases strictly except where a zero restarts it |
| SequenceFilter.FilterIdempotent | GameServer/UdpGameSession.cpp:40-43 | Filtering the output again changes nothing |
| SequenceFilter.ReplayPassesNothing | GameServer/UdpGameSession.cpp:40-41 | Replaying any non-zero numbers already covered lets nothing more through and changes no state |
| SequenceFilter.CountingClientPasses | GameServer/UdpGameSession.cpp:40-43 | A client that counts in 32 bits with wrap-around is never filtered when its datagrams arrive in order |
| SequenceFilter.ReceiveStep | GameServer/UdpGameSession.cpp:26-45 | One datagram of anybody: what it leaves of a registered client's context |
| SequenceFilter.FilterPerClient | GameServer/UdpGameSession.cpp:26-45 | However the datagrams and departures of all clients interleave, those handled for a registered client are the filter of what that client sent before it was removed |
| SequenceFilter.NewClientFilter | GameServer/UdpGameSession.cpp:26-45 | A client that says hello under an unknown key starts with a clean filter: what is handled for it afterwards are the records of what it sends |
| SequenceFilter.GoneUnheard | GameServer/UdpGameSession.cpp:35-37 | A removed context is never handled again |
| SequenceFilter.DepartureStep | GameServer/UdpGameSession.cpp:26-45 | The departure of another client leaves a registered one findable and its context as it was |
| SequenceFilter.OthersUntouched | GameServer/UdpGameSession.cpp:26-45 | A datagram handled for one client changes no other context |
| RecvLoop.StepKeepsInv | ServerCore/UdpSession.cpp:66-106 | Every step of every worker keeps: one receive pending, or one thread between a completion and the next receive |
| RecvLoop.OneReceiver | ServerCore/UdpSession.cpp:66-106 | In every reachable state exactly one of these; so no two threads are in a packet handler, none is while the kernel may write the buffer, and the owner of the event is set whenever a completion is due or taken, and never in a handler |
| RecvLoop.AlwaysRearms | ServerCore/UdpSession.cpp:96-106 | Whatever a completion carried, its thread is never blocked and each step brings the next receive nearer |
| RecvLoop.StepsBounded | ServerCore/UdpSession.cpp:81-93 | Steps between two receives are bounded by four, plus three per immediate failure |
| RecvLoop.UdpSession.RegisterRecv | ServerCore/UdpSession.cpp:66-94 | After any number of immediate failures a receive is pending and the owner set |
| RecvLoop.UdpSession.ProcessRecv | ServerCore/UdpSession.cpp:96-106 | The datagram goes to the handler exactly when it holds a header, and the receive is re-armed in either case |
| RecvLoop.ProcessRecvIsARun | ServerCore/UdpSession.cpp:96-106 | A whole `ProcessRecv` is a run of the machine from a pending receive to the next |
| Economy.GrantedUnpaidIff | GameServer/RedisClient.cpp:105-131 | Goods without a charge: exactly when the charge drew an error reply and a later write, not cut off by a missing reply, took effect |
| Economy.GrantedUnpaidExample | GameServer/RedisClient.cpp:107-109 | Such a purchase |
| Economy.BuyChanges | GameServer/UdpServerPacketHandler.cpp:246-272 | The balance drops by the price exactly when charged; nothing else of the hash changes unless granted |
| Economy.SuccessMeansComplete | GameServer/UdpServerPacketHandler.cpp:264-279 | Success without error replies means every offered value is stored; failure is reported although the money is gone exactly when the charge took effect and some write was not answered |
| Economy.OfferInRange | GameServer/UdpServerPacketHandler.cpp:255-266 | The new balance is non-negative and smaller, the ammunition between 10 and 40: no 64-bit or 32-bit overflow |
| Economy.BuyStores | GameServer/UdpServerPacketHandler.cpp:237-272 | Each field of the hash after a purchase: balance less the price, the weapon asked for, ammunition type zero, five of its magazines, each exactly if the purchase went through, its write took effect and no earlier reply was missing |
| Economy.FullPurchases | GameServer/WeaponData.h:29-43 | What 10000 buy of each weapon type, in numbers; no other type is sold |
| Economy.ShootTakes | GameServer/RedisClient.cpp:136-160 | A round is taken exactly from a hash that was read, with a weapon other than zero and positive ammunition, if the write took effect, and nothing else changes; the shot is reported in the same case if the write was answered |
| Economy.MoneyConserved | GameServer/RedisClient.cpp:95-134 | Over any run, whatever Redis loses, refuses or silently applies, a balance falls by exactly the prices charged, never rises, and never drops below zero from above |
| Economy.NothingFree | GameServer/RedisClient.cpp:95-134 | Over a run in which no charge is answered with an error, a user who spent nothing keeps weapon and ammunition type and gains no round |
| Economy.GainsArePaid | GameServer/RedisClient.cpp:95-134 | Whenever a weapon or ammunition type changes or rounds are added, the event is a purchase by that user, and it is charged the price unless the charge drew an error reply |
| Economy.BoughtIsSpent | GameServer/RedisClient.cpp:95-134 | Over any run in which no charge is answered with an error, the prices of all gains are part of what left the balance |
| Economy.WeaponIsLastBought | GameServer/RedisClient.cpp:112-124 | Over any run the weapon is that of the last purchase whose weapon write took effect, or the first one; the ammunition type is zero or the first one |
| Economy.AmmoConserved | GameServer/RedisClient.cpp:136-160 | Over any run the rounds left, the shots reported, those taken unreported, less those reported but not taken, are what was last bought, five magazines of the weapon of that purchase, or what there was at first; ammunition never turns negative |
| Economy.LastTopUpIsLast | GameServer/UdpServerPacketHandler.cpp:264-267 | The purchase that the account goes back to did set the ammunition to five magazines of its weapon, and no later event did so |
| Economy.ShotsWithinPurchase | GameServer/RedisClient.cpp:136-160 | Without error replies, shots reported plus rounds left never exceed the last purchase; with equality when no reply to an applied shot is lost |
| Economy.OthersUntouched | GameServer/UdpServerPacketHandler.cpp:237-299 | A packet for one user leaves every other user's hash as it was |
| RedisClient.RedisClient.GetPlayerInfo | GameServer/RedisClient.cpp:31-66 | The loop gives each of the twelve members the last value of its own field, or its default; fails exactly when not connected or not answered; weapon and ammunition are those of the hash |
| RedisClient.NumberIsLast | GameServer/RedisClient.cpp:46-62 | The value of a field is that at the last place where it stands, or the default if it stands nowhere |
| RedisClient.RedisClient.GetBalance | GameServer/RedisClient.cpp:68-80 | Fails also when the field is absent |
| RedisClient.RedisClient.SetAmmo | GameServer/RedisClient.cpp:82-93 | One write; anything but a missing reply counts as success |
| RedisClient.RedisClient.PurchaseWeapon | GameServer/RedisClient.cpp:95-134 | With every write acknowledged the hash is exactly the purchase; in general it is that of the four writes up to the first without a reply, an unanswered first one leaving all but the balance; success exactly when all were answered; other hashes untouched |
| RedisClient.RedisClient.ConsumeLobbyAmmo | GameServer/RedisClient.cpp:136-160 | Takes one round exactly from a user read with weapon and ammunition, if the write took effect, and reports it exactly if the write was answered, with the rounds then left |
| RedisClient.UdpServerPacketHandler.HandleBuyWeapon | GameServer/UdpServerPacketHandler.cpp:237-279 | Success exactly if the weapon is known, the balance read and sufficient and every write answered; then, acknowledged, the hash holds the weapon asked for, five magazines and the balance less the price, which is also reported; a failure reports the balance read, or zero |
| RedisClient.UdpServerPacketHandler.HandleGunShotLobby | GameServer/UdpServerPacketHandler.cpp:288-299 | One round less exactly for a context with a user id, read with weapon and ammunition, if the write took effect; nothing else changes |
| Bytes.FromToLe | ServerCore/BufferWriter.h:47-53 | A number that fits comes back from its little-endian bytes |
| Bytes.LeByteAt | ServerCore/BufferWriter.h:47-53 | The bytes of a number stand least significant first |
| Bytes.ToFromLe | ServerCore/BufferReader.h:41-46 | Bytes come back from the number they were read as, which fits them |
| Bytes.UnwrapWrap | ServerCore/BufferWriter.h:47-53 | A signed number comes back from its two's complement, which is itself, or for a negative one itself plus the span |
| Codec.DecodeEncode | ServerCore/BufferReader.h:41-46 | For every list of typed fields and texts, reading back in order returns every value and stops where writing did, whatever follows |
| Codec.EncodeDecode | ServerCore/BufferWriter.h:47-53 | Conversely, whatever was read and is written again gives the bytes that were read |
| Codec.EncodingInjective | ServerCore/BufferWriter.h:47-53 | Different values of the same kinds never encode alike |
| Codec.NumberBytes | ServerCore/BufferWriter.h:47-53 | Every byte of every kind of number in its field: one, two, four or eight, least significant first, negative ones in two's complement |
| Codec.TextBytes | GameServer/UdpServerPacketHandler.cpp:171-174 | A text is its length, low byte first, and its bytes |
| Buffers.BufferWriter.Write | ServerCore/BufferWriter.cpp:14-21 | All or nothing; a cursor inside the buffer stays inside |
| Buffers.BufferWriter.Reserve | ServerCore/BufferWriter.h:37-45 | Says where the reserved bytes are and skips them, writing nothing, or nothing at all when they do not fit |
| Buffers.BufferWriter.Put | ServerCore/BufferWriter.h:47-53 | Appends exactly the encoding of the value, without a test: what does not fit goes behind the buffer |
| Buffers.BufferWriter.PutText | GameServer/UdpServerPacketHandler.cpp:171-174 | The 16-bit length and the byte loop together append exactly the encoding of the text, cut to that length |
| Buffers.BufferWriter.Fill | GameServer/UdpServerPacketHandler.cpp:126-128 | Writing through the reserved pointer changes these bytes and no others |
| Buffers.BufferReader.Peek | ServerCore/BufferReader.cpp:15-21 | Within the buffer, the next bytes if there are that many; the cursor stays; the 32-bit free size wraps past the end |
| Buffers.BufferReader.Read | ServerCore/BufferReader.cpp:23-29 | The next bytes and the cursor behind them, or neither |
| Buffers.BufferReader.Get | ServerCore/BufferReader.h:41-46 | The bytes at the cursor as a value, of the buffer or of the memory behind it; within the buffer, what decoding says |
| Packets.PacketWriter.Finish | GameServer/UdpServerPacketHandler.cpp:120-131 | Reserving the header, streaming the payload and filling the header last gives header and payload, in that order, cut where the buffer ends |
| Packets.MakeHandshakeAck | GameServer/UdpServerPacketHandler.cpp:119-132 | The bytes of the packet, which always fits; a client reads session id, sequence 0, type 350, session id |
| Packets.MakeLobbyPlayerLeave | GameServer/UdpServerPacketHandler.cpp:146-159 | The bytes of the packet, which always fits; a client reads session 0, sequence 0, type 353, the id that left |
| Packets.MakeLobbyPlayerMove | GameServer/UdpServerPacketHandler.cpp:164-182 | For every user id: what a client reads, field by field, from the bytes written, and how many of these are behind the buffer, namely those of the id from its 1174th on |
| Packets.MakePlayerInfo | GameServer/UdpServerPacketHandler.cpp:184-219 | For every nickname and scene: what a client reads from the bytes written, namely header of type 354, session id, hp, balance, charType, position, weapon, ammoType, ammo, nickname, scene; and how many of these bytes are behind the buffer, namely those over 1144 |
| Packets.MakeBuyWeaponResult | GameServer/UdpServerPacketHandler.cpp:303-321 | The bytes of the packet, which always fits; a client reads the header of type 355, session id, 1 for success or 0, weapon type, balance |
| Packets.MoveFitsIff | GameServer/UdpServerPacketHandler.cpp:164-182 | A move packet fits its 1214 bytes exactly when the user id, its length taken in 16 bits, has at most 1173 |
| Packets.InfoFitsIff | GameServer/UdpServerPacketHandler.cpp:184-219 | A player-info packet fits exactly when nickname and scene, lengths in 16 bits, have at most 1144 together |
| Packets.HelloThenMove | GameServer/UdpServerPacketHandler.cpp:91-105 | For every user id that a HELLO of one datagram sets: at most 1198 bytes, the relayed move stays inside its buffer exactly up to 1173, and leaves it by at most 25 |
| Packets.LongUserIdOverruns | GameServer/UdpServerPacketHandler.cpp:164-182 | Every user id of 1198 bytes is accepted by HELLO and makes the move packet 25 bytes longer than its buffer |
| Packets.PacketReadsBack | ServerCore/UdpSession.h:18-27 | Whatever a builder made, a reader that knows the kinds gets header and every field back with nothing left |
| Packets.ParseHello | GameServer/UdpServerPacketHandler.cpp:59-66 | The parser is the decoding of one text, whatever lies in memory behind the payload |
| Packets.HelloRoundTrip | GameServer/UdpServerPacketHandler.cpp:59-66 | A user id comes back from its encoding, whatever follows |
| Packets.ParseBuy | GameServer/UdpServerPacketHandler.cpp:225-235 | The two length tests and the pointer arithmetic are the decoding of a text and a 32-bit number, whatever lies behind the payload |
| Packets.BuyRoundTrip | GameServer/UdpServerPacketHandler.cpp:225-235 | A request comes back from its encoding, whatever follows |
| Packets.BuyReadsEncoding | GameServer/UdpServerPacketHandler.cpp:225-235 | Whatever is accepted starts with the encoding of what it is read as |
| Packets.RelayMove | GameServer/UdpServerPacketHandler.cpp:91-105 | For every user id, what the mover sent is relayed byte for byte between its session id and the user id of its context, inside the buffer exactly as far as the id allows; short payloads are dropped |
| LobbyHandlers.SendTo | ServerCore/UdpService.cpp:104-109 | One datagram to the address of the client with this id, or none if there is no such client |
| LobbyHandlers.HandleHello | GameServer/UdpServerPacketHandler.cpp:55-81 | A malformed payload does nothing; otherwise the user id is stored and nothing else, and the client gets its acknowledgement and, if Redis answered, its player info, at its own address |
| LobbyHandlers.HandleLobbyMove | GameServer/UdpServerPacketHandler.cpp:91-105 | The movement goes to every other client once, and not back to the mover |
| LobbyHandlers.OnClientLeave | GameServer/UdpServerPacketHandler.cpp:138-143 | Everybody still registered is told once who left |
| Lifecycle.RunKeepsInv | ServerCore/Session.cpp:43-52 | Over every run of any number of sessions and disconnect callers, the service holds exactly the sessions added and not released, and the count is their number |
| Lifecycle.OneDisconnect | ServerCore/Session.cpp:43-52 | However many callers disconnect a session, each stage of its disconnect is entered at most once |
| Lifecycle.ReleaseCrashesIff | ServerCore/Service.cpp:30-34 | The assertion in `ReleaseSession` fails exactly when the session was not added before |
| Lifecycle.OrderlyRuns | GameServer/GameSession.cpp:6-12 | If nobody disconnects a session before the game manager was told of it: the assertion never fails, the count is exact, managed sessions are service sessions, and the difference is on its way in or out |
| Lifecycle.EarlyDisconnectCrashes | ServerCore/Session.cpp:211-233 | A run in which a disconnect between marking and adding makes the assertion fail |
| Lifecycle.EarlyDisconnectLeavesZombie | ServerCore/Session.cpp:211-233 | From any orderly state with a session just added, a disconnect before it is announced leaves the game manager with a released session |
| Lifecycle.Service.AddSession | ServerCore/Service.cpp:24-28 | One session more, one more counted |
| Lifecycle.Service.ReleaseSession | ServerCore/Service.cpp:30-34 | Fails exactly for an absent session; otherwise removes it and keeps the count equal to the size |
| Lifecycle.ConnectIsARun | ServerCore/Session.cpp:211-226 | An uninterrupted `ProcessConnect` is a run that leaves the session connected, counted, in both sets and receiving |
| Lifecycle.DisconnectIsARun | ServerCore/Session.cpp:228-233 | A disconnect and its completion are a run that takes the session out of the count and both sets, with the assertion holding |
| GameSessionManager.GameSession.ProcessConnect | ServerCore/Session.cpp:211-226 | The session is in both sets and receives if the kernel takes the first receive, and is disconnected again if it answers with a reset; an exact count stays exact, and managed sessions stay service sessions |
| GameSessionManager.GameSession.Disconnect | ServerCore/Session.cpp:43-52 | The session is disconnected, and the disconnect is posted exactly by the caller that found it connected |
| GameSessionManager.GameSession.ProcessDisconnect | ServerCore/Session.cpp:228-233 | The session leaves both sets; the assertion holds exactly if it was in service; count and subset stay right |
| RefCounting.NoDangling | ServerCore/RefCounting.h:36-108 | Whatever sequence of operations led here, no pointer points at a deleted object, and its count is positive |
| RefCounting.GoneIffUnreferenced | ServerCore/RefCounting.h:18-24 | An object is deleted exactly when no pointer and no holder by hand refers to it |
| RefCounting.RefCountable.ReleaseRef | ServerCore/RefCounting.h:18-24 | One reference less; deletes exactly at zero |
| RefCounting.TSharedPtr.Set | ServerCore/RefCounting.h:94-97 | The pointer points at the object, whose count still is the number of its references |
| RefCounting.TSharedPtr.Release | ServerCore/RefCounting.h:99-104 | The pointer is empty, one reference less, every count still exact |
| RefCounting.TSharedPtr.CopyAssign | ServerCore/RefCounting.h:62-68 | Both point at the same object, every count exact, also for two pointers at one object and for self-assignment |
| RefCounting.TSharedPtr.MoveAssign | ServerCore/RefCounting.h:70-75 | The reference changes hands, every count exact; moving a pointer onto itself drops what it held |
| RefCounting.TSharedPtr.TakeOver | ServerCore/RefCounting.h:44-47 | Move construction: no count changes |
| RefCounting.NewObject | ServerCore/RefCounting.h:9-9 | A new object has one reference, held by its creator |
| RefCounting.ReleaseRaw | ServerCore/RefCounting.h:18-24 | Dropping a reference held by hand keeps every count exact |
| RefCounting.Destroy | ServerCore/RefCounting.h:58-58 | The destructor keeps every count exact |
| StompAllocator.AllocRelease | ServerCore/Allocator.cpp:21-33 | For every size from 1 to 2^31 - 4096 and every page-aligned base: the block ends exactly where its pages end, `Release` finds the base again, and no page is wasted |
| StompAllocator.Allocator.BlocksDisjoint | ServerCore/Allocator.cpp:21-33 | After any history of calls two live blocks do not overlap |
| StompAllocator.Allocator.Alloc | ServerCore/Allocator.cpp:21-27 | Adds one block and its reservation; other blocks stay |
| StompAllocator.Allocator.Release | ServerCore/Allocator.cpp:29-33 | Frees exactly the reservation of this block |

## Left out

- Winsock, IOCP and extension functions: their outcomes (accepted, refused, completed with a byte count) are inputs of the steps and methods; socket options, accepting, binding and address parsing are not modelled.
- hiredis and the conversion between numbers and strings (`stoi`, `stoll`, `stof`, and the exceptions they throw on malformed text): Redis is a map from users to optional numeric fields; each command's outcome is an input.
- Other writers of Redis: the results of Economy are about what this server writes, so they assume that nothing else changes the same fields meanwhile.
- Clocks: the time is an input wherever the code reads it.
- `Lock` (ServerCore/Lock.cpp): `WRITE_LOCK` is a recursive exclusive lock, as ServerCore/Session.cpp:161-162 states; its spinning and its timeout are not modelled, so a waiting thread waits. `READ_LOCK` excludes writers: the scan of `Tick` and the registrations do not overlap.
- RecvBuffer: follows ServerCore/RecvBuffer.cpp (ten buffer sizes of room, the unread bytes moved to the front when less than one is free); the rows cite the calls to it.
- Floating point: coordinates are carried as 32-bit patterns, since the server only relays them.
- Console output, thread-local lock stacks and the deadlock profiler.
- The dispatch of packet types, the heartbeat handler and the TCP `ServerPacketHandler`: each is one branch.
- The scatter list `wsaBufs`, which repeats the batch for the kernel, and the 32-bit sum of sizes in `RegisterSend`, which is never read.
- Buffers.BufferWriter.Put: records which bytes go behind the buffer; what they destroy there, and a cursor that passes 2^32, are not modelled.
- Registry.RegisterKeeps: requires that the 64-bit counter has not wrapped, as the reachable states of TimeoutMachine and the traces of SequenceFilter do; `Registry.RegisterAgreesIff` says what a wrap changes.
- RedisClient.RedisClient.GetPlayerInfo: the reply comes as pairs of field and value, each value with the number it reads as; a field without a value at its end is not modelled.
- RecvLoop.UdpSession.RegisterRecv: takes the number of immediate failures as an input; the depth of the recursion, one frame per failure, is not modelled.
- RefCounting: the atomic increments and decrements are single steps of one caller; the table of pointers and objects is a specification device. Copy construction is an empty pointer followed by `Set`, move construction one followed by `TakeOver`.
- Lifecycle: a session object is used for one connection; reuse after `TF_REUSE_SOCKET` is not modelled. `DisconnectEx` may fail, after which the session stays in the sets.
- History variables: `token`, `accepted`, `retired`, `issued`, `outstanding` and `unserved` of the send pipeline and `announced` of the timeout machine record the past and decide no step.
