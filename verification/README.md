# HydraVPN: a verified model

HydraVPN tunnels the traffic of a TUN device to a server, over one of several transports. This project
models the parts of it that carry state or data, and proves what they guarantee:

- **Addresses and sessions** (`AddressPool`, `PoolRuns`, `Sessions`, `ServerGuarantees`, `Server`). The server's
  address pool is a next-fit allocator over 32-bit arithmetic. Any number of connection handlers run at once; each
  takes an address, enters a session map, writes the handshake reply, answers keep-alives, leaves the map, and gives
  the address back, while the router scans the map under its read lock in no particular order. `Sessions` is a
  transition system with one step for each locked block and each write; a scan is many steps, and everything that
  does not need the map's lock may happen in between. Its state logs what has been handed to each connection.
  `Server` holds the same blocks as methods of a class, each proved to take the server from one state of `Sessions`
  to the next. `Server.Server.Shows` relates the two: pool and map are the state's, and what a connection carries is
  what `Admission.OnWire` makes of its log.
- **Admission** (`Admission`). Which clients complete their handshake in a run of the server, and what a client that
  has completed receives.
- **The data path** (`Protocol`, `Crypto`, `WebSocket`, `Tunnel`, `Handshake`). Frames are sealed under a nonce that
  starts with a counter, packed, sent as messages, read back through a 4096-byte buffer with a left-over, unpacked
  and opened. The result of the chain is `Handshake.TunnelIsTransparent`.
- **The obfuscating transport** (`Obfuscation`, `Deobfuscation`). Length-prefixed frames under a periodic
  exclusive-or key stream with one rolling cursor for both directions.
- **Reconnecting** (`Reconnect`). Loops that race to report a lost connection, and the flag that decides which of
  them reconnects: at most one does, and one does.

`Bytes` and `Modular` hold integer encodings, exclusive or and remainders; `Modular.Wrap` is the remainder computed
by subtraction (`Modular.WrapIsModulo`).

Go objects whose methods assign to fields are classes here; their methods are proved against functions of the old
state, and the properties of whole runs are lemmas about these functions. X25519, HKDF and the AEAD are function
values of the datatype `Crypto.Suite`. Lemmas that need more than their types assume `Crypto.Lawful`: both ends of a
key exchange compute the same point (section 6.1 of RFC 7748), and opening undoes sealing with 16 bytes added
(section 2.8 of RFC 8439). `Crypto.LawsHaveAModel` shows that these laws can hold. Random values, the clock, and the
answers of the network are parameters: `entropy` is what the random source yields for a nonce (or its failure),
`accepted` is whether a write succeeds, and `incoming` is what will arrive.

## What the code does not guarantee

Five statements one might expect are false of the code. Each is proved together with the exact condition under
which it does hold.

- *"IP pool exhausted" means that no address is free.* The loop tries size-2 remainders modulo size-1 and so never
  reaches the host just behind the cursor when the cursor is 4 or more. `AddressPool.ExhaustedIff` gives the exact
  condition, and `PoolRuns.RefusesWithOneFree` a run in which a free address is refused. Two free addresses are
  always enough.
- *A client the server admits completes its handshake.* The session enters the map (pkg/server/server.go:294) before
  the reply is written (pkg/server/server.go:318), so the router can write a data packet first, and the client then
  fails on an unexpected packet type (pkg/client/client.go:210). `Admission.RoutedBeforeReply` is such a run; by
  `Admission.HandshakeCompletesIff` a client completes exactly when its handler writes the reply and no scan has put
  a packet on the connection before.
- *A registered client can be routed to.* Session identifiers are random and never checked against the map. By
  `ServerGuarantees.RoutableIff` a registered handler can be routed to exactly as long as no other handler with its
  identifier has entered or left the map since it entered. In `ServerGuarantees.CollisionRun` two handlers draw one
  identifier: the second to register makes the first unreachable, and when the first leaves, neither can be reached.
  Addresses stay safe in any case.
- *Reconnection attempts never overlap.* By `Reconnect.OverlapFreeIff` they do not exactly if `Connect` is only
  called from outside when nobody is connected, connecting or about to; one call is fine
  (`Reconnect.AttemptsNeverOverlap`), two can overlap (`Reconnect.TwoCallsOverlap`).
- *Read undoes Write on the obfuscating transport.* `Write` runs the key stream on from the length into the payload
  (pkg/transport/obfs.go:144), `Read` starts the payload again at the length's position (pkg/transport/obfs.go:129).
  For a receive-only and a send-only end, and for strictly alternating ends, reading undoes writing exactly when the
  key is unchanged by turning it by four bytes (`Deobfuscation.OneWayIff`, `Deobfuscation.AlternatingIff`); when the
  two directions cross, exactly when all bytes of the key are equal (`Deobfuscation.CrossingIff`). The default key is
  32 random bytes.

## Model

| member | source | states |
|---|---|---|
| AddressPool.FreshIsSound | pkg/server/server.go:64-71 | For every aligned subnet with a prefix of 1 to 31 bits, no 32-bit sum of base and host number can overflow, and a new pool satisfies the pool invariant. |
| AddressPool.IPPool.NewIPPool | pkg/server/server.go:64-71 | A new pool has nothing in use and its cursor at host 2. |
| AddressPool.IPPool.Allocate | pkg/server/server.go:74-101 | The loop of remainders, clamping and 32-bit sums computes exactly the next-fit function Granted and moves the pool to AfterAllocate; the pool invariant survives. |
| AddressPool.IPPool.Release | pkg/server/server.go:104-108 | Exactly the given address leaves the used set; the cursor stays. |
| AddressPool.GrantIsFirstFree | pkg/server/server.go:82-97 | A granted address is base+h for a host h in 2..size-2, was free, and every host between the cursor and h in cyclic order was in use. |
| AddressPool.ExhaustedIff | pkg/server/server.go:82-100 | Allocation fails if and only if every host except the one just behind a cursor of 4 or more is in use, and then changes nothing. |
| PoolRuns.ApplyKeepsSound | pkg/server/server.go:74-108 | Every operation keeps the cursor in range, all used addresses in range, and the subnet. |
| PoolRuns.Rotation | pkg/server/server.go:82-108 | In any run of allocations and releases, between two grants of one address every other usable address was in use at some moment. |
| PoolRuns.FreshGrantsInOrder | pkg/server/server.go:64-101 | Without releases a pool grants base+2, ..., base+size-2 in this order and then refuses. |
| PoolRuns.RefusesWithOneFree | pkg/server/server.go:82-100 | Filled up, and with its last address given back, a pool refuses although that address is free. |
| PoolRuns.HeldAtMost | pkg/server/server.go:78-97 | At most size-3 addresses are in use. |
| PoolRuns.RefusedOnlyNearlyFull | pkg/server/server.go:78-100 | A refusal means that at least size-4 addresses are in use. |
| PoolRuns.TwoFreeSuffice | pkg/server/server.go:78-100 | With two addresses free, wherever the cursor is, allocation succeeds. |
| Sessions.AddressesIdentifySessions | pkg/server/server.go:284-295 | Two entries of the session map with one address are the same entry, even after identifier collisions. |
| Sessions.StepKeepsInv | pkg/server/server.go:226-303 | Every locked block of a handler and every step of the router keeps: used set = held addresses, held addresses distinct, map entries live, scan in order. |
| Sessions.RunKeepsInv | pkg/server/server.go:226-423 | This invariant holds at every moment of every interleaving of any number of handlers with the router, for arbitrary identifiers. |
| Sessions.AddressedToIff | pkg/server/server.go:398-408 | A frame is for an address if and only if it has at least 20 bytes and bears the address, high byte first, in bytes 16 to 19. |
| ServerGuarantees.UsedIsExactlyHeld | pkg/server/server.go:278-303 | At every moment an address is in the used set if and only if a handler has allocated and not yet released it, and no two handlers hold one address. |
| ServerGuarantees.AllEndedLeavesNothing | pkg/server/server.go:226-303 | When all handlers have ended, by any exit, the used set and the session map are empty. |
| ServerGuarantees.GrantsAreUnroutable | pkg/server/server.go:278-303 | Each entry's owner is registered and its address still used; an allocation never grants an address that a session still routes to. |
| ServerGuarantees.ScanFreezesTable | pkg/server/server.go:406-421 | From the start of a scan to its end the session map and the destination do not change. |
| ServerGuarantees.ScanDeliversToOwner | pkg/server/server.go:397-421 | For every visiting order and interleaving, a finished scan has sent the packet once, to the owner of the destination address, or, if encrypting for the owner failed or nobody owns the address, not at all. |
| ServerGuarantees.RoutableIff | pkg/server/server.go:293-300 | In every run, from the moment a handler enters the map until it leaves, its address leads to its own session if and only if no other handler with its identifier has entered or left the map meanwhile. |
| ServerGuarantees.RegisteredStayRoutable | pkg/server/server.go:273-303 | If no drawn identifier equals that of a handler then holding an address, every registered handler's own session is in the map. |
| ServerGuarantees.CollisionUnroutes | pkg/server/server.go:293-300 | Of two registered handlers with one identifier at most one can be routed to, and when either leaves, the other stays registered and no entry leads to its address. |
| ServerGuarantees.CollisionRun | pkg/server/server.go:273-300 | A run from the start, on any subnet with two or more addresses to give, in which the second handler's entry makes the first unreachable and the first one's leaving empties the map under the second. |
| ServerGuarantees.HandlerCapacity | pkg/server/server.go:278-282 | At most size-3 handlers hold an address at once, and a handshake is refused for want of an address only when at least size-4 do. |
| ServerGuarantees.NeverStuck | pkg/server/server.go:278-421 | In every reachable state: a scan can continue, and each visit leaves it less to do; an unfinished handler waits for the end of a scan exactly when it is to enter or leave the map, and otherwise for nothing. |
| ServerGuarantees.ScanIsFinite | pkg/server/server.go:406-421 | Whatever handlers do meanwhile, a scan makes at most as many visits as the map had entries when it began. |
| ServerGuarantees.CanWindDown | pkg/server/server.go:226-303 | From every reachable state, in the middle of a scan or not, the run can go on until every handler has ended (and then, by AllEndedLeavesNothing, nothing is left). |
| Admission.ClientAnswersIff | pkg/client/client.go:193-240 | A client completes its handshake if and only if the first message the server has put on its connection is the reply and the shared secret is usable. |
| Admission.HandshakeCompletesIff | pkg/server/server.go:278-321 | In every run, for every handler and state: the client completes if and only if the handler has written its reply with success, no scan has put a packet on the connection before that, and the shared secret is usable. Without an address, or with a refused reply, it never does. |
| Admission.RoutedBeforeReply | pkg/server/server.go:293-318 | A run from the start in which the router gets to a new session before its reply is written: the handler is registered and has written its reply, and the client, having read a data packet first, has failed. |
| Admission.AdmittedClientIsServed | pkg/server/server.go:293-421 | In every run, if the reply is the first message: the client completes with the handler's identifier and address and the crossed keys, and up to any later state its TUN device gets exactly the frames sealed and sent on its connection since, in order and unchanged, all addressed to it. |
| Admission.RefusedHandlerEnds | pkg/server/server.go:279-282 | In every run, a handler refused an address has ended for good: the refusal changes neither pool, map nor connections, nothing is ever written to its connection, and no session of its ever stands in the map. |
| Admission.ExitIsFinal | pkg/server/server.go:226-303 | In every run, after a handler has given up in the handshake or released its address, it stays ended, nothing more is written to its connection, and no session of its stands in the map. |
| Server.Server.ReadHello | pkg/server/server.go:231-271 | A connection gets session keys exactly when its first read parses as a handshake message with a usable shared secret, and the keys are those of ServerAccept; one read is consumed. |
| Server.Server.TakeAddress | pkg/server/server.go:278-282 | Allocating takes the server from any state to the one after the handler's allocation step; the result is the next-fit address or exhaustion. |
| Server.Server.Register | pkg/server/server.go:285-295 | Entering the map takes it to the state after the registration step, whoever's entry the identifier overwrites. |
| Server.Server.Greet | pkg/server/server.go:305-321 | Writing the reply puts exactly the handshake response on the handler's connection if the transport accepts it, and is the state's reply step; nobody else's connection changes. |
| Server.Server.DataTurn | pkg/server/server.go:338-371 | One turn of the data loop appends an opened frame to what the TUN device has been handed, if there is a device and not otherwise, and takes the state's keep-alive step exactly for a keep-alive. |
| Server.Server.Unregister | pkg/server/server.go:298-300 | Deletes exactly the entry under the handler's identifier: the state's unregistering step. |
| Server.Server.Release | pkg/server/server.go:301 | Gives exactly the handler's address back: the state's release step. |
| Server.Server.Admit | pkg/server/server.go:273-321 | Undisturbed, these blocks in the handler's order lead to the state AfterAdmit: address, entry and reply; on exhaustion nothing but the handler's end; if the reply is refused, entry and address are given back. |
| Server.Server.Close | pkg/server/server.go:297-303 | The deferred clean-up unregisters first and then releases. |
| Server.Server.Serve | pkg/server/server.go:408-419 | A visit to a session puts one sealed data message on its connection, and moves its counter, exactly if its address is in bytes 16-19 of the frame; it ends the scan exactly if it also could encrypt. |
| Server.Server.Dispatch | pkg/server/server.go:397-421 | For every visiting order, treating one frame takes the server through a scan's steps, connections and counters included; a frame below 20 bytes changes nothing. |
| Server.RoutingsWrite | pkg/server/server.go:397-421 | For every run of frames and visiting orders, what each session's connection is handed is exactly the frames for its address, in order. |
| Server.Server.TunReadLoop | pkg/server/server.go:376-423 | Over any run of frames, with any visiting orders, each session's connection and counter grow by exactly the sealed messages of the frames for its address; the receiver of what was added delivers exactly those that were sealed and accepted, in order and unchanged. |
| Server.RoutedFramesArrive | pkg/server/server.go:397-421 | Those messages, read back through the 4096-byte buffer, yield exactly the frames for the address that could be sealed and sent. |
| Server.ReplyNamesPoolPrefix | pkg/server/server.go:146-147 | The prefix sent in the reply is that of the pool's subnet, 10.8.0.0/24, which is aligned and has 256 hosts. |
| Server.GrantedIsNotServer | pkg/server/server.go:146-147 | The addresses granted from it have the bytes 10, 8, 0 and 2 to 254, and are never the server's own, 10.8.0.1. |
| Protocol.Marshal | pkg/protocol/protocol.go:85-100 | Filling the buffer field by field yields the packet layout Encode. |
| Protocol.UnmarshalIffEncoded | pkg/protocol/protocol.go:103-138 | A byte string parses to a packet if and only if it is the encoding of that packet and the packet has the right magic bytes, version and length; so accepted bytes are reproduced by marshalling. |
| Protocol.PacketRoundTrip | pkg/protocol/protocol.go:71-138 | Type, session identifier and a payload of at most 65535 bytes survive packing and parsing unchanged; a longer payload is refused with a length error, never truncated. |
| Protocol.PacketLayout | pkg/protocol/protocol.go:9-30 | A packet on the wire: the bytes 0x48, 0x56, 1, the type, the identifier and the length with the high byte first, and the payload from byte 14. |
| Protocol.AcceptedIff | pkg/protocol/protocol.go:103-132 | A receiver accepts a byte string if and only if it has 14 bytes, these magic bytes and version, and a length field equal to what follows. |
| Protocol.MarshalHandshakeInit | pkg/protocol/protocol.go:141-147 | The 72 bytes of the first handshake message. |
| Protocol.MarshalHandshakeResponse | pkg/protocol/protocol.go:164-173 | The 81 bytes of the second handshake message. |
| Protocol.InitLayout | pkg/protocol/protocol.go:141-147 | Key in bytes 0 to 31, the timestamp's two's complement in 32 to 39, padding in 40 to 71. |
| Protocol.ResponseLayout | pkg/protocol/protocol.go:164-173 | Key, identifier, both addresses, prefix and padding at 0, 32, 40, 44, 48 and 49, 81 bytes in all. |
| Protocol.InitRoundTrip | pkg/protocol/protocol.go:141-161 | Every first message, negative timestamps included, is decoded to itself, whatever bytes follow it. |
| Protocol.ResponseRoundTrip | pkg/protocol/protocol.go:164-190 | Every second message is decoded to itself, whatever bytes follow it. |
| Protocol.InitDecoderIsFaithful | pkg/protocol/protocol.go:150-161 | Decoding fails exactly below 72 bytes, and re-encoding the result gives the first 72 bytes back. |
| Protocol.ResponseDecoderIsFaithful | pkg/protocol/protocol.go:176-190 | Decoding fails exactly below 81 bytes, and re-encoding the result gives the first 81 bytes back. |
| Crypto.SecretUsableIff | pkg/crypto/crypto.go:53-64 | The low-order error is reported exactly for the all-zero point; otherwise the secret is the point. |
| Crypto.KeysAreHalves | pkg/crypto/crypto.go:67-88 | The initiator's send and receive keys are the first and the second half of the expanded secret, the responder's the second and the first; if the halves differ, so do the keys of the two directions. |
| Crypto.EndsAgree | pkg/crypto/crypto.go:53-104 | Both ends compute the same secret or both see the low-order error; initiator's send key is responder's receive key and the other way round, and together they are the whole expansion. |
| Crypto.Session.DeriveSessionKeys | pkg/crypto/crypto.go:67-104 | A new session's two keys put together, in the order of its role, are the expansion of the secret; both counters are zero. |
| Crypto.Session.Encrypt | pkg/crypto/crypto.go:107-122 | The output is the nonce of the old counter and the random tail, then the sealed text; the counter moves by one even if the random source fails. |
| Crypto.Session.Decrypt | pkg/crypto/crypto.go:125-142 | Input below 24 bytes fails; otherwise it is split after the nonce and opened; the receive counter moves exactly on success. |
| Crypto.SealedLayout | pkg/crypto/crypto.go:107-122 | A sealed text starts with the counter, low byte first, in 8 bytes, and the 16 random bytes; the rest is the AEAD's output under exactly these 24 bytes. |
| Crypto.OpenedIff | pkg/crypto/crypto.go:125-142 | Decrypting fails below 24 bytes and exactly when the AEAD refuses otherwise. |
| Crypto.NonceReuse | pkg/crypto/crypto.go:107-122 | Two outputs of one session carry the same nonce if and only if their calls are a multiple of 2^64 apart and drew the same tail. |
| Crypto.NoncesAreFresh | pkg/crypto/crypto.go:107-122 | In a run of at most 2^64 calls, failed ones included, no two outputs carry the same nonce, whatever the tails. |
| Crypto.PeerRecovers | pkg/crypto/crypto.go:107-142 | A sealed text is 40 bytes longer than the plaintext, and the peer's split and open gives the plaintext back. |
| WebSocket.WebSocketConnection.Read | pkg/transport/websocket.go:118-141 | Returns the chunk that Chunk names, leaves the rest of the caller's buffer alone, and keeps the left-over of AfterRead. |
| WebSocket.WebSocketConnection.Write | pkg/transport/websocket.go:144-150 | An accepted write appends exactly its bytes as one message; a refused one nothing. |
| WebSocket.ReadsConserve | pkg/transport/websocket.go:118-141 | Over any run of reads with any buffer sizes, returned bytes, then left-over, then unread messages make up everything sent. |
| WebSocket.ReadsNeverMix | pkg/transport/websocket.go:118-141 | Every read returns a stretch of a single message. |
| WebSocket.ReadsAreMessages | pkg/transport/websocket.go:118-141 | If every buffer is at least as long as its message, then after any number of reads they have returned exactly the messages so far, one each, and nothing is left over. |
| WebSocket.DrainIsMessages | pkg/transport/websocket.go:118-141 | Reading to the end with one buffer no shorter than any message yields exactly the messages. |
| Tunnel.Endpoint.Send | pkg/client/client.go:264-277 | One event puts exactly its message on the connection (none if encrypting or writing fails) and moves the send counter exactly for data. |
| Tunnel.Endpoint.TunReadLoop | pkg/client/client.go:243-279 | Of what the loop puts on the connection, the peer delivers the frames of exactly those reads that brought a frame, could be sealed, were accepted, and had no refused write before them, in order; a lost connection is reported exactly when some write was refused. |
| Tunnel.AttemptsSplit | pkg/client/client.go:248-278 | Reads are attempted one after the other: a failed read or encryption stops nothing, a refused write everything after it. |
| Tunnel.AttemptedPayloads | pkg/client/client.go:248-278 | The frames that get through are those of the reads just described, by index. |
| Tunnel.Endpoint.Handle | pkg/client/client.go:304-332 | What one read does: append an opened frame to what the TUN device has been handed if there is a device (and nothing without one), answer a keep-alive on the server (whether or not the transport takes it), stop at a disconnect packet, ignore everything else. |
| Tunnel.Endpoint.ReceiveLoop | pkg/server/server.go:326-372 | Until the connection closes or a disconnect packet comes, an end with a device hands it exactly the delivered frames, and one without hands over none; exactly the accepted answers to the keep-alives seen are written. If the peer has sealed and sent a run of events under the receive key, the device gets exactly the frames that went in. |
| Tunnel.ReceiveIff | pkg/server/server.go:338-371 | A chunk yields a frame if and only if it is a whole data packet whose payload opens to it, counts as keep-alive or disconnect if and only if it is a whole packet of that type, and is ignored otherwise. |
| Tunnel.DeliveredSplit | pkg/server/server.go:326-371 | Chunks are handled one after the other, and none after a disconnect packet. |
| Tunnel.JunkIsSkipped | pkg/server/server.go:338-357 | A chunk that is ignored, wherever it comes, changes nothing in the delivery of the others. |
| Tunnel.LeftOverIs | pkg/server/server.go:368-370 | What stays unread is exactly what follows the first disconnect packet. |
| Tunnel.MessageIsReceived | pkg/server/server.go:333-371 | The message made from a frame of n bytes, n at most 2048, has n+54 bytes and so fits the 4096-byte buffer and the 16-bit length, bears its session's identifier and its type, and is received as what it was. |
| Tunnel.FramesArrive | pkg/client/client.go:246-277 | For any run of frames, keep-alives and disconnects, the receiver's loop delivers exactly the frames sealed and accepted before the disconnect, in order and unchanged. |
| Handshake.Client.PerformHandshake | pkg/client/client.go:181-240 | The client sends its hello and succeeds exactly when the answer completes the handshake; then its fields are those of the answer, otherwise they are unchanged. |
| Handshake.HelloIsUnderstood | pkg/client/client.go:183-193 | The hello is a packet of type 1 and identifier 0 whose payload parses to the client's key, the timestamp and the padding. |
| Handshake.ReplyIsUnderstood | pkg/server/server.go:306-318 | The reply is a packet of type 2 of its session whose payload parses to the server's key, the identifier, the assigned address, 10.8.0.1, 24 and the padding. |
| Handshake.ServerAcceptsIff | pkg/server/server.go:240-271 | The server gets keys if and only if its first read is a whole packet of type 1 with at least 72 bytes of payload whose key yields a usable secret; they are the responder's keys for it. |
| Handshake.ClientCompletesIff | pkg/client/client.go:204-239 | The client completes if and only if the answer is a whole packet of type 2 with at least 81 bytes of payload whose key yields a usable secret; identifier and addresses are those in the payload. |
| Handshake.EndsAgreeAfterHandshake | pkg/client/client.go:181-240 | The server gets keys from the client's hello if and only if the client would complete on the server's reply, namely if their secret is not all zero; then their keys are crossed and they agree on identifier and addresses. Whether the reply is sent, and read first, is stated in module Admission. |
| Handshake.TunnelIsTransparent | pkg/server/server.go:226-373 | With any packets routed before the reply, and the reply accepted or not: the client completes if and only if the reply is the first message sent to it; then every frame sealed and sent at either end from then on comes out of the other end's TUN device unchanged and in order, in both directions, through the real buffers. |
| Obfuscation.Obfuscate | pkg/transport/obfs.go:98-103 | Masking in place with a stepping cursor equals masking with the periodic key stream, and the cursor ends at start plus length modulo the key length. |
| Obfuscation.ObfuscatedConnection.Read | pkg/transport/obfs.go:106-133 | Decodes as Decode: length from the header, payload masked again from the header's cursor, errors for a short stream or a length above 65535; the rest of a frame that does not fit the buffer is lost, and the buffer beyond the frame is left alone. |
| Obfuscation.ObfuscatedConnection.Write | pkg/transport/obfs.go:136-154 | Appends the framed message masked from the cursor on; the cursor moves by four plus the length even when the network refuses. |
| Obfuscation.WritesAreOneShot | pkg/transport/obfs.go:136-154 | Over any run of writes the bytes on the wire are the concatenated frames under the one-shot key stream, and the cursor is the total length modulo the key length. |
| Obfuscation.FramedLayout | pkg/transport/obfs.go:136-141 | A frame in the clear is the message's length in four bytes, high byte first, and the message. |
| Deobfuscation.FrameReadsBackIff | pkg/transport/obfs.go:106-154 | A frame written at one cursor and read at another comes back if and only if the key stream agrees on the four header bytes and, shifted by four, on the payload. |
| Deobfuscation.EqualCursors | pkg/transport/obfs.go:113-144 | From equal cursors k the length is always decoded right, and byte i comes back as b[i] xor key byte k+4+i xor key byte k+i. |
| Deobfuscation.DecodesIff | pkg/transport/obfs.go:106-133 | A read fails exactly on fewer than four bytes, a length above 65535, or fewer bytes than the length; the first and last cost everything that was there, the other the four bytes. |
| Deobfuscation.LongMessageIsRefused | pkg/transport/obfs.go:118-145 | A message of more than 65535 bytes is written, but refused by the reader, whose next read starts in the middle of the frame. |
| Deobfuscation.ReadNeedNotUndoWrite | pkg/transport/obfs.go:129-144 | Under the key 0, 1, 2 the message 7 is read back as 6. |
| Deobfuscation.StreamReadsBackIff | pkg/transport/obfs.go:106-154 | A whole sequence of messages is read back if and only if the key stream agrees frame by frame along both cursors. |
| Deobfuscation.KeyTurnsIff | pkg/transport/obfs.go:98-103 | Comparing each key byte with the one four places on, around the end of the key, decides whether the whole periodic key stream is unchanged by a shift of four. |
| Deobfuscation.OneWayIff | pkg/transport/obfs.go:106-154 | Every sequence of messages of at most 65535 bytes is read back by a receive-only end if and only if the key is unchanged by turning it by four. |
| Deobfuscation.AlternatingIff | pkg/transport/obfs.go:106-154 | Every sequence of rounds of one message each way, from cursor 0, works, with the cursors meeting after each round, if and only if the key is unchanged by turning it by four; such keys work from any common cursor. |
| Deobfuscation.CrossingIff | pkg/transport/obfs.go:121-145 | Reading back after one's own write what the peer wrote at the same time works for all messages if and only if all key bytes are equal. |
| Reconnect.TokensBounded | pkg/client/client.go:364-399 | Attempts still short of setting the flag, plus one if it is set, never outnumber the outside calls of Connect, for any number of racing loops. |
| Reconnect.OverlapFreeIff | pkg/client/client.go:94-178 | In every run, up to any state: no two attempts overlap, and none runs beside an established connection, if and only if each outside call of Connect was made when nobody was connected, connecting or about to. |
| Reconnect.AttemptsNeverOverlap | pkg/client/client.go:364-399 | With one outside call, at most one attempt is under way, and none while the flag is set. |
| Reconnect.WinnersAlternate | pkg/client/client.go:364-378 | Between two reports that start a reconnection, an attempt has set the flag: one loss, one reconnection. |
| Reconnect.LossIsFollowedUp | pkg/client/client.go:364-399 | In every run, once a report has found the flag set, some goroutine reconnects or is about to, however many attempts fail, until one of them sets the flag, AutoReconnect is off, or a loop goes round after cancelling. |
| Reconnect.CanReconnect | pkg/client/client.go:381-399 | From every reachable state in which a goroutine reconnects and nothing is cancelled, the run can go on to where the flag is set again. |
| Reconnect.LossCanBeNoticed | pkg/client/client.go:282-299 | From every reachable state with the flag set, a loop can be started whose report wins, and somebody then reconnects. |
| Reconnect.EndedForGood | pkg/client/client.go:364-399 | A goroutine that has set the flag, found it down, handed over, left, failed outside the loop, or found the context cancelled never acts again. |
| Reconnect.DisconnectSilencesReports | pkg/client/client.go:364-407 | After Disconnect has cleared the flag, no report starts a reconnection until an attempt sets it again. |
| Reconnect.CancelStopsLoops | pkg/client/client.go:381-416 | After Disconnect has cancelled the context, a reconnecting loop ends the next time it goes round. |
| Reconnect.TwoCallsOverlap | pkg/client/client.go:94-178 | With two outside calls two attempts can be under way at once. |

## Left out

- AddressPool.IPPool.Allocate: prefixes of 0 and 32 bits are not modelled; the program's size is 0 for the one (the shift leaves the word) and divides by zero for the other. The program itself only uses 10.8.0.0/24.
- AddressPool.IPPool.Release: the pool keys addresses by their dotted text; the model uses the address itself, taking the text to be one-to-one.
- Server.Server.TunReadLoop: is stated for stretches in which no handler enters or leaves the map; Server.Server.Visit and the steps of module Sessions cover what happens in between.
- Server.Server.LinkJoins: that each handler has its own connection and keys is read off the code.
- Tunnel.Endpoint.Send: writes of several goroutines to one connection are taken to be atomic; the websocket library does not promise this.
- Deobfuscation.OneWayIff: gives both ends one key. The client and the server each build a transport with a random key of their own (pkg/client/client.go:77, pkg/server/server.go:140, pkg/transport/obfs.go:36) and nothing calls SetKey, so as configured the two ends have different keys.
- Handshake.TunnelIsTransparent: holds for the message-preserving websocket transport; a QUIC stream does not keep message boundaries, and the obfuscating transport is treated separately.
- Reconnect.AttemptsNeverOverlap: covers the flag, not the loops of earlier connections that share the connection field.
- The TUN devices, routes and name servers of pkg/tun/tun.go: operating-system effects.
- Dialling, listening and accepting in all transports, and pkg/transport/quic.go: thin layers over libraries.
- The inside of X25519, HKDF, SHA-256, ChaCha20-Poly1305 and TLS, and all claims of secrecy, authenticity and key quality.
- Closing connections and stopping the server: they show as refused writes and as connections with nothing more to read.
- Timers, logging, the last-seen time, command-line parsing, scripts, and cutting the port off the server's name.
