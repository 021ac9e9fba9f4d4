# A verified model of the xcryptossh protocol core

xcryptossh is an SSH stack (RFC 4251 to RFC 4254) in Go with idle timers on its channels.
This project models its protocol machines and codecs in Dafny and proves what they promise over
every input, every run or every reachable state.

| files | what they model |
|---|---|
| `Options`, `Bytes`, `Arithmetic`, `Sequences`, `Packets` | missing values, octets, remainders, slices, what the packet ciphers share |
| `Mpint`, `Messages`, `Certs` | multiple-precision integers, schema-driven marshalling, certificate option maps |
| `Endpoint`, `FlowControl`, `FlowRuns` | one end of a channel as step functions, two ends joined by two FIFO wires, and how a run can be continued |
| `SharedPackets`, `EarlyEof`, `Stalled` | what goes wrong when Writes of one code overlap, when CloseWrite overlaps a Write, and when nobody reads a code |
| `Buffer`, `Channel`, `Dispatch` | the linked read buffer, the send window and the channel object, updated in place, and how a packet's octets lead to a channel |
| `Handshake`, `Rekey`, `StuckExchange`, `HandshakeTransport` | one side of rekeying as step functions, two sides on a connection, a run that gets stuck, and the object with its counters and queue |
| `StreamCipher`, `GcmCipher`, `CbcCipher` | the three packet ciphers, readers and writers |
| `KeyMaterial`, `Algorithms`, `Kex` | key derivation, negotiation, Diffie-Hellman |
| `ServerAuth`, `AuthReplies` | the authentication loop and its cache, and what a client hears for the octets it sends |
| `Mux`, `IdleTimer`, `Keyring` | the channel registry and dispatch loop, the idle timer, the agent's keyring |

Concurrency is modelled by interleaving: goroutines become steps of a machine, split wherever the source
lets go of a lock or touches a shared word, and a result about "every run" ranges over every sequence of
such steps. Ciphers, hashes, MACs, signatures and callbacks are arbitrary functions, with only the
inverse and size laws written in their `Valid` predicates. Clocks, random padding and secret exponents
are parameters.

Where the code does not do what its documentation or a natural reading promises, the model keeps the code
and states the exact condition:

- Writes of one code that overlap share the packet kept for that code. The results on two ends hold in every run in
  which no Write is begun on a code before the last one on it has returned. Otherwise, from any state with a packet of two
  bytes or more kept, the peer may be sent a packet of the wrong length, or one Write's bytes twice and the other's
  never (`FlowControl.HonestEndsNeverFault`, `SharedPackets.OverlapCanFault`, `SharedPackets.OverlapCanCorrupt`,
  `SharedPackets.OverlapCanGarble`).
- An end of file may be reported before everything is written when CloseWrite overlaps a Write, and it can be whenever that
  Write will be able to send a byte (`FlowControl.EofIsComplete`, `EarlyEof.OverlapCanEndEarly`,
  `EarlyEof.OverlappedEofIsEarly`).
- Bytes on extended codes above 1 are charged and never credited; a channel in use is stuck for good exactly when all of
  the window is lost to them or on its way there (`Stalled.StalledIff`, `Stalled.StallHappens`).
- A key exchange gets stuck exactly when a layer above stops reading, its incoming channel of sixteen packets is full
  in front of the peer's KEXINIT, and no request for an exchange is pending (`Rekey.ExchangeStuckIff`, `StuckExchange.ExchangeSticks`).
- A Write of 2^32 bytes or more never ends (`Channel.LongWriteNeverEnds`).
- Empty packets, and packets that fit only without their padding, are written but refused by the reader; the
  GCM and CBC writers panic on packets whose length with padding does not fit in 32 bits (`ReadInvertsWrite` of each
  cipher). The CBC writer also panics when its length with the MAC does not and its buffer happens to be too small
  (`CbcCipher.WritableIff`, `CbcCipher.CapacityTooSmall`). The GCM reader indexes out of range on two families of
  packets that a peer can send (`GcmCipher.ReadPanicsIff`).
- Both roles give their writer the client-to-server choice, so the two ends' keys match exactly when both directions
  chose the same cipher and, unless it is AES-GCM, the same MAC (`Algorithms.MatchedIffChoicesAlike`, `Algorithms.UnlikeDirections`).
- AttemptOK reads the clock before it stores it, so an older success may be stored over a newer one; a timer at rest can
  raise a timeout that was not earned exactly when that has happened to a success within the attempt
  (`IdleTimer.FalseTimeoutIff`, `IdleTimer.FalseTimeout`).
- Setting the same duration on an idle timer that has fired does not arm it again; turning off an active
  timer reads back as the value given and not as 0 (`IdleTimer.SetArmsIff`, `IdleTimer.FiredStaysDisarmed`).
- A key whose time is exactly now has not expired, although the comment says it has. Expiring a key also removes entries of the same public key that have not expired (`Keyring.ExpireExact`).
- With 2^32 slots in the channel registry at once no channel is found any more (`Mux.TooManySlots`).
- Strings are read back exactly when they are shorter than 2^32 octets and what follows does not hide them from
  a length test made in 32 bits (`Messages.UnmarshalInvertsMarshal`, `Certs.ParseInvertsEncode`).
- A name list comes back changed exactly when it is `[""]` or a name holds a comma, and a certificate
  option with an embedded empty string is not re-emitted identically (`Messages.ParseJoinNames`,
  `Certs.EncodeInvertsParse`).

`dafny verify dfyconfig.toml` checks the whole project.

## Model

| member | source | states |
|---|---|---|
| FlowControl.WindowConserved | channel.go:347-495 | in every reachable state of two ends, window + reserved + in flight + buffered + uncredited + credit in flight + discarded is the initial window, per direction, and a receiver's own ledger balances too |
| FlowControl.HonestEndsNeverFault | channel.go:409-445 | two ends that follow the source and do not overlap Writes of one code never cause an over-full window, an oversized packet, a wrong packet length or an overflowing window update |
| Endpoint.FaultIff | channel.go:409-627 | whatever a peer sends, however it came to that, the mux loop gives up exactly for these reasons |
| Endpoint.WriteFails | channel.go:372-395 | a Write that finds the window closed or a close sent returns, sends nothing and loses the window it took |
| Endpoint.Sizes | channel.go:19-27 | packets of 32 kB and a window of sixty-four of them |
| FlowControl.OrderedDelivery | channel.go:372-400 | for standard output and error separately, what was read is always a prefix of what the peer sent, as long as its Writes of one code do not overlap |
| FlowControl.EofIsComplete | buffer.go:76-124 | end of file means everything the peer sends in any continuation of the run was read, unless its CloseWrite overlapped a Write |
| FlowControl.StepPool | channel.go:365-404 | as long as Writes of one code do not overlap, every step keeps each writer's packet its own, and a packet that is filled in says what its writer is about to send |
| SharedPackets.OverlapCanFault | channel.go:365-370 | from every state with a packet of two bytes or more kept and two free writers, overlapping Writes of one code can make the peer fail with a wrong packet length |
| SharedPackets.OverlapCanCorrupt | channel.go:365-394 | or, without any failure, deliver one Write's byte twice and the other's never |
| SharedPackets.OverlapCanGarble | channel.go:365-394 | or, under a transport that encrypts in place, send a packet that the peer cannot read |
| SharedPackets.OneWriteDone | channel.go:402-404 | such a state is reached by one Write of two bytes |
| EarlyEof.OverlapCanEndEarly | channel.go:347-407 | every CloseWrite, before a close, during a Write of standard output or error that holds window, or that finds some now or after the peer's credit, has a continuation in which the reader is told of the end and bytes of that Write follow |
| EarlyEof.OverlappedEofIsEarly | channel.go:719-726 | a reachable run in which an overlapping CloseWrite leaves an end of file incomplete |
| Stalled.StalledForever | channel.go:448-454 | once all of the window was dropped, or is in flight or held, on codes above 1, or was lost to a close, no continuation sends another byte on standard output or error |
| Stalled.StalledIff | channel.go:448-454 | on a channel that neither end has closed, with a free writer and a reader, that happens exactly then; otherwise some continuation sends a byte |
| Stalled.StallHappens | channel.go:448-454 | a reachable state in which it has happened |
| FlowRuns.Refill | channel.go:469-495 | on an open channel that is read, some continuation brings back all window that is not lost or held |
| FlowRuns.ReachableSettled | common.go:355-398 | in every reachable state a window is closed exactly when the peer's close has come, and a Write holds no window only with a multiple of 2^32 bytes left |
| FlowControl.RunKeepsInv | mux.go:313-397 | the whole invariant (windows, order, one open, one close, EOF last, limits, packets) is kept by every run without overlapping Writes of one code |
| FlowControl.ReceiveWithoutFault | channel.go:540-627 | whatever is next on the wire is acceptable to its receiver |
| FlowControl.StepBalances | channel.go:458-495 | every step of either end keeps both window ledgers |
| Buffer.Buffer.Write | buffer.go:46-54 | appends the slice to the linked list's contents |
| Buffer.Buffer.Read | buffer.go:76-124 | returns the longest prefix that fits and leaves the rest; end of file only when empty and closed |
| Channel.JudgeInvertsEncode | channel.go:409-456 | a data packet with any announced length and any data is taken, charged and refused exactly as the endpoint machine does |
| Channel.Window.Add | common.go:322-341 | adds exactly when the sum fits in 32 bits, and is otherwise refused without effect |
| Channel.AddIffFits | common.go:322-341 | the wrap-around test of the endpoint machine decides just that |
| Channel.Window.Reserve | common.go:355-398 | fails on a timeout or halt at entry or on an empty open window; otherwise takes the smaller of what is wanted and what is there, also on a closed window |
| Channel.ChunkProgress | channel.go:227-232 | an iteration reserves nothing exactly when the remaining length is a multiple of 2^32 |
| Channel.LongWriteNeverEnds | channel.go:347-407 | from 2^32 bytes on, no sequence of iterations gets below 2^32 |
| Channel.Channel.WritePacket | channel.go:320-333 | nothing goes out after a close, and a close is remembered |
| Channel.Channel.WriteExtended | channel.go:347-407 | after any number of iterations the packets sent carry a prefix of the data in order, each with type 94 or 95, the peer's channel number, the code if any and its own length, none too large; the count is that prefix; the window taken is accounted for; below 2^32 bytes none is empty and the call ends, from there on it never succeeds |
| Dispatch.WriteReachesChannel | mux.go:260-273 | in every run of the peer's mux, each packet of a Write is taken to the live channel whose number the writer was given and to no other, and is taken there with its code and bytes if it fits |
| Dispatch.RoutesExact | mux.go:252-267 | types 80 to 82 are global, 90 opens a channel, the rest go to the channel in the next four octets or are too short |
| Channel.EncodedIsAdjustment | channel.go:335-343 | an adjustment is type 93, the channel number and the credit, in that order |
| Channel.MalformedIff | channel.go:409-419 | a data packet is malformed exactly when it is shorter than its header |
| Channel.Channel.HandleData | channel.go:409-456 | takes, charges, delivers or refuses a data packet as the endpoint machine does; other codes are charged and dropped |
| Channel.Channel.AdjustWindow | channel.go:458-467 | credits the window and announces exactly that credit to the peer's channel |
| Channel.Channel.ReadExtended | channel.go:469-495 | what leaves the buffer is credited once, with one adjustment of that size; the other stream is untouched; codes above 1 are an error and change nothing |
| Rekey.ReadAsWritten | transport.go:144-210 | over any number of exchanges the next packet on a wire carries the sequence number and key its reader is about to use; no fault is reachable, the first-packet checks of readLoop and waitSession included |
| Handshake.PullFaults | transport.go:144-188 | a packet is read exactly when it carries the number and key its reader expects; a NEWKEYS needs a prepared cipher |
| Handshake.ReadFaults | handshake.go:435-465 | whatever a peer wrote: the first packet must be a KEXINIT, then only packets of the layer above and KEXINITs are in turn |
| Handshake.ExchangeFaults | handshake.go:672-684 | during an exchange exactly the message whose turn it is, and the layer above is given the session's start first |
| Rekey.AppsInOrder | handshake.go:201-243 | packets accepted are those on the wire followed by those queued; the peer received a prefix; the layer above it was given the session's start and then, by a strictly increasing choice of positions, exactly those of a prefix whose first octet is neither 2 nor 4; none accepted can be taken for a KEXINIT or NEWKEYS |
| Rekey.NoAppInClear | handshake.go:457-459 | no application packet ever goes out in the clear, and what does is what precedes the first NEWKEYS |
| Rekey.NoAppInsideExchange | handshake.go:510-595 | between a KEXINIT and the same side's next application packet or KEXINIT lies a NEWKEYS |
| Rekey.OneCipherOneReader | transport.go:81-108 | at most one prepared cipher per direction, preparing never blocks, NEWKEYS never lacks a cipher, and the two loops never both read |
| Rekey.SessionIsFirst | handshake.go:667-670 | the session identifier is set once and is the same on both sides |
| Rekey.ExchangeStuckIff | handshake.go:215-326 | while an exchange is under way no loop of either side can move exactly when one side delivers into a full incoming channel, the other does too or has nothing left to read, and neither kexLoop has a request to serve |
| Rekey.ExchangeMovesWhenServed | handshake.go:201-213 | then a layer above has a packet to take, and taking it lets its readLoop move |
| StuckExchange.ExchangeSticks | handshake.go:215-243 | a reachable run that gets stuck |
| Rekey.RunKeepsInv | handshake.go:435-507 | the invariant that ties both logs, ciphers, transcripts and loop positions is kept by every run |
| Rekey.SameKey | handshake.go:601-685 | both sides' n-th exchange yields the same key |
| HandshakeTransport.FlushAllSends | handshake.go:370-383 | flushing sends exactly the queue, in order, under consecutive sequence numbers and the current key |
| HandshakeTransport.HandshakeTransport.WritePacket | handshake.go:556-595 | refuses types 20 and 21; queues during an exchange; otherwise sends, counts, and asks for an exchange exactly when the packets since the last reset have used up the byte limit or number 2^31 |
| HandshakeTransport.HandshakeTransport.SendKexInit | handshake.go:510-553 | one KEXINIT per exchange |
| HandshakeTransport.HandshakeTransport.PushPacket | transport.go:190-210 | one sequence number per packet, and the prepared cipher replaces the old one after NEWKEYS |
| HandshakeTransport.RequestIffUsedUp | handshake.go:578-588 | after a reset to some limit the byte counter has run out exactly when the lengths written since add up to the limit |
| HandshakeTransport.RekeyLimits | common.go:109-121 | 2^32 blocks of 16 octets for the five AES modes, 2^30 octets for any other cipher |
| HandshakeTransport.HandshakeTransport.FinishExchange | handshake.go:340-383 | counters start again at the configured limit or that of the agreed cipher, and everything queued goes out in order before any new write |
| StreamCipher.PaddingLaw | cipher.go:231-239 | section 6 of RFC 4253: at least four octets, the fewest that fill whole blocks |
| StreamCipher.ReadInvertsWrite | cipher.go:149-218 | a written packet is read back with both keystream positions equal exactly when it is not empty and fits with its padding; otherwise which error it is |
| StreamCipher.WrittenOctets | cipher.go:221-298 | octet by octet: length, padding length, payload and padding under the keystream from its position on, the length in the clear for encrypt-then-MAC; then the MAC of the sequence number and the clear packet, or the packet as sent |
| StreamCipher.NumberMatters | cipher.go:197-212 | read under another sequence number, a written packet passes exactly when the MAC is the same there, and else is a MAC failure |
| StreamCipher.ReadAllInvertsWriteAll | cipher.go:149-298 | the same for any list of packets, in both MAC layouts |
| StreamCipher.SealInPieces | cipher.go:265-298 | encrypting header, payload and padding one after the other is encrypting the packet at once |
| Bytes.XorIsBitwise | cipher.go:267-286 | the keystream is combined bit by bit, a bit being set where the operands differ |
| Packets.Limits | cipher.go:28-33 | packets are at most 256 kB, and sequence number 2^32 - 1 is followed by 0 |
| StreamCipher.StreamPacketCipher.WritePacket | cipher.go:221-298 | the in-place writer produces those octets and advances the keystream past them |
| StreamCipher.StreamPacketCipher.ReadPacket | cipher.go:149-218 | the in-place reader checks and returns as specified |
| GcmCipher.CarryIsPlusOne | cipher.go:360-367 | the carry is addition of one modulo 256^n, for any length |
| GcmCipher.IncIvCounts | cipher.go:360-367 | plus one modulo 2^64 on octets 4 to 11, the fixed field kept |
| GcmCipher.IvNeverRepeats | cipher.go:326-358 | no two packets fewer than 2^64 apart share an IV |
| GcmCipher.IncIV | cipher.go:360-367 | the loop does that in place |
| GcmCipher.PaddingLaw | cipher.go:327-334 | at least four octets, the fewest that make the encrypted part whole blocks |
| GcmCipher.UnpadPanics | cipher.go:392-405 | the authenticated packets on which the reader indexes out of range, exactly |
| GcmCipher.UnpadRefuses | cipher.go:392-403 | which padding is refused, and why |
| GcmCipher.ReadPanicsIff | cipher.go:369-405 | of all packets a peer can seal, the reader panics on exactly the empty one and those below 256 octets that announce 255 of padding |
| GcmCipher.ReadInvertsWrite | cipher.go:326-406 | the writer panics exactly when the length does not fit in 32 bits; otherwise the packet is read back with both IVs equal exactly when it is not empty and fits with its padding, and which error it is if not |
| GcmCipher.WrittenOctets | cipher.go:326-358 | octet by octet: the length in the clear and authenticated, then padding length, payload and padding sealed under the IV, 16 octets longer |
| GcmCipher.ReadAllInvertsWriteAll | cipher.go:326-406 | the same for any list, the IV stepping once per packet |
| GcmCipher.GcmPacketCipher.WritePacket | cipher.go:326-358 | produces that packet and steps the IV, unless it panics |
| GcmCipher.GcmPacketCipher.ReadPacket | cipher.go:369-406 | reads as specified; the IV stays on short reads and on authentication failure and steps on refused padding |
| CbcCipher.DecryptInvertsEncrypt | cipher.go:622-622 | chained decryption undoes chained encryption |
| CbcCipher.DecryptInPieces | cipher.go:513-558 | decrypting the first block and then the rest is decrypting at once |
| CbcCipher.PaddingLaw | cipher.go:576-585 | at least four octets of padding, the fewest that fill whole blocks, at least sixteen octets in all |
| CbcCipher.RefusalsConsumeAlike | cipher.go:485-497 | whichever check refuses a packet, the reader has consumed the smaller of the input and maxPacket + 4 + the MAC's size |
| CbcCipher.HeaderErrors | cipher.go:514-533 | which check refuses a header, in this order: size, block length, padding |
| CbcCipher.FitsIff | cipher.go:576-608 | the buffer length computed in 32 bits holds header and payload exactly when no sum exceeds 32 bits |
| CbcCipher.WritableIff | cipher.go:586-608 | the buffer can be made or sliced exactly when, moreover, length and MAC stay below 2^32 or the capacity holds the packet and does not ask for a new buffer |
| CbcCipher.CapacityTooSmall | cipher.go:588-593 | a packet of 2^32 - 25 octets on a new cipher, whose buffer size wraps to four |
| CbcCipher.ReadInvertsWrite | cipher.go:499-629 | for any capacity, the writer panics exactly when that fails; otherwise the packet is read back with both chaining values equal exactly when it is not empty and fits with its padding, and which error it is if not |
| CbcCipher.WrittenOctets | cipher.go:594-627 | octet by octet: length, padding length, payload and padding encrypted as a chain, then the MAC of the sequence number and the unencrypted packet; the chain goes on from the last block |
| CbcCipher.NumberMatters | cipher.go:559-569 | read under another sequence number, a written packet passes exactly when the MAC is the same there, and else is a MAC failure |
| CbcCipher.ReadAllInvertsWriteAll | cipher.go:499-629 | the same for any list of packets, whatever the capacities |
| CbcCipher.CbcPacketCipher.WritePacket | cipher.go:575-629 | produces that packet, moves the chaining value on and leaves the buffer with the capacity made, kept or grown, unless it panics; the buffer always holds a first block |
| CbcCipher.CbcPacketCipher.ReadPacketLeaky | cipher.go:499-573 | reads as specified; octets read and camouflage left always add up to the limit, so the counter never underflows; the buffer is made anew only when it is too small for a packet whose header passed |
| CbcCipher.CbcPacketCipher.ReadPacket | cipher.go:485-497 | adds the extra reading after verification errors only |
| Mpint.ParseEncodeString | messages.go:511-529 | a string survives the trip exactly when it is shorter than 2^32 and the truncated length test still sees all of it; otherwise nothing or a shorter string is read |
| Mpint.IntValueIsTwosComplement | messages.go:548-570 | the parsed value is the two's complement value of the octets |
| Mpint.ParseIntInvertsEncodeInt | messages.go:548-570 | parsing inverts marshalling for every integer, exactly when the contents survive as a string |
| Mpint.IntContentsShortest | messages.go:621-666 | no shorter contents have the same value (section 5 of RFC 4251) |
| Mpint.IntLengthExact | messages.go:586-609 | intLength is the number of octets marshalInt produces |
| Mpint.MarshalInt | messages.go:621-666 | the in-place writer, with its complement loop, produces that encoding |
| Messages.ParseJoinNames | messages.go:531-546 | a name list survives exactly when no name holds a comma and the list is not one empty name |
| Messages.JoinOctets | messages.go:468-482 | names are joined by the octet 44 |
| Messages.UnmarshalInvertsMarshal | messages.go:300-416 | for every schema and value of any length, exactly when the encoding is not empty, the tag is not 0, the name lists survive and every length can be counted in 32 bits |
| Messages.FitWhenSmall | messages.go:511-529 | below 2^32 octets in all, only name lists can fail |
| Messages.UnmarshalTyped | messages.go:300-416 | whatever the octets, what unmarshals has the schema's types |
| Messages.UnmarshalErrors | messages.go:300-416 | why a packet is refused: its type, then a field that is not all there, then what is left over |
| Messages.MarshalInjective | messages.go:428-507 | two structures that survive and have the same octets are equal |
| Messages.MarshalEqualIff | messages.go:428-507 | below 2^32 octets, structures share their octets exactly when they differ only in how name lists cut the same text |
| Messages.MarshalStruct | messages.go:428-507 | the loop over fields produces that encoding |
| Messages.UnmarshalStruct | messages.go:300-416 | the loop over fields parses as specified, error by error |
| Messages.SignedDataBinds | common.go:252-273 | the data signed for authentication determines session, user, service, method, algorithm and key |
| Messages.SignedOctets | common.go:252-273 | its octets, in the order of section 7 of RFC 4252 |
| Certs.AscendingUnique | certs.go:101-108 | a set of names has one ascending listing |
| Certs.SortKeys | certs.go:101-108 | the keys of the map, each once, strictly ascending |
| Certs.ParseInvertsEncode | certs.go:121-158 | an option map of any length comes back exactly when every string can be counted in 32 bits, as below 2^32 octets in all |
| Certs.EncodeInvertsParse | certs.go:121-158 | what parses is re-emitted identically exactly when no value holds an embedded empty string |
| Certs.MarshalTuples | certs.go:101-117 | the loop over sorted keys produces that encoding, which comes back under just that condition |
| Certs.UnmarshalTuples | certs.go:121-158 | the parsing loop, with its ordering check, parses as specified |
| KeyMaterial.MaterialOfMore | transport.go:303-326 | key material is the beginning of K1, K2, ... however many digests are made (section 7.2 of RFC 4253) |
| KeyMaterial.MaterialPrefix | transport.go:303-326 | a longer key begins with the shorter one |
| KeyMaterial.DigestOctets | transport.go:303-326 | K1 hashes K, H, the tag and the session identifier, K(n+1) hashes K, H and K1 to Kn, in that order |
| KeyMaterial.TagsSeparate | transport.go:248-251 | two tags never hash the same first input |
| KeyMaterial.GenerateKeyMaterial | transport.go:303-326 | the loop fills its slice with that material |
| Algorithms.CommonIsChosen | common.go:91-100 | the choice is the first of the client's names that the server lists, and there is one exactly when a name is shared |
| Algorithms.FindCommon | common.go:91-100 | the nested loops find it, or report that no name is shared |
| Algorithms.AgreedIsChosen | common.go:130-174 | agreement means that choice in each of the eight lists, and the other way round |
| Algorithms.OfferOctets | messages.go:58-72 | the octets of a KEXINIT: 20, cookie, ten name lists in the order of section 7.1 of RFC 4253, flag, reserved word |
| Algorithms.SentOfferOctets | handshake.go:521-540 | those of an offer as sendKexInit builds it |
| Algorithms.FindAgreedAlgorithms | common.go:130-174 | one search after another, with the first failure reported |
| Algorithms.BothEndsConclude | handshake.go:601-630 | each end, from its own offer and the other's packet, concludes the same |
| Algorithms.MatchedIffAlike | transport.go:81-108 | readers match the other end's writers exactly when both directions chose the same cipher and, unless it is AES-GCM, the same MAC |
| Algorithms.Letters | transport.go:245-268 | towards the server the letters A, C and E, from it B, D and F, for IV, key and MAC key of the agreed algorithms' sizes; no MAC key for AES-GCM |
| Algorithms.ConfiguredEndsMatch | handshake.go:521-538 | with offers as sendKexInit builds them, agreeing ends always match in algorithms, IV and keys |
| Algorithms.MatchedIffChoicesAlike | common.go:143-171 | on the offers: agreeing ends match exactly when the choices for the two directions are the same for ciphers and, unless that is AES-GCM, for MACs |
| Algorithms.UnlikeDirections | common.go:143-171 | a sendable offer of another client and an offer of this server, of names both know, that both ends agree on and that leaves them unmatched |
| Kex.SecretsMeet | kex.go:84-89 | (g^x)^y and (g^y)^x agree modulo p |
| Kex.EndsAgree | kex.go:91-209 | each end succeeds exactly when the other's public value is in bounds, and then both hold the secret g^(xy) mod p, the hash of versions, offers, host key, g^x, g^y and secret in this order, the host key and its signature of the hash; and the octets of both messages |
| Kex.TranscriptOctets | kex.go:61-66 | the exchange hash covers V_C, V_S, I_C, I_S, K_S, e, f and K in the order of section 8 of RFC 4253 |
| Kex.TranscriptBinds | kex.go:61-66 | the exchange hash covers octets that determine versions, offers, host key, public values and secret |
| Kex.MalformedIff | kex.go:108-161 | a message is refused as malformed exactly when it does not parse |
| ServerAuth.PubKeyCache.Get | server.go:137-144 | the first entry for that user and key, or none |
| ServerAuth.PubKeyCache.Add | server.go:147-151 | forgets nothing, stays sound and within sixteen entries, and knows the candidate unless it was full |
| ServerAuth.PubKeyCache.Candidate | server.go:417-428 | the verdict is the callback's and the address check's, cached or not, and the cache stays sound |
| ServerAuth.ServerAuthenticate | server.go:311-511 | with the cache, the replies, the log, the count and the result are those of asking the callback every time |
| ServerAuth.SuccessIffJustified | server.go:348-474 | a turn lets a user in exactly when its method justifies it; for a public key: the callback accepted, the address is allowed, and the signature covers this session and request |
| ServerAuth.AuthenticatedIff | server.go:311-511 | a run lets a user in exactly when some request justifies it and every turn before it was answered or refused with the refusals below the limit |
| ServerAuth.FailuresBounded | server.go:319-330 | at every loop head the count is the attempts after the leading "none" attempts and within 0 and MaxAuthTries; the server gives up exactly at the limit |
| AuthReplies.RepliesExact | server.go:318-511 | in every run the requests are answered one by one, that the key is fine exactly for a query of a key that suits, else with a failure, and then the run waits, disconnects, stops without a word or lets in a user with a request that justifies it |
| AuthReplies.KeyOkIff | server.go:386-447 | a turn says that a key is fine exactly when the packet is octet for octet a query for that algorithm and key by a user whom the callback accepts with it from an allowed address |
| AuthReplies.QueryAnswered | server.go:386-447 | what every query is answered: fine, or a refused attempt with the callback's or the address check's error |
| AuthReplies.SignedAnswered | server.go:448-469 | a signed request is settled by that verdict if the signature is good for exactly the octets of section 7 of RFC 4252 |
| AuthReplies.KeyMalformedIff | server.go:391-456 | a public key request ends the authentication as malformed exactly when its payload has not this form, octet for octet |
| AuthReplies.PasswordAnswered | server.go:362-377 | a password request is FALSE, a password and nothing else, settled by the callback |
| AuthReplies.OthersAnswered | server.go:352-361 | "none", the dialogue and unknown methods |
| AuthReplies.TurnOfOther | server.go:333-341 | octets that are no request end the authentication |
| AuthReplies.RequestIff | server.go:333-341 | a packet is a request exactly when it has the octets of section 5 of RFC 4252 |
| AuthReplies.AcceptableNames | server.go:255-262 | six algorithms are looked at and, for all but Ed25519, their certificates |
| AuthReplies.MethodsOffered | server.go:487-496 | a failure names exactly the configured methods, in order |
| Mux.SlotOfId | mux.go:52-61 | identifiers and slots correspond one to one under any offset, in 32 bits |
| Mux.ChanList.Add | mux.go:38-49 | takes the first free slot, or a new one |
| Mux.ChanList.GetChan | mux.go:52-61 | what is in the identifier's slot |
| Mux.ChanList.Remove | mux.go:63-70 | empties the identifier's slot only |
| Mux.ChanList.DropAll | mux.go:73-86 | returns what was live, in order, and forgets it |
| Mux.RunsAreSafe | mux.go:205-274 | in every run no channel's queues are used or closed again once closed, an open is answered at most once, and getChan finds exactly the live channel with that identifier |
| Mux.PacketDoes | channel.go:540-627 | in every run a packet for a live channel either ends the loop, for exactly these reasons, or does to that channel and no other exactly what its type says |
| Mux.OpeningAdds | mux.go:313-350 | in every run an opened channel is new, live under a number no live channel has, and the peer's exactly when the peer opened it |
| Mux.FirstRequest | mux.go:205-274 | the loop starts empty and reading: the first request for the first channel is handed over |
| Mux.LoopSteps | mux.go:205-274 | a read that timed out changes nothing; other failures and packets for no channel end the loop |
| Mux.ResumeDoes | channel.go:546-575 | what was begun is finished: a close closes the channel, a refused open is answered, and after the loop every channel is closed in turn |
| Mux.LiveIdsDistinct | mux.go:38-49 | live channels have distinct identifiers |
| Mux.EndedClosesAll | mux.go:220-222 | when the loop has ended every channel ever made is closed, except those whose open the peer refused and those made after the registry was emptied |
| Mux.TooManySlots | mux.go:52-61 | with 2^32 slots at once getChan finds nothing, and the next slot repeats an identifier |
| Mux.HandleKeeps | channel.go:540-627 | every kind of channel packet keeps the registry and queue invariant |
| IdleTimer.RaisedIsEarned | idle.go:123-194 | in every interleaving in which no older success is stored after a newer one, a raised timeout names an attempt begun since the last set that outlasted the limit and is newer than every success stored when the timer looked; in every interleaving a heartbeat implies a positive duration and nothing raised |
| IdleTimer.FalseTimeoutIff | idle.go:151-152 | in every interleaving, a timer at rest can raise a timeout that is not earned exactly when the success stored last is older than the attempt and one stored before is not |
| IdleTimer.FalseTimeout | idle.go:151-152 | a run in which that happens |
| IdleTimer.HeartbeatExact | idle.go:177-194 | an undisturbed heartbeat raises exactly when the attempt stored last since the last set is too old and newer than the success stored last |
| IdleTimer.RaisedStays | idle.go:295-300 | however a run goes on, a raised timeout stays until a duration is set |
| IdleTimer.StoppedStays | idle.go:277-278 | after a stop nothing is raised or withdrawn any more |
| IdleTimer.CallbacksKnown | idle.go:286-290 | adding a callback keeps the others, setting one forgets them |
| IdleTimer.SetArmsIff | idle.go:295-352 | when setting a duration arms the timer, exactly, what it reads back as, and whether the start is reset twice |
| IdleTimer.SetForgets | idle.go:320-331 | a new duration forgets every attempt stored before it is in force, also between its two resets |
| IdleTimer.StoreTakesOne | idle.go:124-153 | a call stores its own time once and leaves other calls alone |
| IdleTimer.FiredStaysDisarmed | idle.go:302-307 | a timer that has fired never fires again while only its own duration is set |
| IdleTimer.SameDurationDoesNotRearm | idle.go:302-307 | a run in which that happens |
| IdleTimer.PanicIff | idle.go:328-328 | the steps that panic: a ticker for less than ten nanoseconds, or a timeout with no callback |
| IdleTimer.Idle.SetIdleTimeout | idle.go:295-352 | the branches of a set request do that to the fields |
| IdleTimer.Idle.Heartbeat | idle.go:354-390 | raises, disarms, and panics without callbacks |
| Keyring.RemoveSweeps | agent/keyring.go:55-72 | removal takes out every entry with the key and no other, with multiplicity, and reports whether there was one |
| Keyring.RemoveOnlyHoles | agent/keyring.go:55-72 | the backing array changes only where the key stood |
| Keyring.ExpireSweeps | agent/keyring.go:117-123 | although removal rewrites the array being ranged over, what has expired goes, a key goes only for an expired entry, and the rest stays |
| Keyring.ExpireExact | agent/keyring.go:117-123 | at one instant, an entry stays exactly when no entry of the same key has a time that is past |
| Keyring.Ring.RemoveLocked | agent/keyring.go:55-72 | the in-place loop does that |
| Keyring.Ring.ExpireKeysLocked | agent/keyring.go:117-123 | the loop over the original length does that |

## Left out

- Channel requests, global requests and Reject: plumbing over the same queues, with easier claims.
- The octets of the authentication server's replies: the model says which reply is sent, with which key or methods.
- An empty packet given to writePacket of the handshake layer: a panic of the source, no step of the machine.
- Sockets, contexts, halters, goroutine shutdown: they appear as steps of the environment or as early returns, and no claim is made about what is reachable only through them.
- `writeWaiters` of the window: the timeout path skips its decrement, and nothing else depends on it.
- Liveness and write timeouts: only when a key exchange can be stuck is proved.
- Rekeying after a failed exchange or a failed write: the machine has no such steps.
- Disconnect messages: in the rekeying machine they are packets like others, and do not end the connection.
- `FirstKexFollows`: neither side of the rekeying machine sends it, as in the source.
- Read thresholds and the timing of rekey requests: a request for an exchange may come at any time.
- The crypto primitives, ECDH and curve25519 exchanges, ASN.1 and PEM: arbitrary functions where needed, otherwise not part of this model.
- `session.go`, `tcpip.go`, `streamlocal.go`, `client.go`, `connection.go`, the agent's client, server and forwarding, `terminal/`, `knownhosts/`, text key parsing: not part of this model.
- The keyring's locking, listing and signing: easy members over the two loops that are modelled.
- The retry loop for a non-zero secret exponent: the exponent is a parameter, and the results hold for zero too.
- checkSourceAddress: any function of the restriction; its parsing of addresses is library code.
- Writing replies in serverAuthenticate: a failed write, which ends the loop, is not a step.
- Channel.Channel.WriteExtended: one call at a time, without the packet kept between calls; writers taking turns at the same window, and their packets, are in the endpoint machine, not in this method.
- The octets of a packet that the transport has encrypted in place before another Write sends it: the endpoint machine says only that they cannot be read.
- Unknown cipher or MAC names in `generateKeys`, a nil dereference: the sizes of an algorithm are any function of its name.
- Mux.RunsAreSafe: a channel is made only while fewer than 2^32 - 1 slots are in use or free; beyond that the claims are false (`Mux.TooManySlots`). Slots are reused, so any number of channels may be made over time.
- IdleTimer.RaisedIsEarned: a success whose time was read but not yet stored when the timer looked does not count, and one-shot timers end as a Stop.
- IdleTimer.Idle.SetIdleTimeout: the two resets are one step here; the interleaved machine separates them.
- ServerAuth.ServerAuthenticate: the keyboard-interactive dialogue is an input that says what it would conclude.
