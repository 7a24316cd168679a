# Azure RTOS device sample: models and proofs

This project models the parts of the repository that carry state and arithmetic, and proves
what their callers rely on.  One module stands for one source file or component.

| modules | what they model |
|---|---|
| `Segments`, `PoolLayout`, `Packets`, `PacketAppend`, `PacketAdjust`, `PacketCopy` | NetX packet pools and packet chains: packet objects with buffers, next, last and queue links, and a free list per pool |
| `Octets`, `Fips180`, `Sha256`, `ShaExample`, `Hmac`, `Base64`, `SasToken` | the hash, MAC and encodings behind a SAS token; `Fips180` is written from FIPS 180-4, the others refer to RFC 2104, RFC 4648 and RFC 3986; `ShaExample` goes through a published digest |
| `WifiTable`, `WifiQueue`, `WifiStore`, `WifiSend`, `Wifi`, `WifiServe` | the socket table, receive queues, poll and socket calls of the WiFi driver, on the packet pool above |
| `JsonTokens`, `TwinWalk`, `TwinTree`, `TwinParse` | the walk over a device twin document |
| `Backoff`, `DeviceLoop`, `EventLoop` | the device's connection state machine and its backoff |
| `IpRing` | the circular list of IP instances |
| `AtFraming` | taking a payload out of the module's reply |
| `Options`, `Sequences` | a value that may be missing; a sequence without repetition |

The code works in place, and so does the model: packets, slots, the hash context, the JSON
reader, the device and the IP list are classes whose methods update their fields, and arrays
stand for buffers.  Each method is proved against functions or predicates on values, about
which the theorems are stated.  Ghost fields (`free`, `load`, `received`, `delivered`,
`message`, `ring`) hold the abstract value.

Conventions: a pointer into a packet buffer is an offset from its start; a socket is its
address, a number; the answers of the WiFi module, the client library and the clock are
parameters, so a theorem for all parameters covers every behaviour of theirs.  In `Wifi` one
mutex makes each call and each poll one step.  In `EventLoop` a turn lists the single writes of
callbacks that fall between any two of its accesses to shared variables, so a callback may be
cut anywhere.  `char` is taken as unsigned, as the
ARM compilers of these boards have it.

## What the proofs found

- A failed append gives back all packets, but in reversed order.  A failed copy reverses the
  packets it took, and, if it failed in an append, those it did not take as well; a read that
  cannot be stored reverses all but the first (`PacketAppend.Append`, `PacketCopy.Copy`,
  `WifiStore.Store`).
- A copy succeeds for every headroom, but its chain is well formed exactly if the source's
  prepend offset fits the destination payload (`PacketCopy.Copy`, `HeadroomBeyondHead`).
- `nx_wifi_socket_entry_find` reports a free slot for an unknown socket.  A UDP send on an
  unbound socket therefore connects an invalid slot, after which calls on other unknown sockets
  go through; no other call breaks the table (`WifiTable.StepKeepsInv`,
  `StrayLetsOthersThrough`).
- A UDP socket can be unbound exactly if a send on it was accepted since the bind
  (`WifiTable.UnbindAfterRun`); right after the bind it cannot (`UnbindNeedsConnection`).
- The wait of a receive can end early, because the time since the start of the call is taken off
  again after every read; it gets the first good reply exactly if those times add up to less
  than the wait (`Wifi.AwaitExactly`, `WaitEndsEarly`).
- The twin walk does not skip an object under "__t" or "$version".  As long as the names fit, the
  walk over a component and over the root make the right callbacks and stop in the right place
  if and only if there is no such object (`TwinTree.VisitIsComponentCalls`, `RootIsRootCalls`).
  The callbacks and status of the whole parse are right if and only if, from such an object on,
  none is made and none is due (`TwinParse.ParseExactly`); what the walk does instead is spelled
  out for every tree (`TwinTree.VisitIsActual`, `RootIsActual`).
- The event loop can stay in DISCONNECTED for good.  Under any interleaving of callbacks a turn
  leaves that state exactly if the recovery reads an error (`DeviceLoop.LeavesDisconnected`), so
  a run never leaves it if and only if every recovery reads success (`StaysExactly`).  A failure
  reported during the backoff, followed by a connect that succeeds, makes the loop disconnect the
  client while the status says success; from then on only a reported error helps
  (`FailThenRecoverIsStuck`, `Stuck`).
- A reset of the retry counter is lost exactly if it falls between the load and the store of the
  increment, none falls before, and the counter was between 1 and 7
  (`Backoff.ResetTakesEffect`, `ResetIsLost`); the bound holds all the same
  (`CountStaysBounded`).
- The decoded length of a base64 string of padding alone depends on the memory in front of it
  (`Base64.OwnPadding`).
- The module's reply is taken for data exactly if it is framed, or is one of two others that carry
  no payload: a single CR LF in front of "OK" with at least two stuffing bytes behind, and a bare
  prompt behind memory that ends like the OK string's first half
  (`AtFraming.DataExactly`, `BareOkIsMisread`, `PromptIsMisread`).

## Model

| member | source | states |
|---|---|---|
| `PoolLayout.PacketsFit` | STMicroelectronics/STM32L4_L4+/lib/netxduo/common/nx_packet_pool_create.c:90-183 | Whatever the area, the sizes and the alignment: every packet and payload is aligned and inside the area, and payloads do not overlap |
| `PoolLayout.CountExactly` | STMicroelectronics/STM32L4_L4+/lib/netxduo/common/nx_packet_pool_create.c:133-169 | A packet belongs to the pool exactly if the address behind it is within the area's end |
| `PoolLayout.CarveIsTight` | STMicroelectronics/STM32L4_L4+/lib/netxduo/common/nx_packet_pool_create.c:90-131 | First address, distance to the payload, stride and end are the best that the alignment allows, so no more packets would fit |
| `Packets.CreatePool` | STMicroelectronics/STM32L4_L4+/lib/netxduo/common/nx_packet_pool_create.c:90-190 | Builds a sound pool with as many free packets as the area holds, in the order of their addresses, with separate buffers |
| `Packets.Pool.Allocate` | STMicroelectronics/STM32L4_L4+/lib/netxduo/common/nx_packet_allocate.c:90-165 | The no-wait path: which status, which packet (the head of the available list), what is left on the list and how the packet's fields are reset; a failed call changes nothing |
| `Packets.Release` | STMicroelectronics/STM32L4_L4+/lib/netxduo/common/nx_packet_release.c:73-255 | Walks the chain and puts each packet at the head of its own owner's list, for chains of several pools, up to the first packet that is not marked allocated; every pool stays sound |
| `Packets.ReturnedToOnePool` | STMicroelectronics/STM32L4_L4+/lib/netxduo/common/nx_packet_release.c:73-255 | A chain of one pool comes back in reversed order in front of the old list |
| `PacketAppend.Gather` | STMicroelectronics/STM32L4_L4+/lib/netxduo/common/nx_packet_data_append.c:133-203 | The allocation loop succeeds exactly if the pool covers the shortfall, takes the smallest number of packets, and otherwise puts everything back |
| `PacketAppend.RoomIsProduct` | STMicroelectronics/STM32L4_L4+/lib/netxduo/common/nx_packet_data_append.c:140-200 | The room counted by the loop is packets times payload size |
| `PacketAppend.FillPut` | STMicroelectronics/STM32L4_L4+/lib/netxduo/common/nx_packet_data_append.c:248-287 | One memcpy of the copy loop, on abstract chains: the bytes appended so far grow by exactly what was copied and nothing before them changes |
| `PacketAppend.StopsAtEnd` | STMicroelectronics/STM32L4_L4+/lib/netxduo/common/nx_packet_data_append.c:248-287 | When the data is used up the loop stands on the last packet, so every packet taken holds data and the last-pointer is right |
| `PacketAppend.FilledIsAppended` | STMicroelectronics/STM32L4_L4+/lib/netxduo/common/nx_packet_data_append.c:232-287 | A finished copy loop is an append: old bytes followed by the data, old segments untouched, new segments all used and full but for the last |
| `PacketAppend.Append` | STMicroelectronics/STM32L4_L4+/lib/netxduo/common/nx_packet_data_append.c:97-295 | Success exactly if tail space and free packets suffice; then the chain is well formed with bytes old ++ data, length and last-pointer right, and the packets taken are the front of the available list; on failure the chain is unchanged and the pool has the same packets, in reversed order |
| `PacketAdjust.BytesSplitHead` | STMicroelectronics/STM32L4_L4+/lib/netxduo/common/nx_packet_data_adjust.c:107-184 | Replacing the head by segments that carry its bytes keeps the chain's bytes |
| `PacketAdjust.Spread` | STMicroelectronics/STM32L4_L4+/lib/netxduo/common/nx_packet_data_adjust.c:154-179 | The spill case keeps all bytes, fills the head exactly to its end and links the new packet behind it |
| `PacketAdjust.Adjust` | STMicroelectronics/STM32L4_L4+/lib/netxduo/common/nx_packet_data_adjust.c:91-187 | The exact status; on success the chain is well formed with the same bytes and length and at least `header` bytes of headroom, case by case; an error return changes nothing |
| `PacketCopy.PackedAppend` | STMicroelectronics/STM32L4_L4+/lib/netxduo/common/nx_packet_copy.c:152-201 | Appends keep the copy packed: buffers filled from their start, all but the last full |
| `PacketCopy.PackedRoom` | STMicroelectronics/STM32L4_L4+/lib/netxduo/common/nx_packet_copy.c:152-201 | How many packets a packed chain has is fixed by its size, so the copy takes as few as possible |
| `PacketCopy.ImageStep` | STMicroelectronics/STM32L4_L4+/lib/netxduo/common/nx_packet_copy.c:152-201 | What each turn of the copy loop appends: for the head everything from the buffer's start, for others the payload |
| `PacketCopy.DropHead` | STMicroelectronics/STM32L4_L4+/lib/netxduo/common/nx_packet_copy.c:203-211 | Restoring the headroom gives the source's bytes, and a sound head segment exactly if the offset fits the destination payload |
| `PacketCopy.HeadroomBeyondHead` | STMicroelectronics/STM32L4_L4+/lib/netxduo/common/nx_packet_copy.c:203-211 | A source of one packet that is copied into two, whose head becomes unsound because the offset does not fit |
| `PacketCopy.CopyOne` | STMicroelectronics/STM32L4_L4+/lib/netxduo/common/nx_packet_copy.c:152-201 | One append of the loop fails exactly if the pool was too small from the start |
| `PacketCopy.Copy` | STMicroelectronics/STM32L4_L4+/lib/netxduo/common/nx_packet_copy.c:108-237 | The exact status; a success is a disjoint chain of the front packets of the pool, with the source's bytes, length, offset, header position and interface, and with the header bytes in front of the offset (those of the head's buffer from its start, followed by the rest of the chain, are the copy's from its buffer's start); well formed exactly if the offset fits; a failure returns every packet, in an order that is spelled out for each way to fail |
| `Segments.PutAppends` | STMicroelectronics/STM32L4_L4+/lib/netxduo/common/nx_packet_data_append.c:251-274 | Writing at the end of the last used segment appends to the chain's bytes |
| `Sha256.ChRewritten` | core/src/azure_iot_mqtt/sha256.c:25 | The rewritten Ch is the function of section 4.1.2 of FIPS 180-4, for all words |
| `Sha256.MajRewritten` | core/src/azure_iot_mqtt/sha256.c:26 | The rewritten Maj is the function of section 4.1.2 of FIPS 180-4, for all words |
| `Sha256.RegistersRenamed` | core/src/azure_iot_mqtt/sha256.c:28-31 | A round that writes two registers under rotating names is the standard's round that shifts all eight |
| `Sha256.BlkValue` | core/src/azure_iot_mqtt/sha256.c:23-24 | The rolling 16-word schedule yields word t of the 64-word schedule |
| `Sha256.WindowMoves` | core/src/azure_iot_mqtt/sha256.c:23-24 | Overwriting slot t mod 16 keeps the last sixteen schedule words in place |
| `Sha256.Transform` | core/src/azure_iot_mqtt/sha256.c:54-83 | The in-place compression is section 6.2.2 of FIPS 180-4 for every state and block |
| `Sha256.Context.WriteByteBlock` | core/src/azure_iot_mqtt/sha256.c:85-98 | Hashing the full buffer advances the state by one block |
| `Sha256.Context.Init` | core/src/azure_iot_mqtt/sha256.c:100-111 | The state of section 5.3.3 of FIPS 180-4 and an empty message |
| `Sha256.Context.Update` | core/src/azure_iot_mqtt/sha256.c:113-127 | The message hashed so far grows by exactly the data given, so any splitting into updates comes to the same |
| `Sha256.Context.Final` | core/src/azure_iot_mqtt/sha256.c:129-161 | The digest of FIPS 180-4 of everything updated since the last initialisation; the context is initialised again |
| `Sha256.Context.PadWithZeros` | core/src/azure_iot_mqtt/sha256.c:134-144 | The padding loop ends, having added the number of zeros of section 5.1.1 |
| `Sha256.LengthStep` | core/src/azure_iot_mqtt/sha256.c:146-150 | Shifting the length out byte by byte writes it most significant byte first |
| `Sha256.CountFacts` | core/src/azure_iot_mqtt/sha256.c:113-132 | The 64-bit counter gives the right buffer position and bit length modulo 2^64 even after it wraps |
| `Fips180.LengthFieldIsExact` | core/src/azure_iot_mqtt/sha256.c:131-150 | For messages under 2^61 bytes the length field is the exact bit length |
| `Fips180.BigEndianValue` | core/src/azure_iot_mqtt/sha256.c:146-150 | Reading a big-endian field gives the number written |
| `ShaExample.DigestOfAbc` | core/src/azure_iot_mqtt/sha256.c:33-161 | The digest of "abc" is the one that appendix B.1 of FIPS 180-2 publishes, which ties down the constants and rotations |
| `Hmac.ShortKey` | core/src/azure_iot_mqtt/hmac_sha256.c:23-30 | A key longer than a block is replaced by its digest, others are kept |
| `Hmac.MacAsSpecified` | core/src/azure_iot_mqtt/hmac_sha256.c:15-48 | The MAC is that of section 2 of RFC 2104 in numbers: 64 bytes, 0x36 and 0x5C |
| `Hmac.Compute` | core/src/azure_iot_mqtt/hmac_sha256.c:15-48 | The MAC of section 2 of RFC 2104 for keys of every length |
| `Base64.TableInverse` | core/src/azure_iot_mqtt/sas_token.c:56-316 | The decoder's table inverts the encoder's alphabet |
| `Base64.AlphabetIsTable` | core/src/azure_iot_mqtt/sas_token.c:21 | The alphabet is table 1 of RFC 4648, character by character |
| `Base64.TableElsewhere` | core/src/azure_iot_mqtt/sas_token.c:56-316 | Exactly what is outside the alphabet is decoded through the value 64 |
| `Base64.TestVectors` | core/src/azure_iot_mqtt/sas_token.c:17-54 | The test vectors of section 10 of RFC 4648 that have both paddings and none |
| `Base64.EncoderBits` | core/src/azure_iot_mqtt/sas_token.c:24-30 | The encoder's shifts cut a 24-bit group into its four sextets |
| `Base64.DecoderBits` | core/src/azure_iot_mqtt/sas_token.c:318-333 | The decoder's shifts put the group back together |
| `Base64.WrittenIsEncode` | core/src/azure_iot_mqtt/sas_token.c:17-54 | What the encoder writes is section 4 of RFC 4648 |
| `Base64.EncodeTo` | core/src/azure_iot_mqtt/sas_token.c:17-54 | The encoding of every input, then a null |
| `Base64.DecodeTo` | core/src/azure_iot_mqtt/sas_token.c:56-338 | What the decoding loop writes, character by character, then a null |
| `Base64.DecodeLength` | core/src/azure_iot_mqtt/sas_token.c:340-350 | Six eighths of the length less the '=' characters that end there, those in front of the string included, in the arithmetic of size_t |
| `Base64.OwnPadding` | core/src/azure_iot_mqtt/sas_token.c:340-350 | That is the string's own padding exactly if the string holds another character or no '=' stands in front of it |
| `Base64.LengthRoundTrip` | core/src/azure_iot_mqtt/sas_token.c:340-350 | The length computed for an encoding is that of the original, for every non-empty input |
| `Base64.RoundTrip` | core/src/azure_iot_mqtt/sas_token.c:17-54 | Decoding an encoding gives the original bytes first, although padding is decoded through table value 64 |
| `SasToken.UrlRoundTrip` | core/src/azure_iot_mqtt/sas_token.c:352-373 | Percent-decoding (section 2.1 of RFC 3986) undoes `url_encode` on every byte string |
| `SasToken.EncodedAs` | core/src/azure_iot_mqtt/sas_token.c:352-373 | Letters and digits stay as they are; any other byte becomes "%" and its two hexadecimal digits |
| `SasToken.UrlAlphabet` | core/src/azure_iot_mqtt/sas_token.c:352-373 | Nothing but letters, digits and "%" is left in an encoding, and a string of letters and digits is its own encoding |
| `SasToken.UrlEncodeTo` | core/src/azure_iot_mqtt/sas_token.c:352-373 | Writes the encoding of the text before the null and returns its exact length |
| `SasToken.Sign` | core/src/azure_iot_mqtt/sas_token.c:394-405 | For every key that fits the buffer, valid base64 or not: the signature field is the encoded MAC under the decoded key |
| `SasToken.DecodedEncoding` | core/src/azure_iot_mqtt/sas_token.c:394-395 | The decoded key of an encoding is what was encoded |
| `SasToken.SignatureRoundTrip` | core/src/azure_iot_mqtt/sas_token.c:394-405 | Percent-decoding the signature field gives the RFC 4648 encoding of the MAC, and base64-decoding that exactly the MAC |
| `WifiTable.StepKeepsInv` | STMicroelectronics/STM32L4_L4+/lib/netx_driver/src/nx_wifi.c:451-569 | Every call keeps the table sound (counter, distinct sockets, free slots empty), but for a UDP send exactly when the socket is unbound, a slot is free and the module accepts |
| `WifiTable.EveryRun` | STMicroelectronics/STM32L4_L4+/lib/netx_driver/src/nx_wifi.c:804-1383 | In every run in which UDP send is used on bound sockets only, the table is sound and calls on unknown sockets are refused without effect |
| `WifiTable.StrayLetsOthersThrough` | STMicroelectronics/STM32L4_L4+/lib/netx_driver/src/nx_wifi.c:1316-1342 | After one stray UDP send, sends and receives on any unknown socket go through to that slot |
| `WifiTable.UnbindExactly` | STMicroelectronics/STM32L4_L4+/lib/netx_driver/src/nx_wifi.c:1216-1253 | The unbind of a bound socket is carried out exactly if its slot is connected |
| `WifiTable.StepView` | STMicroelectronics/STM32L4_L4+/lib/netx_driver/src/nx_wifi.c:804-1383 | Every call takes its own socket from unknown, closed or open to the state named, and no other socket |
| `WifiTable.StepAnswers` | STMicroelectronics/STM32L4_L4+/lib/netx_driver/src/nx_wifi.c:804-1383 | What each call answers, by what its own socket was: a known connected socket, TCP or UDP, goes through to its own slot |
| `WifiTable.ClaimTakesFirstFree` | STMicroelectronics/STM32L4_L4+/lib/netx_driver/src/nx_wifi.c:451-496 | A connect and a bind take the first free slot and change no other |
| `WifiTable.UnbindAfterRun` | STMicroelectronics/STM32L4_L4+/lib/netx_driver/src/nx_wifi.c:1148-1342 | In every run from a bind on in which the socket stays bound, its unbind is carried out exactly if a send on it was accepted |
| `WifiTable.UnbindNeedsConnection` | STMicroelectronics/STM32L4_L4+/lib/netx_driver/src/nx_wifi.c:1216-1253 | The two shortest runs: right after the bind the unbind is refused and the slot stays taken; after a send it undoes the bind |
| `WifiTable.EarlyExitSkipsNothing` | STMicroelectronics/STM32L4_L4+/lib/netx_driver/src/nx_wifi.c:238-246 | When the poll has met as many live slots as the counter says, no live slot is left |
| `WifiQueue.AddItem` | STMicroelectronics/STM32L4_L4+/lib/netx_driver/src/nx_wifi.c:287-308 | Putting a chain at the end of a queue keeps the queue sound and appends its bytes |
| `WifiQueue.Slot.Enqueue` | STMicroelectronics/STM32L4_L4+/lib/netx_driver/src/nx_wifi.c:283-312 | The received chain becomes the last of the queue, the tail-pointer and the bytes read follow |
| `WifiQueue.Slot.Dequeue` | STMicroelectronics/STM32L4_L4+/lib/netx_driver/src/nx_wifi.c:652-676 | The first chain leaves the queue and its bytes count as delivered; head is null exactly if tail is |
| `WifiQueue.Slot.Clear` | STMicroelectronics/STM32L4_L4+/lib/netx_driver/src/nx_wifi.c:539-569 | Every queued chain goes back to the pool, in a definite order, and the slot is zero; an invalid slot is left alone |
| `WifiStore.Store` | STMicroelectronics/STM32L4_L4+/lib/netx_driver/src/nx_wifi.c:266-276 | Allocating and appending stores the data exactly if the pool has a packet and room; otherwise the pool keeps all its packets, the first in front and the others reversed |
| `WifiStore.GuardExactly` | STMicroelectronics/STM32L4_L4+/lib/netx_driver/src/nx_wifi.c:253-256 | The guard holds exactly if the least number of packets that hold 1200 bytes leaves one free, for every payload size |
| `WifiStore.GuardSuffices` | STMicroelectronics/STM32L4_L4+/lib/netx_driver/src/nx_wifi.c:253-276 | For every payload size: what the guard lets through fits, and the reserved packet remains |
| `WifiStore.StoreRead` | STMicroelectronics/STM32L4_L4+/lib/netx_driver/src/nx_wifi.c:266-308 | After the guard, storing a read cannot fail; it is queued with its bytes |
| `WifiStore.ReadSlot` | STMicroelectronics/STM32L4_L4+/lib/netx_driver/src/nx_wifi.c:248-338 | The poll's inner loop queues the good replies in order, ends, and stops exactly when the packets for 1200 bytes would leave none in reserve, or a read fails or brings nothing |
| `Wifi.Driver.constructor` | STMicroelectronics/STM32L4_L4+/lib/netx_driver/src/nx_wifi.c:144-165 | Sound memory and the empty table |
| `Wifi.Driver.Poll` | STMicroelectronics/STM32L4_L4+/lib/netx_driver/src/nx_wifi.c:231-341 | Every live slot is polled in spite of the early exit, until its replies are read or the free packets are those for 1200 bytes or fewer; no other slot is touched, and a packet stays in reserve |
| `Wifi.Driver.EntryFind` | STMicroelectronics/STM32L4_L4+/lib/netx_driver/src/nx_wifi.c:451-496 | The search reports the slot the specification names, including the first free slot for an unknown socket |
| `Wifi.Driver.ResetSlot` | STMicroelectronics/STM32L4_L4+/lib/netx_driver/src/nx_wifi.c:539-569 | The reset as one step of the table, with the packets returned |
| `Wifi.Driver.TcpConnect` | STMicroelectronics/STM32L4_L4+/lib/netx_driver/src/nx_wifi.c:804-867 | One step of the table; no other slot and no packet is touched |
| `Wifi.Driver.Close` | STMicroelectronics/STM32L4_L4+/lib/netx_driver/src/nx_wifi.c:908-949 | Disconnect: one step of the table; the packets queued in the slot that was found return to the pool (`nx_wifi_udp_socket_unbind`, lines 1216-1253, has the same body) |
| `Wifi.Driver.UdpBind` | STMicroelectronics/STM32L4_L4+/lib/netx_driver/src/nx_wifi.c:1148-1176 | One step of the table; no other slot is touched |
| `Wifi.Driver.TcpSend` | STMicroelectronics/STM32L4_L4+/lib/netx_driver/src/nx_wifi.c:991-1062 | What is handed to the module is the chain's bytes in order up to the first packet not taken whole; released exactly on success |
| `Wifi.Driver.UdpSend` | STMicroelectronics/STM32L4_L4+/lib/netx_driver/src/nx_wifi.c:1293-1383 | The same, after the slot was found and connected as the table's step says; if it fails, the caller's chain and the pools are as they were |
| `Wifi.Driver.Receive` | STMicroelectronics/STM32L4_L4+/lib/netx_driver/src/nx_wifi.c:612-760 | The front of the queue, else the first good read within the wait, which is converted from ticks, and exactly how many replies are taken from the module; data is lost exactly if the pool cannot hold it |
| `Wifi.Driver.QueuesAreSound` | STMicroelectronics/STM32L4_L4+/lib/netx_driver/src/nx_wifi.c:231-341 | What soundness means: queued packets are in use, in one queue only and not free, and delivered ++ queued is what was read unless a read was lost |
| `WifiServe.Serve` | STMicroelectronics/STM32L4_L4+/lib/netx_driver/src/nx_wifi.c:212-760 | Any polls and receives in any order: exactly which replies each takes from the module; chain by chain, what the application is handed followed by what is queued is what was queued before followed by what was read and not lost by a failed receive; and every chain handed over is still whole, with those bytes, at the end |
| `Wifi.AwaitExactly` | STMicroelectronics/STM32L4_L4+/lib/netx_driver/src/nx_wifi.c:686-725 | The wait loop gets the first good reply exactly if the elapsed times before it add up to less than the wait |
| `Wifi.AwaitFirstGood` | STMicroelectronics/STM32L4_L4+/lib/netx_driver/src/nx_wifi.c:686-725 | What is read is the first good reply with data, and none before it was one |
| `Wifi.AwaitWithin` | STMicroelectronics/STM32L4_L4+/lib/netx_driver/src/nx_wifi.c:686-725 | It reads on exactly while the times so far add up to less than the wait |
| `Wifi.TicksSaturate` | STMicroelectronics/STM32L4_L4+/lib/netx_driver/src/nx_wifi.c:393-411 | Ticks become milliseconds, or all ones for what does not fit 32 bits and for one value that does |
| `Wifi.WaitEndsEarly` | STMicroelectronics/STM32L4_L4+/lib/netx_driver/src/nx_wifi.c:686-725 | A reply that comes well within the wait and is missed |
| `WifiSend.HandOut` | STMicroelectronics/STM32L4_L4+/lib/netx_driver/src/nx_wifi.c:1022-1053 | The send loop, call by call |
| `WifiSend.TakenExactly` | STMicroelectronics/STM32L4_L4+/lib/netx_driver/src/nx_wifi.c:1022-1053 | The packets that count as sent are those in front of the first one that fails or is taken in part |
| `JsonTokens.SkipObject` | core/src/azure_iot_nx/nx_azure_iot_pnp_helpers.c:54-61 | Skipping the children of an object lands right behind it |
| `JsonTokens.Reader.SkipChildren` | core/src/azure_iot_nx/nx_azure_iot_pnp_helpers.c:121-128 | The cursor's skip moves to the matching end token |
| `TwinWalk.ChildTokenMove` | core/src/azure_iot_nx/nx_azure_iot_pnp_helpers.c:38-69 | The search loop on any token sequence |
| `TwinWalk.VisitComponentProperties` | core/src/azure_iot_nx/nx_azure_iot_pnp_helpers.c:72-136 | The component loop on any token sequence, with its failures |
| `TwinWalk.IsComponentInModel` | core/src/azure_iot_nx/nx_azure_iot_pnp_helpers.c:139-165 | Finds the first component of that name; the empty name is none |
| `TwinWalk.TwinDataParse` | core/src/azure_iot_nx/nx_azure_iot_pnp_helpers.c:201-315 | The whole parse on any token sequence |
| `TwinTree.MoveFinds` | core/src/azure_iot_nx/nx_azure_iot_pnp_helpers.c:38-69 | On the tokens of a tree the search finds the first member of that name at this level, whatever is nested before it |
| `TwinTree.VisitIsActual` | core/src/azure_iot_nx/nx_azure_iot_pnp_helpers.c:89-136 | What the component loop does on every tree, objects under reserved names included |
| `TwinTree.RootIsActual` | core/src/azure_iot_nx/nx_azure_iot_pnp_helpers.c:246-315 | What the root loop does on every tree |
| `TwinTree.VisitIsComponentCalls` | core/src/azure_iot_nx/nx_azure_iot_pnp_helpers.c:89-136 | The component loop makes the callbacks the tree calls for and stops right behind the component if no reserved name holds an object, and, when the names fit, only then |
| `TwinTree.RootIsRootCalls` | core/src/azure_iot_nx/nx_azure_iot_pnp_helpers.c:246-315 | The root loop makes the callbacks the tree calls for and stops right behind the object if no reserved name holds an object, and, when the names fit, only then |
| `TwinTree.RootCallsAreProper` | core/src/azure_iot_nx/nx_azure_iot_pnp_helpers.c:246-315 | Every callback has the document's version; none is for a version or a component's type; components are the model's |
| `TwinParse.ParseExactly` | core/src/azure_iot_nx/nx_azure_iot_pnp_helpers.c:201-315 | For every document, even if "desired" is missing or no object or a name is too long: status and callbacks are those of recursion over the tree if and only if, from an object under a reserved name on, none is made and none is due |
| `TwinParse.ParseIsExpected` | core/src/azure_iot_nx/nx_azure_iot_pnp_helpers.c:201-315 | In particular for every document without such an object |
| `TwinParse.VersionIsTheDocuments` | core/src/azure_iot_nx/nx_azure_iot_pnp_helpers.c:237-288 | For every document: each callback carries the number under "$version", as 32 bits if it is negative; without one within int32 the parse fails and makes no callback |
| `TwinParse.ExampleCalls` | core/src/azure_iot_nx/nx_azure_iot_pnp_helpers.c:201-315 | A document with a root property and a component, whose two callbacks are spelled out |
| `TwinTree.ObjectUnderReservedName` | core/src/azure_iot_nx/nx_azure_iot_pnp_helpers.c:105-115 | The commonest case of what goes wrong: wrong callbacks for the rest of the component, none for what follows it |
| `Backoff.CountStaysBounded` | STMicroelectronics/STM32L4_L4+/app/sample_pnp_iot_device.c:152-182 | Whatever resets interleave, the counter stays at most 8 and the shifted product at most 768 |
| `Backoff.ResetTakesEffect` | STMicroelectronics/STM32L4_L4+/app/sample_pnp_iot_device.c:152-182 | Exactly which resets take effect; the others leave the counter as if they had not been |
| `Backoff.ResetIsLost` | STMicroelectronics/STM32L4_L4+/app/sample_pnp_iot_device.c:174 | A reset that is lost, for every counter from 1 to 7 |
| `Backoff.KthCall` | STMicroelectronics/STM32L4_L4+/app/sample_pnp_iot_device.c:152-177 | Call k since a reset uses the base delay min(600, 3 * 2^k) |
| `Backoff.JitterIsEven` | STMicroelectronics/STM32L4_L4+/app/sample_pnp_iot_device.c:152-177 | The jitter grows evenly with the random number, from none to 60 percent |
| `Backoff.Counter.Delay` | STMicroelectronics/STM32L4_L4+/app/sample_pnp_iot_device.c:152-177 | The ticks are base * (1 + 0.6 * random) cut to whole seconds, times the tick rate; the counter is updated as specified |
| `DeviceLoop.CallbacksKeep` | STMicroelectronics/STM32L4_L4+/app/sample_pnp_iot_device.c:184-225 | Callbacks change neither the state nor the client and only add flags |
| `DeviceLoop.StepKeeps` | STMicroelectronics/STM32L4_L4+/app/sample_pnp_iot_device.c:861-933 | One turn keeps the machine sound and leaves a waiting state's own event pending, whatever the callbacks and answers |
| `DeviceLoop.ActionsRequest` | STMicroelectronics/STM32L4_L4+/app/sample_pnp_iot_device.c:227-449 | Every action makes one properties request if the state goes from another value to CONNECTED, and none otherwise |
| `DeviceLoop.RunRequests` | STMicroelectronics/STM32L4_L4+/app/sample_pnp_iot_device.c:861-933 | In every run the number of requests is the number of such changes among the states passed through |
| `DeviceLoop.EveryRun` | STMicroelectronics/STM32L4_L4+/app/sample_pnp_iot_device.c:861-933 | At every loop head of every run: INIT, CONNECT and DISCONNECTED have their event pending, the client is initialised exactly outside INIT, the retry counter is bounded, and there was one properties request for each entry to CONNECTED |
| `DeviceLoop.BodyFollowsTable` | STMicroelectronics/STM32L4_L4+/app/sample_pnp_iot_device.c:227-449 | The state after a turn, from the state before, the events taken and the answers, whatever callbacks fall into it |
| `DeviceLoop.RecoveryReads` | STMicroelectronics/STM32L4_L4+/app/sample_pnp_iot_device.c:415-449 | The status that the recovery reads is the last one written, by a callback or by a connect that failed |
| `DeviceLoop.OwnEvents` | STMicroelectronics/STM32L4_L4+/app/sample_pnp_iot_device.c:451-480 | After a turn the loop's own events are pending exactly if the state asks for them, telemetry and reported properties if connected and due |
| `DeviceLoop.ReportsWait` | STMicroelectronics/STM32L4_L4+/app/sample_pnp_iot_device.c:861-933 | No report is lost and none is taken twice: a turn takes what was reported up to its wait and leaves what is reported later |
| `DeviceLoop.LeavesDisconnected` | STMicroelectronics/STM32L4_L4+/app/sample_pnp_iot_device.c:415-449 | For every turn, whatever callbacks fall into it: DISCONNECTED is left exactly if the status that the recovery reads is an error, to INIT for the three errors that spoil the client and to CONNECT otherwise |
| `DeviceLoop.EveryExitWaits` | STMicroelectronics/STM32L4_L4+/app/sample_pnp_iot_device.c:415-449 | In every run there are as many waits as there are changes from DISCONNECTED to another state |
| `DeviceLoop.WaitsDouble` | STMicroelectronics/STM32L4_L4+/app/sample_pnp_iot_device.c:152-177 | In every run without resets the counter counts the waits, up to 8, and wait k has the base delay min(600, 3 * 2^(c + k)), from a counter c at the start |
| `DeviceLoop.StaysExactly` | STMicroelectronics/STM32L4_L4+/app/sample_pnp_iot_device.c:415-449 | Over every run: DISCONNECTED is never left if and only if every recovery reads success |
| `DeviceLoop.Stuck` | STMicroelectronics/STM32L4_L4+/app/sample_pnp_iot_device.c:415-449 | With the status at success it is not left in any run whose callbacks report no error, not even when they report success |
| `DeviceLoop.FailThenRecoverIsStuck` | STMicroelectronics/STM32L4_L4+/app/sample_pnp_iot_device.c:184-201 | A run that gets there: a failure reported during the backoff, then a connect that succeeds; after it no run without an error report leaves |
| `EventLoop.Device.OnCallback` | STMicroelectronics/STM32L4_L4+/app/sample_pnp_iot_device.c:184-225 | What each callback writes, in order |
| `EventLoop.Device.Interrupt` | STMicroelectronics/STM32L4_L4+/app/sample_pnp_iot_device.c:184-225 | Any writes of any callbacks, cut anywhere, as steps of the machine; they keep it sound |
| `EventLoop.Device.ConnectAction` | STMicroelectronics/STM32L4_L4+/app/sample_pnp_iot_device.c:227-251 | A step of the machine; the client is used only when initialised |
| `EventLoop.Device.InitializeAction` | STMicroelectronics/STM32L4_L4+/app/sample_pnp_iot_device.c:276-413 | A step of the machine; never initialises an initialised client, and undoes a set-up that fails |
| `EventLoop.Device.RecoverAction` | STMicroelectronics/STM32L4_L4+/app/sample_pnp_iot_device.c:415-449 | A step of the machine, with callbacks during the sleep, which happens exactly if the state is left, for the time the counter asks for; deinitialises only an initialised client |
| `EventLoop.Device.TriggerAction` | STMicroelectronics/STM32L4_L4+/app/sample_pnp_iot_device.c:451-480 | A step of the machine |
| `EventLoop.Device.Loop` | STMicroelectronics/STM32L4_L4+/app/sample_pnp_iot_device.c:861-933 | The loop is the machine's run, and sleeps exactly the waits of that run, each with its jitter |
| `EventLoop.SleepsDouble` | STMicroelectronics/STM32L4_L4+/app/sample_pnp_iot_device.c:861-933 | While no reset falls the loop sleeps once for each time it leaves DISCONNECTED, and sleep k takes from min(600, 3 * 2^(c + k)) seconds to 1.6 times that |
| `IpRing.Unlink` | STMicroelectronics/STM32L4_L4+/lib/netxduo/common/nx_ip_delete.c:124-128 | Linking up the neighbours leaves mutually inverse links around the remaining ring |
| `IpRing.IpList.Create` | STMicroelectronics/STM32L4_L4+/lib/netxduo/common/nx_ip_create.c:224-253 | The instance becomes the last of the ring; links, head and counter stay right |
| `IpRing.IpList.CheckedCreate` | STMicroelectronics/STM32L4_L4+/lib/netxduo/common/nxe_ip_create.c:99-160 | Refuses exactly null pointers, a pool without its id, a wrong block size, and an instance that is on the list, without any change; else as one step of the ring |
| `IpRing.IpList.Delete` | STMicroelectronics/STM32L4_L4+/lib/netxduo/common/nx_ip_delete.c:97-155 | Refused exactly with sockets bound, then without any change; else the instance leaves the ring and the head moves on |
| `IpRing.IpList.CheckedDelete` | STMicroelectronics/STM32L4_L4+/lib/netxduo/common/nxe_ip_delete.c:78-98 | The checks refuse exactly the null pointer and instances that are not on the list, also those never created unless they carry the id by chance |
| `IpRing.RingIsCreationOrder` | STMicroelectronics/STM32L4_L4+/lib/netxduo/common/nx_ip_create.c:227-253 | After every sequence of creates and deletes the ring holds exactly the live instances in the order of their creation |
| `IpRing.LiveIsIn` | STMicroelectronics/STM32L4_L4+/lib/netxduo/common/nx_ip_create.c:227-253 | That order holds an instance exactly if it is live |
| `IpRing.IpList.InCreationOrder` | STMicroelectronics/STM32L4_L4+/lib/netxduo/common/nx_ip_delete.c:114-144 | The list as it is in memory after any calls: head, links both ways and counter are those of the live instances in the order of their creation |
| `AtFraming.RequestReceiveData` | STMicroelectronics/STM32L4_L4+/lib/netx_driver/src/es_wifi.c:841-903 | The failing send, the two stripping loops, the zero and the search, in the memory around the buffer |
| `AtFraming.OccursInEight` | STMicroelectronics/STM32L4_L4+/lib/netx_driver/src/es_wifi.c:876-877 | strstr on the last eight bytes is equality with the OK string |
| `AtFraming.BodyExactly` | STMicroelectronics/STM32L4_L4+/lib/netx_driver/src/es_wifi.c:849-872 | The body starts behind stuffing and CR LF, and nowhere else |
| `AtFraming.FailsExactly` | STMicroelectronics/STM32L4_L4+/lib/netx_driver/src/es_wifi.c:849-903 | Which failure is answered: a crash, an I/O error, or a closed socket |
| `AtFraming.FramedIsUnframed` | STMicroelectronics/STM32L4_L4+/lib/netx_driver/src/es_wifi.c:849-887 | For every payload, even one with stuffing bytes or the OK string: exactly its first bytes, as many as asked for |
| `AtFraming.DataMeans` | STMicroelectronics/STM32L4_L4+/lib/netx_driver/src/es_wifi.c:849-887 | Data is answered rightly exactly if the stripped body is at least as long as the OK string |
| `AtFraming.DataExactly` | STMicroelectronics/STM32L4_L4+/lib/netx_driver/src/es_wifi.c:849-887 | There is an answer with data exactly for a framed reply and for two others, which carry no payload |
| `AtFraming.BareOkIsMisread` | STMicroelectronics/STM32L4_L4+/lib/netx_driver/src/es_wifi.c:873-884 | The first of these: a reply without payload that is answered with as many bytes as were asked for |
| `AtFraming.PromptIsMisread` | STMicroelectronics/STM32L4_L4+/lib/netx_driver/src/es_wifi.c:873-884 | The second: a bare prompt, behind memory that ends like the first half of the OK string |

## Left out

- Waiting: `_nx_packet_allocate` with a wait option, the suspension lists, and the wake-up in `_nx_packet_release`.
- Statistics counters, trace and debug hooks, and the interface, IPv6, IPsec and capability fields of a packet.
- The variants for `NX_DISABLE_PACKET_CHAIN` and for an auxiliary packet pool.
- Wrap-around of 32-bit lengths and products in the packet code: it needs more memory than the boards address.
- PacketAppend.Append: says nothing about a chain and a pool that share a packet or a buffer, which the code does not provide for.
- Packets.CreatePool: not for an area that holds no packet, where the code writes in front of the area; the list of created pools is not modelled.
- SasToken.Sign: not for keys that overflow the code's 96-byte buffer or have more padding than bytes, where the length turns negative; the text parts written with snprintf, their truncation and the provisioning variant are not modelled.
- Targets where `char` is signed: there `url_encode` indexes its digits with negative numbers for bytes above 127.
- Wifi.Driver.Poll: receive callbacks, which run application code inside the poll, are taken to have no effect on the driver.
- WifiServe.Serve: packets that the application gives back between the calls, and other calls on the table, are not among the services.
- Wifi.Driver.Receive: the timeout passed to each read is not modelled, nor another rate than 100 ticks a second; when the given replies are used up, the wait is taken to be over.
- Locks: `tx_mutex_get`, `TX_DISABLE` and the priorities around them.
- TwinWalk.TwinDataParse: a name is its unescaped text; `limit` stands for the longest name the reader can put into the scratch buffer.
- The JSON reader, the MQTT, provisioning and hub client libraries, TLS and the verified-telemetry calls are not part of this model.
- EventLoop.Device.MessageActions: the content of messages, telemetry and reported properties has no effect on the loop and is not modelled.
- Backoff.Counter.Delay: the product with the jitter is taken in real numbers, not in floating point.
- IpRing.RingIsCreationOrder: instances are identified by their addresses; a control block that is overwritten by the application while it is on the list is not considered.
- The other fields of an IP instance, its mutex and threads.
- AtFraming.RequestReceiveData: a reply that fills the buffer to its last byte, for which the code writes one byte behind it.
- The other parsers of es_wifi.c, board start-up, network bring-up, DHCP, DNS and SNTP.
- The MXChip copy of the device sample, which is the same state machine.
