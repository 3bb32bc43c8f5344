# Songcast in Dafny

Songcast is OpenHome's protocol for sending audio over UDP from a computer to
network players. A sender cuts PCM audio into Ohm audio messages (an 8-byte
common header, a 50-byte audio header, the codec name and the samples in
network byte order). It keeps recently sent messages so that a receiver can
ask for lost frames again. Track and metatext messages describe what is
playing. Receivers join a sender's stream by unicast or multicast. This
project models the sequential logic of that system, one Dafny module per
source file or per group of near-identical copies, and proves what each
operation promises.

| module | models |
|---|---|
| `Octets` | bytes, fixed-width unsigned integers, big- and little-endian field codecs, 32-bit wrap-around (`Swap32`, `DecodeBe32`, `Inc32`, `Trunc32`, ...): shared wire helpers that model no single source function, so they have no rows of their own below |
| `OhmWire` | the Ohm wire format: common header, audio header and flag bits, track, metatext and slave bodies, the OHMHEADER struct |
| `Arch` | the host/network byte-order helpers |
| `Buffer` | the bounded byte buffers `Brx`/`Bwx` and `BufferCmp` |
| `Fifo` | `FifoLiteBase`/`FifoLite`, the fixed-capacity ring of both driver copies |
| `Pcm` | the per-sample byte reversal of the Windows drivers |
| `OhmMsgDriver` | the Windows driver's reference-counted messages and their pools |
| `OhmMsgUser` | the user-space messages, their per-type pools and the factory's type dispatch |
| `Network` | the drivers' sockaddr encoding and the Songcaster socket's set-up chain |
| `SongcastMinwave` | the ohSongcast Windows packetiser: pipeline, history, resend, halt, latency field |
| `SongcasterMinwave` | the ohSongcaster Windows packetiser and its 16-entry queue |
| `ResendRequest` | the resend walk shared by the Windows driver and `OhmSenderDriver` |
| `MacSongcast` | the ohSongcast Mac kernel sender: state machine, rotated history, resend |
| `SoundcardSongcast` | the ohSoundcard Mac kernel socket and its single audio message |
| `SoundcardEngine` | the ohSoundcard Mac audio engine: sizing, block ring, timer scheduling |
| `OhmSenderDriver` | the user-space driver: send gate, capped history, resend |
| `OhmSender` | the user-space sender: configuration, channel endpoint, URI, slave list, track and metatext |
| `OhmProtocol` | the receivers' unicast and multicast join/listen loops and slave relaying |
| `ReceiverManager1` | reconciling a room's receivers with its source list by UDN |
| `ReceiverManager3` | the connection-status table and the receiver objects that report it |
| `Subnets` | the subnet list of the three sender applications |
| `SenderApps` | the applications' guarded setters, adapter choice and subnet refresh |
| `MacDrivers` | the Mac user-space drivers: class and host names, cached settings replayed to the kernel driver |
| `WavSender` | the WAV test sender: packet sizing, looping, drift correction, header parsing, sample swap |
| `Dissectors` | the Wireshark Ohm and Ohz dissectors: accept/reject tests and field layouts |
| `Songshark` | the stream analyser: halt and frame decoding, gap statistics, lost frames, endpoint text |

Objects whose fields the source updates in place are classes with
`modifies` clauses. Each method is proved against a specification function
of the old state. Pure decoding and encoding are functions with round-trip
lemmas. Locks are atomic steps. Clocks, sockets, kernel calls and callbacks
are inputs or logs of the calls made.

## Model

| member | source | states |
|---|---|---|
| OhmWire.FlagBitsDistinct | ohSongcast/Windows/Driver/drmsimp/OpenHome/OhmMsg.h:133-136 | halt is bit 0 and lossless bit 1 of the flags byte; flags 3, the halting packet's value, has halt and lossless set and timestamped clear; also line 24 of the same file |
| OhmWire.WithResentFlag | ohSongcast/Windows/Driver/drmsimp/OpenHome/OhmMsg.cpp:139-141 | setting the resent bit (flags or 8) leaves the halt, lossless and timestamped bits as they were |
| OhmWire.EncodeHeader | ohSongcast/Windows/Driver/drmsimp/OpenHome/OhmMsg.h:14-47 | the common header is 8 bytes: "Ohm ", major version, message type, then the total byte count |
| OhmWire.DecodeHeader | ohSongcast/Windows/Driver/drmsimp/OpenHome/OhmMsg.h:14-18 | a header is read iff there are 8 bytes and the magic is "Ohm "; the type is byte 5 |
| OhmWire.HeaderRoundTrip | ohSongcast/Windows/Driver/drmsimp/OpenHome/OhmMsg.h:14-18 | reading back an encoded header, whatever follows it, gives the same header |
| OhmWire.EncodeAudioHeader | ohSongcast/Windows/Driver/drmsimp/OpenHome/OhmMsg.h:22-40 | the audio header is 50 fixed bytes plus the codec name: header bytes 50 at 0, flags at 1, depth 46, channels 47, reserved 0 at 48, codec-name length 49, name from 50; also line 131 of the same file |
| OhmWire.DecodeAudioHeader | ohSongcast/Windows/Driver/drmsimp/OpenHome/OhmMsg.h:22-40 | reads every field from its table offset; refuses input shorter than 50 bytes plus the codec-name length |
| OhmWire.AudioHeaderRoundTrip | ohSongcast/Windows/Driver/drmsimp/OpenHome/OhmMsg.h:22-40 | the offsets of the layout table read back every field written, whatever audio follows |
| OhmWire.EncodeTrack | ohSongcast/Windows/Driver/drmsimp/OpenHome/OhmMsg.cpp:206-217 | the track body is 12 + uri + metadata bytes: sequence, uri length, metadata length, then the uri and metadata bytes |
| OhmWire.DecodeTrack | OhmMsg.cpp:157-163 | a receiver splits uri and metadata by the lengths in the track header and refuses a body shorter than they say |
| OhmWire.TrackRoundTrip | ohSongcast/Windows/Driver/drmsimp/OpenHome/OhmMsg.cpp:206-217 | reading back an externalised track gives its sequence, uri and metadata |
| OhmWire.EncodeMetatext | ohSongcast/Windows/Driver/drmsimp/OpenHome/OhmMsg.cpp:253-264 | the metatext body is 8 + text bytes: sequence, text length, then the text |
| OhmWire.DecodeMetatext | OhmMsg.cpp:200-205 | reads the text by the length in the metatext header and refuses a short body |
| OhmWire.MetatextRoundTrip | ohSongcast/Windows/Driver/drmsimp/OpenHome/OhmMsg.cpp:253-264 | reading back externalised metatext gives its sequence and text |
| OhmWire.EncodeSlaveEntries | OhmSender.cpp:1422-1425 | each slave takes 6 bytes, its address then its port |
| OhmWire.EncodeSlaves | OhmSender.cpp:1407-1425 | the slave body is the count followed by 6 bytes per slave |
| OhmWire.DecodeSlaveEntries | OhmProtocolUnicast.cpp:154-159 | reads exactly count entries |
| OhmWire.DecodeSlaves | OhmProtocolUnicast.cpp:145-159 | a slave body is read only when it holds as many entries as its count says |
| OhmWire.SlaveEntriesRoundTrip | OhmProtocolUnicast.cpp:154-159 | the receiver's entry loop reads back every entry the sender wrote, in order |
| OhmWire.SlavesRoundTrip | OhmSender.cpp:1407-1425 | a receiver reads back exactly the slave list the sender sent |
| OhmWire.WithResent | ohSongcast/Windows/Driver/drmsimp/OpenHome/OhmMsg.cpp:129-145 | after SetResent(v), Resent() is v; the other seven flag bits and every other header field are unchanged |
| OhmWire.WithResentIdempotent | ohSongcast/Windows/Driver/drmsimp/OpenHome/OhmMsg.cpp:135-145 | SetResent twice with the same value is the same as once |
| Arch.BigEndian2 | ohSongcast/Windows/Driver/drmsimp/OpenHome/Arch.h:8-15 | the low byte of the result is the high byte of x and the high byte is the low byte of x |
| Arch.BigEndian4 | ohSongcast/Windows/Driver/drmsimp/OpenHome/Arch.h:10-16 | byte k of the result is byte 3-k of x, for each of the four bytes |
| Arch.BigEndian8 | ohSongcast/Windows/Driver/drmsimp/OpenHome/Arch.h:17 | the high word of the result is BigEndian4 of the low word of x and the low word is BigEndian4 of the high word |
| Arch.BigEndian2Involution | ohSongcast/Windows/Driver/drmsimp/OpenHome/Arch.h:8-15 | BigEndian2 applied twice gives x back |
| Arch.BigEndian4Involution | ohSongcast/Windows/Driver/drmsimp/OpenHome/Arch.h:10-16 | BigEndian4 applied twice gives x back |
| Arch.BigEndian8Involution | ohSongcast/Windows/Driver/drmsimp/OpenHome/Arch.h:17 | BigEndian8 applied twice gives x back |
| Arch.BigEndian4IsNetworkOrder | ohSongcast/Windows/Driver/drmsimp/OpenHome/Arch.h:16 | on a little-endian host the stored BigEndian4(x) lays x out most significant byte first |
| Arch.LittleEndianIdentity | ohSongcast/Windows/Driver/drmsimp/OpenHome/Arch.h:18-20 | LittleEndian2/4/8 return their argument unchanged |
| Buffer.MemCmp | ohSongcast/Windows/Driver/drmsimp/OpenHome/Buffer.cpp:22-58 | the memcmp the buffers use is 0 exactly when the first n bytes agree |
| Buffer.Equals | ohSongcast/Windows/Driver/drmsimp/OpenHome/Buffer.cpp:15-25 | Equals holds iff both buffers have the same length and the same bytes |
| Buffer.At | ohSongcast/Windows/Driver/drmsimp/OpenHome/Buffer.cpp:27-33 | At(i) requires i < Bytes and returns byte i: the buffer is the i bytes before it, that byte, and the rest |
| Buffer.Split | ohSongcast/Windows/Driver/drmsimp/OpenHome/Buffer.cpp:35-41 | Split(i) requires i <= Bytes and returns the suffix from i, of length Bytes-i, which completes the prefix to the whole buffer |
| Buffer.SplitN | ohSongcast/Windows/Driver/drmsimp/OpenHome/Buffer.cpp:43-49 | Split(i,n) requires i+n <= Bytes and returns the n bytes starting at i |
| Buffer.BeginsWith | ohSongcast/Windows/Driver/drmsimp/OpenHome/Buffer.cpp:51-61 | BeginsWith(b) holds iff the buffer is b followed by some bytes |
| Buffer.LexIrreflexive | ohSongcast/Windows/Driver/drmsimp/OpenHome/Buffer.cpp:258-273 | the BufferCmp order never ranks a buffer below itself |
| Buffer.LexTransitive | ohSongcast/Windows/Driver/drmsimp/OpenHome/Buffer.cpp:258-273 | the BufferCmp order is transitive |
| Buffer.LexTotal | ohSongcast/Windows/Driver/drmsimp/OpenHome/Buffer.cpp:258-273 | of two different buffers one sorts before the other |
| Buffer.LexPrefix | ohSongcast/Windows/Driver/drmsimp/OpenHome/Buffer.cpp:264-272 | a proper prefix sorts before the longer buffer, and not the other way round |
| Buffer.BufferCmp | ohSongcast/Windows/Driver/drmsimp/OpenHome/Buffer.cpp:258-273 | the byte loop answers "less" exactly when the first buffer is lexicographically smaller |
| Buffer.Bwx.constructor | ohSongcast/Windows/Driver/drmsimp/OpenHome/Buffer.cpp:82-86 | the initial length must fit the store; the buffer has that length and that capacity |
| Buffer.Bwx.Clear | ohSongcast/Windows/Driver/drmsimp/OpenHome/Buffer.cpp:88-91 | the content becomes empty and the capacity is unchanged |
| Buffer.Bwx.Replace | ohSongcast/Windows/Driver/drmsimp/OpenHome/Buffer.cpp:93-107 | requires the new content to fit; afterwards the content is exactly b |
| Buffer.Bwx.ReplaceThrow | ohSongcast/Windows/Driver/drmsimp/OpenHome/Buffer.cpp:109-123 | overflow is raised iff b is longer than the capacity, and then the buffer is untouched; otherwise the content is b |
| Buffer.Bwx.Append | ohSongcast/Windows/Driver/drmsimp/OpenHome/Buffer.cpp:149-163 | requires Bytes+n <= MaxBytes; the content becomes the old content followed by the appended bytes |
| Buffer.Bwx.PtrZ | ohSongcast/Windows/Driver/drmsimp/OpenHome/Buffer.cpp:165-173 | requires a spare byte; writes 0 just past the content and leaves the length and content alone |
| Buffer.Bwx.Fill | ohSongcast/Windows/Driver/drmsimp/OpenHome/Buffer.cpp:175-180 | every content byte becomes v; the length and the bytes past the content are unchanged |
| Buffer.Bwx.SetBytes | ohSongcast/Windows/Driver/drmsimp/OpenHome/Buffer.cpp:182-186 | requires the new length to fit; only the length changes |
| Fifo.Init | ohSongcast/Windows/Driver/drmsimp/OpenHome/Fifo.cpp:7-10 | a new ring is well formed, holds S slots, none used, both cursors at 0, all S slots free; the Mac copy starts the same way: empty, both cursors at 0; the same code is at ohSongcast/Mac/Driver/OpenHome/Fifo.cpp:7-10 |
| Fifo.AfterWrite | ohSongcast/Windows/Driver/drmsimp/OpenHome/Fifo.cpp:37-46 | on a ring that is not full, Write keeps the ring well formed, moves only the write cursor one slot on modulo Slots, uses one more slot and frees one fewer; the same for the Mac copy: not-full precondition, wrap at Slots, one more slot used; the same code is at ohSongcast/Mac/Driver/OpenHome/Fifo.cpp:27-36 |
| Fifo.AfterRead | ohSongcast/Windows/Driver/drmsimp/OpenHome/Fifo.cpp:61-70 | on a non-empty ring, Read keeps the ring well formed, moves only the read cursor one slot on modulo Slots and uses one slot fewer; the same for the Mac copy; the same code is at ohSongcast/Mac/Driver/OpenHome/Fifo.cpp:51-60 |
| Fifo.AfterWriteBack | ohSongcast/Windows/Driver/drmsimp/OpenHome/Fifo.cpp:48-59 | on a ring that is not full, WriteBack steps the read cursor back one slot (0 wraps to Slots-1), uses one more slot and leaves the write cursor alone; the same for the Mac copy; the same code is at ohSongcast/Mac/Driver/OpenHome/Fifo.cpp:38-49 |
| Fifo.WriteBackThenRead | ohSongcast/Windows/Driver/drmsimp/OpenHome/Fifo.cpp:48-70 | a Read straight after a WriteBack returns the slot WriteBack handed out and restores every cursor |
| Fifo.WriteThenReadEmpty | ohSongcast/Windows/Driver/drmsimp/OpenHome/Fifo.cpp:37-70 | on an empty ring, a Read after a Write reads the slot the Write filled and leaves the ring empty again |
| Fifo.UsedPlusFree | ohSongcast/Windows/Driver/drmsimp/OpenHome/Fifo.cpp:27-35 | SlotsUsed + SlotsFree == Slots in every well-formed state |
| Fifo.SlotsDistinct | ohSongcast/Windows/Driver/drmsimp/OpenHome/Fifo.cpp:37-46 | entries of different age sit in different slots, so the slot Write hands out holds no queued entry |
| Fifo.FifoLite.Slots | ohSongcast/Windows/Driver/drmsimp/OpenHome/Fifo.cpp:22-25 | on a well-formed fifo, Slots is the length of the element array and equals SlotsUsed plus SlotsFree |
| Fifo.FifoLite.SlotsUsed | ohSongcast/Windows/Driver/drmsimp/OpenHome/Fifo.cpp:32-35 | SlotsUsed is the number of queued entries |
| Fifo.FifoLite.SlotsFree | ohSongcast/Windows/Driver/drmsimp/OpenHome/Fifo.cpp:27-30 | SlotsFree is S minus the number of queued entries |
| Fifo.FifoLite.constructor | ohSongcast/Windows/Driver/drmsimp/OpenHome/Fifo.h:37 | FifoLite() builds a ring of S slots over a fresh element array, with no entries |
| Fifo.FifoLite.WriteSlot | ohSongcast/Windows/Driver/drmsimp/OpenHome/Fifo.cpp:37-46 | returns the old write index, which is the slot just past the newest entry, and moves the cursors as AfterWrite |
| Fifo.FifoLite.WriteBackSlot | ohSongcast/Windows/Driver/drmsimp/OpenHome/Fifo.cpp:48-59 | returns the new read index and moves the cursors as AfterWriteBack |
| Fifo.FifoLite.ReadSlot | ohSongcast/Windows/Driver/drmsimp/OpenHome/Fifo.cpp:61-70 | returns the old read index and moves the cursors as AfterRead |
| Fifo.FifoLite.Write | ohSongcast/Windows/Driver/drmsimp/OpenHome/Fifo.h:11-38 | requires a free slot; the entry becomes the newest of the queued entries and no other slot of the element array changes |
| Fifo.FifoLite.WriteBack | ohSongcast/Windows/Driver/drmsimp/OpenHome/Fifo.h:39 | requires a free slot; the entry becomes the oldest, so the next Read returns it; no other slot changes |
| Fifo.FifoLite.Read | ohSongcast/Windows/Driver/drmsimp/OpenHome/Fifo.h:11-40 | requires a queued entry; returns the oldest entry and removes it, so entries leave in the order they were written |
| Pcm.ReverseAt | ohSongcast/Windows/Driver/drmsimp/minwave.cpp:1188-1191 | byte i of a reversed group is byte \|s\|-1-i of the group |
| Pcm.ReverseInvolution | ohSongcast/Windows/Driver/drmsimp/minwave.cpp:1188-1191 | reversing a group twice gives it back |
| Pcm.SwapGroupsAppend | ohSongcast/Windows/Driver/drmsimp/minwave.cpp:1186-1197 | the group-wise swap distributes over a cut at a sample boundary |
| Pcm.SwapGroupsInvolution | ohSongcast/Windows/Driver/drmsimp/minwave.cpp:1179-1198 | swapping every sample's bytes twice gives the audio back |
| Pcm.SwapGroupsPermutes | ohSongcast/Windows/Driver/drmsimp/minwave.cpp:1179-1198 | the swap only reorders bytes: the output is a permutation of the input |
| Pcm.ReversePermutes | ohSongcast/Windows/Driver/drmsimp/minwave.cpp:1188-1191 | reversing one sample keeps its bytes |
| Pcm.CopyAudio | ohSongcast/Windows/Driver/drmsimp/minwave.cpp:1179-1198 | the copy loop leaves in the destination the source with the bytes of each sample-sized group reversed; the Songcaster copy (MpusCopyAudioLocked) is the same loop with the same result; the same code is at ohSongcaster/Windows/Driver/drmsimp/minwave.cpp:1071-1090 |
| Pcm.CopyGroup | ohSongcast/Windows/Driver/drmsimp/minwave.cpp:1186-1197 | one pass of the outer loop extends the swapped prefix by one sample |
| Pcm.ReverseGroup | ohSongcast/Windows/Driver/drmsimp/minwave.cpp:1188-1193 | the inner loop writes one sample's bytes last to first and leaves the bytes already copied alone |
| Pcm.GroupStep | ohSongcast/Windows/Driver/drmsimp/minwave.cpp:1186-1197 | a swapped prefix followed by the next sample reversed is the swap of the longer prefix |
| OhmMsgDriver.KindType | ohSongcast/Windows/Driver/drmsimp/OpenHome/OhmMsg.cpp:102 | each message class carries its own Ohm type: audio 3, track 4, metatext 5; also lines 173 and 226 of the same file |
| OhmMsgDriver.PoolSize | ohSongcast/Windows/Driver/drmsimp/OpenHome/OhmMsg.h:215-217 | the pools hold 300 audio, 10 track and 10 metatext messages |
| OhmMsgDriver.OhmMsg.constructor | ohSongcast/Windows/Driver/drmsimp/OpenHome/OhmMsg.cpp:8-18 | a new message has refcount 0, resend count 0 and both timestamps 0 and unset |
| OhmMsgDriver.OhmMsg.CreateBase | ohSongcast/Windows/Driver/drmsimp/OpenHome/OhmMsg.cpp:85-93 | Create sets refcount 1, resend count 0 and clears both timestamps and their flags; the payload is untouched |
| OhmMsgDriver.OhmMsg.CreateAudio | ohSongcast/Windows/Driver/drmsimp/OpenHome/OhmMsg.cpp:106-111 | the audio message takes the MDL chain and its byte count after the common reset |
| OhmMsgDriver.OhmMsg.CreateTrack | ohSongcast/Windows/Driver/drmsimp/OpenHome/OhmMsg.cpp:177-184 | the track takes sequence, uri and metadata; the Replace calls require both to fit their 1 KB and 4 KB buffers |
| OhmMsgDriver.OhmMsg.CreateMetatext | ohSongcast/Windows/Driver/drmsimp/OpenHome/OhmMsg.cpp:230-236 | the metatext message takes sequence and text; the text must fit its 1 KB buffer |
| OhmMsgDriver.OhmMsg.AddRef | ohSongcast/Windows/Driver/drmsimp/OpenHome/OhmMsg.cpp:30-33 | the reference count goes up by one |
| OhmMsgDriver.OhmMsg.IncrementResendCount | ohSongcast/Windows/Driver/drmsimp/OpenHome/OhmMsg.cpp:48-51 | the resend count goes up by one |
| OhmMsgDriver.OhmMsg.SetTxTimestamp | ohSongcast/Windows/Driver/drmsimp/OpenHome/OhmMsg.cpp:73-77 | stores the value and sets the transmit-timestamped flag |
| OhmMsgDriver.OhmMsg.SetRxTimestamp | ohSongcast/Windows/Driver/drmsimp/OpenHome/OhmMsg.cpp:79-83 | stores the value and sets the receive-timestamped flag |
| OhmMsgDriver.OhmMsg.SetResent | ohSongcast/Windows/Driver/drmsimp/OpenHome/OhmMsg.cpp:135-145 | only the resent bit of the header changes, and Resent() then reads the value set |
| OhmMsgDriver.OhmMsg.ExternaliseTrack | ohSongcast/Windows/Driver/drmsimp/OpenHome/OhmMsg.cpp:206-220 | a track message with payload length 12+uri+metadata, whose body a receiver decodes back to this sequence, uri and metadata |
| OhmMsgDriver.OhmMsg.ExternaliseMetatext | ohSongcast/Windows/Driver/drmsimp/OpenHome/OhmMsg.cpp:253-267 | a metatext message with payload length 8+text, whose body decodes back to this sequence and text |
| OhmMsgDriver.OhmMsg.RemoveRef | ohSongcast/Windows/Driver/drmsimp/OpenHome/OhmMsg.cpp:35-41 | the count drops by one; when it reaches 0 the audio chain is freed and the message returns to the pool of its own type, other pools untouched |
| OhmMsgDriver.OhmMsg.Release | ohSongcast/Windows/Driver/drmsimp/OpenHome/OhmMsg.cpp:156-167 | the last release frees an audio message's chain and writes the message back to its own pool; also lines 37-40 of the same file |
| OhmMsgDriver.NewPoolFifo | ohSongcast/Windows/Driver/drmsimp/OpenHome/OhmMsg.cpp:273-283 | the constructor loop fills a fifo of n slots with n distinct new messages of one type |
| OhmMsgDriver.MsgPool.constructor | ohSongcast/Windows/Driver/drmsimp/OpenHome/OhmMsg.cpp:271-285 | each pool starts holding its full quota of messages, none handed out |
| OhmMsgDriver.MsgPool.Take | ohSongcast/Windows/Driver/drmsimp/OpenHome/OhmMsg.cpp:299-300 | requires a pooled message; the oldest one leaves the pool and is handed out |
| OhmMsgDriver.MsgPool.Give | ohSongcast/Windows/Driver/drmsimp/OpenHome/OhmMsg.cpp:326-339 | a handed-out message goes back to the end of its pool |
| OhmMsgDriver.OhmMsgFactory.constructor | ohSongcast/Windows/Driver/drmsimp/OpenHome/OhmMsg.cpp:271-285 | the factory starts with 300 audio, 10 track and 10 metatext messages pooled |
| OhmMsgDriver.OhmMsgFactory.CreateAudio | ohSongcast/Windows/Driver/drmsimp/OpenHome/OhmMsg.cpp:297-303 | asserts a free audio message; takes exactly one from the audio pool and creates it on the given chain |
| OhmMsgDriver.OhmMsgFactory.CreateTrack | ohSongcast/Windows/Driver/drmsimp/OpenHome/OhmMsg.cpp:305-311 | asserts a free track message; takes exactly one from the track pool and creates it |
| OhmMsgDriver.OhmMsgFactory.CreateMetatext | ohSongcast/Windows/Driver/drmsimp/OpenHome/OhmMsg.cpp:313-319 | asserts a free metatext message; takes exactly one from the metatext pool and creates it |
| OhmMsgDriver.OhmMsgFactory.Destroy | ohSongcast/Windows/Driver/drmsimp/OpenHome/OhmMsg.cpp:321-339 | a released message returns to the pool of its own type and no other pool changes |
| OhmMsgUser.BitDepthAsWritten | OhmMsg.cpp:119-122 | as written the bit-depth accessor returns the halt flag, so its value is 0 or 1 |
| OhmMsgUser.BitDepthAsWrittenLosesDepth | OhmMsg.cpp:119-122 | for a non-halting 24-bit stream the accessor as written reports 0, not 24 |
| OhmMsgUser.BitDepthReadsSentDepth | OhmMsg.cpp:119-122 | the corrected accessor, applied to a received header, returns the depth the sender wrote |
| OhmMsgUser.HelloIsNoMessage | OhmMsg.cpp:144-147 | the "HELLO" every Externalise writes decodes as neither a track, a metatext nor an audio header; also lines 187-190 and 224-227 of the same file |
| OhmMsgUser.OhmMsg.constructor | OhmMsg.cpp:8-13 | a new message has reference count 0 |
| OhmMsgUser.OhmMsg.CreateAudio | OhmMsg.cpp:47-52 | the message holds the audio header read from the datagram, with reference count 1 |
| OhmMsgUser.OhmMsg.CreateTrack | OhmMsg.cpp:157-165 | the message holds the sequence, uri and metadata read by the lengths in the track header, with reference count 1 |
| OhmMsgUser.OhmMsg.CreateMetatext | OhmMsg.cpp:200-207 | the message holds the sequence and text read by the length in the metatext header, with reference count 1 |
| OhmMsgUser.OhmMsg.BitDepthAccessorAsWritten | OhmMsg.cpp:119-122 | the accessor as written reports 1 for a halting message and 0 otherwise |
| OhmMsgUser.OhmMsg.BitDepthAccessor | OhmMsg.cpp:119-122 | the corrected accessor reports the header's bit depth |
| OhmMsgUser.OhmMsg.ExternaliseAsWritten | OhmMsg.cpp:144-147 | what every Externalise writes reads back as no track and no metatext; also lines 187-190 and 224-227 of the same file |
| OhmMsgUser.OhmMsg.ExternaliseTrack | OhmMsg.cpp:187-190 | the corrected track Externalise writes a body that decodes back to this track |
| OhmMsgUser.OhmMsg.ExternaliseMetatext | OhmMsg.cpp:224-227 | the corrected metatext Externalise writes a body that decodes back to this text |
| OhmMsgUser.OhmMsg.AddRef | OhmMsg.cpp:15-22 | under the factory lock, the reference count goes up by one |
| OhmMsgUser.OhmMsg.RemoveRef | OhmMsg.cpp:24-33 | under the factory lock the count drops by one, and reaching 0 returns the message to its own type's pool only |
| OhmMsgUser.NewPoolFifo | OhmMsg.cpp:237-247 | each constructor loop fills a fifo with the requested number of distinct new messages of one type |
| OhmMsgUser.MsgPool.constructor | OhmMsg.cpp:231-249 | a pool holds exactly the requested number of messages, none handed out |
| OhmMsgUser.MsgPool.Take | OhmMsg.cpp:270-284 | the oldest pooled message leaves the pool and is handed out |
| OhmMsgUser.MsgPool.Give | OhmMsg.cpp:304-317 | a handed-out message goes back to the end of its pool |
| OhmMsgUser.OhmMsgFactory.constructor | OhmMsg.cpp:231-249 | the factory constructor fills each pool with exactly the requested number of messages |
| OhmMsgUser.OhmMsgFactory.KindOf | OhmMsg.cpp:253-262 | types 3, 4 and 5 select audio, track and metatext, and each only by its own type |
| OhmMsgUser.OhmMsgFactory.Create | OhmMsg.cpp:251-266 | dispatches on the message type (any other type is an assertion failure) and returns the oldest pooled message of that type, created from the datagram |
| OhmMsgUser.OhmMsgFactory.CreateAudio | OhmMsg.cpp:268-273 | takes one message from the audio pool and reads the audio header into it |
| OhmMsgUser.OhmMsgFactory.CreateTrack | OhmMsg.cpp:275-280 | takes one message from the track pool and reads the track into it |
| OhmMsgUser.OhmMsgFactory.CreateMetatext | OhmMsg.cpp:282-287 | takes one message from the metatext pool and reads the metatext into it |
| OhmMsgUser.OhmMsgFactory.Destroy | OhmMsg.cpp:299-317 | a released message returns to the pool of its own type and no other pool changes |
| Network.Initialise | ohSongcaster/Windows/Driver/drmsimp/network.cpp:20-38 | the sockaddr is AF_INET, the low 16 bits of the port byte-swapped, the address's four bytes most significant first, and eight zero bytes; the ohSongcast driver's copy of the same encoding; the same code is at ohSongcast/Windows/Driver/drmsimp/network.cpp:20-38 |
| Network.Image | ohSongcaster/Windows/Driver/drmsimp/network.cpp:22-37 | the sockaddr's bytes are family and port, then the four address bytes and the eight zero bytes |
| Network.InitialiseNetworkOrder | ohSongcaster/Windows/Driver/drmsimp/network.cpp:24-29 | on a little-endian host the port and the address reach memory in network byte order |
| Network.InitialiseAnyImage | ohSongcaster/Windows/Driver/drmsimp/network.cpp:40-43 | the wildcard sockaddr is AF_INET followed by fourteen zero bytes |
| Network.InitialisePortTruncates | ohSongcaster/Windows/Driver/drmsimp/network.cpp:25 | only the low 16 bits of the port reach the sockaddr |
| Network.SocketOhm.constructor | ohSongcaster/Windows/Driver/drmsimp/network.cpp:131-172 | a new socket is not initialised |
| Network.SocketOhm.Initialise | ohSongcaster/Windows/Driver/drmsimp/network.cpp:174-215 | without an IRP the call fails with insufficient resources; otherwise socket creation starts |
| Network.SocketOhm.CreateComplete | ohSongcaster/Windows/Driver/drmsimp/network.cpp:217-250 | a created socket is bound to the wildcard address; a failed create frees the IRP and stops the chain |
| Network.SocketOhm.BindComplete | ohSongcaster/Windows/Driver/drmsimp/network.cpp:253-281 | a bound socket asks for multicast TTL 4; a failed bind stops the chain |
| Network.SocketOhm.InitialiseComplete | ohSongcaster/Windows/Driver/drmsimp/network.cpp:283-309 | the flag is raised exactly on success and the callback runs once either way |
| Network.SocketOhm.Initialised | ohSongcaster/Windows/Driver/drmsimp/network.cpp:558-569 | the flag is true only after a fully successful set-up chain |
| SongcastMinwave.Family44kFollowsRate | ohSongcast/Windows/Driver/drmsimp/minwave.cpp:890 | once the byte reversal of the stored rate is undone, the clock family test is rate % 441 == 0 |
| SongcastMinwave.Family44kAsWrittenMisses44100 | ohSongcast/Windows/Driver/drmsimp/minwave.cpp:890 | the test as written, on the byte-reversed field, puts 44100 Hz in the 48 kHz family |
| SongcastMinwave.Swap32Of44100 | ohSongcast/Windows/Driver/drmsimp/minwave.cpp:926-929 | 44100 is stored as 0x44AC0000 |
| SongcastMinwave.LatencyTicksUsesMultiplier | ohSongcast/Windows/Driver/drmsimp/minwave.cpp:888-895 | the latency is ms times the family's multiplier (rate·32) in 32 bits, divided by 125 |
| SongcastMinwave.MediaLatencyField | ohSongcast/Windows/Driver/drmsimp/minwave.cpp:886-901 | the stored latency, byte-reversed back, is the latency in ticks of the stored rate's clock |
| SongcastMinwave.MediaLatencyFieldAsWritten | ohSongcast/Windows/Driver/drmsimp/minwave.cpp:886-901 | the stored latency with the family test as written is the latency in ticks of the clock that test picks |
| SongcastMinwave.LatencyAt44100 | ohSongcast/Windows/Driver/drmsimp/minwave.cpp:886-901 | the default 100 ms at 44100 Hz should be 1128960 ticks and is stored as 1228800 |
| SongcastMinwave.LatencyIsClockTicks | ohSongcast/Windows/Driver/drmsimp/minwave.cpp:886-901 | without 32-bit overflow the stored latency is ms · clock · 256 / 1000 |
| SongcastMinwave.TimestampTicksUsesClock | ohSongcast/Windows/Driver/drmsimp/minwave.cpp:1092-1104 | the timestamp is the interrupt count times the clock rate in 64 bits, divided by 10^7, kept to 32 bits |
| SongcastMinwave.TimestampField | ohSongcast/Windows/Driver/drmsimp/minwave.cpp:1092-1111 | the stored network timestamp, byte-reversed back, is the timestamp in clock ticks |
| SongcastMinwave.HeaderSampleBytes | ohSongcast/Windows/Driver/drmsimp/minwave.cpp:1067 | a supported header has at least one byte per sample frame |
| SongcastMinwave.HeaderSampleBytesIsProduct | ohSongcast/Windows/Driver/drmsimp/minwave.cpp:1067 | the bytes per sample frame are channels · depth / 8 |
| SongcastMinwave.PacketBytesFor | ohSongcast/Windows/Driver/drmsimp/minwave.cpp:943-947 | the packet's audio is 480 frames of 16-bit stereo at 48000 Hz and 441 at any other rate |
| SongcastMinwave.PacketIsTenMilliseconds | ohSongcast/Windows/Driver/drmsimp/minwave.cpp:943-947 | at 44100 and 48000 Hz the packet's audio is ten milliseconds of 16-bit stereo |
| SongcastMinwave.ChannelBytes | ohSongcast/Windows/Driver/drmsimp/minwave.cpp:940 | a supported depth is one to four bytes per channel sample |
| SongcastMinwave.FrameBytes | ohSongcast/Windows/Driver/drmsimp/minwave.cpp:941 | the bytes of a sample frame are a whole number of channel samples |
| SongcastMinwave.PacketWhole | ohSongcast/Windows/Driver/drmsimp/minwave.cpp:940-947 | either packet payload holds a whole number of samples for every supported width |
| SongcastMinwave.FormatHeader | ohSongcast/Windows/Driver/drmsimp/minwave.cpp:924-950 | SetFormatLocked stores the rate and bit rate byte-reversed, depth and channels truncated to a byte, and the latency for the new rate, and leaves every other field alone (with the clock family test on the rate itself; see Findings) |
| SongcastMinwave.Numbered | ohSongcast/Windows/Driver/drmsimp/minwave.cpp:1057-1111 | a first transmission stores the sample count, the frame number, the total bytes and both timestamps, each byte-reversed, and changes nothing else (with the clock family test on the rate itself; see Findings) |
| SongcastMinwave.NumberedAsWritten | ohSongcast/Windows/Driver/drmsimp/minwave.cpp:1090-1110 | as written both timestamps use the clock the test on the byte-reversed rate picks; every other field is as Numbered stores it |
| SongcastMinwave.NumberedAsWrittenMisses44100 | ohSongcast/Windows/Driver/drmsimp/minwave.cpp:1094 | at 44100 Hz and one second of interrupt time the timestamp should be 11289600 ticks and is stored as 12288000 |
| SongcastMinwave.FullPacketSamples | ohSongcast/Windows/Driver/drmsimp/minwave.cpp:1063-1070 | a full 16-bit stereo packet carries 441 samples at 44.1 kHz and 480 at 48 kHz |
| SongcastMinwave.FrameDiff | ohSongcast/Windows/Driver/drmsimp/minwave.cpp:1393-1416 | the corrected diff is 0 exactly when the requested frame is the frame number the header stores |
| SongcastMinwave.FrameDiffAsWritten | ohSongcast/Windows/Driver/drmsimp/minwave.cpp:1393-1416 | the diff as written is 0 exactly when the request equals the raw, byte-reversed field |
| SongcastMinwave.NumberedFrameMatches | ohSongcast/Windows/Driver/drmsimp/minwave.cpp:1077-1082 | a packet numbered f is matched by a request for f |
| SongcastMinwave.FrameDiffAsWrittenMissesFrame1 | ohSongcast/Windows/Driver/drmsimp/minwave.cpp:1393-1416 | as written a request for frame 1 does not match packet 1 and reads as lying before it |
| SongcastMinwave.SwapGroupsZeros | ohSongcast/Windows/Driver/drmsimp/minwave.cpp:1307-1309 | the silence fragment stays silence after the byte swap |
| SongcastMinwave.Template | ohSongcast/Windows/Driver/drmsimp/minwave.cpp:302-332 | the header template is version 1, audio type 3, 50 header bytes, lossless, codec name of 6 bytes |
| SongcastMinwave.StartHeader | ohSongcast/Windows/Driver/drmsimp/minwave.cpp:334 | the default format leaves a header a packet can be numbered from (with the clock family test on the rate itself; see Findings) |
| SongcastMinwave.StartHeaderIsFormatHeader | ohSongcast/Windows/Driver/drmsimp/minwave.cpp:334 | the default format is 44100 Hz, 1411200 bit/s, 16 bits, stereo at 100 ms, with the byte-reversed constants written out (with the clock family test on the rate itself; see Findings) |
| SongcastMinwave.DefaultHeaderFields | ohSongcast/Windows/Driver/drmsimp/minwave.cpp:302-334 | the initial header is the template with 44100 Hz, 1411200 bit/s, 16-bit stereo and 1128960 ticks of latency, the value the corrected clock family test gives; as written the source stores 1228800 (see Findings); also line 285 of the same file |
| SongcastMinwave.NewFifos | ohSongcast/Windows/Driver/drmsimp/minwave.cpp:287-300 | the pipeline (16 slots) and the history (100 slots) start empty |
| SongcastMinwave.Miniport.constructor | ohSongcast/Windows/Driver/drmsimp/minwave.cpp:280-334 | Init: disabled, inactive, 100 ms, stopped, not sending, frame 0, nothing pending, no streams, and the header built from the fixed PCM template (version 1, type 3, 50 header bytes, lossless, 6-byte codec name) with the default format (with the clock family test on the rate itself; see Findings) |
| SongcastMinwave.Miniport.SetDefaultFormatLocked | ohSongcast/Windows/Driver/drmsimp/minwave.cpp:334 | Init's SetFormatLocked(44100, 1411200, 16, 2): whole 4-byte stereo frames in 44.1 kHz packets, and the StartHeader record, which StartHeaderIsFormatHeader equates with that format at 100 ms (with the clock family test on the rate itself; see Findings) |
| SongcastMinwave.Miniport.NewStream | ohSongcast/Windows/Driver/drmsimp/minwave.cpp:409-480 | a stream is allocated only if none of its kind exists and the format and stream initialise |
| SongcastMinwave.Miniport.UpdateLatency | ohSongcast/Windows/Driver/drmsimp/minwave.cpp:907-918 | the latency and the header's latency field follow the new value (with the clock family test on the rate itself; see Findings) |
| SongcastMinwave.Miniport.SetFormatLocked | ohSongcast/Windows/Driver/drmsimp/minwave.cpp:924-950 | the template header, the sample and channel byte counts and the packet size follow the new format (with the clock family test on the rate itself; see Findings) |
| SongcastMinwave.Miniport.SetFormat | ohSongcast/Windows/Driver/drmsimp/minwave.cpp:956-972 | a pending packet is queued in the old format before the new format applies (with the clock family test on the rate itself; see Findings) |
| SongcastMinwave.Miniport.UpdateEnabled | ohSongcast/Windows/Driver/drmsimp/minwave.cpp:794-834 | enabled becomes 0 or 1; clearing it while active and running queues the halt packet and starts output if it was queued and nothing was being sent; otherwise nothing else changes |
| SongcastMinwave.Miniport.UpdateActive | ohSongcast/Windows/Driver/drmsimp/minwave.cpp:840-880 | the mirror image of UpdateEnabled for the active flag |
| SongcastMinwave.Miniport.SendNewLocked | ohSongcast/Windows/Driver/drmsimp/minwave.cpp:1159-1173 | a new chain holds a copy of the template header and no audio |
| SongcastMinwave.Miniport.AddFragmentLocked | ohSongcast/Windows/Driver/drmsimp/minwave.cpp:1204-1220 | the fragment's samples, bytes reversed, go on the end of the pending audio |
| SongcastMinwave.Miniport.QueueAddLocked | ohSongcast/Windows/Driver/drmsimp/minwave.cpp:978-1005 | the chain becomes the newest pipeline message if a slot is free and is dropped otherwise; nothing is pending after |
| SongcastMinwave.Miniport.SendLocked | ohSongcast/Windows/Driver/drmsimp/minwave.cpp:1226-1261 | below the packet size the samples are appended; otherwise exactly the packet is queued and the rest starts the next chain; no byte is lost or repeated |
| SongcastMinwave.Miniport.SendChainLocked | ohSongcast/Windows/Driver/drmsimp/minwave.cpp:1232-1261 | the same split once a chain is pending |
| SongcastMinwave.Miniport.SendPacketLocked | ohSongcast/Windows/Driver/drmsimp/minwave.cpp:1244-1261 | the first part tops the chain up to the packet size and the remainder starts a new chain from the template |
| SongcastMinwave.Miniport.CompletePacketLocked | ohSongcast/Windows/Driver/drmsimp/minwave.cpp:1246-1248 | the chain filled to the packet size is queued |
| SongcastMinwave.Miniport.StartChainLocked | ohSongcast/Windows/Driver/drmsimp/minwave.cpp:1257-1259 | the left-over samples start a new chain |
| SongcastMinwave.Miniport.PipelineSend | ohSongcast/Windows/Driver/drmsimp/minwave.cpp:1267-1293 | samples are taken only while active and enabled; output starts only when a packet was queued and nothing was being sent |
| SongcastMinwave.Miniport.StopLocked | ohSongcast/Windows/Driver/drmsimp/minwave.cpp:1299-1317 | the pending chain, or one sample of silence, is queued with flags halt and lossless |
| SongcastMinwave.Miniport.Halt | ohSongcast/Windows/Driver/drmsimp/minwave.cpp:811-825 | the halt packet is queued and output starts if it was queued and nothing was being sent |
| SongcastMinwave.Miniport.PipelineStop | ohSongcast/Windows/Driver/drmsimp/minwave.cpp:1323-1347 | one halt packet, only while active, enabled and not yet stopped |
| SongcastMinwave.Miniport.QueueRemove | ohSongcast/Windows/Driver/drmsimp/minwave.cpp:1011-1043 | the oldest message leaves the pipeline; a first transmission joins the history, which drops its oldest entry at 16; an empty pipeline clears sending |
| SongcastMinwave.Miniport.Capped | ohSongcast/Windows/Driver/drmsimp/minwave.cpp:1027-1029 | at 16 entries the history drops its oldest |
| SongcastMinwave.Miniport.PipelineOutput | ohSongcast/Windows/Driver/drmsimp/minwave.cpp:1049-1122 | the next message goes out; on its first transmission it is numbered with the next frame and stamped; a resent one goes out unchanged (with the clock family test on the rate itself; see Findings) |
| SongcastMinwave.Miniport.Number | ohSongcast/Windows/Driver/drmsimp/minwave.cpp:1055-1111 | the frame counter advances by one with 32-bit wrap and the header is numbered with it (with the clock family test on the rate itself; see Findings) |
| SongcastMinwave.Miniport.OutputComplete | ohSongcast/Windows/Driver/drmsimp/minwave.cpp:1134-1153 | the interrupt time is kept for the next packet and the sent message is marked resent (with the clock family test on the rate itself; see Findings) |
| SongcastMinwave.Miniport.ResendLocked | ohSongcast/Windows/Driver/drmsimp/minwave.cpp:1353-1362 | the message goes on the pipeline exactly when a slot is free |
| SongcastMinwave.Miniport.ResendEntry | ohSongcast/Windows/Driver/drmsimp/minwave.cpp:1392-1433 | one history entry is read, re-queued if requested, and written back as the newest (with the frame compare on the frame number the packet carries; see Findings) |
| SongcastMinwave.Miniport.PipelineResend | ohSongcast/Windows/Driver/drmsimp/minwave.cpp:1368-1436 | the history is unchanged; only requested history messages are added to the pipeline; output starts if any was added and nothing was being sent (with the frame compare on the frame number the packet carries; see Findings) |
| SongcastMinwave.Miniport.ResendFrames | ohSongcast/Windows/Driver/drmsimp/minwave.cpp:1392-1433 | every history entry is read and written back once, and the pipeline grows by the messages resent (with the frame compare on the frame number the packet carries; see Findings) |
| SongcasterMinwave.Outgoing | ohSongcaster/Windows/Driver/drmsimp/minwave.cpp:943-1009 | the packet sent is the queued one with frame, total bytes, samples and timestamps filled in; its audio, size and address are unchanged (with the clock family test on the rate itself; see Findings) |
| SongcasterMinwave.OutgoingAsWritten | ohSongcaster/Windows/Driver/drmsimp/minwave.cpp:983-1004 | as written the packet sent differs from Outgoing only in timestamps stamped with the clock the test on the byte-reversed rate picks |
| SongcasterMinwave.OutgoingAsWrittenMisses44100 | ohSongcaster/Windows/Driver/drmsimp/minwave.cpp:987 | at 44100 Hz and one second of interrupt time the packet's timestamp should be 11289600 ticks and is sent as 12288000 |
| SongcasterMinwave.AddedKeepsOrder | ohSongcaster/Windows/Driver/drmsimp/minwave.cpp:838-874 | queueing keeps what was queued before, in order, and never holds more than 16 entries; the queue grows exactly when it had room |
| SongcasterMinwave.AddedInOrder | ohSongcaster/Windows/Driver/drmsimp/minwave.cpp:838-907 | packets queued without the queue filling up leave it in the order they were queued |
| SongcasterMinwave.MpusRing.constructor | ohSongcaster/Windows/Driver/drmsimp/minwave.cpp:347-349 | the ring starts empty with both indices 0 |
| SongcasterMinwave.MpusRing.Add | ohSongcaster/Windows/Driver/drmsimp/minwave.cpp:840-862 | the count is raised and put back past 16; otherwise the entry is stored at the write index; either way the queue is the old one with the entry appended if there was room |
| SongcasterMinwave.MpusRing.Store | ohSongcaster/Windows/Driver/drmsimp/minwave.cpp:856-863 | the entry goes into the write slot and the write index advances, wrapping at 16 |
| SongcasterMinwave.MpusRing.Take | ohSongcaster/Windows/Driver/drmsimp/minwave.cpp:893-903 | the entry at the read index is the oldest; the read index advances, wrapping at 16 |
| SongcasterMinwave.StartSizes | ohSongcaster/Windows/Driver/drmsimp/minwave.cpp:340 | the start-up format is 2 bytes per channel sample, 4 per frame, 1828-byte packets; also line 387 of the same file |
| SongcasterMinwave.Mpus.constructor | ohSongcaster/Windows/Driver/drmsimp/minwave.cpp:329-392 | Init: disabled, inactive, 100 ms, stopped, not sending, frame 0, empty queue, the header built from the fixed PCM template (version 1, type 3, 50 header bytes, lossless, 6-byte codec name) with 44100 Hz 16-bit stereo, the wildcard address (with the clock family test on the rate itself; see Findings) |
| SongcasterMinwave.Mpus.SetDefaultFormatLocked | ohSongcaster/Windows/Driver/drmsimp/minwave.cpp:387 | Init's MpusSetFormatLocked(44100, 1411200, 16, 2): whole 4-byte stereo frames in 1828-byte packets, and the StartHeader record, which StartHeaderIsFormatHeader equates with that format at 100 ms (with the clock family test on the rate itself; see Findings) |
| SongcasterMinwave.StartLatencyAsWritten | ohSongcaster/Windows/Driver/drmsimp/minwave.cpp:1342-1357 | the start format's 100 ms latency should be 1128960 ticks and the test as written stores 1228800 |
| SongcasterMinwave.Mpus.UpdateEndpoint | ohSongcaster/Windows/Driver/drmsimp/minwave.cpp:913-924 | the address is the sockaddr of the new address and port and the adapter is stored |
| SongcasterMinwave.Mpus.UpdateLatency | ohSongcaster/Windows/Driver/drmsimp/minwave.cpp:1342-1374 | the latency and the header's latency field follow the new value (with the clock family test on the rate itself; see Findings) |
| SongcasterMinwave.Mpus.SetFormatLocked | ohSongcaster/Windows/Driver/drmsimp/minwave.cpp:1380-1406 | the template header, the byte counts and the packet size follow the new format (with the clock family test on the rate itself; see Findings) |
| SongcasterMinwave.Mpus.SetFormat | ohSongcaster/Windows/Driver/drmsimp/minwave.cpp:1412-1426 | a pending packet is queued in the old format before the new format applies (with the clock family test on the rate itself; see Findings) |
| SongcasterMinwave.Mpus.QueueAddLocked | ohSongcaster/Windows/Driver/drmsimp/minwave.cpp:838-874 | the chain joins the queue with the current address if there is room and is dropped otherwise; nothing is pending after |
| SongcasterMinwave.Mpus.QueueRemove | ohSongcaster/Windows/Driver/drmsimp/minwave.cpp:880-907 | on an empty queue sending is cleared and nothing is returned; otherwise the oldest entry leaves |
| SongcasterMinwave.Mpus.Output | ohSongcaster/Windows/Driver/drmsimp/minwave.cpp:943-1009 | every packet taken is numbered with the next frame and stamped with the last completion time (with the clock family test on the rate itself; see Findings) |
| SongcasterMinwave.Mpus.OutputComplete | ohSongcaster/Windows/Driver/drmsimp/minwave.cpp:1017-1045 | the completion time is kept and the next packet, if any, goes out stamped with it (with the clock family test on the rate itself; see Findings) |
| SongcasterMinwave.Mpus.SendNewLocked | ohSongcaster/Windows/Driver/drmsimp/minwave.cpp:1051-1065 | a new chain holds a copy of the template header and no audio |
| SongcasterMinwave.Mpus.AddFragmentLocked | ohSongcaster/Windows/Driver/drmsimp/minwave.cpp:1096-1112 | the fragment's samples, bytes reversed, go on the end of the pending audio |
| SongcasterMinwave.Mpus.SendLocked | ohSongcaster/Windows/Driver/drmsimp/minwave.cpp:1120-1156 | below the packet size the samples are appended; otherwise exactly the packet is queued and the rest starts the next chain; no byte is lost or repeated |
| SongcasterMinwave.Mpus.SendChainLocked | ohSongcaster/Windows/Driver/drmsimp/minwave.cpp:1129-1156 | the same split once a chain is pending |
| SongcasterMinwave.Mpus.SendPacketLocked | ohSongcaster/Windows/Driver/drmsimp/minwave.cpp:1138-1155 | the first part tops the chain up to the packet size and the remainder starts a new chain |
| SongcasterMinwave.Mpus.CompletePacketLocked | ohSongcaster/Windows/Driver/drmsimp/minwave.cpp:1140-1142 | the chain filled to the packet size is queued |
| SongcasterMinwave.Mpus.StartChainLocked | ohSongcaster/Windows/Driver/drmsimp/minwave.cpp:1151-1153 | the left-over samples start a new chain |
| SongcasterMinwave.Mpus.Send | ohSongcaster/Windows/Driver/drmsimp/minwave.cpp:1162-1186 | samples are taken only while active and enabled; output starts only when a packet was queued and nothing was being sent |
| SongcasterMinwave.Mpus.StopLocked | ohSongcaster/Windows/Driver/drmsimp/minwave.cpp:1194-1212 | the pending chain, or one sample of silence, is queued with flags halt and lossless |
| SongcasterMinwave.Mpus.HaltChainLocked | ohSongcaster/Windows/Driver/drmsimp/minwave.cpp:1198-1209 | with nothing pending a chain of one silent sample is started; its header gets flags 3 |
| SongcasterMinwave.Mpus.Halt | ohSongcaster/Windows/Driver/drmsimp/minwave.cpp:1226-1236 | the halt packet is queued and output starts if it was queued and nothing was being sent |
| SongcasterMinwave.Mpus.Stop | ohSongcaster/Windows/Driver/drmsimp/minwave.cpp:1218-1242 | one halt packet, only while active, enabled and not yet stopped |
| SongcasterMinwave.Mpus.UpdateEnabled | ohSongcaster/Windows/Driver/drmsimp/minwave.cpp:1248-1290 | enabled becomes 0 or 1; clearing it while active and running issues the halt packet; otherwise nothing else changes |
| SongcasterMinwave.Mpus.UpdateActive | ohSongcaster/Windows/Driver/drmsimp/minwave.cpp:1296-1336 | the mirror image of UpdateEnabled for the active flag |
| ResendRequest.ToInt32 | ohSongcast/Windows/Driver/drmsimp/minwave.cpp:1393 | the TUint difference read as a TInt lies in the 32-bit signed range and is 0 only for 0 |
| ResendRequest.Diff | ohSongcast/Windows/Driver/drmsimp/minwave.cpp:1393-1416 | the signed frame difference is 0 exactly when the requested frame is the message's frame |
| ResendRequest.MatchFrame | ohSongcast/Windows/Driver/drmsimp/minwave.cpp:1392-1433 | for one history message: a message whose frame is the current request entry is resent; only requested frames are resent; the reader never moves back; once the request is used up nothing more is compared; the same walk in OhmSenderDriver::Resend; the same code is at OhmSender.cpp:450-488 |
| MacSongcast.FormatBytes | ohSongcast/Mac/Driver/Songcast.cpp:425-428 | a packet's audio bytes are sampleCount·channels·bitDepth/8 rounded down, and the product fits 32 bits |
| MacSongcast.TimeNs | ohSongcast/Mac/Driver/Songcast.cpp:430-437 | a packet lasts the whole number of nanoseconds t with t·rate <= 10^9·samples < (t+1)·rate |
| MacSongcast.SupportedFormatSizes | ohSongcast/Mac/Driver/Songcast.cpp:21-25 | the one supported format (44100 Hz, 24 bit, stereo, 220 samples) carries 1320 audio bytes lasting 4988662 ns |
| MacSongcast.TimestampIsMediaClock | ohSongcast/Mac/Driver/Songcast.cpp:373-376 | while the 64-bit product does not wrap, the header timestamp is the 256·rate media clock reading of the nanosecond time, reduced to 32 bits |
| MacSongcast.HeaderForMeaning | ohSongcast/Mac/Driver/Songcast.cpp:358-396 | a header from SetHeader is lossless and timestamped, halts exactly when asked, is not marked resent, carries the frame and equal network and media timestamps, and keeps the codec; SetResent adds the resent bit and keeps the rest |
| MacSongcast.Wire | ohSongcast/Mac/Driver/Songcast.cpp:246-271 | the datagram is the packed header followed by the message's audio bytes; the same code is at ohSongcast/Mac/Driver/Songcast.h:14-40 |
| MacSongcast.WireDecodes | ohSongcast/Mac/Driver/Songcast.cpp:246-271 | the datagram decodes as an Ohm audio message whose total bytes are header plus audio, whose audio header is the one written, followed by exactly the audio bytes; the same code is at ohSongcast/Mac/Driver/Songcast.h:14-40 |
| MacSongcast.WireFrame | ohSongcast/Mac/Driver/Songcast.cpp:352-355 | the frame number read big-endian at offset 12 of the datagram is the header's frame |
| MacSongcast.Payload | ohSongcast/Mac/Driver/Songcast.cpp:398-414 | the audio buffer keeps its maximum size; shorter or equal data is copied to its front and the rest is zero; longer data leaves the buffer all zeros |
| MacSongcast.AudioMessage.Image | ohSongcast/Mac/Driver/Songcast.cpp:246-271 | the bytes sent for a message have the message's size, the packed header struct plus its current audio bytes |
| MacSongcast.AudioMessage.Frame | ohSongcast/Mac/Driver/Songcast.cpp:352-355 | a message's frame is the frame in its header |
| MacSongcast.AudioMessage.constructor | ohSongcast/Mac/Driver/Songcast.cpp:295-336 | a new message holds the audio size of its format, a zeroed buffer of the maximum size and the initial header (flags 6, frame 0, 100 ms latency, format fields, PCM codec) |
| MacSongcast.AudioMessage.SetHeader | ohSongcast/Mac/Driver/Songcast.cpp:358-389 | the audio size becomes the format's and the header gets the format, clock, latency, halt and frame fields; the audio is untouched |
| MacSongcast.AudioMessage.SetResent | ohSongcast/Mac/Driver/Songcast.cpp:391-395 | the header gains the resent flag and nothing else changes |
| MacSongcast.AudioMessage.SetData | ohSongcast/Mac/Driver/Songcast.cpp:398-414 | the audio buffer becomes the zero-padded payload of the data |
| MacSongcast.OneHaltAfterDeactivate | ohSongcast/Mac/Driver/Songcast.cpp:82-86 | after SetActive(0) exactly one more packet goes out, and it carries the halt flag; also lines 117-120 and 134-138 of the same file |
| MacSongcast.ActiveSendsAll | ohSongcast/Mac/Driver/Songcast.cpp:108-139 | while active every Send goes out with the halt flag it was given |
| MacSongcast.FindFrame | ohSongcast/Mac/Driver/Songcast.cpp:160-172 | the inner resend loop reports a message exactly when its frame is among the first count big-endian frames of the request |
| MacSongcast.MatchingIsRequested | ohSongcast/Mac/Driver/Songcast.cpp:156-173 | Resend sends the image of every history message whose frame is requested, and only such images, at most one per message |
| MacSongcast.MatchingNone | ohSongcast/Mac/Driver/Songcast.cpp:153-155 | a resend request for no frames sends nothing |
| MacSongcast.NewHistory | ohSongcast/Mac/Driver/Songcast.cpp:45-62 | the constructor's loop fills the 100-slot history with one initial message per successful allocation, skipping failed ones |
| MacSongcast.Songcast.constructor | ohSongcast/Mac/Driver/Songcast.cpp:30-63 | a new sender is inactive with 100 ms latency and frame 0, its history holds one initial-header message per successful allocation, and the buffer size is the largest supported format's |
| MacSongcast.Songcast.SetActive | ohSongcast/Mac/Driver/Songcast.cpp:82-86 | a non-zero value makes the sender active, zero makes it pending-inactive |
| MacSongcast.Songcast.SetLatencyMs | ohSongcast/Mac/Driver/Songcast.cpp:101-105 | the latency becomes the given milliseconds |
| MacSongcast.Songcast.Send | ohSongcast/Mac/Driver/Songcast.cpp:108-139 | nothing is sent while inactive or with an empty history; otherwise the oldest message is rewritten with the next frame number and the data, sent, marked resent and put back as newest; a pending deactivation forces the halt flag and then makes the sender inactive |
| MacSongcast.Songcast.Resend | ohSongcast/Mac/Driver/Songcast.cpp:142-175 | a count of 0 sends nothing; otherwise the images of exactly the history messages whose frames are requested are sent, oldest first, and the history ends as it began |
| MacSongcast.Songcast.SendNext | ohSongcast/Mac/Driver/Songcast.cpp:115-138 | the oldest history message is rewritten with the next frame, the latency and the halt flag (forced while deactivation is pending), sent, marked resent and put back as the newest |
| MacSongcast.Songcast.PutBack | ohSongcast/Mac/Driver/Songcast.cpp:131-132 | the message read from the head of the history goes back in as the newest |
| MacSongcast.Songcast.Recycle | ohSongcast/Mac/Driver/Songcast.cpp:161-162 | the oldest history message is read and written straight back as the newest |
| MacSongcast.Songcast.ResendEntry | ohSongcast/Mac/Driver/Songcast.cpp:161-173 | one turn of the loop rotates the history by one more message and sends it when its frame is among the requested ones |
| MacSongcast.Songcast.ResendAll | ohSongcast/Mac/Driver/Songcast.cpp:158-174 | once round the whole history, the history is back in its order and exactly the messages whose frames were requested are sent, oldest first |
| SoundcardSongcast.AudioBytesFor | ohSoundcard/Mac/Driver/Songcast.cpp:137 | without wrap-around the audio size is frames · channels · depth / 8 rounded down |
| SoundcardSongcast.ConstructedHeaderMeaning | ohSoundcard/Mac/Driver/Songcast.cpp:135-172 | a new message is lossless, timestamped, not halting, not resent, with 1 s latency, zero timestamps and counts, codec "PCM", and frames as its sample count |
| SoundcardSongcast.HaltFlagMeaning | ohSoundcard/Mac/Driver/Songcast.cpp:183-191 | the flags say halt exactly when asked and are always lossless, timestamped and not resent |
| SoundcardSongcast.AudioMessage.Image | ohSoundcard/Mac/Driver/Songcast.cpp:135-172 | the bytes sent are the packed header followed by the audio, of the message's full size |
| SoundcardSongcast.AudioMessage.constructor | ohSoundcard/Mac/Driver/Songcast.cpp:135-172 | the audio size is fixed and the header fields are those of a constructed message |
| SoundcardSongcast.AudioMessage.SetHaltFlag | ohSoundcard/Mac/Driver/Songcast.cpp:183-191 | only the flags change: 7 to halt, 6 otherwise |
| SoundcardSongcast.AudioMessage.SetSampleRate | ohSoundcard/Mac/Driver/Songcast.cpp:194-198 | the rate is stored and the bit rate is rate · channels · depth in 32 bits |
| SoundcardSongcast.AudioMessage.SetFrame | ohSoundcard/Mac/Driver/Songcast.cpp:201-204 | only the frame changes |
| SoundcardSongcast.AudioMessage.SetTimestamp | ohSoundcard/Mac/Driver/Songcast.cpp:207-211 | both timestamps become the given one |
| SoundcardSongcast.AudioMessage.SetData | ohSoundcard/Mac/Driver/Songcast.cpp:214-229 | the audio area holds the data, zero-padded when shorter, and is all zeros when the data is longer |
| SoundcardSongcast.OneHaltAfterStop | ohSoundcard/Mac/Driver/Songcast.cpp:78-123 | after SetInactiveAndHalt exactly one more message goes out, and it halts |
| SoundcardSongcast.NothingAfterDeactivate | ohSoundcard/Mac/Driver/Songcast.cpp:78-116 | after SetActive(0) nothing more goes out |
| SoundcardSongcast.ActiveSendsAll | ohSoundcard/Mac/Driver/Songcast.cpp:78-109 | while active every message goes out with its own halt flag |
| SoundcardSongcast.SongcastSocket.constructor | ohSoundcard/Mac/Driver/Songcast.cpp:22-28 | a new socket is closed, inactive, with TTL 4 |
| SoundcardSongcast.SongcastSocket.Open | ohSoundcard/Mac/Driver/Songcast.cpp:35-66 | the socket is open exactly when creating and connecting it succeeded |
| SoundcardSongcast.SongcastSocket.Close | ohSoundcard/Mac/Driver/Songcast.cpp:68-76 | the socket is closed |
| SoundcardSongcast.SongcastSocket.Send | ohSoundcard/Mac/Driver/Songcast.cpp:78-109 | nothing goes out without a socket or while inactive; in the pending state the message is forced to halt, sent, and the socket becomes inactive |
| SoundcardSongcast.SongcastSocket.SetActive | ohSoundcard/Mac/Driver/Songcast.cpp:112-116 | nonzero activates, zero deactivates at once |
| SoundcardSongcast.SongcastSocket.SetInactiveAndHalt | ohSoundcard/Mac/Driver/Songcast.cpp:119-123 | the socket waits to send one halting message |
| SoundcardSongcast.SongcastSocket.SetTtl | ohSoundcard/Mac/Driver/Songcast.cpp:126-132 | the TTL is stored |
| SoundcardEngine.Interval | ohSoundcard/Mac/Driver/AudioEngine.cpp:37-41 | the timer interval is 220 frames at 44100 Hz rounded down to whole nanoseconds |
| SoundcardEngine.IntervalValue | ohSoundcard/Mac/Driver/AudioEngine.cpp:37-41 | the interval is 4988662 ns |
| SoundcardEngine.BlocksFit | ohSoundcard/Mac/Driver/AudioEngine.cpp:316-324 | without wrap-around the blocks fit in the buffer, and fill it exactly when a block is whole bytes |
| SoundcardEngine.EighthOfMultiple | ohSoundcard/Mac/Driver/AudioEngine.cpp:318-319 | the buffer size divided by 8 is at least the blocks times the block size divided by 8 |
| SoundcardEngine.EngineBufferSizes | ohSoundcard/Mac/Driver/AudioEngine.cpp:7-45 | the engine's buffer is 16 blocks of 1320 bytes, 21120 bytes in all |
| SoundcardEngine.Block | ohSoundcard/Mac/Driver/AudioEngine.h:99-100 | a block address and the block size give one block's bytes of the mix |
| SoundcardEngine.TicksCount | ohSoundcard/Mac/Driver/AudioEngine.cpp:256-302 | after n firings since the start the block is n mod 16 and the frame and fired counters are n mod 2^32; the start that zeroes them is at lines 188-200 of the same file |
| SoundcardEngine.ModStep | ohSoundcard/Mac/Driver/AudioEngine.cpp:296-301 | counting up by one wraps to 0 at the modulus |
| SoundcardEngine.ModAddMultiple | ohSoundcard/Mac/Driver/AudioEngine.cpp:268 | adding a multiple of the modulus keeps the residue |
| SoundcardEngine.ModOfMultiple | ohSoundcard/Mac/Driver/AudioEngine.cpp:268-275 | reducing modulo a multiple of 2^32 keeps the value modulo 2^32 |
| SoundcardEngine.NoDrift | ohSoundcard/Mac/Driver/AudioEngine.cpp:259-275 | the timeout set is the distance from now to timeZero + interval·(fired+1) modulo 2^32, whatever the intermediate wrap-arounds |
| SoundcardEngine.AddCong | ohSoundcard/Mac/Driver/AudioEngine.cpp:268 | sums agree modulo m when their addends do |
| SoundcardEngine.MulCong | ohSoundcard/Mac/Driver/AudioEngine.cpp:268 | products agree modulo m when their factors do |
| SoundcardEngine.ExactTimeout | ohSoundcard/Mac/Driver/AudioEngine.cpp:259-275 | when the deadline lies ahead by less than 2^32 ns the timer is set to exactly the time left, so lateness never accumulates |
| SoundcardEngine.PacketHeaderMeaning | ohSoundcard/Mac/Driver/AudioEngine.cpp:278-289 | the packet halts exactly when the engine is stopping, is not marked resent, carries the frame counter and 44100 Hz, and both timestamps are the previous send time in media clock ticks |
| SoundcardEngine.AudioEngine.constructor | ohSoundcard/Mac/Driver/AudioEngine.cpp:17-63 | a successful init: counters 0, 44100 Hz, not stopping, the interval set, a block-sized message |
| SoundcardEngine.AudioEngine.Init | ohSoundcard/Mac/Driver/AudioEngine.cpp:17-63 | init succeeds exactly when the base class and both allocations do |
| SoundcardEngine.AudioEngine.SetSocket | ohSoundcard/Mac/Driver/AudioEngine.cpp:166-169 | the socket is stored |
| SoundcardEngine.AudioEngine.Start | ohSoundcard/Mac/Driver/AudioEngine.cpp:188-209 | counters reset, the session time origin is now, and the first timeout is one interval; the result reports whether the timer accepted it |
| SoundcardEngine.AudioEngine.Stop | ohSoundcard/Mac/Driver/AudioEngine.cpp:212-219 | stopping only raises the flag |
| SoundcardEngine.AudioEngine.CurrentSampleFrame | ohSoundcard/Mac/Driver/AudioEngine.cpp:222-225 | the current sample frame is the start of the current block and lies inside the ring |
| SoundcardEngine.AudioEngine.Schedule | ohSoundcard/Mac/Driver/AudioEngine.cpp:259-275 | the fired count advances and, unless stopping, the next timeout is the distance to the next deadline |
| SoundcardEngine.AudioEngine.Compose | ohSoundcard/Mac/Driver/AudioEngine.cpp:278-289 | the message carries the halt flag, rate, frame, timestamp and the current block |
| SoundcardEngine.AudioEngine.Advance | ohSoundcard/Mac/Driver/AudioEngine.cpp:293-301 | the block and frame advance, the block wraps at 16 and a wrap takes a timestamp |
| SoundcardEngine.AudioEngine.TimerFired | ohSoundcard/Mac/Driver/AudioEngine.cpp:256-311 | one firing: the timeout is scheduled, the current block goes out stamped with the previous send time unless the socket holds it back, and the counters tick |
| SoundcardEngine.AudioEngine.Prepare | ohSoundcard/Mac/Driver/AudioEngine.cpp:259-306 | everything TimerFired does before the socket sees the message |
| OhmSenderDriver.Flags | OhmSender.cpp:305-309 | a created message halts and is lossless exactly as asked, and is neither timestamped nor resent |
| OhmSenderDriver.AsResent | OhmSender.cpp:330 | marking a history message resent sets the resent bit and keeps the halt bit, every other header field and the audio |
| OhmSenderDriver.Image | OhmSender.cpp:326-328 | the datagram of a message is the common header, the audio header with its codec name, and the audio |
| OhmSenderDriver.ImageRoundTrip | OhmSender.cpp:410-423 | a receiver decodes the datagram as an audio message of the datagram's length with the same header fields and the same audio; also lines 326-328 of the same file |
| OhmSenderDriver.SamplesPerFrameBits | OhmSender.cpp:285 | dividing the bit count first by the channels and then by the depth divides it by the bits of one sample frame |
| OhmSenderDriver.WholeSampleFrames | OhmSender.cpp:285 | below 2^29 bytes the sample count is the number of whole sample frames in the data |
| OhmSenderDriver.LatencyField | OhmSender.cpp:292-299 | without 32-bit wrap the latency field is the latency in milliseconds of a 256·44100 Hz clock for rates divisible by 441 and of a 256·48000 Hz clock otherwise, rounded down |
| OhmSenderDriver.DefaultLatencyField | OhmSender.cpp:263-299 | the default 100 ms gives 1128960 at 44.1 kHz and 1228800 at 48 kHz |
| OhmSenderDriver.Picked | OhmSender.cpp:426-493 | a resend sends at most one datagram per history entry |
| OhmSenderDriver.PickedAllOrNone | OhmSender.cpp:426-493 | picking no entry sends nothing and picking every entry sends one datagram per entry |
| OhmSenderDriver.Capped | OhmSender.cpp:301-303 | the history gives up its oldest entry only when it is full |
| OhmSenderDriver.Evicted | OhmSender.cpp:301-303 | exactly the oldest entry is released when the history is full, and nothing otherwise |
| OhmSenderDriver.CappedKeepsOrder | OhmSender.cpp:301-332 | the released entry and the remaining history make up the old history in order, and with the new message the history stays within its capacity with the new message newest |
| OhmSenderDriver.SenderDriver.constructor | OhmSender.cpp:255-267 | a new driver is disabled, inactive and not sending, at frame 0, sample position 0 and 100 ms latency, with an empty history |
| OhmSenderDriver.SenderDriver.SetAudioFormat | OhmSender.cpp:269-279 | the rate, bit rate, channels, depth, lossless flag and codec name become the given ones |
| OhmSenderDriver.SenderDriver.SendAudio | OhmSender.cpp:281-343 | with the gate closed only the sample position advances by the data's samples; with it open the message is sent unmarked, the oldest entry is released when the history is full, the message joins the history marked resent, and the frame number and sample position advance |
| OhmSenderDriver.SenderDriver.Transmit | OhmSender.cpp:301-335 | room is made, the message joins the history marked resent and its unmarked datagram goes to the endpoint |
| OhmSenderDriver.SenderDriver.MakeRoom | OhmSender.cpp:301-303 | a full history releases its oldest entry, leaving room for one more |
| OhmSenderDriver.SenderDriver.SetEnabled | OhmSender.cpp:347-363 | the gate is open exactly when enabled and active; closing an open gate resets numbering to 0 and releases the whole history, oldest first; otherwise frame and history are unchanged |
| OhmSenderDriver.SenderDriver.SetActive | OhmSender.cpp:365-381 | the same gate rule from the active side |
| OhmSenderDriver.SenderDriver.ResetLocked | OhmSender.cpp:496-507 | the gate closes, the frame restarts at 0, and every history entry is released in order, leaving the history empty |
| OhmSenderDriver.SenderDriver.SetEndpoint | OhmSender.cpp:383-388 | the endpoint and adapter become the given ones |
| OhmSenderDriver.SenderDriver.SetTtl | OhmSender.cpp:391-395 | the socket's time-to-live becomes the given value |
| OhmSenderDriver.SenderDriver.SetLatency | OhmSender.cpp:397-401 | the latency becomes the given milliseconds |
| OhmSenderDriver.SenderDriver.SetTrackPosition | OhmSender.cpp:403-408 | the total samples and the start sample become the given ones |
| OhmSenderDriver.SenderDriver.Resend | OhmSender.cpp:426-493 | the history ends with the same entries in the same order; the entries sent again are sent as stored, in history order, each carrying a requested frame, and an oldest entry carrying the first requested frame is always sent |
| OhmSenderDriver.SenderDriver.ResendEntry | OhmSender.cpp:447-490 | one turn of the loop moves the oldest entry to the back and sends it when the frame cursor matches it |
| OhmSenderDriver.SenderDriver.Recycle | OhmSender.cpp:448-490 | the oldest history entry is read and written straight back as the newest |
| OhmSender.ChannelEndpoint | OhmSender.cpp:1287-1293 | the multicast endpoint is on the Ohm port |
| OhmSender.ChannelAddressOctets | OhmSender.cpp:1287-1293 | the multicast address is 239.253 followed by the channel's second and first bytes |
| OhmSender.ChannelEndpointInjective | OhmSender.cpp:1287-1293 | two channels share a multicast endpoint exactly when their low 16 bits agree |
| OhmSender.EnabledUri | OhmSender.cpp:1299-1308 | an enabled sender's URI has the ohm scheme exactly in multicast mode, with the multicast endpoint, and otherwise the ohu scheme with its own socket's endpoint |
| OhmSender.Decimal | OhmSender.cpp:1302-1307 | the decimal text of a number is non-empty and all digits |
| OhmSender.UriTexts | OhmSender.cpp:1295-1311 | the disabled URI reads ohu://0.0.0.0:0, and no multicast URI equals a unicast one |
| OhmSender.Unexpired | OhmSender.cpp:1468-1482 | the expiry scan keeps at most the slaves it was given |
| OhmSender.UnexpiredExact | OhmSender.cpp:1468-1482 | a slave survives the expiry scan exactly when it was listed and has not expired, and nothing is removed when nothing has expired |
| OhmSender.UnexpiredShorter | OhmSender.cpp:1468-1482 | the scan reports a change exactly when some slave had expired |
| OhmSender.ExpiryStep | OhmSender.cpp:1471-1494 | removing an expired slave in place shifts the rest down and leaves the survivors so far followed by the unexamined slaves; a live slave is stepped over |
| OhmSender.Ascii | OhmSender.cpp:1321-1353 | a text becomes as many bytes as it has characters |
| OhmSender.ZoneUri | OhmSender.cpp:1335 | the zone URI is the Ohz multicast prefix followed by the device's UDN |
| OhmSender.TemplateModes | OhmSender.cpp:1327-1332 | the multicast and unicast res openings have the same length and differ |
| OhmSender.DidlTitle | OhmSender.cpp:1321-1325 | the metadata's title is the sender's name |
| OhmSender.DidlModes | OhmSender.cpp:1327-1332 | the multicast and unicast modes give different metadata |
| OhmSender.Image | OhmSender.cpp:1372-1450 | each datagram carries the type of its message in the common header |
| OhmSender.ImageRoundTrip | OhmSender.cpp:1372-1450 | a receiver decodes each track, metatext, slave and listen datagram back to exactly the message sent |
| OhmSender.Endpoints | OhmSender.cpp:1407-1432 | the slave message lists the slaves' endpoints in order |
| OhmSender.Sender.constructor | OhmSender.cpp:511-579 | a new sender holds the given configuration, has told the driver its ttl and latency (and enabling when enabled), opens the socket only when enabled on a nonzero interface, has an empty slave list, and carries the composed metadata as track sequence 1 |
| OhmSender.Sender.UpdateChannel | OhmSender.cpp:1287-1293 | the multicast endpoint follows the channel |
| OhmSender.Sender.UpdateUri | OhmSender.cpp:1295-1311 | the URI is the enabled URI for the mode, or the disabled one |
| OhmSender.Sender.Start | OhmSender.cpp:740-765 | an open socket is left alone; otherwise a nonzero interface opens it towards the multicast endpoint or bound to the local endpoint, and the URI is rewritten |
| OhmSender.Sender.Stop | OhmSender.cpp:767-776 | the socket is closed and, if it was open, the URI rewritten |
| OhmSender.Sender.StartZone | OhmSender.cpp:791-803 | a closed zone socket opens exactly on a nonzero interface; an open one is left alone |
| OhmSender.Sender.StopZone | OhmSender.cpp:778-789 | the zone socket is closed |
| OhmSender.Sender.SetEnabledTo | OhmSender.cpp:716-738 | a change goes to the driver; disabling an open sender advertises the disabled URI; no change leaves socket and URI alone |
| OhmSender.Sender.SetChannel | OhmSender.cpp:602-625 | the channel is stored; only a change in multicast mode touches socket and URI, and while disabled the URI is the disabled one |
| OhmSender.Sender.SetTtlTo | OhmSender.cpp:658-676 | a change goes to the driver; only a change while enabled restarts the socket |
| OhmSender.Sender.SetLatencyTo | OhmSender.cpp:678-696 | a change goes to the driver; only a change while enabled restarts the socket |
| OhmSender.Sender.SetMulticastTo | OhmSender.cpp:698-714 | a change recomposes the metadata for the new mode; unless a client controls the track, the track takes the new metadata with the next track sequence and metatext sequence 0 and is sent while active to the target the socket had before; while enabled the socket is stopped and reopened in the new mode with a URI whose scheme matches it; no change leaves the URI, socket, metadata, track and sent messages alone |
| OhmSender.Sender.Restart | OhmSender.cpp:703-708 | with the sender enabled the socket is closed, the mode changed and the socket reopened in the new mode (closed on interface 0), with a URI of that mode; unless a client controls the track, the track takes the new metadata with the next track sequence and metatext sequence 0 and is sent while active to the target the socket had before |
| OhmSender.Sender.SetName | OhmSender.cpp:592-600 | a change recomposes the metadata with the new name and, unless a client controls the track, the track takes the new metadata with the next track sequence and metatext sequence 0 and is sent while active; no change leaves the metadata, track and sent messages alone |
| OhmSender.Sender.SetInterface | OhmSender.cpp:627-656 | both interfaces become the new one, the zone socket is open exactly on a nonzero interface; on a change while enabled the Ohm socket is stopped and reopened on the new interface, otherwise it is kept; the metadata is recomposed and, unless a client controls the track, the track takes the new metadata with the next track sequence and metatext sequence 0 and is sent while active to the socket's target after the move |
| OhmSender.Sender.MoveZone | OhmSender.cpp:639-643 | the zone socket restarts on the new interface |
| OhmSender.Sender.MoveOhm | OhmSender.cpp:645-651 | the Ohm socket restarts on the new interface, open exactly when enabled on a nonzero one; a change while disabled and no change both keep the socket |
| OhmSender.Sender.SetPreset | OhmSender.cpp:834-838 | the preset becomes the given one |
| OhmSender.Sender.UpdateMetadata | OhmSender.cpp:1319-1359 | the zone URI and metadata are recomposed; unless a client controls the track, the track takes the metadata with the next sequence and metatext sequence 0 and is sent while active |
| OhmSender.Sender.SendTrack | OhmSender.cpp:1372-1388 | the track message goes to the target |
| OhmSender.Sender.SendMetatext | OhmSender.cpp:1390-1405 | the metatext message goes to the target |
| OhmSender.Sender.SendSlaveList | OhmSender.cpp:1407-1432 | the slave message with the registered endpoints goes to the target |
| OhmSender.Sender.SendListen | OhmSender.cpp:1434-1450 | the listen message goes to the slave |
| OhmSender.Sender.SetTrack | OhmSender.cpp:805-820 | the client takes over the track with the next sequence, the position goes to the driver, and the track is sent while active |
| OhmSender.Sender.SetMetatext | OhmSender.cpp:822-832 | the metatext takes the next sequence and is sent while active |
| OhmSender.Sender.FindSlave | OhmSender.cpp:1496-1507 | the index of the first slave with the endpoint, or the slave count when none has it |
| OhmSender.Sender.RemoveSlave | OhmSender.cpp:1484-1494 | the slave at the index is removed and the later ones keep their order |
| OhmSender.Sender.CheckSlaveExpiry | OhmSender.cpp:1468-1482 | exactly the expired slaves are removed, the rest keep their order, and the result says whether any was removed |
| OhmSender.Sender.RegisterSlave | OhmSender.cpp:1086-1130 | a listed slave gets the new expiry in place; an unlisted one is appended while there is room, and otherwise nothing changes |
| OhmSender.Sender.HandleJoin | OhmSender.cpp:1077-1106 | a Join from the target leaves the slaves alone; one from a listed slave renews that slave in place, at its first position, to expire at now plus the timeout; one from a new slave registers it and sends it a Listen while there is room; the slave list, track and metatext always go to the target |
| OhmSender.Sender.HandleListen | OhmSender.cpp:1107-1139 | a Listen from the target expires slaves and re-sends the list only if one was removed; one from a listed slave renews it silently, in place at its first position, to expire at now plus the timeout; one from a new slave registers it and sends Listen, list, track and metatext while there is room |
| OhmProtocol.Clamp | OhmProtocolUnicast.cpp:145-160 | the corrected slave list keeps at most kMaxSlaveCount (4) entries, as a prefix of the sender's list, and all of them when they fit |
| OhmProtocol.ClampKeepsOrder | OhmProtocolUnicast.cpp:145-160 | the corrected list has min(count, 4) entries, each the sender's entry at the same place |
| OhmProtocol.SlotsWrittenAsWritten | OhmProtocolUnicast.cpp:150-159 | as written, HandleSlave writes one slot per entry of the datagram, whatever the count |
| OhmProtocol.SlaveOverflowAsWritten | OhmProtocolUnicast.cpp:150-159 | as written, a Slave datagram with five entries writes a slot past the end of the four-slot list |
| OhmProtocol.Forwarded | OhmProtocolUnicast.cpp:105-119 | a relayed message goes to every slave once, in slave order; also lines 52-65 and 129-142 of the same file |
| OhmProtocol.ResendFor | OhmProtocolUnicast.cpp:67-92 | an audio datagram causes a Resend to the sender exactly when frames were missed, counting one frame per 4 bytes of the missed list; the same code is at OhmProtocolMulticast.cpp:70-95 |
| OhmProtocol.PrefixStep | OhmProtocolUnicast.cpp:186-255 | each further datagram adds its own share to the track and metatext flags, the receiver calls, the slave list and the listen re-arms |
| OhmProtocol.HasTrackSome | OhmProtocolUnicast.cpp:199-202 | the track flag is set exactly when some datagram of the run is a Track |
| OhmProtocol.HasMetatextSome | OhmProtocolUnicast.cpp:204-207 | the metatext flag is set exactly when some datagram of the run is a Metatext |
| OhmProtocol.JoinedExtends | OhmProtocolUnicast.cpp:186-218 | once both a Track and a Metatext have arrived, the join stays complete for any longer run |
| OhmProtocol.ReceiverCallsSplit | OhmProtocolUnicast.cpp:186-255 | the receiver calls of a run are those of any prefix followed by those of the rest |
| OhmProtocol.PhasesCalls | OhmProtocolUnicast.cpp:186-255 | the calls of the join phase followed by those of the listen phase are the calls of the whole run |
| OhmProtocol.Unicast.constructor | OhmProtocolUnicast.cpp:16-26 | a new unicast receiver holds the interface and ttl, has no slaves, is not leaving, open or interrupted, and has sent nothing |
| OhmProtocol.Unicast.SetInterface | OhmProtocolUnicast.cpp:28-31 | the interface becomes the given one |
| OhmProtocol.Unicast.SetTtl | OhmProtocolUnicast.cpp:33-36 | the ttl becomes the given one |
| OhmProtocol.Unicast.SendJoin | OhmProtocolUnicast.cpp:286-321 | a Join header goes to the sender and the join timer is armed |
| OhmProtocol.Unicast.SendListen | OhmProtocolUnicast.cpp:293-321 | a Listen header goes to the sender and the listen timer is armed with the primary delay |
| OhmProtocol.Unicast.SendLeave | OhmProtocolUnicast.cpp:300-321 | a Leave header goes to the sender |
| OhmProtocol.Unicast.Forward | OhmProtocolUnicast.cpp:62-64 | one copy of the message goes to each slave in turn |
| OhmProtocol.Unicast.HandleAudio | OhmProtocolUnicast.cpp:44-93 | the audio is relayed to every slave, added to the receiver, and a Resend for the missed frames goes to the sender |
| OhmProtocol.Unicast.HandleTrack | OhmProtocolUnicast.cpp:95-120 | the receiver takes the track and it is relayed to every slave |
| OhmProtocol.Unicast.HandleMetatext | OhmProtocolUnicast.cpp:122-143 | the receiver takes the metatext and it is relayed to every slave |
| OhmProtocol.Unicast.HandleSlave | OhmProtocolUnicast.cpp:145-160 | the slave list becomes the datagram's entries, kept to the four slots there are |
| OhmProtocol.Unicast.Receive | OhmProtocolUnicast.cpp:190-211 | one datagram causes its receiver calls; audio, track and metatext are relayed; a Slave datagram replaces the slaves only while joining; a Listen re-arms the listen timer only while listening; also lines 230-248 of the same file |
| OhmProtocol.Unicast.JoinPhase | OhmProtocolUnicast.cpp:182-218 | the join phase stops right after the first datagram that completes the set of a Track and a Metatext, or at the end of the run; the calls and slave list are those of the datagrams taken |
| OhmProtocol.Unicast.ListenPhase | OhmProtocolUnicast.cpp:224-255 | the listen phase takes every remaining datagram, leaves the slaves alone, and re-arms the listen timer once per Listen |
| OhmProtocol.Unicast.Phases | OhmProtocolUnicast.cpp:180-255 | the run is joined exactly when it holds both a Track and a Metatext, the join ends at the first datagram that completes them, and the receiver sees the calls of the whole run |
| OhmProtocol.Unicast.Play | OhmProtocolUnicast.cpp:163-272 | Play sends a Join first and arms the join timer, gets the calls of the whole run as above, and ends with every timer cancelled, leaving cleared and the socket closed |
| OhmProtocol.Unicast.Stop | OhmProtocolUnicast.cpp:274-278 | leaving is set and the leave timer armed |
| OhmProtocol.Unicast.TimerLeaveExpired | OhmProtocolUnicast.cpp:323-331 | a Leave goes out and the read is interrupted exactly when still leaving |
| OhmProtocol.Unicast.EmergencyStop | OhmProtocolUnicast.cpp:280-284 | a Leave goes out and the read is interrupted at once |
| OhmProtocol.Multicast.constructor | OhmProtocolMulticast.cpp:41-50 | a new multicast receiver holds the interface and ttl, is not open or interrupted, and has sent nothing |
| OhmProtocol.Multicast.SetInterface | OhmProtocolMulticast.cpp:52-55 | the interface becomes the given one |
| OhmProtocol.Multicast.SetTtl | OhmProtocolMulticast.cpp:57-60 | the ttl becomes the given one |
| OhmProtocol.Multicast.SendJoin | OhmProtocolMulticast.cpp:230-235 | a Join header goes to the channel and the join timer is armed |
| OhmProtocol.Multicast.SendListen | OhmProtocolMulticast.cpp:223-228 | a Listen header goes to the channel and the listen timer is armed with the primary delay |
| OhmProtocol.Multicast.HandleAudio | OhmProtocolMulticast.cpp:62-96 | the audio is added to the receiver and a Resend for the missed frames goes to the channel; nothing is relayed |
| OhmProtocol.Multicast.Receive | OhmProtocolMulticast.cpp:138-158 | one datagram causes its receiver calls, a Resend when audio missed frames, and a listen re-arm for a Listen while listening; also lines 177-195 of the same file |
| OhmProtocol.Multicast.JoinPhase | OhmProtocolMulticast.cpp:130-165 | the join phase stops right after the datagram that completes the set of a Track and a Metatext, or at the end of the run, arming no timer |
| OhmProtocol.Multicast.ListenPhase | OhmProtocolMulticast.cpp:171-202 | the listen phase takes every remaining datagram and re-arms the listen timer once per Listen |
| OhmProtocol.Multicast.Phases | OhmProtocolMulticast.cpp:128-202 | joined exactly when the run holds a Track and a Metatext; then the join timer is cancelled, the listen timer armed and re-armed per Listen |
| OhmProtocol.Multicast.Play | OhmProtocolMulticast.cpp:115-216 | a Join goes first, the receiver sees the calls of the whole run, the timers are exactly join, the phase timers, and the final cancels, and the socket ends closed |
| OhmProtocol.Multicast.Stop | OhmProtocolMulticast.cpp:218-221 | the read is interrupted at once, with no leave handshake |
| ReceiverManager1.SelectedDevice | ohSongcast/ReceiverManager1.cpp:30-34 | a device is selected exactly when the current source is of type Receiver, and it is that source's device; also lines 105-109 of the same file |
| ReceiverManager1.Made | ohSongcast/ReceiverManager1.cpp:36-51 | one receiver per source, numbered consecutively, each pointing at a source; also lines 117-127 of the same file |
| ReceiverManager1.MadeFaithful | ohSongcast/ReceiverManager1.cpp:36-51 | each made receiver copies the group, name and device of a Receiver source, in increasing source order, and every Receiver source gets one; also lines 117-127 of the same file |
| ReceiverManager1.MakeReceivers | ohSongcast/ReceiverManager1.cpp:36-51 | the loop over the sources makes exactly those receivers; also lines 117-127 of the same file |
| ReceiverManager1.Reselect | ohSongcast/ReceiverManager1.cpp:44-46 | after listing new receivers the selection is unchanged or names a new receiver on the selected device, and it is unchanged when none is on it; also lines 193-195 of the same file |
| ReceiverManager1.AppendReceivers | ohSongcast/ReceiverManager1.cpp:188-198 | the new receivers are appended in order, each reported as added, and the last one on the selected device becomes the selection |
| ReceiverManager1.FirstUdnFirst | ohSongcast/ReceiverManager1.cpp:138-151 | the candidate search stops at the first candidate with the receiver's UDN |
| ReceiverManager1.ReconcileCovers | ohSongcast/ReceiverManager1.cpp:131-158 | the receivers kept and the sources left unmatched together stand for exactly the new source list, by UDN and source index |
| ReceiverManager1.ReconcileUpdated | ohSongcast/ReceiverManager1.cpp:143 | the scan changes nothing of a prior receiver but its source index |
| ReceiverManager1.ReconcileIds | ohSongcast/ReceiverManager1.cpp:131-158 | every prior receiver is either kept or deleted, never both |
| ReceiverManager1.ReconcileDeletedFrom | ohSongcast/ReceiverManager1.cpp:153-155 | the deleted receivers are prior receivers, unchanged |
| ReceiverManager1.ReconcileDeletedDistinct | ohSongcast/ReceiverManager1.cpp:153-155 | no receiver is deleted twice |
| ReceiverManager1.ReconcileUnmatchedFrom | ohSongcast/ReceiverManager1.cpp:144-145 | what is added comes from the new source list |
| ReceiverManager1.ReconcileNoReadd | ohSongcast/ReceiverManager1.cpp:140-155 | no receiver is removed while a receiver with its UDN is added |
| ReceiverManager1.ReconcileUnmatchedDistinct | ohSongcast/ReceiverManager1.cpp:144-145 | the receivers added have distinct identities |
| ReceiverManager1.DropMembers | ohSongcast/ReceiverManager1.cpp:162-184 | the removal keeps exactly the receivers not deleted |
| ReceiverManager1.DropDistinct | ohSongcast/ReceiverManager1.cpp:162-184 | removal keeps identities distinct |
| ReceiverManager1.DropAbsent | ohSongcast/ReceiverManager1.cpp:167-181 | deleting an identity not in the list changes nothing |
| ReceiverManager1.DropTwice | ohSongcast/ReceiverManager1.cpp:162-184 | removing one more receiver after others is removing them all |
| ReceiverManager1.EraseIsDrop | ohSongcast/ReceiverManager1.cpp:176 | erasing the receiver at a position removes exactly its identity |
| ReceiverManager1.DropNone | ohSongcast/ReceiverManager1.cpp:162-184 | removing nothing keeps the list |
| ReceiverManager1.KeptIsDrop | ohSongcast/ReceiverManager1.cpp:131-184 | the list after removal is the updated list without the deleted receivers, that is, the kept ones |
| ReceiverManager1.Deselect | ohSongcast/ReceiverManager1.cpp:171-173 | the corrected removal clears the selection or keeps it, and never leaves a removed receiver selected |
| ReceiverManager1.FindId | ohSongcast/ReceiverManager1.cpp:167-181 | the inner removal search finds the receiver with the identity, or reports it absent |
| ReceiverManager1.RemoveReceivers | ohSongcast/ReceiverManager1.cpp:160-184 | the removal loop erases each deleted receiver, reports it removed in order, and clears the selection when it is removed |
| ReceiverManager1.FirstUdnUnique | ohSongcast/ReceiverManager1.cpp:138-151 | a position with the UDN and none before it is the first match |
| ReceiverManager1.FindUdn | ohSongcast/ReceiverManager1.cpp:138-151 | the inner scan returns the first candidate with the UDN, or the number of candidates |
| ReceiverManager1.ReconcileStep | ohSongcast/ReceiverManager1.cpp:133-158 | one step of the scan: the next prior receiver takes its first matching candidate or is deleted |
| ReceiverManager1.MatchReceivers | ohSongcast/ReceiverManager1.cpp:129-158 | the scan of the prior list computes the updated list, the deletions and the unmatched candidates |
| ReceiverManager1.MatchedForRemoval | ohSongcast/ReceiverManager1.cpp:129-184 | after the scan identities are distinct and every deleted receiver is still listed |
| ReceiverManager1.MadeDistinct | ohSongcast/ReceiverManager1.cpp:117-127 | made receivers have fresh, distinct identities |
| ReceiverManager1.MadeValid | ohSongcast/ReceiverManager1.cpp:20-52 | the room's first receivers are distinct and any selection names one of them |
| ReceiverManager1.ChangedDistinct | ohSongcast/ReceiverManager1.cpp:101-199 | after Changed the receivers still have distinct identities |
| ReceiverManager1.ChangedSelection | ohSongcast/ReceiverManager1.cpp:101-199 | after the corrected Changed any selection names a listed receiver |
| ReceiverManager1.FirstOnDevice | ohSongcast/ReceiverManager1.cpp:87-97 | some receiver is on the device exactly when the result is present, and it names the first such receiver |
| ReceiverManager1.FirstOnDeviceAt | ohSongcast/ReceiverManager1.cpp:87-97 | the first receiver on the device at a known position is the one found |
| ReceiverManager1.FindDevice | ohSongcast/ReceiverManager1.cpp:87-97 | SourceChanged's search returns the position of the first receiver on the device, or the length |
| ReceiverManager1.ReportRemoved | ohSongcast/ReceiverManager1.cpp:203-210 | every receiver is reported removed, in list order |
| ReceiverManager1.Room.constructor | ohSongcast/ReceiverManager1.cpp:20-52 | a new room holds one reference, a receiver per Receiver source, each reported added, and selects the last one on the current source's device |
| ReceiverManager1.Room.AddRef | ohSongcast/ReceiverManager1.cpp:64-67 | the reference count goes up by one |
| ReceiverManager1.Room.RemoveRef | ohSongcast/ReceiverManager1.cpp:69-74 | the count drops by one and the room is deleted at zero |
| ReceiverManager1.Room.SourceChanged | ohSongcast/ReceiverManager1.cpp:76-99 | an old selection is cleared and reported changed; when the current source is a receiver, the first receiver on its device is selected and reported |
| ReceiverManager1.Room.Changed | ohSongcast/ReceiverManager1.cpp:101-199 | the receivers become the kept ones followed by the new ones, deleted ones are reported removed and new ones added, and the selection is corrected |
| ReceiverManager1.Room.Removed | ohSongcast/ReceiverManager1.cpp:201-213 | every receiver is reported removed, then the room drops its own reference |
| ReceiverManager1.DeselectAsWritten | ohSongcast/ReceiverManager1.cpp:171-173 | as written, a removed receiver clears the selection only when its device is the selected device, so otherwise the selection stays |
| ReceiverManager1.SelectionDanglesAsWritten | ohSongcast/ReceiverManager1.cpp:171-173 | a selected receiver removed while the current source names another device stays selected after Changed, though it is no longer listed |
| ReceiverManager3.StatusOf | ohSongcast/ReceiverManager3.cpp:217-242 | a receiver is disconnected exactly when it is not selected, plays another sender's URI or is stopped, and connecting exactly when it is ours and buffering |
| ReceiverManager3.SenderAfter | ohSongcast/ReceiverManager3.cpp:264-268 | the sender URI after a run of calls is the one it had or one that a SetSender call gave |
| ReceiverManager3.Manager.constructor | ohSongcast/ReceiverManager3.cpp:199-205 | a new manager holds our URI and metadata and has made no calls |
| ReceiverManager3.Manager.SetMetadata | ohSongcast/ReceiverManager3.cpp:212-215 | the metadata becomes the given one |
| ReceiverManager3.Manager.Play | ohSongcast/ReceiverManager3.cpp:264-268 | the receiver is told our URI and metadata, then to play |
| ReceiverManager3.Manager.Stop | ohSongcast/ReceiverManager3.cpp:270-273 | the receiver is told to stop |
| ReceiverManager3.Manager.Standby | ohSongcast/ReceiverManager3.cpp:275-278 | the receiver is told to go to standby |
| ReceiverManager3.PlayConnects | ohSongcast/ReceiverManager3.cpp:217-242 | after Play a selected, playing receiver that took the calls counts as connected; also lines 264-268 of the same file |
| ReceiverManager3.Receiver.constructor | ohSongcast/ReceiverManager3.cpp:20-30 | a new receiver caches its evaluated status, holds one reference and is reported added once; also lines 287-297 of the same file |
| ReceiverManager3.Receiver.Changed | ohSongcast/ReceiverManager3.cpp:299-311 | the status is evaluated again and reported only when it differs from the cached one; also lines 156-164 of the same file |
| ReceiverManager3.Receiver.AddRef | ohSongcast/ReceiverManager3.cpp:144-147 | the reference count goes up by one |
| ReceiverManager3.Receiver.RemoveRef | ohSongcast/ReceiverManager3.cpp:149-154 | the count drops by one and the receiver is deleted at zero |
| ReceiverManager3.Receiver.Removed | ohSongcast/ReceiverManager3.cpp:313-324 | the receiver is reported removed, then one reference is dropped; also lines 166-170 of the same file |
| ReceiverManager3.Reported | ohSongcast/ReceiverManager3.cpp:20-30 | a receiver is first reported added with its status, and every later report is a change; also lines 156-164 of the same file |
| ReceiverManager3.ReportedChanges | ohSongcast/ReceiverManager3.cpp:156-164 | two reports in a row never carry the same status, and the last report carries the current status |
| ReceiverManager3.Follow | ohSongcast/ReceiverManager3.cpp:287-311 | following a receiver through its changes produces exactly those reports |
| Subnets.AdapterAddress | ohSongcast/Songcast.cpp:392-399 | a detached subnet reports adapter address 0, an attached one its adapter's address |
| Subnets.AdapterName | ohSongcast/Songcast.cpp:401-408 | a detached subnet reports "Network adapter not present", an attached one its adapter's name |
| Subnets.ForAdapter | ohSongcast/Songcast.cpp:342-348 | a subnet made for an adapter is attached to it and has the adapter's subnet address |
| Subnets.Attach | ohSongcast/Songcast.cpp:365-373 | attaching changes the adapter and keeps the stored subnet |
| Subnets.Detach | ohSongcast/Songcast.cpp:375-381 | detaching leaves no adapter and keeps the stored subnet |
| Subnets.FindSubnet | ohSongcast/Songcast.cpp:584-629 | the position found is the first subnet with the address, and the end exactly when no subnet has it |
| Subnets.Find | ohSongcast/Songcast.cpp:629 | the search loop stops at the position FindSubnet specifies |
| Subnets.FindFirst | ohSongcast/Songcast.cpp:629 | a position before which no subnet has the address and at which one has it is the one FindSubnet gives |
| Subnets.MergeOneKeeps | ohSongcast/Songcast.cpp:626-649 | one adapter keeps every listed address at its place, detaches nothing, and leaves the adapter's subnet listed and attached |
| Subnets.MergeCovers | ohSongcast/Songcast.cpp:623-650 | after the adapter loop every address is still listed at its place, nothing was detached, and every new adapter's subnet is listed and attached |
| Subnets.MergeOneDistinct | ohSongcast/Songcast.cpp:626-649 | one adapter lists no address twice and keeps subnets consistent with their adapters |
| Subnets.MergeDistinct | ohSongcast/Songcast.cpp:623-650 | the adapter loop never lists an address twice |
| Subnets.MergeAdapters | ohSongcast/Songcast.cpp:623-650 | the loop computes the list and the added and changed events Merge specifies |
| Subnets.DetachAbsent | ohSongcast/Songcast.cpp:653-664 | the detach loop keeps the list's length |
| Subnets.DetachAbsentKeeps | ohSongcast/Songcast.cpp:653-664 | every address stays listed at its place, and a subnet keeps its adapter exactly when it had one and some adapter still offers its address |
| Subnets.DetachAbsentLoop | ohSongcast/Songcast.cpp:653-664 | the loop computes the list and the changed events DetachAbsent specifies |
| Subnets.DetachKeepsListed | ohSongcast/Songcast.cpp:653-664 | subnets are never removed: every subnet an adapter offers is still listed after the detach loop; also lines 601-602 of the same file |
| Subnets.DetachAttachedIff | ohSongcast/Songcast.cpp:653-664 | after the detach loop a subnet is attached exactly when an adapter of the new list offers its address |
| Subnets.SongcastRefresh | ohSongcast/Songcast.cpp:604-666 | after both loops no address is listed twice, every offered subnet is listed, and a subnet is attached exactly when its address is offered |
| SenderApps.SongcasterName | ohSongcaster/Songcaster.cpp:348-351 | the sender's name starts with the computer's name |
| SenderApps.UdnRoundTrip | ohSongcaster/Songcaster.cpp:353-355 | the UDN starts with the manufacturer and the computer's name can be read back from it |
| SenderApps.RescanKeeps | ohSongcast/Songcast.cpp:623-664 | the rescan keeps every address at its place, lists every adapter's subnet, lists no address twice and keeps subnets consistent with their adapters; Songcaster's adapter loop (without the detach loop) keeps the same facts; the same code is at ohSongcaster/Songcaster.cpp:407-482 |
| SenderApps.RefreshLists | ohSongcast/Songcast.cpp:604-681 | after SubnetListChanged every earlier subnet is still listed, every adapter's subnet is listed, a nonzero current subnet is listed, and no address is listed twice |
| SenderApps.RescanLoops | ohSongcast/Songcast.cpp:623-664 | the subnet loops compute the rescan for the application's matching and, for Songcast, its detach loop |
| SenderApps.AdapterFor | ohSongcast/Songcast.cpp:685-705 | the adapter adopted is that of the first subnet listed with the current address, and the old one when none is |
| SenderApps.Start | ohSongcast/Songcast.cpp:529 | the constructor's SubnetListChanged builds the refreshed list and adopts the adapter before the sender exists |
| SenderApps.Fallback | ohSoundcard/Soundcard.cpp:358-362 | the corrected fallback adopts the first listed subnet and its adapter, and keeps the settings when the list is empty |
| SenderApps.FallbackAsWritten | ohSoundcard/Soundcard.cpp:358-362 | as written the fallback reads the first entry of the list without checking that it has one |
| SenderApps.EmptyFallbackAsWritten | ohSoundcard/Soundcard.cpp:358-362 | with no network adapter the list the fallback indexes is empty |
| SenderApps.Host.constructor | ohSongcast/Songcast.cpp:431-537 | the subnet list holds every adapter's subnet and a nonzero current subnet; a Soundcard started on subnet 0 takes the fallback; the other settings are stored |
| SenderApps.Host.UpdateAdapter | ohSongcast/Songcast.cpp:685-705 | reports whether the current subnet is listed, adopts its adapter, and tells the sender only when the adapter changed |
| SenderApps.Host.SubnetListChanged | ohSongcast/Songcast.cpp:604-681 | nothing while closing; otherwise the list is refreshed, the events reported and the adapter updated, and the sender is told SetInterface(adapter) exactly when the adapter changed and the sender exists |
| SenderApps.Host.SetSubnet | ohSongcast/Songcast.cpp:763-781 | an unchanged value or a closing object is ignored; otherwise the subnet and its adapter are adopted, the sender is told SetInterface(adapter) exactly when the adapter changed and the sender exists, and the configuration-changed callback fires; Soundcard's setter checks only the value; the same code is at ohSoundcard/Soundcard.cpp:550-568 |
| SenderApps.Host.SetChannel | ohSongcast/Songcast.cpp:783-799 | an unchanged value or a closing object is ignored; otherwise the sender's channel is set and the callback fires |
| SenderApps.Host.SetTtl | ohSongcast/Songcast.cpp:801-817 | the same guard for the TTL |
| SenderApps.Host.SetLatency | ohSongcast/Songcast.cpp:819-835 | the same guard for the latency |
| SenderApps.Host.SetMulticast | ohSongcast/Songcast.cpp:837-855 | the same guard; a change also refreshes the receiver manager's metadata |
| SenderApps.Host.SetEnabled | ohSongcast/Songcast.cpp:857-873 | the same guard for the enabled flag |
| SenderApps.Host.SetPreset | ohSongcast/Songcast.cpp:875-891 | the same guard for the preset |
| SenderApps.Host.Close | ohSongcast/Songcast.cpp:908-942 | closing is set and every subnet is reported removed, in list order |
| SenderApps.RemovedAll | ohSongcast/Songcast.cpp:934-940 | one removal callback per subnet, in list order |
| MacDrivers.Parts | ohSongcast/Mac/SoundcardDriver.cpp:559-562 | a domain splits into no parts exactly when it is empty |
| MacDrivers.IndexOf | ohSongcast/Mac/SoundcardDriver.cpp:562 | the end of the next part is the first separator, or the end of the domain when there is none |
| MacDrivers.ClassNameOf | ohSongcast/Mac/SoundcardDriver.cpp:557-568 | the class name built from the parts always ends with the base name |
| MacDrivers.Reversed | ohSongcast/Mac/SoundcardDriver.cpp:564-567 | the parts appear in the class name in reverse order, element by element |
| MacDrivers.PartsAt | ohSongcast/Mac/SoundcardDriver.cpp:560-562 | each parser step takes the text up to the next dot and moves strictly forward |
| MacDrivers.ClassNameSnoc | ohSongcast/Mac/SoundcardDriver.cpp:564-567 | each further part is prepended to the class name with an underscore |
| MacDrivers.PartsStep | ohSongcast/Mac/SoundcardDriver.cpp:560-568 | the parts consumed so far plus the parts of the rest are the parts of the whole domain |
| MacDrivers.ClassName | ohSongcast/Mac/SoundcardDriver.cpp:557-568 | the parser loop yields the base name with every dot-separated part of the domain prepended, last part first; the same code is at ohSongcaster/Mac/SoundcardDriver.cpp:498-510 |
| MacDrivers.ClassNameSplits | ohSongcast/Mac/SoundcardDriver.cpp:557-568 | splitting the class name on underscores gives back the domain parts reversed followed by the base name |
| MacDrivers.PartsJoin | ohSongcast/Mac/SoundcardDriver.cpp:560-562 | a part without a dot followed by a dot and more text is the first part of the split |
| MacDrivers.OpenHomeClassName | ohSongcast/Mac/SoundcardDriver.cpp:557-568 | the domain av.openhome.org with base songcast gives the class name org_openhome_av_songcast |
| MacDrivers.IndexAbsent | ohSongcast/Mac/SoundcardDriver.cpp:562 | a part with no dot runs to the end of the domain |
| MacDrivers.IndexAfter | ohSongcast/Mac/SoundcardDriver.cpp:562 | a part ends exactly at the first dot |
| MacDrivers.StripLocal | ohSongcast/Mac/SoundcardDriver.cpp:539-549 | the computer name loses its last six characters exactly when it is longer than ".local" and ends with ".local" in any case; otherwise it is unchanged; the same code is at ohSongcaster/Mac/SoundcardDriver.cpp:480-490 and ohSoundcard/Mac/SoundcardDriver.cpp:196-206 |
| MacDrivers.StripLocalSuffix | ohSongcast/Mac/SoundcardDriver.cpp:539-549 | a non-empty name followed by ".local" in any letter case is stripped back to the name |
| MacDrivers.TellSnoc | ohSongcast/Mac/SoundcardDriver.cpp:466-527 | the settings the kernel driver holds are the calls made on it applied in order |
| MacDrivers.TellOpen | ohSongcast/Mac/SoundcardDriver.cpp:466-478 | opening a connection forgets everything told before it |
| MacDrivers.TellOpened | ohSongcast/Mac/SoundcardDriver.cpp:466-478 | a freshly opened connection holds no settings |
| MacDrivers.SenderDriver.constructor | ohSongcast/Mac/SoundcardDriver.cpp:207-263 | a new driver is disabled and inactive, with ttl 4, latency 100, endpoint 0:0, adapter 0 and no kernel connection; the same code is at ohSongcaster/Mac/SoundcardDriver.cpp:194-248 |
| MacDrivers.SenderDriver.Replay | ohSongcast/Mac/SoundcardDriver.cpp:358-364 | the calls made after opening a new connection leave it holding every cached setting (latency only for Songcast); the same code is at ohSongcaster/Mac/SoundcardDriver.cpp:319-392 |
| MacDrivers.SenderDriver.SetEnabled | ohSongcast/Mac/SoundcardDriver.cpp:340-414 | records the value; with the service found, an old connection is deactivated and closed, and enabling opens a new one told every cached setting, so an open connection always holds the cache; the same code is at ohSongcaster/Mac/SoundcardDriver.cpp:319-392 |
| MacDrivers.SenderDriver.DriverFound | ohSongcast/Mac/SoundcardDriver.cpp:288-313 | nothing changes once the service is known or when the device is still missing; otherwise the recorded enabled state is applied; the same code is at ohSongcaster/Mac/SoundcardDriver.cpp:271-296 |
| MacDrivers.SenderDriver.SetEndpoint | ohSongcast/Mac/SoundcardDriver.cpp:416-424 | the endpoint and adapter are cached and forwarded only while a connection is open; the same code is at ohSongcaster/Mac/SoundcardDriver.cpp:394-401 |
| MacDrivers.SenderDriver.SetActive | ohSongcast/Mac/SoundcardDriver.cpp:426-433 | the active flag is cached and forwarded only while a connection is open; the same code is at ohSongcaster/Mac/SoundcardDriver.cpp:403-410 |
| MacDrivers.SenderDriver.SetTtl | ohSongcast/Mac/SoundcardDriver.cpp:435-442 | the ttl is cached and forwarded only while a connection is open; the same code is at ohSongcaster/Mac/SoundcardDriver.cpp:412-419 |
| MacDrivers.SenderDriver.SetLatency | ohSongcast/Mac/SoundcardDriver.cpp:444-451 | the latency is cached and forwarded only while a connection is open |
| MacDrivers.SenderDriver.Resend | ohSongcast/Mac/SoundcardDriver.cpp:514-527 | a resend request reaches the kernel driver only while a connection is open, carrying at most 1024 bytes and the count of whole 4-byte frames in them; also lines 457-462 of the same file |
| MacDrivers.ResendBytes | ohSongcast/Mac/SoundcardDriver.cpp:514-527 | the bytes sent are a prefix of the request of at most 1024 bytes, and the whole request when it fits |
| MacDrivers.ResendCount | ohSongcast/Mac/SoundcardDriver.cpp:514-527 | the frame count is the number of whole 4-byte frames in the bytes sent, at most 256 |
| MacDrivers.EnableForgetsAsWritten | ohSoundcard/Mac/SoundcardDriver.cpp:117-135 | as written, enabling leaves the kernel driver with no endpoint and no active state, whatever was set before |
| MacDrivers.EnableCalls | ohSoundcard/Mac/SoundcardDriver.cpp:117-135 | the corrected enabling calls open a connection and leave it holding the cached endpoint and active state |
| MacDrivers.SoundcardDriver.constructor | ohSoundcard/Mac/SoundcardDriver.cpp:55-106 | a new driver has no open handle, is inactive, with ttl 4 and endpoint 0:0 |
| MacDrivers.SoundcardDriver.SetEnabled | ohSoundcard/Mac/SoundcardDriver.cpp:108-147 | a repeated value changes nothing; enabling opens the handle and replays the cached settings, disabling closes it |
| MacDrivers.SoundcardDriver.SetEndpoint | ohSoundcard/Mac/SoundcardDriver.cpp:149-160 | the endpoint is cached and forwarded only while the handle is open |
| MacDrivers.SoundcardDriver.SetActive | ohSoundcard/Mac/SoundcardDriver.cpp:162-171 | the active flag is cached and forwarded only while the handle is open |
| MacDrivers.SoundcardDriver.SetTtl | ohSoundcard/Mac/SoundcardDriver.cpp:173-180 | the ttl is cached and never forwarded to the kernel driver |
| WavSender.NormalBytes | WavSender/WavSender.cpp:186-196 | the bytes of one 5 ms period at normal speed never exceed the 4096-byte packet limit |
| WavSender.SpeedBytes | WavSender/WavSender.cpp:201-204 | the bytes the speed asks for, with the product taken modulo 2^32, are capped at 4096, and equal the normal bytes at speed 100 |
| WavSender.SpeedBytesMonotone | WavSender/WavSender.cpp:201-204 | for speeds up to 150 the product does not wrap, so a faster speed never asks for fewer bytes |
| WavSender.Sizes | WavSender/WavSender.cpp:184-207 | a packet is the largest whole number of frames within the capped speed bytes, and its time is that of the normal-speed packet |
| WavSender.WholeFrames | WavSender/WavSender.cpp:205-206 | rounding bytes down to whole frames loses less than one frame |
| WavSender.Cycle | WavSender/WavSender.cpp:221-230 | looping the data yields exactly the requested number of bytes |
| WavSender.CycleEnd | WavSender/WavSender.cpp:223-230 | the read position after a packet stays within the data |
| WavSender.Repeat | WavSender/WavSender.cpp:226-229 | k laps of the data are k times its length |
| WavSender.CycleLaps | WavSender/WavSender.cpp:221-230 | looping from the start gives whole laps of the data followed by a prefix of it |
| WavSender.RepeatFront | WavSender/WavSender.cpp:226-229 | one lap in front of k-1 laps is k laps |
| WavSender.WrapCycle | WavSender/WavSender.cpp:225-230 | a packet that runs past the end is the rest of the data, whole laps, then the start of the data, and ends at the remainder |
| WavSender.ShortDataAsWritten | WavSender/WavSender.cpp:225-230 | as written, with 100 bytes of data and 880-byte packets (or no data at all), the second read runs past the end of the data |
| WavSender.ToInt32 | WavSender/WavSender.cpp:240 | the cast to a signed 32-bit value keeps values in range and agrees with the input modulo 2^32 |
| WavSender.TruncDiv | WavSender/WavSender.cpp:248 | C division truncates toward zero for negative offsets |
| WavSender.Period | WavSender/WavSender.cpp:245-261 | the next period is shorter exactly when the offset is below -1000 us (at least 1 ms, catching up by whole ms), 6 ms exactly when it is above 1000 us, and 5 ms otherwise |
| WavSender.Retimed | WavSender/WavSender.cpp:233-276 | the first tick, or a clock that went backwards, keeps the offset and a 5 ms period; otherwise the offset moves by the 32-bit drift of this tick and the period follows from it |
| WavSender.PcmSender.constructor | WavSender/WavSender.cpp:110-135 | a new sender is running at normal speed from the start of the data, whose length is the 32-bit sample bytes divided by 8, and keeps the rate, bit rate, channels and depth it was given |
| WavSender.PcmSender.Start | WavSender/WavSender.cpp:137-142 | starting tells the driver the format (rate, bit rate, channels, depth, lossless, codec "WAV"), enables the sender, sends no audio and sets the timer for one period |
| WavSender.PcmSender.Pause | WavSender/WavSender.cpp:144-159 | pause toggles; resuming forgets the last tick and the offset and sets the timer, pausing changes nothing else |
| WavSender.PcmSender.Restart | WavSender/WavSender.cpp:161-166 | the next packet starts at the beginning of the data |
| WavSender.PcmSender.SetSpeed | WavSender/WavSender.cpp:168-175 | the speed is recorded and the packet sizes follow it |
| WavSender.PcmSender.SendPacket | WavSender/WavSender.cpp:221-231 | the audio sent is the next packet's worth of the data played in a loop, and the read position moves on by that much |
| WavSender.PcmSender.Wrap | WavSender/WavSender.cpp:225-230 | a packet past the end sends the rest of the data, whole laps, then the start of the data, ending at the remainder |
| WavSender.PcmSender.Laps | WavSender/WavSender.cpp:228-229 | the rest of a packet is whole laps of the data plus a remainder in (0, data length] |
| WavSender.PcmSender.Emit | WavSender/WavSender.cpp:222-229 | each audio call's bytes follow those sent so far |
| WavSender.PcmSender.Announce | WavSender/WavSender.cpp:217-227 | the track and metatext calls send no audio |
| WavSender.PcmSender.TimerExpired | WavSender/WavSender.cpp:209-280 | nothing while paused; otherwise the track and metatext are set at the start of the loop, the next looped packet is sent and the timer set by the drift correction |
| WavSender.SpeedAfter | WavSender/WavSender.cpp:564-588 | the speed stays between 75 and 150, and 'n' resets it to 100 |
| WavSender.SpeedKeys | WavSender/WavSender.cpp:560-588 | the key loop ends with the speed the keys up to 'q' select |
| WavSender.ParseWav | WavSender/WavSender.cpp:374-488 | a file under 44 bytes or with a short data chunk is unreadable, a missing RIFF or WAVE tag is invalid, and a loaded file has the fmt and data tags, a 16-byte PCM format chunk and the data the header announces |
| WavSender.EncodeWav | WavSender/WavSender.cpp:374-478 | a canonical file is the 44-byte header followed by the data |
| WavSender.FmtBody | WavSender/WavSender.cpp:414-465 | the format chunk body is 20 bytes |
| WavSender.DecodeLe16At | WavSender/WavSender.cpp:427-430 | a little-endian 16-bit field reads back the value written |
| WavSender.DecodeLe32At | WavSender/WavSender.cpp:414-419 | a little-endian 32-bit field reads back the value written |
| WavSender.ParseEncoded | WavSender/WavSender.cpp:374-488 | every canonical PCM file whose data chunk matches its header loads back to its format and data |
| WavSender.Reverse | WavSender/WavSender.cpp:523-526 | reversing keeps the length |
| WavSender.ReverseReverse | WavSender/WavSender.cpp:514-526 | reversing twice restores the bytes |
| WavSender.Swapped | WavSender/WavSender.cpp:497-529 | converting the samples keeps the length of the data |
| WavSender.SwappedInvolution | WavSender/WavSender.cpp:497-529 | converting the samples twice restores the data |
| WavSender.TimesIsProduct | WavSender/WavSender.cpp:528 | the sample offset is the sample count times the width |
| WavSender.Spliced | WavSender/WavSender.cpp:512-526 | reversing one sample in place keeps the length |
| WavSender.SwapFirst | WavSender/WavSender.cpp:508-529 | converting the first k samples keeps the length |
| WavSender.SwappedSnoc | WavSender/WavSender.cpp:508-529 | converting one more whole sample appends its reversed bytes |
| WavSender.SwappedTail | WavSender/WavSender.cpp:500-508 | a trailing part sample is left as it is |
| WavSender.SwapFirstPrefix | WavSender/WavSender.cpp:508-529 | after k samples the converted part is exactly the first k samples |
| WavSender.SwapFirstStep | WavSender/WavSender.cpp:508-529 | one more pass converts one more sample of the prefix |
| WavSender.SplicedAfter | WavSender/WavSender.cpp:512-528 | reversing the sample just past a prefix leaves the prefix alone |
| WavSender.SwapFirstAll | WavSender/WavSender.cpp:500-529 | once every whole sample is done the whole data is converted |
| WavSender.TimesStep | WavSender/WavSender.cpp:528 | each pass moves the position on by one sample and stays within the whole samples |
| WavSender.SwapSamples | WavSender/WavSender.cpp:493-529 | the data is converted in place to the byte order with every whole sample reversed |
| WavSender.SwapEach | WavSender/WavSender.cpp:508-529 | the loop over the whole samples converts exactly those samples |
| WavSender.WholeSampleCount | WavSender/WavSender.cpp:500 | the count is the number of whole samples in the data |
| WavSender.SwapNext | WavSender/WavSender.cpp:508-529 | one pass of the loop converts the next sample |
| WavSender.SwapOne | WavSender/WavSender.cpp:510-528 | one sample's bytes are reversed in place and nothing else changes |
| WavSender.CopyOut | WavSender/WavSender.cpp:514-517 | the sample's bytes are copied to the buffer |
| WavSender.WriteBack | WavSender/WavSender.cpp:523-526 | the buffer goes back last byte first and the rest of the data is unchanged |
| Dissectors.LaidWithin | Wireshark/plugins/ohm/packet-ohm.c:167-296 | every field shown lies before the cursor, which never passes the end of the payload |
| Dissectors.Start | Wireshark/plugins/ohm/packet-ohm.c:157-176 | the layout starts with no fields at offset 0 |
| Dissectors.Add | Wireshark/plugins/ohm/packet-ohm.c:175-293 | a field is shown and the cursor advances by its size exactly when it fits in the payload; otherwise the layout stops there with the fields shown so far; the same code is at Wireshark/plugins/ohz/packet-ohz.c:116-172 |
| Dissectors.CommonHeader | Wireshark/plugins/ohm/packet-ohm.c:175-185 | the common header shows signature, version, type and length at offsets 0, 4, 5 and 6, ending at 8; the same code is at Wireshark/plugins/ohz/packet-ohz.c:116-126 |
| Dissectors.AudioBody | Wireshark/plugins/ohm/packet-ohm.c:188-243 | the audio layout completes exactly when the payload holds the 58-byte audio header and the codec name whose length is at byte 57 |
| Dissectors.AudioFixed | Wireshark/plugins/ohm/packet-ohm.c:190-233 | the fixed audio fields, 19 in all, complete exactly when the payload holds 57 bytes |
| Dissectors.AudioLead | Wireshark/plugins/ohm/packet-ohm.c:190-200 | header length, flags, sample count and frame end at offset 16 when the payload holds them |
| Dissectors.AudioStamps | Wireshark/plugins/ohm/packet-ohm.c:202-233 | the timestamps through the reserved byte end at offset 57 when the payload holds them |
| Dissectors.AudioRates | Wireshark/plugins/ohm/packet-ohm.c:217-233 | the rates, volume offset, depth, channels and reserved byte end at offset 57 when the payload holds them |
| Dissectors.TrackBody | Wireshark/plugins/ohm/packet-ohm.c:245-263 | the track layout completes exactly when the payload holds the sequence, both lengths and the uri and metadata they announce |
| Dissectors.MetatextBody | Wireshark/plugins/ohm/packet-ohm.c:265-276 | the metatext layout completes exactly when the payload holds the text the length at 12 announces, shown from offset 16 |
| Dissectors.Entries | Wireshark/plugins/ohm/packet-ohm.c:284-287 | the slave entries only extend the fields shown and stay within the payload |
| Dissectors.OhmLayout | Wireshark/plugins/ohm/packet-ohm.c:187-296 | the Ohm layout extends the common header, and a join, listen, leave or unknown type shows nothing more |
| Dissectors.ResendBody | Wireshark/plugins/ohm/packet-ohm.c:290-294 | the resend layout adds the count at offset 8 exactly when the payload holds 12 bytes |
| Dissectors.SlaveBody | Wireshark/plugins/ohm/packet-ohm.c:278-288 | the slave layout completes exactly when the payload holds the count and the six-byte entries it announces |
| Dissectors.DissectOhm | Wireshark/plugins/ohm/packet-ohm.c:129-298 | a payload is refused exactly when it goes to a 239.253 address on another port, is under 8 bytes or lacks the Ohm signature; otherwise the whole payload is claimed, with the layout's fields when a tree is built |
| Dissectors.SlaveEntries | Wireshark/plugins/ohm/packet-ohm.c:284-287 | the loop shows one six-byte entry per listed slave until one runs past the payload |
| Dissectors.EntriesStopped | Wireshark/plugins/ohm/packet-ohm.c:284-287 | once the layout has stopped, further entries add nothing |
| Dissectors.EntriesLayout | Wireshark/plugins/ohm/packet-ohm.c:284-287 | k entries fit exactly when 6k bytes remain, and the j-th covers the six bytes at 6j past the count |
| Dissectors.SignatureIsMagic | Wireshark/plugins/ohm/packet-ohm.c:151-156 | the dissector's signature test accepts exactly the payloads that start with the sender's "Ohm " magic; also line 38 of the same file |
| Dissectors.HeaderAgrees | Wireshark/plugins/ohm/packet-ohm.c:149-185 | a payload starting with an encoded Ohm header passes the heuristic test and shows the sent type |
| Dissectors.AudioAgrees | Wireshark/plugins/ohm/packet-ohm.c:188-243 | an encoded audio message lays out completely, with the flags, frame, codec name and samples the sender wrote |
| Dissectors.TrackAgrees | Wireshark/plugins/ohm/packet-ohm.c:245-263 | an encoded track message lays out completely, with the uri and metadata the sender wrote |
| Dissectors.MetatextAgrees | Wireshark/plugins/ohm/packet-ohm.c:265-276 | an encoded metatext message lays out completely, with the text the sender wrote |
| Dissectors.SlavesAgree | Wireshark/plugins/ohm/packet-ohm.c:278-288 | an encoded slave list lays out completely with one entry per slave |
| Dissectors.OhzLayout | Wireshark/plugins/ohz/packet-ohz.c:128-175 | the Ohz layout extends the common header, and an unknown type shows nothing more |
| Dissectors.ZoneQueryBody | Wireshark/plugins/ohz/packet-ohz.c:129-137 | the zone query shows the id length at 8 and the id from 12, and completes exactly when the id fits |
| Dissectors.ZoneUriBody | Wireshark/plugins/ohz/packet-ohz.c:139-154 | the zone uri message shows both lengths first, then the id and the uri, and completes exactly when both fit |
| Dissectors.PresetQueryBody | Wireshark/plugins/ohz/packet-ohz.c:156-160 | the preset query shows the preset number at 8 exactly when the payload holds 12 bytes |
| Dissectors.PresetInfoBody | Wireshark/plugins/ohz/packet-ohz.c:162-173 | the preset info shows the number, the metadata length and the metadata, and completes exactly when the metadata fits |
| Dissectors.DissectOhz | Wireshark/plugins/ohz/packet-ohz.c:74-179 | a payload is refused exactly when it is not to port 51972, is under 8 bytes or lacks the Ohz signature; otherwise the whole payload is claimed, with the layout's fields when a tree is built |
| Songshark.FieldsBehindHeaders | ohSongcast/Windows/Wpf/ohSongshark/MainWindow.xaml.cs:122-138 | behind the 42 bytes of link headers, the halt bit and the frame number the capture reads are the flags byte and the frame field of the Ohm audio header, which the dissector lays out at the same offsets |
| Songshark.MinGap | ohSongcast/Windows/Wpf/ohSongshark/MainWindow.xaml.cs:214-228 | the smallest gap is at most one hour, its starting value; also lines 179-183 of the same file |
| Songshark.MaxGap | ohSongcast/Windows/Wpf/ohSongshark/MainWindow.xaml.cs:214-228 | the largest gap is at least 0, its starting value; also lines 179-183 of the same file |
| Songshark.MinGapIsMinimum | ohSongcast/Windows/Wpf/ohSongshark/MainWindow.xaml.cs:214-228 | the smallest gap is at most every gap that follows a non-halted datagram, and is one of them unless it is still one hour |
| Songshark.MaxGapIsMaximum | ohSongcast/Windows/Wpf/ohSongshark/MainWindow.xaml.cs:214-228 | the largest gap is at least every gap that follows a non-halted datagram, and is one of them unless it is still 0 |
| Songshark.Lost | ohSongcast/Windows/Wpf/ohSongshark/MainWindow.xaml.cs:230-233 | fewer frame numbers are reported lost than datagrams arrived |
| Songshark.LostComplete | ohSongcast/Windows/Wpf/ohSongshark/MainWindow.xaml.cs:230-233 | every datagram whose frame number does not follow its predecessor's is reported |
| Songshark.LostSound | ohSongcast/Windows/Wpf/ohSongshark/MainWindow.xaml.cs:230-233 | every frame number reported is that of a datagram that did not follow its predecessor |
| Songshark.CountedPrefix | ohSongcast/Windows/Wpf/ohSongshark/MainWindow.xaml.cs:214-241 | a later datagram does not change how the earlier gaps and skips are judged |
| Songshark.Analyser.constructor | ohSongcast/Windows/Wpf/ohSongshark/MainWindow.xaml.cs:173-186 | before any run nothing has been captured, reported or requested to stop; also line 43 of the same file |
| Songshark.Analyser.Start | ohSongcast/Windows/Wpf/ohSongshark/MainWindow.xaml.cs:276-300 | a run starts on the chosen endpoint with fresh statistics, no halt and no stop request; also lines 141-153 of the same file |
| Songshark.Analyser.ResetStats | ohSongcast/Windows/Wpf/ohSongshark/MainWindow.xaml.cs:179-184 | no datagrams, a one-hour minimum gap and a zero maximum |
| Songshark.Analyser.Stop | ohSongcast/Windows/Wpf/ohSongshark/MainWindow.xaml.cs:302-306 | the stop button sets the stop request |
| Songshark.Analyser.PacketHandler | ohSongcast/Windows/Wpf/ohSongshark/MainWindow.xaml.cs:190-248 | a stop request ends the capture and changes nothing; a frame not to the endpoint changes nothing; a matched datagram extends the statistics to those of every datagram seen; one too short for a frame number ends the capture after the gap updates; also lines 159-165 of the same file |
| Songshark.Analyser.Append | ohSongcast/Windows/Wpf/ohSongshark/MainWindow.xaml.cs:212-241 | a matched datagram is added to those seen and the count, gaps, lost frames, halt flag and last frame stay those of all datagrams seen |
| Songshark.Analyser.Truncated | ohSongcast/Windows/Wpf/ohSongshark/MainWindow.xaml.cs:212-230 | a datagram too short for its frame number is counted only when it is the first; otherwise only the gaps move before the read fails |
| Songshark.Extended | ohSongcast/Windows/Wpf/ohSongshark/MainWindow.xaml.cs:214-241 | one more datagram moves the minimum and maximum by its gap when that counts, and reports its frame number exactly when it skips |
| Songshark.FirstColon | ohSongcast/Windows/Wpf/ohSongshark/MainWindow.xaml.cs:252-254 | the split point is the first ':' of the text, or its end when there is none |
| Songshark.ParseUint | ohSongcast/Windows/Wpf/ohSongshark/MainWindow.xaml.cs:264 | a port text is accepted exactly when it is a non-empty run of decimal digits below 2^32, and yields their value |
| Songshark.Decimal | ohSongcast/Windows/Wpf/ohSongshark/MainWindow.xaml.cs:264 | the decimal text of a number reads back as that number |
| Songshark.EndpointAsWritten | ohSongcast/Windows/Wpf/ohSongshark/MainWindow.xaml.cs:250-274 | as written, the handler throws exactly when the text has an address and a uint port above 65535 |
| Songshark.PortOverflowAsWritten | ohSongcast/Windows/Wpf/ohSongshark/MainWindow.xaml.cs:264-266 | as written, an address followed by a port from 65536 to 2^32-1 makes the handler throw |
| Songshark.ParseEndpoint | ohSongcast/Windows/Wpf/ohSongshark/MainWindow.xaml.cs:250-274 | the text names an endpoint exactly when it has a ':', an address before it and a port of at most 65535 after it; this agrees with the code wherever the code does not throw |
| Songshark.EndpointRoundTrip | ohSongcast/Windows/Wpf/ohSongshark/MainWindow.xaml.cs:250-274 | an address followed by ':' and the decimal port names exactly that endpoint |
| Songshark.SplitAtColon | ohSongcast/Windows/Wpf/ohSongshark/MainWindow.xaml.cs:254 | splitting at the first ':' gives back the address text and the port text |
| Songshark.FirstColonOf | ohSongcast/Windows/Wpf/ohSongshark/MainWindow.xaml.cs:254 | the first ':' is found where it is |

## Left out

- Platform calls are inputs, or logs of the calls made: sockets, the WSK calls of the Windows drivers, IOKit and CoreAudio, IRP and MDL allocation. An MDL chain is modelled as its header plus the audio bytes of its fragments.
- Threads, timers, spin locks and mutexes are not modelled as such. Each locked method is one atomic step; timers are logs of `FireIn` and `Cancel`; clock readings and capture timestamps are parameters.
- CoreAudio device switching in the Mac user-space drivers (choosing and restoring the default output device) is not modelled. Only the cached settings and the calls on the kernel driver are.
- The OhNet `Parser` and the capacities of the Mac drivers' name buffers are not modelled. The class name is derived by splitting on '.', and names are unbounded strings.
- OhmMsgUser.OhmMsgFactory.Create: requires `Readable`, which includes that a track's uri and metadata and a metatext's text fit their 1024, 4096 and 1024-byte buffers (OhmMsg.h:99-100 and 124). The source accepts any such datagram, and `Bwx::Replace` then fails an assertion (OhmMsg.cpp:161-162 and 204). The model excludes these datagrams instead of modelling the assertion failure. The same holds for `OhmMsgUser.OhmMsg.CreateTrack`, `CreateMetatext` and the factory's `CreateTrack` and `CreateMetatext`.
- OhmMsgDriver.OhmMsgFactory: `CreateTrack` and `CreateMetatext` (and `OhmMsg.CreateTrack` and `CreateMetatext`) require the uri, metadata and text to fit their 1024, 4096 and 1024-byte buffers (ohSongcast/Windows/Driver/drmsimp/OpenHome/OhmMsg.h:163-164 and 191). In the source an oversized argument is an assertion failure in `Bwx::Replace`; the model excludes it.
- OhmSenderDriver.SenderDriver.SetAudioFormat: requires a codec name under 256 bytes, since its length travels in one byte of the audio header. The buffer it is copied into is declared in OhmSender.h, which is not part of this model. A name longer than that buffer is an assertion failure in `Bwx::Replace` at OhmSender.cpp:278, and the model excludes such names.
- The MD5 hashing of the sender UDN in ohSongcast/Songcast.cpp uses md5.c, which is not part of this model.
- The `Receiver` wrapper class of ohSongcast/Songcast.cpp (lines 226-338) and the `Subnet` `AddRef`/`RemoveRef` reference counts are not modelled. They only forward calls or guard deletion across threads.
- `Songcast::SetTrack`, `SetMetatext` and `RefreshReceivers` are one-line forwards to the `OhmSender` and `ReceiverManager3` calls modelled in `OhmSender` and `ReceiverManager3`.
- `UpdateTtl` on a running sender is a socket option call and is not modelled.
- OhmSender.h is not part of this model. Its `kMaxHistoryFrames` and sender-side `kMaxSlaveCount` are parameters: `OhmSenderDriver.SenderDriver`'s `maxHistory` and the `maxSlaves` of `OhmSender.Sender.constructor`.
- OhmSender: the receive threads (`RunMulticast`, `RunUnicast`), the unicast Leave handling and target switching, the zone (Ohz) protocol thread with `SendZoneUri` and the preset answers, and the HTTP image server are not modelled. Of the unicast thread only the slave bookkeeping of Join and Listen is modelled. The DIDL album-art element is an input.
- OhmSenderDriver: the audio message image uses the Ohm wire format as the receivers decode it, not the user library's `Externalise` (see Findings). A failed socket send is ignored by the source, so every send appears in the socket log.
- OhmProtocol: the random part of the listen delays is not modelled, and a datagram whose header does not validate (`OhmError`) is a `Malformed` datagram that is skipped.
- SongcastMinwave.Miniport.QueueAddLocked: a pipeline message is allocated fresh, not taken from the `OhmMsgFactory` pool (`CreateAudio`, ohSongcast/Windows/Driver/drmsimp/minwave.cpp:997). Running out of pool messages is not modelled.
- SongcastMinwave.Miniport: the message reference counts (`AddRef` and `RemoveRef` at ohSongcast/Windows/Driver/drmsimp/minwave.cpp:1030, 1035, 1143 and 1356) are not modelled. A message leaves the model when it leaves the pipeline and the history.
- MacDrivers.SenderDriver.Resend: the source passes the driver the whole 1024-byte resend buffer, with whatever an earlier request left past the copied bytes. The model passes only the copied bytes, with the frame count that says how many the driver reads.
- MacSongcast: the kernel socket's `Open`, `SetEndpoint` and `SetTtl`, and the destructor, are kernel calls and are not modelled.
- Floating point (AudioClip.cpp, PluginUdp.cs) and the UI code are outside the modelled core.
- WavSender: opening and reading the file are inputs; `ParseWav` takes the file's bytes. The console output is not modelled.
- WavSender.SwapSamples: requires 0 < width <= 4. Below 8 bits the source divides by zero, and above 32 bits it overruns its 4-byte sample buffer.
- WavSender.PcmSender.constructor: requires a non-empty data chunk of at least the bytes the sample count names. With no data the source's looping read has nothing to loop over (see Findings).
- WavSender.PcmSender.constructor: also requires a sample rate of at least 10 Hz and a frame of at least one byte. At lower values the source divides by zero when it sizes packets (WavSender/WavSender.cpp:197-198).
- Dissectors: only the offsets, the sizes and the accept/reject decisions are modelled; the `proto_tree` display API is not. A field that runs past the payload stops the layout, which is how Wireshark reports a malformed packet. Lengths are unbounded naturals rather than `gint`.
- Songshark: the capture library (Pcap.Net) is not modelled. A captured frame is its bytes, its timestamp and whether it is an IPv4 UDP datagram to the endpoint. The fixed offsets 51 and 54 assume no IP options and no VLAN tag, as the source does. Every UDP datagram to the endpoint is counted, audio or not.
- Songshark.Analyser.PacketHandler: the datagram count is unbounded; the source's `uint` count wraps after 2^32 datagrams.
- Songshark.ParseUint: models `uint.TryParse` on plain decimal digits only; the leading or trailing white space and the sign it also accepts are not modelled. `IPAddress.TryParse` is a parameter.
- SenderApps.Host.SetSubnet: requires that a new subnet, when the call is not skipped, is in the subnet list. The source does not check this beforehand; it asserts that `UpdateAdapter()` found the subnet (ohSongcast/Songcast.cpp:778, likewise ohSoundcard/Soundcard.cpp:565 and ohSongcaster/Songcaster.cpp:583). The model excludes the call that would fail that assertion instead of modelling the failure.
- MacDrivers.SenderDriver.SetEnabled and MacDrivers.SoundcardDriver.SetEnabled: assume that `IOServiceOpen` succeeds once the service is found. In the source a failure throws (`SongcastError` at ohSongcast/Mac/SoundcardDriver.cpp:471-474, `SongcasterError` at ohSongcaster/Mac/SoundcardDriver.cpp:433-436, `SoundcardError` at ohSoundcard/Mac/SoundcardDriver.cpp:120-123). The model has no failing open, so it does not capture the state an exception leaves behind.
- OhmProtocol.ResendFor: the missed frames go into an unbounded sequence. The source writes them into a `Bws<OhmHeader::kHeaderBytes + 400>` (OhmProtocolUnicast.cpp:73, OhmProtocolMulticast.cpp:76), so a gap of more than 100 frames overflows that buffer and fails its assertion; the model does not capture that failure.
- OhmSender.Sender.CheckSlaveExpiry, HandleJoin and HandleListen: a slave's expiry time is an unbounded integer compared with `<=`. The source adds `kTimerExpiryTimeoutMs` to a 32-bit millisecond clock (OhmSender.cpp:1090, 1098, 1122 and 1128) and compares with OhNet's `Time::IsInPastOrNow`, which is not part of this model. How a comparison behaves when that clock wraps is not captured.
- ReceiverManager3.Manager.SetMetadata: the metadata is an unbounded string. The source replaces it into a `Bws<kMaxMetadataBytes>` of 4000 bytes (ohSongcast/ReceiverManager3.h:104 and 134, ReceiverManager3.cpp:212-215), where a longer value fails the `Replace` assertion; the model does not capture that failure.

## Findings

| source | as written | input that shows it | evidently intended | confidence | as-written member | corrected member |
|---|---|---|---|---|---|---|
| ohSongcast/Windows/Driver/drmsimp/minwave.cpp:886-901 | the 44.1 kHz family test `% 441` is applied to the byte-reversed stored sample rate | 44100 Hz at the default 100 ms: the stored latency is 1228800 ticks of the 48 kHz clock | the test on the rate itself, giving 1128960 ticks of the 44.1 kHz clock | not executed | SongcastMinwave.MediaLatencyFieldAsWritten, SongcastMinwave.Family44kAsWrittenMisses44100 | SongcastMinwave.MediaLatencyField, SongcastMinwave.Family44kFollowsRate, SongcastMinwave.FormatHeader, SongcastMinwave.StartHeader, SongcastMinwave.StartHeaderIsFormatHeader, SongcastMinwave.DefaultHeaderFields, SongcastMinwave.Miniport.constructor, SongcastMinwave.Miniport.SetDefaultFormatLocked, SongcastMinwave.Miniport.SetFormatLocked, SongcastMinwave.Miniport.SetFormat |
| ohSongcast/Windows/Driver/drmsimp/minwave.cpp:1090-1110 | the clock for the packet timestamps is chosen by `% 441` on the byte-reversed stored sample rate | 44100 Hz with one second of interrupt time: the timestamp is 12288000 ticks of the 48 kHz clock | the test on the rate itself, giving 11289600 ticks of the 44.1 kHz clock | not executed | SongcastMinwave.NumberedAsWritten, SongcastMinwave.NumberedAsWrittenMisses44100 | SongcastMinwave.Numbered, SongcastMinwave.Miniport.PipelineOutput |
| ohSongcaster/Windows/Driver/drmsimp/minwave.cpp:983-1004 | the clock for the packet timestamps is chosen by `% 441` on the byte-reversed stored sample rate | 44100 Hz with one second of interrupt time: the packet carries 12288000 ticks of the 48 kHz clock | the test on the rate itself, giving 11289600 ticks of the 44.1 kHz clock | not executed | SongcasterMinwave.OutgoingAsWritten, SongcasterMinwave.OutgoingAsWrittenMisses44100 | SongcasterMinwave.Outgoing, SongcasterMinwave.Mpus.Output |
| ohSongcaster/Windows/Driver/drmsimp/minwave.cpp:1342-1357 | the clock for the stored latency is chosen by `% 441` on the byte-reversed stored sample rate | the start format, 44100 Hz at 100 ms: the stored latency is 1228800 ticks | the test on the rate itself, giving 1128960 ticks | not executed | SongcastMinwave.MediaLatencyFieldAsWritten, SongcasterMinwave.StartLatencyAsWritten | SongcasterMinwave.Mpus.UpdateLatency, SongcasterMinwave.Mpus.SetFormatLocked, SongcasterMinwave.Mpus.constructor, SongcasterMinwave.Mpus.SetDefaultFormatLocked |
| ohSongcast/Windows/Driver/drmsimp/minwave.cpp:1392-1433 | the requested frame (host order) is compared with the message's raw, byte-reversed frame field | a resend request for frame 1 against the packet numbered 1 (stored 0x01000000) | compare with the frame number the packet carries | not executed | SongcastMinwave.FrameDiffAsWritten, SongcastMinwave.FrameDiffAsWrittenMissesFrame1 | SongcastMinwave.FrameDiff, SongcastMinwave.Miniport.ResendEntry, SongcastMinwave.Miniport.ResendFrames, SongcastMinwave.Miniport.PipelineResend |
| OhmMsg.cpp:119-122 | the audio message's `BitDepth` returns the halt flag | a non-halting 24-bit stream reports depth 0 | return the header's bit depth | not executed | OhmMsgUser.BitDepthAsWritten, OhmMsgUser.BitDepthAsWrittenLosesDepth | OhmMsgUser.OhmMsg.BitDepthAccessor, OhmMsgUser.BitDepthReadsSentDepth |
| OhmMsg.cpp:144-147,187-190,224-227 | every `Externalise` writes the five bytes "HELLO" | any audio, track or metatext message | write the message's header and body | not executed | OhmMsgUser.OhmMsg.ExternaliseAsWritten, OhmMsgUser.HelloIsNoMessage | OhmMsgUser.OhmMsg.ExternaliseTrack, OhmMsgUser.OhmMsg.ExternaliseMetatext |
| OhmProtocolUnicast.cpp:150-159 | the slave loop writes one slot per entry of the datagram without a bound | a Slave datagram with 5 entries writes slot 4 of the 4-slot list | keep at most kMaxSlaveCount entries | not executed | OhmProtocol.SlotsWrittenAsWritten, OhmProtocol.SlaveOverflowAsWritten | OhmProtocol.Clamp, OhmProtocol.ClampKeepsOrder, OhmProtocol.Unicast.HandleSlave, OhmProtocol.Unicast.Receive, OhmProtocol.Unicast.JoinPhase, OhmProtocol.Unicast.Phases, OhmProtocol.Unicast.Play |
| ohSongcast/ReceiverManager1.cpp:171-173 | a removed receiver clears the selection only when it is on the current source's device | the selected receiver leaves while the current source is not a receiver: it stays selected after removal | clear the selection when the selected receiver is removed | not executed | ReceiverManager1.DeselectAsWritten, ReceiverManager1.SelectionDanglesAsWritten | ReceiverManager1.Deselect, ReceiverManager1.Room.Changed, ReceiverManager1.ChangedSelection |
| ohSoundcard/Soundcard.cpp:358-362 | with subnet 0 the constructor takes the first entry of the subnet list without checking it | a machine with no network adapter: the list is empty | keep the given subnet and adapter when the list is empty | not executed | SenderApps.FallbackAsWritten, SenderApps.EmptyFallbackAsWritten | SenderApps.Fallback |
| ohSoundcard/Mac/SoundcardDriver.cpp:117-135 | the replaying setters run before the handle-open flag is set, so they forward nothing | SetEndpoint then SetEnabled(true): the kernel driver holds no endpoint and no active state | replay the cached endpoint and active state to the opened driver | not executed | MacDrivers.EnableForgetsAsWritten | MacDrivers.EnableCalls, MacDrivers.SoundcardDriver.SetEnabled |
| WavSender/WavSender.cpp:225-230 | a packet past the end reads the remainder from the start of the data without checking it fits | 100 bytes of data with 880-byte packets: the second read runs 680 bytes past the data | loop over the data as often as the packet needs | not executed | WavSender.ShortDataAsWritten | WavSender.PcmSender.Wrap, WavSender.PcmSender.Laps, WavSender.PcmSender.SendPacket |
| ohSongcast/Windows/Wpf/ohSongshark/MainWindow.xaml.cs:250-274 | the port is parsed as any `uint` and passed to the endpoint constructor, which throws above 65535 | the text "10.2.9.32:70000" | treat a port above 65535 as no endpoint | not executed | Songshark.EndpointAsWritten, Songshark.PortOverflowAsWritten | Songshark.ParseEndpoint |
