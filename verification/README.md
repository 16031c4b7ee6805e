# Verified models of Aura's protocols and of StormLib's file streams

This Dafny project models the parts of the Aura host bot, and of the StormLib library it brings along, that
carry the most state and arithmetic, and proves what they promise:

- the CRC-32 and SHA-1 implementations refine their bit-by-bit and loop definitions (`Crc32.dfy`,
  `Sha1Transform.dfy`, `Sha1.dfy`);
- a mirror stream that caches a master block by block, with a bitmap or with a map of appended blocks, and an
  encrypted stream, always deliver the content (`BlockStream.dfy`, `Mirror.dfy`, `MirrorFile.dfy`, over
  `Bitmap.dfy`, `Division.dfy` and `Bytes.dfy`);
- the `(attributes)` file of an archive can be loaded again (`Attributes.dfy`);
- a GProxy++ player who reconnects loses and repeats nothing (`GProxy.dfy`);
- the running game batches actions, stops for laggers and compares checksums as intended (`ActionBatch.dfy`,
  `LagScreen.dfy`, `Desync.dfy`, over `Packet.dfy`);
- the lobby keeps player ids and colours apart, shuffles slots, hides a command in the handicaps, and sends the
  map (`PlayerIds.dfy`, `Slots.dfy`, `Hcl.dfy`, `MapDownload.dfy`, over `GameSlot.dfy`), and stat strings
  round-trip (`StatString.dfy`).

Objects that the source changes in place are classes whose methods are proved against functions of the old
state; the properties are lemmas about those functions and invariants (`Valid()`) that every method keeps.

## Conventions

- Words are bit vectors where the source shifts and masks them; sizes and counters are natural numbers, with the
  32-bit or 64-bit wrap-around written out where it can happen.
- The network, the clock and the file system are inputs: time, acknowledgements, the arrival of packets and
  disconnections are parameters or events; `random_shuffle` is any permutation; ban and admin checks are booleans.
- The system may stop a write to a mirror after any number of bytes (`BaseWrite`), unless it is one that completes
  every write for which there is room (`writesComplete`). Whether the k-th read of the master succeeds is an
  arbitrary function (`masterUp`); a read that fails may leave anything in its part of the buffer.
- The clock of a running game is past zero, since the source uses a time of zero for "not set".

## Where the code does not keep what it promises

Each point is stated by the members named.

- `BlockStream_Read` (`StormLib/src/FileStream.cpp:896-924`) tries the run of blocks that failed once more and, if
  that succeeds, reports success although the blocks behind it were not read. This happens exactly if the first
  attempt to fail is for a missing run with available blocks behind it, and the attempt after it succeeds
  (`Mirror.CutShort`, told by the state before the call); `BlockStream.Stream.Read` says where such a read ends,
  and that it delivers the content otherwise. `BlockStream.ReadCutShort` is a run of the code that gets there.
- `StringToInt` (`StormLib/src/FileStream.cpp:50-61`) subtracts `'9'` from a digit where it should subtract `'0'`:
  no build number survives being written to and read from a part header (`MirrorFile.BuildNumberLost`).
- A part mirror that was closed is not always found again: without its master, exactly if its build number has
  three digits and it holds a block (`MirrorFile.PartReopens`); for its master, only if what it stores is, besides,
  whole blocks or as long as the master (`MirrorFile.PartReopensForMaster`). So the cached blocks are lost when the
  short last block is stored before all the others are, or when a write was cut short
  (`MirrorFile.ShortLastBlockIsLost`).
- Patch bits are lost when the number of archive entries is one more than a multiple of eight
  (`StormLib/src/SFileAttributes.cpp:53-54` writes one byte fewer than lines 227-232 look for; `Attributes.PatchBitsSurvive`).
- An `(attributes)` file without the bit array that its flags name is taken for one of one entry less if the array
  would have as many bytes as one entry has in the others (`StormLib/src/SFileAttributes.cpp:120-122` is tried before
  line 125); the last entry is then not loaded (`Attributes.NoBitArray`).
- The packet of a single action of 65525 bytes or more has a wrong length field (`ActionBatch.PacketHolds`).
- `EventGProxyReconnect` sets the start of the wait to zero (`src/gameplayer.cpp:480`), so that the next update drops
  everyone on the lag screen, however short the lag, if the clock shows at least the wait; but not if some player is
  first found disconnected before that, which starts the wait anew (`LagScreen.ReconnectionDropsLaggers` for one
  update; `LagScreen.DroppedWhen` says for every run when the wait is over).
- A client that is ahead of the game is taken for a lagger, unless by nearly 2^32 keepalives
  (`LagScreen.TooManyKeepAlives`), and stays one (`LagScreen.AheadStaysOnScreen`).
- A client that lost packets sent before the game was loaded cannot be brought up to date (`GProxy.ReplayIsExact`).
- A player who is kicked for another one gives the id away at once: the newcomer has the same one exactly if every
  lower id is in use. Ids are distinct among those not announced to have left (`PlayerIds.KickedIdIsFree`,
  `PlayerIds.Lobby.Join`).
- Shuffling with custom forces resets handicaps (`Slots.CustomForcesStay`).

## Model

| member | source | states |
|---|---|---|
| `Crc32.Calculator.constructor` | src/crc32.cpp:36-51 | the tables built are those of `Valid`: entry b of table k is the register after byte b and k zero bytes |
| `Crc32.Calculator.Initialize` | src/crc32.cpp:36-51 | the left-shifting, reflecting construction yields the tables of the right-shifting definition |
| `Crc32.Calculator.Reflect` | src/crc32.cpp:53-66 | reverses the lowest 8 or 32 bits |
| `Crc32.LeftStepMirrors` | src/crc32.cpp:42-45 | one step with the unreflected polynomial is one reflected step, seen in a mirror |
| `Crc32.ReversedTwice` | src/crc32.cpp:53-66 | reversing the bits of a word twice restores it |
| `Crc32.ShiftedIsLinear` | src/crc32.cpp:48-50 | the register after zero bytes is linear over exclusive or |
| `Crc32.FourByteSteps` | src/crc32.cpp:103-122 | four bytes may be taken into the register as one word |
| `Crc32.WordSum` | src/crc32.cpp:107-122 | a word moved on by zero bytes is the sum of its four bytes' table entries |
| `Crc32.SixteenByteSteps` | src/crc32.cpp:77-127 | sixteen byte steps equal one step of the sixteen-table form |
| `Crc32.Calculator.CalculateCrc` | src/crc32.cpp:68-135 | for every data and previous CRC the result is the CRC of section 8 of RFC 1952, one bit at a time, the register being added to all ones before and after |
| `Crc32.CrcConcat` | src/crc32.cpp:68-70 | continuing a CRC over a second piece gives the CRC of both |
| `Sha1Transform.SwapOfLe32` | src/sha1.h:38 | the two masked rotations turn a little-endian word into a big-endian one |
| `Sha1Transform.ChooseIsCh` | src/sha1.h:44-53 | the round function of rounds 0 to 19 is that of FIPS PUB 180-1, section 5 |
| `Sha1Transform.MajorityIsMaj` | src/sha1.h:59-63 | the round function of rounds 40 to 59 is that of FIPS PUB 180-1, section 5 |
| `Sha1Transform.RolByOne` | src/sha1.h:33 | bit i of a word comes to bit i + 1 modulo 32, and so for the other distances of rotation |
| `Sha1Transform.MixedWord` | src/sha1.h:41 | the expression of the macro is the word of the schedule, rotated by one |
| `Sha1Transform.Workspace.FirstUse` | src/sha1.h:38 | the first sixteen words are the block's words, swapped in place |
| `Sha1Transform.Workspace.Extend` | src/sha1.h:41 | the circular buffer yields the words of the 80-word schedule |
| `Sha1Transform.Workspace.Rounds1` | src/sha1.cpp:61-80 | twenty rounds with rotating arguments do twenty rounds of the loop form |
| `Sha1Transform.Workspace.Rounds2` | src/sha1.cpp:81-100 | the same for the second twenty |
| `Sha1Transform.Workspace.Rounds3` | src/sha1.cpp:101-120 | the same for the third twenty |
| `Sha1Transform.Workspace.Rounds4` | src/sha1.cpp:121-140 | the same for the last twenty |
| `Sha1Transform.Transform` | src/sha1.cpp:44-148 | for every state and block the new state is that of the 80-word loop form (FIPS PUB 180-1, section 7; RFC 3174, section 6.1) |
| `Sha1.CounterAdvances` | src/sha1.cpp:156-161 | the two counter words stay the bit length modulo 2^64 |
| `Sha1.CounterGivesLength` | src/sha1.cpp:186-187 | the eight bytes taken from the counter words are the big-endian bit length |
| `Sha1.Hasher.Reset` | src/sha1.cpp:31-42 | the hasher stands for the empty message |
| `Sha1.Hasher.Update` | src/sha1.cpp:152-179 | the hasher stands for the message and the data behind it: state of the full blocks, tail in the buffer, length in the counter |
| `Sha1.Hasher.AppendPadding` | src/sha1.cpp:189-194 | the padding loop ends, and the message has become its padding of section 4 of FIPS PUB 180-1 |
| `Sha1.DigestWord` | src/sha1.cpp:196-199 | four bytes of the digest, read highest first, are a word of the chaining value |
| `Sha1.Hasher.Final` | src/sha1.cpp:181-208 | however the message was split, the digest is that of the blocks of the padded message, each word of it highest byte first; the state is wiped |
| `Mirror.FlatFetched` | StormLib/src/FileStream.cpp:1215-1233 | storing a fetched run, wholly or in part, keeps a flat mirror coherent, and gains the run's blocks only |
| `Mirror.FlatRun` | StormLib/src/FileStream.cpp:1234-1239 | where blocks are marked, the file is the content |
| `Mirror.PartFetched` | StormLib/src/FileStream.cpp:1597-1620 | appending a fetched run keeps a part mirror coherent: its bytes lie behind header and map, in places that no other byte has |
| `Mirror.PartBlock` | StormLib/src/FileStream.cpp:1621-1647 | the entry of an available block points at that block's content |
| `Mirror.EncryptedContent` | StormLib/src/FileStream.cpp:1899-2010 | an encrypted stream is coherent exactly if its content is the decryption of the whole file |
| `Mirror.DecryptedPiece` | StormLib/src/FileStream.cpp:2052-2078 | a piece decrypted by itself is that piece of the whole decryption |
| `Mirror.DecryptedTwice` | StormLib/src/FileStream.cpp:1981-2009 | decrypting twice at the same offset restores the data |
| `Mirror.ScanTurns` | StormLib/src/FileStream.cpp:878-908 | after a run is loaded the scan goes on with the next one, told by the state before the read |
| `Mirror.ScanDone` | StormLib/src/FileStream.cpp:910-924 | the last run completes the read, and nothing outside the blocks read was cached |
| `Bitmap.NextBit` | StormLib/src/FileStream.cpp:1168-1171 | the rotating mask and the carry into the byte index move on by one block |
| `BlockStream.Stream.CreateFlat` | StormLib/src/FileStream.cpp:1266-1341 | the mirror of a master has cached what a bitmap found in the existing file says, and else nothing, with the file given its size |
| `BlockStream.Stream.OpenFlat` | StormLib/src/FileStream.cpp:1363-1394 | the same for a file with a bitmap, without its master |
| `BlockStream.Stream.CreatePart` | StormLib/src/FileStream.cpp:1682-1760 | the mirror of a master has cached what a map found in the existing file says, and else nothing, with the file cut to header and map |
| `BlockStream.Stream.OpenPart` | StormLib/src/FileStream.cpp:1782-1813 | the same for a file with a map, without its master |
| `BlockStream.Stream.OpenEncrypted` | StormLib/src/FileStream.cpp:2080-2117 | an encrypted stream is valid, its content being the decryption of the file |
| `BlockStream.Stream.BlockCheck` | StormLib/src/FileStream.cpp:1178-1196 | says whether the block is available, for both kinds of mirror |
| `BlockStream.Stream.UpdateBitmap` | StormLib/src/FileStream.cpp:1142-1176 | sets the bits of the run's blocks and no others, and marks the bitmap as changed |
| `BlockStream.Stream.UpdateMap` | StormLib/src/FileStream.cpp:1526-1558 | points the run's entries at consecutive places and changes no others, and marks the map as changed |
| `BlockStream.Stream.FlatStore` | StormLib/src/FileStream.cpp:1227-1230 | a run that is stored or fails to be stored leaves the stream valid; if the system completes its writes the run is cached |
| `BlockStream.Stream.FlatRead` | StormLib/src/FileStream.cpp:1234-1239 | an available run is read as content |
| `BlockStream.Stream.PartStore` | StormLib/src/FileStream.cpp:1610-1619 | the same for a run appended to a part mirror, which grows by no more than the run |
| `BlockStream.Stream.PartRead` | StormLib/src/FileStream.cpp:1621-1647 | an available run read through its entries, with a short last block, is content |
| `BlockStream.Stream.DecryptFileChunk` | StormLib/src/FileStream.cpp:1899-2010 | takes the key bytes of each position off the buffer, the chunk number's low word carrying into the high one |
| `BlockStream.Stream.CounterCarries` | StormLib/src/FileStream.cpp:2001-2004 | the carry keeps the two words equal to the 64-bit chunk number |
| `BlockStream.Stream.EncryptedRead` | StormLib/src/FileStream.cpp:2052-2078 | any range of an encrypted stream is read as content, also when it ends inside a chunk |
| `BlockStream.Stream.StoreRun` | StormLib/src/FileStream.cpp:1224-1231 | what is fetched is stored in whichever mirror there is, and nothing outside the run changes |
| `BlockStream.Stream.FetchRun` | StormLib/src/FileStream.cpp:1213-1233 | a missing run comes from the master, if there is one and it is up |
| `BlockStream.Stream.BlockRead` | StormLib/src/FileStream.cpp:1198-1240 | a run of equal availability; only a missing one can fail, and then nothing changes |
| `BlockStream.Stream.LoadRuns` | StormLib/src/FileStream.cpp:872-908 | groups the blocks into runs, and stops before the last one or at one that fails |
| `Mirror.ScanBroke` | StormLib/src/FileStream.cpp:896-924 | after a run in front of an available one has failed, the read is cut short there exactly if the next attempt succeeds |
| `Mirror.ScanCameThrough` | StormLib/src/FileStream.cpp:910-924 | if all runs but the last are loaded, the read is not cut short, and each missing run took one read of the master |
| `Mirror.CutOnce` | StormLib/src/FileStream.cpp:896-924 | where a read is cut short is determined by the state before it |
| `BlockStream.Stream.LoadTurn` | StormLib/src/FileStream.cpp:884-904 | the run before a change of availability is loaded, or fails and leaves all as it was |
| `BlockStream.Stream.LoadBlocks` | StormLib/src/FileStream.cpp:870-925 | succeeds exactly if every missing run is loaded or the read is cut short; the buffer holds the content up to where it ended and is untouched behind; it is complete exactly if no attempt failed |
| `BlockStream.Stream.LoadCover` | StormLib/src/FileStream.cpp:845-933 | the blocks that cover a range are loaded, whether the mirror is complete or not, with the outcome told by the state before |
| `BlockStream.Stream.Read` | StormLib/src/FileStream.cpp:815-953 | for any offset and length, whatever is cached: exact success condition in terms of the state before, the content up to where it was cut short, if it was, nothing lost from the cache, and what was read is cached if the system completes its writes |
| `BlockStream.ReadCutShort` | StormLib/src/FileStream.cpp:896-924 | a run of the code in which a successful read holds only the first of two blocks |
| `BlockStream.Stream.Close` | StormLib/src/FileStream.cpp:1242-1264 | what has changed is written, all of it if the system completes its writes; and however much of bitmap, footer, header or map is written, every cached block stays |
| `BlockStream.ReopenFlat` | StormLib/src/FileStream.cpp:1242-1341 | a flat mirror that is closed and opened again has the same blocks cached, if bitmaps are used |
| `BlockStream.ReopenPart` | StormLib/src/FileStream.cpp:1652-1760 | the same for a part mirror, exactly if what it stores is whole blocks or as long as the master |
| `BlockStream.ReadAndReopen` | StormLib/src/FileStream.cpp:1266-1341 | from end to end: what a new mirror has read is cached after it was closed and opened again |
| `MirrorFile.CheckFlat` | StormLib/src/FileStream.cpp:1052-1076 | true exactly if the bits of all blocks are set and no others |
| `MirrorFile.FlatComplete` | StormLib/src/FileStream.cpp:1052-1076 | without stray bits the check says exactly that every byte is cached |
| `MirrorFile.FlatReopens` | StormLib/src/FileStream.cpp:1078-1140 | the bitmap, sizes and build number written on closing are found again, and no cached block is lost |
| `MirrorFile.BitsFoundExactly` | StormLib/src/FileStream.cpp:1078-1140 | a bitmap is found only behind data and in front of a footer that fits both |
| `MirrorFile.CheckPart` | StormLib/src/FileStream.cpp:1437-1460 | true exactly if every entry is present |
| `MirrorFile.PartComplete` | StormLib/src/FileStream.cpp:1437-1460 | a file that passes the check has every byte |
| `MirrorFile.MapFoundOnly` | StormLib/src/FileStream.cpp:1421-1524 | a map is found only behind a header with the right version, three digits and a power of two, and is what stands there |
| `MirrorFile.PartReopens` | StormLib/src/FileStream.cpp:1462-1524 | without the master, the map written on closing is found again exactly if the build number has three digits and some block is stored; the build number is read as another one |
| `MirrorFile.FlatReopensForMaster` | StormLib/src/FileStream.cpp:1291-1303 | a closed flat mirror has the size that is asked for, and is found again if bitmaps are used |
| `MirrorFile.PartReopensForMaster` | StormLib/src/FileStream.cpp:1708-1726 | the map is found again exactly if the build number has three digits and what is stored is not empty, and whole blocks or as long as the master |
| `MirrorFile.ShortLastBlockIsLost` | StormLib/src/FileStream.cpp:1711-1739 | a mirror that stores only the short last block is not found again for its master, although it is without |
| `MirrorFile.StringToInt` | StormLib/src/FileStream.cpp:50-61 | each leading digit counts nine too few, modulo 2^32 |
| `MirrorFile.BuildNumberLost` | StormLib/src/FileStream.cpp:50-61 | no build number is read as what was written |
| `Attributes.MasksRotate` | StormLib/src/SFileAttributes.cpp:234-240 | the loader's word mask keeps the writer's byte mask in its lowest byte |
| `Attributes.NextEntry` | StormLib/src/SFileAttributes.cpp:336-338 | mask and byte index of writer and loader move on together |
| `Attributes.PackedBit` | StormLib/src/SFileAttributes.cpp:322-343 | bit i of the array, from the top of each byte, is set exactly if entry i is a patch |
| `Attributes.Archive.CreateAttributesFile` | StormLib/src/SFileAttributes.cpp:246-355 | the file is the header and the arrays that the flags name, patch bits being added when there is a patch |
| `Attributes.Archive.LoadAttributesFile` | StormLib/src/SFileAttributes.cpp:143-244 | the table, the flags and the error are those of `Load` |
| `Attributes.LoadsBack` | StormLib/src/SFileAttributes.cpp:143-355 | for every nonempty table and flags, loading what was created succeeds and yields the same flags, the table with the arrays put in, and the patch bits if their array has the size that is looked for |
| `Attributes.EntriesComeBack` | StormLib/src/SFileAttributes.cpp:143-355 | entry by entry, what was flagged is as it was stored and the rest as it was before loading |
| `Attributes.SizeDecides` | StormLib/src/SFileAttributes.cpp:59-141 | with a good header a file is loaded exactly if its size is one of the four that are accepted, and else refused with nothing changed |
| `Attributes.OneEntryLess` | StormLib/src/SFileAttributes.cpp:120-122 | a file of one entry less is loaded with its bits, and the last entry is left alone |
| `Attributes.NoBitArray` | StormLib/src/SFileAttributes.cpp:124-126 | a file without the bit array is loaded, exactly unless that array would have as many bytes as one entry |
| `Attributes.WordArray` | StormLib/src/SFileAttributes.cpp:128-131 | a file with words in place of bits is loaded without them |
| `Attributes.PatchBitsSurvive` | StormLib/src/SFileAttributes.cpp:223-241 | the patch bits come back exactly if the entries are not one more than a multiple of eight, or none is set |
| `GProxy.Player.Send` | src/gameplayer.cpp:431-443 | the packet goes out and, once it may be needed again, into the buffer, which stays the last packets sent |
| `GProxy.Player.HandleInit` | src/gameplayer.cpp:384-389 | announcing the protocol changes nothing of what was sent |
| `GProxy.Player.HandleAck` | src/gameplayer.cpp:365-382 | drops the packets confirmed, all of them if more are confirmed than were sent, and none that are behind; a stale confirmation changes nothing |
| `GProxy.Player.EventReconnect` | src/gameplayer.cpp:445-482 | the new connection carries exactly the packets behind the confirmed ones, and the buffer keeps them |
| `GProxy.ReplayIsExact` | src/gameplayer.cpp:453-476 | the client ends with every packet once and in order exactly if it has all that left the buffer |
| `GProxy.NothingLost` | src/gameplayer.cpp:365-482 | in every run of sends, confirmations, disconnections and reconnections the client has a prefix of what was sent |
| `GProxy.ConfirmedLeavesBuffer` | src/gameplayer.cpp:365-382 | when the client's confirmation has arrived, the buffer keeps exactly what the client lacks |
| `GProxy.EveryRun` | src/gameplayer.cpp:365-482 | and after a reconnection it can receive all the rest |
| `LagScreen.Game.CheckStarted` | src/game.cpp:395-429 | flags exactly those more than the limit behind |
| `LagScreen.Game.CheckStopped` | src/game.cpp:496-522 | clears those less than half the limit behind; the screen is up if one is left |
| `LagScreen.Game.EventPlayerDisconnected` | src/game.cpp:1099-1109 | the first time, the others are told, and the wait starts unless it has |
| `LagScreen.Game.EventGProxyReconnect` | src/gameplayer.cpp:479-480 | the start of the wait is zero, and the next disconnection will be told again |
| `LagScreen.Game.Update` | src/game.cpp:390-539 | the whole update as a function of the state, actions are sent only while the screen is down, and the next turn is due one latency after this one was, whenever this one was sent |
| `LagScreen.NobodyFarBehind` | src/game.cpp:390-539 | in every run nobody is more than one over the limit behind, and while the screen is up only those it shows are over it |
| `LagScreen.AfterUpdate` | src/game.cpp:396-538 | after an update the screen is up exactly if someone is on it; if it is, the counter has not moved, and it was put up or reset less than a minute ago |
| `LagScreen.DroppedExactly` | src/game.cpp:449-450 | an update drops exactly those who were on the screen when the wait was over |
| `LagScreen.ClockShows` | src/game.cpp:1105-1108 | the start of the wait while the screen stays up: when it was put up; zero after a reconnection; and after that the first time a player is first found disconnected |
| `LagScreen.DroppedWhen` | src/game.cpp:390-450 | in every run, the condition under which an update drops a player on the screen, told by the events since it was put up |
| `LagScreen.WaitEndsScreen` | src/game.cpp:444-450 | when the wait is over everyone on the screen is dropped, and the next update closes it |
| `LagScreen.ReconnectionDropsLaggers` | src/gameplayer.cpp:480 | the update after a reconnection drops a player on the screen exactly if the clock shows at least the wait, and nobody if another player is first found disconnected in it |
| `LagScreen.TooManyKeepAlives` | src/game.cpp:401 | who is flagged, for all counters; being flagged means being behind exactly if the client is not ahead by less than 2^32 less the limit |
| `LagScreen.AheadStaysOnScreen` | src/game.cpp:498 | who is taken off the screen, for all counters |
| `Packet.LengthField` | src/util.h:274-282 | the length field is the size modulo 2^16, right exactly for sizes below 2^16 |
| `ActionBatch.Game.SendAllActions` | src/game.cpp:967-1015 | the queue is emptied and goes out as the packets of its greedy batches |
| `ActionBatch.Game.Encode` | src/gameprotocol.cpp:406-439 | a packet is header, interval, checksum and length-prefixed actions |
| `ActionBatch.GreedyPartitions` | src/game.cpp:967-1013 | the batches are the queue in order, none empty, each within the limit or a single action |
| `ActionBatch.BatchesAreFewest` | src/game.cpp:967-1013 | no partition into such batches has fewer |
| `ActionBatch.DecodesBack` | src/gameprotocol.cpp:611-643 | a client reads the same actions out of a subpacket |
| `ActionBatch.PacketHolds` | src/gameprotocol.cpp:406-439 | packets of more than one action have at most 1460 bytes; exactly when the length field is right; the interval and half of the checksum of what follows stand behind it |
| `ActionBatch.TurnDelivers` | src/game.cpp:963-1015 | the packets of a turn deliver the queue, all but the last are overflow packets, and each has at most 1460 bytes or a single action |
| `Desync.Game.KeepAlive` | src/game.cpp:1538-1561 | exactly when a desync is detected, and what leaves the queues |
| `Desync.Game.Leave` | src/game.cpp:359-369 | a player who leaves changes nothing for the others |
| `Desync.PopIsSound` | src/game.cpp:1559-1560 | the reports that leave the queues together have the same number |
| `Desync.DesyncIsReal` | src/game.cpp:1544-1557 | a desync is detected only when two players reported different checksums under one number |
| `Desync.NoDesyncMeansAgreement` | src/game.cpp:1538-1561 | without one, all agree in every number that everybody has reported |
| `PlayerIds.SomePidFree` | src/game.cpp:4165-4204 | fewer ids in use than there are leave one free |
| `PlayerIds.KickedIdIsFree` | src/game.cpp:1327-1328 | the id of a kicked player is free before the player is deleted, and is given away next exactly if every lower one is in use |
| `PlayerIds.Lobby.GetNewPid` | src/game.cpp:4165-4204 | the lowest id not in use; it fails only if all 254 are |
| `PlayerIds.Lobby.GetNumPlayers` | src/game.cpp:213-229 | counts the players not announced to have left, and the fake ones |
| `PlayerIds.Lobby.UpdateVirtualHost` | src/game.cpp:759-760 | there is a virtual host exactly while there is room for a player, with an id of its own |
| `PlayerIds.Lobby.DeleteVirtualHost` | src/game.cpp:4913-4920 | frees its id |
| `PlayerIds.Lobby.Join` | src/game.cpp:1313-1394 | a join, with or without a kick, keeps ids distinct, gives the newcomer the lowest free one, which is that of the kicked player exactly if every lower one is in use, and takes the last place from the virtual host |
| `PlayerIds.Lobby.CreateFakePlayer` | src/game.cpp:4922-4942 | the same for a fake player |
| `PlayerIds.Lobby.DeleteFakePlayers` | src/game.cpp:4944-4964 | the same for removing them |
| `Slots.Lobby.GetNewColour` | src/game.cpp:4206-4230 | the lowest colour that no slot has |
| `Slots.Lobby.JoinSlot` | src/game.cpp:1396-1425 | a join changes one slot only and keeps colours distinct |
| `Slots.Lobby.SwapSlots` | src/game.cpp:4388-4418 | what moves and what stays under fixed settings and custom forces |
| `Slots.Lobby.GetEmptySlot` | src/game.cpp:4348-4386 | the first open slot of the team, searched from the player's own slot on and around |
| `Slots.Lobby.ChangeTeam` | src/game.cpp:3626-3687 | touches the player's slot, or with custom forces swaps it with the first open one of that team, searched as by `GetEmptySlot`; colours stay distinct |
| `Slots.Lobby.ColourSlot` | src/game.cpp:4486-4523 | a colour of someone else is refused, one of an unused slot is exchanged |
| `Slots.Lobby.OpenSlot` | src/game.cpp:4420-4440 | an opened slot keeps team, colour and race |
| `Slots.Lobby.CloseSlot` | src/game.cpp:4442-4462 | so does a closed one |
| `Slots.Lobby.ComputerSlot` | src/game.cpp:4464-4484 | and one for a computer |
| `Slots.Lobby.ShuffleSlots` | src/game.cpp:4559-4629 | for any permutation the ids are a permutation and the colours stay distinct |
| `Slots.ShuffleKeeps` | src/game.cpp:4559-4629 | ids and colours are kept as multisets, and who is no player stays in place |
| `Slots.CustomForcesStay` | src/game.cpp:4575-4599 | with custom forces team, colour and race stay slot by slot, and handicaps are reset |
| `Hcl.BuildEncodingMap` | src/game.cpp:3899-3910 | entry k is the k-th handicap that is not forbidden |
| `Hcl.EncodingIsFree` | src/game.cpp:3899-3910 | the first 249 entries are distinct handicaps that are not forbidden |
| `Hcl.Game.EncodeHcl` | src/game.cpp:3891-3932 | a legal command that fits is put into the first occupied slots; otherwise nothing changes |
| `Hcl.DecodesBack` | src/game.cpp:3891-3922 | command and original handicaps are recovered from the slots |
| `Hcl.OnlyHandicaps` | src/game.cpp:3914-3922 | only handicaps of occupied slots change, to bytes that are not forbidden |
| `MapDownload.MapPartHolds` | src/gameprotocol.cpp:580-605 | the ids, start, checksum and data can be read from a part packet of at most 1460 bytes |
| `MapDownload.Lobby.SendMapPart` | src/gameprotocol.cpp:580-605 | a part is the next 1442 bytes, or what is left; behind the end there is none |
| `MapDownload.PartsArePrefix` | src/game.cpp:670-689 | the parts sent are a prefix of the map without gap or overlap, and in the end all of it |
| `MapDownload.Lobby.SendParts` | src/game.cpp:670-689 | each part begins less than 144200 bytes beyond the acknowledged ones, and the counter stays within the limit and one part |
| `MapDownload.Lobby.SendToDownloaders` | src/game.cpp:641-694 | every player who is downloading and among the allowed number is served up to the window, the end of the map or the limit; nobody else is; and the packets are those of the new parts, player by player |
| `MapDownload.Lobby.MapSize` | src/game.cpp:3777-3829 | what a client's report changes |
| `StatString.EncodeStatString` | src/util.h:301-324 | the loop that inserts masks yields the grouped encoding |
| `StatString.DecodeStatString` | src/util.h:326-345 | the byte-wise loop yields the grouped decoding |
| `StatString.RoundTrip` | src/util.h:301-345 | every byte string is recovered |
| `StatString.OnlyOddBytes` | src/util.h:301-324 | all bytes are odd, and there is one more for every seven begun |

## Left out

- Sha1.Hasher.Update: excludes exactly the lengths for which the source's 32-bit sum of fill and length overflows.
- BlockStream.Stream.CreateFlat: an existing bitmap is taken to say the truth about the master, as the source does without checking; masters of so many blocks that their number does not fit 32 bits are excluded, here and in CreatePart.
- BlockStream.Stream.OpenFlat: a file without a bitmap is read as it is by the base functions, and one without a part header is refused; neither is a block stream.
- BlockStream.Stream.Read: lengths whose whole blocks do not fit 32 bits are excluded, since the source allocates `BlockCount * BlockSize` in 32 bits; the bitmap and the map are sequences that the stream replaces, not memory updated in place.
- BlockStream.Stream.Close: a system that stops a write part way leaves an outcome of its own, since the source ignores the results of its two writes; what is then on the disk is not described, except that every cached block is there.
- MirrorFile.FlatReopens: a file longer than data, bitmap and footer is excluded; the source creates it with exactly that size.
- Attributes.Archive.LoadAttributesFile: files of 2 GB and more, and tables of more than 2^26 entries, are excluded.
- LagScreen.NobodyFarBehind: the sync limit is fixed; the command that changes it in a running game is not modelled.
- LagScreen.Game.Update: the packets of the screen and of its reset are not modelled; a player without GProxy++ who is disconnected, or voted out, is the event `Delete`.
- Hcl.Game.EncodeHcl: the handicaps of occupied slots are taken to be among 50, 60, ..., 100; with others the source's table index is out of range.
- Slots.Lobby.ShuffleSlots: the random order is an argument.
- MapDownload.Lobby.MapSize: the removal of a player when there is no map to send, and the download status shown in the slot, are not modelled.
- The rounds that derive the key bytes of an encrypted chunk: the key bytes are any function of the chunk number.
- Base providers other than files that are read and written at an offset: mapped files, HTTP and Windows handles.
- Block4 streams, and the conversion of SQP and MPK archives.
- Sockets, the select loop, Battle.net, IRC, chat commands, the database and the configuration.
- Framing of received packets; `m_TotalPacketsReceived` is only echoed.
- Changes of race and handicap in the lobby, which touch one field of one slot.
- Stats of DotA games, map loading and CD keys.
