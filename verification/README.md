# ShadowsocksR server: verified models

Dafny models of the server side of shadowsocksr-libev as vendored under
`Small_5/package/ipk/shadowsocksr-libev/src/server/`, with proofs of what its
protocols and data structures promise. `dafny verify dfyconfig.toml` checks all of it.

| files | subject |
|---|---|
| `Bits`, `Bytes`, `Checksums` | words, byte buffers, CRC-32 and Adler-32 |
| `Framing`, `Packets`, `Receiving`, `ChunkStream`, `FrameLayer` | authenticated chunks and the padded frame families, under every fragmentation; exactly what the receivers take |
| `StreamCipher`, `TableCipher` | the counter-mode contexts at arbitrary byte offsets; the table cipher and its sorts |
| `HashTable`, `LruCache`, `IvReplay`, `UdpRelay` | the hash table with its two linked structures, the cache on top of it, and two clients of the cache |
| `Json`, `JsonStore`, `JsonFree`, `JsonPrint`, `JsonRoundTrip`, `JsonGrammar`, `JsonSize` | the two-pass JSON parser, its storage and release, its language, exactly, with what it stores for each text, and the inputs too large for it |
| `ClientHello`, `TlsTicket`, `TicketRun` | the ticket obfuscation: messages, both ends, whole runs; the SNI parser |
| `Addressing`, `Relay`, `Resolv`, `Base64` | the request header, the connection relay, the completion of DNS queries, Base64 |
| `Tunnel` | framing, cipher and ticket protocol together, over whole runs |

Code that changes state is modelled by methods and classes (arrays for buffers and
tables, linked objects for the hash table), each proved against a function of the old
state; the theorems are about those functions and about runs of them. Hashes, keystreams,
clocks and random draws are parameters, so every statement holds for all of them. Sockets
decide freely how much of a send or receive happens.

Some results correct what one would expect of the code:

- The replay defence counts distinct vectors *presented* since a vector was last
  presented, not vectors inserted (`IvReplay.ReplayWindow`,
  `IvReplay.InsertionsDoNotCount`).
- A frame may pass every test and still announce more padding than it has bytes; the
  receivers then copy a negative number of bytes, exactly on such frames
  (`Framing.UndefinedExact`, `Packets.ShortestLiar`).
- `ss_decrypt` ends the process when the first buffer is shorter than the nonce
  (`StreamCipher.RoundTrip`); a cut behind the handshake of the ticket protocol gives it
  an empty one (`TicketRun.CutBehindHandshake`).
- A hello with a session id of 33 to 127 bytes is copied past the 32 bytes kept for it
  (`TlsTicket.OverrunExact`); time stamps wrap in 2038 (`TlsTicket.TimeWraps`).
- A payload above 2048 bytes behind the request header is copied past the end of the
  remote's buffer, exactly then (`Relay.EveryState`), and two reads suffice to get there
  (`Tunnel.LargeOverruns`).
- A header in pieces is tested piece by piece, so that one cut in two can be lost
  (`Addressing.CutHeader`, `Addressing.CutLost`); a handshake message of the ticket protocol
  in parts is turned down (`TicketRun.HelloCut`, `TicketRun.FinCut`).
- When no query can be submitted, the free callback is called, and called again when the
  connection closes (`Resolv.FreedOnce`); until then nothing can happen to the connection
  but its timeout (`Relay.NothingStuck`).
- The JSON parser dereferences a missing value exactly on a leading closing bracket
  (`Json.CrashExact`, `Json.BracketCrashes`), and the size of an object is computed in an int, which decides
  whether an accepted input can be stored (`JsonStore.TwoPasses`, `JsonSize.ShortInputsFit`).
- Beyond the standard the JSON parser takes a comma behind the last element or member, a
  minus sign without digits, control characters in strings, any character behind a
  backslash, and anything behind a NUL (`JsonGrammar.AcceptedExact`).
- The record splitter of the ticket protocol can overrun its buffer for inputs above 42848
  bytes, and cannot below (`TlsTicket.SplitFits`); its callers pass far less.
- Chunks announce their length in 16 bits, so checking undoes framing exactly below 65536
  bytes (`ChunkStream.FramedExact`).
- An empty record is only consumed when further bytes arrive (`Packets.Drained`,
  `Packets.EmptyRecordWaits`).
- A host name that ends in a digit is not sent, and the SNI parser then rejects the hello
  (`ClientHello.SniRoundTrip`).

## Model

| member | source | states |
|---|---|---|
| `Checksums.InitTable` | Small_5/package/ipk/shadowsocksr-libev/src/server/crc32.c:3-17 | the table holds, for every byte, that byte's register after eight bit-by-bit steps |
| `Checksums.TableRegister` | Small_5/package/ipk/shadowsocksr-libev/src/server/crc32.c:19-26 | the table-driven loop computes the bit-by-bit CRC register (section 8 of RFC 1952) on every buffer |
| `Checksums.Crc32` | Small_5/package/ipk/shadowsocksr-libev/src/server/crc32.c:19-26 | the returned word is the complement of that register, for every buffer |
| `Checksums.Polynomial` | Small_5/package/ipk/shadowsocksr-libev/src/server/crc32.c:3-17 | the constant holds the coefficients of the polynomial of section 8 of RFC 1952, reflected |
| `Checksums.CheckValue` | Small_5/package/ipk/shadowsocksr-libev/src/server/crc32.c:19-26 | the CRC of the single byte 255 is ff000000 |
| `Checksums.FillCrc32` | Small_5/package/ipk/shadowsocksr-libev/src/server/crc32.c:41-53 | the last four bytes become the little-endian register of the bytes before them, the rest stays |
| `Checksums.CrcFrameExact` | Small_5/package/ipk/shadowsocksr-libev/src/server/verify.c:94-99 | the receiver's whole-frame test succeeds exactly when the last four bytes are the register fillcrc32 stores: both directions, every frame |
| `Checksums.RegisterTail` | Small_5/package/ipk/shadowsocksr-libev/src/server/crc32.c:19-26 | feeding bytes equals adding their little-endian value to the register and stepping it once per bit |
| `Checksums.Deferred` | Small_5/package/ipk/shadowsocksr-libev/src/server/crc32.c:55-63 | sums reduced only at the end of a block equal sums reduced at every byte |
| `Checksums.AdlerShort` | Small_5/package/ipk/shadowsocksr-libev/src/server/crc32.c:55-63 | one block of up to 5552 bytes advances both sums as the per-byte definition does, in 32-bit words without overflow |
| `Checksums.Adler32` | Small_5/package/ipk/shadowsocksr-libev/src/server/crc32.c:65-76 | the blocked computation equals the per-byte modulo definition (section 9 of RFC 1950) on every buffer |
| `Checksums.FillAdler32` | Small_5/package/ipk/shadowsocksr-libev/src/server/crc32.c:78-86 | the last four bytes become the little-endian checksum of the bytes before them, the rest stays |
| `Checksums.CheckAdler32` | Small_5/package/ipk/shadowsocksr-libev/src/server/crc32.c:88-96 | answers whether the trailer, read as a little-endian word, is that checksum |
| `Checksums.AdlerFrameExact` | Small_5/package/ipk/shadowsocksr-libev/src/server/crc32.c:78-96 | a frame passes the check exactly when its trailer is what filladler32 stores |
| `Checksums.AdlerCheck` | Small_5/package/ipk/shadowsocksr-libev/src/server/crc32.c:55-76 | the sums of the single byte 97 are 00620062 |
| `Framing.ParseMonotone` | Small_5/package/ipk/shadowsocksr-libev/src/server/auth.c:172-212 | a turn of a receive loop that did something does the same when more bytes are already buffered, in all eight families |
| `Framing.DecodeSplit` | Small_5/package/ipk/shadowsocksr-libev/src/server/encrypt.c:1557-1614 | decoding a first part and then its leftover with the second part equals decoding the whole, verdict and counter included |
| `Framing.Fragmentation` | Small_5/package/ipk/shadowsocksr-libev/src/server/auth.c:427-481 | feeding any list of buffers equals one decode of their concatenation |
| `Framing.PendingBound` | Small_5/package/ipk/shadowsocksr-libev/src/server/auth.c:585-646 | an incomplete frame of a length-limited family is shorter than 8191 bytes |
| `Framing.DecodeRest` | Small_5/package/ipk/shadowsocksr-libev/src/server/auth.c:172-212 | a receive loop stops only when its next turn has nothing to do, and never holds more than it was given |
| `Framing.TurnUndefined` | Small_5/package/ipk/shadowsocksr-libev/src/server/auth.c:172-212 | a turn copies a negative number of bytes if and only if a complete frame of a padded family passes the header, length and trailer tests and its padding field leaves less than nothing for the payload |
| `Framing.UndefinedExact` | Small_5/package/ipk/shadowsocksr-libev/src/server/auth.c:841-921 | a whole run is undefined if and only if the first frame it cannot take is such a frame |
| `Framing.UnpaddedDefined` | Small_5/package/ipk/shadowsocksr-libev/src/server/encrypt.c:1557-1614 | chunks and records: no input makes the receiver undefined |
| `Receiving.TurnExact` | Small_5/package/ipk/shadowsocksr-libev/src/server/auth.c:585-646 | a turn of the receive loop of each of the eight families, in terms of the bytes of its format: header check, bounds of the length, checksum or keyed hash of the whole frame, place of the payload, counter |
| `Receiving.FailExact` | Small_5/package/ipk/shadowsocksr-libev/src/server/verify.c:73-113 | a run fails if and only if the first frame it does not take has a wrong header check, a length out of bounds, or a wrong checksum or hash |
| `Receiving.OnlyGenuine` | Small_5/package/ipk/shadowsocksr-libev/src/server/auth.c:841-921 | whatever was delivered is the payloads, in order, of frames that pass every check, and these frames and the bytes still held are all that was read |
| `Packets.HeaderReadsBack` | Small_5/package/ipk/shadowsocksr-libev/src/server/auth.c:483-504 | length and header check written by a packer are read back, whatever follows |
| `Packets.PadReadsBack` | Small_5/package/ipk/shadowsocksr-libev/src/server/auth.c:331-349 | the padding length of every padding a packer may draw is read back from its one- or three-byte field |
| `Packets.TrailerReadsBack` | Small_5/package/ipk/shadowsocksr-libev/src/server/auth.c:648-691 | the trailer a packer writes passes the receiver's test |
| `Packets.RoundTrip` | Small_5/package/ipk/shadowsocksr-libev/src/server/auth.c:95-104 | the receiver takes a packed frame, followed by anything, for exactly its payload and length and advances the counter |
| `Packets.PrefixDecode` | Small_5/package/ipk/shadowsocksr-libev/src/server/auth.c:841-921 | decoding any prefix of a stream yields exactly the payloads of the completed frames, keeps exactly the bytes of the incomplete one and counts the completed frames |
| `Packets.Delivery` | Small_5/package/ipk/shadowsocksr-libev/src/server/verify.c:143-188 | the same for every list of packets, padding and cut of the stream into buffers |
| `Packets.Drained` | Small_5/package/ipk/shadowsocksr-libev/src/server/verify.c:73-113 | once the whole stream has arrived every payload has been delivered, and every frame has been taken if and only if the family is padded or chunked, or the last record is not empty; otherwise exactly that record waits |
| `Packets.EmptyRecordWaits` | Small_5/package/ipk/shadowsocksr-libev/src/server/tls1.2_ticket.c:378-399 | an empty record alone stays in the buffer |
| `Packets.LiarUndefined` | Small_5/package/ipk/shadowsocksr-libev/src/server/auth.c:585-646 | every padded family has frames that pass all tests and make its receiver copy a negative number of bytes |
| `Packets.ShortestLiar` | Small_5/package/ipk/shadowsocksr-libev/src/server/verify.c:73-113 | one of them: seven bytes with the right CRC that announce 255 bytes of padding |
| `Packets.PackedDefined` | Small_5/package/ipk/shadowsocksr-libev/src/server/auth.c:483-691 | no prefix of a stream of packed frames makes the receiver fail or go undefined |
| `Packets.StreamJoin` | Small_5/package/ipk/shadowsocksr-libev/src/server/auth.c:803-839 | streams packed one after the other, with the counter carried over, are one stream |
| `Packets.CountIsSum` | Small_5/package/ipk/shadowsocksr-libev/src/server/auth.c:841-921 | the frame counter after k frames is the start value plus k as a 32-bit word, the same on both ends |
| `ChunkStream.Buffer.Realloc` | Small_5/package/ipk/shadowsocksr-libev/src/server/encrypt.c:267-278 | capacity becomes at least the larger of both sizes, contents are kept |
| `ChunkStream.CheckHash` | Small_5/package/ipk/shadowsocksr-libev/src/server/encrypt.c:1557-1614 | in place: output, verdict, counter and the bytes held back equal the reference decoding of held bytes plus buffer; every index stays inside the reallocated capacity |
| `ChunkStream.GenHash` | Small_5/package/ipk/shadowsocksr-libev/src/server/encrypt.c:1616-1645 | the buffer becomes length, ten bytes of hash and payload, the counter advances as a 32-bit word |
| `ChunkStream.FramedExact` | Small_5/package/ipk/shadowsocksr-libev/src/server/encrypt.c:1557-1645 | checking undoes framing exactly for payloads below 65536 bytes |
| `ChunkStream.ChunkOverhead` | Small_5/package/ipk/shadowsocksr-libev/src/server/encrypt.c:1616-1645 | a chunk is twelve bytes longer than its payload |
| `FrameLayer.Receiver.PostDecrypt` | Small_5/package/ipk/shadowsocksr-libev/src/server/auth.c:172-212 | in place in the 16384-byte buffer: output, verdict, counter and leftover equal the reference decoding, and the copy of negative length happens exactly when that is undefined; the buffer never overflows for inputs up to 8192 bytes |
| `FrameLayer.PlanPayloads` | Small_5/package/ipk/shadowsocksr-libev/src/server/auth.c:134-170 | splitting a payload into units loses nothing |
| `FrameLayer.Pack` | Small_5/package/ipk/shadowsocksr-libev/src/server/auth.c:483-504 | each packer writes exactly the frame of the specification at its place in the scratch buffer |
| `FrameLayer.PreEncrypt` | Small_5/package/ipk/shadowsocksr-libev/src/server/auth.c:803-839 | the splitting loop writes the authentication packet and then the stream of the pieces, always inside its scratch buffer, and leaves the frame counter advanced once per piece |
| `FrameLayer.EndToEnd` | Small_5/package/ipk/shadowsocksr-libev/src/server/auth.c:547-646 | what one pre_encrypt sends is what post_decrypt delivers, for every payload, padding and fragmentation; the receiver's counter becomes the value PreEncrypt returns |
| `FrameLayer.WireIsStream` | Small_5/package/ipk/shadowsocksr-libev/src/server/auth.c:803-839 | the bytes of any list of calls are one stream of frames, with the counter carried from call to call |
| `FrameLayer.Lockstep` | Small_5/package/ipk/shadowsocksr-libev/src/server/auth.c:803-921 | after any list of calls and any fragmentation the receiver has delivered exactly the data given, holds nothing back, and its counter is the sender's |
| `StreamCipher.Padding` | Small_5/package/ipk/shadowsocksr-libev/src/server/encrypt.c:1222-1240 | padding with zeros, xoring from the block boundary and dropping the padding is xoring from the byte position; for the IETF variant as long as the 32-bit block counter lasts |
| `StreamCipher.XorAtExact` | Small_5/package/ipk/shadowsocksr-libev/src/server/encrypt.c:293-308 | every bit of the output is the sum of the bits of the message and of the keystream, cut from blocks of 64 bytes |
| `StreamCipher.IetfWraps` | Small_5/package/ipk/shadowsocksr-libev/src/server/encrypt.c:293-308 | at the counter limit the IETF keystream starts again |
| `StreamCipher.EncryptSegments` | Small_5/package/ipk/shadowsocksr-libev/src/server/encrypt.c:1199-1262 | for every list of buffers the outputs together are the nonce and the plaintext xored with one keystream from offset 0 |
| `StreamCipher.RoundTrip` | Small_5/package/ipk/shadowsocksr-libev/src/server/encrypt.c:1347-1420 | decrypting what was encrypted, both under any segmentation, recovers the plaintext if and only if the first buffer received holds the whole nonce; it ends the process if and only if it does not |
| `StreamCipher.Recovers` | Small_5/package/ipk/shadowsocksr-libev/src/server/encrypt.c:1347-1420 | of any part of the stream received so far, the same part of the plaintext is recovered |
| `StreamCipher.WantedExact` | Small_5/package/ipk/shadowsocksr-libev/src/server/encrypt.c:1347-1357 | the wrapped 64-bit size asked for can be allocated if and only if the buffer is not shorter than the nonce |
| `StreamCipher.EmptyFirstEnds` | Small_5/package/ipk/shadowsocksr-libev/src/server/encrypt.c:267-278 | one such input: an empty first buffer ends the process for every cipher with a nonce |
| `StreamCipher.Context.Encrypt` | Small_5/package/ipk/shadowsocksr-libev/src/server/encrypt.c:1199-1262 | in place, with the padding moves: contents become that ciphertext, the counter advances by the plaintext length |
| `StreamCipher.Context.Decrypt` | Small_5/package/ipk/shadowsocksr-libev/src/server/encrypt.c:1347-1420 | in place: the nonce is taken from the first buffer, contents become the plaintext at the running position; a replayed nonce is refused, kept, and the buffer released; a first buffer shorter than the nonce exhausts memory |
| `TableCipher.CompareExact` | Small_5/package/ipk/shadowsocksr-libev/src/server/encrypt.c:310-317 | the wrapped 64-bit difference cast to int has the sign of the comparison for every pass number in use |
| `TableCipher.SortedStable` | Small_5/package/ipk/shadowsocksr-libev/src/server/encrypt.c:367-389 | the result is ordered by key modulo (byte + pass) and keeps the elements of each rank in their order |
| `TableCipher.SortedPermutes` | Small_5/package/ipk/shadowsocksr-libev/src/server/encrypt.c:367-389 | the sort permutes |
| `TableCipher.Merge` | Small_5/package/ipk/shadowsocksr-libev/src/server/encrypt.c:319-365 | in place: the two adjacent runs become their stable merge, all else stays |
| `TableCipher.MergeSort` | Small_5/package/ipk/shadowsocksr-libev/src/server/encrypt.c:367-389 | in place: the range becomes its stable sort, all else stays |
| `TableCipher.TableIsPermutation` | Small_5/package/ipk/shadowsocksr-libev/src/server/encrypt.c:428-450 | after any number of passes and for every key the table holds every byte exactly once |
| `TableCipher.PassExact` | Small_5/package/ipk/shadowsocksr-libev/src/server/encrypt.c:428-450 | each pass, from the identity on, orders the table of the pass before by key modulo (byte + pass) and keeps the order of the bytes of each remainder |
| `TableCipher.TableInit` | Small_5/package/ipk/shadowsocksr-libev/src/server/encrypt.c:428-450 | the encryption table is the identity after 1023 sorts, the decryption table its inverse |
| `TableCipher.MapInPlace` | Small_5/package/ipk/shadowsocksr-libev/src/server/encrypt.c:1188-1196 | the used part of the buffer is mapped byte by byte, the rest stays |
| `TableCipher.TableRoundTrip` | Small_5/package/ipk/shadowsocksr-libev/src/server/encrypt.c:1336-1344 | decryption undoes encryption on every buffer, and the other way round |
| `HashTable.BktIsMod` | Small_5/package/ipk/shadowsocksr-libev/src/server/uthash.h:320-323 | for a power of two the masked bucket number is the hash modulo the bucket count |
| `HashTable.AppendList` | Small_5/package/ipk/shadowsocksr-libev/src/server/uthash.h:225-231 | the element is linked behind the tail: the application list is the old one plus the element |
| `HashTable.FindInBkt` | Small_5/package/ipk/shadowsocksr-libev/src/server/uthash.h:714-733 | returns an element of the chain with that hash and key, or none exactly if there is none |
| `HashTable.LinkInto` | Small_5/package/ipk/shadowsocksr-libev/src/server/uthash.h:736-747 | the chain of the bucket gets the element in front, every other bucket is untouched, counts and links agree |
| `HashTable.RemoveFrom` | Small_5/package/ipk/shadowsocksr-libev/src/server/uthash.h:750-760 | the element leaves its chain, every other bucket is untouched, counts and links agree |
| `HashTable.IdealIsCeil` | Small_5/package/ipk/shadowsocksr-libev/src/server/uthash.h:802-804 | the ideal chain length computed by shift and mask is the ceiling of items over new buckets, never zero when there is an item |
| `HashTable.DrainChain` | Small_5/package/ipk/shadowsocksr-libev/src/server/uthash.h:808-823 | a chain is moved into the new buckets, each element to hash modulo the new count, with non-ideal count and multipliers kept exact |
| `HashTable.Table.Find` | Small_5/package/ipk/shadowsocksr-libev/src/server/uthash.h:119-129 | returns what a scan of the insertion-order list would: an element with the key, or none exactly when no element has it |
| `HashTable.Table.Redistribute` | Small_5/package/ipk/shadowsocksr-libev/src/server/uthash.h:806-825 | every element of every old bucket sits in its new bucket, and nonideal_items is the sum over the new buckets of the excess over the ideal length |
| `HashTable.Table.Expand` | Small_5/package/ipk/shadowsocksr-libev/src/server/uthash.h:791-837 | elements and insertion order are unchanged, the bucket count doubles, the table invariant holds again, no division by zero |
| `HashTable.Table.Add` | Small_5/package/ipk/shadowsocksr-libev/src/server/uthash.h:284-305 | the insertion-order list gets the element at its end and the invariant holds; the buckets are doubled exactly when the element's bucket reaches ten elements for each multiple it is allowed and expansion is not off |
| `HashTable.Table.Delete` | Small_5/package/ipk/shadowsocksr-libev/src/server/uthash.h:337-370 | exactly that element leaves the list; the invariant holds, also for the last element |
| `HashTable.Table.MakeTable` | Small_5/package/ipk/shadowsocksr-libev/src/server/uthash.h:172-189 | an empty table of 32 buckets satisfies the invariant |
| `HashTable.ChainsAddUp` | Small_5/package/ipk/shadowsocksr-libev/src/server/uthash.h:411-430 | the chains together have as many elements as the insertion order |
| `HashTable.Table.CountsAddUp` | Small_5/package/ipk/shadowsocksr-libev/src/server/uthash.h:411-430 | in every valid table the bucket counts add up to num_items |
| `HashTable.Table.Fsck` | Small_5/package/ipk/shadowsocksr-libev/src/server/uthash.h:400-450 | HASH_FSCK, walking every chain and the insertion order, finds nothing wrong in a valid table |
| `LruCache.Cache.Lookup` | Small_5/package/ipk/shadowsocksr-libev/src/server/cache.c:208-229 | finds the data of the key if it is there and moves that entry to the back of the recency list with the new time; otherwise nothing changes |
| `LruCache.Cache.KeyExist` | Small_5/package/ipk/shadowsocksr-libev/src/server/cache.c:231-253 | the same, answering only whether the key is there |
| `LruCache.Cache.Insert` | Small_5/package/ipk/shadowsocksr-libev/src/server/cache.c:269-308 | the entry is added at the back; the least recently used one goes exactly when the capacity is reached, and its data is returned for freeing |
| `LruCache.Cache.Remove` | Small_5/package/ipk/shadowsocksr-libev/src/server/cache.c:161-190 | exactly the entry of the key goes, if there is one |
| `LruCache.Cache.Clear` | Small_5/package/ipk/shadowsocksr-libev/src/server/cache.c:119-146 | exactly the entries older than the age go, in one pass that deletes while iterating |
| `LruCache.TouchLaws` | Small_5/package/ipk/shadowsocksr-libev/src/server/cache.c:208-253 | use of an entry keeps the set of keys and their distinctness |
| `LruCache.InsertBound` | Small_5/package/ipk/shadowsocksr-libev/src/server/cache.c:269-308 | inserting an absent key leaves fewer than max_entries elements with distinct keys |
| `LruCache.InsertEvicts` | Small_5/package/ipk/shadowsocksr-libev/src/server/cache.c:269-308 | only the least recently used entry can be lost, and only from a full cache |
| `LruCache.TimesStaySorted` | Small_5/package/ipk/shadowsocksr-libev/src/server/cache.c:208-308 | under a clock that does not run backwards, use and insertion keep the recency order the order of time stamps |
| `LruCache.FreshIsSuffix` | Small_5/package/ipk/shadowsocksr-libev/src/server/cache.c:119-146 | then clearing removes exactly a prefix of the order: the entries too old |
| `LruCache.ApplyTimely` | Small_5/package/ipk/shadowsocksr-libev/src/server/cache.c:119-308 | every cache operation (use, insertion, removal, clearing) keeps the order by time, the size below max_entries and, when an inserted key is absent, the distinctness of keys |
| `LruCache.RunTimely` | Small_5/package/ipk/shadowsocksr-libev/src/server/cache.c:119-308 | so after every run of operations |
| `LruCache.ClearsPrefix` | Small_5/package/ipk/shadowsocksr-libev/src/server/cache.c:119-146 | in every state a new cache reaches, clearing removes exactly a prefix of the order: the entries too old |
| `IvReplay.RunIsLast255` | Small_5/package/ipk/shadowsocksr-libev/src/server/encrypt.c:1360-1378 | after every run the cache holds exactly the 255 distinct vectors presented last, in order of their last use |
| `IvReplay.ReplayWindow` | Small_5/package/ipk/shadowsocksr-libev/src/server/encrypt.c:1360-1378 | a vector presented before is rejected if and only if fewer than 255 distinct others have been presented since |
| `IvReplay.InsertionsDoNotCount` | Small_5/package/ipk/shadowsocksr-libev/src/server/encrypt.c:1360-1378 | for nonces of every length, a run in which a vector is accepted again although a single vector was inserted since it was presented |
| `IvReplay.FirstAccepted` | Small_5/package/ipk/shadowsocksr-libev/src/server/encrypt.c:1360-1378 | a vector never presented is accepted |
| `IvReplay.Admit` | Small_5/package/ipk/shadowsocksr-libev/src/server/encrypt.c:1360-1378 | the code on the real cache behaves as that closed form: verdict and remembered vectors |
| `IvReplay.Decrypt` | Small_5/package/ipk/shadowsocksr-libev/src/server/encrypt.c:1347-1420 | ss_decrypt with its cache: a first buffer is refused if and only if the cache knows its nonce, which becomes the one presented last; other buffers leave the cache as it is; the plaintext and the context are those of the cipher |
| `UdpRelay.KeyDetermines` | Small_5/package/ipk/shadowsocksr-libev/src/server/udprelay.c:176-188 | a key determines address family and source address |
| `UdpRelay.OwnPlace` | Small_5/package/ipk/shadowsocksr-libev/src/server/udprelay.c:549-561 | looking a live context up by its own family and address finds that context |
| `UdpRelay.LiveDistinct` | Small_5/package/ipk/shadowsocksr-libev/src/server/udprelay.c:1076-1091 | no two live contexts serve the same family and source |
| `UdpRelay.InsertFiled` | Small_5/package/ipk/shadowsocksr-libev/src/server/udprelay.c:1291-1299 | inserting under an absent key keeps every context filed under its own key, with the evicted one freed |
| `UdpRelay.RegisteredKeeps` | Small_5/package/ipk/shadowsocksr-libev/src/server/udprelay.c:1291-1299 | after filing, the new context is there and every old one but the least recently used of a full cache |
| `UdpRelay.Associations.File` | Small_5/package/ipk/shadowsocksr-libev/src/server/udprelay.c:1291-1299 | cache_insert of a context: exactly those contexts, in that order of use |
| `UdpRelay.Associations.OnPacket` | Small_5/package/ipk/shadowsocksr-libev/src/server/udprelay.c:1076-1299 | in every reachable state the cache holds exactly the live contexts, each under its own key; a context is filed exactly when none is live under the key, the family is IPv4 or IPv6 and the packet was sent; then all others stay, except for the least recently used one of a full cache; otherwise none changes, and a context found is the most recently used |
| `UdpRelay.Associations.OnAnswer` | Small_5/package/ipk/shadowsocksr-libev/src/server/udprelay.c:565-641 | the same for a context made after a query, filed exactly when none is live under its key and the packet was sent |
| `UdpRelay.Associations.OnTimeout` | Small_5/package/ipk/shadowsocksr-libev/src/server/udprelay.c:549-561 | a timeout removes exactly the context whose timer fired |
| `Json.StepSound` | Small_5/package/ipk/shadowsocksr-libev/src/server/json.c:294-891 | every turn of the loop keeps the state invariant, moves on (position, or a rank at the same position) and is defined once a value has begun |
| `Json.NumberRun` | Small_5/package/ipk/shadowsocksr-libev/src/server/json.c:730-840 | pass one leaves an accepted number exactly at the end of the run of number characters that pass two skips |
| `Json.PassesAgree` | Small_5/package/ipk/shadowsocksr-libev/src/server/json.c:282-897 | whatever pass one accepts pass two accepts with the same storage events in the same order; both terminate |
| `Json.CrashExact` | Small_5/package/ipk/shadowsocksr-libev/src/server/json.c:518-531 | a run dereferences a missing top if and only if the first visible character is a closing bracket |
| `Json.BracketCrashes` | Small_5/package/ipk/shadowsocksr-libev/src/server/json.c:518-531 | the shortest such input, in either pass |
| `Json.NeverCrashes` | Small_5/package/ipk/shadowsocksr-libev/src/server/json.c:294-891 | once a value has begun no turn is undefined |
| `Json.Utf8Exact` | Small_5/package/ipk/shadowsocksr-libev/src/server/json.c:327-382 | an escape is stored as the shortest UTF-8 form of its 16-bit value: it decodes to that value and has the right length and lead byte |
| `JsonStore.GrowOk` | Small_5/package/ipk/shadowsocksr-libev/src/server/json.c:120-206 | every storage event keeps the document well formed: open values form a chain of parents, names and values pair up |
| `JsonStore.RunBuilds` | Small_5/package/ipk/shadowsocksr-libev/src/server/json.c:294-891 | the events of every accepted run are possible one after the other and end in a complete document |
| `JsonStore.CountStep` | Small_5/package/ipk/shadowsocksr-libev/src/server/json.c:120-206 | pass one's counters are the sizes of the document read so far |
| `JsonStore.FillStep` | Small_5/package/ipk/shadowsocksr-libev/src/server/json.c:120-206 | with blocks of sufficient size pass two gets through an event exactly if it does not begin an object whose size overflows, writes inside the blocks, and they begin with what was read so far |
| `JsonStore.FitAll` | Small_5/package/ipk/shadowsocksr-libev/src/server/json.c:282-897 | what has been read fits whatever the whole document fits |
| `JsonStore.TwoPasses` | Small_5/package/ipk/shadowsocksr-libev/src/server/json.c:282-897 | for every input pass one accepts, pass two gets through if and only if the size of every object fits its int; it then takes each recorded value in turn, writes only inside blocks sized by pass one, and leaves each array, object and string with exactly the contents read, at exactly the counted length |
| `JsonStore.Pass` | Small_5/package/ipk/shadowsocksr-libev/src/server/json.c:282-897 | the loop of one pass computes that run and its storage effect, for either pass; it cannot finish with an object whose size overflows |
| `JsonStore.ParseEx` | Small_5/package/ipk/shadowsocksr-libev/src/server/json.c:239-897 | goes wrong exactly on a leading closing bracket and on an object whose size overflows, fails exactly when pass one rejects, and otherwise returns the filled document |
| `JsonSize.RunNews` | Small_5/package/ipk/shadowsocksr-libev/src/server/json.c:513-891 | a run begins no more values than the input has characters |
| `JsonSize.ShortInputsFit` | Small_5/package/ipk/shadowsocksr-libev/src/server/json.c:147-163 | in every accepted input below 89478486 bytes the size of every object fits |
| `JsonSize.WrappingObject` | Small_5/package/ipk/shadowsocksr-libev/src/server/json.c:147-163 | an object of 89478486 members is accepted by pass one and pass two does not get through |
| `JsonPrint.ReadChars` | Small_5/package/ipk/shadowsocksr-libev/src/server/json.c:297-437 | any spelling of a string - characters, escapes of any character, four hexadecimal digits of either case - is read as the bytes it means, in UTF-8 |
| `JsonPrint.ReadNumber` | Small_5/package/ipk/shadowsocksr-libev/src/server/json.c:730-840 | a printed number, with or without fraction and exponent, is read as one number and ends where it was printed to end |
| `JsonPrint.ReadValue` | Small_5/package/ipk/shadowsocksr-libev/src/server/json.c:513-891 | at any place where a value may start, a written value is read as exactly that value, with any white space between its tokens |
| `JsonPrint.PrintedIsRead` | Small_5/package/ipk/shadowsocksr-libev/src/server/json.c:294-891 | the parser accepts every written value, with any strings of blanks, tabs, line feeds and carriage returns between its tokens and around it, with exactly that value's storage events |
| `JsonRoundTrip.PrintedIsParsed` | Small_5/package/ipk/shadowsocksr-libev/src/server/json.c:239-897 | for every value, however it is written: the text is accepted, storage is filled if and only if its objects are small enough, and what is then left is exactly the tree of that value: kinds, parents, elements, names, strings and lengths |
| `JsonGrammar.FindDocument` | Small_5/package/ipk/shadowsocksr-libev/src/server/json.c:294-891 | from every accepted text the value that was written is recovered, with its white space and its spelling |
| `JsonGrammar.AcceptedExact` | Small_5/package/ipk/shadowsocksr-libev/src/server/json.c:239-897 | the language of the parser: a text is accepted if and only if it is a written value, up to a NUL; what is stored is then that value's tree |
| `JsonFree.BuildsTree` | Small_5/package/ipk/shadowsocksr-libev/src/server/json.c:847-891 | in the document of any run every closed node is listed exactly once, by its parent |
| `JsonFree.ParsedWellFormed` | Small_5/package/ipk/shadowsocksr-libev/src/server/json.c:239-897 | a complete document, stored, is a tree rooted at the first value |
| `JsonFree.SuccessWellFormed` | Small_5/package/ipk/shadowsocksr-libev/src/server/json.c:239-897 | what json_parse_ex returns can be handed to json_value_free_ex |
| `JsonFree.FreeEx` | Small_5/package/ipk/shadowsocksr-libev/src/server/json.c:948-994 | terminates, releases every value exactly once and every block exactly once with its value; in the log of every look and release nothing is looked at or released after its release |
| `JsonFree.ParseAndFree` | Small_5/package/ipk/shadowsocksr-libev/src/server/json.c:239-994 | parsing any input and releasing the result does so |
| `ClientHello.ParseServerName` | Small_5/package/ipk/shadowsocksr-libev/src/server/tls.c:224-263 | the loop computes the reference reading of a server name list |
| `ClientHello.ParseExtensions` | Small_5/package/ipk/shadowsocksr-libev/src/server/tls.c:195-222 | the loop computes the reference reading of an extension list |
| `ClientHello.ExtensionsExact` | Small_5/package/ipk/shadowsocksr-libev/src/server/tls.c:195-222 | for every list of extensions the parser finds the first server name in it, or reports that there is none |
| `ClientHello.ExtensionsOnly` | Small_5/package/ipk/shadowsocksr-libev/src/server/tls.c:195-222 | every input is a list of extensions as far as the parser goes: up to the first server name, the end, or bytes that are no whole extension, which decide the answer |
| `ClientHello.NamesExact` | Small_5/package/ipk/shadowsocksr-libev/src/server/tls.c:224-263 | entries of other kinds in front of the first host name are skipped |
| `ClientHello.PacketExact` | Small_5/package/ipk/shadowsocksr-libev/src/server/tls.c:86-192 | the record and the fixed fields, byte by byte: what is incomplete, has no name, is invalid, and where the extensions are |
| `ClientHello.BlockIsList` | Small_5/package/ipk/shadowsocksr-libev/src/server/tls1.2_ticket.c:139-191 | the fixed parts and the name assembled by the client are a list of extensions with right lengths that fills the block exactly |
| `ClientHello.BuildHello` | Small_5/package/ipk/shadowsocksr-libev/src/server/tls1.2_ticket.c:193-227 | written from its end to its front, the message has every nested length right |
| `ClientHello.SniRoundTrip` | Small_5/package/ipk/shadowsocksr-libev/src/server/tls1.2_ticket.c:139-227 | for every host name, the SNI parser finds in the hello exactly the name sent, whatever follows; it rejects the hello exactly for a host that is empty or ends in a digit |
| `TlsTicket.PiecesExact` | Small_5/package/ipk/shadowsocksr-libev/src/server/tls1.2_ticket.c:103-132 | for every draw the records carry exactly the data and the number of records is bounded |
| `TlsTicket.RecordsExact` | Small_5/package/ipk/shadowsocksr-libev/src/server/tls1.2_ticket.c:89-122 | up to 2048 bytes make one record; of more, a piece of 100 to 4195 bytes is taken for each draw until at most 2048 are left |
| `TlsTicket.SplitFits` | Small_5/package/ipk/shadowsocksr-libev/src/server/tls1.2_ticket.c:103-132 | the output buffer of datalength + 2048 bytes suffices for every draw if and only if the data has at most 42848 bytes |
| `TlsTicket.SplitRecords` | Small_5/package/ipk/shadowsocksr-libev/src/server/tls1.2_ticket.c:103-132 | the loop writes that stream of records inside its buffer |
| `TlsTicket.Drain` | Small_5/package/ipk/shadowsocksr-libev/src/server/tls1.2_ticket.c:378-399 | the receive loop computes the reference decoding of the buffered bytes, verdict included |
| `TlsTicket.BuildAnswer` | Small_5/package/ipk/shadowsocksr-libev/src/server/tls1.2_ticket.c:312-368 | the answer of the server, written from its end to its front |
| `TlsTicket.AnswerRecords` | Small_5/package/ipk/shadowsocksr-libev/src/server/tls1.2_ticket.c:312-368 | the answer is three whole records: a ServerHello with the time, the random bytes, their hash and the id, a ChangeCipherSpec, and 32 bytes of handshake |
| `TlsTicket.Peer.EncodeAsClient` | Small_5/package/ipk/shadowsocksr-libev/src/server/tls1.2_ticket.c:84-263 | state and output of client_encode: hello, queue, final handshake message with the queued records, or records |
| `TlsTicket.Peer.EncodeAsServer` | Small_5/package/ipk/shadowsocksr-libev/src/server/tls1.2_ticket.c:265-368 | state and output of server_encode |
| `TlsTicket.Peer.DecodeAsClient` | Small_5/package/ipk/shadowsocksr-libev/src/server/tls1.2_ticket.c:370-416 | state and answer of client_decode, errors included |
| `TlsTicket.Peer.DecodeAsServer` | Small_5/package/ipk/shadowsocksr-libev/src/server/tls1.2_ticket.c:418-609 | state and answer of server_decode, errors included, with what the receive buffer held behind a short message |
| `TlsTicket.Peer.AnswerHello` | Small_5/package/ipk/shadowsocksr-libev/src/server/tls1.2_ticket.c:499-609 | the tests on a hello, one by one: state, answer, and the copy past the client id |
| `TlsTicket.HelloExact` | Small_5/package/ipk/shadowsocksr-libev/src/server/tls1.2_ticket.c:499-609 | for every input: the server answers if and only if the fixed fields are in order, the session id has 32 bytes, the time test passes and the hash is that of time and random bytes under key and session id |
| `TlsTicket.AnswerExact` | Small_5/package/ipk/shadowsocksr-libev/src/server/tls1.2_ticket.c:400-416 | for every input: the client goes on if and only if it has 76 bytes and their hash is right |
| `TlsTicket.FinExact` | Small_5/package/ipk/shadowsocksr-libev/src/server/tls1.2_ticket.c:456-497 | for every input: the server goes on to the records if and only if the fixed bytes of the last handshake message are there and its hash is right |
| `TlsTicket.OverrunExact` | Small_5/package/ipk/shadowsocksr-libev/src/server/tls1.2_ticket.c:506-556 | the server copies past the 32 bytes of its client id if and only if it waits for a hello and gets one with sound fixed fields and a session id of 33 to 127 bytes, whatever its time and hash |
| `TlsTicket.OwnHelloFits` | Small_5/package/ipk/shadowsocksr-libev/src/server/tls1.2_ticket.c:193-227 | no hello of a client makes it do so, in any state of the server |
| `TlsTicket.LongIdOverruns` | Small_5/package/ipk/shadowsocksr-libev/src/server/tls1.2_ticket.c:549-557 | any hello of a client with its session id length changed to 33 to 127 does |
| `TlsTicket.OverrunWitness` | Small_5/package/ipk/shadowsocksr-libev/src/server/tls1.2_ticket.c:549-557 | one concrete such message |
| `TlsTicket.TimeExact` | Small_5/package/ipk/shadowsocksr-libev/src/server/tls1.2_ticket.c:568-589 | before 2038 the 32-bit time test is the test on unbounded integers, with the first byte first, and no test without a tolerance |
| `TlsTicket.TimeWraps` | Small_5/package/ipk/shadowsocksr-libev/src/server/tls1.2_ticket.c:568-589 | a time stamp from 2038 on is turned down whenever a tolerance is set |
| `TicketRun.HelloAnswered` | Small_5/package/ipk/shadowsocksr-libev/src/server/tls1.2_ticket.c:499-609 | the server takes over the client id and answers a client's hello if and only if the clocks agree; otherwise it reports an error, whatever its buffer held before |
| `TicketRun.HandshakeCompletes` | Small_5/package/ipk/shadowsocksr-libev/src/server/tls1.2_ticket.c:418-609 | once the client has spoken and the clocks agree, three whole messages complete the handshake and the server has everything queued so far |
| `TicketRun.StepKeeps` | Small_5/package/ipk/shadowsocksr-libev/src/server/tls1.2_ticket.c:84-609 | every action of either end or of the network keeps the invariant and is answered |
| `TicketRun.EveryRun` | Small_5/package/ipk/shadowsocksr-libev/src/server/tls1.2_ticket.c:84-609 | in every run neither end gives up, what is delivered is a prefix of what was given in both directions, including data queued before the handshake ended, with equality once the channel is drained |
| `TicketRun.HelloCut` | Small_5/package/ipk/shadowsocksr-libev/src/server/tls1.2_ticket.c:499-609 | of a client's hello the server answers exactly the whole, when the clocks agree, and turns every other part down |
| `TicketRun.AnswerCut` | Small_5/package/ipk/shadowsocksr-libev/src/server/tls1.2_ticket.c:400-416 | the client goes on with a part of the answer if and only if it has the first 76 bytes |
| `TicketRun.FinCut` | Small_5/package/ipk/shadowsocksr-libev/src/server/tls1.2_ticket.c:456-497 | the server goes on with a part of the last handshake message and the records behind it if and only if the message is whole |
| `TicketRun.CutBehindHandshake` | Small_5/package/ipk/shadowsocksr-libev/src/server/tls1.2_ticket.c:418-497 | the network may cut the stream behind the client's last handshake message; the server then decrypts an empty first buffer, which ends the process |
| `Tunnel.LayersDeliver` | Small_5/package/ipk/shadowsocksr-libev/src/server/encrypt.c:1347-1420 | decryption and unframing of any part of an encrypted stream of frames, under every cut: the process ends if and only if the first buffer is shorter than the nonce; otherwise a prefix of the data given comes out, and all of it at the end, with equal counters |
| `Tunnel.EveryTunnel` | Small_5/package/ipk/shadowsocksr-libev/src/server/server.c:677-773 | in every run of the ticket protocol, what is given to pre_encrypt, ss_encrypt and client_encode is what server_decode, ss_decrypt and post_decrypt deliver: a prefix of it at any time, and once the channel is drained all of it if and only if the first buffer server_decode returns holds the nonce |
| `Tunnel.EveryTunnelBack` | Small_5/package/ipk/shadowsocksr-libev/src/server/server.c:1279-1309 | the same for the way back, from the server's layers to the client's |
| `Relay.StepKeeps` | Small_5/package/ipk/shadowsocksr-libev/src/server/server.c:610-846 | every callback keeps the invariant, however much the sockets take and whatever fits the remote's buffer |
| `Relay.StageExact` | Small_5/package/ipk/shadowsocksr-libev/src/server/server.c:610-846 | the stage after every event; the connection is closed exactly by an end of file or timeout, a dropped request, a failed look-up, a send that fails, a remote that cannot be reached, or a writable socket with nothing to send |
| `Relay.HistoryExact` | Small_5/package/ipk/shadowsocksr-libev/src/server/server.c:1085-1137 | what every event adds to the bytes given and to the bytes sent: all that was read, and exactly what the socket took |
| `Relay.NothingLost` | Small_5/package/ipk/shadowsocksr-libev/src/server/server.c:1237-1428 | in every run without such an event and without an overrun the connection stays open, and at every moment the bytes sent and the bytes waiting are all that was given, either way |
| `Relay.RequestWaits` | Small_5/package/ipk/shadowsocksr-libev/src/server/server.c:1041-1078 | a request by address goes past the 2048 bytes of the remote's buffer if and only if its payload is larger; otherwise the payload behind a header waits whole in the buffer of the remote, or of the server while a name is resolved, and the client is not read meanwhile |
| `Relay.EveryState` | Small_5/package/ipk/shadowsocksr-libev/src/server/server.c:1085-1137 | in every run memory is overrun if and only if a request with more than 2048 bytes of payload got its remote; in every state of any other run: while streaming exactly one of client read and remote write and one of remote read and client write is armed, bytes sent plus the pending slice are the bytes to pass on in order, and at any time what was sent is a prefix of them |
| `Relay.OverrunExact` | Small_5/package/ipk/shadowsocksr-libev/src/server/server.c:1051-1059 | from any state, the rest of a run ends in an overrun exactly when it holds such a request, or the answer to a pending one |
| `Relay.OverrunWitness` | Small_5/package/ipk/shadowsocksr-libev/src/server/server.c:1220-1228 | any payload above 2048 bytes does it, by address at once and by name when the name is resolved |
| `Tunnel.LargeOverruns` | Small_5/package/ipk/shadowsocksr-libev/src/server/server.c:1051-1059 | such a request is reached: for every address and every payload of 2893 bytes, two frames of verify_simple that arrive in two reads below 2048 bytes are decoded, parsed and copied past the buffer |
| `Relay.NothingStuck` | Small_5/package/ipk/shadowsocksr-libev/src/server/server.c:1337-1428 | in every run an open connection is without an armed watcher or a pending query if and only if the last thing that happened to it was a request by name for which no query could be submitted; with both readers armed everything has been passed on |
| `Relay.StuckStep` | Small_5/package/ipk/shadowsocksr-libev/src/server/server.c:1062-1078 | the step that leaves a connection so is exactly that one |
| `Relay.StuckWaits` | Small_5/package/ipk/shadowsocksr-libev/src/server/server.c:1062-1078 | nothing but its end can happen to such a connection |
| `Relay.StuckWitness` | Small_5/package/ipk/shadowsocksr-libev/src/server/server.c:1062-1078 | the shortest run that ends so |
| `Relay.Connection.ServerRecvHeader` | Small_5/package/ipk/shadowsocksr-libev/src/server/server.c:774-816 | the header stages for any outcome of the header: stage, watchers and buffers afterwards, keeping the invariant |
| `Relay.Connection.ServerRecvBytes` | Small_5/package/ipk/shadowsocksr-libev/src/server/server.c:774-1078 | the header stages for any decoded bytes: the outcome is the one these bytes have with the ones collected, every piece of an incomplete header is kept, and the invariant holds |
| `Addressing.ParsesBack` | Small_5/package/ipk/shadowsocksr-libev/src/server/server.c:877-1039 | for every address, port, flag and payload, parsing what a client writes gives them back, unless the name is turned down or a chunk of the payload is forged; and the header is seen to be complete |
| `Addressing.OnlyWritten` | Small_5/package/ipk/shadowsocksr-libev/src/server/server.c:877-1039 | a request that is taken begins with exactly the header, tag included, that a client writes for its address and port |
| `Addressing.UnchunkedExact` | Small_5/package/ipk/shadowsocksr-libev/src/server/server.c:1030-1037 | the payload behind a header is taken as it is, or with one-time authentication the data of the chunks that are complete |
| `Addressing.ForgedChunk` | Small_5/package/ipk/shadowsocksr-libev/src/server/server.c:1030-1037 | a first chunk with a wrong hash is refused |
| `Addressing.LookExact` | Small_5/package/ipk/shadowsocksr-libev/src/server/server.c:248-285 | the completeness test in terms of the bytes: which types are wrong, and from which length on a header is complete |
| `Addressing.PartIncomplete` | Small_5/package/ipk/shadowsocksr-libev/src/server/server.c:248-285 | every proper part of a written header with its first byte is seen to be incomplete |
| `Addressing.ParseRequest` | Small_5/package/ipk/shadowsocksr-libev/src/server/server.c:877-1039 | the parser, test by test, computes that reading |
| `Addressing.FeedSettles` | Small_5/package/ipk/shadowsocksr-libev/src/server/server.c:774-816 | the first buffer that does not look like an incomplete header decides: by the verdict on it alone, and with all the bytes up to its end |
| `Addressing.CutHeader` | Small_5/package/ipk/shadowsocksr-libev/src/server/server.c:774-816 | for every header, payload and cut: the request is taken as written if and only if that buffer looks like a complete header and the header has arrived by then; otherwise it is refused, fails, or waits |
| `Addressing.WholeHeader` | Small_5/package/ipk/shadowsocksr-libev/src/server/server.c:774-787 | a header that arrives whole in the first buffer is taken at once |
| `Addressing.CutLost` | Small_5/package/ipk/shadowsocksr-libev/src/server/server.c:798-815 | the header of 127.0.0.1:80 cut behind three bytes fails the connection |
| `Relay.Connection.Request` | Small_5/package/ipk/shadowsocksr-libev/src/server/server.c:1041-1078 | for every payload behind a header: it goes past the remote's buffer if and only if it is sent to an address and larger than 2048 bytes; otherwise it is exactly what is pending in the remote's buffer, or in the server's while a name is resolved; nothing of it is sent, the client is not read, and the invariant holds |
| `Relay.Connection.ServerRecv` | Small_5/package/ipk/shadowsocksr-libev/src/server/server.c:819-846 | state after client data and any outcome of the send, keeping the invariant |
| `Relay.Connection.ServerResolve` | Small_5/package/ipk/shadowsocksr-libev/src/server/server.c:1182-1234 | after a name was resolved: the payload goes past the remote's buffer if and only if it is larger than 2048 bytes, otherwise it is exactly what is pending there; the invariant holds, also when it was not resolved |
| `Relay.Connection.RemoteSend` | Small_5/package/ipk/shadowsocksr-libev/src/server/server.c:1337-1428 | state after the remote became writable, connected or not, keeping the invariant |
| `Relay.Connection.RemoteRecv` | Small_5/package/ipk/shadowsocksr-libev/src/server/server.c:1237-1335 | state after remote data and any outcome of the send, keeping the invariant |
| `Relay.Connection.ServerSend` | Small_5/package/ipk/shadowsocksr-libev/src/server/server.c:1084-1137 | state after the client became writable, keeping the invariant |
| `Base64.Encode` | Small_5/package/ipk/shadowsocksr-libev/src/server/base64.c:42-77 | the output is the Base64 form of section 4 of RFC 4648, written inside a buffer of exactly that size |
| `Base64.Decode` | Small_5/package/ipk/shadowsocksr-libev/src/server/base64.c:79-119 | for every input: verdict and bytes written are those of the definition, nothing beyond them is touched, and no byte is added to before it was written |
| `Base64.DecodeEncoded` | Small_5/package/ipk/shadowsocksr-libev/src/server/base64.c:42-119 | decoding the encoded form of any bytes succeeds, returns them, and touches exactly as many output bytes |
| `Base64.VerdictExact` | Small_5/package/ipk/shadowsocksr-libev/src/server/base64.c:79-119 | a text is accepted if and only if every character in front of the first padding character is in the alphabet |
| `Base64.TestVectors` | Small_5/package/ipk/shadowsocksr-libev/src/server/base64.c:42-77 | two encodings, one of them of section 10 of RFC 4648 |
| `Base64.Regroup` | Small_5/package/ipk/shadowsocksr-libev/src/server/base64.c:42-119 | the shifts and masks of the decoder put the bits of three bytes back together |
| `Resolv.ChooseFirst` | Small_5/package/ipk/shadowsocksr-libev/src/server/resolv.c:371-402 | the scan returns the first address of the family, or else the first of all, or nothing |
| `Resolv.ArrivalOrder` | Small_5/package/ipk/shadowsocksr-libev/src/server/resolv.c:346-402 | the address the client gets does not depend on which answer arrives first: it is the first of the preferred family, or else the first of the other |
| `Resolv.Query.constructor` | Small_5/package/ipk/shadowsocksr-libev/src/server/resolv.c:157-211 | the free callback is called at once exactly when no query could be submitted, and the pointer is kept by the caller in either case |
| `Resolv.Query.OnV4` | Small_5/package/ipk/shadowsocksr-libev/src/server/resolv.c:249-294 | the client is called exactly when nothing is pending any more, once, with the preferred address, and its data is freed once |
| `Resolv.Query.OnV6` | Small_5/package/ipk/shadowsocksr-libev/src/server/resolv.c:296-341 | the same for the other query |
| `Resolv.Query.Cancel` | Small_5/package/ipk/shadowsocksr-libev/src/server/resolv.c:213-231 | nothing is pending and the data is freed once more; use of a released structure is recorded; the client is not called |
| `Resolv.Query.Close` | Small_5/package/ipk/shadowsocksr-libev/src/server/server.c:1583-1590 | closing the connection cancels exactly the pointer still kept, released or not |
| `Resolv.LifeAccounted` | Small_5/package/ipk/shadowsocksr-libev/src/server/resolv.c:157-366 | in every run the number of frees, the kept pointer and the use of released memory are determined by whether a query was submitted, is pending, and the connection was closed |
| `Resolv.FreedOnce` | Small_5/package/ipk/shadowsocksr-libev/src/server/resolv.c:157-366 | in every finished run the free callback was called exactly once, and never through a released structure, if and only if a query could be submitted or the connection was never closed; otherwise twice |
| `Resolv.FreedTwice` | Small_5/package/ipk/shadowsocksr-libev/src/server/server.c:1583-1590 | one such run: nothing could be submitted, and the connection is closed |

## Left out

- Ciphers, digests, HMAC, random numbers and clocks: parameters of the model.
- HTTP obfuscation plugins, UDP packet formats of the auth plugins, and `list.c`: the client list of the hello test is empty, as it is for a fresh connection.
- Contents of the authentication packets of `auth.c`: opaque bytes of bounded length in front of the frames.
- Allocation failure, except for the sizes wrapped in `ss_decrypt` and `json.c`; and the bucket array of 64 GiB at which the bucket count of the hash table would wrap.
- HASH_SORT, HASH_SELECT, Bloom filter and the hash functions of `uthash.h`: the hash is any function of the key.
- The form of host names, access rules, and which names are written addresses: parameters of `Addressing`. What decoding and encoding make of the bytes of the stream is part of an event of `Relay`; TCP fast open and the compatible modes of protocol and obfuscation are off; the handshake answer written directly to the client is not part of the relayed stream.
- Numbers in JSON: their text is delimited and checked, their value is not computed; comments are off. `JsonGrammar.AcceptedExact` is about texts below 4 GiB, where no 32-bit count can overflow.
- JSON values as heap objects: they are numbered in order of allocation, and pointers are those numbers.
- Lists of several hosts in the parameter of `client_encode`: the model starts from the host chosen.
- The last ten bytes of the server's handshake answer: a hash over a partly unset buffer, which the client does not check.
- StreamCipher.Context.Decrypt: the answer of the replay test is a parameter, which `IvReplay.Decrypt` computes; buffers are shorter than 2^62 bytes, the 64-bit byte counter does not wrap, and the IETF variant stays within its 32-bit block counter (`StreamCipher.IetfWraps` shows what happens at its end).
- Access control lists, option parsing, socket set-up, logging and the packaging around the server.
