# Verified models of a sync client's codecs, protocol engines and shared cache

This project models six components of the pclsync library and proves what they are for. Everything is
checked by `dafny verify dfyconfig.toml`, within the default time limit.

| component | source | modules |
|---|---|---|
| sector, name and counter-mode codecs | `pclsync/pcrypto.c` | Bytes, BlockCipher, SectorCodec, SectorBuffers, SectorLaws, TextCodec, TextLaws, CtrCodec |
| CRC-32C and the 256-bit streaming hash | `pclsync/pcrc32c.c` | Crc32c, Crc32cLoops, Crc32cLaws, FastHash, FastHashLaws |
| binary API: results, resumable reader, requests | `pclsync/papi.c` | ApiFormat, ApiFormatFacts, ApiMeaning, ApiWriter, ApiAccepted, ApiArena, ApiSizer, ApiBuilder, ApiParser, ApiReader, ApiRequest |
| timed multi-value cache | `pclsync/pcache.c` | CacheLists, CacheTable (one call at a time); CacheSteps, CacheOwnership, CacheSafety, CacheGuarantees (all interleavings); CacheAlone, CacheSweeps, CacheAdds (a call that runs alone, among others that stand still) |
| ring-buffered compressor | `pclsync/pdeflate.c` | DeflateRing, Zlib, Deflate, DeflateCases |
| crypto folder: keys, state, locks | `pclsync/pcryptofolder.c` | KeyFiles, CryptoFolder (one call at a time); CryptoLocks, CryptoRaces (all interleavings) |

Options, Sequences and WordSizes hold what several of them share.

How the pieces fit together:

* Code that works in place is a class or a method over arrays, proved equal to a function on byte strings; the laws
  (round trips, linearity, independence of splitting) are lemmas about those functions. So that the functions are not
  their own measure, other lemmas say what they compute in terms of their primitives and of numbers alone: AES, HMAC and
  the IV for the codecs, the polynomial and the check value for the CRC, the type bytes for the binary API.
* AES is a pair of functions that undo each other, SHA-512, PBKDF2 and the RSA library are arbitrary functions, base32
  is a pair of which decoding undoes encoding, random nonces and salts are arguments, and zlib is an arbitrary script
  of answers of which only this is assumed: a call that reports no progress or a broken stream emits nothing. What
  else zlib promises is a predicate on the script that a lemma names as its hypothesis: `Zlib.Finishes`,
  `Zlib.FlushesOnly`, `Zlib.Progresses`.
* The cache is modelled twice. `CacheTable` has the loops of the source and refines a map from keys to stacks of
  entries. `CacheSteps` cuts the same calls, and the timer callback, into atomic steps of any number of threads;
  `CacheOwnership` states an invariant, `CacheSafety` shows that every step keeps it, and `CacheGuarantees` draws the
  conclusions for every reachable state. `CacheAlone`, `CacheSweeps` and `CacheAdds` say what each call does from any
  reachable state when it runs to its end while the others stand still.
* `CryptoLocks` is the step model of the two locks that unlocking takes, `CryptoRaces` that of the flag which locking
  the folder clears and other calls read without a lock.

Where the code does not do what it was meant to do, the model follows the code and says exactly when:

* Finishing a stream loses data when more is left than the ring has room for. The overflow loop keeps its buffer only
  if it ends with Z_OK or Z_BUF_ERROR (`pclsync/pdeflate.c:152-154`), and finishing ends it with Z_STREAM_END. If T
  bytes are left, a write with FLUSH_END loses T minus the free room of the ring, and nothing exactly when T is at most
  that (`Zlib.FinishingLosesTheExcess`, `Deflate.Deflater.Write`); `DeflateCases.LastByteIsLost` is an input. A full
  ring refuses the write and loses nothing, and a partial flush loses nothing either.
* A stream whose end exactly fills the room of its last call leaves the flag for more data set, so the read after the
  last byte calls the compressor again (`pclsync/pdeflate.c:223-243`). `deflate` refuses a finished stream, and the
  reader gets an error before the end of file: `DeflateCases.ErrorBeforeTheEnd` is an input. With that flag clear, if
  zlib keeps its contract, a read returns 0 exactly when the stream has ended and everything kept was delivered
  (`Deflate.Deflater.Read`).
* The assertion at `pclsync/pdeflate.c:255-256` holds only for reads that drain the ring
  (`DeflateRing.WrapAssertionMeansDrained`); `DeflateCases.WrappedReadFailsAssertion` reaches a ring where it fails.
* The first look into an array or a hash is not length-checked (`pclsync/papi.c:202`, `pclsync/papi.c:219`). The
  parser's outcome for such a message is `PastEnd`, after which nothing is claimed.
* The comment in `pcryptofolder_unlock` argues from read locks being concurrent. That needs a lock that lets readers
  overtake a waiting writer, which the default initialiser gives on glibc; with any other lock there is a deadlock.
  And unlocking tries the database lock only while it reads the stored keys. If they are not all stored it downloads
  them under the write lock, and if no working connection is pooled it makes one, which waits for the database lock
  (`pclsync/psock.c:168`, `pclsync/psock.c:217`); a thread that lists a folder under the database lock asks whether
  the crypto folder is unlocked (`pclsync/pfolder.c:648`), and both wait for ever. Without a deadlock are exactly the
  unlocks that need no new connection, with a lock that prefers readers (`CryptoLocks.DeadlockFreeExactlyWhen`).
* Key material can stay cached in a locked folder. `pcryptofolder_lock` clears its flag before it has the write lock,
  and a codec that is given back looks at the flag under no lock. A release that began before the flag was cleared can
  add its codec after the cleaning, and an unlock that has the write lock sets the flag again, after which the locked
  folder caches and gives out codecs (`CryptoRaces.LateReleaseStays`, `CryptoRaces.LockedGivesCodec`). It cannot happen
  exactly if locking overlaps with neither (`CryptoRaces.LockedIsEmptyExactlyWhen`).
* The name codec accepts ciphertexts that no name is encoded to: with whole blocks of padding at the end, or with a
  terminator in the first block and other text behind it (`TextCodec.ExtraPaddingIsAccepted`,
  `TextCodec.HiddenTextIsAccepted`). `TextCodec.AcceptedIsForged` describes all it accepts of more than one block,
  `TextCodec.EncodeDecodedText` says which accepted ciphertexts are canonical.

## Model

| member | source | states |
|---|---|---|
| SectorCodec.OpenSeal | pclsync/pcrypto.c:486-641 | for every plaintext length, nonce and sector id, opening what was sealed is accepted and gives back the bytes and the nonce |
| SectorCodec.SealOpen | pclsync/pcrypto.c:561-641 | data is accepted if and only if sealing the opened bytes with the recovered nonce gives that data and auth block again |
| SectorLaws.SealedBody | pclsync/pcrypto.c:499-558 | a sealed sector of a block or more is the data, with zeros to the next block, chained under the first 16 bytes of HMAC(data, sector id, nonce); if zeros were added the last two blocks are swapped and the ciphertext cut |
| SectorLaws.TwoAcceptedCollide | pclsync/pcrypto.c:633-640 | two data of one length class accepted under one auth block, or one sector under two sector ids, give two different messages whose HMACs start with the same 16 bytes |
| SectorLaws.CbcBlock | pclsync/pcrypto.c:526-549 | each ciphertext block is the encryption of the plaintext block combined with the ciphertext block, or IV, before it |
| SectorLaws.HmacIsRfc2104 | pclsync/pcrypto.c:46-77 | the keyed hash is HMAC as RFC 2104 defines it, of the key with zeros up to 128 bytes or cut to them |
| SectorLaws.HmacCollides | pclsync/pcrypto.c:46-77 | two messages with one HMAC give a collision of the hash |
| SectorCodec.CbcDecryptEncrypt | pclsync/pcrypto.c:526-549 | chaining is undone by unchaining, for every IV and length |
| SectorCodec.CbcEncryptDecrypt | pclsync/pcrypto.c:608-619 | and the other way round, so no two plaintexts share a ciphertext |
| SectorCodec.StealDecryptEncrypt | pclsync/pcrypto.c:550-558 | the stealing step loses nothing of the last whole block and the partial one |
| SectorCodec.StealEncryptDecrypt | pclsync/pcrypto.c:620-632 | the two ends of the stealing step are inverse in the other direction too |
| SectorCodec.BodyDecryptEncrypt | pclsync/pcrypto.c:513-558 | chaining and stealing together are undone, whatever the remainder of the length |
| SectorCodec.BodyEncryptDecrypt | pclsync/pcrypto.c:585-632 | every ciphertext of at least a block is the encryption of what it decrypts to |
| SectorBuffers.FourIsChained | pclsync/pcrypto.c:595-607 | the batch that decodes four blocks and xors them at once equals four chained blocks |
| SectorBuffers.DecodeFours | pclsync/pcrypto.c:595-607 | the batched loop writes the chained decoding of all whole batches and is left chained to the last block, in place or not |
| SectorBuffers.DecodeChained | pclsync/pcrypto.c:595-619 | both decoding loops together write the chained decoding of all whole blocks, across the pointer swaps |
| SectorBuffers.DecodeStolen | pclsync/pcrypto.c:620-632 | the stealing step reads its input before it overwrites it |
| SectorBuffers.DecodeSec | pclsync/pcrypto.c:561-641 | verdict and output are those of opening the input, for every length, with `data` and `out` distinct or the same buffer; nothing else is written; the verdict is 0 exactly if the decrypted auth block holds the first 16 bytes of HMAC(decoded bytes, sector id, nonce), and else -1 |
| SectorBuffers.EncodeChained | pclsync/pcrypto.c:526-549 | the encoding loop writes the chained blocks and ends chained to the last of them |
| SectorBuffers.EncodeStolen | pclsync/pcrypto.c:550-558 | writes both parts of the stolen pair |
| SectorBuffers.EncodeSec | pclsync/pcrypto.c:486-559 | ciphertext and auth block are those of sealing, in all three length classes; decrypted, the auth block is nonce and first 16 bytes of HMAC(data, sector id, nonce) in the stored order |
| Bytes.MemcmpConst | pclsync/pcrypto.c:476-484 | the branch-free comparison is 0 exactly for equal strings and 1 otherwise |
| TextCodec.DecodeEncodedText | pclsync/pcrypto.c:272-389 | a nonempty text is recovered from its encoding if and only if it has no zero byte |
| TextCodec.EncodeDecodedText | pclsync/pcrypto.c:312-389 | an accepted ciphertext is the encoding of the name read from it if and only if that name, rounded up, has the ciphertext's length |
| TextLaws.EncodedBlock | pclsync/pcrypto.c:272-310 | each block of an encoded name from the padded name and the block before; the first is chained to HMAC of all that follows the first 16 bytes, or to the key's IV if nothing does |
| TextCodec.ForgedIsAccepted | pclsync/pcrypto.c:345-388 | any plaintext whose later blocks are one terminated string and zeros is accepted under the IV that fits it, and decodes to itself |
| TextCodec.AcceptedIsForged | pclsync/pcrypto.c:345-388 | and nothing else of more than one block is accepted |
| TextCodec.ExtraPaddingIsAccepted | pclsync/pcrypto.c:379-387 | a ciphertext that ends in a block of padding only is accepted and reads as a name it does not encode |
| TextCodec.HiddenTextIsAccepted | pclsync/pcrypto.c:375-387 | so is one with a zero byte in its first block and text behind it |
| TextCodec.EncodeText | pclsync/pcrypto.c:272-310 | the loop over copy_pad produces the chained encoding of the padded text, whose length is rounded up to 16 |
| TextCodec.EncodeRest | pclsync/pcrypto.c:257-310 | every block after the first is chained to the one before, padding included |
| TextCodec.DecodeRest | pclsync/pcrypto.c:345-373 | every block after the first is unmasked with the ciphertext before it |
| TextCodec.DecodeText | pclsync/pcrypto.c:312-389 | accepts exactly the ciphertexts whose padding is zero, and returns the terminated text |
| CtrCodec.CtrTwice | pclsync/pcrypto.c:191-238 | applying the counter mode twice at one offset is the identity |
| CtrCodec.CtrSlice | pclsync/pcrypto.c:191-238 | a slice decoded at its own offset is that slice of the whole decode |
| CtrCodec.CounterBlock | pclsync/pcrypto.c:143-152 | decrypting what a block of zeros is masked to gives the IV with its first word combined with the block's number, least significant byte first |
| CtrCodec.CountersDiffer | pclsync/pcrypto.c:143-152 | so no two of 2^64 blocks are masked alike |
| CtrCodec.XorWordsIsXor | pclsync/pcrypto.c:113-134 | the word-wise xor of the aligned path equals the byte-wise one |
| CtrCodec.Decode | pclsync/pcrypto.c:191-238 | prologue, block loop and tail mask every byte by its own position, in place, at any offset and address |
| Crc32c.CrcLinear | pclsync/pcrc32c.c:427-431 | what the initial register contributes to a CRC is independent of the data |
| Crc32c.CrcAppend | pclsync/pcrc32c.c:436-478 | the CRC of a concatenation continues from the register of the first part |
| Crc32c.CrcConcat | pclsync/pcrc32c.c:731-748 | the register of a concatenation is the first register moved past the second part, plus the register of the second part |
| Crc32cLaws.StepDivides | pclsync/pcrc32c.c:52-74 | with its bits reversed, a step of the register is one of left-shifting division by x^32 + 0x1edc6f41 |
| Crc32cLaws.CheckValue | pclsync/pcrc32c.c:436-478 | the digits 1 to 9 have the check value 0xe3069283 |
| Crc32c.TableIsShifts | pclsync/pcrc32c.c:52-74 | row k of the slicing table is what k + 1 zero bytes do to a byte |
| Crc32c.TableByteIsCrc | pclsync/pcrc32c.c:427-431 | the table step for a byte is eight steps of polynomial division |
| Crc32c.TableWordIsCrc | pclsync/pcrc32c.c:403-413 | slicing by eight is the bit-serial CRC of eight bytes |
| Crc32c.ShiftChunkIsShifts | pclsync/pcrc32c.c:706-711 | the chunk tables move a register past 1360 zero bytes |
| Crc32cLoops.ComputeSoftware | pclsync/pcrc32c.c:436-478 | the sliced loops compute the bit-serial CRC for every start address, length and register |
| Crc32cLoops.MergeChunks | pclsync/pcrc32c.c:745-748 | three registers over adjacent chunks merge into the register of the whole stretch |
| Crc32cLoops.RunChunks | pclsync/pcrc32c.c:731-744 | the inner loop leaves each register with the CRC of its own chunk |
| Crc32cLoops.ComputeHardware | pclsync/pcrc32c.c:717-771 | the three-way loop computes the bit-serial CRC for every start address, length and register |
| FastHash.SoftwareIsHardware | pclsync/pcrc32c.c:925-935 | both round functions agree even where the upper half of the register is not zero |
| FastHash.RoundsAgree | pclsync/pcrc32c.c:859-901 | a round gives the same state in software and in hardware |
| FastHash.AbsorbMore | pclsync/pcrc32c.c:979-1024 | hashing a longer message only depends on the state and on the bytes left over |
| FastHash.Context.Update | pclsync/pcrc32c.c:953-968 | appends to the message; the fill count in byte 63 stays the length modulo 64, whatever the data |
| FastHash.Context.UpdateShort | pclsync/pcrc32c.c:970-976 | short pieces are buffered without touching the fill count by data |
| FastHash.Context.UpdateLong | pclsync/pcrc32c.c:979-1024 | long pieces complete the buffered block, absorb whole blocks and buffer the rest |
| FastHash.Context.Final | pclsync/pcrc32c.c:1026-1052 | the digest is that of the whole message hashed in one piece |
| FastHash.HashPieces | pclsync/pcrc32c.c:813-1052 | any cut of a message into updates, each in software or hardware, gives the digest of the concatenation |
| FastHashLaws.RoundKeepsState | pclsync/pcrc32c.c:859-881 | from the four registers after a round and the block, the four before it can be recovered |
| FastHashLaws.RoundKeepsFirstHalf | pclsync/pcrc32c.c:859-881 | blocks that differ in their first halves only lead to different registers |
| FastHashLaws.RoundKeepsSecondHalf | pclsync/pcrc32c.c:859-881 | and so do blocks that differ in their second halves only |
| FastHashLaws.WordsKeepBlock | pclsync/pcrc32c.c:910-914 | no byte of a block is ignored when its words are loaded |
| FastHashLaws.TweakKeepsWords | pclsync/pcrc32c.c:1032-1036 | mixing in the length loses nothing of the last block |
| FastHashLaws.TweakKeepsLength | pclsync/pcrc32c.c:1032-1036 | and tells any two 64-bit lengths apart |
| FastHashLaws.FinishKeepsY | pclsync/pcrc32c.c:1038-1051 | final states that differ in y only have different digests |
| FastHashLaws.FinishLength | pclsync/pcrc32c.c:1047-1051 | a digest has 32 bytes |
| ApiFormatFacts.UsedIsRoom | pclsync/papi.c:143-242 | building takes at most the measured room, and all of it exactly when every hash key is a string |
| ApiFormatFacts.RoomIsBounded | pclsync/papi.c:143-242 | the measured room is at most 24 bytes for each byte consumed, so it cannot overflow |
| ApiFormatFacts.EvalCountsStrings | pclsync/papi.c:168-185 | the meaning of a message registers as many strings as measuring counted, so references stay inside the table |
| ApiSizer.Sizer.CalcRetLen | pclsync/papi.c:143-242 | the sizing pass accepts, refuses or leaves a message as the reference decoder does, consumes the same bytes and returns the room of the value |
| ApiSizer.Sizer.CalcItems | pclsync/papi.c:197-234 | the array and hash loops measure all items up to the end mark |
| ApiBuilder.Builder.DoParse | pclsync/papi.c:244-367 | without any check of its own the building pass consumes the same bytes, stays inside the measured arena, follows registered string ids only and builds the decoder's value |
| ApiBuilder.Builder.BuildPairs | pclsync/papi.c:327-357 | pairs whose key is not a string are built and dropped |
| ApiBuilder.Builder.BuildItems | pclsync/papi.c:303-326 | the items of an array are built in order |
| ApiParser.ParseResult | pclsync/papi.c:369-387 | parsing gives a null result exactly for refused messages, and otherwise an arena that represents the decoder's value within the measured size |
| ApiArena.OneMeaning | pclsync/papi.c:244-367 | a pointer into the arena represents at most one value, so what was built can be read in one way only |
| ApiParser.PastEndOnlyAfterContainer | pclsync/papi.c:202-219 | only a message that ends in the tag of an array or a hash can make the sizing pass look behind its end |
| ApiParser.LoneContainerLeavesMessage | pclsync/papi.c:197-219 | a container tag alone does |
| ApiParser.ContainerByteInString | pclsync/papi.c:151-169 | a message may end in such a byte and be read, if it is part of a string |
| ApiWriter.ParseWritten | pclsync/papi.c:143-242 | whatever is written is read again at every position: numbers in any width from 1 to 8 bytes, strings and references in the short form or with 1 to 4 bytes, arrays and hashes of those |
| ApiAccepted.ReadIsWritten | pclsync/papi.c:143-242 | and nothing else is read: the bytes of every accepted value are one of these writings of it |
| ApiAccepted.FromLeAppend | pclsync/papi.c:287-294 | the bytes of a number count in powers of 256, the first one least |
| ApiMeaning.RegistersInOrder | pclsync/papi.c:265-268 | strings are numbered in the order in which they are written, through all levels |
| ApiMeaning.RefMeans | pclsync/papi.c:273-286 | a reference stands for the string of that number |
| ApiMeaning.PairsInOrder | pclsync/papi.c:343-356 | the pairs of a hash keep their order |
| ApiMeaning.PairMeans | pclsync/papi.c:343-350 | a key and a value are a pair exactly if the key is a string |
| ApiReader.CallIsExplained | pclsync/papi.c:442-473 | a call is ready exactly if it failed or the message is complete; it failed exactly if the last delivery it took closed or broke the socket, or the message is empty; it takes no byte of the next message |
| ApiReader.Reader.ResultAsync | pclsync/papi.c:442-473 | what a call reads, takes off the socket and answers is determined by what had arrived and by the socket, as explained; a ready reader is as it was allocated, with the one-shot parse of the message or the null result of a failure |
| ApiReader.CallInSession | pclsync/papi.c:442-473 | while the connection stays up no call fails, and one that is ready has exactly the next message |
| ApiReader.Session | pclsync/papi.c:430-473 | for any pieces of any sequence of messages: the replies are their one-shot parses in order, and all of them once as many deliveries brought something as there are bytes |
| ApiReader.EmptyIsNull | pclsync/papi.c:445-455 | a call that completes a message of length 0 fails, with the null result that parsing it would give |
| ApiRequest.DecodeEncode | pclsync/papi.c:475-530 | a reference reader recovers command, data length and every parameter if and only if all of them fit their fields |
| ApiRequest.EncodeInjective | pclsync/papi.c:475-530 | different requests that fit are different messages |
| ApiRequest.ParamOnWire | pclsync/papi.c:512-526 | the bytes of each kind of parameter, with type 0, 1 or 2 in the two high bits of the first |
| ApiRequest.RequestOnWire | pclsync/papi.c:498-511 | the bytes of a request: its length, the command's length with the top bit set if data follow, the command, the number of parameters |
| ApiRequest.Prepare | pclsync/papi.c:475-530 | the precomputed length is the number of bytes written, which are the encoded request; null exactly above 0xffff |
| ApiRequest.WriteParams | pclsync/papi.c:512-526 | the moving pointer ends where the sizing loop said |
| CacheTable.BucketHasOneLock | pclsync/pcache.c:47-48 | with 32-bit wrap-around, all hashes of a bucket use the lock that the clean loops take for it |
| CacheLists.FirstFree | pclsync/pcache.c:121-130 | the search of a bucket finds the newest stoppable entry of the key's own list |
| CacheTable.AddThenGet | pclsync/pcache.c:103-189 | last in, first out: a get right after an add returns the added object and leaves the key as it was, unless the key was full or the timer was faster |
| CacheLists.TakeFreeDrains | pclsync/pcache.c:206-218 | repeated removal leaves the running entries and frees the others newest first |
| CacheLists.SweepOfKey | pclsync/pcache.c:239-264 | a sweep of a bucket takes from each matching key what can be stopped, and nothing from other keys |
| CacheTable.Table.constructor | pclsync/pcache.c:88-101 | a new table has no entry for any key |
| CacheTable.Table.Detach | pclsync/pcache.c:120-131 | takes the newest stoppable entry of the key, and leaves every other key alone |
| CacheTable.Table.Get | pclsync/pcache.c:103-133 | returns the newest stoppable object of the key, or none if there is none |
| CacheTable.Table.Has | pclsync/pcache.c:135-151 | true exactly if the key has an entry, running or not |
| CacheTable.Table.Add | pclsync/pcache.c:153-189 | pushes, or frees the object of a full key; at most max(previous, maxkeys) entries remain |
| CacheTable.Table.Del | pclsync/pcache.c:191-219 | ends, frees every stoppable entry of the key in order and keeps the running ones |
| CacheTable.Table.SweepBucket | pclsync/pcache.c:249-261 | unlinking while walking removes exactly the swept entries of one list and frees them in order |
| CacheTable.Table.CleanOneof | pclsync/pcache.c:239-264 | over all buckets, exactly the stoppable entries of keys that one of the prefixes starts are freed, and every other key keeps its entries |
| CacheTable.Table.Clean | pclsync/pcache.c:221-237 | leaves only running entries |
| CacheTable.Table.Expire | pclsync/pcache.c:78-86 | the timer callback frees its own entry and no other |
| CacheSafety.EveryStep | pclsync/pcache.c:78-264 | every step of every call, and of the timer thread, keeps the invariant of locks, lists, timers, claims and objects |
| CacheSafety.EveryRunFrom | pclsync/pcache.c:78-264 | so it holds after any interleaving |
| CacheSafety.StopStep | pclsync/pcache.c:123-124 | a successful ptimer_stop makes the thread the only owner of the entry |
| CacheSafety.CommitStep | pclsync/ptimer.c:106-120 | committing a timer keeps the invariant, and its entry cached and unclaimed, but no thread can stop it any more |
| CacheSafety.DisposeStep | pclsync/pcache.c:83-84 | freeing or handing out an object moves it out of the cache without loss |
| CacheOwnership.OthersKeep | pclsync/pcache.c:78-264 | a step that touches one entry under its lock disturbs nothing that another thread relies on |
| CacheGuarantees.NoUseAfterFree | pclsync/pcache.c:78-264 | every entry a thread may dereference is allocated, though addresses are reused, and every timer a search stops still exists |
| CacheGuarantees.ListsAreExclusive | pclsync/pcache.c:47-48 | two threads never search or edit one list at the same time |
| CacheGuarantees.OneOwner | pclsync/pcache.c:78-264 | an entry is in its list with its timer set, or else claimed by exactly one thread |
| CacheGuarantees.NothingIsLostOrDoubled | pclsync/pcache.c:78-264 | as multisets of keys and objects, added = in entries + handed out, under the key that was asked for, + freed, at any time |
| CacheGuarantees.ExactlyOnePlace | pclsync/pcache.c:78-264 | an object added once under a key is in one entry of that key, or was handed out once for that key, or was freed once, and only one of these |
| CacheGuarantees.HandedWasAdded | pclsync/pcache.c:121-130 | whatever a key's callers were handed was added under that key, and at least as often |
| CacheGuarantees.OnlyItsOwn | pclsync/pcache.c:206-260 | what a get or a delete is about to dispose of carries its own key, and what a sweep is about to free a key that one of its prefixes starts |
| CacheAlone.GetTakesNewest | pclsync/pcache.c:103-131 | from any reachable state, a get that runs alone hands out the newest entry of its key that can be stopped, which is gone, and changes nothing else |
| CacheAlone.GetFindsNothing | pclsync/pcache.c:132-133 | with no such entry it changes nothing |
| CacheSweeps.DelFreesItsKey | pclsync/pcache.c:191-219 | a delete that runs alone frees exactly the stoppable entries of its key and leaves all lists in order |
| CacheSweeps.SweepFreesItsPrefixes | pclsync/pcache.c:239-264 | a sweep that runs alone frees exactly the stoppable entries whose keys one of its prefixes starts, in all buckets |
| CacheAdds.HasTellsTruth | pclsync/pcache.c:135-151 | pcache_has is true exactly if its bucket holds an entry of the key, whatever its timer is doing |
| CacheAdds.AddKeepsOrFrees | pclsync/pcache.c:153-189 | an add that runs alone frees the object if the key has maxkeys entries, and else makes it the first of its list with its timer set |
| CacheAdds.ExpiryFreesItsOwn | pclsync/pcache.c:78-86 | a timer callback that runs alone frees its own entry, wherever that is in its list |
| CacheGuarantees.QuietCacheHasNoStrays | pclsync/pcache.c:78-264 | when all calls have returned, what was neither handed out nor freed is cached |
| CacheGuarantees.NoDeadlock | pclsync/pcache.c:78-264 | some thread can always take a step while a call is under way |
| DeflateRing.RingAppend | pclsync/pdeflate.c:91-104 | bytes written into the window extend the ring at its end, wrapped or not |
| DeflateRing.RingTake | pclsync/pdeflate.c:248-270 | a read takes the oldest bytes and leaves the others in order, wrapped or not |
| DeflateRing.WrapAssertionMeansDrained | pclsync/pdeflate.c:255-256 | the assertion of the wrapping branch holds if and only if the read empties the ring |
| DeflateCases.WrappedReadFailsAssertion | pclsync/pdeflate.c:248-270 | a ring that writes and reads reach, and a read that fails the assertion |
| Zlib.OverflowIsNotEmpty | pclsync/pdeflate.c:148-170 | if every flushing call that says Z_OK has made progress and holds back nothing it had room for, no overflow buffer stays empty |
| Zlib.FinishingProgresses | pclsync/pdeflate.c:148-170 | finishing a stream keeps to that contract, whatever is left and whatever rooms are offered |
| Zlib.FinishingIsNotKept | pclsync/pdeflate.c:148-154 | finishing a stream in the overflow loop emits all it has left, and ends with the code for which the buffer is thrown away |
| Zlib.FinishingLosesTheExcess | pclsync/pdeflate.c:188-199 | finishing with T bytes left loses what the ring has no room for, and nothing if and only if T fits |
| Zlib.FlushingLosesNothing | pclsync/pdeflate.c:188-199 | a flush whose calls report progress or none, and a write without a flush, lose nothing |
| DeflateCases.LastByteIsLost | pclsync/pdeflate.c:148-154 | an input at which the last byte of a finished stream is gone |
| DeflateCases.ErrorBeforeTheEnd | pclsync/pdeflate.c:223-246 | an input of which every byte is delivered, and then an error comes before the end of file |
| DeflateCases.ZeroIsNotTheEnd | pclsync/pdeflate.c:164-170 | the contract is needed: with a compressor that says Z_OK without progress, unlike zlib, a read returns 0 before the end |
| Deflate.FillOverflow | pclsync/pdeflate.c:148-176 | the doubling loop ends as specified and has collected all that the compressor emitted; the buffer is empty exactly if the first call says Z_OK and emits nothing |
| Deflate.Deflater.SetOutBuff | pclsync/pdeflate.c:91-104 | full exactly at 4096 bytes, and otherwise the longest stretch that fits without wrapping |
| Deflate.Deflater.CompressIntoRing | pclsync/pdeflate.c:120-135 | what the compressor emits is appended to the ring, and more data is expected exactly if the room was used up |
| Deflate.Deflater.FinishFlush | pclsync/pdeflate.c:137-177 | success makes the emitted bytes the overflow, any other code drops exactly them |
| Deflate.Deflater.Compress | pclsync/pdeflate.c:188-205 | which compressor calls are made with how much room, what is returned and what is kept; after a successful flush nothing is left in the compressor |
| Deflate.Deflater.FlushRest | pclsync/pdeflate.c:197-199 | a flush goes into the overflow buffer exactly if it used up the ring, and leaves nothing in the compressor if it succeeds |
| Deflate.Deflater.Write | pclsync/pdeflate.c:179-206 | an error when there is nothing to do, full exactly when an overflow buffer is waiting or the ring is full; otherwise the number of bytes taken or the compressor's error, and everything emitted is kept in order, except that finishing with T bytes left loses exactly the excess of T over the room in the ring; finishing ends the stream, and if zlib keeps its contract no empty overflow buffer is left |
| Deflate.Deflater.Read | pclsync/pdeflate.c:208-271 | returns the next bytes in order from ring, overflow or compressor; an error, and with it any loss, exactly when the compressor fails; if zlib keeps its contract, 0 exactly when the stream has ended, everything kept was delivered and no more data is expected |
| Deflate.Deflater.Pending | pclsync/pdeflate.c:273-276 | an upper bound of the undelivered bytes, exact unless part of the overflow was read |
| Deflate.Session | pclsync/pdeflate.c:91-271 | over any sequence of writes and reads, the bytes read are a prefix of the bytes emitted as long as none was dropped |
| KeyFiles.MaskedTwice | pclsync/pcryptofolder.c:429-430 | the passphrase codec undoes itself on the private key |
| KeyFiles.Mask | pclsync/pcryptofolder.c:623-630 | masks a copy of the key in place |
| KeyFiles.MaskedZeros | pclsync/pcryptofolder.c:623-630 | the AES key is the first 32 bytes of what the passphrase derives to, and the IV the 16 behind them |
| KeyFiles.Reencode | pclsync/pcryptofolder.c:1791-1919 | which inputs are refused and how, the last check being of the loaded keys; a success recovers under the new passphrase the bytes the old file holds under the old one |
| KeyFiles.SymkeyOf | pclsync/pcryptofolder.c:1033-1043 | the 32-byte and the 128-byte key end up where the codecs split them |
| KeyFiles.FolderCodecIs | pclsync/pcryptofolder.c:1033-1043 | the codec of a folder uses bytes 8 to 40 of its key for AES, and the 128 behind them for the HMAC |
| KeyFiles.FilenameRoundTrip | pclsync/pcryptofolder.c:1281-1359 | through base32, and codecs made from one folder key, exactly the names without zero bytes come back; the ciphertext has the rounded-up length |
| KeyFiles.FldEncodeFilename | pclsync/pcryptofolder.c:1349-1359 | the base32 form of the encoded name |
| KeyFiles.FldDecodeFilename | pclsync/pcryptofolder.c:1281-1293 | null exactly if base32 or the padding is wrong, and otherwise the terminated name |
| CryptoFolder.SetupThenUnlock | pclsync/pcryptofolder.c:367-684 | unlocking with the password of the setup loads exactly the private key that was set up |
| CryptoFolder.SetupThenDownload | pclsync/pcryptofolder.c:207-353 | the uploaded files give back the stored keys |
| CryptoFolder.ReencodeThenUnlock | pclsync/pcryptofolder.c:1791-1919 | re-encoding succeeds exactly if the old passphrase loads both keys and the loaded keys match, and then the new file unlocks with the new passphrase to what the old one unlocked to |
| CryptoFolder.ClassKey | pclsync/pcryptofolder.c:93-96 | of the entries under any key made from one of the five prefixes a lock leaves those with firing timers, and none if none is firing |
| CryptoFolder.Folder.LoadKeys | pclsync/pcryptofolder.c:608-670 | every failing exit unloads what it loaded and releases the write lock; each code exactly for what the RSA library answers, success exactly for two keys that load and match |
| CryptoFolder.Folder.LockBoth | pclsync/pcryptofolder.c:550-565 | the retry loop ends with the write lock held, or without it if the folder is started |
| CryptoFolder.Folder.Unlock | pclsync/pcryptofolder.c:526-684 | every exit keeps started if and only if both keys are loaded, and loaded keys match; each code exactly for what the stored rows or downloaded files, and the RSA library, say; a success saves what was downloaded |
| CryptoFolder.Folder.Lock | pclsync/pcryptofolder.c:697-714 | unloads both keys and leaves, under any key that starts with DKEY, FKEY, FLDE, FLDD or SEEN, only entries whose timers are firing, and all entries under other keys |
| CryptoFolder.Folder.Release | pclsync/pcryptofolder.c:1270-1347 | a codec that is given back to an unlocked folder is cached, two at most for one id, and otherwise freed; with one call at a time a locked folder has no key material cached |
| CryptoFolder.Folder.ReleaseLocked | pclsync/pcryptofolder.c:1015-1031 | keys given back under the read lock are cached unconditionally, which keeps that invariant because the folder is unlocked |
| CryptoFolder.Folder.GetCodec | pclsync/pcryptofolder.c:1234-1336 | a locked folder gives out no codec; an unlocked one the newest cached codec of the id, or what fetching gave |
| CryptoLocks.StepKeeps | pclsync/plocks.c:150-370 | both locks always have one writer or any number of readers, and their counters count the holders |
| CryptoLocks.TryTakesBothOrNone | pclsync/pcryptofolder.c:559-563 | an attempt to unlock comes out with both locks if nobody has the database, and with none otherwise |
| CryptoLocks.ReadersWait | pclsync/plocks.c:150-370 | no reader of the database overtakes a thread that waits to write to it |
| CryptoLocks.UsersTakeBoth | pclsync/pcryptofolder.c:543-549 | a user can come to hold crypto_lock for reading and the database for reading or writing, in either order |
| CryptoLocks.UnlockCannotDeadlock | pclsync/pcryptofolder.c:543-584 | if readers are preferred and no connection is made, then with any number of threads no reachable state has an unfinished thread and no possible step |
| CryptoLocks.WriterPreferenceDeadlocks | pclsync/pcryptofolder.c:543-549 | a lock that prefers writers reaches a deadlock |
| CryptoLocks.WaitingForSqlDeadlocks | pclsync/pcryptofolder.c:559-563 | waiting for the database lock instead of trying reaches one too |
| CryptoLocks.ConnectingDeadlocks | pclsync/psock.c:207-217 | so does a connection made for the download, which saves the resolved address under the write lock, whatever the lock prefers and though the database lock was only tried before |
| CryptoLocks.DeadlockFreeExactlyWhen | pclsync/pcryptofolder.c:543-603 | free of deadlock if and only if the lock prefers readers, unlocking only tries the database lock, and the keys are stored or a connection is pooled |
| CryptoRaces.StepKeeps | pclsync/pcryptofolder.c:697-714 | if no release and no unlock overlaps with a lock call, every step keeps the flags, the holders of the lock and the cache consistent |
| CryptoRaces.ApartIsEmpty | pclsync/pcryptofolder.c:697-714 | then in every reachable state a locked folder whose cleaning is over has nothing cached, though codecs are fetched at any time, and its flag is clear |
| CryptoRaces.LateReleaseStays | pclsync/pcryptofolder.c:1270-1279 | a release that saw the flag before the lock call adds its codec after the cleaning |
| CryptoRaces.FlagOutlivesLock | pclsync/pcryptofolder.c:668-704 | an unlock in progress sets the flag that the lock call has cleared, and it stays set in the locked folder |
| CryptoRaces.LockedGivesCodec | pclsync/pcryptofolder.c:1234-1247 | that folder caches a codec and gives it out again |
| CryptoRaces.LockedIsEmptyExactlyWhen | pclsync/pcryptofolder.c:697-714 | no run leaves key material cached in a locked folder if and only if lock calls overlap neither with a release nor with an unlock |

## Left out

- ApiParser.PastEndOnlyAfterContainer: one direction only, because a final container tag byte may also lie inside a string (`ApiParser.ContainerByteInString`); the reference decoder itself is the exact condition.
- CtrCodec.Decode: an unaligned offset needs at least the bytes up to the next block boundary, because the prologue has no length check.
- TextCodec.EncodeText: needs at least one byte of text, as its callers ensure.
- SectorBuffers.EncodeSec: the plaintext is a value and not the output buffer, because only decoding is documented to work in place.
- CacheTable.Table.Clean: runs the prefix sweep with the empty prefix, where the source repeats the loop without the comparison.
- CacheTable.Table.constructor: compute_hash is an arbitrary function of the key; its mixing steps promise nothing else.
- Deflate.Deflater.Pending: an exact count is not what the source computes.
- CryptoFolder.Folder.GetCodec: fetching and decrypting a key that is not cached is an argument, and so the key it caches on the way is not seen.
- Stack scratch buffers are byte strings in variables, so swapping their pointers is swapping variables.
- The machine is little-endian with 64-bit words; the 32-bit variants of the loops are not modelled.
- Hand-unrolled loops are inner loops; the literal CRC tables are replaced by the recurrences that define them.
- AES, SHA-512, PBKDF2, RSA, base32, base64, zlib and the CPU's CRC instructions are parameters or stated laws.
- The constants and rotation counts of the streaming hash have no definition besides the code; FastHashLaws says what its rounds, the length and its end keep apart.
- The runs of one call alone say what it does if it ends; that some thread can always go on is `CacheGuarantees.NoDeadlock`.
- Timers are modelled by what ptimer_stop promises: it succeeds exactly until the callback is committed. The model lets several callbacks run at once, the timer thread runs one.
- Free callbacks that enter the cache again, which the recursive mutexes allow, are not modelled.
- The growing temporary array of do_parse_result is a sequence; the depth of its recursion is not bounded.
- Bytes are bit vectors where bits are combined, and numbers below 256 in the binary API, which only compares and adds.
- Messages of 2 GiB and more, whose length the reader passes as an int, are not modelled.
- Request parameters other than strings, numbers and booleans do not occur.
- What crypto_keys_match does with keys that are not loaded is not modelled; re-encoding gets its answer as an argument.
- CryptoFolder is modelled one call at a time; CryptoRaces has the interleavings of its flags and of the cache under one key, without the keys and the error codes.
- A thread takes the database lock once; recursion and upgrades of that lock, and the semaphore that bounds the connections, are not modelled.
- Allocation failure, wiping of memory, logging, what goes over the network and its retries, and the SQL statements are left out; the locks that connecting takes are in CryptoLocks.
