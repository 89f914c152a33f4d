# A verified model of the libssh2 embedded in this repository

The repository carries a copy of libssh2 under `libssh2/`. This project models the five
parts of it whose correctness rests on reasoning across calls, loops or whole runs, and
proves what each of them is for.

- **Channels** (`libssh2/src/channel.c`, with the arrivals of `libssh2/src/packet.c`). One
  session, many channels, one list of received packets. The calls are re-entrant: each send
  may go through, would block or fail, and a blocked call is made again. `ChannelQueue` says
  what reading and flushing take from the shared list; `ChannelReceive` has the receiving
  calls as functions on values and the invariant they keep; `ChannelReceiveRuns`,
  `ChannelWindow` and `ChannelLedger` have the results over whole runs; `ChannelReader` has the
  code, with its loops that unlink packets, refining those functions. `ChannelSend`,
  `ChannelSendRuns` and `ChannelSender` do the same for writing, end of file, close and process
  startup. `ChannelPair` puts the two ends of a channel together, and `ChannelMeaning` says what arrivals,
  flushes and end of file come to for messages as they are on the wire. `ChannelIds` has channel numbers, lookup by number, and listeners' queues.
- **Known hosts** (`libssh2/src/knownhost.c`). `KnownHostEntries` says what a lookup means,
  `KnownHostText` what a line of text means and how an entry is written, `KnownHostRoundTrip`
  and `KnownHostFiles` which entries and files survive being written and read back,
  `KnownHostStore` has the collection the code updates in place, and `KnownHostMeaning` says all of this
  once more from outside: names with ports, verdicts of single entries, the text of lines.
- **Blowfish** (`libssh2/src/blowfish.c`). `BlowfishCipher` has the Feistel network over
  arbitrary S-boxes and subkeys, `BlowfishModes` the modes that rewrite a buffer in place,
  `BlowfishSchedule` the key schedules that overwrite the tables they read, and `BlowfishMeaning` what
  all of them compute in other words than the code's, with a value for given tables.
- **bcrypt_pbkdf** (`libssh2/src/bcrypt_pbkdf.c`). `BcryptPbkdf` has the derivation loop and
  its non-linear placing of output bytes.
- **Agent identities** (`libssh2/src/agent.c`). `AgentIdentities` has the parser of an agent's
  list of keys.

Operations that work in place are methods (on arrays or on classes with fields) whose
contracts tie them to functions of the old state; the laws are lemmas about those functions.
`Arithmetic`, `Octets` and `Bits` hold division by a variable divisor, big-endian integers and bit-vectors,
`ChannelBasics` what both halves of a channel use.

## Where the code falls short of what one would expect

Each of these is stated by a lemma with an input or a run that shows it, or with the exact
condition under which the expected property does hold, or both.

- A flush that blocks makes its deductions, from the count and from the window, again at every
  retry: `FlushRetried`.
- A window adjustment that blocks announces one amount and records another:
  `AdjustRetried`. After a send error the same amount is announced twice: `AdjustFailed`.
- Ignored data whose adjustment blocks is given back whole even where less was deducted:
  `IgnoreRetried`.
- A flush gives back each packet's length less thirteen, whatever was read of it and whatever
  its kind: `FlushRefundsIff`, `FlushOfShortPacket`, `ShortPacketReached`.
- On a channel that ignores extended data, an arrival takes queued adjustments into the window,
  so that a read can leave it above both its old value and the ceiling: `WithinCeilingIff`,
  `OverrunInput`.
- A write that blocked goes out when it is called again, even after end of file and close:
  `DataAfterEofIff`, `DataAfterClose`. This takes a write that blocks before any of it is sent, as in
  a key re-exchange (`libssh2/src/transport.c:744-752`); with a packet half sent the transport
  refuses any other (`libssh2/src/transport.c:645-651`).
- A close is documented to wait for the peer's close, but any packet that is read ends the wait, and
  the call then reports success: `WaitCutShortIff`, `CloseUnheardIff`, `CloseUnheard`.
- A peer that takes packets of no bytes makes the write loop of the example program run for ever:
  `FinishesIff`, `PumpStalls`.
- A close follows no end of file exactly when sending that one failed: `CloseWithoutEofIff`; new data
  and the end of file can then follow the close: `AfterClose`, `EofAfterClose`.
- A peer that lifts the send window past 2^32 - 1 upsets the books, and can make a blocked write
  draw the window below zero: `BalancedIffLawful`, `UnderflowIff`, `UnlawfulGrant`.
- The placing of key material does not make every subkey need every block, as the comment in
  `libssh2/src/bcrypt_pbkdf.c:47-54` has it, but only those with as many bytes as there are
  blocks: `SubkeyNeedsEveryBlock`.
- After 2^32 channels numbers in use are handed out again: `NextIdFreeIff`, `AfterWrap`, `WrapReached`.
- Names of one or two characters, names with commas, type names that abbreviate a known one,
  and version 1 RSA keys with comments do not survive being written and read back:
  `ComesBackIffGood` has the exact list. The first vanish without an error: `ShortNameVanishes`. A name
  ending in a comma does survive.
- An entry added with a raw key comes back marked as base64, and one under a custom name comes
  back under a plain one, so neither is the same entry: `SurvivesIffGood`. Queries do not notice the
  first, but they do notice the second: `FileKeepsVerdictsIff`, `CustomLost`.
- A key added with an unknown type is never matched, and a base64 key added by a part of a string is
  not matched by asking with the same arguments: `AddThenCheck`.

## Model

| member | source | states |
|---|---|---|
| BlowfishCipher.NetworkInverse | libssh2/src/blowfish.c:65-120 | For every round function, every number of subkeys and every block, running the network over the reversed subkeys undoes it |
| BlowfishCipher.CipherInverse | libssh2/src/blowfish.c:72-120 | For every S-box and subkey contents, encipher and decipher are mutual inverses |
| BlowfishCipher.RoundsRetrace | libssh2/src/blowfish.c:97-120 | Deciphering passes through the enciphering states in reverse, halves swapped, round by round |
| BlowfishCipher.Context.Encipher | libssh2/src/blowfish.c:72-95 | The unrolled sixteen rounds compute the network over the subkeys in order |
| BlowfishCipher.Context.Decipher | libssh2/src/blowfish.c:97-120 | The unrolled rounds compute the network over the subkeys in reverse |
| BlowfishMeaning.FeistelSum | libssh2/src/blowfish.c:65-68 | With the third and fourth words selected zero, F is the sum of the first two, each selected by its base-256 digit of the argument |
| BlowfishMeaning.FeistelFlip | libssh2/src/blowfish.c:65-68 | The third word selected flips exactly its own bits of that |
| BlowfishMeaning.FeistelAdd | libssh2/src/blowfish.c:65-68 | The fourth is added to that |
| BlowfishMeaning.FeistelOthers | libssh2/src/blowfish.c:65-68 | No word of the S-boxes that is not selected matters |
| BlowfishMeaning.MixedBits | libssh2/src/blowfish.c:70 | A round flips the bits of the half block that F and the subkey set, and not those both set |
| BlowfishMeaning.EncipheredValue | libssh2/src/blowfish.c:72-95 | The value of encipherment for given tables and a given block |
| BlowfishMeaning.EncryptedValue | libssh2/src/blowfish.c:539-559 | The same value in bytes |
| BlowfishMeaning.PackValue | libssh2/src/blowfish.c:539-559 | Bytes are packed into words as big-endian integers |
| BlowfishMeaning.ByteValue | libssh2/src/blowfish.c:539-559 | And unpacked as base-256 digits, most significant first |
| BlowfishModes.BlockInverse | libssh2/src/blowfish.c:539-581 | With the packing into bytes, decrypting and encrypting a block of eight bytes are mutual inverses |
| BlowfishModes.EcbRoundTrip | libssh2/src/blowfish.c:539-581 | ECB decryption and encryption undo each other on any whole number of blocks |
| BlowfishMeaning.EcbBlocks | libssh2/src/blowfish.c:539-581 | Block by block: each block of the result is the block there enciphered or deciphered |
| BlowfishModes.EcbEncryptBuffer | libssh2/src/blowfish.c:539-559 | In place, the first `len` bytes become their ECB encryption and the rest stay |
| BlowfishModes.EcbDecryptBuffer | libssh2/src/blowfish.c:561-581 | In place, the first `len` bytes become their ECB decryption and the rest stay |
| BlowfishModes.CbcRoundTrip | libssh2/src/blowfish.c:583-647 | For every context, vector and whole number of blocks, CBC decryption restores what was encrypted, and conversely |
| BlowfishMeaning.CbcBlocks | libssh2/src/blowfish.c:583-647 | Block by block: each ciphertext block is its plaintext block mixed with the ciphertext block before, the first with the vector, and enciphered; and decryption takes that apart |
| BlowfishMeaning.XorBits | libssh2/src/blowfish.c:583-647 | Mixing is the parity of the two, bit by bit |
| BlowfishModes.CbcDecryptAt | libssh2/src/blowfish.c:608-647 | Any block of the plaintext is determined by its ciphertext block and the one before it, which is why decryption can walk backwards in the same buffer |
| BlowfishModes.CbcEncryptBuffer | libssh2/src/blowfish.c:583-606 | First block first, the vector aliasing the ciphertext just written, the buffer becomes its CBC encryption and the rest stays, wherever outside those bytes the vector lies |
| BlowfishModes.CbcDecryptBuffer | libssh2/src/blowfish.c:608-647 | Last block first, the vector aliasing ciphertext not yet decrypted, the buffer becomes its CBC decryption and the rest stays, wherever outside those bytes the vector lies |
| BlowfishModes.CbcThereAndBack | libssh2/src/blowfish.c:583-647 | Encrypting a buffer in place and decrypting it in place leaves every byte of it as it was |
| BlowfishModes.WordsRoundTrip | libssh2/src/blowfish.c:513-537 | For any number of blocks the word-wise decryption and encryption undo each other, and leave later words alone |
| BlowfishModes.EncryptWords | libssh2/src/blowfish.c:513-524 | Each of the first pairs of words is enciphered once, in place |
| BlowfishModes.DecryptWords | libssh2/src/blowfish.c:526-537 | Each of the first pairs of words is deciphered once, in place |
| BlowfishSchedule.Stream2Word | libssh2/src/blowfish.c:401-420 | Across calls, the bytes delivered are those of the endless repetition of the data, wherever the stored position wraps |
| BlowfishSchedule.ExpandState0 | libssh2/src/blowfish.c:422-458 | All 521 encipherments, each over the tables as the ones before left them, give the tables of the specification |
| BlowfishSchedule.ExpandState | libssh2/src/blowfish.c:460-501 | The same with eight bytes of the data stream mixed in before each encipherment |
| BlowfishMeaning.KeyLaidOut | libssh2/src/blowfish.c:432-437 | On blank subkeys the key lies byte by byte, repeated |
| BlowfishMeaning.MixBits | libssh2/src/blowfish.c:436 | The key stream is mixed into subkeys as the parity of the two, bit by bit |
| BlowfishMeaning.RewrittenWords | libssh2/src/blowfish.c:422-458 | Each encipherment is of the block before under the tables as they then are, and its halves are the next two words, left first; words not yet reached are as they were |
| BlowfishMeaning.RewrittenWithWords | libssh2/src/blowfish.c:460-501 | The same with the next eight bytes of data mixed into each block, byte by byte |
| BlowfishMeaning.FirstSubkeys | libssh2/src/blowfish.c:422-501 | So the first two subkeys are the halves of the zero block, or of the first eight bytes of data, enciphered under the mixed tables |
| BlowfishSchedule.ExpandWithZeros | libssh2/src/blowfish.c:422-501 | For every context and key, expanding with any all-zero data gives exactly the tables of the schedule without data |
| BlowfishSchedule.KeyMixedIffSameStream | libssh2/src/blowfish.c:422-436 | Two keys are mixed in alike if and only if their cyclic streams agree on the first 72 bytes |
| BlowfishSchedule.LongKeysTruncate | libssh2/src/blf.h:44 | Bytes of a key beyond the utilised 72 have no effect on either schedule |
| BlowfishSchedule.KeysCycle | libssh2/src/blowfish.c:401-436 | A key written out any number of times gives the same schedules as the key |
| BcryptPbkdf.ComputeBlock | libssh2/src/bcrypt_pbkdf.c:139-161 | A block is the exclusive-or of all its chained hashes, as section 5.2 of RFC 8018 defines it |
| BcryptPbkdf.Scatter | libssh2/src/bcrypt_pbkdf.c:163-174 | One block's bytes go to exactly its own column of the key, every other byte stays, and the count returned is the column's length |
| BcryptPbkdf.Derive | libssh2/src/bcrypt_pbkdf.c:103-182 | Terminates after ceil(K/32) rounds; index d of the key holds byte d div s of block (d mod s)+1; each index of the key is written once and nothing else is; the errors and their condition |
| BcryptPbkdf.CountValue | libssh2/src/bcrypt_pbkdf.c:139-142 | The four bytes hashed after the salt have the block's number as their big-endian value |
| BcryptPbkdf.ChainOfHashes | libssh2/src/bcrypt_pbkdf.c:144-158 | The first hash of a block is of the salt and its number, each other of the one before |
| BcryptPbkdf.BlockParity | libssh2/src/bcrypt_pbkdf.c:150-161 | A bit of a block is set if and only if an odd number of its hashes has it set |
| BcryptPbkdf.KeyAt | libssh2/src/bcrypt_pbkdf.c:166-173 | Byte i of block c+1 lies at index i*s+c, s being a thirty-second of the key's length, rounded up |
| BcryptPbkdf.ShortKey | libssh2/src/bcrypt_pbkdf.c:103-182 | With one round, a key of up to 32 bytes is the front of bcrypt over SHA-512 of the passphrase and of the salt followed by 0, 0, 0, 1 |
| BcryptPbkdf.FilledExactly | libssh2/src/bcrypt_pbkdf.c:163-175 | The columns dealt out fill the key exactly when all blocks are done and not before |
| BcryptPbkdf.ColumnShape | libssh2/src/bcrypt_pbkdf.c:127-175 | Columns differ in length by at most one, longer ones first, so the shrinking amount is never too small |
| BcryptPbkdf.ColumnFits | libssh2/src/bcrypt_pbkdf.c:127-170 | No column needs more than the 32 bytes of a block, so the output buffer is never read past its end |
| BcryptPbkdf.SubkeyNeedsEveryBlock | libssh2/src/bcrypt_pbkdf.c:47-54 | The purpose of the placing: a subkey needs every block if and only if it is at least as long as there are blocks |
| AgentIdentities.AnswersIffHeld | libssh2/src/agent.c:562-653 | A response begins with the encoding of a list if and only if that list is what parsing it yields in full; so the list is unique |
| AgentIdentities.RecordsEncoded | libssh2/src/agent.c:584-653 | The records read are encoded, end to end, at the front of the input |
| AgentIdentities.RecordsLongest | libssh2/src/agent.c:584-653 | Any list encoded at the front of the input is a prefix of the records read |
| AgentIdentities.Agent.Parse | libssh2/src/agent.c:562-653 | Offset plus remaining length is the response's length at every step; complete records are appended in order also when the response then breaks off |
| AgentIdentities.Agent.ListIdentities | libssh2/src/agent.c:562-653 | Succeeds if and only if the response begins with the encoding of some list, and appends exactly that list |
| AgentIdentities.OneKey | libssh2/src/agent.c:562-653 | An answer in octets and the list it yields |
| KnownHostEntries.MoreEntries | libssh2/src/knownhost.c:348-491 | Adding entries never takes a match away and never turns a known host into an unknown one |
| KnownHostEntries.OrderIrrelevant | libssh2/src/knownhost.c:348-491 | The verdict does not depend on the order of the entries |
| KnownHostEntries.AddThenCheck | libssh2/src/knownhost.c:132-491 | A host added and then asked for with the same arguments finds its entry good if and only if its type is known and no part of a base64 string was given for the key; then it is a match whatever else is known, and with an unknown type it is not found |
| KnownHostEntries.AddHashedThenCheck | libssh2/src/knownhost.c:132-491 | The same for a host added under a hash of its name and asked for by name |
| KnownHostMeaning.GoodForPortIff | libssh2/src/knownhost.c:369-384 | A plain entry with the key and type asked for is good for a host and port if and only if its name is the host's, or the host in brackets, a colon and the port in digits |
| KnownHostMeaning.WithPortIff | libssh2/src/knownhost.c:371-372 | The name asked for first is exactly the one of that form, its digits without a leading zero having the port as their value |
| KnownHostMeaning.PortsDiffer | libssh2/src/knownhost.c:371-372 | Two ports never ask for the same name |
| KnownHostMeaning.KindsAndTypes | libssh2/src/knownhost.c:405-473 | Which kinds of entries answer which kinds of queries, and which key types |
| KnownHostMeaning.OneEntry | libssh2/src/knownhost.c:348-491 | The verdict that one plain entry gives on any key offered for any name |
| KnownHostMeaning.PortFirst | libssh2/src/knownhost.c:402-485 | An entry under the name with the port is handed back before an earlier one under the plain name |
| KnownHostMeaning.ListFirst | libssh2/src/knownhost.c:457-471 | Under one name the first good, or else the first bad, entry of the list is handed back |
| KnownHostMeaning.Refusals | libssh2/src/knownhost.c:149-229 | What adding refuses, with which error, and what the entry made holds of each argument |
| KnownHostStore.KnownHosts.Add | libssh2/src/knownhost.c:132-229 | The branches by kind of name, encoding and type append exactly the entry described, or refuse with that branch's error and leave the collection alone |
| KnownHostStore.KnownHosts.MatchHost | libssh2/src/knownhost.c:405-443 | An entry is for the host asked about by plain, custom or hashed comparison, as the kinds of both allow |
| KnownHostStore.KnownHosts.Search | libssh2/src/knownhost.c:402-485 | The two passes with early exit refine the declarative verdict and hand back the first good, else the first bad entry in pass-then-list order |
| KnownHostStore.KnownHosts.Check | libssh2/src/knownhost.c:348-491 | Match, mismatch, not found or failure for the names with and without port, with the entry handed back in each case |
| KnownHostStore.KnownHosts.OldstyleHostline | libssh2/src/knownhost.c:614-668 | Adds what the specification of a list of names adds, or refuses an empty one |
| KnownHostStore.KnownHosts.ScanNames | libssh2/src/knownhost.c:625-667 | The backward character loop adds one entry per name, last name first, up to the first that is too long |
| KnownHostStore.KnownHosts.HashedHostline | libssh2/src/knownhost.c:671-725 | Adds the entry with the salt and the hash the host part holds, with the errors for each part too long |
| KnownHostStore.KnownHosts.Hostline | libssh2/src/knownhost.c:738-840 | Takes the key part apart into type, key and comment and adds the entries of the host part with them |
| KnownHostStore.KnownHosts.Readline | libssh2/src/knownhost.c:870-940 | Adds what a line means: nothing for comments and blank lines, an error for a line without a key |
| KnownHostMeaning.BlanksAndDigits | libssh2/src/knownhost.c:756-757 | What counts as a blank and as a digit |
| KnownHostMeaning.SilentLines | libssh2/src/knownhost.c:889-897 | Blank lines and comments say nothing, without an error |
| KnownHostMeaning.LoneWord | libssh2/src/knownhost.c:902-919 | A line of one word is an error |
| KnownHostMeaning.KeyTooShort | libssh2/src/knownhost.c:749-753 | So is one with a key part of fewer than 20 characters |
| KnownHostMeaning.ShortNameVanishes | libssh2/src/knownhost.c:673-725 | A name of one or two characters is taken for a hash, and without a bar in the line it vanishes without an error |
| KnownHostMeaning.HashRefused | libssh2/src/knownhost.c:684-712 | A salt of 31 characters or a hash of 255 is an error |
| KnownHostMeaning.BareLineSplits | libssh2/src/knownhost.c:870-940 | A line without a newline comes apart like one with it |
| KnownHostMeaning.LongNameStops | libssh2/src/knownhost.c:634-640 | A name of 255 characters ends a list with an error, after the names taken before it |
| KnownHostStore.KnownHosts.Readfile | libssh2/src/knownhost.c:951-982 | Reads any text in pieces of a line or a full buffer, each up to its first NUL, adds what they mean, and returns their number or the error of the first bad one |
| KnownHostStore.KnownHosts.Writeline | libssh2/src/knownhost.c:995-1156 | Writes the line of the entry when it fits and reports its length exactly, or the error and the same length |
| KnownHostMeaning.LineSays | libssh2/src/knownhost.c:1010-1156 | The text of the line of an entry of each named type |
| KnownHostMeaning.OtherLines | libssh2/src/knownhost.c:1010-1156 | That of a version 1 RSA key and of an unknown type, and which entries have none |
| KnownHostMeaning.HashedLineSays | libssh2/src/knownhost.c:1084-1127 | That of a hashed entry |
| KnownHostMeaning.NoHashedLine | libssh2/src/knownhost.c:1084-1103 | If base64 fails there is none |
| KnownHostStore.KnownHosts.Writefile | libssh2/src/knownhost.c:1189-1231 | Writes the lines of all entries in order, up to the first that fails or the write that the disk cuts short |
| KnownHostRoundTrip.NamesConserve | libssh2/src/knownhost.c:625-667 | For every text, the names the scan takes make up the whole text again, but for a comma in front |
| KnownHostRoundTrip.NamesOfJoined | libssh2/src/knownhost.c:625-667 | The scan over a comma-join of proper names takes exactly those names, each once, in reverse |
| KnownHostRoundTrip.ListLine | libssh2/src/knownhost.c:614-668 | A list of proper names adds exactly one entry each, in reverse, all with the same key, type and comment |
| KnownHostRoundTrip.GoodSurvives | libssh2/src/knownhost.c:738-1156 | A plain base64 entry with a good name and key part, written and read back, is the same entry; no comment and an empty one are told apart |
| KnownHostRoundTrip.OnlyGoodSurvive | libssh2/src/knownhost.c:738-1156 | No other such entry comes back as itself |
| KnownHostRoundTrip.SurvivesIffGood | libssh2/src/knownhost.c:738-1156 | A named entry of any encoding comes back as itself if and only if its name and key part are good, its key marked base64 and its name plain |
| KnownHostRoundTrip.ComesBackIffGood | libssh2/src/knownhost.c:738-1156 | It comes back with everything but those two marks if and only if name and key part meet conditions visible in the entry |
| KnownHostFiles.HashedComesBackIff | libssh2/src/knownhost.c:671-725 | A hashed entry of any encoding comes back, marked base64, if and only if salt and hash decode to what they were and fit their buffers and the key part is good |
| KnownHostFiles.FgetsTakesLine | libssh2/src/knownhost.c:967-974 | A line that fits the buffer is read in one piece, whatever follows it |
| KnownHostFiles.WritesIffFits | libssh2/src/knownhost.c:1211-1228 | A file is written whole if and only if every entry has a line that fits the buffer of 4092 and all lines fit the disk; it then holds those lines |
| KnownHostMeaning.WrittenIsFront | libssh2/src/knownhost.c:1211-1228 | Whatever ends the writing, what is in the file is the front of the whole text, and all the disk took when it was full |
| KnownHostMeaning.BadLineStops | libssh2/src/knownhost.c:967-974 | A line that cannot be read ends the reading of a file with an error, after what it added |
| KnownHostMeaning.FgetsFills | libssh2/src/knownhost.c:967 | Without a newline in reach a full buffer is read |
| KnownHostMeaning.NulCuts | libssh2/src/knownhost.c:968 | A NUL ends what is read of a piece |
| KnownHostFiles.FileRoundTrip | libssh2/src/knownhost.c:951-1231 | A file written whole from fit entries, plain, custom or hashed and raw or base64, reads back as those entries in order, every line counted, each marked base64 and plain where it was named |
| KnownHostFiles.FileKeepsVerdictsIff | libssh2/src/knownhost.c:348-1231 | Read back from its file, a collection gives every query the same verdict if and only if it holds no custom name |
| KnownHostFiles.CustomLost | libssh2/src/knownhost.c:1129-1146 | A query that an entry with a custom name answered finds nothing once the entry has been through a file |
| ChannelQueue.DrainFifo | libssh2/src/channel.c:2033-2139 | What a read takes followed by what stays queued is what was queued; packets not chosen stay, unchanged and in order |
| ChannelQueue.DrainAmount | libssh2/src/channel.c:2033-2139 | A read takes as much as there is and as it has room for |
| ChannelQueue.DrainWithin | libssh2/src/channel.c:2033-2137 | Reading one stream lowers its channel's queued bytes by exactly the bytes read |
| ChannelQueue.DrainApart | libssh2/src/channel.c:2033-2120 | What any separate choice of packets holds is not touched by a read |
| ChannelQueue.OthersWithin | libssh2/src/channel.c:1594-1655 | A flush lowers its channel's queued bytes by exactly the bytes flushed |
| ChannelReceive.ArriveKeepsInv | libssh2/src/packet.c:729-861 | An arriving data message, ignored, truncated or kept, keeps every channel's cached count right |
| ChannelReceive.TakeKeepsInv | libssh2/src/channel.c:2033-2139 | Reading keeps every channel's cached count right |
| ChannelReceive.FlushKeepsInv | libssh2/src/channel.c:1585-1675 | A flush that does not block keeps every channel's cached count right |
| ChannelReceive.StepKeepsInv | libssh2/src/channel.c:1585-2139 | Every event on any channel, unless it is a flush that blocks, keeps each cached count equal to the scanned one and each packet soundly framed |
| ChannelReceiveRuns.EofMeansDrained | libssh2/src/channel.c:2458-2493 | In every state reached without a flush that blocks, the cached count is the scanned one, and end of file is reported only when the peer sent it and nothing is left to read on any stream |
| ChannelReceiveRuns.FlushNeverGivesUp | libssh2/src/channel.c:1615-1626 | In every such state no queued packet of any channel makes a flush fail for being too short |
| ChannelReceiveRuns.RunFifo | libssh2/src/channel.c:2033-2139 | Over every run without a flush that blocks, bytes delivered from a stream followed by bytes still queued are the bytes the queue took in for it, in order, whatever other streams and channels do; NothingLost says when those are all the peer sent |
| ChannelReceiveRuns.EofMeansDelivered | libssh2/src/channel.c:2458-2493 | Once end of file is reported, every byte that arrived has been delivered |
| ChannelReceiveRuns.ChunkingIrrelevant | libssh2/src/channel.c:2033-2139 | Two runs with the same arrivals deliver the same bytes as far as both have got, however reads are cut up |
| ChannelWindow.AdjustSent | libssh2/src/channel.c:1785-1847 | An adjustment sent at once: asked plus queued before is announced plus queued after; an unforced announcement is at least 1024 |
| ChannelWindow.AdjustRun | libssh2/src/channel.c:1785-1847 | The same over every run of adjustments: the window grows by what was announced, the queue stays below 1024, and every unforced announcement is of 1024 at least |
| ChannelWindow.AdjustRetried | libssh2/src/channel.c:1812-1841 | A blocked and retried adjustment records what it announced if and only if the retry's argument is the sum encoded first |
| ChannelWindow.AdjustFailed | libssh2/src/channel.c:1829-1841 | After a send error the next call announces the old amount, records it if and only if that is its own argument, and leaves it queued, so that the call after announces it again |
| ChannelWindow.IgnoreRetried | libssh2/src/packet.c:780-803 | Ignored data whose adjustment blocked and is taken up again records what it announces if and only if the message's length is what was deducted plus what was queued |
| ChannelWindow.ExpandWindow | libssh2/src/channel.c:2003-2022 | The widening before a read, exactly: to the initial window plus the buffer or by 1024, whichever is more, and by what was queued, which is what is announced; never past initial + buflen + 2047 |
| ChannelWindow.ExpandRetried | libssh2/src/channel.c:2003-2022 | A widening that blocks is taken up by the next read, whatever the window has become, with what was encoded first |
| ChannelWindow.ReadKeepsWindow | libssh2/src/channel.c:2003-2139 | A whole read leaves the window at least three quarters of the initial one and at most what widening allows or what it was, or, on an overrun, at most what was queued besides; no underflow, and every channel calm |
| ChannelWindow.WithinCeilingIff | libssh2/src/channel.c:2003-2139 | Whatever arrives, the ceiling holds if and only if the read does not overrun, a condition on mode, window and queues before the call |
| ChannelWindow.OverrunHappens | libssh2/src/packet.c:771-807 | Where a read overruns, one empty ignored message carries the window to exactly that bound |
| ChannelWindow.OverrunInput | libssh2/src/packet.c:771-807 | An input: a window of 1000000 ends at 1000500 after a read of ten bytes |
| ChannelWindow.ReadsKeepWindows | libssh2/src/channel.c:2003-2139 | The same for every read of every run of reads over all channels whose adjustments are sent at once |
| ChannelWindow.FlushRetried | libssh2/src/channel.c:1660-1672 | A flush that blocked k times: the count is off by k times its bytes, the window by as much and by what was queued; each is right if and only if its error is a multiple of 2^32 |
| ChannelWindow.FlushRefundsIff | libssh2/src/channel.c:1634-1667 | A flush gives back exactly what it threw away if and only if the flushed packets were read to thirteen bytes in on average |
| ChannelWindow.FlushOfShortPacket | libssh2/src/channel.c:1644-1667 | An input for which it does not: three unread bytes of standard data make a flush announce 2^32 - 1 |
| ChannelWindow.ShortPacketReached | libssh2/src/channel.c:1585-1675 | It takes one arrival on a new channel and a flush |
| ChannelLedger.StepBooks | libssh2/src/channel.c:1585-2139 | Every event, on any channel, whose sends for this channel go out at once keeps window plus credit used equal to window before plus credit announced, modulo 2^32 |
| ChannelLedger.RunBooks | libssh2/src/channel.c:1585-2139 | Over every run of such events, the recorded window is the one at the start plus all announced less all read, flushed or ignored, modulo 2^32 |
| ChannelLedger.RunRoom | libssh2/src/packet.c:809-853 | Over every run with adjustments sent at once, for a peer within its credit and packet size, window less cached count is exactly the credit the peer has left, and no byte it sends is dropped or cut off |
| ChannelLedger.NothingLost | libssh2/src/channel.c:2033-2139 | So the bytes delivered to the reader, then those queued, are the payloads that peer sent, in order |
| ChannelPair.PairOpens | libssh2/src/channel.c:151-188 | A channel just opened, each end with the window and packet size the other told it, is such a pair to start from |
| ChannelPair.PairObeys | libssh2/src/channel.c:1785-2383 | With both ends of a channel running, messages and announcements under way for as long as they like: room in the receiving window is always credit at the sending end or under way, and the sending end is the peer that RunRoom asks for |
| ChannelPair.PairSends | libssh2/src/channel.c:2250-2383 | What the sending end does in such a run is a run of RunCredit's, and its grants are lawful because the other end announced them |
| ChannelPair.EndToEnd | libssh2/src/channel.c:1986-2383 | Over every run of both ends and for every stream, the bytes delivered, then queued, then under way are the bytes sent, in order: none lost, doubled or out of place |
| ChannelPair.WrittenIsRead | libssh2/example/direct_tcpip.c:280-291 | A writer that loops on writes and a reader at the other end: delivered, queued and under way together are exactly the part of the buffer the writer counts as written |
| ChannelReader.Connection.Adjust | libssh2/src/channel.c:1785-1847 | The code of a window adjustment, each send outcome, computes the modelled call |
| ChannelMeaning.AdjustCodes | libssh2/src/channel.c:1827-1846 | What an adjustment returns for each send outcome, and that it is announced exactly when it is sent |
| ChannelReader.Connection.PacketAdd | libssh2/src/packet.c:729-861 | The code for an arriving data message computes the modelled arrival, and asks to be called again exactly when an ignored one blocked |
| ChannelMeaning.ArrivesAs | libssh2/src/packet.c:729-861 | Where a message of given bytes goes: nowhere if its channel is unknown or full, else to the end of the queue, cut to what is kept, and end of file is taken back |
| ChannelMeaning.KeptIs | libssh2/src/packet.c:813-848 | As much is kept as the packet size allows and the window has room for, and no less |
| ChannelReader.Connection.IgnorePacket | libssh2/src/packet.c:771-807 | Ignored extended data goes off the window and back on by a forced adjustment |
| ChannelReader.Connection.ResumeIgnored | libssh2/src/packet.c:796-806 | Taking it up again adjusts by the whole message, which is an event of the runs above |
| ChannelReader.Connection.Widen | libssh2/src/channel.c:2003-2022 | The code that widens the window before a read |
| ChannelReader.Connection.Unlink | libssh2/src/channel.c:2033-2120 | The loop that unlinks drained packets and advances a half-read one refines the recursive drain |
| ChannelReader.Connection.TakePackets | libssh2/src/channel.c:2033-2139 | The loop with its accounting refines the modelled read; nothing is accounted for when nothing was read |
| ChannelReader.Connection.Read | libssh2/src/channel.c:1986-2140 | The whole call: state, bytes and return code for every outcome of widening and of draining the socket; and with adjustments sent at once and a peer within its credit, what it returns, then what stays queued for the stream, is what was queued, then what all the messages carry to it, as much as there is room for |
| ChannelReader.Connection.ReadSocket | libssh2/src/channel.c:2026-2028 | Draining takes the messages in order as the events they are, up to the first that blocks |
| ChannelReader.DrainIsRun | libssh2/src/channel.c:2026-2028 | Draining is a run of one event for each message: all of them, unless one blocks, and then up to and including the first that does |
| ChannelReader.ReadDelivers | libssh2/src/channel.c:2003-2139 | The delivery law of a whole read, on values |
| ChannelReader.Connection.Receive | libssh2/src/packet.c:729-930 | Each message a channel receives is its event, and asks to be taken up again exactly when it blocks |
| ChannelReader.Connection.WindowRead | libssh2/src/channel.c:2836-2878 | The scan finds the channel's queued unread bytes |
| ChannelReader.Connection.Eof | libssh2/src/channel.c:2458-2493 | True exactly when the peer's end of file is recorded and no packet of the channel is queued |
| ChannelMeaning.EofIff | libssh2/src/channel.c:2458-2493 | End of file is reported if and only if it is recorded and no data message of the channel, by type and number, is queued |
| ChannelMeaning.JustOpened | libssh2/src/channel.c:160-188 | A channel just opened has its whole window and nothing pending |
| ChannelMeaning.Freed | libssh2/src/channel.c:2729-2805 | Freeing a channel forgets it and its packets, and leaves the others alone |
| ChannelMeaning.PeerEnds | libssh2/src/packet.c:868-1010 | Once nothing of the channel is queued, the peer's end of file shows, and so does its close |
| ChannelReader.Connection.FlushLoop | libssh2/src/channel.c:1588-1658 | The unlinking loop removes exactly the chosen packets and sums refund and bytes; on data too short to name its stream it stops there, with exactly the chosen packets before it gone |
| ChannelReader.Connection.Flush | libssh2/src/channel.c:1585-1675 | The whole call, first or retried, for every send outcome, and the whole state that the error leaves |
| ChannelMeaning.FlushedIff | libssh2/src/channel.c:1607-1633 | Of which channel and streams a flush throws data away: 0, -1, -2 and any other number |
| ChannelMeaning.FlushAllEmpties | libssh2/src/channel.c:1585-1675 | After a flush of everything nothing of the channel is queued |
| ChannelMeaning.FlushReturns | libssh2/src/channel.c:1668-1674 | A flush returns the bytes it threw away, unless it blocks |
| ChannelSendRuns.WriteCredit | libssh2/src/channel.c:2250-2383 | One write keeps payload plus window in balance with the credit modulo 2^32, within window, packet size and 32700 |
| ChannelSendRuns.StepCredit | libssh2/src/channel.c:2250-2383 | So does every event; the balance is exact if and only if the grant leaves the window below 2^32 |
| ChannelSendRuns.RunCredit | libssh2/src/channel.c:2250-2383 | Over every run of lawful grants with blocking, failures and retries, payload sent plus window left is the initial window plus all credit (section 5.2 of RFC 4254) |
| ChannelSendRuns.BalancedIffLawful | libssh2/src/channel.c:2250-2383 | Every call of a run keeps the exact balance if and only if every grant of the run is lawful |
| ChannelSendRuns.UnderflowIff | libssh2/src/packet.c:1068-1090 | A grant during a blocked write makes the write underflow if and only if the wrapped window is below the write's bytes; a lawful one never does |
| ChannelSendRuns.UnlawfulGrant | libssh2/src/packet.c:1068-1090 | A run from a fresh channel in which a grant beyond that makes a blocked write draw the window below zero |
| ChannelSendRuns.WriteResult | libssh2/src/channel.c:2250-2383 | A write's return code tells exactly which bytes of the buffer went out, and an error or EAGAIN that none did |
| ChannelSendRuns.PumpExact | libssh2/example/direct_tcpip.c:280-291 | A caller looping on writes puts on the wire exactly the bytes it counts, in order, each once, however they are split |
| ChannelSendRuns.WriteAdvances | libssh2/src/channel.c:2266-2379 | A write that sends a message writes at least a byte of a buffer that has one if and only if the packet size leaves room for one |
| ChannelSendRuns.PumpProgress | libssh2/example/direct_tcpip.c:280-291 | With room for one, the loop ends after no more messages than it has bytes to write |
| ChannelSendRuns.FinishesIff | libssh2/example/direct_tcpip.c:280-291 | The loop gets to the end of its buffer in some environment if and only if it is there, the write under way takes it there, or the packet size is above zero and neither end of file nor close was sent |
| ChannelSendRuns.PumpStalls | libssh2/example/direct_tcpip.c:280-291 | An input for which it never does: a packet size of zero |
| ChannelSendRuns.RunOnce | libssh2/src/channel.c:1441-1542 | From any state, no more closes and startup requests are sent than the state has left |
| ChannelSendRuns.AtMostOnce | libssh2/src/channel.c:1441-2642 | Over every run, at most one close and at most one request to start a process are sent |
| ChannelSendRuns.EofPrecedesClose | libssh2/src/channel.c:2561-2642 | In every run without send errors an end of file precedes the close (section 5.3 of RFC 4254) |
| ChannelSendRuns.CloseWithoutEofIff | libssh2/src/channel.c:2573-2616 | A close goes out with no end of file before it if and only if sending that one failed |
| ChannelSendRuns.WriteData | libssh2/src/channel.c:2269-2285 | No new write starts after end of file or close |
| ChannelSendRuns.DataStopsAtEof | libssh2/src/channel.c:2266-2379 | Over every run at most one data message follows the end of file, a write that was under way |
| ChannelSendRuns.DataAfterEofIff | libssh2/src/channel.c:2266-2379 | Some run sends data after the end of file if and only if a write was under way |
| ChannelSendRuns.CanSendIff | libssh2/src/channel.c:1441-2642 | Exactly which messages some run can still send from a state: end of file always, a close or a startup request while one is left, data unless barred |
| ChannelSendRuns.AfterClose | libssh2/src/channel.c:2561-2642 | Once a close is out no other can follow, but exactly the rest of these can |
| ChannelSendRuns.EofAfterClose | libssh2/src/channel.c:2573-2616 | A run that sends close, new data and end of file in this order, the first end of file having failed |
| ChannelSendRuns.DataAfterClose | libssh2/src/channel.c:2266-2379 | A run in which a blocked write goes out after end of file and close |
| ChannelSender.Sender.Write | libssh2/src/channel.c:2250-2383 | The code of a write, first or retried, computes the modelled call and keeps the books; the code returned says which bytes of the buffer went out |
| ChannelSendRuns.WriteCodes | libssh2/src/channel.c:2250-2383 | The exact return code, message and window of a write with none under way: after close, after end of file, after a failed drain, with the window exhausted, and for each send outcome |
| ChannelSendRuns.WriteAgainIff | libssh2/src/channel.c:2298-2307 | When it is to be called again, and when it has written nothing for good |
| ChannelSendRuns.RetryCodes | libssh2/src/channel.c:2349-2380 | The same for a write that is called again |
| ChannelSendRuns.SendCredit | libssh2/src/channel.c:2349-2380 | Sending a data packet: payload and window together stay what the window was, whether it goes out, blocks or fails, and the packet is within all limits |
| ChannelSendRuns.KeepsBooks | libssh2/src/channel.c:2410-2434 | Every call of a channel keeps its books: end of file is recorded if and only if it is on the wire, closes and startup requests on the wire and to come are at most one each, payload and window match the credit, modulo 2^32 and exactly while all grants have been lawful |
| ChannelSendRuns.EofCodes | libssh2/src/channel.c:2410-2434 | What sending end of file returns and does for each send outcome |
| ChannelSender.Sender.AwaitClose | libssh2/src/channel.c:2618-2624 | The wait ends with the first packet that is read, of whatever kind and channel, a lost socket, an error or EAGAIN; the exact condition for its ending without an error and without the peer's close |
| ChannelSendRuns.WaitCutShortIff | libssh2/src/channel.c:2618-2624 | A wait ends with no error and no close from the peer if and only if, before anything ends it otherwise, a packet that is not that close or the loss of the socket does |
| ChannelSendRuns.CloseUnheardIff | libssh2/src/channel.c:2561-2642 | A close reports success and marks the channel closed without the peer's close if and only if its wait is cut short so |
| ChannelSendRuns.CloseUnheard | libssh2/src/channel.c:2618-2642 | An input: a data packet arriving first ends the wait of a fresh channel's close |
| ChannelSender.Sender.FinishClose | libssh2/src/channel.c:2587-2642 | The close is sent from its own state and marked done unless it would block |
| ChannelSender.Sender.CloseIt | libssh2/src/channel.c:2561-2642 | The whole close, with end of file first when none was sent; it keeps the books, leaves the channel closed unless it has to be called again, and never adds a second close |
| ChannelSendRuns.CloseCodes | libssh2/src/channel.c:2561-2642 | What a close returns for each outcome short of the wait, and when the channel is closed by it |
| ChannelSender.Sender.ProcessStartup | libssh2/src/channel.c:1441-1542 | A request to start a process, over its states and every reply; what is sent is the request made first; it keeps the books and never sends a second request |
| ChannelSendRuns.StartupCodes | libssh2/src/channel.c:1441-1542 | What starting a process returns and sends: 0 if and only if the answer is success, -22 on a refusal |
| ChannelSender.Sender.WindowAdjust | libssh2/src/packet.c:1068-1090 | A lawful grant between calls keeps the books |
| ChannelSender.Sender.WriteAll | libssh2/example/direct_tcpip.c:280-291 | The caller's loop refines the modelled one and keeps the books, and the wire gains exactly the buffer up to the count returned |
| ChannelIds.NextIdFreeIff | libssh2/src/channel.c:58-87 | The number handed out is nobody's if and only if listed channels are below the counter and no queued one has it |
| ChannelIds.AfterWrap | libssh2/src/channel.c:76-86 | With the counter wrapped to zero and a channel listed, the number handed out is in use |
| ChannelIds.WrapReached | libssh2/src/channel.c:61-87 | A run that gets there: 2^32 - 1 channels opened and dropped, and one more opened |
| ChannelIds.AcceptConserves | libssh2/src/channel.c:753-764 | Accepting neither loses nor makes a channel |
| ChannelIds.StepCount | libssh2/src/channel.c:61-188 | No event gives any number to another channel, except the counter's own number to one new channel |
| ChannelIds.StepOrderly | libssh2/src/channel.c:61-764 | Every open, failed open, queued connection, accept, cancel and free keeps numbers distinct and below the counter, and queue sizes right |
| ChannelIds.RunOrderly | libssh2/src/channel.c:61-764 | So does every run that hands out fewer than 2^32 numbers |
| ChannelIds.OrderlyDistinct | libssh2/src/channel.c:61-121 | No two channels of the session or of its listeners then share a number |
| ChannelIds.Numbers.TakeNextId | libssh2/src/channel.c:61-87 | Hands out the highest of the counter and all listed numbers, and sets the counter past it |
| ChannelIds.Numbers.Locate | libssh2/src/channel.c:94-121 | Finds a channel with the number if and only if there is one, in the session or in any queue, and in an orderly session the only one |
| ChannelIds.Numbers.AcceptFrom | libssh2/src/channel.c:744-765 | The oldest queued channel goes to the end of the session's list and the queue size falls by one, the rest staying in order, or there is none |
| ChannelIds.Numbers.QueueConnection | libssh2/src/packet.c:154-250 | A connection joins the end of its listener's queue if there is room and its confirmation goes out |
| ChannelIds.RunLimited | libssh2/src/packet.c:155-163 | Over every such run no listener has more queued than it takes |

## Left out

- Sockets, encryption and partial sends of the transport: each send is one of gone out, would block, failed, and a failure's code is negative and not EAGAIN.
- SHA-512, `bcrypt_hash`, HMAC-SHA1 and base64 are parameters; what the round trip of hashed entries needs of base64 is written out as a condition.
- The tables of `Blowfish_initstate` and `blf_key`, which only calls it and a schedule: every result holds for all tables.
- Allocation failures, freeing and tracing.
- BlowfishModes.CbcDecryptBuffer: needs at least one block, because the source forms a pointer before the buffer when there is none.
- AgentIdentities.Agent.Parse: lengths do not overflow, because a `ssize_t` of 64 bits holds every 32-bit length; the request to the agent is not modelled.
- KnownHostStore.KnownHosts.Readline: takes one line without NUL, as the source says it does; given several lines it cuts off the buffer's last character instead of the first newline, and its unsigned key length can then run below zero past the buffer.
- KnownHostStore.KnownHosts.Readfile: takes the text of the file; opening it and the check that its format is OpenSSH are not modelled, nor are they for writing.
- KnownHostStore.KnownHosts.Check: the type mask is three fields rather than bits of one integer; the conversion of entries to their external form is not modelled.
- KnownHostFiles.HashedComesBackIff: base64 is a parameter, of which it is asked that what it encodes holds no blank, bar, newline or NUL.
- Deleting known hosts and iterating over them: easy members.
- Channels are values in a map by number, not objects reached by pointer, so that aliasing of channel structures is not captured; receiving, sending and numbering are separate state. The one field that a call of the sending half reads and the receiving half writes, `remote.close`, is therefore there twice, as `close` of ChannelReceive and as `peerClosed` of ChannelSend, and both are told of the peer's close.
- ChannelReceive.FlushKeepsInv: for flushes that do not block; FlushRetried says what happens to those that do.
- ChannelWindow.ReadKeepsWindow: for reads whose adjustment is sent at once, given initial + buflen + 2047 below 2^32; AdjustRetried and AdjustFailed say what happens otherwise.
- ChannelLedger.RunRoom: for runs whose announcements keep the window below 2^32, as section 5.2 of RFC 4254 demands of both sides; FlushOfShortPacket is a call that does not.
- ChannelReader.Connection.Receive: data, end of file, close and messages that are only queued; window adjustments are in ChannelSender, and the other message types are not modelled.
- ChannelPair.EndToEnd: for runs whose adjustments are sent at once and keep the receiving window below 2^32; what a blocked one upsets is in AdjustRetried and FlushRetried.
- ChannelSender.Sender.ProcessStartup: the message that goes with a request is not modelled.
- ChannelIds.RunOrderly: a connection whose confirmation would block is retried without its channel in the source, so it uses up a number and queues nothing; a listener cancelled half way, with its channels being freed one by one, is one step.
- Matching an incoming connection to its listener by host and port, and the refusal sent when there is none.
- Requests for terminals, environment, X11, agent forwarding and signals, exit status, and waiting for end of file or close: fixed-length messages and single fields.
- Backends, method tables, keepalive, the Python package and the other example programs.
