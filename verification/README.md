# MST: a verified model

MST is a small secure-transport stack: AES and its modes, a hash built on AES, an authenticated
PDU, two endpoints that mask PDUs with encrypted counters, and messages over TCP. This project models
it bottom-up in Dafny and proves what holds across its layers: that decryption undoes encryption,
that a handshake in any order of its calls gives both sides matching keys, that from then on every
run delivers prefixes of what was sent, and how far that still holds on a channel that misbehaves.

`dafny verify dfyconfig.toml` checks everything.

## How it is built

Each layer has functions on values that say what it computes, and, where the source changes memory in
place, methods and classes that do the same steps on arrays and fields and are proved equal to those
functions. The theorems are lemmas about the functions.

| file | models |
|---|---|
| `Octets.dfy` | octets, XOR, memcpy and memset, the integer codec of `Util.h`, the comparison of `GeneralUtil.cpp` |
| `AesTables.dfy`, `AesCipher.dfy`, `AesInPlace.dfy`, `AesKeys.dfy` | tables, cipher, the in-place state, key setup of `aes/aes.c` |
| `AesStandard.dfy` | the same cipher as FIPS 197 describes it |
| `AesModes.dfy`, `AesCcm.dfy`, `CcmLaws.dfy`, `Counters.dfy` | CBC, CBC-MAC, CTR, CCM and both kinds of counters |
| `DaviesMeyer.dfy` | the hash of `DaviesMeyerHash.h` |
| `Pdu.dfy` | `MST_Hash` of `Protocol.h` |
| `Peers.dfy`, `Endpoint.dfy` | `MST_Endpoint` of `Protocol.h`, as a value and as an object |
| `Keystream.dfy`, `Session.dfy`, `Channel.dfy` | masks of a direction, whole runs over FIFO channels, runs over any channel |
| `BufferedSockets.dfy`, `Framing.dfy`, `MstSockets.dfy`, `Handshake.dfy` | `BufferedSocket` and `MST_Socket` of `clientServerExample` |
| `Connection.dfy` | both sides of a connection: handshake, writes and reads in any order |
| `Histories.dfy` | what the runs of `Session`, `Channel` and `Connection` have done, told by their events |
| `WorkQueue.dfy` | `ThreadWorkQueue.h` |
| `KeyFiles.dfy`, `KeyReaders.dfy` | `KeyReader.cpp` |
| `KeyGrammar.dfy` | the texts that it accepts, described without its parser |

The operating system is modelled by what it promises. A socket takes and gives any positive number of
octets per call, and a call may fail unless the socket is declared reliable. A file gives any
positive number of characters per call until its end. The random source yields 32 octets or fails. A
signal on the condition variable wakes one waiting thread if there is one.

Octets are `bv8`; numbers of 32 bits are unbounded integers with their range written out; `++` on an
octet and both counters wrap around.

## What the code does differently from what one might expect

- `aes_encrypt` treats every key size other than 128 and 192 as 256, which is why the key size 32 that
  `encryptToSecureMessage` passes works. `aes_decrypt` compares with `>`, so the two are inverse for
  the key sizes 128 and above 191 only; `AesCipher.DecryptionWorksExactlyWhen` proves exactly that.
- The guard of `createAuthPlaintext` lets 32 lengths through for which the size of the PDU wraps
  around 2^32 (`Pdu.SizeFitsExactlyWhen`). The operations require that a length is not one of them.
- `checkAndExtractPlaintext` compares the length field with the size less 32, not less 36, so the
  accepted range may reach up to three octets into the hash, but never beyond the PDU
  (`Pdu.SomeRangesReachIntoHash`, `Pdu.AcceptanceIsExact`).
- The CCM formatting pads associated data by 1 to 16 octets. For lengths with a mod 16 = 14 and
  p mod 16 = 1 the formatted data is one octet too long for the working buffer of `aes_encrypt_ccm`;
  that of `aes_decrypt_ccm` has room for the tag as well and always suffices
  (`AesCcm.FormattedFitsExactlyWhen`). `AesCcm.AesEncryptCcm` requires that the buffer suffices.
- The counter of CCM is stepped in its last 15 - macLen octets, so a tag of sixteen octets is masked
  with the same key stream as the payload (`AesCcm.TagSharesMaskExactlyWhen`).
- `MST_Socket` limits the plaintext when writing and the secured message when reading to the same
  10,000,000 octets, so the longest 37 plaintexts are sent and refused (`Framing.MessageCrosses`).
- `readNumber` adds a tenth digit without scaling (`KeyFiles.FileRoundTripExactlyWhen`), and anything
  but a newline after a key ends the reading of the file without an error.
- The formatted CCM data holds two octets of the length of the payload, so 65536 further octets need
  not show in its first block (`AesCcm.LongerPayloadExtends`).
- The client ignores the number that the server sends, and nothing in a handshake marks whose octets
  they are, so one that is reflected succeeds (`Handshake.ReflectedHandshake`).
- `encryptToSecureMessage` masks plaintexts of up to about 2^32 octets, `decryptSecureMessage` refuses
  messages above 10^9 unread. After such a message the two counters are out of step
  (`Keystream.StepSurvivesExactlyWhen`), and what is delivered is never again a prefix of what was
  sent with the rest on the channel (`Session.WholeRunCorrect`).
- `Protocol.txt` has the initial hash state 0 and one encryption per step. The code starts from the
  octets 0 to 31 and encrypts three times per step; the model follows the code.

## Main results

- `AesCipher.AesInverse`, `AesCipher.DecryptionWorksExactlyWhen`: decryption undoes encryption, and for
  exactly which key sizes; `AesInPlace.AesEncryptBlock` and `AesDecryptBlock` refine both on the 4x4
  state. `AesStandard.AesEncryptIsStandard`, `AesStandard.AesDecryptIsStandard`: they are the cipher
  of FIPS 197 and no other, octet by octet.
- `AesKeys.ScheduleByOctets`, `AesKeys.ConsecutiveWordsDetermineKey`: the key schedule octet by octet,
  and which part of it determines the key.
- `AesModes.CbcInverse`, `AesModes.AesEncryptCtr`, `AesModes.CtrContinues`, `AesCcm.CcmRoundTrip`: the modes, for
  every length.
- `AesCcm.FormattedPrefix`, `AesCcm.TagSharesMaskExactlyWhen`: what the formatted data of CCM
  determines, and when its tag and payload share a mask. `CcmLaws.AuthenticExactlyWhen`,
  `CcmLaws.AlteredIsRefused`: what is authentic, and what the tag detects.
- `DaviesMeyer.PermuteInverse`, `DaviesMeyer.HashByDecryption`, `DaviesMeyer.HashBuffer`: the hash as a
  fold of a step that is a bijection before its feed-forward, and how each block is undone.
- `Pdu.PduRoundTrip`, `Pdu.MstHash.CheckAndExtractPlaintext`, `Pdu.AcceptedPdus`,
  `Pdu.SomeRangesReachIntoHash`: the PDU, what the code accepts as one, and how far that range goes.
- `Keystream.MessageByOctets`, `Keystream.AlteredMessageRejected`: a message octet by octet, and that
  altering its masked hash has it refused.
- `Keystream.MaskBlocksDistinct`, `Session.SamePlaintextTwice`: when two masks coincide.
- `Session.WholeRunCorrect`, `Histories.EverythingArrives`, `Channel.CountersAreConserved`,
  `Channel.InStepExactlyWhenBalanced`: runs of two endpoints over channels that are FIFO, and over
  channels that misbehave.
- `Handshake.HandshakeCompletes`, `Handshake.BothFinishExactlyWhenListed`,
  `Handshake.StartupByOctets`, `Handshake.AnyOrderThenAnyRun`, `Connection.EveryInterleaving`,
  `Connection.HandshakeEnds`, `Connection.QuietMeansDone`, `Histories.CallsThatComeBack`: two sockets
  from connecting on, in every interleaving over octet streams. `MstSockets` and `BufferedSockets`
  refine their steps for any pieces in which octets travel, and `Framing.EndToEnd` says what successive
  reads return.
- `WorkQueue.EveryRunKeepsInvariant`, `WorkQueue.EveryRunTallies`, `WorkQueue.InsertionIsTaken`:
  conservation in the work queue for any number of threads, and that an insertion wakes one.
- `KeyGrammar.LoadedExactlyAsDenoted`, `KeyFiles.FileRoundTripExactlyWhen`,
  `KeyReaders.KeyReader.ReadPresharedKeys`: the key file, for any pieces in which it is read.

## Model

The main results come first, then the others in the order of the files. Lemmas that only lead to
these have no row.

| member | source | states |
|---|---|---|
| AesCipher.AesInverse | aes/aes.c:929-1069 | decryption undoes encryption and encryption undoes decryption, for every block, any 60 schedule words and every key size on which the two agree about the rounds |
| AesCipher.DecryptionWorksExactlyWhen | aes/aes.c:967-1063 | decryption recovers every block under every schedule if and only if the key size is 128 or above 191; the counterexample for the others differs in one bit of the last round key |
| AesInPlace.AesEncryptBlock | aes/aes.c:929-995 | the in-place 4x4 state and its unrolled rounds compute the cipher, and write only the sixteen output octets |
| AesInPlace.AesDecryptBlock | aes/aes.c:1002-1069 | the same for the inverse cipher |
| AesStandard.AesEncryptIsStandard | aes/aes.c:929-995 | a block is the encryption of another if and only if a run of states as section 5.1 of FIPS 197 describes it leads there in 10, 12 or 14 rounds, every octet of a state being a sum of four substituted octets of the one before, times 02, 03, 01 and 01, and a key octet |
| AesStandard.AesDecryptIsStandard | aes/aes.c:1002-1069 | the same for decryption and section 5.3, for the number of rounds that the greater-than comparisons give |
| AesKeys.ScheduleByOctets | aes/aes.c:555-582 | section 5.2 of FIPS 197 octet by octet, for all three key sizes: the first words are the key, every further octet is the one Nk words before XOR the substituted octet next to it in the previous word and a power of 02, its substituted octet, or itself |
| AesKeys.ConsecutiveWordsDetermineKey | aes/aes.c:555-582 | any Nk consecutive words of a schedule determine the whole schedule and the key |
| AesModes.CbcInverse | aes/aes.c:234-303 | CBC decryption undoes CBC encryption and the reverse, for every IV, schedule and whole number of blocks (section 6.2 of SP 800-38A) |
| AesModes.AesEncryptCtr | aes/aes.c:322-343 | octet k of the output is octet k of the input XOR octet k mod 16 of the encryption of the counter k/16 steps on, also when input and output are one buffer |
| AesModes.CtrContinues | aes/aes.c:322-343 | what follows whole blocks is masked from the counter block that is as many steps on |
| AesModes.CtrOneBlock | aes/aes.c:322-343 | up to sixteen octets are masked with the encrypted counter block |
| AesCcm.CcmRoundTrip | aes/aes.c:355-483 | exactly the allowed lengths of tag, nonce and associated data are taken; decrypting what was encrypted with the same parameters returns the payload as authentic for every nonempty payload; an empty one is encrypted but its ciphertext is refused |
| CcmLaws.AuthenticExactlyWhen | aes/aes.c:418-483 | a ciphertext is authentic if and only if it is the encryption of some payload, which is then what is returned; otherwise zeros are |
| CcmLaws.AlteredIsRefused | aes/aes.c:418-483 | with a tag of sixteen octets, an authentic ciphertext that is altered within one block of its payload part is refused and its plaintext blanked |
| CcmLaws.TagDetectsOneBlock | aes/aes.c:382-396 | payloads of one length that differ within one block have different tags of sixteen octets |
| CcmLaws.MacIsCbc | aes/aes.c:382-396 | the tag is the start of the last block of the CBC encryption of the formatted data from zeros |
| CcmLaws.FormattedByOctets | aes/aes.c:493-531 | the value of every octet of the formatted data, and where the payload starts and the data ends |
| AesCcm.FormattedPrefix | aes/aes.c:493-531 | formatted data that starts other formatted data has the same tag length, nonce and associated data, its payload starts the other one and is as long modulo 65536; so formatting is one-to-one, and prefix-free below 65536 octets of payload |
| AesCcm.TagSharesMaskExactlyWhen | aes/aes.c:401-408 | payload and tag are masked with the same key stream, from its first block on, if and only if the tag has sixteen octets |
| DaviesMeyer.PermuteInverse | DaviesMeyerHash.h:52-91 | for a fixed key block the three encryptions before the feed-forward are a bijection on 32-octet states, with an explicit inverse by decryption |
| DaviesMeyer.HashByDecryption | DaviesMeyerHash.h:44-105 | what each further block does to the hash, said by decryption under that block; before the first the state has the octets 0 to 31 |
| DaviesMeyer.HashBuffer | DaviesMeyerHash.h:27-107 | the loop that swaps two state buffers computes a pure left fold of the compression step, whatever the other buffer holds, and refuses lengths that are 0 or no multiple of 32 |
| Pdu.PduRoundTrip | Protocol.h:48-157 | extracting from a created PDU returns exactly the plaintext, if and only if the PDU is within the size that is read at all |
| Pdu.MstHash.CheckAndExtractPlaintext | Protocol.h:120-157 | the returned place in the PDU holds the plaintext that the PDU is accepted with, or the call is refused |
| Pdu.AcceptedPdus | Protocol.h:120-157 | a PDU of the right size with zero padding is accepted with a given plaintext if and only if it is the one created for it |
| Pdu.SomeRangesReachIntoHash | Protocol.h:142-148 | for any octets that complete a body, a length field 1 to 3 above their number is accepted, with a plaintext of those octets followed by 1 to 3 octets of the hash |
| Keystream.AlteredMessageRejected | Protocol.h:315-352 | a receiver in step refuses every message that differs from the one sent in the two blocks with the hash |
| Keystream.MessageByOctets | Protocol.h:359-386 | octet k of a message is octet k of the PDU under octet k mod 16 of the encryption of the counter k/16 on, modulo 2^128; the counter moves on by the blocks of the PDU |
| Keystream.MaskBlocksDistinct | Protocol.h:230-240 | two mask blocks of one direction are equal if and only if they are a multiple of 2^128 blocks apart |
| Session.SamePlaintextTwice | Protocol.h:359-386 | a plaintext sent twice in a run is carried by messages of one length; each block differs if and only if the blocks masked from the one to the other are no multiple of 2^128 |
| Session.WholeRunCorrect | Protocol.h:245-386 | after any run from any completed handshake, what a side has been delivered is a prefix of what the other sent with the rest on the channel, if and only if no message taken off the channel had an undeliverable length |
| Histories.EverythingArrives | Protocol.h:315-386 | after any run in which only deliverable plaintexts were sent, delivering the messages on the channel delivers exactly what the sender was given, in order |
| Channel.CountersAreConserved | Protocol.h:315-352 | over every run in which the channel loses, repeats, inserts and changes messages: receiver's counter + in flight + lost = sender's counter + extra, modulo 2^128 |
| Channel.InStepExactlyWhenBalanced | Protocol.h:315-352 | with nothing in flight the endpoints are in step if and only if losses and extras agree modulo 2^128; otherwise every block of the next message is unmasked wrongly |
| Handshake.HandshakeCompletes | clientServerExample/MST_Socket.cpp:54-106 | in every order of the calls the handshake takes eight moves, some side can move before that, and then both endpoints are those of an established session with empty streams |
| Handshake.BothFinishExactlyWhenListed | clientServerExample/MST_Socket.cpp:73-84 | in every order of the calls both sides finish if and only if the client's number is in the server's file; otherwise the server refuses after five moves and the client waits as long as the connection stays open, since what the server sent is too little for the client to succeed |
| Handshake.StartupByOctets | clientServerExample/MST_Socket.cpp:66-95 | what a side sends, in octets: its number, and two blocks that decrypt under the shared secret to the halves of its key, unless it is a server that does not know the client |
| Handshake.AnyOrderThenAnyRun | clientServerExample/MST_Socket.cpp:54-106 | from any order of the handshake on, every run of the two endpoints over message channels is faithful in each direction under the condition of `Session.WholeRunCorrect` |
| Connection.EveryInterleaving | clientServerExample/MST_Socket.cpp:54-147 | in every interleaving of the handshake calls, writes and reads of both sides over the two octet streams, a direction has returned a prefix of what was written, with exactly the encodings of the rest on the stream, if and only if every message taken off it had at most 9,999,963 octets |
| Connection.HandshakeEnds | clientServerExample/MST_Socket.cpp:54-106 | in every run the handshake calls made and the calls still to be made are eight together, so the handshake ends |
| Histories.CallsThatComeBack | clientServerExample/MST_Socket.cpp:54-147 | in every reachable state a side that has finished can write, and can read if and only if something written to it has not been taken, as long as what was taken was transferable |
| Histories.FlowsRecordCalls | clientServerExample/MST_Socket.cpp:108-147 | what has been written to a direction, and how many reads have come back from it, is what the calls of its two sides say |
| Connection.QuietMeansDone | clientServerExample/MST_Socket.cpp:54-147 | when no side can go on and no read can come back, both have finished and a direction in which every message taken had at most 9,999,963 octets has returned everything that was written |
| Framing.EndToEnd | clientServerExample/MST_Socket.cpp:108-147 | for any list of messages that are written, successive reads return exactly the plaintexts, in order, if and only if all lengths are at most 9,999,963; then they leave what follows on the stream |
| MstSockets.MstSocket.ConnectAndStartup | clientServerExample/MST_Socket.cpp:54-106 | on a working socket it succeeds if and only if the partner's octets arrive, its number is one the key reader finds and the random source works; then the endpoint is the one the handshake should give. What it leaves of the partner's octets is stated for every outcome, and a failed one leaves no key to send with. Whether or not it succeeds, its number, and its wrapped key once the partner's number is known, have been handed to the operating system before it waits |
| MstSockets.MstSocket.Read | clientServerExample/MST_Socket.cpp:128-147 | returns what the framing takes off the stream, for any pieces in which it arrives, and fails only when the framing does or the socket fails; on a working socket it leaves what the framing leaves, whatever the verdict |
| MstSockets.MstSocket.Write | clientServerExample/MST_Socket.cpp:108-126 | puts exactly the framed message on the stream and flushes it, or refuses; the plaintext may be one that a read has returned |
| WorkQueue.EveryRunKeepsInvariant | clientServerExample/ThreadWorkQueue.h:34-54 | the law holds in every state that any number of threads reach in any interleaving |
| WorkQueue.EveryRunTallies | clientServerExample/ThreadWorkQueue.h:34-54 | over every run, each insertion signals once, the wasted signals are those that woke nobody, each call to getWork takes one item, and the items pushed or on their way are those that insertWork was called with |
| WorkQueue.InsertionIsTaken | clientServerExample/ThreadWorkQueue.h:34-54 | from every reachable state an insertion that finds the mutex free wakes a waiting thread, and that thread can then take the front of the queue; the whole state at both points is stated |
| KeyFiles.FileRoundTripExactlyWhen | clientServerExample/KeyReader.cpp:212-262 | the map is recovered from the printed list if and only if no number has ten digits |
| KeyGrammar.LoadedExactlyAsDenoted | clientServerExample/KeyReader.cpp:110-262 | loading any text gives a verdict and a map if and only if a description of the text that does not run the parser gives them: lines of 1 to 10 digits, a colon and 32 pairs of hexadecimal digits with dashes; lines before an error stay |
| KeyReaders.KeyReader.ReadPresharedKeys | clientServerExample/KeyReader.cpp:212-262 | the loops compute verdict and map from the text alone, whatever pieces the file comes in; lines before an error stay |
| Octets.FromLittleEndianOfLittleEndian | Util.h:47-67 | reading the four little-endian octets of a number gives the number back, for every number that fits |
| Octets.LittleEndianOfFromLittleEndian | Util.h:47-67 | writing the number read from octets gives the octets back, so the codec is one-to-one in both directions |
| Octets.FourOctetsDenote | Util.h:56-67 | four octets denote the sum of their values times 1, 2^8, 2^16 and 2^24 |
| Octets.FromLittleEndianAppend | Util.h:56-67 | octets that follow others denote as many powers of 256 more, for any number of octets |
| Octets.Int2Octets | Util.h:47-54 | the shifting loop writes exactly the little-endian octets and nothing outside them |
| Octets.Octets2Int | Util.h:56-67 | the accumulating loop returns the number that the octets denote |
| Octets.TimingInsensitiveMemcmp | GeneralUtil.cpp:6-19 | the two counters say "equal" if and only if the two ranges are equal |
| AesTables.SboxInverse | aes/aes.c:46-83 | the two S-box tables are inverse to each other in both directions, for every octet |
| AesTables.SboxIsAffineInverse | aes/aes.c:46-63 | every S-box entry is the affine image of a field inverse (or of 0), as section 5.1.1 of FIPS 197 defines it |
| AesTables.GfTablesAreProducts | aes/aes.c:90-219 | the six gf_mul columns are the products by 02, 03, 09, 0b, 0d, 0e in GF(2^8), for every octet |
| AesTables.GfTablesXor | aes/aes.c:90-219 | every gf_mul column distributes over XOR |
| AesCipher.MixColumnsIsMatrixProduct | aes/aes.c:745-923 | the table-driven column steps are the GF(2^8) matrix products of sections 5.1.3 and 5.3.3 of FIPS 197, on every state |
| AesCipher.AesEncryptInjective | aes/aes.c:929-995 | encryption is one-to-one on blocks for every schedule and any key size argument |
| AesInPlace.MixColumnsStep | aes/aes.c:745-832 | overwriting the state column by column gives the mixed state, whatever the order of reads and writes |
| AesInPlace.InvMixColumnsStep | aes/aes.c:835-923 | the same for the inverse step |
| AesInPlace.ShiftRowsStep | aes/aes.c:686-709 | rotating the rows in place through a temporary gives the shifted state |
| AesInPlace.InvShiftRowsStep | aes/aes.c:712-735 | the same to the right gives the inverse |
| AesKeys.AesKeySetup | aes/aes.c:555-582 | the loops write the expanded schedule, leave the words beyond it, and change nothing for other key sizes |
| AesModes.MacIsLastBlock | aes/aes.c:234-280 | the CBC-MAC of nonempty input is the last block of its CBC encryption |
| AesModes.CbcSnoc | aes/aes.c:234-303 | one more block appends the encryption of its XOR with the last ciphertext block, and undoing it the decryption XOR the previous ciphertext block |
| AesModes.OneBlockChangesMac | aes/aes.c:257-280 | data that differs in one block only has a different CBC-MAC |
| AesModes.AesEncryptCbc | aes/aes.c:234-255 | the block loop computes CBC encryption; other lengths are refused without a write |
| AesModes.AesEncryptCbcMac | aes/aes.c:257-280 | the block loop computes the CBC-MAC; other lengths are refused without a write; empty input is accepted with unspecified output |
| AesModes.AesDecryptCbc | aes/aes.c:282-303 | the block loop computes CBC decryption; other lengths are refused without a write |
| AesModes.CtrInverse | aes/aes.c:322-349 | deciphering is enciphering, for every length including 0 and partial blocks |
| Counters.IncrementIv | aes/aes.c:308-319 | the loop with its early exit increments just the requested tail of the block, and nothing when its width is 0 or less |
| Counters.CounterBlockValue | aes/aes.c:308-343 | after n steps the counter block is the start plus n modulo 2^128 |
| Counters.BigEndianIsReversed | aes/aes.c:308-319 | the octets of a CTR counter, reversed, denote the same number least significant octet first |
| Counters.IncrementMc | Protocol.h:230-240 | the carry loop of the session counter increments all its octets |
| Counters.AheadValue | Protocol.h:230-240 | after n increments the counter is its start plus n modulo 2^128, across wrap-around |
| Keystream.PeriodValue | Protocol.h:230-240 | the counter of sixteen octets has 2^128 values |
| AesCcm.FormattedFitsExactlyWhen | aes/aes.c:370-430 | the working buffer of encryption, p + a + 48 octets, holds the formatted data if and only if not (a mod 16 = 14 and p mod 16 = 1); that of decryption, larger by the tag, always does |
| CcmLaws.CcmIsCtrAndCbc | aes/aes.c:370-414 | the ciphertext is the payload under CTR followed by the start of the last CBC block under the encrypted first counter block |
| CcmLaws.CounterBlocksByOctets | aes/aes.c:395-408 | every octet of the counter blocks for the tag and for the payload; with a tag of sixteen octets they are the same |
| AesCcm.StaleWordsDoNotMatter | aes/aes.c:355-484 | the words of the stack schedule beyond that of a shorter key make no difference to either direction |
| AesCcm.LongerPayloadExtends | aes/aes.c:493-531 | beyond that length it is not: 65536 more octets after whole blocks extend the formatted data by just those octets |
| AesCcm.AesEncryptCcm | aes/aes.c:355-414 | the buffer manipulations compute CCM encryption as formatted by the code and refuse bad lengths without a write |
| AesCcm.AesDecryptCcm | aes/aes.c:418-483 | the same for decryption of any length, with the blanking of an unauthentic plaintext and with a null mac_auth |
| AesCcm.CcmFormatAssocData | aes/aes.c:506-518 | writes the length, the data and always 1 to 16 zero octets |
| AesCcm.CcmFormatPayloadData | aes/aes.c:520-531 | writes the data and 0 to 15 zero octets |
| DaviesMeyer.OneFixedPoint | DaviesMeyerHash.h:52-98 | for each key block the compression step leaves exactly one state unchanged |
| DaviesMeyer.HashContinues | DaviesMeyerHash.h:47-102 | hashing a concatenation continues the fold from the hash of the first part |
| Pdu.SizeFitsExactlyWhen | Protocol.h:53-65 | the PDU size is the next multiple of 32 strictly above length + 4, plus 32; it is below 2^32 for all accepted lengths but 32, for which it is exactly 2^32 and computed as 0 |
| Pdu.FrameInjective | Protocol.h:48-114 | different plaintexts have different PDUs |
| Pdu.AcceptanceIsExact | Protocol.h:120-157 | a PDU is accepted if and only if its size is legal, its hash matches and its length field is below size - 32, all said of its octets; the returned range lies inside the PDU |
| Pdu.AlteredTagRejected | Protocol.h:138-157 | a PDU that differs from a good one in the hash alone is rejected |
| Pdu.MstHash.CreateAuthPlaintext | Protocol.h:48-114 | the object's buffer holds the PDU of the plaintext after the call, or the call is refused and nothing changes |
| Peers.MessageRoundTrip | Protocol.h:315-386 | between endpoints in step a message is delivered if and only if 1 <= length <= 999,999,963; they stay in step exactly then |
| Peers.WrapByDecryption | Protocol.h:280-298 | each half of a wrapped session key decrypts under the shared secret to that half of the key, and each half of an unwrapped one encrypts to that half of what came in |
| Peers.NothingWithoutKeys | Protocol.h:274-386 | without a sending key nothing is encrypted, without a receiving key or after the random source has failed nothing is accepted |
| Endpoint.MaskBlocks | Protocol.h:324-343 | the masking loop applies the mask to every octet and moves the counter on by one for each block, with either key size argument and in place or not |
| Endpoint.MstEndpoint.CreateReceivingKey | Protocol.h:274-292 | installs the receiving key and returns it wrapped, or withdraws the old one when the random source fails; the counters stay |
| Endpoint.MstEndpoint.InitSendingKey | Protocol.h:295-303 | installs the unwrapped key for sending and changes nothing else |
| Endpoint.MstEndpoint.EnsureBufferSize | Protocol.h:205-223 | enlarges the buffer and keeps the rest of the object |
| Endpoint.MstEndpoint.DecryptSecureMessage | Protocol.h:311-352 | the whole new state and result are those of the value model, for every message and every state |
| Endpoint.MstEndpoint.EncryptToSecureMessage | Protocol.h:359-386 | the same for sending; the plaintext may lie in the object's own buffer |
| Keystream.DuplicateObfuscation | Protocol.h:359-386 | the same plaintext encrypted later in one direction gives a message of the same length; each of its blocks differs if and only if the blocks between are not a multiple of 2^128 |
| Keystream.StepSurvivesExactlyWhen | Protocol.h:315-386 | after a message the endpoints are still in step if and only if its length is deliverable |
| Keystream.AcceptedMessages | Protocol.h:315-352 | an endpoint makes of any message up to 10^9 octets what the PDU underneath is accepted as, and refuses longer ones |
| Keystream.EncryptedTwiceInARow | Protocol.h:359-386 | two encryptions of one plaintext in a row differ in every block |
| Keystream.OutOfStepGarbles | Protocol.h:315-352 | a receiver with another counter than the sender unmasks every block wrongly |
| Session.StepKeepsInvariant | Protocol.h:315-386 | every send and delivery of any plaintext keeps: either the channel carries exactly the undelivered plaintexts and the counters differ by its blocks, or a message of undeliverable length has been taken |
| Session.DeliverableRunIsFaithful | Protocol.h:245-386 | a run in which only plaintexts of 1 to 999,999,963 octets have been sent delivers prefixes of what was sent, with the rest on the channel |
| Histories.SentIsWhatWasGiven | Protocol.h:359-386 | after any run a direction has carried exactly the plaintexts its sender was given and did not refuse for their length |
| Session.CountersAccountForBlocksInFlight | Protocol.h:230-386 | as long as every message taken had a deliverable length, the counters differ by the blocks in flight at every moment of every run, modulo 2^128 |
| Channel.ConservedFromHandshake | Protocol.h:274-386 | that conservation law from any completed handshake on, with the keys still agreeing |
| Histories.LossesAndExtras | Protocol.h:315-352 | over every run the extra blocks are those inserted, and none are lost unless a message is dropped, one of illegal size inserted or too long a plaintext sent |
| Handshake.NoDeadlock | clientServerExample/MST_Socket.cpp:54-106 | no side can go on if and only if both have finished or, when the client's number is not in the file, the server has refused and the client waits |
| Handshake.WaitingHasSent | clientServerExample/MST_Socket.cpp:66-97 | in every reachable state a side that waits has put on the stream just the octets that `ConnectAndStartup` has flushed when no more input arrives |
| Handshake.StartedByEncryption | Protocol.h:274-303 | at the end of a handshake both counters are zero, the receiving key is the one made, and the halves of the sending key encrypt to what the partner sent |
| Handshake.KeysAgree | clientServerExample/MST_Socket.cpp:89-99 | what one side sends with is what the other receives with, in both directions, and both directions are in step |
| Handshake.ReflectedHandshake | clientServerExample/MST_Socket.cpp:74-101 | a client that is sent its own octets back finishes its handshake and is then in step with itself, because nothing in them marks who made the key |
| Connection.CallKeepsInvariant | clientServerExample/MST_Socket.cpp:54-147 | every call of either side keeps streams, keys and counters in that relation, also while the other side is still in the handshake |
| Connection.HandshakeGoesOn | clientServerExample/MST_Socket.cpp:54-106 | messages written by the side that has finished first never keep the other from finishing |
| BufferedSockets.BufferedSocket.Write | clientServerExample/BufferedSocket.h:128-146 | ends under any short writes; sent octets and pending octets together are all octets written, in order |
| BufferedSockets.BufferedSocket.Flush | clientServerExample/BufferedSocket.h:179-194 | ends under any short writes with everything sent; a failed flush has sent a proper part and still holds all |
| BufferedSockets.BufferedSocket.Read | clientServerExample/BufferedSocket.h:152-176 | ends under any short reads; returned octets and unread octets together are all octets received, and the call succeeds when enough octets arrive and leaves none when they do not |
| BufferedSockets.ReadInteger32 | clientServerExample/BufferedSocket.cpp:67-76 | takes four octets off the stream and returns the number they denote |
| BufferedSockets.WriteInteger32 | clientServerExample/BufferedSocket.cpp:78-87 | puts the four octets of the number on the stream |
| Framing.MessageCrosses | clientServerExample/MST_Socket.cpp:108-147 | a written message is read back, whatever follows it, if and only if 1 <= length <= 9,999,963; lengths up to 10,000,000 are written and then refused by the reader |
| Framing.ReadReturnsExactlyWhen | clientServerExample/MST_Socket.cpp:128-147 | a read returns a plaintext if and only if the stream starts with a length up to the limit and a message that decrypts to it, and leaves what follows |
| WorkQueue.NoPopOnEmpty | clientServerExample/ThreadWorkQueue.h:34-43 | no thread takes from an empty queue, and a thread that takes is alone in its critical section |
| WorkQueue.TakenInOrder | clientServerExample/ThreadWorkQueue.h:34-54 | the items taken are a prefix of the items inserted |
| WorkQueue.LeftBehind | clientServerExample/ThreadWorkQueue.h:34-54 | when no thread is under way, the items left in the queue are as many as the signal moves of the run that woke nobody |
| WorkQueue.InsertionIsUnheard | clientServerExample/ThreadWorkQueue.h:45-54 | an insertion while nobody waits leaves its item in the queue and wastes its signal |
| WorkQueue.GetWorkWaits | clientServerExample/ThreadWorkQueue.h:34-43 | a call to getWork comes to its wait and leaves the mutex free, also when there is work |
| KeyFiles.LookUpAfterLoad | clientServerExample/KeyReader.cpp:245-273 | after loading a printed file, looking up a number finds the key of the last entry that is read with it, and nothing exactly when there is none |
| KeyReaders.KeyReader.GetChar | clientServerExample/KeyReader.cpp:44-72 | yields the next character of the text, wherever the buffer ends |
| KeyReaders.KeyReader.ReadNumber | clientServerExample/KeyReader.cpp:128-150 | the loop computes the number function of the text, independent of the pieces the file comes in |
| KeyReaders.KeyReader.ReadPsKey | clientServerExample/KeyReader.cpp:152-209 | the same for keys |
| KeyReaders.KeyReader.LoadOneKeyToBuffer | clientServerExample/KeyReader.cpp:27-41 | a text of just 95 characters becomes the text to be read |

## Left out

- Pdu.MstHash.CreateAuthPlaintext: requires `Framable(length)`; for the 32 lengths in between the size wraps around and the code writes beyond its buffer.
- Endpoint.MstEndpoint.EncryptToSecureMessage: the same 32 lengths are excluded.
- AesCcm.AesEncryptCcm: requires that the formatted data fits the working buffer; for a mod 16 = 14 and p mod 16 = 1 the code writes one octet beyond it.
- AesModes.AesEncryptCtr: requires that the IV is not in the output buffer unless input and output are one; the code copies the input there before it reads the IV.
- AesCcm.AesDecryptCcm: requires valid tag and nonce lengths, which the code does not check there.
- Handshake.HandshakeCompletes: one handshake per pair of fresh endpoints; a handshake with messages in flight does not reset the counters and is not modelled.
- BufferedSockets.BufferedSocket.Write: on a failed flush only that it failed is stated; the laws of the streams hold for runs without a failed call.
- BufferedSockets.BufferedSocket.constructor: the capacities are positive, because with none Write would not end; setCapacity, which only the constructors call, is the allocation there.
- MstSockets.MstSocket.ConnectAndStartup: the connection is already made; name lookup, connect and accept are not modelled.
- KeyReaders.KeyFile.Read: an error while reading a file is treated by the code like its end and is not modelled apart.
- WorkQueue: modelled on values, one step per operation of a thread, because a single method body cannot show interleaving; nothing is claimed about every item being taken in the end, since getWork waits even when there is work. Spurious wakeups are not modelled.
- AES tables are stored as rows of 128 bits and looked up by shifting; the state is an array of four by four octets as in the source.
- The schedules and buffers that the source leaves uninitialised are arrays with arbitrary contents; the results are proved not to depend on them.
- The second copy of a wrapped key that MST_Endpoint keeps as a member is a local variable.
- Cryptographic strength: collisions, forgery and secrecy are not functional properties.
- Conformance of the CCM formatting to SP 800-38C: padding, the length field and the width of the counter differ; what the formatted data determines and what decryption recovers is proved.
- RandomSource.h beyond its result, console output, hex dumps, memory wiping in destructors, allocation failure.
- TCPServer, TCPUtil, proxies, the client and server programs, threads, Makefiles, Example1.cpp.
