# Verification of the mail pipeline

A Dafny model of the mail server's hard parts, with proofs: how a mail travels from the relays through
the lease-fenced queue into a mailbox, how it is printed, padded, encrypted and wrapped on the way out and
read back on the way in, how keys are written in bech32, how large attachments arrive in slices, and what
the list cache may answer. `dafny verify dfyconfig.toml` checks everything.

## How it is organised

| Area | Files |
|---|---|
| Queue tables and their statements in place | `MailQueue`, `Events`, `Wrappers` |
| The protocol over these tables: subscriber, workers, reclaim timer, crashes, users | `Protocol` |
| Laws over every run of the protocol | `Fencing`, `Conservation`, `Delivery`, `Failures`, `Quota`, `Timing`, `Dedup` |
| The bridge that handles one event, the worker loop, and why each loop iteration is a run of the protocol | `MailBridge`, `Reception`, `Worker`, `WorkerRuns`, `Letters` |
| Bech32 keys and the two npub decoders | `Digits`, `Checksum`, `Gf32`, `Bech32`, `KeyCodec`, `NpubStrings`, `BridgeCodec` |
| Encrypted payloads and double wrapping | `Octets`, `Utf8`, `Base64`, `Json`, `Nip44`, `Nip59`, `JsonReader`, `RumorReader` |
| The mail printer and parser | `Text`, `MailMessage`, `MailRoundTrip`, `Multipart`, `MailAttachments` |
| Chunked upload and the digest-named store | `Blossom`, `BlossomRuns` |
| The inbox list cache | `ListCache`, `ListRuns` |

The source's mutable objects are classes (`QueueDb`, `Store`, `Bridge`, `BlossomServer`, `MailLists`, `Mailbox`)
whose methods are tied to functions on values; its loops are loops with invariants; everything said about
sequences of calls is proved about those functions. Where the source may switch to other requests in the middle
of a handler (a list request between its query and its store, a write between its change and its drop, an upload
while its body is read), these are separate steps too.

Each SQL transaction is one step of the protocol. The two halves of `claim` (the SELECT and the UPDATE that
issues the lease), the quota check and the insert, and the completion are separate steps, and a worker may die
between any two; the insert itself may also fail, and the worker goes on to the next bridge. `enqueue` reads
the clock twice, the second time up to `maxWait` seconds after the first. Leases are tokens that never repeat.
The clock does not run backwards; timestamps are its whole seconds.

Foreign code enters as parameters: HMAC, the ChaCha20 keystream, key derivation on the curve, signatures,
SHA-256, `json.loads`, and random choices. What is assumed of them is written out as predicates: both ends of a
key pair derive the same conversation key, keys and signatures print as plain hex text, JSON reading undoes the
JSON printing modelled here, digests do not collide. Nothing else is assumed, and such foreign code exists: a JSON
reader that undoes the printing is given and proved to (`RumorReader.ReaderReadsBack`, `RumorReader.HostExists`), and
so is a digest without collisions (`BlossomRuns.CollisionFreeExists`).

## What turned out

- A job that kills its worker is claimed without bound: reclaiming does not count as an attempt
  (`Conservation.CrashesAreFree`).
- N workers can overfill a mailbox by N - 1 mails. For every N some interleaving of the pool does, each worker
  with one mail of its own group, all of them addressed to that mailbox (`WorkerRuns.PoolOverfills`).
- A worker that dies between storing a mail and reporting it leaves a queue row that ends failed, as a duplicate,
  although the mail is in the inbox (`Failures.StoredButFailed`). Of the jobs whose last bridge can read the mail,
  only those of stored mails fail before their third attempt (`Failures.FailedEarlyIsStored`); where the last
  bridge cannot, the job is failed at once even if the reader's mailbox was only full
  (`Failures.LastBridgeDecides`).
- `build_mail` accepts mails of up to 60000 bytes, and the comment beside the limit expects them to fit; but a
  mail can be wrapped exactly when its text, escaped for JSON, takes at most 40960 bytes together with 132 more,
  the timestamp and the tags (`Nip59.MailIsWrapped`). Every header block has bodies that build and cannot be
  wrapped (`Reception.CapIsNotEnough`).
- The parser looks for the boundary in the whole header block, not in the Content-Type line. A Subject that
  itself reads as a multipart Content-Type names another boundary, and all attachments are lost
  (`MailAttachments.SubjectLosesAttachments`). They come back exactly when the boundary found first is the
  printed one or a beginning of it (`MailAttachments.AttachmentsRoundTrip`).
- A queued letter in a gift wrap is readable for one mailbox only, and delivered effectively once however many
  other mailboxes the server tries it on (`Letters.WrappedIsCarried`, `Letters.LetterDeliveredOnce`).
- A mail without attachments survives printing and parsing exactly when every header value is one line without
  blanks at its ends; the body may be anything (`MailRoundTrip.PlainRoundTrip`).
- The strict npub decoder checks the checksum but not the four spare bits, so exactly sixteen strings name each key
  (`NpubStrings.SixteenStrings`); decoding and encoding again gives the string back exactly when those bits are zero
  (`NpubStrings.NpubIsCanonical`).
- An exception raised by one bridge is reported as the reason of a later bridge's refusal
  (`Worker.VerdictLaw`).
- A list request that queries before a write and stores after it keeps the old listing for five seconds, whatever
  the write (`ListRuns.LateStoreIsNotFenced`); without such a request every write shows in every later answer
  (`ListRuns.WriteIsFenced`). Opening a mail drops the cached lists before it marks the mail read, so there even a
  whole list request fits in between (`ListRuns.OpeningIsNotFenced`).
- A slice-by-slice upload succeeds exactly when the last clean-up before its last slice is handled, whichever
  request made it, falls within an hour of the first slice (`BlossomRuns.UploadIsLossless`).

## Model

| member | source | states |
|---|---|---|
| MailQueue.QueueDb.Migrate | mailapp/queue.py:75-96 | on a table without the lease column every processing row returns to pending and every lease is empty; a table that has the column is left as it is |
| MailQueue.QueueDb.OwnerOf | mailapp/queue.py:110-122 | the owner of an event is the key in its first p-tag that carries 64 characters, "" when there is none |
| MailQueue.QueueDb.Enqueue | mailapp/queue.py:145-174 | an event is queued exactly when its owner is registered (or unknown) and its id is not remembered; the id is then remembered under the first clock reading and the row created under the second, and a dropped event changes neither table |
| MailQueue.QueueDb.CleanupSeen | mailapp/queue.py:177-187 | exactly the ids remembered longer than seven days are forgotten, and their number is returned |
| MailQueue.QueueDb.SelectPending | mailapp/queue.py:212-227 | the row found is the oldest pending one the group may take; none is found only when there is none |
| MailQueue.QueueDb.Take | mailapp/queue.py:228-236 | the claim succeeds exactly when the row is still pending, and then that row alone moves to processing under the new lease |
| MailQueue.QueueDb.Claim | mailapp/queue.py:203-239 | without interference the two halves take the oldest matching row, or leave the table alone when there is none |
| MailQueue.QueueDb.Finish | mailapp/queue.py:242-290 | True exactly when the caller holds the row under this lease; then the row is settled, or pending with one attempt more, and otherwise nothing changes |
| MailQueue.QueueDb.FinishDone | mailapp/queue.py:265-271 | a successful completion under the lease marks the row done, ends the lease and counts no attempt |
| MailQueue.QueueDb.FinishFailed | mailapp/queue.py:272-286 | a failed completion under the lease counts one attempt; the row is failed when the refusal is permanent or the third, else pending again |
| MailQueue.QueueDb.ReclaimStale | mailapp/queue.py:293-307 | exactly the rows processing since before the timeout return to pending, attempts untouched |
| MailQueue.OwnerIs | mailapp/queue.py:110-122 | the owner is the 64-character key of the first p-tag that has one, and "" only when no p-tag has |
| MailQueue.EnqueuedWaits | mailapp/queue.py:145-174 | a queued event waits untried and unleased under its owner and time, its id remembered; a known id or an unregistered owner drops it |
| MailQueue.OldestOfGroup | mailapp/queue.py:203-227 | what a worker finds is the oldest waiting job whose owner is in its group or unknown |
| MailQueue.FinishedRow | mailapp/queue.py:265-286 | under the lease, success is final and a failure spends an attempt and is final when permanent or the third; errors are kept up to 300 characters |
| MailQueue.ReclaimedRow | mailapp/queue.py:293-307 | a row processing for more than 120 seconds waits again, every other row stays as it is |
| MailQueue.MigratedRow | mailapp/queue.py:75-96 | the upgrade changes only processing rows, which wait again with their attempts kept |
| MailQueue.RememberedFor | mailapp/queue.py:177-187 | an id is remembered for exactly seven days |
| Fencing.StartIsSafe | mailapp/queue.py:75-96 | any database, after migration and before any worker has a job, satisfies the lease discipline |
| Fencing.AnyDatabaseStarts | mailapp/queue.py:75-96 | every legacy database, once migrated, is a starting point of the protocol with any idle workers |
| Fencing.ReachableIsSafe | mailapp/queue.py:203-307 | in every reachable state a row is processing exactly when its lease is non-empty, and live leases are distinct and issued for that row |
| Fencing.LeaseLaw | mailapp/queue.py:259-303 | over any run, accepted completions plus reclaims of a lease are one exactly when it stopped being usable, else zero |
| Fencing.LeaseFinishesOnce | mailapp/queue.py:259-288 | a lease has at most one accepted completion, and none once its row was reclaimed |
| Fencing.FinishIsFenced | mailapp/queue.py:259-288 | a completion changes the table if and only if the caller holds the row under that lease, never another row, and never twice: no second completion under the lease changes anything |
| Conservation.RowLaw | mailapp/queue.py:228-303 | per row and run: claims = accepted completions + reclaims + (1 if processing); attempts grow by exactly the accepted failed completions |
| Conservation.ReachableIsBudgeted | mailapp/queue.py:265-288 | attempts never exceed three, and only failed rows have used all three |
| Conservation.AlwaysBudgeted | mailapp/queue.py:265-288 | the same for every run from an empty queue, with nothing assumed of its rows |
| Conservation.SettledForever | mailapp/queue.py:265-303 | a done or failed row never changes again |
| Conservation.ClaimsAreBounded | mailapp/queue.py:228-303 | a row is claimed at most three times beyond its reclaims, fails at most three times and is done at most once |
| Conservation.CrashesAreFree | mailapp/queue.py:299-303 | a job that kills the worker of its group at every claim, whatever bridges it is tried on, is claimed as often as there are leases and ends pending, its attempts unchanged |
| Delivery.InboxLaw | mailbridge/mail_bridge.py:235-265 | per Message-ID and run: rows stored + deletions = rows before + acceptances |
| Delivery.ReachableIsExclusive | mailapp/worker.py:174-204 | two workers, or a worker and a delivered row, never hold the acceptance of the same Message-ID |
| Delivery.EffectivelyOnce | mailapp/worker.py:174-204 | over every interleaving without user deletion, a Message-ID is accepted at most once, at most one queue row ends done for it, and then the mail is in the inbox; it suffices that the bridges able to read the event agree on the Message-ID |
| Failures.FailedEarlyIsStored | mailapp/worker.py:184-204 | over every run without deletion, a job whose last candidate bridge reads the Message-ID fails before its third attempt only if that mail is in the inbox |
| Failures.LastBridgeDecides | mailapp/worker.py:190-196 | without that hypothesis it is false: a reader with a full mailbox followed by a bridge that cannot read fails the job for good, the mail unstored |
| Failures.StoredButFailed | mailapp/worker.py:175-204 | a worker that stores the mail and dies before finishing leaves, after reclaim and the next claim, a failed row beside the stored mail |
| Quota.ReachableWithinRace | mailbridge/mail_bridge.py:224-254 | mails stored plus workers between check and insert stay within the quota plus N - 1 |
| Quota.QuotaBound | mailbridge/mail_bridge.py:224-254 | N workers keep a mailbox at no more than its quota plus N - 1 |
| Quota.QuotaBoundIsReached | mailbridge/mail_bridge.py:224-254 | for every N: from any start with an empty queue and one free place, N different mails that arrive for owners in the groups of N idle workers are enqueued, claimed by those groups for the owners' own bridges and all stored in some run, which ends at that bound |
| Timing.NeverEarly | mailapp/queue.py:293-303 | a completion sent within 120 seconds of the claim is always accepted |
| Timing.NeverLate | mailapp/worker.py:154-172 | with one timer whose iterations take at most D seconds, a row is never processing for more than 120 + 30 + D seconds past the second it started in, however busy the queue |
| Timing.NeverLateInWholeSeconds | mailapp/worker.py:33-40 | with clock readings in whole seconds the bound is start + 120 + 30 + D |
| Timing.SweepsWhenDue | mailapp/worker.py:33-40 | between jobs the timer reclaims exactly when thirty seconds have passed since it last did |
| Dedup.DedupLaw | mailapp/queue.py:145-187 | per event id and run: times queued + remembered before = times forgotten + remembered after, and every time queued is one row |
| Dedup.CopiesAreBounded | mailapp/queue.py:145-187 | an event id has at most one row more than the cleanup forgot it |
| Dedup.ReachableIsSpaced | mailapp/queue.py:159-185 | every remembered id has its row, and two rows of one id are created more than seven days apart, less what an enqueue waited between its two clock readings |
| Dedup.AlwaysSpaced | mailapp/queue.py:159-185 | the same for every run from an empty queue and empty memory |
| Dedup.DroppedStaysEnqueueable | mailapp/queue.py:153-172 | an event dropped for an unregistered owner is queued once the owner registers |
| MailBridge.Bridge.HandleEvent | mailbridge/mail_bridge.py:136-156 | the outcome, the inbox and the reported reason and permanence are those of reading the event and storing the mail; an exception leaves no reason behind |
| MailBridge.Bridge.HandleGiftWrap | mailbridge/mail_bridge.py:158-174 | a gift wrap that does not open, or holds an object of another kind, is refused for good; one that holds no object, or a mail whose content is no text, raises |
| MailBridge.Bridge.HandlePlain | mailbridge/mail_bridge.py:176-188 | an open mail needs a valid signature and our key among its p-tags; a p-tag without a key raises |
| MailBridge.Bridge.IngestMail | mailbridge/mail_bridge.py:190-265 | content that parses without From and Subject is decrypted and parsed again; the mail goes to the mailbox its To address names, unless that one is full or the Message-ID is stored already |
| Reception.GoesToAddressee | mailbridge/mail_bridge.py:210-287 | a readable mail goes to the mailbox to which its trimmed To address is registered, else to the bridge's own; that mailbox's quota counts, and the stored row holds exactly what was read |
| Reception.PlainIsAuthentic | mailbridge/mail_bridge.py:176-188 | an open mail is read only with a valid signature and a p-tag of ours, as coming from the key that signed it; without a valid signature it is refused for good |
| Reception.EncryptedContentIsRead | mailbridge/mail_bridge.py:190-208 | content that is no mail as it stands is decrypted with the sender's conversation key and read as the mail inside |
| Reception.AcceptedIsStored | mailbridge/mail_bridge.py:235-265 | True if and only if one new row appears, under the mail's Message-ID, in a mailbox that was below its quota, all other rows unchanged |
| Reception.OnlyFullIsTemporary | mailbridge/mail_bridge.py:229-265 | a refusal is worth repeating if and only if the mail was readable and its mailbox full |
| Reception.NeverTwice | mailbridge/mail_bridge.py:235-265 | while its row stands, no bridge accepts an event with the same Message-ID again |
| Reception.LetterArrives | mailbridge/mail_bridge.py:158-265 | a letter built, wrapped for a bridge and handled there ends in the inbox with exactly its From, To, Subject, body and Message-ID, or meets a full mailbox or a duplicate |
| Reception.LetterWithAttachmentsArrives | mailbridge/mail_bridge.py:158-265 | the same with attachments, when the boundary the headers name first is the printed one or a beginning of it: they are all stored, URLs first, and the body gains its list of links |
| Reception.CapIsNotEnough | mailbridge/mail_message.py:119-122 | for every header block of at most 59998 bytes some body makes a mail of exactly the 60000 bytes `build_mail` accepts, and that mail cannot be wrapped |
| Worker.GroupOf | mailapp/worker.py:43-45 | every owner belongs to one of the groups 0..n-1, for any n |
| Worker.GroupIs | mailapp/worker.py:43-45 | the group is the first hash byte modulo the number of workers; one worker or none has all owners |
| Worker.TryBridges | mailapp/worker.py:184-196 | the loop over bridge objects stops at the first acceptance and reports what trying them in order yields |
| Worker.Iteration | mailapp/worker.py:175-204 | one loop iteration claims the oldest job of the group, tries the bridge of its owner alone, or all bridges in order when the owner has none, and settles it under its lease; without a job nothing changes |
| Worker.OwnBridgeDecides | mailapp/worker.py:182-204 | a job whose owner has a bridge is done if and only if that bridge accepts, with that bridge's inbox; otherwise one attempt is spent, that bridge's reason kept, and the job failed when the refusal is permanent or the attempt the third |
| Worker.FirstAcceptanceCounts | mailapp/worker.py:184-196 | of several bridges the first that accepts the event stores it, whatever those before it answered; if none does the inbox is unchanged |
| Worker.AnyBridgeServes | mailapp/worker.py:182-204 | a job without a bridge of its owner is done if and only if some bridge of the group accepts it |
| Worker.VerdictLaw | mailapp/worker.py:184-204 | done if and only if the last bridge tried accepted; permanence is the last bridge's; the reason is the last exception when there was one, else the last refusal's |
| WorkerRuns.OneBridge | mailbridge/mail_bridge.py:136-265 | handling an event on one bridge, able to read it or not, is a protocol refusal, or a quota check and an insert that succeeds or fails, with the same inbox |
| WorkerRuns.TriesAreRuns | mailapp/worker.py:184-196 | trying bridges in order is a run of the protocol ending in the verdict reported |
| WorkerRuns.IterationIsARun | mailapp/worker.py:175-204 | every loop iteration is a run of the protocol with the same queue and inbox at its end |
| WorkerRuns.PoolOverfills | mailapp/worker.py:43-45 | in particular with the pool's own division of owners into groups: one mail for each of the N groups, all addressed to one mailbox, overfill it by N - 1 |
| Letters.ServerIterationIsARun | mailapp/worker.py:175-204 | every loop iteration of a server with any mailboxes is a run of the protocol in the configuration that describes them |
| Letters.BuiltIsLetter | mailbridge/mail_message.py:38-167 | what is printed from plain header values parses as a mail with the printed Message-ID |
| Letters.WrappedIsCarried | mailbridge/nip59.py:153-189 | of any number of mailboxes exactly the one with the recipient's key reads a wrapped letter, under its Message-ID, so effectively-once delivery applies to it |
| Letters.LetterDeliveredOnce | mailapp/worker.py:174-204 | on a server with any mailboxes, over every interleaving and for any number of queued copies of a letter, wrapped by anyone for anyone: while no user removes it, it is accepted at most once, at most one of the rows ends done, and then it is in the inbox |
| Digits.EightToFive | mailapp/auth.py:288-299 | the loop gives the bit string of the bytes in groups of five, the last one completed with zeros |
| Digits.FiveToEight | mailapp/auth.py:196-203 | the loop gives the whole bytes of the bit string, a rest of under eight bits dropped |
| Digits.RegroupRoundTrip | mailapp/auth.py:196-203 | narrowing with padding and widening again gives the data back, for data of any length |
| Checksum.Polymod | mailapp/auth.py:182-191 | the checksum loop computes the register the values drive it to |
| Gf32.MixIsTimesX | mailapp/auth.py:182-191 | one register step is multiplication by x modulo the generator polynomial of BIP-173 over the field of 32 elements |
| Gf32.AbsorbIsRemainder | mailapp/auth.py:182-191 | what the loop keeps in its register is the remainder of the values as a polynomial, at any length |
| Checksum.MixKernel | mailapp/auth.py:182-191 | only the zero register is taken to zero by a step without input |
| Checksum.AbsorbLinear | mailapp/auth.py:182-191 | the register is linear in register and input under exclusive or, for inputs of any length |
| Checksum.SignatureVerifies | mailapp/auth.py:312-315 | appending the six computed symbols always drives the register to 1 |
| Checksum.BurstIsDetected | mailapp/auth.py:182-195 | two inputs that differ only within six adjacent symbols never both reach the same register |
| Bech32.DecodeEncode | mailapp/auth.py:169-205 | decoding an encoding gives back prefix and data, for data of any length |
| Bech32.Charset | mailapp/auth.py:166 | the 32 symbols in order are the charset of BIP-173 |
| Bech32.ListedIsValid | mailapp/auth.py:169-205 | "A12UEL5L", which BIP-173 lists as valid, decodes to the prefix "a" and no data |
| Bech32.SpellingIsDecoded | mailapp/auth.py:169-205 | any symbols with their checksum are decoded, whatever bits are left over |
| Bech32.CorruptionIsRejected | mailapp/auth.py:182-195 | any change confined to six adjacent symbols of a valid string, of any length, makes the decoder answer None |
| Bech32.WrongSymbolIsRejected | mailapp/auth.py:182-195 | in particular any single symbol replaced by another |
| KeyCodec.PubkeyToNpub | mailapp/auth.py:285-318 | the printed npub is the bech32 encoding of the key's bytes; text that is not hex gives None |
| KeyCodec.HexToNsec | mailapp/auth.py:321-355 | the printed nsec is the bech32 encoding of a 32-byte key, any other length is an error |
| KeyCodec.Bech32Decode | mailapp/auth.py:169-205 | the decoding loops answer exactly what the decoding function says, None for every malformed string |
| KeyCodec.NpubRoundTrip | mailapp/auth.py:226-235 | reading a printed npub gives the key back, for every 32-byte key |
| KeyCodec.NsecRoundTrip | mailapp/auth.py:208-223 | reading a printed nsec gives the key back, for every 32-byte key |
| KeyCodec.FromUpperHex | mailapp/auth.py:285-318 | hex in upper or mixed case is read as in lower case |
| KeyCodec.BlanksAreSkipped | mailapp/auth.py:285-318 | white space between hex pairs is skipped |
| KeyCodec.AddressIsRead | mailapp/auth.py:226-235 | an npub is read with blanks around it, or a domain after it, as without |
| KeyCodec.HexKeyIsTaken | mailapp/auth.py:208-223 | a private key pasted in hex, in either case and with blanks around it, is taken as it is |
| KeyCodec.OtherKeysAreNsecs | mailapp/auth.py:208-223 | any other text must be a valid string with the prefix nsec |
| BridgeCodec.ConvertBits | mailbridge/mail_bridge.py:429-447 | the masked accumulator computes the same regrouping as the unbounded one, at any widths and lengths; a value out of range gives None |
| BridgeCodec.Bech32ToBytes | mailbridge/mail_bridge.py:450-455 | the bridge reads everything after the last 1 as data, checksum included |
| BridgeCodec.DecodersAgree | mailbridge/mail_bridge.py:458-468 | every bare npub the strict decoder accepts is read by the bridge as the same key |
| NpubStrings.NpubIsCanonical | mailapp/auth.py:226-235 | a string the strict decoder accepts is the one the encoder prints if and only if its four spare bits are zero |
| NpubStrings.SixteenStrings | mailapp/auth.py:196-235 | a string is read as a given key if and only if, in lower case, it is one of the sixteen that differ from the encoder's in the last four data bits and carry their own checksum |
| NpubStrings.AllSixteenAreRead | mailapp/auth.py:226-235 | each of the sixteen strings is read as that key, for every 32-byte key |
| NpubStrings.SpellingsDiffer | mailapp/auth.py:285-318 | the sixteen strings of a key are pairwise different, and the first is the encoder's |
| Base64.Decode | mailbridge/nip44.py:165 | the lenient decoder stops at complete padding, skips foreign characters, and fails only on non-ASCII text or an incomplete last group |
| Base64.DecodeEncode | mailbridge/nip44.py:188 | decoding an encoding gives the bytes back, for every length |
| Octets.XorByteTwice | mailbridge/nip44.py:141-143 | adding the same keystream byte twice gives the byte back |
| Octets.XorByteBit | mailbridge/nip44.py:141-143 | each bit of the sum is set when exactly one of the two bits is |
| Nip44.PaddingCost | mailbridge/nip44.py:99-104 | the padded length is at least the length, a multiple of 32, at most 31 more up to 256 and less than a quarter more above |
| Nip44.PaddingIs | mailbridge/nip44.py:99-104 | exactly the next multiple of 32, or above 256 bytes of an eighth of the least power of two not below the length |
| Nip44.PaddingMonotone | mailbridge/nip44.py:99-104 | a longer text never has a shorter padded length |
| Nip44.PaddingIdempotent | mailbridge/nip44.py:99-104 | a padded length is its own padded length |
| Nip44.UnpadPad | mailbridge/nip44.py:107-136 | unpad undoes pad for 1..65535 bytes |
| Nip44.UnpadExtended | mailbridge/nip44.py:119-136 | unpad reads the six-byte prefix that pad never writes, for every text from 65536 bytes on |
| Nip44.UnpadAccepts | mailbridge/nip44.py:119-136 | within the decoder's size limit unpad accepts only a two-byte length, that many bytes and filling: the six-byte prefix is unreachable |
| Nip44.UnpadIgnoresFilling | mailbridge/nip44.py:119-136 | conversely every such string is accepted, whatever the filling |
| Nip44.HkdfExpand | mailbridge/nip44.py:30-39 | the loop gives the blocks of RFC 5869 cut to the length, an error above 255 blocks |
| Nip44.HkdfPrefix | mailbridge/nip44.py:30-39 | asking for more output never changes the output already given |
| Nip44.HkdfFeedback | mailbridge/nip44.py:30-39 | each 32 bytes of output are the code of the 32 before them, the info and a counter from 1 |
| Nip44.GetMessageKeys | mailbridge/nip44.py:71-77 | the 76 expanded bytes cut, in this order, into cipher key, cipher nonce and MAC key of 32, 12 and 32 bytes; an error for a key or nonce of any other length |
| Nip44.RoundTrip | mailbridge/nip44.py:158-199 | encrypt accepts exactly 1..65535 bytes, decrypt gives them back, and payloads keep the limits of 99..65603 raw bytes and 132..87472 characters |
| Nip44.LimitsAttained | mailbridge/nip44.py:92-96 | all four limits are attained, by one byte and by 65535 bytes |
| Nip44.DecryptAccepts | mailbridge/nip44.py:147-199 | decrypt answers m if and only if the payload has 132..87472 characters, no # in front, and decodes to version 2, a nonce, the padded length and m enciphered under bytes 0..44 of the expanded key, filling of the padded length, and the code under bytes 44..76 over nonce and ciphertext |
| Nip44.EncryptIs | mailbridge/nip44.py:177-188 | encrypt prints exactly such a payload, the nonce given in it and zeros as filling |
| Nip59.SealLength | mailbridge/nip59.py:119-131 | the seal adds 333 bytes and the digits of its timestamp to its content |
| Nip59.SealLengthToday | mailbridge/nip59.py:119-131 | 343 bytes with a timestamp of ten digits |
| Nip59.WrapLimit | mailbridge/nip59.py:118-138 | for any seal overhead up to 10831 bytes both paddings succeed if and only if the rumor takes 1..40960 bytes; 10831 is the largest such overhead |
| Nip59.WrapSucceeds | mailbridge/nip59.py:105-150 | wrap succeeds if and only if the rumor's JSON takes 1..40960 bytes |
| Nip59.UnwrapWrap | mailbridge/nip59.py:153-189 | the recipient unwraps exactly the rumor and the sender's key |
| Nip59.MailIsUnwrapped | mailbridge/nip59.py:195-206 | the recipient of a wrapped mail unwraps an unsigned event of kind 1301 by the sender with the mail as content |
| Nip59.WrapIs | mailbridge/nip59.py:105-150 | a gift wrap shows a throwaway key, its signature and the recipient; under the two conversation keys it decrypts to a seal signed by the sender, and that to the rumor |
| Utf8.DecodeEncode | mailbridge/nip59.py:101-102 | the UTF-8 decoder of RFC 3629 gives back every encoded text |
| Utf8.DecodedIsEncoded | mailbridge/nip59.py:101-102 | and it decodes nothing but encodings |
| JsonReader.EscapedIsRead | mailbridge/nip59.py:101-102 | reading JSON string escapes as RFC 8259 states them gives back every escaped text |
| RumorReader.RumorIsRead | mailbridge/nip59.py:85-98 | every rumor, whatever its texts, numbers and tags, is read back from its JSON |
| RumorReader.ReaderReadsBack | mailbridge/nip59.py:175-187 | a host that reads with this reader reads back every rumor and seal it prints |
| RumorReader.PrintedApart | mailbridge/nip59.py:101-102 | different rumors never print alike, nor seals that differ in key or content |
| RumorReader.HostExists | mailbridge/nip59.py:105-189 | hosts as the wrapping laws assume them exist |
| Nip59.OthersAreRefused | mailbridge/nip59.py:160-164 | every other key gets an error |
| Nip59.LongMailsAreNotWrapped | mailbridge/nip59.py:118-138 | no content above 40958 bytes can be wrapped |
| Nip59.MailIsWrapped | mailbridge/nip59.py:195-206 | a mail is wrapped if and only if its JSON-escaped text, 132 bytes, the digits of the timestamp and the JSON of its tags together take at most 40960 bytes |
| MailMessage.BuildMail | mailbridge/mail_message.py:38-123 | the loops over header lines and parts print the mail text, extra headers ignored; more than 60000 bytes of UTF-8 are an error |
| MailMessage.BuildMultipart | mailbridge/mail_message.py:78-115 | the joined part lines are the body section, the URL sections and the inline sections, each between boundaries |
| MailMessage.PrintedHeaders | mailbridge/mail_message.py:60-73 | a printed mail begins with its From, To, Subject, Date and Message-ID lines, in this order |
| MailMessage.BodyHasLinks | mailbridge/mail_message.py:82-87 | the body is followed by the heading and one line with name, type and URL for each URL attachment, in order |
| MailMessage.InOrder | mailbridge/mail_message.py:75-76 | attachments keep their order within each kind |
| MailMessage.UrlSectionTells | mailbridge/mail_message.py:92-101 | the text in place of a URL attachment gives its name, type and address |
| MailMessage.ParseHeaders | mailbridge/mail_message.py:135-140 | the scan finds the headers at line starts, later ones replacing earlier ones; one white space character after the colon is skipped, even a line end |
| MailMessage.ParseParts | mailbridge/mail_message.py:170-191 | the parts are the non-empty pieces between boundaries, each split into its headers and its body |
| MailMessage.ParseMail | mailbridge/mail_message.py:126-167 | the body is the first text part that is no attachment, the attachments are the readable attachment parts in order |
| MailMessage.HeadersEnd | mailbridge/mail_message.py:128-133 | the headers end at the first empty line, and only where there is none at the first empty line in CR LF |
| MailMessage.ForeignPartIs | mailbridge/mail_message.py:194-231 | an attachment part by Content-Location keeps its address, one by URL without a URL is dropped, every other is inline, and a part not marked as attachment is none |
| MailMessage.NameIs | mailbridge/mail_message.py:200-208 | an attachment's name stands in its disposition, else in its type |
| MailMessage.NamelessIs | mailbridge/mail_message.py:209-231 | an attachment without a name is called "file", and none is without a type |
| MailMessage.FoldIs | mailbridge/mail_message.py:174-177 | the searches ignore the case of ASCII letters and take both Turkish i, the long s and the Kelvin sign for i, s and k |
| MailRoundTrip.PlainRoundTrip | mailbridge/mail_message.py:126-167 | a mail without attachments comes back, all fields and the body, if and only if every header value is one line with no white space at its ends |
| MailRoundTrip.ReadFieldsAreValues | mailbridge/mail_message.py:135-167 | whatever the text, each field read is one line without white space at its ends |
| Multipart.FirstBoundary | mailbridge/mail_message.py:174-177 | the boundary search takes the first line of the header block that names one; the Content-Type line counts only when no line before it does |
| Multipart.PartsRead | mailbridge/mail_message.py:170-191 | the parts of a printed multipart body, cut at its boundary or any beginning of it, are its sections, contents up to trailing CR, LF and space |
| MailAttachments.UrlPartRead | mailbridge/mail_message.py:211-220 | a printed URL attachment comes back with its name (double quotes as single), type, URL and digest |
| MailAttachments.InlinePartRead | mailbridge/mail_message.py:225-231 | a printed inline attachment comes back with its name and type and its data decoded and encoded again; data that is not base64 is dropped |
| MailAttachments.InlineDataIsKept | mailbridge/mail_message.py:225-231 | base64 data, line breaks in it aside, comes back unchanged |
| MailAttachments.AttachmentsRoundTrip | mailbridge/mail_message.py:126-191 | a mail with attachments comes back, all fields, the body with its links up to trailing CR, LF and space, the URL attachments and then the inline ones in order, if and only if every header value is one line without white space at its ends and the boundary the headers name first is the printed one or a beginning of it; with such values and another boundary no attachment comes back |
| MailAttachments.DrawnRoundTrip | mailbridge/mail_message.py:78-81 | the same for the boundary the printer draws, nb- and any twelve hexadecimal digits, with nothing assumed of it |
| MailAttachments.MisleadingSubject | mailbridge/mail_message.py:174-177 | a Subject in which the search finds a boundary decides the boundary of the whole mail |
| MailAttachments.SubjectLosesAttachments | mailbridge/mail_message.py:174-181 | the Subject "Content-Type: multipart/mixed; boundary=x" loses every attachment, whatever they are |
| Blossom.PartNameInjective | mailapp/routers/blossom.py:212-220 | two uploads, or two indices of one, never share a part file |
| Blossom.PartNameIs | mailapp/routers/blossom.py:212 | a part file is named by the id, the index in three decimal digits and the suffix |
| Blossom.BlossomServer.CleanupStale | mailapp/routers/blossom.py:50-64 | exactly the part files older than an hour are removed, as every upload request does when it arrives |
| Blossom.BlossomServer.Save | mailapp/routers/blossom.py:108-122 | 1 byte to 20 MB are stored under their digest unless a file of that name exists; other sizes are errors |
| Blossom.SavedIs | mailapp/routers/blossom.py:108-122 | exactly 1 byte to 20971520 bytes are stored, under their digest and leaving every other file as it is |
| Blossom.BlossomServer.UploadChunk | mailapp/routers/blossom.py:183-240 | a request whose body has been read is checked, its part written, and after the last index the parts are joined, removed and saved, or the first missing one is reported |
| Blossom.ChunkIsChecked | mailapp/routers/blossom.py:187-216 | a slice is written if and only if count and index are in range, the data is base64 of at least a byte and at most 614400 characters and the id 1 to 32 letters and digits; otherwise nothing is, with status 413 for too much data and 400 for the rest |
| BlossomRuns.FilesAreNamed | mailapp/routers/blossom.py:108-122 | over any run every stored file lies under its own digest |
| BlossomRuns.AlwaysNamed | mailapp/routers/blossom.py:108-122 | the same for every run from an empty store |
| BlossomRuns.PutIsSaved | mailapp/routers/blossom.py:144-166 | a file put in one piece is saved by the same rule |
| BlossomRuns.RemovedIsGone | mailapp/routers/blossom.py:257-278 | removing a file removes that file and nothing else |
| BlossomRuns.StoredStays | mailapp/routers/blossom.py:108-122 | over any run a stored file never changes until it is removed |
| BlossomRuns.OthersKeep | mailapp/routers/blossom.py:207-229 | an upload touches no part of another upload |
| BlossomRuns.UploadIsLossless | mailapp/routers/blossom.py:182-240 | between any requests of others, which may also come while a slice's body is read, a file sent in slices is stored exactly if the last clean-up before its last slice is handled falls within an hour of the first slice, and otherwise ends in a missing part |
| BlossomRuns.AloneIsStored | static/js/composer.js:169-199 | a client alone stores its file exactly when its last slice arrives within an hour of its first being read |
| BlossomRuns.CollisionFreeExists | mailapp/routers/blossom.py:108-122 | the assumption on digests can be met |
| BlossomRuns.UploadToBlossom | static/js/composer.js:169-199 | the client's loop sends the slices in order under the first id it is given, stops at the first answer that is not "more", and never shows 100 percent before the end |
| BlossomRuns.PercentIs | static/js/composer.js:189 | the progress shown is the share sent, rounded half up, but never 0 nor 100 |
| ListCache.MailLists.Mails | mailapp/routers/mail.py:255-304 | the answer is the cached listing within five seconds, else the direct query's; what is handed out are new copies that share nothing with the cache |
| ListCache.MailLists.Invalidate | mailapp/routers/mail.py:60-63 | exactly the lists of that mailbox are dropped |
| ListCache.Mailbox.MailDetail | mailapp/routers/mail.py:307-320 | opening a mail marks it read and drops its mailbox's lists; a missing mail changes nothing |
| ListCache.Mailbox.MailSetRead | mailapp/routers/mail.py:333-346 | the flag is set and the mailbox's lists dropped; a missing mail changes nothing |
| ListCache.Mailbox.MailsClean | mailapp/routers/mail.py:349-366 | exactly the read mails of the caller are removed and counted, and the caller's lists dropped |
| ListCache.Mailbox.MailDelete | mailapp/routers/mail.py:369-386 | the mail is removed and its mailbox's lists dropped; a missing mail changes nothing |
| ListCache.Mailbox.MailArchive | mailapp/routers/mail.py:389-400 | the flag is set and the mailbox's lists dropped; a missing mail changes nothing |
| ListCache.WriteIsLocal | mailapp/routers/mail.py:307-400 | a write to one mailbox changes no list of another |
| ListCache.ArchivingMoves | mailapp/routers/mail.py:389-400 | archiving takes a mail from the list into the archive, and back |
| ListCache.WrittenMail | mailapp/routers/mail.py:307-386 | opening marks read, the read flag is set as asked, deleting removes that mail, cleaning exactly the read mails of the owner |
| ListCache.ListsDivide | mailapp/routers/mail.py:275-287 | every mail of a mailbox is in its list or in its archive, never in both |
| ListCache.SearchNarrows | mailapp/routers/mail.py:281-285 | a search finds the listed mails with the text in subject, body, sender or recipient |
| ListCache.ListingIs | mailapp/routers/mail.py:286-294 | a listing is the slice of the ordered mails the request asks for, with the number of all and of the unread ones |
| ListCache.ShownIs | mailapp/routers/mail.py:298-303 | a row is shown with its flags as true or false, NULL as not archived, and otherwise as it is |
| ListCache.PagesJoin | mailapp/routers/mail.py:288-304 | consecutive pages lie end to end, and there is a next one exactly when the answer says so |
| ListCache.KeyIs | mailapp/routers/mail.py:269-272 | offset and limit are brought into range, search text and folder trimmed and cut to 120 and 20 characters |
| ListRuns.ListIsCoherent | mailapp/routers/mail.py:273-304 | however handlers interleave, each answer is the direct query's at some instant, and was stored at most five seconds earlier and after this process's last drop of that mailbox's lists |
| ListRuns.WriteIsFenced | mailapp/routers/mail.py:333-400 | a write that begins while no list request for the mailbox is between query and store shows in every answer after its drop |
| ListRuns.OpeningIsFenced | mailapp/routers/mail.py:307-320 | opening a mail, which drops first, does so if moreover no list request begins before the mark |
| ListRuns.AtomicIsFenced | mailapp/routers/mail.py:273-400 | when handlers do not interleave, each answer is the direct query's at some instant at most five seconds earlier and after this process's last write to that mailbox |
| ListRuns.WholeHandlersAreAtomic | mailapp/routers/mail.py:273-400 | runs of whole handlers, of any number, are runs without interleaving |
| ListRuns.HandlersAreSteps | mailapp/routers/mail.py:273-400 | a list request or a write with nothing in between does to cache and table what the handlers in place do |
| ListRuns.LateStoreIsNotFenced | mailapp/routers/mail.py:286-294 | a list request that queries before any write and stores after its drop makes answers ignore the write for five seconds |
| ListRuns.OpeningIsNotFenced | mailapp/routers/mail.py:315-316 | a list asked between the two statements of opening a mail is kept and counts that mail as unread for five seconds |

## Left out

- MailAttachments.AttachmentsRoundTrip: stated for a printed boundary such as the code draws, attachment names, types, digests and URLs that are single lines (a URL without white space and quotes, an inline type without `;` and not the URL one), and content in which the boundary searched for does not occur; a random boundary makes the last likely, nothing in the code checks it.
- Timing.NeverEarly: only `enqueue` has two clock readings; every other statement reads the clock at the instant it takes effect, so waiting for the database lock between the reading and the write is not modelled there.
- Timing.NeverLate: the wall clock and the monotonic clock are one clock, and the sweep at process start and the start of the timer are one instant.
- MailMessage.ParseMail: `lower()` folds ASCII letters only, which decides the searches made here the same way; header names are ASCII already.
- MailBridge.Bridge.HandlePlain: the fields of an event have the types the protocol gives them; an open mail whose content is no text, which raises, is not modelled.
- Quota.QuotaBoundIsReached: the mailbox each mail goes to is a choice of the run; that a mail's To address names it is in `Reception`, not in the protocol.
- Blossom.BlossomServer.UploadChunk: session checks, file name and type in the answer, and the metadata file beside each stored file.
- BlossomRuns.UploadToBlossom: the percentage is rounded exactly, not in floating point.
- ListCache.MailLists.Mails: the three SELECTs of one request read one state of the table; the order of mails and LIKE are parameters.
- KeyCodec.Bech32Decode: `acc | v` on disjoint bits is written as an addition, and `lower()` folds ASCII letters only, so strings with other letters that fold into the charset are not modelled.
- Nip44.PaddingCost: `math.log2` and the division are exact, as they are in floating point for lengths up to 65535.
- Nip44.RoundTrip: plaintexts are byte strings; encoding and decoding them as UTF-8 happens outside.
- Nip59.UnwrapWrap: the throwaway key, nonces and the shift of the outer timestamp are given; event ids and signatures are opaque text, since unwrapping does not look at them.
- The texts of error messages, logging and Telegram notifications.
- `mail_workers` heartbeats, the periodic owner sync of the worker, and process start-up.
- Old-version workers that overlap a migration, which the deployment guide excludes.
- WebSocket subscription, relay publishing, SQLite internals and HTTP framing.
- The IMAP bridge, whose publish path does nothing.
- The outbox list: on a cache hit its handler unpacks three values into two names and fails.
- Drafts, accounts, sessions, passwords, rate limits, audit, metrics, the command line and the rest of the front end.
- `_hex_to_bech32` and the two shadowed definitions, which no caller reaches.
