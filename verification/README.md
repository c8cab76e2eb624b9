# Crypta secure messenger: a Dafny model of its protocol and storage core

Crypta is an Android messenger with a Rust relay server. Beneath its user interface sit
small sequential state machines and text or byte formats. This project models them as pure
Dafny functions over immutable datatypes and proves what the code promises about them:

- the peer-to-peer session negotiator and message router (`P2P`), with the server message
  format it reads (`Protocol`);
- the signalling client's connect / reconnect back-off machine (`Signaling`);
- the relay server's room and client registry (`Relay`), its rate limiter, sanitiser and
  validators (`RelayChecks`), and its nonce-prefixed AES-GCM framing (`RelayCrypto`);
- the stealth mode's secret code, hidden-chat key store, info and message files
  (`Stealth`);
- the encrypted-file metadata format, listing and deletion (`Files`);
- the panic shake counter, emergency trigger and contact serialiser (`Emergency`);
- the call manager's flags and media frame encryption (`Calls`);
- the lock screen's PIN pad and the app's locked flag and current screen (`LockScreen`);
- the stand-alone X25519 / HKDF / AES-GCM handshake demo (`HandshakeDemo`).

Shared building blocks:

- `Crypto`: AES-GCM, X25519, HKDF-SHA256, SHA-256, Base64 and UTF-8 as uninterpreted fields of
  a `Primitives` value. Proofs assume only what the code relies on, through the ghost predicate
  `Crypto.Sound`:
  - opening inverts sealing under the same key and 96-bit IV (NIST SP 800-38D, section 5.2.1.1);
  - the X25519 shared secret is commutative (section 6.1 of RFC 7748);
  - HKDF yields the requested length (section 2 of RFC 5869);
  - Base64 (section 4 of RFC 4648) and UTF-8 decoding invert encoding.
- `JsonLines`: the hand-written line-based JSON layout and the `extractJsonValue` reader used
  by the stealth and file managers. The reader is a parameter: `AsWritten` is the code as it
  stands, `Corrected` the evident intent (see Findings).
- `Text` and `Decimal`: Kotlin and Rust string and number library behaviour.
- `Sorting`: the stable `sortBy` / `sortByDescending`.

Randomness (IVs, key pairs, UUIDs), clocks, network availability, the outcome of socket and
file operations, and permission checks are explicit inputs. Every handler is one atomic
transition on immutable state.

## Model

| member | source | states |
|---|---|---|
| P2P.Initial | CryptaP2PMessagingManager.kt:80-106 | after `initialize` the four peer maps (pending, keys, connections, queues) are empty |
| P2P.SortedPair | CryptaP2PMessagingManager.kt:590-602 | the two user ids are put in ascending order, whichever order they came in |
| P2P.SortedPairSymmetric | CryptaP2PMessagingManager.kt:590-602 | sorting (a, b) and (b, a) gives the same pair |
| P2P.ConversationKeySymmetric | CryptaP2PMessagingManager.kt:590-602 | for a fixed shared secret both peers derive the same conversation key, whoever calls themselves the first user |
| P2P.DeriveConversationKey | CryptaP2PMessagingManager.kt:590-602 | the conversation key is 32 bytes |
| P2P.EncryptMessage | CryptaP2PMessagingManager.kt:604-627 | when encryption fails the plaintext is sent unchanged |
| P2P.DecryptMessage | CryptaP2PMessagingManager.kt:629-652 | content that is not Base64 or is shorter than an IV yields the fixed placeholder text |
| P2P.MessageRoundTrip | CryptaP2PMessagingManager.kt:604-652 | under a 32-byte key and a 12-byte IV, the Base64 frame of IV and GCM output decrypts to the original text |
| P2P.FindAvailablePort | CryptaP2PMessagingManager.kt:654-664 | the result is the lowest bindable port in 9000..9100, and there is none exactly when no port in the range can be bound |
| P2P.FirstFreePort | CryptaP2PMessagingManager.kt:655-662 | the scan from a port returns the first bindable one at or after it, or nothing when none is left |
| P2P.StartConversation | CryptaP2PMessagingManager.kt:203-243 | succeeds exactly when connected to the server and the request is sent; a failure changes nothing; success sends one request carrying the fresh public key and records a pending handshake as initiator |
| P2P.PeerPublicKey | CryptaP2PMessagingManager.kt:246-252 | a handshake's peer key is present only when the message carries a `publicKey` text, and decodes to 32 bytes |
| P2P.HandleConnectionRequest | CryptaP2PMessagingManager.kt:245-284 | a request without sender or usable key changes nothing; only the sender's key may change; pending handshakes, connections and queues are untouched; a response goes out only when a port was found and sending worked |
| P2P.HandleConnectionResponse | CryptaP2PMessagingManager.kt:286-328 | a refusal drops the pending handshake; an acceptance without pending entry or with a missing or non-integer port changes nothing; connections and queues are untouched; a follow-up request implies the pending entry was removed |
| P2P.EstablishConnection | CryptaP2PMessagingManager.kt:340-369 | with the read loop started alongside (the corrected order), a successful dial records an initiator connection to the peer and reports it established; a failed one only reports the failure |
| P2P.HandlePeerInfo | CryptaP2PMessagingManager.kt:330-338 | a message missing the address or port, or with a non-integer port, changes nothing; keys, queues and handshakes are untouched |
| P2P.HandleServerMessage | CryptaP2PMessagingManager.kt:177-201 | the three handshake types reach their handlers and every other type changes nothing |
| P2P.AcceptConnection | CryptaP2PMessagingManager.kt:397-430 | with the read loop started alongside (the corrected order), an incoming socket whose handshake names a peer is stored as a non-initiator connection to that peer and reported established; otherwise nothing changes |
| P2P.EstablishConnectionAsWritten | CryptaP2PMessagingManager.kt:340-369 | as written, the read loop runs to its end inside the call: a successful dial leaves no connection to the peer, queues nothing (the message processor is not running yet) and reports `ConnectionLost` before `ConnectionEstablished`; a failed dial is as in the corrected order |
| P2P.AcceptConnectionAsWritten | CryptaP2PMessagingManager.kt:397-430 | as written, an accepted connection is likewise gone, and reported lost, before it is reported established, and the lines it carried reach no queue |
| P2P.RunReaderAsWritten | CryptaP2PMessagingManager.kt:477-515 | as written, with the processor not started, a read loop drops the connection and reports only `ConnectionLost`, and keys, handshakes and queues are as before |
| P2P.ReceiveAllUnstarted | CryptaP2PMessagingManager.kt:477-534 | with the processor not started, reading any run of lines leaves keys, handshakes, queues and the set of connections as they were |
| P2P.DialledConnectionLost | CryptaP2PMessagingManager.kt:340-369 | as written, after a successful dial a message to the peer is refused even with the conversation key in place |
| P2P.DialledConnectionUsable | CryptaP2PMessagingManager.kt:340-369 | in the corrected order, after a successful dial a message to a peer with a key is sent, and no loss is reported |
| P2P.SendMessage | CryptaP2PMessagingManager.kt:432-475 | succeeds exactly when a connection and a key exist for the target and the write works; a failure changes nothing; success writes one encrypted message from the current user to the target and refreshes that connection's activity time |
| P2P.Delivered | CryptaP2PMessagingManager.kt:489-497 | a message flagged encrypted from a sender with a key is delivered decrypted and marked plain; any other message is delivered as it arrived |
| P2P.GetMessages | CryptaP2PMessagingManager.kt:682-685 | a peer without a queue has no messages |
| P2P.ReceiveFrame | CryptaP2PMessagingManager.kt:477-534 | with the message processor running (the corrected start-up), an unreadable line changes nothing; a message line appends the delivered copy to the sender's queue; keys and handshakes never change |
| P2P.ReceiveAllQueues | CryptaP2PMessagingManager.kt:518-534 | with the processor running, the read loop keeps the keys, and each queue grows by the delivered messages of its sender in arrival order |
| P2P.RunReader | CryptaP2PMessagingManager.kt:477-515 | with the message processor running, a read loop that reaches end of stream leaves every queue grown by its sender's delivered lines, then drops the connection and reports only `ConnectionLost`; keys and handshakes are kept |
| P2P.DialledConnectionLifecycle | CryptaP2PMessagingManager.kt:340-369 | in the corrected order a dialled connection is reported established, its lines are queued, and it is then reported lost |
| P2P.ProcessorStartsAsWritten | CryptaP2PMessagingManager.kt:105-122 | as written, `initialize` starts the message processor only when the server session has returned and no port of 9000..9100 is free |
| P2P.ReceiveFrameAsWritten | CryptaP2PMessagingManager.kt:477-534 | as written, a line reaches the queues exactly as in `ReceiveFrame` when the processor was started, and never otherwise |
| P2P.MessagesNeverQueued | CryptaP2PMessagingManager.kt:105-122 | as written, whenever a listening port is free, no sequence of lines changes what `getMessages` returns |
| P2P.SentMessageNeverArrives | CryptaP2PMessagingManager.kt:105-122 | as written, the message of `MessageArrivesDecrypted` leaves the receiver's queue unchanged, one short of the corrected reader's |
| P2P.CloseConnection | CryptaP2PMessagingManager.kt:508-512 | when the read loop ends the connection is dropped and reported lost, nothing else changes |
| P2P.DisconnectFromUser | CryptaP2PMessagingManager.kt:666-680 | the peer's connection is removed; its key and queue are removed too unless closing its socket throws, in which case both are kept; a pending handshake and every other peer's entries are kept |
| P2P.HandshakeAgreesOnKey | CryptaP2PMessagingManager.kt:203-328 | after request and accepting response, initiator and responder hold the same 32-byte conversation key for each other |
| P2P.RequestCarriesKey | CryptaP2PMessagingManager.kt:214-222 | the request names its sender and carries the initiator's public key, which decodes back |
| P2P.ResponseCarriesKey | CryptaP2PMessagingManager.kt:262-271 | the response carries the responder's public key and a port text that parses back to the port |
| P2P.RequestAnswered | CryptaP2PMessagingManager.kt:245-284 | a request with a usable key is answered and the derived key stored under the sender |
| P2P.ResponseCompletes | CryptaP2PMessagingManager.kt:300-320 | an accepting response to a pending handshake stores the key and clears the handshake |
| P2P.MessageArrivesDecrypted | CryptaP2PMessagingManager.kt:432-534 | with the processor running, a message sent over a connection whose ends share a key is queued at the receiver with its original text and marked plain |
| P2P.TransitionsKeepKeysWellFormed | CryptaP2PMessagingManager.kt:245-328 | every transition keeps all stored conversation keys 32 bytes long |
| Protocol.DataString | CryptaP2PMessagingManager.kt:247 | a data field is read only when it is present and a string |
| Signaling.Connect | CryptaServerConfig.kt:94-161 | the first attempt decides the result: no network reports `NoInternet`, no session reports nothing, both without a reconnect; a session sends REGISTER when that send works (`sendMessage` swallows a failure), reports `Connected` either way and succeeds with the counter at 0; an exception reports `Failed` with its message or the default and then reconnects, and the call fails; with no attempt left it fails silently; the counter stays within 0..5 and the user id is recorded |
| Signaling.ConnectFirstAttempt | CryptaServerConfig.kt:94-161 | `connect` makes exactly the attempt of `ConnectOnce`, and only an exception runs the reconnect loop after it |
| Signaling.ScheduleReconnect | CryptaServerConfig.kt:288-307 | the counter never exceeds 5; at the limit the only effect is `PermanentFailure` |
| Signaling.QuietFailuresBackOff | CryptaServerConfig.kt:288-307 | when every attempt fails quietly, attempts k+1..5 are announced with `Reconnecting(k)` and a wait of 5000·k ms each, then `PermanentFailure`, and the counter ends at 5 |
| Signaling.HandleDisconnection | CryptaServerConfig.kt:279-286 | `Disconnected` is reported, then exactly the reconnect loop runs on the link with its connected flag cleared |
| Signaling.DisconnectionStaysDown | CryptaServerConfig.kt:279-307 | when no attempt opens a session, however the attempts fail, the client stays down and the reconnect fails |
| Signaling.ScheduleStaysDown | CryptaServerConfig.kt:288-307 | from a down link, a reconnect loop in which no attempt opens a session fails, leaves the link down and consumes only failing attempts |
| Signaling.ConnectStaysDown | CryptaServerConfig.kt:94-161 | a connect whose attempts never open a session fails and leaves the link down, however many reconnects it schedules |
| Signaling.SendMessage | CryptaServerConfig.kt:259-277 | a message is sent exactly when the link is up and the send works |
| Signaling.Disconnect | CryptaServerConfig.kt:324-347 | afterwards the client is not connected and reports `Disconnected` if closing worked |
| Signaling.DisconnectNeverUnregisters | CryptaServerConfig.kt:324-341 | the disconnect as written never sends `UNREGISTER`, in any state |
| Signaling.DisconnectFixed | CryptaServerConfig.kt:324-341 | with the send first, a connected client's disconnect starts with `UNREGISTER` |
| Signaling.NestedConnectSucceeds | CryptaServerConfig.kt:151-158 | an exception inside a reconnect runs a nested reconnect that may connect |
| Signaling.ReconnectsAfterConnected | CryptaServerConfig.kt:151-158 | as written, a link that reconnected inside a nested reconnect is reconnected again by the outer one |
| Signaling.OuterReconnectRepeats | CryptaServerConfig.kt:297-301 | the outer reconnect runs a further attempt after the nested one reported success |
| Signaling.ConnectOnce | CryptaServerConfig.kt:94-161 | one attempt succeeds exactly when it opens a session, then reports `Connected` (after REGISTER when that send works) and resets the counter |
| Signaling.ScheduleReconnectFixed | CryptaServerConfig.kt:288-307 | the reconnect loop alone retries: `Connected` is reported at most once and last, success iff `Connected`, and `PermanentFailure` ends the run |
| Signaling.HandleDisconnectionFixed | CryptaServerConfig.kt:279-286 | over the corrected loop, `Disconnected` comes first and `Connected` at most once and last |
| Relay.Register | Server.rs:212-248 | a request without username or key changes nothing; with both, the client is stored as registered and authenticated, or refused for a key that does not decode |
| Relay.CreateRoom | Server.rs:322-356 | only an authenticated client creates a room; it holds just the creator, no messages, and replaces any room of that id |
| Relay.JoinRoom | Server.rs:358-389 | an authenticated client joins an existing room once, at the end, and is not added twice |
| Relay.Connected | Server.rs:299-313 | the broadcast targets are exactly the members that are connected clients, without duplicates |
| Relay.ConnectedAll | Server.rs:299-313 | in a valid registry every member is connected, so the broadcast reaches all of them |
| Relay.SendMessage | Server.rs:272-320 | a message is stored only for an authenticated client with room id and content in an existing room, appended at the end |
| Relay.GetMessages | Server.rs:391-426 | the registry is unchanged; only a member of an existing room gets its messages, in stored order |
| Relay.Without | Server.rs:431 | removing a member keeps every other member and no duplicates |
| Relay.CleanupClient | Server.rs:428-436 | the client leaves the registry and every room, and every other member stays |
| Relay.HandleMessage | Server.rs:190-210 | given a parsed request and working sends, only registration can fail; an unknown request type changes nothing |
| Relay.HandleMessageKeepsValid | Server.rs:190-436 | every request keeps the registry valid: rooms under their own id, members registered and listed once |
| Relay.EmptyValid | Server.rs:133-143 | the server starts with no clients and no rooms, a valid registry |
| Relay.RegisterKeepsValid | Server.rs:212-248 | registration keeps the registry valid |
| Relay.CreateRoomKeepsValid | Server.rs:333-342 | creating a room keeps the registry valid |
| Relay.JoinRoomKeepsValid | Server.rs:370-373 | joining keeps member lists free of duplicates |
| Relay.SendMessageKeepsValid | Server.rs:277-315 | posting keeps the registry valid |
| Relay.CleanupKeepsValid | Server.rs:428-436 | cleanup keeps every member a registered client |
| Relay.PostReachesEveryMember | Server.rs:277-315 | in a valid registry a post is forwarded to each room member exactly once, in member order |
| Relay.OutsiderCanPost | Server.rs:277-315 | posting does not require membership: a non-member's post is stored and is not echoed back to them |
| Relay.CleanupRevokesAccess | Server.rs:428-436 | after cleanup no room lists the client and its history requests get nothing |
| RelayChecks.WholeSeconds | Server.rs:699 | a millisecond duration becomes whole seconds truncated toward zero |
| RelayChecks.CheckRateLimit | Server.rs:691-713 | other users' windows are untouched; within 60 s the count grows by one even when refused; otherwise a new window opens; allowed iff the count is at most 60 |
| RelayChecks.CheckAll | Server.rs:691-713 | a series of calls gets one answer per call |
| RelayChecks.CheckAllInWindow | Server.rs:691-713 | within one window the i-th further call is allowed iff the count so far plus i + 1 is at most 60 |
| RelayChecks.FirstSixtyAllowed | Server.rs:691-713 | a user's calls within 60 s of the first: the first 60 are allowed and every later one refused |
| RelayChecks.SixtyFirstRefused | Server.rs:791-803 | sixty calls at the same instant are allowed and the sixty-first is refused |
| RelayChecks.DropControls | Server.rs:716-724 | only characters the sanitiser keeps remain; clean text is unchanged |
| RelayChecks.DropControlsAppend | Server.rs:716-724 | dropping control characters works piecewise over a concatenation |
| RelayChecks.Sanitize | Server.rs:716-724 | sanitised text neither starts nor ends with white space |
| RelayChecks.SanitizedKept | Server.rs:716-724 | sanitised text holds no control character other than line feed, carriage return and tab |
| RelayChecks.SanitizeIdempotent | Server.rs:716-724 | sanitising twice is sanitising once |
| RelayChecks.SanitizeIgnoresControl | Server.rs:805-811 | a removable control character anywhere in the text makes no difference to the result |
| RelayChecks.SanitizeKeepsClean | Server.rs:716-724 | text without control characters and without white space at either end is returned unchanged |
| RelayChecks.ValidateMessage | Server.rs:727-745 | the message passes iff the type is non-empty, content is at most 10000 bytes and encrypted content at most 50000 bytes; each failure names the first check that failed, in the order type, content, encrypted content |
| RelayChecks.ContentLimitInCharacters | Server.rs:727-745 | the limit counts UTF-8 bytes: 2500 characters always fit, more than 10000 never do |
| RelayChecks.ValidateRequest | Server.rs:760-776 | markup in content is refused first; the request passes iff there is none and the room id is at most 100 UTF-8 bytes of alphanumerics and '-'; every other refusal is the room id error |
| RelayChecks.GeneratedRoomIdIsValid | Server.rs:333 | a room id in the UUID text form the server generates passes validation |
| RelayCrypto.EncryptData | Server.rs:532-546 | the output starts with the 12-byte nonce and the call fails exactly when sealing fails |
| RelayCrypto.DecryptData | Server.rs:548-562 | input shorter than a nonce is refused with the length error; longer input is split at 12 and opened |
| RelayCrypto.DecryptEncryptedData | Server.rs:637-647 | under a 32-byte key, encryption succeeds with nonce, ciphertext and tag, and decryption returns the plaintext |
| Stealth.IconName | CryptaStealthManager.kt:654 | the icon name is the text after the last '.' of the class name, or the whole name without one |
| Stealth.TemplateIconNames | CryptaStealthManager.kt:74-81 | every offered disguise installs the icon name "app" |
| Stealth.EnableStealthMode | CryptaStealthManager.kt:85-104 | stealth mode and decoy content are on, and the disguise's name, icon and the code's hash are stored |
| Stealth.DisableStealthMode | CryptaStealthManager.kt:107-125 | stealth mode is off and name, icon and code are removed |
| Stealth.VerifySecretCode | CryptaStealthManager.kt:133-140 | a code is accepted iff a non-empty hash is stored and the code hashes to it |
| Stealth.VerifyAfterEnable | CryptaStealthManager.kt:88-140 | after enabling, the enabling code is accepted, and so is exactly any code with the same hash |
| Stealth.NothingVerifiesAfterDisable | CryptaStealthManager.kt:109-140 | after disabling, no code is accepted |
| Stealth.HashNotEmpty | CryptaStealthManager.kt:143-152 | the stored hash of a code is never empty |
| Stealth.SaveTemporaryChatKey | CryptaStealthManager.kt:503-506 | the key is stored in Base64 under the chat id |
| Stealth.GetTemporaryChatKey | CryptaStealthManager.kt:509-516 | a chat without a stored key has none; otherwise the stored text is decoded |
| Stealth.TemporaryKeyRoundTrip | CryptaStealthManager.kt:503-516 | a saved key is read back, and other chats' keys are unaffected |
| Stealth.LockHiddenChat | CryptaStealthManager.kt:275-285 | only that chat's temporary key is removed; all else is unchanged |
| Stealth.ClearTemporaryKeys | CryptaStealthManager.kt:637-644 | no chat keeps a temporary key and the stored files are unchanged |
| Stealth.DeleteHiddenChat | CryptaStealthManager.kt:288-313 | deletion happens exactly when the password opens the chat's info; it removes the chat's directory and key, and a refusal changes nothing |
| Stealth.DeriveKeyFromPassword | CryptaStealthManager.kt:368-384 | the key is 32 bytes of HKDF over the password with the chat id plus the fixed suffix as salt |
| Stealth.EncryptMessage | CryptaStealthManager.kt:387-410 | the text is encrypted into framed Base64, or returned unchanged when encryption fails |
| Stealth.DecryptMessage | CryptaStealthManager.kt:413-435 | undecryptable text yields the fixed placeholder |
| Stealth.InfoOf | CryptaStealthManager.kt:478-490 | an info is read iff its three numbers parse; id, name and lock flag are taken as read |
| Stealth.ParseHiddenChatInfo | CryptaStealthManager.kt:478-490 | a parsed info's numbers lie within their JVM types |
| Stealth.InfoOfText | CryptaStealthManager.kt:478-490 | the numbers written for an info parse back to themselves |
| Stealth.ParseInfoLayout | CryptaStealthManager.kt:438-500 | the written info parses back: the corrected reader gives the info itself, the as-written one keeps quotes around the id and the name |
| Stealth.SaveHiddenChatInfo | CryptaStealthManager.kt:438-458 | the info is written under the directory named by its own id, and nothing is written when that directory does not exist |
| Stealth.LoadHiddenChatInfo | CryptaStealthManager.kt:461-475 | a chat without an info file has no info |
| Stealth.LoadSavedInfo | CryptaStealthManager.kt:438-475 | info saved under a 32-byte key loads back as the reader returns its layout |
| Stealth.CreateHiddenChat | CryptaStealthManager.kt:209-242 | the new chat's directory and temporary key exist and no message files change |
| Stealth.CreatedChat | CryptaStealthManager.kt:209-242 | a created chat has its info file and its key |
| Stealth.CreatedChatReads | CryptaStealthManager.kt:209-242 | a new chat's info reads back with zero messages, with either reader |
| Stealth.UnlockHiddenChat | CryptaStealthManager.kt:245-272 | unlocking succeeds iff the info loads with the derived key, and then stores that key |
| Stealth.UnlockAfterCreate | CryptaStealthManager.kt:209-272 | the creating password unlocks the chat, with either reader |
| Stealth.Touched | CryptaStealthManager.kt:607-620 | one more message: count up by one with 32-bit wrap-around, activity time set, id, name, creation time and lock flag unchanged |
| Stealth.UpdateHiddenChatActivity | CryptaStealthManager.kt:607-620 | only the chat's info file may change |
| Stealth.UpdateActivityPersists | CryptaStealthManager.kt:607-620 | with the corrected reader the updated info is stored and reads back with the count one higher |
| Stealth.SaveHiddenMessage | CryptaStealthManager.kt:524-549 | the message file is added under the chat, creating its directory; info and keys are unchanged |
| Stealth.AddMessageToHiddenChat | CryptaStealthManager.kt:316-348 | succeeds iff the chat has a temporary key; without one nothing is written; with one the message is stored |
| Stealth.AddMessageCountsActivity | CryptaStealthManager.kt:316-348 | with the corrected reader every added message raises the stored count by one |
| Stealth.MessageOf | CryptaStealthManager.kt:584-604 | a message is read iff its timestamp parses; id, chat id and content are taken as read |
| Stealth.ParseMessageLayout | CryptaStealthManager.kt:524-604 | the written message parses back: the corrected reader gives it with its content decrypted |
| Stealth.ParsedMessages | CryptaStealthManager.kt:559-572 | at most one message per listed file |
| Stealth.ParsedMessagesAppend | CryptaStealthManager.kt:559-572 | a file appended to the listing adds its message, if any, at the end |
| Stealth.LoadHiddenMessages | CryptaStealthManager.kt:552-581 | the parsable messages, as a permutation, in ascending timestamp order |
| Stealth.GetHiddenChatMessages | CryptaStealthManager.kt:351-365 | nothing while the chat has no key; otherwise messages in ascending timestamp order |
| Stealth.LockedChatIsClosed | CryptaStealthManager.kt:316-365 | a locked chat refuses new messages and lists none |
| Stealth.StoredMessageReads | CryptaStealthManager.kt:524-604 | a stored message file is listed, with the corrected reader, as the message with plain content |
| Stealth.AddedMessageIsListed | CryptaStealthManager.kt:316-365 | a message added to an unlocked chat is listed with its text decrypted |
| Stealth.AddMessageLosesActivity | CryptaStealthManager.kt:607-620 | as written, the activity update is never stored: the info keeps its message count |
| Files.EncryptString | CryptaFileManager.kt:409-434 | without a master key or on failure the text is returned; otherwise Base64 of IV and GCM output |
| Files.DecryptString | CryptaFileManager.kt:437-461 | without a master key or on failure the text is returned |
| Files.DecryptEncryptedString | CryptaFileManager.kt:409-461 | decryption inverts encryption, with or without a 32-byte master key |
| Files.MetadataOf | CryptaFileManager.kt:364-396 | metadata is read iff all four numbers parse; the six text fields are taken as read and the four numbers are their parsed values |
| Files.MetadataOfText | CryptaFileManager.kt:373-376 | the four numbers written round-trip unchanged |
| Files.ParseMetadataLayout | CryptaFileManager.kt:324-396 | the written metadata parses back: the corrected reader gives it unchanged; the as-written one quotes every string field but the checksum |
| Files.SaveEncryptedMetadata | CryptaFileManager.kt:322-346 | without a master key the layout is written in the clear |
| Files.LoadSavedMetadata | CryptaFileManager.kt:322-361 | saved metadata loads back as the reader returns its layout |
| Files.Collect | CryptaFileManager.kt:284-294 | at most one result per listing entry |
| Files.CollectAppend | CryptaFileManager.kt:284-294 | an appended entry adds its result at the end |
| Files.LoadedMetadata | CryptaFileManager.kt:284-294 | at most one metadata per listing entry |
| Files.LoadedMetadataAppend | CryptaFileManager.kt:284-294 | an appended entry adds its metadata, if it loads, at the end |
| Files.GetEncryptedFiles | CryptaFileManager.kt:280-303 | the metadata that loads, as a permutation, most recently modified first |
| Files.SavedEntryLoads | CryptaFileManager.kt:284-294 | the entry written for metadata loads on its own |
| Files.SavedMetadataIsListed | CryptaFileManager.kt:280-346 | saved metadata is listed, as the reader returns it |
| Files.Without | CryptaFileManager.kt:311-314 | the entries of that name are gone and every other entry stays |
| Files.DeleteEncryptedFile | CryptaFileManager.kt:306-319 | true iff each of the data and metadata files is absent or deleted |
| Files.GetFileExtension | CryptaFileManager.kt:485-487 | the text after the last '.', or "" when there is none |
| Files.GetFileIcon | CryptaFileManager.kt:525-534 | image/, video/, audio/, text/ prefixes in that priority, then "pdf" anywhere, else the generic icon |
| Emergency.TriggerEmergencyMode | CryptaEmergencyManager.kt:221-239 | emergency mode is active afterwards, and the procedures launch iff it was not active |
| Emergency.TriggerIdempotent | CryptaEmergencyManager.kt:221-224 | triggering twice is triggering once, and the second time launches nothing |
| Emergency.DetectShakeGesture | CryptaEmergencyManager.kt:190-218 | a weak motion changes nothing; a shake after more than 1000 ms restarts the count; the count rises by one and emergency triggers when it reaches 3; detection, listening and gesture are untouched |
| Emergency.OnSensorChanged | CryptaEmergencyManager.kt:179-187 | events reach the detector only while it listens |
| Emergency.ThreeQuickShakesTrigger | CryptaEmergencyManager.kt:197-216 | three shakes, each within 1000 ms of the one before, trigger emergency mode |
| Emergency.SlowShakeRestarts | CryptaEmergencyManager.kt:197-205 | a shake after a longer pause counts as the first and does not trigger |
| Emergency.ResetEmergencyMode | CryptaEmergencyManager.kt:633-646 | emergency off, count and last shake time zero, detection settings unchanged |
| Emergency.ResetRearms | CryptaEmergencyManager.kt:633-646 | after a reset three quick shakes trigger again |
| Emergency.StartPanicDetection | CryptaEmergencyManager.kt:142-177 | a running detector is unchanged; otherwise detection is on and it listens iff the gesture is shaking and there is an accelerometer |
| Emergency.StopPanicDetection | CryptaEmergencyManager.kt:157-164 | a stopped detector is unchanged; otherwise it stops listening and the count is zero |
| Emergency.StartStopIdempotent | CryptaEmergencyManager.kt:142-164 | starting and stopping are idempotent, and a stopped detector ignores shakes |
| Emergency.ContactJson | CryptaEmergencyManager.kt:608-613 | each contact is written as one braced object |
| Emergency.JoinCommaAppend | CryptaEmergencyManager.kt:606-607 | one more object is added after a comma, or alone |
| Emergency.ContactObjects | CryptaEmergencyManager.kt:606-614 | one object per contact, in list order |
| Emergency.EmergencyContactsToJson | CryptaEmergencyManager.kt:603-617 | the text is bracketed, and is "[]" exactly for the empty list |
| Emergency.ContactsToJsonAppend | CryptaEmergencyManager.kt:603-617 | an added contact's object is appended, after a comma when the list was not empty |
| Emergency.ParseEmergencyContacts | CryptaEmergencyManager.kt:620-630 | the parser returns no contacts for any text |
| Emergency.AddEmergencyContact | CryptaEmergencyManager.kt:581-585 | the contact is appended and the saved text is the new list's serialisation |
| Emergency.FirstIndex | CryptaEmergencyManager.kt:587-591 | the position of the first equal contact, or the length when there is none |
| Emergency.RemoveEmergencyContact | CryptaEmergencyManager.kt:587-591 | one occurrence is removed when present, the list is kept otherwise, and the saved text is the new list's serialisation |
| Emergency.RemoveAfterAdd | CryptaEmergencyManager.kt:581-591 | adding a contact the list did not hold and removing it restores the list |
| Emergency.LoadSettings | CryptaEmergencyManager.kt:120-139 | stored values or defaults; the gesture falls back to shaking for an index out of range; contacts are always empty |
| Emergency.SavedContactsAreLost | CryptaEmergencyManager.kt:120-139 | whatever contact list was saved, loading yields none |
| Calls.SetupEncryption | CryptaCallsManager.kt:114-141 | flags unchanged; an all-zero agreement leaves no key; otherwise the key is 32 bytes of HKDF with no salt over the shared secret |
| Calls.SetupEncryptionSymmetric | CryptaCallsManager.kt:114-141 | either party's scalar gives the same key |
| Calls.EncryptAudioData | CryptaCallsManager.kt:145-168 | without a key or on failure the frame passes through; otherwise it is the IV followed by the GCM output |
| Calls.DecryptAudioData | CryptaCallsManager.kt:172-191 | without a key, for input shorter than 12 bytes, or on failure the frame passes through; otherwise the bytes after 12 are opened with the first 12 as IV |
| Calls.DecryptEncryptedAudio | CryptaCallsManager.kt:145-191 | a frame encrypted with a 32-byte key is 28 bytes longer and decrypts back |
| Calls.ToggleMicrophone | CryptaCallsManager.kt:373-377 | the audio flag flips, the new value is returned, nothing else changes |
| Calls.ToggleCamera | CryptaCallsManager.kt:380-384 | the video flag flips, the new value is returned, nothing else changes |
| Calls.ToggleTwice | CryptaCallsManager.kt:373-384 | toggling twice restores the manager |
| Calls.StartCall | CryptaCallsManager.kt:195-250 | without permission or on a setup failure nothing changes; otherwise the call is active and video is on iff it is a video call |
| Calls.EndCall | CryptaCallsManager.kt:392-414 | once the media and connection are released, active, video and audio are all off; a release that throws leaves the flags as they were; the key is kept either way |
| Calls.GetCallState | CryptaCallsManager.kt:432-439 | the state mirrors the flags and is encrypted iff a key exists |
| Calls.StartThenEnd | CryptaCallsManager.kt:195-439 | a started and ended call reports inactive with media off |
| Calls.InitializedCallRoundTrip | CryptaCallsManager.kt:82-191 | after key setup, frames of any started call round-trip |
| LockScreen.Dispatch | CryptaTheme.kt:320-344 | the empty label has no handler, "⌫" deletes, any other label is a number |
| LockScreen.PadNumbersAreDigits | CryptaTheme.kt:317-344 | every label the pad sends to the number handler is one digit |
| LockScreen.OnNumberClick | CryptaTheme.kt:291-303 | a full PIN ignores input; below four a digit is appended; at four the default PIN unlocks, any other clears the PIN and starts the shake |
| LockScreen.OnDelete | CryptaTheme.kt:305-309 | the last character is removed, and an empty PIN is unchanged |
| LockScreen.ShakeEnded | CryptaTheme.kt:194-204 | the shake flag is cleared and the PIN kept |
| LockScreen.ShownOf | CryptaTheme.kt:100-130 | while locked only the lock screen is shown |
| LockScreen.Step | CryptaTheme.kt:75-131 | pad keys act only while locked; locking happens only from settings and starts a fresh entry; unlocking happens only on the default PIN and goes home |
| LockScreen.StepKeepsGood | CryptaTheme.kt:291-344 | while locked the PIN is always shorter than four and all digits |
| LockScreen.UnlockExactly | CryptaTheme.kt:291-303 | the app unlocks exactly when the typed PIN completes "1234", always to home |
| LockScreen.TypingDefaultPinUnlocks | CryptaTheme.kt:100-106 | typing 1, 2, 3, 4 on a fresh lock screen unlocks to home |
| LockScreen.WrongPinShakes | CryptaTheme.kt:298-301 | a wrong fourth digit keeps the app locked, clears the PIN and starts the shake |
| HandshakeDemo.Pack | Encryption.java:85-87 | the package is the IV followed by the ciphertext, of their summed length |
| HandshakeDemo.Unpack | Encryption.java:92-96 | a package shorter than 12 bytes is refused; otherwise its first 12 bytes and the rest |
| HandshakeDemo.UnpackPack | Encryption.java:85-96 | unpacking recovers exactly the packed IV and ciphertext |
| HandshakeDemo.PlaintextOf | Encryption.java:77-78 | an empty field is replaced by "Hello from Alice!", any other is kept |
| HandshakeDemo.SessionKey | Encryption.java:66-71 | the session key is 32 bytes |
| HandshakeDemo.RunDemo | Encryption.java:40-110 | an all-zero agreement or differing secrets stop the demo; on success the key and package shown are the HKDF key and the packed ciphertext |
| HandshakeDemo.DemoRoundTrip | Encryption.java:40-110 | with sound primitives the demo fails only on an all-zero agreement and otherwise decrypts what was typed |
| JsonLines.ExtractJsonValue | CryptaFileManager.kt:399-406 | the as-written reader: no line with the key is an error; otherwise the text after the first colon, trimmed, quotes removed, then a trailing comma removed |
| JsonLines.ExtractJsonValueFixed | CryptaFileManager.kt:399-406 | the corrected reader removes the trailing comma first and then the quotes |
| JsonLines.ExtractMember | CryptaFileManager.kt:324-406 | every member of a written layout is found; the corrected reader returns its value, the as-written one its value as the quote rule leaves it |
| JsonLines.AsWrittenQuoted | CryptaStealthManager.kt:493-500 | the as-written reader returns a comma-terminated string field still in quotes |
| JsonLines.AsWrittenPlain | CryptaStealthManager.kt:493-500 | unquoted values come back unchanged from both readers |
| Crypto.AgreeSymmetric | CryptaP2PMessagingManager.kt:579-588 | both parties obtain the same shared secret, and one fails exactly when the other does |
| Crypto.DecodeEncodedPublicKey | CryptaP2PMessagingManager.kt:297-301 | a public key sent as Base64 text arrives as the same key |
| Crypto.DecryptEncryptedText | CryptaP2PMessagingManager.kt:604-652 | text encrypted under a 32-byte key decrypts to itself |
| Decimal.ParseIntToString | CryptaFileManager.kt:373-376 | a number written in decimal parses back to itself when it is in range |
| Decimal.ToBooleanOfString | CryptaStealthManager.kt:488 | a boolean written as text reads back as itself |
| Sorting.SortBy | CryptaStealthManager.kt:574 | ascending order by key, as a permutation of the input, stable: the elements of each key keep their input order |
| Sorting.InsertWithKey | CryptaStealthManager.kt:574 | inserting puts the new element in front of the elements of its own key and moves no other key's elements relative to each other |
| Sorting.SortByDescending | CryptaFileManager.kt:296 | descending order by key, as a permutation of the input, stable for each key |
| Text.LinesOfJoin | CryptaFileManager.kt:366 | splitting lines joined by line feeds gives the lines back when none holds a break |

## Left out

- Sockets, WebSocket sessions, coroutines, channels and concurrent maps: each handler is one atomic transition, and concurrent interleavings are not modelled.
- The Compose user interface, Activities, notifications, vibration, WebRTC peer connections, tracks and capturers.
- Streaming file encryption and decryption, `calculateChecksum`, `initializeMasterKey` and `cleanupTempFiles`: these are file and keystore I/O.
- File reads, writes and secure overwrites: a directory is a sequence of entries or a map of texts, and each I/O outcome is an input.
- The emergency side effects: alerts by SMS, email, webhook and Telegram, location, and secure data deletion. `triggerEmergencyMode` reports only whether it would launch them.
- Stealth `getAvailableHiddenChats` (a directory listing), `changeAppIcon` and `restoreOriginalIcon` (package manager calls), and all date formatting.
- Server.rs `handle_authenticate` (an unconditional success), `process_attachment`, session tokens, HMAC, Ed25519, Argon2 and `derive_key`.
- CryptaThemeManager.kt and CryptaContextualMessagesManager.kt are not part of this model.
- Calls `switchCamera` and `cleanup`.
- Calls.SetupEncryption: the peer key is a second locally generated key pair, as in the code; no key exchange with the other party is modelled.
- Crypto.Sound: cryptographic strength is not modelled. Only the algebraic facts the code relies on are assumed.
- Decimal.ParseInteger: only ASCII digits are accepted, while the JVM also accepts other Unicode decimal digits.
- Text.LessOrEqual: strings compare by code point, while the JVM compares UTF-16 units; the two differ only above the Basic Multilingual Plane.
- RelayChecks.ValidateRequest: Rust's Unicode `is_alphanumeric` table is a parameter rather than a definition.
- RelayChecks.SanitizeIgnoresControl: the unit test's literal example is covered by this general lemma rather than stated as a concrete value.
- Emergency.LoadSettings: the declaration of the panic gesture enumeration is not part of this model, so the order of its constants is a parameter.
- HandshakeDemo.RunDemo: exception messages of the cryptographic library are not modelled; only the guard's own message is.
- Relay.HandleMessage: JSON parse errors of the request and failed sends to a client are not modelled; each handler is given a parsed request and every send succeeds.
- RelayCrypto.EncryptData: a key that is not 32 bytes long makes `Key::from_slice` panic; the contract requires a 32-byte key and does not model the panic.
- RelayCrypto.DecryptData: a key that is not 32 bytes long makes `Key::from_slice` panic; the contract requires a 32-byte key and does not model the panic.
- Stealth.SaveHiddenMessage: a chat's message directory is the list of files in write order, so a second message with an id already present adds a second file where `writeText` would overwrite the first; the only caller names every message with a fresh random UUID, an input here.
- Signaling.Connect: the attempt outcomes are a finite script, so a run that would retry forever ends when the script is exhausted; the heartbeat and the message listener are left out.

## Findings

| source | as written | input that shows it | evidently intended | confidence | as-written member | corrected member |
|---|---|---|---|---|---|---|
| CryptaFileManager.kt:399-406 | quotes are removed before the trailing comma, so a comma-terminated string value keeps its quotes | the line `"id": "abc",` reads back as `"abc"` with quotes | strip the comma, then the quotes, so that every string field reads back as written | not executed | JsonLines.AsWrittenQuoted | JsonLines.ExtractJsonValueFixed |
| CryptaServerConfig.kt:151-158 | the exception path of `connect` calls `scheduleReconnect` itself and then returns false, so the enclosing reconnect schedules again | a disconnection followed by the attempts [exception, session, session]: the link connects and is then reconnected a second time | only the reconnect loop decides on another attempt | not executed | Signaling.ReconnectsAfterConnected | Signaling.ScheduleReconnectFixed |
| CryptaServerConfig.kt:324-341 | the connected flag is cleared before `UNREGISTER` is sent, and `sendMessage` refuses while not connected | any disconnect of a connected client: no `UNREGISTER` is sent | send `UNREGISTER` while still connected, then mark the link down | not executed | Signaling.DisconnectNeverUnregisters | Signaling.DisconnectFixed |
| CryptaStealthManager.kt:607-620 | the info read back carries its id in quotes, so the updated info is written under a directory that does not exist and the failure is swallowed | create a chat, then add a message: the stored message count stays 0 | the activity update is stored under the chat's own directory | not executed | Stealth.AddMessageLosesActivity | Stealth.AddMessageCountsActivity |
| CryptaP2PMessagingManager.kt:340-369 | `startP2PMessageHandler` runs the read loop inside `withContext`, so `establishP2PConnection` waits for the peer's stream to end; the loop's `finally` removes the connection and reports it lost, and only then is the handshake written and the connection reported established | any successful dial: the events are `ConnectionLost` then `ConnectionEstablished`, and a following `sendMessage` to the peer is refused | start the read loop in its own coroutine, then send the handshake and report the connection established while it is open | not executed | P2P.DialledConnectionLost | P2P.DialledConnectionUsable |
| CryptaP2PMessagingManager.kt:397-430 | the accepting side also runs the read loop to its end before answering the handshake and reporting the connection; since the dialling side writes its handshake only after its own loop ends, the first line the acceptor reads as a handshake is not one | any accepted connection whose handshake names a peer: the events are `ConnectionLost` then `ConnectionEstablished` and no connection remains | start the read loop in its own coroutine before answering | not executed | P2P.AcceptConnectionAsWritten | P2P.AcceptConnection |
| CryptaP2PMessagingManager.kt:105-122 | `initialize` calls `startMessageProcessor` last, after `connectToServer` (which returns only when the server session ends) and `startP2PListener` (which accepts forever once a port is open), so the channel the readers fill is never drained | a free port in 9000..9100 and any message received: `getMessages` for the sender stays as it was | start the message processor before the calls that block | not executed | P2P.SentMessageNeverArrives | P2P.MessageArrivesDecrypted |
