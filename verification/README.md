# Verified model of the proxy gateway

This project states, in Dafny, what the gateway's programs do and proves properties of them for all inputs, all
interleavings and all combinations of failing steps. `dafny verify dfyconfig.toml` checks everything.

It covers six components.

- **QUIC Initial packets** (`Varint`, `ClientHello`, `Frames`, `FrameWriter`, `Hkdf`, `Initial`, `Sealed`, on `Bytes`,
  `Bits`, `Vectors`). The parsers are methods that advance an offset, each proved equal to a reader of byte suffixes;
  for each format there is a writer, and the theorems say that reading inverts writing. AES, HMAC and the AEAD are an
  abstract `Suite` with the laws "open undoes seal" and fixed output lengths; `LawsHaveModel` and `BindsHasModel` show
  that what is assumed of it is consistent.
- **QUIC sessions** (`Sessions`, `Removals`, `Datagrams`, `SessionManager`). The receive loop, the new-session handlers,
  the relays and the idle collector are one step system, cut at every lock operation. An invariant of every step gives
  the theorems about every interleaving; `Removals` adds history variables that tell for which connection or scan a
  removal is meant, `Datagrams` a log of where every datagram is.
  The class `Manager` holds the map and has one method for each locked section, tied to the steps.
- **DNS race proxy** (`DnsMessage`, `DnsQuestions`, `DnsTcp`, `DnsRace`). The SERVFAIL builder and the TCP request loop
  are methods; the three-stage race is a timed step system whose theorem about returned responses is what the TCP loop
  relies on (`RacesAreLawful`).
- **Management script** (`PolicyLines`, `SmartState`, `SmartStore`, `ExitRules`, `ExitSwitch`, `ExitGateway`). Every step
  of a command is an outcome that may be success or failure. The specification functions give the state a command
  leaves for every combination of outcomes; classes with the same steps are proved to meet them.
- **Rules** (`Text`, `RuleText`, `RuleImport`, `Router`, `ImportedRules`, `PolicyMap`, `GroupMap`, `PolicyCommands`).
  Conversion of a client's list, compilation for the router, the policy map and its edits, down to characters. A line of
  a list is read as a `Source` in the spelling it has; every list whose conversion does not end in an error has such a
  reading (`ListReadsIff`). Requests are abstract: a matcher is any function of matcher name, value and request.
- **DNS lists** (`ChinaList`, `GfwExtras`, `ListUpdate`). Chunk files and their loader, the extra domains, and the
  backup and rollback of an update.

Where the code does not do what its comments or the standards suggest, the model follows the code, a lemma shows the
deviation, and the condition under which the expected behaviour holds is proved exact where it has one:

- The header mask is 0x1f instead of the 0x0f that section 5.4.1 of RFC 9001 gives for long headers: the associated data
  is right iff bit 0x10 of the mask is clear (`AadExactIff`).
- The truncated packet number enters the nonce: the nonce is right iff the number fits its encoded length
  (`NonceExactIff`).
- The CRYPTO length is checked before the length field is skipped, so the slice can run past the end, which ends the
  Go program (`PanicsIff`, `ShortCryptoPanics`; for whole packets `PacketPanicsIff`, `ShortPacketPanics`).
- A packet too short to be sampled behind its number is sampled from its start instead, and nothing ever comes of it
  (`ShortPacketNotFound`).
- Frame type 0x01, PING in section 19.2 of RFC 9000, is scanned as ACK (`PingScannedAsAck`). That does no harm when at
  least four octets of PADDING follow it (`PingBeforePadding`), but right in front of a CRYPTO frame it hides the name,
  however much PADDING comes after (`PingHidesCrypto`).
- Only the first entry of a server_name list is read (`ReturnsFirstHostNameIff`).
- `removeSession` works by key, so a late caller may remove a newer, active session (`StaleRelayTakesNewerSession`). A
  relay takes its own connection iff no removal of its key happened since it registered (`RelayTakesItsOwnIff`); what
  the collector takes was idle when it scanned, or touched or registered since (`CollectorTakesIdle`).
- `regen_smart` reports success although writing the config failed (`RegenCurrentIff`); `set_policy` and `rename_policy`
  may exit between two writes without rolling back (`SetPolicyUndoneIff`, `RenamePolicyUndoneIff`); under
  `import_rules` an incomplete snapshot goes unnoticed, and the rollback works iff every file that existed has its
  marker, and a copy that is all of it or no copy and no change by the commit (`ImportUndoneIff`, `ImportMayLoseRules`).
- `set_policy` drops every line that contains the new group's `group=`, so a group whose name ends in the new one is
  lost (`OtherEntriesAfterSet`, `LongerNameIsLost`).
- A failed write of the current-exit file, a failed flush together with a failed removal of the old device, or a failed
  re-application after a reboot leaves route and file in disagreement; nothing else does (`CommandKeepsIff`). A later
  re-application or switch that reports success repairs it, but not when the flush of a used table failed, which is
  reported as a success too (`ReapplyRepairsIff`, `SwitchRepairsIff`).
- A surplus mark rule is deleted by its priority, which takes a foreign rule when that one stands first (`DeleteTakes`,
  `OneRuleIff`).
- A value or category with a comma or a comment sign (`#`, `;`) does not survive conversion (`LineReadsBackIff`), and an
  OR line without a parenthesis, in any letter case, ends the conversion with an error (`CrashesIff`,
  `ConversionCrashesIff`).
- `init_policy_map` gives `reject-drop` an entry which the router ignores (`GroupsGoThroughMap`). It takes the last
  field of a line for its policy, so behind a fourth field or a comment the policy gets no entry (`RulePolicyInMapIff`,
  `FourthFieldMisses`, `CommentMisses`), and it forgets the target of a group with `=` in its name (`KeepsTargetIff`,
  `RebuildIdempotentIff`).
- An entry of the policy map with a blank in front of its `=` outlives `del_policy` (`DelTakesEffect`). A deleted group
  is an exit of its own name for the rules that use it, not direct as the comment at install.sh:2573 has it
  (`DelPolicyRoutes`).
- `set_policy` accepts names the router cannot load (`SetTakesEffectIff`). `rename_policy` lets any sign stand beside a
  character beyond ASCII: with a comma in the new name the rules get another policy (`LineRenamedIff`,
  `CommaNameMisread`, `CommaNameMisroutes`).
- A failing backup also triggers the rollback, which then deletes the files from the one on where copying stopped
  (`FailedBackupKeepsIff`, `FailedBackupKeepsChunksIff`, `FirstCopyFailingDeletesAll`); without a chunk directory no
  update gets past its backup (`BeginsIff`, `MissingChunksFail`).

## Model

| member | source | states |
|---|---|---|
| Varint.ReadInverse | cmd/quic-proxy/quic-proxy.go:374-397 | every encoding, in every legal width, of every value below 2^62 is read back with its width, whatever follows |
| Varint.EncodeInverse | cmd/quic-proxy/quic-proxy.go:374-397 | conversely, whatever is read was an encoding of exactly that value and width |
| Varint.ReadIsBE | cmd/quic-proxy/quic-proxy.go:379-395 | the value is the big-endian number of the octets with the width bits cleared |
| ClientHello.ExtractSniFromClientHello | cmd/quic-proxy/quic-proxy.go:545-628 | on arbitrary bytes the offset parser never indexes out of range, its 16-bit additions never wrap, and it computes the suffix reader `SniOf` |
| ClientHello.FirstName | cmd/quic-proxy/quic-proxy.go:596-627 | the loop over the extension block moves forward and finds the verdict of the first server_name extension |
| ClientHello.EntryName | cmd/quic-proxy/quic-proxy.go:604-623 | the server_name branch: list length, entry type and name length, each checked against the data |
| ClientHello.ParseInvertsSerialize | cmd/quic-proxy/quic-proxy.go:545-628 | for every ClientHello (any session id, suites, compression, extensions; bare or in one record; trailing bytes) the parser returns the name in the first entry of the first server_name extension, else nothing |
| ClientHello.ReturnsFirstHostNameIff | cmd/quic-proxy/quic-proxy.go:604-623 | this is the first host_name of the first server_name extension iff no entry of another type precedes one |
| ClientHello.EarlierEntryHidesHostName | cmd/quic-proxy/quic-proxy.go:616-618 | a ClientHello whose host_name is hidden by an entry in front of it |
| ClientHello.ParseExact | cmd/quic-proxy/quic-proxy.go:545-628 | on arbitrary bytes: success with a name iff the input can be cut into the parts of a ClientHello carrying that name |
| Frames.ParseCryptoFrames | cmd/quic-proxy/quic-proxy.go:435-541 | the offset scanner terminates on every input, since the offset strictly increases, and computes `Scan` |
| Frames.DropRanges | cmd/quic-proxy/quic-proxy.go:486-497 | however large the range count, the ACK loop turns at most half as often as there are bytes left |
| Frames.DropAck | cmd/quic-proxy/quic-proxy.go:465-506 | an ACK frame is passed over exactly: four fields, the ranges, and the ECN counts of type 0x03 |
| Frames.DropStream | cmd/quic-proxy/quic-proxy.go:507-537 | a STREAM frame is passed over exactly, with or without offset and length |
| Frames.TryCrypto | cmd/quic-proxy/quic-proxy.go:448-464 | a CRYPTO frame gives a verdict (name, failure, slice out of range) or the offset behind its data |
| FrameWriter.ScanFrames | cmd/quic-proxy/quic-proxy.go:435-541 | for every list of PADDING, ACK, CRYPTO, length-carrying STREAM and PING frames with any legal varint widths, where every PING in front of the name is padded: the name of the first CRYPTO frame that yields one, else the scan of what follows |
| FrameWriter.ScanPacket | cmd/quic-proxy/quic-proxy.go:435-541 | a packet of such frames never ends in an out-of-range slice, and yields a name iff some CRYPTO frame does |
| FrameWriter.PanicsIff | cmd/quic-proxy/quic-proxy.go:454-459 | the slice is out of range iff the scan reaches a CRYPTO frame whose length fits before but not after the length field is skipped |
| FrameWriter.ShortCryptoPanics | cmd/quic-proxy/quic-proxy.go:454-459 | three octets on which the slice is out of range |
| FrameWriter.PingScannedAsAck | cmd/quic-proxy/quic-proxy.go:465 | type 0x01 is scanned like an ACK frame, for every continuation |
| FrameWriter.PingBeforePadding | cmd/quic-proxy/quic-proxy.go:465-497 | a PING with at least four octets of PADDING behind it is passed over, whatever follows |
| FrameWriter.PingHidesCrypto | cmd/quic-proxy/quic-proxy.go:465-497 | a PING right in front of a CRYPTO frame hides the name, whatever the frame's offset, widths and ClientHello, and however much PADDING follows |
| Hkdf.LawsHaveModel | cmd/quic-proxy/quic-proxy.go:400-432 | the laws assumed of the ciphers are consistent |
| Hkdf.HkdfExpand | cmd/quic-proxy/quic-proxy.go:407-420 | the loop computes the prefix of T(1), T(2), ... of section 2.3 of RFC 5869 |
| Hkdf.HkdfExpandLabel | cmd/quic-proxy/quic-proxy.go:423-432 | the expansion under the HkdfLabel structure of section 7.1 of RFC 8446 |
| Hkdf.BlocksChain | cmd/quic-proxy/quic-proxy.go:407-420 | each 32-octet block of the output is the HMAC of the block before it, the info and its counter, the last one cut to length |
| Hkdf.ExpandPrefix | cmd/quic-proxy/quic-proxy.go:407-420 | asking for more output only appends |
| Hkdf.LabelInjective | cmd/quic-proxy/quic-proxy.go:423-431 | different names or contexts give different labels |
| Initial.ExtractSni | cmd/quic-proxy/quic-proxy.go:246-372 | the whole of extractSNI computes the packet reader `SniOfPacket` |
| Sealed.KeysAreSent | cmd/quic-proxy/quic-proxy.go:300-305 | key, IV and header key are the HMACs over the salt and the label octets that appendix A.1 of RFC 9001 lists, cut to 16, 12 and 16 octets |
| Initial.FindProtected | cmd/quic-proxy/quic-proxy.go:247-298 | the header fields, token and Length are checked and skipped on arbitrary bytes |
| Initial.FormNonce | cmd/quic-proxy/quic-proxy.go:340-345 | the in-place loop xors the packet number, right-aligned, into the IV |
| Initial.FormAad | cmd/quic-proxy/quic-proxy.go:357-360 | the copied header with unmasked first octet and number |
| Initial.TrailingBytesIgnored | cmd/quic-proxy/quic-proxy.go:289-298 | bytes after the packet's Length never change the result |
| Initial.ShortPacketNotFound | cmd/quic-proxy/quic-proxy.go:312-372 | a protected part of fewer than 20 octets gives neither a name nor a panic, whichever offset is sampled, and one of 20 can panic |
| Sealed.Unprotected | cmd/quic-proxy/quic-proxy.go:312-338 | for every packet protected as RFC 9001 says and every mask: number length and number octets are recovered, the first octet up to the bit 0x10 |
| Sealed.NonceExactIff | cmd/quic-proxy/quic-proxy.go:335-345 | the nonce is the sender's iff the full packet number fits its encoded length |
| Sealed.AadExactIff | cmd/quic-proxy/quic-proxy.go:326 | the associated data is the sender's iff `mask[0] & 0x10 == 0` |
| Sealed.FaithfulPacketIsRead | cmd/quic-proxy/quic-proxy.go:246-372 | under both conditions exactly the sender's plaintext reaches the frame scan, whatever follows the packet |
| Sealed.ReadIff | cmd/quic-proxy/quic-proxy.go:246-372 | for a cipher that rejects the one nonce and associated data extractSNI forms: the packet is read iff both are the sender's, else rejected |
| Sealed.BindsHasModel | cmd/quic-proxy/quic-proxy.go:340-366 | this assumption and the laws have a model for every packet and mask, faithful or not |
| Sealed.PacketPanicsIff | cmd/quic-proxy/quic-proxy.go:361-372 | a faithful packet ends the program iff the scan of its plaintext reaches a CRYPTO frame that overruns |
| Sealed.ShortPacketPanics | cmd/quic-proxy/quic-proxy.go:448-464 | a packet whose three octets of plaintext do so |
| Sealed.NameReachesProxy | cmd/quic-proxy/quic-proxy.go:246-541 | from the client's frames to the extracted name, across header, protection and frame scan |
| Sessions.StepInv | cmd/quic-proxy/quic-proxy.go:73-243 | every step of every thread keeps the invariant on places, owners and winners |
| Sessions.RunInv | cmd/quic-proxy/quic-proxy.go:73-243 | so does every schedule |
| Sessions.ExactlyOnePlace | cmd/quic-proxy/quic-proxy.go:110-243 | in every interleaving each dialled connection is in exactly one place (handler, map, one remover, closed) and is closed at most once |
| Sessions.TrafficStaysWithClient | cmd/quic-proxy/quic-proxy.go:77-218 | a registered session belongs to its key; backend bytes go only to the client whose packet caused the dial, and only its datagrams go to the backend |
| Sessions.OneHandlerWins | cmd/quic-proxy/quic-proxy.go:147-163 | among racing handlers for one key without removal exactly one registers, and all datagrams, the losers' included, go to its connection |
| Datagrams.NothingLost | cmd/quic-proxy/quic-proxy.go:77-205 | in every interleaving each datagram that arrived is in the hands of one thread, or was written once, unchanged and under its own client, or was given up when its dial or write failed; the loser of a race writes its datagram too |
| Datagrams.NobodyStuck | cmd/quic-proxy/quic-proxy.go:73-243 | in every interleaving every thread has its next step, at once or when the scan is over; main receives and writes, the collector waits, scans and removes |
| Sessions.StaleRelayTakesNewerSession | cmd/quic-proxy/quic-proxy.go:208-218 | a state, reached on an ordinary schedule, in which the relay of a collected session takes the session just registered by a later packet |
| Removals.RelayTakesItsOwnIff | cmd/quic-proxy/quic-proxy.go:186-218 | in every interleaving a relay or first writer about to remove its key takes the connection it gave up iff no removal of the key happened since that connection registered |
| Removals.CollectorTakesIdle | cmd/quic-proxy/quic-proxy.go:220-243 | in every interleaving a key the collector still holds is unregistered, or its session was idle as of the scan, was touched since the scan began, or registered after a removal of the one the scan met |
| Removals.HotPathKeepsOrder | cmd/quic-proxy/quic-proxy.go:77-107 | the receive loop writes the datagrams it accepts for sessions in order of arrival, each once, at most the one in hand missing |
| SessionManager.Manager.Find | cmd/quic-proxy/quic-proxy.go:88-91 | the lookup of the hot path decides the receive step |
| SessionManager.Manager.Create | cmd/quic-proxy/quic-proxy.go:140-144 | a dialled connection gets a session of its client with the current time, and the map stays as it is |
| SessionManager.Manager.Register | cmd/quic-proxy/quic-proxy.go:147-163 | the first session of a key stays, and the later handler learns which one it is |
| SessionManager.Manager.Touch | cmd/quic-proxy/quic-proxy.go:197-199 | activity is recorded for one session, nothing else changes |
| SessionManager.Manager.Remove | cmd/quic-proxy/quic-proxy.go:208-218 | the key is gone, and only a caller that found it gets the connection to close |
| SessionManager.Manager.FindIdle | cmd/quic-proxy/quic-proxy.go:223-235 | the collector's loop finds exactly the keys idle for longer than the timeout, each once, and is a run of the step system's `Inspect` steps |
| DnsMessage.DnsErrorResponse | cmd/china-dns-race-proxy/china-dns-race-proxy.go:286-335 | the method with its question loops and in-place writes computes `ErrorResponse` |
| DnsMessage.QuestionsEnd | cmd/china-dns-race-proxy/china-dns-race-proxy.go:291-319 | the nested loops stop behind the announced questions, or report that they are malformed |
| DnsMessage.MarkAsError | cmd/china-dns-race-proxy/china-dns-race-proxy.go:321-334 | the 16-bit flag arithmetic and the zeroed counts give the error header, and nothing behind it changes |
| DnsQuestions.ErrorFromQuery | cmd/china-dns-race-proxy/china-dns-race-proxy.go:286-335 | header, n well-formed questions, any trailing bytes: the answer is the error header and exactly those questions |
| DnsQuestions.AnswersIff | cmd/china-dns-race-proxy/china-dns-race-proxy.go:286-319 | an answer exists iff the query is a header followed by as many well-formed questions as announced |
| DnsMessage.ValidIff | cmd/china-dns-race-proxy/china-dns-race-proxy.go:276-284 | a response is valid iff ID and QR bit of its header say so |
| DnsQuestions.ErrorIsValid | cmd/china-dns-race-proxy/china-dns-race-proxy.go:276-335 | every answer passes validDNSResponse for its query and is never longer |
| DnsQuestions.ErrorTwice | cmd/china-dns-race-proxy/china-dns-race-proxy.go:286-335 | applied to its own answer the function changes nothing |
| DnsTcp.Exchange | cmd/china-dns-race-proxy/china-dns-race-proxy.go:204-274 | whatever an upstream sends, a response is at most 65535 bytes |
| DnsTcp.FramedAnswerHeard | cmd/china-dns-race-proxy/china-dns-race-proxy.go:238-274 | an upstream that frames its answer is heard, whatever it sends afterwards |
| DnsTcp.TcpHeardIff | cmd/china-dns-race-proxy/china-dns-race-proxy.go:238-274 | over TCP a response is heard iff the query fits the 16-bit prefix and a length of at least 12 arrives with as many octets |
| DnsTcp.DatagramHeard | cmd/china-dns-race-proxy/china-dns-race-proxy.go:214-236 | a datagram of up to 4096 octets is heard whole |
| DnsTcp.FailedRaceIsServfail | cmd/china-dns-race-proxy/china-dns-race-proxy.go:125-135 | a failed race is answered with response code 2 and questions of the query, or not at all when they are malformed |
| DnsTcp.HandleTcpConnection | cmd/china-dns-race-proxy/china-dns-race-proxy.go:105-149 | for every input stream the loop writes `Output`, and its size check never fires |
| DnsTcp.ServedInOrder | cmd/china-dns-race-proxy/china-dns-race-proxy.go:105-149 | the k-th answer is for the k-th query, with its ID and QR set, and fits 16 bits; the loop stops early only at a query without answer or a failed write |
| DnsTcp.OutputReadsBack | cmd/china-dns-race-proxy/china-dns-race-proxy.go:141-147 | the output parses back as the length-framed answers in query order, also after a torn write |
| DnsTcp.EveryQueryAnswered | cmd/china-dns-race-proxy/china-dns-race-proxy.go:108-147 | framed queries with well-formed questions all get one answer each when no write fails |
| DnsRace.StagesStartOnceInTime | cmd/china-dns-race-proxy/china-dns-race-proxy.go:155-197 | in every run each later stage starts at most once, on its own tick, not before tcpDelay and max(tcpDelay, fallbackDelay) |
| DnsRace.TimersFollow | cmd/china-dns-race-proxy/china-dns-race-proxy.go:175-201 | in every run the clock is the time that passed, each timer is armed, fired or taken as its ticks say, and no timeout comes early |
| DnsRace.EveryUpstreamAsked | cmd/china-dns-race-proxy/china-dns-race-proxy.go:160-197 | every upstream of every started stage is asked exactly once: pending, ready, sent and silent exchanges add up |
| DnsRace.StagesUseTheirNetwork | cmd/china-dns-race-proxy/china-dns-race-proxy.go:174-197 | per network: UDP exchanges are those of the primaries and, once started, the fallback, TCP exchanges those of the retry, each under way or ended |
| DnsRace.NoResponseLost | cmd/china-dns-race-proxy/china-dns-race-proxy.go:159-187 | every valid response heard is before the channel, in it, or returned, and nothing else is |
| DnsRace.OutcomeIff | cmd/china-dns-race-proxy/china-dns-race-proxy.go:184-201 | a call returns a response iff it took one, fails iff it took the timeout, never both, and refuses a query without an ID |
| DnsRace.NothingHeldBack | cmd/china-dns-race-proxy/china-dns-race-proxy.go:176-201 | exchanges, responses and timers whose time has come can go on |
| DnsRace.SendersNeverBlock | cmd/china-dns-race-proxy/china-dns-race-proxy.go:159-170 | sends never exceed the channel capacity and no sender ever waits, even after the call returned |
| DnsRace.AtMostTwoTurns | cmd/china-dns-race-proxy/china-dns-race-proxy.go:184-201 | at most two rounds of the select loop do not return, and an expired timeout can always be taken |
| DnsRace.AnswerIsValid | cmd/china-dns-race-proxy/china-dns-race-proxy.go:164-187 | every returned response passes validDNSResponse for the query and fits 16 bits |
| DnsRace.RacesAreLawful | cmd/china-dns-race-proxy/china-dns-race-proxy.go:125-135 | races justify what the TCP loop relies on |
| PolicyLines.OtherEntriesAfterSet | install.sh:2554-2556 | an entry of another group survives set_policy iff the new group's `group=` is no part of its line |
| PolicyLines.LongerNameIsLost | install.sh:2554 | a group whose name ends in the new group's name is lost, whatever its target |
| PolicyLines.OtherEntriesAfterDel | install.sh:2581 | del_policy takes exactly the lines whose first field is the group |
| SmartState.RestoreUndoes | install.sh:2336-2355 | restoring a complete snapshot undoes whatever was done to the four files in between |
| SmartState.RestoresInOrder | install.sh:2336-2355 | with any writes failing: what each file holds after a restore, which errexit stops at the first failure |
| SmartState.SetRulesAllOrNothing | install.sh:2430-2478 | for every combination of failing steps: all four files new, or all as before, given a complete snapshot (which errexit enforces) and working restore writes |
| SmartState.SetRulesOkIff | install.sh:2430-2478 | set_rules succeeds iff lock, rules, map, config, commit and, for the router in use, restart succeed, and under errexit touch and snapshot |
| SmartState.CommitWrites | install.sh:2455-2461 | what each of the four files holds wherever the commit stops |
| SmartState.SetRulesPutsBack | install.sh:2455-2474 | what each file holds after the rollback of a failed set_rules, whatever part of it fails |
| SmartState.RegenOkIff | install.sh:2400-2427 | regen_smart succeeds iff there are rules, a config, and for the router in use a restart |
| SmartState.RegenPutsBack | install.sh:2414-2419 | a config that does not restart makes way for the one before |
| SmartState.ImportUndoneIff | install.sh:2455-2474 | without errexit, as under import_rules, a failed set_rules with working restores leaves the files as before iff every file that existed has its marker, and a copy that is all of it or no copy and no change by the commit |
| SmartState.ImportMayLoseRules | install.sh:2336-2355 | one such run: an unwritten marker, and the rollback deletes the live rules |
| SmartState.RegenFailureUndone | install.sh:2558-2561 | whenever regen_smart fails, all four files are as before the command |
| SmartState.SetPolicyUndoneIff | install.sh:2544-2563 | a failed set_policy leaves the four files alone iff it was not stuck between two writes |
| SmartState.DelPolicyUndone | install.sh:2575-2585 | a failed del_policy always leaves the four files alone |
| SmartState.RenamePolicyUndoneIff | install.sh:2589-2608 | a failed rename_policy leaves them alone iff the map was not renamed without the rules |
| SmartState.RegenCurrentIff | install.sh:2400-2427 | after a successful regen_smart config and type file are current iff their ignored writes did their work |
| SmartState.SetPolicyOkIff | install.sh:2544-2563 | set_policy succeeds iff each of its steps does |
| SmartState.GuardedPutsBack | install.sh:2558-2561 | what each file holds after the rollback behind a failed regeneration |
| SmartState.DelPolicyOkIff | install.sh:2575-2585 | del_policy likewise; a failing awk skips the move |
| SmartState.RenamePolicyOkIff | install.sh:2589-2608 | rename_policy likewise |
| SmartStore.Store.Restore | install.sh:2345-2355 | the restoring loop, with and without errexit |
| SmartStore.Store.Regenerate | install.sh:2400-2427 | regen_smart step by step |
| SmartStore.Store.SetRules | install.sh:2430-2478 | set_rules step by step meets its specification in every combination of outcomes |
| SmartStore.Store.SetPolicy | install.sh:2544-2563 | set_policy likewise |
| SmartStore.Store.DelPolicy | install.sh:2575-2585 | del_policy likewise |
| SmartStore.Store.RenamePolicy | install.sh:2589-2608 | rename_policy likewise |
| ExitRules.OneRuleIff | install.sh:2034-2046 | for every rule list: foreign rules are left alone iff none stands where a delete takes a rule, exactly one mark rule remains iff besides every surplus delete succeeds, and then the first is kept |
| ExitRules.DeleteTakes | install.sh:2042-2045 | deleting by a priority takes one mark rule and nothing else if a mark rule is the first of that priority, else a foreign rule and no mark rule |
| ExitSwitch.CommandKeepsIff | install.sh:2034-2325 | from a good state every add, delete, switch, re-application or reboot leads to a good state iff its steps do not slip |
| ExitSwitch.SuccessSlipsOnlyAtFlush | install.sh:2302-2308 | a command that reports success slips only when neither the flush nor the old device's removal worked |
| ExitSwitch.RunKeepsGood | install.sh:2034-2325 | over every run: current exit local or existing, table in agreement, one mark rule |
| ExitSwitch.RunFromInstall | install.sh:2034-2325 | every run without slips from the installed state, local exit and no route, is good |
| ExitSwitch.AddSucceeds | install.sh:2185-2274 | an exit that was added exists, no other changes, and neither does the network |
| ExitSwitch.DelSucceeds | install.sh:2276-2290 | an exit that was deleted is gone with its device and its route, and no other exit is |
| ExitSwitch.DelOkIff | install.sh:2276-2290 | when a delete succeeds |
| ExitSwitch.ReapplyOkIff | install.sh:2077-2108 | when a re-application succeeds; then the route is that of the selected exit |
| ExitSwitch.RebootOkIff | install.sh:2077-2108 | when the re-application after a reboot succeeds; then the only device is that of the selected exit, which has the route |
| ExitSwitch.LocalOkIff | install.sh:2302-2308 | when a switch to local succeeds; then the old exit, and no other, went down |
| ExitSwitch.ReapplyRepairsIff | install.sh:2077-2108 | from any state whose current exit is local or exists: a re-application that reports success makes the state good iff one mark rule is left and the flush worked where it was needed |
| ExitSwitch.SwitchRepairsIff | install.sh:2292-2325 | from any state: so does a switch that reports success; one to local may also empty the table by taking down the old exit |
| ExitSwitch.SwitchAroundRoute | install.sh:2310-2318 | a switch that does not reach the new route fails and leaves route, state file and old exit alone; one that does fails only for the state file |
| ExitSwitch.OldExitDownAfterRoute | install.sh:2317-2320 | the old exit, and no other, goes down, and only with the new route in place |
| ExitGateway.Gateway.EnsureSingleRule | install.sh:2034-2046 | the loop over surplus priorities meets its specification |
| ExitGateway.Gateway.SetExit | install.sh:2292-2325 | set_exit step by step |
| ExitGateway.Gateway.DelExit | install.sh:2276-2290 | del_exit step by step |
| ExitGateway.Gateway.ApplyExit | install.sh:2077-2108 | the helper that re-applies the current exit |
| RuleText.SplitCsv | rules-import.py:83-94 | the character loop computes `CsvSplit` |
| RuleText.CsvInverse | rules-import.py:83-94 | csv_split gives what the fields of a line say, for every spelling of fields with quotes and blanks, a quote left open at the end included |
| RuleText.CsvExact | rules-import.py:83-94 | every text is a line of such fields |
| RuleText.WaysToWrite | rules-import.py:83-94 | a text without commas and quotes as it is, and any text without quotes in quotes, is such a field and says that text |
| RuleText.TopParens | rules-import.py:121-131 | the scan computes the members, and its depth never goes below zero on a balanced string |
| RuleText.ReadLogical | rules-import.py:134-146 | the method computes `ParseLogical`, and the group it cuts is balanced |
| RuleText.GroupIsBalanced | rules-import.py:134-146 | on every line the group handed to split_top_parens is balanced |
| RuleText.LogicalInverse | rules-import.py:121-146 | parsing a logical line gives its members and policy, whatever stands in front of the group and between the members, and however many commas |
| RuleText.LogicalExact | rules-import.py:134-146 | every line with a group that closes is such a line |
| RuleImport.CategoryOf | rules-import.py:97-118 | a category is never empty, forced categories are direct, and once some are to be kept there are no others but direct, block and Proxy |
| RuleImport.CategoryWords | rules-import.py:106-118 | the category in words: forced direct, kept name, local names direct, unwanted parts blocked, else Proxy |
| RuleImport.SkippedLines | rules-import.py:353-358 | blank lines, comments and section headers emit nothing |
| RuleImport.NormalName | rules-import.py:97-100 | the normal name is what follows anything that is no word character, in quotes or not; Proxy when nothing does |
| RuleImport.ModifierIff | rules-import.py:28-29 | which fields are modifiers |
| RuleImport.PlainLine | rules-import.py:371-391 | a line of three plain fields: one of eight matchers is kept, IP-CIDR6 as IP-CIDR, any other dropped |
| RuleImport.ConvertFile | rules-import.py:348-396 | the conversion loop computes `ConvertAll` |
| RuleImport.ReadIsConverted | rules-import.py:348-390 | each line, in whatever spelling, becomes what its reading means: kept, flattened, dropped, or the new default |
| RuleImport.LineHasReading | rules-import.py:352-390 | every line but an OR without a parenthesis has a reading: rule, AND, OR, FINAL, or no rule (blank, comment, header, incomplete) |
| RuleImport.ListReadsIff | rules-import.py:352-390 | a list has a reading iff its conversion does not end in an error |
| RuleImport.NeverBroadens | rules-import.py:149-152 | an emitted rule matches only requests its source rule matches, with the same category |
| RuleImport.EmittedHasSource | rules-import.py:348-396 | for every list that does not end in an error: every emitted rule that matches a request has a source rule that matches it, with the same category, and the emitted default is that of a FINAL line |
| RuleImport.KeptRouting | rules-import.py:348-396 | whatever the list, when no rule and no other FINAL follows a FINAL: every request is routed by the first rule of which the gateway can apply a part that matches |
| RuleImport.RoutingPreserved | rules-import.py:348-396 | with supported matchers this is the first rule that matches, so first-match routing is the same for every request |
| RuleImport.CrashesIff | rules-import.py:134-135 | a line raises an error iff it is no comment, its first field is OR in any letter case and with any blanks, and it has no parenthesis |
| RuleImport.ConversionCrashesIff | rules-import.py:352-367 | the whole conversion ends with an error iff the list has such a line |
| ImportedRules.LineReadsBackIff | rules-import.py:149-152 | an emitted line reads back as its rule iff value and category hold no comma and no comment sign |
| ImportedRules.ConvertedRouting | rules-import.py:348-396 | the router's meaning of the converted lines is the resolved category of the first rule of the client's list of which the gateway can apply a part that matches |
| ImportedRules.ImportedRouting | mihomo-router-config.py:326-376 | end to end, through compilation and providers: a request goes where the first matching default rule sends it, else to the resolved category of that rule; conditions are on the client's rules |
| Router.CompileRules | mihomo-router-config.py:326-376 | the rule loop computes `Compile` |
| Router.CompilesIff | mihomo-router-config.py:326-376 | the compilation ends without a configuration iff a line is no rule or names a rule set that cannot be used |
| Router.BlankIff | mihomo-router-config.py:326-331 | which lines are passed over: blank ones and comments |
| Router.TypeTable | mihomo-router-config.py:331-376 | what each rule type means, and which lines are no rules |
| Router.ReservedPolicies | mihomo-router-config.py:302-310 | the words direct, direct-out, dir and block, reject, reject-drop in any letter case |
| Router.OtherPolicies | mihomo-router-config.py:311-324 | any other policy goes through the map, where the same words count, or is an exit |
| Router.WordDecides | mihomo-router-config.py:302-376 | a request whose first matching line says such a word goes direct or is refused |
| Router.CompiledKeepsFirstMatch | mihomo-router-config.py:326-376 | the router's first match is that of default rules followed by user rules, for every request, when provider names do not collide |
| Router.CanonicalSpelling | mihomo-router-config.py:231-241 | an exit file that equals the name up to case is spelled like the canonical name |
| Router.CanonicalFinds | mihomo-router-config.py:231-241 | the canonical name is that of an exit file equal up to case, or the name itself when there is none |
| Router.LoadedUnderItsName | mihomo-router-config.py:191-241 | a loaded proxy bears the name the rules use |
| Router.ExitLoadsIff | mihomo-router-config.py:191-229 | an exit loads iff it has a YAML file with a proxy, a JSON file, or a WireGuard configuration |
| Router.ExactFileFirst | mihomo-router-config.py:191-229 | a file of exactly the name goes before one that is equal up to case |
| Router.TargetsAreLoaded | mihomo-router-config.py:302-384 | every emitted target is DIRECT, REJECT or the name of exactly one loaded proxy |
| PolicyMap.EntryRenamed | install.sh:2595-2598 | renaming a line of the map renames the entry the router loads from it |
| PolicyMap.LoadRenamed | install.sh:2595-2598 | the loaded map after the renaming is the old one with one group renamed |
| PolicyMap.LineRenamed | install.sh:2599-2604 | a renamed rule line parses as the same rule with the new policy |
| PolicyMap.LineRenamedIff | install.sh:2599-2604 | a rule line that ends in its policy parses with the new name iff the name has no comma, comment sign or blank edge |
| PolicyMap.SameComments | install.sh:2601 | the lines of the rules file that the script passes over are exactly those the router passes over |
| PolicyMap.PlainNameFits | install.sh:2593 | a new name of letters, digits, `-` and `_` can stand anywhere unless it is a reserved word |
| PolicyMap.AcceptedIff | install.sh:2593 | which new names are accepted: letters, digits, `-`, `_` only, or any text with a character beyond ASCII |
| PolicyMap.CommaNameMisread | install.sh:2593-2604 | with a comma in the new name every renamed rule gets what stands in front of it as its policy |
| PolicyMap.CommaNameMisroutes | install.sh:2593 | line 2593 accepts such a name, and the policy is then an exit of that name |
| PolicyMap.SetTakesEffectIff | mihomo-router-config.py:64-75 | whatever the map held: with the new entry behind it the router sends the group to the target iff it can load the name (no `=`, no blank edge, no `#` in front), or did so already |
| PolicyMap.DelTakesEffect | mihomo-router-config.py:64-75 | after del_policy the router's map lacks the group iff every entry the router loads for it has the group itself in front of its `=` |
| PolicyMap.OldNameKeepsTargetIff | mihomo-router-config.py:302-324 | a default rule that goes on using the old name keeps its target iff the group was mapped to the exit of its own name, or the name is a reserved word |
| PolicyMap.RenameKeepsRouting | install.sh:2589-2604 | renaming to a free name that can be loaded, and can stand in a rule where it is to, leaves the compiled router, hence every request's target, unchanged when the default rules use neither name |
| GroupMap.InitPolicyMap | install.sh:2526-2541 | the loop computes the entries of `Build` |
| GroupMap.OneEntryPerGroup | install.sh:2520-2542 | every non-reserved word that a default or user rule line ends in has its entry and no entry with another target, keeps an existing target, and no other line is for it when no other word reads as it up to its first `=` |
| GroupMap.BuildDistinct | install.sh:2540-2541 | no line of the map made for the rules' groups occurs twice |
| GroupMap.RebuildIdempotentIff | install.sh:2520-2542 | rebuilding for the same rules from its own sorted output gives the same map iff the default target is the same or no group with `=` in its name needs it |
| GroupMap.KeepsTargetIff | install.sh:2531-2538 | a target the map holds is kept iff the group has no `=` in its name |
| GroupMap.NewGroupTarget | install.sh:2531-2538 | a group without a target is blocked if its name has an unwanted word in it, else gets the default |
| GroupMap.EntriesInOrder | install.sh:2526-2541 | the groups but the empty one and five words in any letter case get one entry each, in order |
| GroupMap.FirstLineCounts | install.sh:2530 | the target a map holds for a group is what stands between the first `=` and the next in the first line for it; a line without `=` holds none |
| GroupMap.GroupsGoThroughMap | mihomo-router-config.py:302-324 | the router resolves the last field of a rule line, where it is the policy, through its entry in the sorted map; only reject-drop stays REJECT |
| GroupMap.RulePolicyInMapIff | mihomo-router-config.py:302-348 | the policy the router parses from a rule line is in the map iff some line ends in a non-reserved word that is the policy up to its first `=`; otherwise it is an exit of its own name |
| GroupMap.FourthFieldMisses | install.sh:2540 | a rule with a field behind its policy gives that field an entry, and not the policy |
| GroupMap.CommentMisses | install.sh:2540 | a comment behind the policy makes the last field another word, while the router still parses the policy |
| PolicyCommands.SetPolicyRoutes | install.sh:2544-2563 | after a successful set_policy, whatever its edit left, the router resolves the group to the target, and the rules are as before |
| PolicyCommands.DelPolicyRoutes | install.sh:2575-2585 | after a successful del_policy the router's map lacks the group iff its entries had no blanks, and the group then resolves to an exit of that name |
| PolicyCommands.RenamePolicyRoutes | install.sh:2589-2608 | after a successful rename_policy the router's whole configuration is what it was before |
| ChinaList.WriteChunks | update-rules.sh:245-295 | loading the chunks in loader order gives the non-blank input, all chunks but the last hold 20000 entries, the last is not empty, and the count is the total |
| ChinaList.FileNamesDiffer | update-rules.sh:254-262 | no chunk overwrites another, however many there are |
| ChinaList.FileNameIs | update-rules.sh:255 | a chunk is named by its number in at least three decimal digits, without zeros in front of more |
| GfwExtras.AppendExtras | update-rules.sh:114-145 | the loop keeps the list and appends exactly the new domains of the file |
| GfwExtras.AppendNew | update-rules.sh:216-225 | the same for the non-blank domains of the default rules |
| GfwExtras.DefaultsOnlyOnce | update-rules.sh:216-225 | exactly the non-blank domains that the list lacked are appended, none twice, and a second pass adds nothing |
| GfwExtras.ExtrasOnlyOnce | update-rules.sh:114-145 | only valid absent domains are appended, none twice, and a second pass adds nothing |
| GfwExtras.ExtractIff | update-rules.sh:122 | a line of the list adds a domain iff it is exactly the generated call with that domain |
| GfwExtras.DomainIff | update-rules.sh:131 | valid domains are two or more labels of letters, digits, `-` and `_` with a letter or digit at both ends, with dots between them |
| GfwExtras.CleanIs | update-rules.sh:125-129 | blanks, one `www.` in front, one dot behind and a comment are taken off, and nothing else |
| ListUpdate.CompletedBackupRestores | update-rules.sh:22-58 | a failing exit after a completed backup restores every listed file and the chunk directory, and touches no other file |
| ListUpdate.BeginsIff | update-rules.sh:22-32 | the update gets past its backup iff there is a chunk directory and every copy succeeds |
| ListUpdate.RollbackInOrder | update-rules.sh:34-46 | with any writes failing: the files are put back in order up to the first failing write, the chunk directory only behind the last, and no other file changes |
| ListUpdate.MissingChunksFail | update-rules.sh:31 | without a chunk directory every update fails at once and changes nothing |
| ListUpdate.FailedBackupKeepsIff | update-rules.sh:22-58 | when the backup itself fails, a listed file survives iff it was absent, or stands before the place where copying stopped, or stands there with a torn copy that is all of it |
| ListUpdate.FailedBackupKeepsChunksIff | update-rules.sh:22-58 | and the chunk directory iff there was none, or all files were copied and its torn copy is all of it |
| ListUpdate.FirstCopyFailingDeletesAll | update-rules.sh:28-45 | a first copy that fails makes the rollback delete every listed file |
| ListUpdate.Directory.BeginTransaction | update-rules.sh:22-32 | the backup loop, up to the first failing copy |
| ListUpdate.Directory.RollbackTransaction | update-rules.sh:34-46 | the rollback loop, up to the first failing write |

## Left out

- AES, HMAC-SHA256, the AEAD, MD5 and base64 are library calls: ciphers are a `Suite` with stated laws, the provider digest is any function.
- Sockets, name lookup, HTTP and TLS appear as arrivals, replies, errors and closes only; `selectBackendIPv4` and the debug output are not modelled.
- Sessions.StepInv: a write to a closed connection is recorded like any other write; the error it would log is not modelled.
- DnsRace.StagesStartOnceInTime: time is logical, and the goroutines of one network are interchangeable.
- DnsTcp.HandleTcpConnection: the outcome of each race is a parameter that satisfies what `RacesAreLawful` proves; a failing write is the number of octets that went out.
- SmartState.SetRulesAllOrNothing: the lock is held throughout; generating and testing the router config is one step that yields a config or fails; temporary files, file modes and crashes between two steps are not modelled.
- SmartState.SetPolicyUndoneIff: the four files only; a left-over temporary file next to the policy map is not part of the state.
- PolicyLines.OtherEntriesAfterSet: awk compares fields that look like numbers as numbers and reads backslashes in its -v arguments; group names here are neither.
- ExitSwitch.CommandKeepsIff: re-application as a service hook while the unit is starting, reachability checks and the content of exit configurations are left out; whether a rule line names mark and table is one flag.
- RuleImport.RoutingPreserved: holds for any category function; the counters and the category list on the error stream are left out, as are `--from-url`, `--check-url` and `--extract-domains`.
- RuleImport.ReadIsConverted: blanks are space, tab, newline, return, vertical tab and form feed, letter case is that of ASCII; Python has more of both.
- Router.TargetsAreLoaded: file extensions in the exits directory are lower case; the proxy fields copied from exit files, the `proxy` group and the rest of the emitted YAML are left out.
- Router.CompiledKeepsFirstMatch: what a matcher matches is the router program's business and stays abstract; the checks on rule-set sources are one predicate.
- GroupMap.GroupsGoThroughMap: for a name the router can load, when no other word of the rules is loaded under that name; otherwise the last of their lines wins, and `sort -u` decides which that is.
- GroupMap.RebuildIdempotentIff: when no other group reads as a group without `=` up to the first `=`; awk would take one for the other. The order of `sort -u` is any order of the same lines.
- PolicyMap.RenameKeepsRouting: for map entries without a blank before `=`, and for user rules whose use of the old name is their last field on a line without a comment; the script edits no others.
- ChinaList.WriteChunks: the Lua text around an entry and the file header are left out; so is moving the finished directory into place.
- GfwExtras.AppendNew: extracting the domains of the default rules, which fetches remote lists, is left out.
- `tgbot.py`, `ios-http.py`, `mihomo-exit-config.py`, `singbox-exit-config.py`, `singbox-router-config.py`, `dnsdist.conf.template`, parsing of GFWList lines and the rest of `install.sh` are left out: plumbing, single-branch field copying, or legacy code.
