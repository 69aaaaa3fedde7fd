# Verification of the firmware's protocol code

A model in Dafny of five parts of the firmware, with proofs of what they do on
every input and in every run:

- **Encrypted OTA images** (`OtaImage.dfy`, `OtaDecryptor.dfy`): the decryptor
  takes a 512-byte header and the ciphertext in arbitrary pieces, through a
  state machine with fall-through and a 16-byte cache. `OtaImage` says what
  decryption is for a stream as a whole; `OtaDecryptor` has the handle with its
  buffers and proves it against that.
- **mDNS responder** (`MdnsTxQueue.dfy`, `MdnsSchedule.dfy`, `MdnsProbe.dfy`,
  `MdnsRecords.dfy`, `MdnsPurge.dfy`, `MdnsResponder.dfy`, `MdnsRuns.dfy`,
  `MdnsLimits.dfy`, `MdnsCollision.dfy`, `MdnsRename.dfy`, `MdnsTxt.dfy`):
  probing and announcing on several interfaces over one transmit queue, removal
  of services, the tie-break between hosts, renaming after conflicts, and the
  TXT codec. `MdnsRuns` is about whole runs, `MdnsLimits` about those in which
  something goes wrong.
- **SLIP codec** (`Buffer.dfy`, `Slip.dfy`): framing with an additional start
  byte, a decoder that can be resumed, and the two wrappers.
- **Inverter link** (`RingBuffer.dfy`, `Crc16.dfy`, `Rs232Frame.dfy`,
  `Rs232Protocol.dfy`, `SerialRx.dfy`, `SerialStream.dfy`, `RequestTable.dfy`):
  from bytes on the serial line to the request they answer, and the table of
  requests with retries.
- **Button** (`Button.dfy`): the debouncer and the gesture machine.

`Bytes.dfy` has what several parts share.

Objects that the C code updates in place are classes. Their methods follow the
branches of the C functions and are proved against specification functions
(`OtaImage.Feed`, `Slip.Turn`, `SerialRx.Process`, ...), and the theorems are
about those or about whole runs. Parameters stand for what lies outside: the
RSA or ECIES key step, the keystream and tag of AES-GCM and whether a
reallocation to zero bytes succeeds (`OtaImage.Platform`), random delays, the
outcome of allocations and timers where it matters, and the decoders of single
inverter messages. Time is a number of milliseconds that does not wrap.

`dafny verify dfyconfig.toml` checks everything.

## Model

| member | source | states |
|---|---|---|
| Bytes.Le32Value | managed_components/espressif__esp_encrypted_img/src/esp_encrypted_img.c:826-827 | four bytes read as a number have the least significant first |
| OtaImage.CuttingDoesNotMatter | managed_components/espressif__esp_encrypted_img/src/esp_encrypted_img.c:809-956 | for every cutting of a whole image into chunks, the last one not empty: the outputs joined are the one-shot decryption, and only the call that takes the last byte answers OK, all earlier ones NOT_FINISHED |
| OtaImage.PrefixRun | managed_components/espressif__esp_encrypted_img/src/esp_encrypted_img.c:685-770 | after any chunks that make up a proper prefix of an image: every answer was NOT_FINISHED, exactly the whole 16-byte blocks of the payload are out and the rest is held back |
| OtaImage.BadHeaderIsReported | managed_components/espressif__esp_encrypted_img/src/esp_encrypted_img.c:823-949 | however the stream is cut, a wrong magic, a key that cannot be unwrapped or a refused IV makes the call that completes that field fail, before any plaintext was given out |
| OtaImage.BadHeaderBytes | managed_components/espressif__esp_encrypted_img/src/esp_encrypted_img.c:823-949 | a header is refused exactly if its first four bytes are not CF B6 88 07, or the key in bytes 4..388 cannot be unwrapped, or it is not accepted with the IV in bytes 388..404, each as soon as the field is complete |
| OtaImage.ImageBytes | managed_components/espressif__esp_encrypted_img/src/esp_encrypted_img.c:823-949 | an image, byte by byte: that magic, a key and an IV that are accepted, and as many bytes behind the 512 as bytes 404..408 announce, the least significant first |
| OtaImage.EndOkBytes | managed_components/espressif__esp_encrypted_img/src/esp_encrypted_img.c:958-1009 | the same for the end: it succeeds exactly on streams with such a header, a payload of the announced size modulo 2^32, and the right tag in bytes 408..424 |
| OtaImage.NoPayload | managed_components/espressif__esp_encrypted_img/src/esp_encrypted_img.c:739-743 | an image that announces no payload: the call that completes the header answers OK exactly if a reallocation to zero bytes gives a usable pointer, and no memory otherwise |
| OtaImage.OneShotIsPlaintext | managed_components/espressif__esp_encrypted_img/src/esp_encrypted_img.c:685-770 | the reference decryption is the plaintext byte by byte: byte i of the output is byte i of the payload unmasked at that position of the keystream |
| OtaDecryptor.Handle.constructor | managed_components/espressif__esp_encrypted_img/src/esp_encrypted_img.c:617-683 | a new handle is at the beginning of the stream with its own buffers |
| OtaDecryptor.Handle.HeaderRecovered | managed_components/espressif__esp_encrypted_img/src/esp_encrypted_img.c:823-949 | in every state reached the key, IV, size and tag held by the handle are those read from bytes 4..388, 388..404, 404..408 and 408..424 of all bytes fed so far |
| OtaDecryptor.Handle.ReadAndCache | managed_components/espressif__esp_encrypted_img/src/esp_encrypted_img.c:772-787 | a header field is collected over several calls: the cache holds all bytes of the stream since the field began and never more than the field has |
| OtaDecryptor.Handle.ProcessGcmKey | managed_components/espressif__esp_encrypted_img/src/esp_encrypted_img.c:789-807 | fails exactly when the wrapped key cannot be unwrapped; otherwise the 384-byte cache is replaced by one of 16 bytes |
| OtaDecryptor.Handle.DecodeMiddle | managed_components/espressif__esp_encrypted_img/src/esp_encrypted_img.c:694-738 | while the payload is not complete: cache and GCM together have exactly the payload fed so far, the output is the plaintext of the blocks completed by this call, and all GCM updates stay multiples of 16 bytes |
| OtaDecryptor.Handle.DecodeLast | managed_components/espressif__esp_encrypted_img/src/esp_encrypted_img.c:739-769 | at the end of the payload: everything held back comes out, the cache is empty, and only the last GCM update may be of another size |
| OtaDecryptor.Handle.ProcessBin | managed_components/espressif__esp_encrypted_img/src/esp_encrypted_img.c:685-770 | the two ways together are one step of the reference decryptor, including the size comparison modulo 2^32 and the failing reallocation to zero bytes |
| OtaDecryptor.Handle.DecryptData | managed_components/espressif__esp_encrypted_img/src/esp_encrypted_img.c:809-956 | every call, from any state reached and with any chunk, answers and produces what the reference step on the bytes fed so far says, through all fall-through cases; GCM is updated in multiples of 16 bytes but for the last time |
| OtaDecryptor.Handle.DecryptEnd | managed_components/espressif__esp_encrypted_img/src/esp_encrypted_img.c:958-1009 | succeeds exactly when the header is good, as many payload bytes as announced (modulo 2^32) were fed, and the tag over the whole ciphertext is the one in the header |
| OtaDecryptor.Handle.IsCompleteDataReceived | managed_components/espressif__esp_encrypted_img/src/esp_encrypted_img.c:1011-1015 | answers true exactly when SaysComplete holds of the bytes fed; see the findings |
| OtaDecryptor.AnswerIsRight | managed_components/espressif__esp_encrypted_img/src/esp_encrypted_img.c:1011-1015 | the completeness answer is true of the image exactly from the end of the header on and, before that, outside the listed lengths |
| OtaDecryptor.FreshSaysComplete | managed_components/espressif__esp_encrypted_img/src/esp_encrypted_img.c:1011-1015 | a handle to which nothing has been fed says that all data has been received |
| OtaDecryptor.DecryptStream | managed_components/espressif__esp_encrypted_img/src/esp_encrypted_img.c:617-1009 | a caller that feeds any chunks and stops at the first error sees the run of the reference decryptor, and the end succeeds exactly when nothing failed and all bytes fed are together a complete and authentic image |
| OtaDecryptor.DecryptImage | managed_components/espressif__esp_encrypted_img/src/esp_encrypted_img.c:617-1009 | on a whole image given by its bytes, however cut, all of the plaintext comes out, each byte unmasked at its own position, and the end succeeds exactly when the tag over the ciphertext equals bytes 408..424 |
| MdnsTxQueue.InsertIsFifo | managed_components/espressif__mdns/mdns.c:1588-1606 | a packet put into the transmit queue comes behind all packets that are due at the same time |
| MdnsTxQueue.InsertSorted | managed_components/espressif__mdns/mdns.c:1588-1606 | the queue stays sorted by the time packets are due |
| MdnsTxQueue.OfNotOf | managed_components/espressif__mdns/mdns.c:1627-1647 | dropping the packets of one PCB leaves none of them, and the packets of every other PCB in their order |
| MdnsTxQueue.ScheduleTxPacket | managed_components/espressif__mdns/mdns.c:1588-1606 | the walk along the list ends at the place that Insert describes, with the packet due at now plus the delay |
| MdnsTxQueue.ClearPcbTxQueue | managed_components/espressif__mdns/mdns.c:1627-1647 | the two loops, from the head and behind it, remove exactly the packets of the PCB |
| MdnsTxQueue.NextPcbPacket | managed_components/espressif__mdns/mdns.c:1655-1665 | finds the first packet of a PCB, and nothing exactly if it has none |
| MdnsProbe.ProbeAsksSomething | managed_components/espressif__mdns/mdns.c:2112-2161 | a probe packet always has a question, so it is never dropped as empty while anything is probed |
| MdnsProbe.CreateProbePacket | managed_components/espressif__mdns/mdns.c:2112-2161 | a question and a server record for every service probed, in order and for no other; exactly if the address is probed, host questions for the responder and the services and the A and AAAA records; all with the unicast bit asked for, no record twice |
| MdnsProbe.CreateAnnounceFromProbe | managed_components/espressif__mdns/mdns.c:2196-2231 | the announcement has exactly what the records of the probe turn into, each once: SDPTR, PTR, SRV, TXT, A and AAAA for a service record, and the address records themselves |
| MdnsProbe.WhatIsAnnounced | managed_components/espressif__mdns/mdns.c:2196-2231 | of a probe for some services or the address: all four records of exactly these services, both address records, and nothing else |
| MdnsProbe.DeallocServiceAnswers | managed_components/espressif__mdns/mdns.c:2757-2777 | exactly the records of the service go, from the head of the list and behind it, and the others keep their order |
| MdnsProbe.PurgeConcat | managed_components/espressif__mdns/mdns.c:2757-2777 | removing the records of a service leaves the others in their order |
| MdnsProbe.RemoveServiceQuestion | managed_components/espressif__mdns/mdns.c:2825-2845 | the first service question with the type and the protocol of the service goes, if there is one, wherever it is in the list; nothing else changes |
| MdnsProbe.OwnQuestionGoes | managed_components/espressif__mdns/mdns.c:2825-2845 | the question that goes is the one for the service itself if and only if the first question with its type and protocol is for it; see the findings |
| MdnsSchedule.PassPromises | managed_components/espressif__mdns/mdns.c:5343-5375 | after a pass of the scheduler every packet marked as queued has its transmission pending, in order, if and only if the action queue took nothing behind something it had refused; see the findings |
| MdnsSchedule.TakenExactly | managed_components/espressif__mdns/mdns.c:5343-5375 | the transmissions handed over in a pass are those of the packets accepted, each once |
| MdnsSchedule.MarkedIsPending | managed_components/espressif__mdns/mdns.c:5343-5375 | as long as the promise is kept, a packet that the scheduler passes over because it is marked does have a transmission pending |
| MdnsRuns.RunSteps | managed_components/espressif__mdns/mdns.c:5230-5375 | any sequence of actions, application calls and waiting, from the start: every state follows from the one before by what its step does. In each of them the queue is sorted, a PCB in PROBE_1..PROBE_3 that is up has one packet, which asks for exactly its duplicate-free probe list, with a server record for each, and for the address exactly if that is probed, and the first announcement after a restart follows exactly three probes, at least 250 ms apart, only the first with the unicast bit (section 8.1 of RFC 6762). While every conflict was noticed on a PCB that was up, no packet refers to a service that is gone, nothing is probed in any other state and no list is copied behind its array; while the action queue took packets in order, every marked packet has its transmission pending |
| MdnsRuns.ProbedIsAnnounced | managed_components/espressif__mdns/mdns.c:5122-5143 | in any run: when the third probe of a PCB that is up has been sent, exactly what was probed is announced 250 ms later, the address with it, and the PCB has forgotten what it probed and its failures |
| MdnsResponder.Responder.OnlyTheProbe | managed_components/espressif__mdns/mdns.c:2260-2307 | while every conflict was noticed on a PCB that was up: while a PCB is probing, its only queued packet is the probe for exactly its probe list, which has no duplicates; so no answer can advance the probe state |
| MdnsResponder.Responder.NothingProbed | managed_components/espressif__mdns/mdns.c:2815-2823 | while every conflict was noticed on a PCB that was up: outside PROBE_1..PROBE_3 probe_running is false and the probe list is empty |
| MdnsResponder.Responder.Schedule | managed_components/espressif__mdns/mdns.c:1588-1606 | queueing a packet keeps the queue sorted and leaves the packets of all other PCBs alone |
| MdnsResponder.Responder.InitPcbProbeNewService | managed_components/espressif__mdns/mdns.c:2260-2307 | whether the PCB is up or not: starts at PROBE_1 with the new services before the old ones if it was probing, and one fresh probe packet as the only packet of the PCB, due after 120 ms, or after a second if more than five probes have failed, and less than 128 ms more; a list left over in another state is copied behind its array exactly if there are new services |
| MdnsResponder.Responder.InitPcbProbe | managed_components/espressif__mdns/mdns.c:2316-2351 | drops the packets of the PCB, up or not, and probes exactly the union of old and new services, and the address if it was or is asked for, in the same time; without a host name the PCB just runs |
| MdnsResponder.Responder.ProbeAllPcbs | managed_components/espressif__mdns/mdns.c:2494-2511 | every ready PCB probes exactly the new services, united with the old ones unless those are cleared; others are untouched |
| MdnsResponder.Responder.RestartPcb | managed_components/espressif__mdns/mdns.c:2356-2377 | probes everything registered, beside what was being probed, and the address |
| MdnsResponder.Responder.HostnameSet | managed_components/espressif__mdns/mdns.c:5235-5243 | after the host name is set, every ready PCB is in PROBE_1 and probes exactly the registered services |
| MdnsResponder.Responder.RestartAllPcbs | managed_components/espressif__mdns/mdns.c:2610-2632 | the same when the name was changed by a conflict: all old packets are gone |
| MdnsResponder.Responder.RestartNoInstance | managed_components/espressif__mdns/mdns.c:2582-2605 | every ready PCB then probes exactly the services without a name of their own, and nothing changes if there are none |
| MdnsResponder.Responder.LoseHostname | managed_components/espressif__mdns/mdns.c:4205-4219 | a host name lost while probing: the failed probe is counted on that PCB, and every ready PCB probes exactly what is registered |
| MdnsResponder.Responder.AddService | managed_components/espressif__mdns/mdns.c:5991-6031 | the newcomer is registered first in the list and probed beside exactly what was being probed |
| MdnsResponder.Responder.ProbeService | managed_components/espressif__mdns/mdns.c:6654 | a service under a new name is probed on every ready PCB beside exactly what was being probed there |
| MdnsResponder.Responder.ProbeAgain | managed_components/espressif__mdns/mdns.c:2494-2511 | a service name lost while probing: the failed probe is counted on that PCB, and the service joins the probe list of every ready PCB |
| MdnsResponder.Responder.ProbeOnPcb | managed_components/espressif__mdns/mdns.c:2316-2351 | a conflict noticed on any PCB that is not probing, up or not, starts a probe of the services in question there and leaves all other PCBs alone |
| MdnsResponder.Responder.AnnouncePcb | managed_components/espressif__mdns/mdns.c:2451-2489 | on a ready PCB announcing joins the running probe, or adds exactly the records asked for to the first queued announcement, or queues a new packet with exactly these, depending on the state; a PCB that is not ready and all other PCBs are left alone |
| MdnsResponder.Responder.AnnounceAllPcbs | managed_components/espressif__mdns/mdns.c:2516-2524 | the same on every PCB |
| MdnsResponder.Responder.EnablePcb | managed_components/espressif__mdns/mdns.c:4357-4366 | a PCB that can be set up is ready and, with a host name, starts probing; other PCBs are as before |
| MdnsResponder.Responder.DropPcb | managed_components/espressif__mdns/mdns.c:3011-3026 | nothing is left of a PCB that is shut down, neither packets nor probe list |
| MdnsResponder.Responder.DisablePcb | managed_components/espressif__mdns/mdns.c:4371-4385 | the PCB is off; if it was up, its packets and probe list are gone and its duplicate is enabled and probes what is registered; if not, its probe list stays |
| MdnsResponder.Responder.DupPcb | managed_components/espressif__mdns/mdns.c:3030-3048 | if the other interface is ready this one becomes its duplicate, is not ready, and the other one announces the address |
| MdnsResponder.Responder.AnswerQuery | managed_components/espressif__mdns/mdns.c:4294-4296 | a reply is queued exactly when the PCB is announcing or running, never while it is probing |
| MdnsResponder.Responder.TxHandlePacket | managed_components/espressif__mdns/mdns.c:5097-5152 | a transmission is recorded with the state it was sent in, unless the PCB is off, concerns only its PCB and takes it to its next state, keeps all invariants; a probe is repeated in 250 ms without the unicast bit, the third turns into the announcement of all its records, an announcement is repeated after a second |
| MdnsResponder.Responder.ExecuteTxHandle | managed_components/espressif__mdns/mdns.c:5273-5284 | only the head of the queue is transmitted, only if it is the packet the action names and still marked, and never before it was due |
| MdnsResponder.Responder.SchedulerRun | managed_components/espressif__mdns/mdns.c:5343-5375 | exactly the packets between the first one that is not marked and the first one not yet due are offered, in order and once each; those accepted are marked and their transmissions appended, the refused ones lose their mark, and nothing else changes |
| MdnsResponder.Responder.RemoveScheduledAnswer | managed_components/espressif__mdns/mdns.c:1670-1699 | exactly the shared replies of the PCB lose the answer that somebody else gave |
| MdnsResponder.Responder.RemoveScheduledServicePackets | managed_components/espressif__mdns/mdns.c:2782-2861 | every queued packet loses exactly the records of the service, and one question if its PCB is up and probing it; packets in which nothing is left are dropped, the others keep their order; a PCB that is up goes on probing as long as another service or the address is left, goes on announcing unless one of its packets loses all its answers, and else just runs |
| MdnsResponder.Responder.RemoveService | managed_components/espressif__mdns/mdns.c:6669-6720 | the same, with the service unregistered; no probe list has it if and only if no PCB that is not up was probing it; see the findings |
| MdnsResponder.Responder.RemoveAllServices | managed_components/espressif__mdns/mdns.c:6730-6753 | a PCB that is up probes on what is not registered, and the address, or just runs if nothing is left; others are as they were; while every conflict was noticed on a PCB that was up, no queued record is about a service and all probe lists are empty |
| MdnsPurge.PurgePacket | managed_components/espressif__mdns/mdns.c:2782-2861 | one packet and its PCB after a service has left: exactly its records go, and a PCB that is up stops probing exactly if this was the last service and the address is not probed; one that is not up is as before |
| MdnsPurge.PurgedListConcat | managed_components/espressif__mdns/mdns.c:2788-2860 | the packets are dealt with one by one, in their order |
| MdnsPurge.PurgedListOne | managed_components/espressif__mdns/mdns.c:2856-2859 | a packet is dropped exactly if it has no questions, answers, server or additional records left |
| MdnsRecords.AddAnnouncement | managed_components/espressif__mdns/mdns.c:2458-2470 | exactly the four records of each service, and both address records if asked for, are added to the answers, each once; the address records asked for leave the additional ones |
| MdnsRecords.CreateAnnouncePacket | managed_components/espressif__mdns/mdns.c:2166-2191 | the answers are exactly the four records of each service, the server records are the two address records if asked for |
| MdnsRecords.RemoveAnswerMeaning | managed_components/espressif__mdns/mdns.c:1670-1698 | exactly one such record goes, if there is one, and the others keep their order |
| MdnsLimits.RemovedButProbed | managed_components/espressif__mdns/mdns.c:2798 | a service registered, a conflict for it noticed on a PCB that is off, the service removed: the PCB still probes it |
| MdnsLimits.CopiedTooFar | managed_components/espressif__mdns/mdns.c:2265-2283 | the same conflict, then the PCB is disabled and enabled: the old list is copied behind an array made for the new one |
| MdnsLimits.WhenCopiedTooFar | managed_components/espressif__mdns/mdns.c:4357-4366 | in any state: enabling a PCB copies its list too far if and only if it is off with a list left, can be set up, and services are registered |
| MdnsLimits.NamedServiceDropped | managed_components/espressif__mdns/mdns.c:2582-2605 | a service with a name that is being probed when the services without one are restarted stays registered but is not probed any more |
| MdnsLimits.DroppedByRestart | managed_components/espressif__mdns/mdns.c:2500-2507 | of what a PCB was probing, such a restart drops exactly the services with a name of their own |
| MdnsLimits.RefusedThenTaken | managed_components/espressif__mdns/mdns.c:5273-5284 | from the start: the action queue refuses one packet and takes the next in the same pass, its transmission is skipped, and later it stands marked at the head of the queue with nothing pending |
| MdnsLimits.BlockedForGood | managed_components/espressif__mdns/mdns.c:5343-5375 | from such a state on nothing is transmitted on any PCB, in any run of the timer, transmissions, replies and time |
| MdnsCollision.CheckSrvCollision | managed_components/espressif__mdns/mdns.c:2912-2964 | the answer is the rule: longer record data wins, then the lexicographically later (section 8.2 of RFC 6762) |
| MdnsCollision.LaterDataWins | managed_components/espressif__mdns/mdns.c:2926-2962 | a host loses exactly against more data, or as much data with the greater byte at the first difference |
| MdnsCollision.SrvByFields | managed_components/espressif__mdns/mdns.c:2932-2962 | between host names of the same length the greater priority wins, then the greater weight, then the greater port, then the later name |
| MdnsCollision.SrvAntisymmetric | managed_components/espressif__mdns/mdns.c:2912-2964 | two hosts never both think they won, and see no conflict exactly if priority, weight, port and host are the same |
| MdnsCollision.SrvTransitive | managed_components/espressif__mdns/mdns.c:2912-2964 | beating is transitive |
| MdnsCollision.ExactlyOneWinner | managed_components/espressif__mdns/mdns.c:2912-2964 | among any non-empty set of contenders exactly one beats all others |
| MdnsCollision.CheckTxtCollision | managed_components/espressif__mdns/mdns.c:2969-3009 | the same rule on TXT data built entry by entry, with its special cases for data of at most one byte and for no attributes |
| MdnsCollision.TxtAntisymmetric | managed_components/espressif__mdns/mdns.c:2969-3009 | two hosts never both think their TXT record won, and see no difference exactly if the data is the same |
| MdnsCollision.TxtTieBreak | managed_components/espressif__mdns/mdns.c:2969-3009 | the comparison run by each host on the data of the other gives opposite answers |
| MdnsRename.NumberingReadBack | managed_components/espressif__mdns/mdns.c:232-270 | a number printed behind a name is the number read from it, with the same base |
| MdnsRename.NextFits | managed_components/espressif__mdns/mdns.c:232-270 | the next number has at most one digit more than the text it replaces |
| MdnsRename.NamesNeverRepeat | managed_components/espressif__mdns/mdns.c:232-270 | repeated renaming never returns to an earlier name, as long as the number stays below INT_MAX |
| MdnsRename.MangleName | managed_components/espressif__mdns/mdns.c:232-270 | all writes stay inside the allocation, and the result is the name with its number increased, or with -2 behind it, terminated |
| MdnsRename.LoseConflict | managed_components/espressif__mdns/mdns.c:232-270 | a conflict lost: the next name claimed, again without a terminator inside |
| MdnsRename.LoseConflicts | managed_components/espressif__mdns/mdns.c:232-270 | conflicts lost one after the other: all names claimed are different |
| MdnsTxt.AppendOneTxtRecordEntry | managed_components/espressif__mdns/mdns.c:665-683 | writes one byte of length, the key, and an equals sign and the value if there is one, or nothing when they do not fit the packet |
| MdnsTxt.AppendTxtData | managed_components/espressif__mdns/mdns.c:1002-1017 | the data part has all attributes in order, or is refused as a whole |
| MdnsTxt.TxtItemsCountGet | managed_components/espressif__mdns/mdns.c:3510-3532 | the number of entries before the first empty one, or an error if one reaches beyond the data |
| MdnsTxt.CountOfPacked | managed_components/espressif__mdns/mdns.c:3510-3532 | any strings are counted up to an empty one or the end of the data, and one that would reach beyond it makes the data malformed |
| MdnsTxt.TxtItemNameGetLen | managed_components/espressif__mdns/mdns.c:3537-3548 | the position of the first equals sign, the whole length without one, an error if it comes first |
| MdnsTxt.ResultTxtCreate | managed_components/espressif__mdns/mdns.c:3553-3644 | both passes over any data give what the specification Read says, including the errors |
| MdnsTxt.ParseEnds | managed_components/espressif__mdns/mdns.c:3585-3593 | the second pass ends at an empty string or the end of the data, and with an error at a string that would reach beyond it |
| MdnsTxt.RoundTrip | managed_components/espressif__mdns/mdns.c:3553-3644 | well-formed attributes written by the encoder are read back as the same list in the same order, empty values as null, if and only if all but possibly the last have a value |
| MdnsTxt.EmptyRoundTrip | managed_components/espressif__mdns/mdns.c:1009-1013 | no attributes are written as one zero byte and read back as no result |
| Slip.BodyHasNoDelimiters | managed_components/em_slip/slip.c:155-204 | between the delimiters of a frame neither of them occurs |
| Slip.EncodedExample | managed_components/em_slip/slip.c:155-204 | a frame with all three special bytes, byte by byte |
| Slip.SlipEncode | managed_components/em_slip/slip.c:155-204 | succeeds exactly when payload, escapes and two delimiters fit the buffer, and then the buffer has the whole frame |
| Slip.StaticDataEncoder | managed_components/em_slip/slip.c:331-348 | hands out the frame exactly when it fits |
| Slip.Codec.DecodeByte | managed_components/em_slip/slip.c:66-139 | one byte changes flags and payload as the specification OnByte says |
| Slip.Codec.Decode | managed_components/em_slip/slip.c:45-143 | the loop over the input is the specification scan: same status, payload, flags and bytes used, and what was decoded before stays |
| Slip.DeliversExactly | managed_components/em_slip/slip.c:45-143 | a payload is handed out after n bytes if and only if these are bytes without a start byte, a start byte, the payload with each special byte escaped, where an escape byte may stand several times, and an end byte |
| Slip.BadEscape | managed_components/em_slip/slip.c:111-131 | an escape byte followed by none of the codes ends the frame as invalid, one followed by the end byte as incomplete |
| Slip.Codec.AddData | managed_components/em_slip/slip.c:206-226 | all of the new data is appended, or nothing |
| Slip.Codec.SlipDecode | managed_components/em_slip/slip.c:228-264 | at most 16 turns; after each the bytes used are gone from the front of the input |
| Slip.ErrorDropsPayload | managed_components/em_slip/slip.c:245-260 | after an error, or when no start byte is found, nothing of the payload is kept |
| Slip.SixteenCuts | managed_components/em_slip/slip.c:233-263 | sixteen frames that are cut at once use up the rounds of one call, and it gives up with input left |
| Slip.Codec.StaticDataDecoder | managed_components/em_slip/slip.c:266-329 | the wrapper drains the input to its end: status, payload handed out and flags, with both buffers empty afterwards |
| Slip.ReceiveItems | managed_components/em_slip/slip.c:266-329 | one call on garbage and frames in any order, if no garbage has the start byte: OK, the payloads joined in order, and the decoder idle again |
| Slip.SendAndReceive | managed_components/em_slip/slip.c:266-348 | what the encoder wrapper accepts, the decoder wrapper gives back |
| Slip.FeedFrame | managed_components/em_slip/slip.c:206-264 | one frame in any non-empty chunks, even cut between an escape and its code: all calls but the last answer INCOMPLETE, the last one has the payload, and the codec is idle again |
| Slip.CutLosesNextFrame | managed_components/em_slip/slip.c:69-77 | the frame behind an unfinished one is delivered exactly if nothing of the unfinished one came; see the findings |
| ByteBuffer.Buffer.PopFront | managed_components/em_buffer/buffer.c:15-24 | the first bytes go and the others move to the front |
| ByteBuffer.Buffer.Push | managed_components/em_buffer/buffer.c:26-29 | one byte is appended |
| RingBuffer.Ring.Write | managed_components/em_ringbuf/ringbuf.c:27-52 | the ring then holds the newest bytes of its old contents and the data, as many as it has room for |
| RingBuffer.NewestAtEnd | managed_components/em_ringbuf/ringbuf.c:27-52 | the newest bytes of a sequence are those at its end |
| RingBuffer.Ring.Read | managed_components/em_ringbuf/ringbuf.c:55-80 | the oldest bytes, as many as asked for or there, which stay in the ring |
| RingBuffer.Ring.Clear | managed_components/em_ringbuf/ringbuf.c:94-120 | the oldest bytes go; the answer is the number asked for, also when less was there |
| RingBuffer.Ring.Len | managed_components/em_ringbuf/ringbuf.c:129-140 | the number of bytes held, in all four cases of the two indices |
| RingBuffer.Ring.IsFull | managed_components/em_ringbuf/ringbuf.c:89-92 | true exactly when the ring holds as many bytes as it has room for |
| RingBuffer.Ring.IsEmpty | managed_components/em_ringbuf/ringbuf.c:83-86 | true exactly when the ring holds nothing |
| RingBuffer.Ring.FreeLen | managed_components/em_ringbuf/ringbuf.c:142-145 | the room left |
| RingBuffer.Ring.Flush | managed_components/em_ringbuf/ringbuf.c:122-127 | nothing is left in the ring |
| RingBuffer.RunOps | managed_components/em_ringbuf/ringbuf.c:27-127 | after any operations the ring holds exactly what was ever written without what was cleared, flushed or overwritten |
| Crc16.RemIsRemainder | main/modules/rs232_2400_protocol/rs232_2400_protocol.c:870-878 | the bitwise remainder is the remainder of the division of polynomials over GF(2) by x^16 + x^12 + x^5 + 1, the only one of lower degree |
| Crc16.Lookup | main/modules/rs232_2400_protocol/rs232_2400_protocol.c:854-868 | each of the 256 table entries is the remainder of its byte followed by sixteen zero bits |
| Crc16.CrcStep | main/modules/rs232_2400_protocol/rs232_2400_protocol.c:870-878 | shifting one byte through the register is dividing the message that is one byte longer |
| Crc16.Crc16Xmodem | main/modules/rs232_2400_protocol/rs232_2400_protocol.c:870-878 | the table-driven loop computes the remainder of the message times x^16, on every message |
| Crc16.ResidueIsZero | main/modules/rs232_2400_protocol/rs232_2400_protocol.c:817-835 | a message with its checksum behind it, most significant byte first, has checksum zero |
| Crc16.ShortBurstsAreDetected | main/modules/rs232_2400_protocol/rs232_2400_protocol.c:870-878 | any change confined to two neighbouring bytes changes the checksum |
| Rs232Frame.Serialize | main/modules/rs232_2400_protocol/rs232_2400_protocol.c:817-835 | payload, checksum most significant byte first, carriage return |
| Rs232Frame.RecognisedExactly | main/modules/rs232_2400_protocol/rs232_2400_protocol.c:622-690 | a text is recognised if and only if the bytes have it between the last parenthesis and the first carriage return behind that, with its right checksum |
| Rs232Protocol.Protocol.RspParse | main/modules/rs232_2400_protocol/rs232_2400_protocol.c:622-815 | the scanning loops give exactly this result, the error count grows by the checksum errors, and only bytes that are done with are overwritten |
| SerialRx.Receiver.ParseData | managed_components/em_serial_client/rx.c:57-115 | at most eight packets, stopping at the first that settles the request or is damaged; the request outstanding and its slot change only if it is rejected |
| SerialRx.ParseStopsBehind | managed_components/em_serial_client/rx.c:82-111 | a text that is recognised and decoded, a rejection, a damaged and a malformed packet end the call: nothing behind it is looked at |
| SerialRx.ParseGoesOn | managed_components/em_serial_client/rx.c:82-111 | without a packet, or with one whose decoder reports anything else, it goes on behind it |
| SerialRx.NothingOutstanding | managed_components/em_serial_client/rx.c:63-70 | as long as no request is outstanding, whatever is received stays in the ring |
| SerialRx.Receiver.PacketHandler | managed_components/em_serial_client/rx.c:117-135 | the request answered is no longer outstanding, and its first active slot is settled |
| SerialRx.Receiver.ProcessData | managed_components/em_serial_client/rx.c:13-54 | ring, outstanding request, table and texts recognised after any chunk are those of the specification on the newest bytes; what is not done with stays in the ring |
| SerialStream.ReceiveAnswer | managed_components/em_serial_client/rx.c:13-115 | an answer in arbitrary chunks, behind noise and before more: recognised at the chunk with its carriage return and not before, and until then the ring holds everything from its parenthesis on |
| SerialStream.OnlyNakSettles | managed_components/em_serial_client/rx.c:57-115 | with decoders that never report PARSE_STATUS_OK only a rejection settles a request, whatever is received; see the findings |
| SerialStream.SerializedLengthsFit | main/modules/rs232_2400_protocol/rs232_2400_protocol.c:817-835 | the length kept in one byte is never zero exactly for payloads of less than 253 bytes, so the assertion in send_rq cannot fire for those |
| SerialStream.AnsweredInVain | managed_components/em_serial_client/task.c:83-170 | a request answered correctly after every transmission is still sent one time more than its retries and then given up; see the findings |
| RequestTable.Client.AddRq | managed_components/em_serial_client/tx.c:20-70 | takes the first free slot with a payload of its own and books the timer, or changes nothing and says why |
| RequestTable.Client.AddPeriodicRq | managed_components/em_serial_client/tx.c:72-123 | the same for a request that is repeated |
| RequestTable.Client.RemovePeriodicRq | managed_components/em_serial_client/tx.c:125-151 | deactivates the first slot that was last used for such a request, whether it is in use or not, and stops the timer if nothing is left |
| RequestTable.Client.AckRsp | managed_components/em_serial_client/rx.c:157-191 | exactly the first active request of this kind starts to wait anew; if it has retries it is given up instead and its payload freed |
| RequestTable.Client.ScheduleNextTimerEvt | managed_components/em_serial_client/task.c:172-194 | every active request is charged with the wait, whether the timer could be started or not |
| RequestTable.Client.FindEarliest | managed_components/em_serial_client/task.c:95-107 | the first of the requests with the least time left |
| RequestTable.Client.SendRq | managed_components/em_serial_client/task.c:83-170 | at most one request is sent, the one with the least time left, only if that is at most 50 ms; none of the assertions fires; the new table, the timer and the count of transmissions are given, and the pause after it is kept exactly if nothing else is overdue |
| RequestTable.RunCommands | managed_components/em_serial_client/task.c:46-80 | after each of any commands the table is what the commands so far make of it: a slot is active exactly when it has a payload, a request with less than 255 retries is sent at most one time more than its retries, and the payloads allocated are those in the table, each freed once |
| RequestTable.PeriodicGoesOn | managed_components/em_serial_client/task.c:46-80 | whatever the commands, a periodic request stays in its slot as it is, until it is removed |
| RequestTable.AnswerSettles | managed_components/em_serial_client/rx.c:174-189 | whatever comes later, a request with retries is not sent again after its answer, and its payload is in no slot |
| RequestTable.GivenUpAfter | managed_components/em_serial_client/task.c:129-139 | a request without an answer is given up after one transmission more than its retries if and only if those are not 255; see the findings |
| RequestTable.WaitsForTimeout | managed_components/em_serial_client/task.c:129-139 | until it is given up, a request that is sent once waits for its whole timeout after each transmission |
| RequestTable.PeriodicCycle | managed_components/em_serial_client/task.c:140-150 | a periodic request without an answer is sent three times, 100 ms apart, and then waits for its whole period |
| RequestTable.PauseAfterRequest | managed_components/em_serial_client/task.c:165-167 | the pause of 100 ms after a request is kept if and only if no other request is overdue when it is sent; see the findings |
| RequestTable.OverdueRun | managed_components/em_serial_client/task.c:83-170 | three requests with a timeout of 60 ms make the timer be started with -40 ms |
| RequestTable.RemovalStopsRequest | managed_components/em_serial_client/tx.c:125-151 | removing a periodic request stops it if and only if no slot behind the first match is still sending it; see the findings |
| RequestTable.StaleSlotRun | managed_components/em_serial_client/tx.c:125-151 | the same periodic request added twice and removed twice, both times with success, is still being sent |
| Button.LevelFlipsExactly | managed_components/espressif__button/iot_button.c:120-128 | the debounced level flips exactly when as many consecutive samples as debouncing asks for differ from it |
| Button.EdgeMeaning | managed_components/espressif__button/iot_button.c:120-128 | the time since the last edge: the debounced level has been the same since, and was another one before |
| Button.Btn.Debounce | managed_components/espressif__button/iot_button.c:120-128 | counter and level after one more sample are those of the whole history of samples, and the level flips exactly if the last samples all differ from it, as many as debouncing asks for |
| Button.Btn.Step | managed_components/espressif__button/iot_button.c:131-317 | one tick of the gesture machine gives only events that the observer allows now, none of them late, and reports exactly the edges of the level; the event shown is the last one reported |
| Button.Btn.Handle | managed_components/espressif__button/iot_button.c:111-317 | every tick keeps the machine in agreement with the observer of its whole trace |
| Button.ClicksAgree | managed_components/espressif__button/iot_button.c:180-211 | before every PRESS_REPEAT_DONE each click that the number of presses calls for is reported exactly once, a single click for one, a double click for two, and a multiple click always, and never otherwise |
| Button.RunSamples | managed_components/espressif__button/iot_button.c:111-317 | any sequence of samples, with debouncing, presses and clicks as they follow from the debounced level alone: PRESS_DOWN and PRESS_UP come exactly at its edges, PRESS_REPEAT exactly at a rising edge in a gesture, LONG_PRESS_START exactly when the first press has been held for its time, LONG_PRESS_UP exactly at the release of such a press, PRESS_END exactly at that release, at that of a repeated press that was held, and one tick after a short press time without a press, and there PRESS_REPEAT_DONE with the number of presses modulo 256; there are as many single, double and multiple clicks as ends of one, two and any number of presses |

## Findings

Where the code does not do what it is meant to do, the model follows the code,
and the members named give an input and the exact condition.

- `MdnsTxt.RoundTrip`: an attribute without an equals sign makes the parser
  skip one byte too many (mdns.c:3611), so whatever follows a bare key is read
  wrongly. The round trip holds if and only if none but the last attribute is
  bare. Section 6.4 of RFC 6763 allows bare keys anywhere.
- `Slip.CutLosesNextFrame`: the comment at slip.c:71 says that the start byte
  which cuts a frame short is put back, but the code decrements the pointer to
  the count and not the count. The frame that this byte starts is lost, and the
  wrapper nevertheless answers OK. It is delivered if and only if nothing of
  the unfinished frame came before it.
- `Slip.DeliversExactly`: an escape byte directly behind another is ignored
  (slip.c:78-82), so a frame with several in a row is accepted and stands for
  the same payload as one without.
- `SerialStream.OnlyNakSettles` and `SerialStream.AnsweredInVain`: the decoders
  (rs232_2400_protocol.c:103-620) return zero or something negative, and the
  receiver waits for PARSE_STATUS_OK, which is one. So a valid answer never
  settles its request: whatever is received, only a rejection does, and a
  request that is answered every time is sent until its retries are used up.
- `RequestTable.GivenUpAfter`: retries are counted in eight bits, so a request
  with 255 retries is never given up. All others are.
- `RequestTable.PauseAfterRequest` and `RequestTable.OverdueRun`: the pause
  after a request is compared as an unsigned number (task.c:165), so a negative
  delay is not raised to 100 ms. The pause is kept if and only if nothing else
  is overdue when a request is sent; three requests with a timeout of 60 ms
  that get no answer start the timer with -40 ms.
- `RequestTable.RemovalStopsRequest` and `RequestTable.StaleSlotRun`: removal
  does not look at whether a slot is active (tx.c:131), so it can hit a slot
  that was removed before. It stops the request if and only if no slot behind
  the first match is sending it; added twice and removed twice, it goes on.
- `OtaDecryptor.AnswerIsRight` and `OtaDecryptor.FreshSaysComplete`: the
  completeness answer compares the announced size, zero until it is known, with
  the count of the field being read. It is true for a fresh handle and between
  header fields. From the end of the header on it is always right, and before
  that exactly outside the lengths listed in `OtaDecryptor.TooSoon`.
- `OtaImage.NoPayload`: without a payload the last call reallocates to zero
  bytes. The image is accepted exactly if that gives a usable pointer, so
  `OtaImage.CuttingDoesNotMatter` needs a payload and a last chunk with at least
  one byte.
- `MdnsResponder.Responder.RemoveService` and `MdnsLimits.RemovedButProbed`: a
  packet can be received for a PCB that is off or a duplicate, because the
  socket belongs to the interface and not to the protocol
  (mdns_networking_lwip.c:192, 243-245). A conflict in it starts a probe on that
  PCB (mdns.c:4097, 4166, 4221, 4278), but the removal of a service purges only
  the probe lists of PCBs that are up (mdns.c:2798). So the probe list keeps a
  service that is gone. No trace is left if and only if no PCB that is not up
  is probing the service.
- `MdnsLimits.CopiedTooFar` and `MdnsLimits.WhenCopiedTooFar`: disabling such a
  PCB sets it off and leaves its probe list (mdns.c:4384). When it is enabled
  next, the array has room for the new services only, as the PCB is not
  probing, and the old list is copied behind its end (mdns.c:2265-2283). This
  happens if and only if the PCB is off with a list left, can be set up, and
  services are registered. A conflict cannot do it: probe_running is still set.
- `MdnsLimits.NamedServiceDropped` and `MdnsLimits.DroppedByRestart`: restarting
  the services without a name of their own clears the probe lists
  (mdns.c:2500-2507). Exactly the services with a name that were being probed
  are dropped; they stay registered, and nothing probes them again.
- `MdnsSchedule.PassPromises`, `MdnsLimits.RefusedThenTaken` and
  `MdnsLimits.BlockedForGood`: when the action queue refuses a packet and takes
  a later one in the same pass, the later transmission is skipped because its
  packet is not the head (mdns.c:5273-5284), and its mark stays. Once it is the
  head, nothing behind it is ever offered again. All marked packets have their
  transmission pending if and only if nothing is taken behind something refused.
- `MdnsProbe.OwnQuestionGoes`: the question of a removed service is found by its
  type and protocol (mdns.c:2825-2845), so that of another service with the same
  strings may go. It is the right one if and only if the first question with
  these strings is for the service itself.
- `MdnsPurge.PurgePacket`: when the last probed service goes and the address is
  not probed, the PCB goes straight to RUNNING without three probes
  (mdns.c:2815-2823). The history has this as a probe abandoned: no announcement
  may claim to follow it.

## Left out

- MdnsResponder.Responder.ExecuteTxHandle: packets sent at once without the queue (goodbyes, searches, browsing) are not modelled, so the record of transmissions has only queued packets.
- MdnsProbe.CreateProbePacket: host names of services are known by the service that owns them, and the address records are those of one host; delegated hosts are not modelled.
- MdnsResponder.Responder.TxHandlePacket: allocations in the responder succeed, so the branch that repeats PROBE_3 when no announcement can be made is not modelled.
- MdnsRuns.RunSteps: the number of announcements is not stated, because a reply sent while announcing advances that counter too.
- MdnsLimits.CopiedTooFar: what the copy behind the array overwrites, and what is read through a pointer to a service that is gone, is not modelled; the copy is only recorded.
- MdnsResponder.Responder.SendPacket: a transmission is recorded when it is handed to the network layer, which drops those of a PCB that is not up.
- MdnsResponder.Responder.ProbeAgain: failed probes are counted without the limit of the eight-bit field.
- MdnsResponder.Responder.DropPcb: closing the sockets of a PCB succeeds.
- MdnsRename.MangleName: a suffix of INT_MAX is excluded, as the addition overflows there.
- MdnsTxt.AppendTxtData: the record header with its compressed name is not modelled.
- OtaDecryptor.Handle.DecryptData: calls after a call that failed are not modelled.
- OtaDecryptor.Handle.ProcessGcmKey: key derivation by RSA or ECIES and the export of public keys are a parameter.
- RingBuffer.Ring.Write: the assertions on empty data are preconditions.
- Rs232Protocol.Protocol.RspParse: the decoders of single messages are a parameter, and the buffer they fill is not modelled.
- SerialRx.Receiver.PacketHandler: which registered handler is called with the payload is not modelled.
- RequestTable.Client.ScheduleNextTimerEvt: a timer that cannot be started stays as it was; waiting times are unbounded integers.
- RequestTable.RunCommands: data received is one of the commands only through its effect, the settling of a request; SerialRx.Receiver.ProcessData has the rest.
- Slip.Codec.Decode: as for SlipDecode, what is pushed has to fit the payload buffer.
- Slip.Codec.SlipDecode: what is pushed has to fit the payload buffer, as the configured sizes ensure; the code does not check it.
- Slip.Codec.StaticDataDecoder: the wrapper across several calls is left out, as it empties its buffers each time; FeedFrame is about the codec itself.
- Button.Btn.Step: callbacks registered for certain press times or click counts, power saving and the wrap of the 32-bit tick counter are not modelled.
- The DNS name compression and the parser of whole packets: they need assumptions on packet contents that the code does not establish.
- Sockets, Wi-Fi, drivers, storage, the TCP message formats, the glue between the parts and the console: input and output, or properties that a single body shows.
