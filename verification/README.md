# A verified model of the WebRTC peer

This project models the protocol logic of the WebRTC implementation under `src/` and proves what that logic keeps over
whole runs. `dafny verify dfyconfig.toml` checks all of it.

**How it is built.** Where the source changes things in place, there is a class whose methods are the source's loops and
branches, proved to compute a function on values; what the source promises is then proved about those functions, over
every run. A run is a sequence of public calls, each atomic. What the source gets from outside (the clock, the answer of
the SCTP library, a fresh random identifier, the position at which a description turns out to be malformed) is a
parameter.

**The parts.**

| part | values and theory | in place | what holds over runs |
|---|---|---|---|
| sequence numbers | `SerialNumbers` | | |
| loss tracker | `LossWindow` | `LossTracker` | `LossRuns`, `ResendTimers`, `LossReports` |
| NACK and RTCP | `Wire`, `Rtcp`, `RtcpLayout`, `RtcpParsing`, `GenericNack` | `GenericNack`, `RtcpCursor`, `Compound` | `Compound`, `NearLosses` |
| offer/answer | `Negotiation`, `Sections` | `PeerConnections` | `NegotiationInvariants`, `SenderLines`, `Wishes`, `TwoPeers`, `Conclusions`, `PeerRoles`, `LostOffers`, `OfferOutcomes`, `StreamAgreement`, `SendersHeard`, `NegotiationRuns`, `EmptyLineRuns`, `SenderRuns` |
| data channels | `DataChannels` | `ChannelApplications`, `ChunkQueues` | `DataChannelRuns`, `ChannelHistories`, `DataChannelPeers`, `StreamFreeing`, `PeerChannels` |
| retransmission | `PacketHistory` | `PacketHistory`, `Retransmission` | `PacketHistoryRuns`, `Retransmission` |
| receiver | `ReceiverStats`, `Remb` | `BandwidthRings`, `MediaReceivers` | `BandwidthLogs` |

**Where the code does something other than its documentation or a standard says.** The model follows the code; the exact
condition under which the two agree is proved.

- `create_generic_nack` stores the distance d at bit d, and the iterator reads bit k as packet_id + k + 2
  (src/utils/rtcp/packets/transport_feedback.rs:28-31 and :95), where section 6.2.1 of RFC 4585 says bit k is
  packet_id + k + 1. Every number but a group's head comes back two higher. A list survives exactly when no two
  neighbours are within 16 (`DriftingConventionReadsBackExactlyWhenFarApart`); with RFC 4585's numbering on both sides
  every list does. When packets 101 and 102 are lost, 101 and 104 are asked for (`NearLossIsMisread`).
- The clipping window is said to be at least as long as the frame (src/utils/resend_requester.rs:44). The tracker needs
  packets up to two frames ahead to be placed rightly, which they are exactly when 2 · frame <= 1024
  (`PlacesExactlyWhenTwoFramesFit`, with a misplaced packet for every longer frame). The model takes this bound.
- Reports read the padding flag from a bit of the version field and do not strip padding: they come back exactly when
  the profile data is absent, or non-empty and 4-aligned. Payload feedback comes back exactly when its payload is
  4-aligned.
- Transport and payload feedback subtract 2 from the length field without a check. A smaller length is the error
  `LengthUnderflow` here; the source panics, or wraps around without overflow checks.
- A glare, as section 4 of RFC 3264 calls two crossing offers, is refused on both sides and never resolved. The same
  happens without crossing: an end in NegotiationRequired refuses offers too, and one offer to it is lost
  (`OfferIsLostWithoutCrossing`, `GlareIsForever`).
- An offer that cannot be generated has already given its lines their indices (src/rtc.rs:631-646), and a section is
  applied to the line with its index. A section of another type is taken without error, except that an audio or video line
  finds no codec in an application section (src/media/media_line.rs:199-215). So a new peer with an audio sender without
  codecs fails to offer, then accepts an offer of video on its audio line, and the two ends never agree
  (`FailedOfferCanClash`); an offer of data channels it refuses half-way, and the offerer waits for ever, in no glare
  (`OfferCanBeUnreadable`). An answer can be refused in the same way, its sender being negotiated (`AnswerCanBeUnreadable`).
  Ends that are both negotiated agree exactly when no offer clashed (`PeersAgreeExactlyWhenNothingClashed`). A waiting end
  can still get its answer exactly when its offer has met, and will meet, no glare, and at no index exactly one of the two
  ends has an application line (`AnswerExactlyWhenReadableWithoutGlare`).
- A channel made before the first remote description is on an even stream, and keeps it when the end becomes server
  (src/application.rs:474). The client's request for that stream is then dropped (`FirstChannelBlocksClient`). Requests
  are treated rightly in every run exactly when no early channel is on a stream the other end may still take
  (`OpenIsAcceptedExactlyWhenFree`); so it is for an end that becomes client (`ClientWaitsOnItsOwnStreams`).
- An offerer learns its own role only from an answer that says something: if all sections of the answer are inactive,
  its setup stays undecided (`OffererLearnsRoleExactlyWhenAnswerSaysSomething`, `OffererCanStayUndecided`).
- An end whose incoming stream is reset forgets the channel but does not reset its own direction, as section 6.7 of
  RFC 8831 asks. A stream can therefore come free at its opener exactly when the other end wants or has sent its reset,
  holds it open, or can still come to (`FreedExactlyWhenOtherEndCanClose`, `OnlyTheOtherEndFreesAStream`), and a request to
  open can be lost on a stream its opener took for free (`ReopeningCanBeLost`); what does hold of every such request is
  `OpenIsAcceptedExactlyWhenFree`.
- After a pause of 64 seconds or more the bandwidth rings are walked only by the pause modulo 64
  (`AdvanceAgreesExactly`).
- `resend_packet` takes the oldest saved packet with a number, which is the last one sent under it exactly when no other
  saved packet has the number (`AnswerIsLatestExactlyWhenUnique`).
- A section whose setup contradicts the end's own is refused, but recorded as the remote side before that
  (src/transport/mod.rs:309-381); the same section is taken the next time (`ContradictionIsFoundOnce`).
- The stream behind DTLS and SCTP panics on an empty chunk at the front of its queue (src/application.rs:628,
  src/transport/mod.rs:820); reading then gives the error `EmptyChunk`.
- `highest_sequence_timestamp` is never updated (src/media/receiver_stats.rs:132), so from the fifth second on every
  packet sets the highest sequence number (`HighestIsMaximumWhileEarly`). The model leaves the constant field out.

## Model

| member | source | states |
|---|---|---|
| SerialNumbers.LessIsSerialExactlyWhenThreeWindowsFit | src/utils/packet_id.rs:26-38 | for every modulus and every window below it, the windowed comparison is the one of section 3.2 of RFC 1982 on all pairs within the window exactly when three windows fit the number space |
| SerialNumbers.DifferenceIsCircularExactlyWithinWindow | src/utils/packet_id.rs:40-66 | for a window that fits three times, the difference is the circular distance for pairs up to the window, and for no larger bound |
| SerialNumbers.DifferenceSeparatesNearFromFar | src/utils/packet_id.rs:40-66 | the difference is symmetric, exact for near pairs, and never at most the window for a far pair |
| LossWindow.NumbersAreExact | src/utils/resend_requester.rs:252-269 | a walk lists a number exactly when its slot is of the sort asked for |
| LossWindow.EarliestIsMinimum | src/utils/resend_requester.rs:262-264 | the next expected time is the minimum of the future deadlines |
| LossTracker.WrapIsModulo | src/utils/resend_requester.rs:228 | one conditional subtraction is the source's `%` on ring indices |
| LossTracker.ResendRequester.constructor | src/utils/resend_requester.rs:61-86 | a new tracker: nothing open, 64 slots unless told otherwise |
| LossTracker.ResendRequester.HandlePacketReceived | src/utils/resend_requester.rs:124-183 | the ring, its head, the events and the timer after a packet are those of the window after `Handle`, in all branches (stale, in window, shift, gapped, silent) |
| LossTracker.HandleByDifference | src/utils/resend_requester.rs:135-150 | for every frame of at most half the clipping window, the source's tests on windowed comparison and difference pick the same branch as the forward distance from the base, across every wrap |
| LossTracker.PlacesExactlyWhenTwoFramesFit | src/utils/resend_requester.rs:44 | those tests place every packet within two frames ahead by its forward distance exactly when two frames fit the clipping window; for any longer frame, number 0 after base 64511 is misplaced |
| LossTracker.ResendRequester.Shift | src/utils/resend_requester.rs:157-171 | the oldest slots are replaced, the pending ones among them reported, and the head moves |
| LossTracker.ResendRequester.Restart | src/utils/resend_requester.rs:141-149 | everything pending is reported, the window ends at the new number, and the marker event follows if anything was pending |
| LossTracker.ResendRequester.FlushPendingPackets | src/utils/resend_requester.rs:218-238 | one walk round the ring marks everything received and collects what was pending, in window order |
| LossTracker.ResendRequester.UpdatePacketResendRequests | src/utils/resend_requester.rs:240-286 | nothing while the timer is set; otherwise due numbers are requested, expired ones given up, and the timer set to the interval or the next deadline |
| LossTracker.ResendRequester.ScanWalk | src/utils/resend_requester.rs:246-269 | one walk round the ring sorts every slot into expired, due or waiting and returns the earliest waiting deadline |
| LossTracker.ResendRequester.PollNext | src/utils/resend_requester.rs:292-307 | the oldest unread event, or else the elapsed timer's walk |
| LossTracker.ResendRequester.Reset | src/utils/resend_requester.rs:104-113 | an empty window at number 0 without timer; the flushed numbers are held back silently |
| LossTracker.ResendRequester.ResetResends | src/utils/resend_requester.rs:119-122 | nothing open, no timer, the window stays in place |
| LossTracker.ResendRequester.SetFrameSize | src/utils/resend_requester.rs:88-94 | what was pending is reported and the window is empty with the new size |
| LossRuns.HandleIsMapStep | src/utils/resend_requester.rs:124-183 | the ring refines a map from open numbers to deadlines: stale packets change nothing, others remove their number, a shift drops the oldest and adds the skipped, a restart empties the window and ends it at the new number |
| LossRuns.LossesAreConserved | src/utils/resend_requester.rs:157-168 | over every run each number that became open is, as often as it did, received, in one loss report, held back after a silent flush, or still open |
| LossRuns.NoLostWakeUp | src/utils/resend_requester.rs:240-286 | between calls an open number means a set timer, at most the larger of the settings ahead, and firing less than 1000 ms plus that after the number's deadline |
| LossRuns.TimerRunIsExact | src/utils/resend_requester.rs:252-285 | a timer run requests exactly the due numbers younger than 1000 ms, gives up exactly the older ones together with those held back, and keeps the rest open |
| LossRuns.ResendRequestsAscend | src/utils/resend_requester.rs:277-278 | every list ever requested is strictly increasing in serial order within one window |
| ResendTimers.TimerRunRearms | src/utils/resend_requester.rs:277-285 | after a timer run, on the open numbers alone: the timer is one resend interval ahead if any number was due and not yet given up; else it is the earliest deadline of what stays open, or gone if nothing does |
| ResendTimers.PacketRearms | src/utils/resend_requester.rs:240-286 | a packet leaves a set timer alone, and sets a missing one by the same law on what is open behind it |
| ResendTimers.ResendRequestsAreSpaced | src/utils/resend_requester.rs:277-283 | over every run, whatever the settings: between resets and resizes each resend request comes at least the interval set at the one before it after that one |
| LossReports.PacketReportsExactly | src/utils/resend_requester.rs:124-183 | every event of an accepted packet, in order: the numbers that leave the window with those held back, the marker of a sequence that ended with numbers open, what a walk gives up, and what it asks for; the packet's number and time are recorded |
| LossReports.NewStartsAnew | src/utils/resend_requester.rs:61-86 | a new tracker has nothing open, no timer and nothing to report, and its first packet starts a sequence exactly unless the clock is in the second before its 32 bits end |
| LossReports.ResetForgets | src/utils/resend_requester.rs:104-113 | a reset reports nothing and holds back what was open; nothing is open, no timer is set, and the next packet starts a new sequence exactly unless the clock is in the second before its 32 bits end |
| LossReports.ResetResendsKeepsSequence | src/utils/resend_requester.rs:119-122 | giving up the resends holds back what was open, and every packet falls where it would have |
| LossReports.ResizeReports | src/utils/resend_requester.rs:88-94 | a new size reports what was open and held back in one event and starts anew |
| LossReports.EventsAreGivenInOrder | src/utils/resend_requester.rs:292-307 | over every run the consumer is given every event once, in the order they were made |
| LossReports.LastIdIsLastAccepted | src/utils/resend_requester.rs:178 | over every run the number a receiver report gives is that of the last accepted packet since the last reset |
| GenericNack.NackReadsBack | src/utils/rtcp/packets/transport_feedback.rs:83-104 | the exact law of grouping and expanding for any pair of bit conventions: heads stay, all others move by the drift |
| GenericNack.SameConventionReadsBackExactly | src/utils/rtcp/packets/transport_feedback.rs:19-38 | with one convention on both sides (RFC 4585's among them) every list comes back |
| GenericNack.DriftingConventionReadsBackExactlyWhenFarApart | src/utils/rtcp/packets/transport_feedback.rs:19-38 | with differing conventions, as in the source, a list comes back exactly when no two neighbours share a group |
| GenericNack.CreateGenericNack | src/utils/rtcp/packets/transport_feedback.rs:83-104 | the two nested loops compute the grouping with the source's convention |
| GenericNack.NackPacketIterator.Next | src/utils/rtcp/packets/transport_feedback.rs:19-38 | each call takes the first of what is left of the expansion |
| GenericNack.LostPackets | src/utils/rtcp/packets/transport_feedback.rs:61-63 | draining the iterator gives the whole expansion |
| Wire.ProfileReadsBackExactlyWhenToldTruly | src/utils/rtcp/mod.rs:21-79 | for every non-empty payload, reading undoes writing exactly when the reader is told truly whether padding was added; the length helper is right |
| Rtcp.BlockReadsBack | src/utils/rtcp/mod.rs:103-146 | a report block comes back from its 20 bytes |
| Rtcp.ReportsReadBack | src/utils/rtcp/packets/receiver_report.rs:15-81 | the map of report blocks, as written, comes back whole |
| Rtcp.ReportsAscend | src/utils/rtcp/packets/sender_report.rs:64-98 | each block is written once, in ascending order of its key |
| Rtcp.SenderReportReadsBackExactlyWhenClean | src/utils/rtcp/packets/sender_report.rs:20-98 | a sender report comes back exactly when its profile data is absent, or non-empty and 4-aligned |
| Rtcp.ReceiverReportReadsBackExactlyWhenClean | src/utils/rtcp/packets/receiver_report.rs:15-81 | the same for receiver reports |
| Rtcp.TransportFeedbackReadsBack | src/utils/rtcp/packets/transport_feedback.rs:136-213 | a NACK packet of any number of pairs within the length field comes back |
| Rtcp.PayloadFeedbackReadsBackExactlyWhenAligned | src/utils/rtcp/packets/payload_feedback.rs:52-165 | payload feedback comes back exactly when its payload is 4-aligned |
| Rtcp.ApplicationDefinedReadsBack | src/utils/rtcp/packets/application_defined.rs:15-64 | an application packet comes back |
| RtcpLayout.SenderReportLayout | src/utils/rtcp/packets/sender_report.rs:64-98 | every octet of a sender report: header, fields and report blocks at the offsets of section 6.4.1 of RFC 3550, and zero padding that ends with its length |
| RtcpLayout.ReceiverReportLayout | src/utils/rtcp/packets/receiver_report.rs:52-81 | the same for receiver reports, section 6.4.2 of RFC 3550 |
| RtcpLayout.TransportFeedbackLayout | src/utils/rtcp/packets/transport_feedback.rs:192-213 | the same for NACK packets, section 6.2.1 of RFC 4585 |
| RtcpLayout.PayloadFeedbackLayout | src/utils/rtcp/packets/payload_feedback.rs:123-165 | the same for payload feedback, section 6.3 of RFC 4585 |
| RtcpLayout.ApplicationDefinedLayout | src/utils/rtcp/packets/application_defined.rs:47-64 | the same for application packets, section 6.7 of RFC 3550 |
| RtcpLayout.RembLayout | src/media/receiver.rs:130-163 | the 24 octets of an announced limit: its name, one source, six bits of exponent and 18 of mantissa |
| RtcpParsing.TransportFeedbackIsParsed | src/utils/rtcp/packets/transport_feedback.rs:136-174 | for all bytes of at least the fixed part: which are accepted, what is taken from which octets, and what each of the others is refused for |
| RtcpParsing.PayloadFeedbackIsParsed | src/utils/rtcp/packets/payload_feedback.rs:52-101 | the same for payload feedback |
| RtcpParsing.ApplicationDefinedIsParsed | src/utils/rtcp/packets/application_defined.rs:15-45 | the same for application packets |
| RtcpParsing.SenderReportIsParsed | src/utils/rtcp/packets/sender_report.rs:20-58 | the same for sender reports, with repeated sources, of which the last block stays |
| RtcpParsing.ReceiverReportIsParsed | src/utils/rtcp/packets/receiver_report.rs:15-46 | the same for receiver reports |
| RtcpParsing.TypeDecides | src/utils/rtcp/mod.rs:223-262 | the packet type alone decides what kind of packet is read; bytes of an unknown type stay as they are |
| RtcpCursor.Reader.TakeSenderReport | src/utils/rtcp/packets/sender_report.rs:20-58 | the moving cursor parses as the reading function does, value, end position and error |
| RtcpCursor.Reader.TakeReceiverReport | src/utils/rtcp/packets/receiver_report.rs:15-46 | the same for receiver reports |
| RtcpCursor.Reader.TakeTransportFeedback | src/utils/rtcp/packets/transport_feedback.rs:136-174 | the same for transport feedback |
| RtcpCursor.Reader.TakePayloadFeedback | src/utils/rtcp/packets/payload_feedback.rs:52-101 | the same for payload feedback |
| RtcpCursor.Reader.TakeApplicationDefined | src/utils/rtcp/packets/application_defined.rs:15-45 | the same for application packets |
| RtcpCursor.Reader.TakeProfileData | src/utils/rtcp/mod.rs:21-45 | the same for profile data, bad padding included |
| RtcpCursor.Reader.TakeBlocks | src/utils/rtcp/packets/receiver_report.rs:15-81 | the loop reads the announced number of blocks into a map, the last block of an identifier winning |
| RtcpCursor.Reader.TakeNacks | src/utils/rtcp/packets/transport_feedback.rs:41-49 | the loop reads the announced number of pairs |
| RtcpCursor.Writer.PutSenderReport | src/utils/rtcp/packets/sender_report.rs:64-98 | writes exactly the wire form, with the length field cut to 16 bits, or fails when the buffer is too short or there are more than 15 blocks |
| RtcpCursor.Writer.PutReceiverReport | src/utils/rtcp/packets/receiver_report.rs:52-81 | the same for receiver reports |
| RtcpCursor.Writer.PutTransportFeedback | src/utils/rtcp/packets/transport_feedback.rs:192-213 | writes exactly the wire form, with the length field cut to 16 bits, or fails when the buffer is too short |
| RtcpCursor.Writer.PutPayloadFeedback | src/utils/rtcp/packets/payload_feedback.rs:123-165 | the same for payload feedback |
| RtcpCursor.Writer.PutApplicationDefined | src/utils/rtcp/packets/application_defined.rs:47-64 | the same for application packets of any subtype, with the refusal of unaligned data |
| RtcpCursor.Writer.PutProfileData | src/utils/rtcp/mod.rs:55-79 | the same for profile data |
| RtcpCursor.Writer.PutReports | src/utils/rtcp/packets/sender_report.rs:64-98 | the loop writes every block of the map once, in key order |
| RtcpCursor.Writer.PutNacks | src/utils/rtcp/packets/transport_feedback.rs:55-59 | the loop writes every pair once, in order |
| Compound.SplitIsExact | src/utils/rtcp/mod.rs:195-221 | splitting succeeds exactly on concatenations of well-framed packets within capacity, with that unique split |
| Compound.SplitErrorIsExact | src/utils/rtcp/mod.rs:195-221 | splitting fails with each error exactly for its own reason behind some well-framed packets: no slot left, less than a first word, or a length beyond the buffer |
| Compound.SplitUpPackets | src/utils/rtcp/mod.rs:195-221 | the loop fills the caller's slots with that split, or ends with the same error |
| Compound.PacketReadsBack | src/utils/rtcp/mod.rs:223-262 | every packet within its limits parses back from its own bytes |
| Compound.CompoundReadsBack | src/utils/rtcp/mod.rs:195-262 | any list of packets, written one after the other, splits and parses back in order |
| Compound.FewNacks | src/utils/rtcp/packets/transport_feedback.rs:83-104 | the pairs of a window number at most one per 16 numbers |
| Compound.ResendRequestsEndToEnd | src/media/receiver.rs:190-213 | every resend request of every run of the loss tracker, as bytes and back: exactly the drifted list with the source's convention, exactly the lost numbers with RFC 4585's, in at most 140 bytes |
| NearLosses.NearLossIsMisread | src/utils/rtcp/packets/transport_feedback.rs:28-31 | a run of the default tracker in which 101 and 102 are lost and requested, and the bytes are read as 101 and 104 |
| MediaReceivers.MediaReceiver.PollResends | src/media/receiver.rs:185-219 | every resend request delivered becomes one NACK packet, in order; the first time-out ends the poll with its numbers; otherwise the timer has had its turn |
| MediaReceivers.EachRequestIsFedBack | src/media/receiver.rs:190-213 | the packets of a poll are exactly one NACK packet for each resend request among the events taken, in order, for its numbers and this receiver |
| MediaReceivers.MediaReceiver.SetBandwidthLimit | src/media/receiver.rs:117-128 | an unchanged limit does nothing; a changed one is told at once, 50 Mbit/s when it is taken back, and the byte counts start anew |
| MediaReceivers.MediaReceiver.SendRemb | src/media/receiver.rs:130-163 | the shifting loop and the packing send exactly the announcement of the limit, and the byte counts start anew |
| MediaReceivers.MediaReceiver.ReceiveRtp | src/media/receiver.rs:248-263 | a packet's bytes are counted and its number tracked; the first one activates the receiver and repeats the limit, which starts the counts anew |
| MediaReceivers.MediaReceiver.ReceiveBye | src/media/receiver.rs:264-268 | the receiver is inactive and its statistics start anew |
| Remb.ScaleIsClose | src/media/receiver.rs:142-147 | for every 32-bit limit: mantissa of 18 bits, exponent at most 14, m · 2^e <= limit < (m + 1) · 2^e, the least such exponent, and an error below the limit's 2^17th part |
| Remb.RembBytesDecode | src/media/receiver.rs:138-152 | the packed bytes decode to the same mantissa and exponent |
| Remb.RembReadsBack | src/media/receiver.rs:156-160 | the announcement parses back as payload feedback and decodes to an approximation of the limit |
| Negotiation.Find | src/rtc.rs:404-412 | the first line that answers a query, or none |
| PeerConnections.PeerConnection.AllocateMediaLine | src/rtc.rs:762-783 | the first line of the type without local streams, or a new one |
| PeerConnections.PeerConnection.CreateMediaSender | src/rtc.rs:785-816 | a new sender on that line, waiting to be told |
| PeerConnections.PeerConnection.RegisterLocalCodec | src/media/media_line.rs:101-108 | a codec replaces the one with its payload type unless a change is refused |
| PeerConnections.PeerConnection.UnregisterLocalCodec | src/media/media_line.rs:110-116 | a codec is removed unless a change is refused |
| PeerConnections.PeerConnection.OpenApplicationChannel | src/rtc.rs:378-398 | the channel application exists, with a line of its own unless there is one |
| PeerConnections.PeerConnection.RemoveMediaSender | src/rtc.rs:1094-1116 | one dropped sender leaves its line, which has news, or goes when nothing is left to say |
| PeerConnections.PeerConnection.PollStreamSender | src/rtc.rs:1089-1117 | all dropped senders leave in key order; their lines have news, or go when nothing is left to say |
| PeerConnections.PeerConnection.PollNext | src/rtc.rs:1165-1180 | a negotiated end with news moves to NegotiationRequired and says so |
| PeerConnections.PeerConnection.CurrentLineIndex | src/rtc.rs:635-637 | one past the highest index in use |
| PeerConnections.PeerConnection.AssignIndices | src/rtc.rs:632-646 | every line without an index gets the next one, in order |
| PeerConnections.PeerConnection.WriteMedia | src/rtc.rs:671-709 | the sections are those of the lines by index |
| PeerConnections.PeerConnection.PromoteMediaLines | src/rtc.rs:714-720 | described lines are propagated by an offer and negotiated by an answer |
| PeerConnections.PeerConnection.PromoteStreamSenders | src/rtc.rs:722-727 | so are the senders whose line exists |
| PeerConnections.PeerConnection.CreateLocalDescription | src/rtc.rs:626-750 | indices, sections, states and signalling after an offer or an answer, or the error and the indices it leaves behind |
| PeerConnections.PeerConnection.SetRemoteDescription | src/rtc.rs:429-573 | the state after any description, part-way errors included |
| PeerConnections.PeerConnection.ApplyOne | src/rtc.rs:445-544 | one media section in the source's order: the line with its index, else the first unassigned one of its type, else a new one; transport, streams, codecs (none in an application section on an audio or video line, which is an error) and channels, and what is left of them wherever the section fails |
| PeerConnections.PeerConnection.SettleAll | src/rtc.rs:551-560 | an answer settles exactly what was propagated |
| NegotiationInvariants.IndicesAreCompact | src/rtc.rs:632-646 | over every run the indices in use are 0 to k - 1, each on exactly one line |
| NegotiationInvariants.IndexedTypesAreUnique | src/rtc.rs:632-646 | the lines determine the list of media types by index, so that agreeing with one list is agreeing |
| NegotiationInvariants.RefusalMeansOutstandingOffer | src/media/media_line.rs:272-282 | over every run a change is refused only while an own offer is outstanding |
| NegotiationInvariants.NoLocalChangeIsLost | src/rtc.rs:1165-1180 | over every run: in a negotiated state, any codec, sender, property or removed stream that the last description generated does not reflect makes the next poll ask for a negotiation |
| NegotiationInvariants.CreateKeeps | src/rtc.rs:626-750 | generating a description keeps the invariant and only adds indices; its sections are the lines by index |
| NegotiationInvariants.SetRemoteKeeps | src/rtc.rs:429-573 | applying any description, even one that stops part-way, keeps the invariant and only adds indices |
| NegotiationInvariants.SectionKeeps | src/rtc.rs:445-544 | so does any one section, wherever in the middle of it the source fails |
| Sections.FirstSetupDecides | src/transport/mod.rs:309-381 | which setups an end takes, which role it gets and keeps, and what it refuses each of the others for, by section 4.1 of RFC 4145 |
| Sections.ContradictionIsFoundOnce | src/transport/mod.rs:309-381 | a setup that does not fit is refused once only: the same section is then taken |
| Sections.SectionErrors | src/rtc.rs:445-544 | every reason a section fails for, in the order it is found, by the line it is for: its setup, an application section on an audio or video line, an application line without channels or whose channels refuse it |
| Sections.EarlyStopsLeaveLineAndTransport | src/rtc.rs:445-544 | a section given up early leaves, of what it would have done, nothing, the index it gives, or that and the transport |
| Sections.LateStopsLeaveStreamsAndRole | src/rtc.rs:492-533 | given up later, it leaves the streams of a line that is there, new channels, and last their role without its configuration; a line it would add is never there |
| Sections.StopIsAFault | src/rtc.rs:445-544 | being given up is an error of its own, unless the section fails for another reason before |
| Sections.OpeningIsOnce | src/rtc.rs:378-398 | opening the application channel twice is opening it once, and adds a line exactly when there is neither a channel nor such a line |
| SenderLines.EachSenderHasALineOfItsOwn | src/rtc.rs:762-816 | over every run each sender is alone on a line of its own, and no line has a stream without its sender |
| SenderLines.NewSenderTakesFirstFreeLine | src/rtc.rs:762-783 | a new sender gets the first line of its type without a stream, and a new line exactly when there is none; every other line stays as it is |
| SenderLines.ClosedSendersLeave | src/rtc.rs:1089-1117 | over every run a poll takes out exactly the dropped senders, whatever the order: each leaves its line free and with news, or takes it along if neither side was told of it; all else stays |
| Wishes.WishesAreFulfilled | src/media/media_line.rs:101-116 | over every run each line has the codecs, and each sender the properties, that the calls not refused have asked for, in order |
| Wishes.WithoutCodecKeepsOthers | src/media/media_line.rs:101-116 | taking out a payload type keeps all other codecs, once each and in order |
| Wishes.DescriptionsSayWhatWasAsked | src/rtc.rs:671-709 | over every run a description has, for each line with an index, a section with the codecs, senders and properties asked for; its direction says whether there is a sender and whether the other end may send or has said that it does |
| Conclusions.ReadingBringsOnlyNewLines | src/rtc.rs:429-573 | any description, however far it is read, brings no news but the lines it adds; an accepted answer lifts every refusal of changes, for lines and senders |
| Conclusions.DescribingTellsAll | src/rtc.rs:712-744 | over every run a description that is generated leaves no news but lines without an index, an offer none at all; from an offer on, changes are refused to exactly what was news in it |
| Conclusions.ToldEndsStayQuiet | src/rtc.rs:551-560 | over every run of two ends: from its description on, an end that only listens and polls has news, and asks for a negotiation, only for lines its answer could not number or the other end has added |
| SenderRuns.SendersConclude | src/rtc.rs:429-573 | a run with a sender on each end of one line, until both are concluded, hear each other's sender and stay quiet when polled |
| TwoPeers.PeersAgree | src/rtc.rs:429-573 | two peers, every interleaving of changes, offers, failed offers, answers and refused glare on ordered channels, without clash: whenever both are negotiated, nothing is under way and no line is numbered only for a failed offer, both hold the same media types index by index |
| TwoPeers.PeersAgreeExactlyWhenNothingClashed | src/rtc.rs:453-472 | without that assumption: such ends agree exactly when no offer was ever accepted with a section of another type than the receiver's line with its index |
| TwoPeers.ClashesExactlyWhenNotComparable | src/rtc.rs:453-472 | a clash, read off the receiver's lines before the call, is that neither list of media types begins with the other |
| TwoPeers.DescriptionsApply | src/rtc.rs:429-573 | over every run: a description fails exactly when the receiver's signalling state refuses it or an application section of it meets an audio or video line with its index, each with its own error |
| TwoPeers.UnreadableByType | src/media/media_line.rs:199-215 | that condition, read off the receiver's lines before the call, in terms of the two lists of media types |
| PeerRoles.RolesAreComplementary | src/transport/mod.rs:351-381 | over every run, whatever is refused, clashes or fails half-way: the setups never clash, each end's data channel role is "my setup is active", and two ends with roles have opposite ones |
| PeerRoles.RolesAreSettled | src/application.rs:463-466 | a setup and a role once fixed never change again, whatever is renegotiated |
| LostOffers.GlareIsForever | src/rtc.rs:432-440 | an offer that meets an end in HaveLocalOffer or NegotiationRequired, crossing another or not, leaves its sender waiting for ever |
| LostOffers.RefusalMeansInVain | src/rtc.rs:429-573 | over every run: once a description has been refused, for the state or for a section, one of the two ends waits for an answer that cannot come |
| LostOffers.InVainIsForever | src/rtc.rs:432-440 | an end that waits in this way does so in every continuation |
| OfferOutcomes.AnswerExactlyWhenReadableWithoutGlare | src/rtc.rs:429-573 | over every run: an end that waits for an answer has a continuation to Negotiated exactly when it is not in such a glare and at no index exactly one of the two ends has an application line |
| OfferOutcomes.EquippedCanAnswer | src/rtc.rs:671-698 | an end with codecs on every line can always describe itself |
| NegotiationRuns.FirstNegotiationConcludes | src/rtc.rs:429-573 | a run from two new peers to agreement on one line, with roles of client and server |
| NegotiationRuns.OfferIsLostWithoutCrossing | src/rtc.rs:432-435 | a run from two new peers to a glare in which only one offer was ever under way |
| NegotiationRuns.FailedOfferCanClash | src/rtc.rs:631-646 | a run in which a failed offer numbers an audio line, and a video offer is then accepted on it without error |
| EmptyLineRuns.OfferCanBeUnreadable | src/media/media_line.rs:199-215 | a run from two new peers to an offer of data channels that fails on an audio line: the offerer waits, the other end has not negotiated, nothing is under way |
| EmptyLineRuns.AnswerCanBeUnreadable | src/media/media_line.rs:199-215 | a run from two new peers to an answer that fails at the offerer, while the answerer is negotiated |
| EmptyLineRuns.OffererCanStayUndecided | src/transport/mod.rs:310-313 | a run from two new peers to a negotiated state, with an all-inactive answer, in which the offerer's setup is undecided |
| PeerRoles.OffererLearnsRoleExactlyWhenAnswerSaysSomething | src/transport/mod.rs:309-381 | the offerer becomes active exactly when some section of the answer it can read is not inactive: an application line, or a line with streams |
| StreamAgreement.DescribedStreamsAreHeard | src/media/media_line.rs:184-197 | over every run: once an end's last description is neither under way nor refused, each line of the other end has exactly the remote streams described for its index; so for both ends whenever both are negotiated and nothing is under way |
| SendersHeard.SendersAreHeard | src/rtc.rs:688-695 | over every run: if such an end has nothing new to tell, each audio or video line of the other end has exactly its senders on the line with the same index as remote streams |
| DataChannelRuns.CreationTakesLeastFreeStream | src/application.rs:124-174 | over every run a new channel gets the least free stream of its side's parity; creation fails exactly when all 1024 are taken, and never by overflow |
| DataChannelRuns.DisconnectedEndsWait | src/application.rs:136-158 | before connecting, all channels are closed ones of the end's own making and no reset is pending |
| DataChannelRuns.ClientWaitsOnItsOwnStreams | src/application.rs:112-140 | an end that is still, or has become, the client has made all its early channels on its own streams |
| DataChannelRuns.FirstChannelBlocksClient | src/application.rs:472-474 | an end that makes its first channel and then becomes server holds stream 0 and silently drops the client's request for it |
| DataChannelRuns.EventsAreOrderly | src/application.rs:192-220 | over every run each channel's events are messages with at most one open, closing and closed in this order, and no message once it is closing |
| DataChannelRuns.ControlMessagesAreOrdered | src/application.rs:374-416 | over every run only user messages are ever sent unordered |
| DataChannelRuns.ResetsAreConserved | src/application.rs:431-440 | over every run each reset ever asked for is in exactly one accepted call or still pending, in order |
| DataChannelRuns.ResetsAreRetried | src/application.rs:431-440 | an accepted attempt takes everything pending along in one call; any other call leaves it pending |
| ChannelHistories.HistoryIsTold | src/application.rs:192-360 | over every run, a history kept from the calls alone is the state: each user message told once, in order, to the channel that could take it, each change of state told once at its place, channels left behind in order, identifiers by count, and every packet sent |
| ChannelHistories.HandlesNameNewcomers | src/application.rs:124-294 | the handles given to the application name exactly the channels that are made |
| ChannelHistories.PastChannelsEndClosed | src/application.rs:344-356 | over every run a channel that is gone was told last that it is closed, or it never was open and was told nothing |
| ChannelHistories.ConfigurationIsForGood | src/application.rs:444-482 | over every run, role and port are those of the first description that was accepted, for good |
| ChannelHistories.DescriptionErrors | src/application.rs:444-482 | what each later description is refused for |
| ChannelApplications.ChannelApplication.CreateDataChannel | src/application.rs:124-174 | the new channel object, its request to open when connected, or the error |
| ChannelApplications.ChannelApplication.ProcessSctpMessage | src/application.rs:192-320 | the state after any message on any stream: opening, acknowledging, delivering, refusing by reset or by closing |
| ChannelApplications.ChannelApplication.ProcessOpen | src/application.rs:224-294 | the state after a request to open: reset, closed locally, or a new open channel and its acknowledgement |
| ChannelApplications.ChannelApplication.SendMessage | src/application.rs:400-416 | the message goes to the channel's stream, unordered only if allowed, open and so configured |
| ChannelApplications.ChannelApplication.ProcessStreamReset | src/application.rs:334-360 | exactly the named streams are closed and gone if the notice is an accepted incoming reset; pending resets are tried again |
| ChannelApplications.ChannelApplication.RetireChannel | src/application.rs:344-356 | the channel has heard that it is closed, and its stream is free |
| ChannelApplications.ChannelApplication.CloseDatachannelLocally | src/application.rs:390-398 | a live channel is closing and its reset requested; others stay |
| ChannelApplications.ChannelApplication.SendOutgoingStreamResets | src/application.rs:431-440 | all pending resets go in one call, or stay pending when refused |
| ChannelApplications.ChannelApplication.SetRemoteDescription | src/application.rs:444-482 | the role and port after a description; a mismatch changes nothing, a failed configuration leaves the role |
| DataChannelPeers.OpenIsAcceptedExactlyWhenFree | src/application.rs:222-294 | two described ends with whatever channels they have made before, whatever is delayed, reordered or lost: each request to open is on its sender's own stream, closes no channel, and is accepted exactly when the stream is free there, a taken one being closed by the receiver itself; all this in every run exactly when no early channel is on a stream that the other end may still take |
| StreamFreeing.OnlyTheOtherEndFreesAStream | src/application.rs:334-360 | a stream stays taken at its opener through every run in which the other end's application does not close it |
| StreamFreeing.CloseThereFrees | src/application.rs:390-398 | one close at the other end while its channel is open, and its notice, free the stream at the opener |
| StreamFreeing.FreedExactlyWhenOtherEndCanClose | src/application.rs:334-360 | a stream taken at its opener can come free exactly when, in the state at hand, the other end wants or has sent its reset, or holds it open, or a request is under way to an end that has no channel there or one its opener can still reset |
| StreamFreeing.ReopeningCanBeLost | src/application.rs:241-248 | a run that ends with a request to open lost, its channel still opening, and nothing under way |
| PeerChannels.NegotiationGivesOppositeRoles | src/application.rs:444-482 | peers and channels in step, in every run until the association is started, failed receptions included: each end's channels have the role its peer records, and once both have one the ends are ready to connect with opposite roles |
| PeerChannels.SectionInStep | src/rtc.rs:492-533 | one section of a description, applied to the peer and told to its channels, leaves both with the same role |
| ChunkQueues.ChunkQueue.Queue | src/application.rs:532-540 | a chunk goes behind everything queued |
| ChunkQueues.ChunkQueue.Read | src/application.rs:625-641 | for every buffer size, reading takes the next bytes of all that was queued: nothing is lost, repeated or reordered |
| PacketHistory.RtpPacketHistory.EnqueueSendPacket | src/transport/packet_history.rs:53-66 | the saved packets after a send, with the byte counter their exact sum |
| PacketHistory.RtpPacketHistory.ResendPacket | src/transport/packet_history.rs:68-79 | the first match's bytes if it last went out more than 50 ms ago; its time stamp, and nothing else, changes |
| PacketHistory.RtpPacketHistory.CleanUp | src/transport/packet_history.rs:88-113 | the three loops; there is always a packet for bytes above the limit |
| PacketHistory.CleanupKeepsLimits | src/transport/packet_history.rs:88-113 | what is left is a suffix within both limits, and each dropped packet was too many bytes, too old, or one too many |
| PacketHistoryRuns.CacheIsBoundedSuffix | src/transport/packet_history.rs:53-66 | over every run the cache is a suffix of what was sent, within both limits |
| PacketHistoryRuns.OwnEnqueueSurvivesExactlyWhenItFits | src/transport/packet_history.rs:53-66 | a packet survives its own enqueueing exactly when it fits by itself and the clean-up is less than a packet age later |
| PacketHistoryRuns.TransmissionsAreSpaced | src/transport/packet_history.rs:68-79 | over every run any two times one packet goes out are more than 50 ms apart |
| PacketHistoryRuns.AnswersExactlyWhenRested | src/transport/packet_history.rs:68-79 | over every run the cache answers a number exactly when a packet sent under it is still saved and the oldest such was sent more than 50 ms ago each time it went out; the answer is that packet |
| PacketHistoryRuns.AnswerIsLatestExactlyWhenUnique | src/transport/packet_history.rs:72-73 | an answer is the oldest saved packet with the number, and the last sent under it exactly when no other saved packet has the number |
| PacketHistoryRuns.SavedIsLatest | src/media/sender.rs:133-138 | with numbers counted modulo 2^16, gaps allowed, and less than 2^16 between the oldest saved and the newest packet, the packet found under a number is the last one sent under it |
| PacketHistoryRuns.AnswerIsLatestSent | src/transport/packet_history.rs:68-79 | so an answer is the bytes last sent under its number |
| PacketHistoryRuns.ConsecutiveSavedIsLatest | src/media/sender.rs:133-138 | consecutive numbers satisfy this by the cache's own limit |
| Retransmission.InternalMediaSender.SendRtp | src/transport/sender.rs:126-142 | exactly the packets that could be protected are saved and sent |
| Retransmission.InternalMediaSender.RetransmitRtp | src/transport/sender.rs:116-123 | an answer from the cache is sent once more |
| Retransmission.InternalMediaSender.ProcessGenericNack | src/media/sender.rs:336-340 | every number of a pair is asked of the cache, in order |
| Retransmission.InternalMediaSender.HandleTransportFeedback | src/media/sender.rs:281-289 | so is every number of a feedback packet, and exactly the answers are sent, in order |
| Retransmission.FirstAskingIsUndisturbed | src/media/sender.rs:336-340 | the first time a list asks for a number, the cache answers as it would have before the list |
| Retransmission.ResendRequestIsAnsweredTruly | src/media/sender.rs:281-340 | from tracker to cache: any resend request of any run, as bytes, is answered by a cache of counted numbers, gaps allowed, with nothing but bytes last sent under the numbers read, which are the lost ones exactly when no two of them are within 16; the first time a number is read it is answered exactly when a packet sent under it is saved and has rested |
| BandwidthRings.ReceiverStatistics.AdvanceHistory | src/media/receiver_stats.rs:94-107 | both rings are cleared after the current slot up to the new second's |
| BandwidthRings.ReceiverStatistics.RegisterIncomingRtp | src/media/receiver_stats.rs:125-142 | the bytes are added to the second's slot of each ring |
| BandwidthRings.ReceiverStatistics.ResetBandwidth | src/media/receiver_stats.rs:120-123 | both rings are empty |
| BandwidthRings.ReceiverStatistics.BandwidthMinute | src/media/receiver_stats.rs:38-68 | the walk ends after at most one turn with the mean of the first at most 60 non-zero slots in ring order |
| BandwidthRings.ReceiverStatistics.BandwidthSecond | src/media/receiver_stats.rs:70-76 | the last slot in ring order |
| BandwidthRings.ReceiverStatistics.Reset | src/media/receiver_stats.rs:113-123 | both rings are empty and the statistics uninitialized; the current slot stays |
| BandwidthLogs.AdvanceAgreesExactly | src/media/receiver_stats.rs:94-107 | an update keeps the ring in agreement with the log exactly when it comes within 64 seconds or the seconds whose slots it skips had nothing |
| BandwidthLogs.RingsAgreeWithLogs | src/media/receiver_stats.rs:94-142 | over every run with updates less than 64 seconds apart both rings hold exactly the bytes registered in each of the last 64 seconds since the last reset |
| BandwidthLogs.AveragesAreOfTheLog | src/media/receiver_stats.rs:38-92 | in such runs the averages are those of the log |
| BandwidthLogs.MinuteIsMeanOfUsedSeconds | src/media/receiver_stats.rs:38-92 | the minute's average times the seconds counted is what was received in all of them: those of the last 64 seconds with anything received, or the first 60 of these |
| BandwidthLogs.HighestIsMaximumWhileEarly | src/media/receiver_stats.rs:125-142 | over every run the highest number kept is the maximum registered in the first five seconds, away from the last numbers, and from the fifth second on just the latest |
| BandwidthLogs.NearTheEndAnyNumberCounts | src/media/receiver_stats.rs:128-135 | once the highest number is near the last one, any number that comes next takes its place |

## Left out

- ICE, OpenSSL, SRTP, usrsctp, sockets and certificates: foreign code; what it answers is a parameter.
- Wakers and scheduling: a timer is a deadline, and that an armed timer is polled is not modelled.
- The clock: a packet reads it at most three times, the readings do not go back, and no deadline reaches 0xFFFFFFFF (src/utils/resend_requester.rs) or the 32-bit wrap (src/transport/packet_history.rs, 49 days after its start).
- LossTracker.ResendRequester.constructor: takes frames of at most 512 slots; longer ones misplace packets (`PlacesExactlyWhenTwoFramesFit`).
- LossTracker.ResendRequester.SetFrameSize: takes at most 512 slots, and the head to be below the new size; the source's flush indexes out of bounds otherwise.
- SDP text, codec parameters beyond an opaque value, extension maps and candidates: a description is a sequence of media type, setup, direction, codecs and streams.
- Several transports for one peer: all lines share one, so descriptions carry one credential pair.
- PeerConnections.PeerConnection.SetRemoteDescription: a section that is malformed in ways outside this model stops at one of five points of its processing, given as a parameter; the exact error is not modelled.
- PeerConnections.PeerConnection.CreateLocalDescription: lines are looked up by index instead of being sorted by it; the session header, media identifiers and bundle group are left out.
- PeerConnections.PeerConnection.CreateMediaSender: the random identifier is a parameter, already fresh.
- `PeerConnection::reset`, media receivers and remote codecs of a line: they do not take part in negotiation.
- Lines and senders are values in a sequence and a map, where the source shares reference-counted cells: aliasing between the peer and the application's handles is not captured.
- TwoPeers.PeersAgree: here and in all other results on two peers, senders of media type application are not created, and descriptions arrive as they were generated, so that sections malformed in other ways do not occur.
- Races inside one call on a sender's shared mutex: each call is atomic.
- PeerChannels.NegotiationGivesOppositeRoles: every section announces port 5000; a refused configuration by the SCTP library and calls after the association is started are not part of these runs (`DataChannelPeers` starts from what they end in).
- The encoding of data channel control messages (src/sctp/message.rs): fixed layouts that would add only easy members.
- The application's data channel handle: whether it lets a message through depends on the state it was made with, which is never updated; the model lets the application send and close on any stream.
- Source description, Bye and extended report packets: the first two do not frame cleanly, the last is a fixed layout.
- Retransmission.InternalMediaSender.SendRtp: what SRTP makes of a packet is a parameter; so are the clock's readings.
- Bandwidth violations (src/media/receiver.rs:227-237) and rounding of the averages: the mean is exact.
- `unregister_local_extension`, header tests, VP8 and picture identifiers, the signalling server and the web client: too small, or user interface.
