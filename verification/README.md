# Verified model of rsiprtp

A Dafny model of the state-keeping parts of the `rsiprtp` VoIP library, with proofs about
whole runs of each of them:

- **ICE** (RFC 8445) and its **STUN** wire format (RFC 5389): candidates and their text form,
  pair priorities, the check list, the run of connectivity checks, the check messages byte by
  byte, the two response parsers, and the table of pending transactions under every
  interleaving of callers, their cancellation, socket dispatchers and shutdown.
- **INVITE dialogs** (section 12 of RFC 3261): one dialog, the manager with its three tables,
  and two managers that set up and end a call while both carry on with other traffic.
- **Media**: the adaptive jitter buffer and the conference mixer.

Check the whole project with `dafny verify dfyconfig.toml`.

## How it is built

Each object that the program mutates (`JitterBuffer`, `AudioMixer`, `IceAgent`,
`InviteDialog`, the dialog manager) is a class with the same fields. Its methods do what the
program does, loop by loop, and are proved against a function on plain values; the lemmas
about runs are about those functions. Protocols (pending transactions, two managers) are
systems of steps.

What comes from outside is an input: arrival times, the result of a connectivity check, the
iteration order of a hash map, random tags and transaction numbers, datagrams. HMAC-SHA1 is an
arbitrary function from key and message to twenty bytes, and every theorem holds for all of
them. Fixed-width arithmetic wraps explicitly, as in a release build. The `f64` conversion of
arrival times to samples is an arbitrary function too; the `f64` jitter estimate and the `f32`
fade are exact numbers.

| file | content |
|---|---|
| `Words.dfy` | fixed-width integers, wrap-around, exclusive-or |
| `Jitter.dfy`, `JitterRuns.dfy`, `JitterFate.dfy` | jitter buffer; runs; the fate of a stored packet |
| `JitterConceal.dfy`, `JitterControl.dfy`, `JitterReorder.dfy` | concealment; delay control; reordering |
| `Mixer.dfy`, `MixerProofs.dfy` | mixer; runs and iteration orders |
| `Candidate.dfy`, `CandidateText.dfy`, `CandidateReading.dfy` | candidates and priorities; text form; which texts are read |
| `CheckList.dfy`, `CheckListAgreement.dfy`, `IceAgent.dfy` | check list; two agents; the agent and its checks |
| `StunBytes.dfy`, `StunParse.dfy`, `StunBinding.dfy`, `StunExchange.dfy` | layout; client parsers; check messages; a check end to end |
| `StunRefusals.dfy` | which messages are answered, accepted and refused |
| `StunTransactions.dfy` | pending transactions as interleaved steps |
| `SipDialog.dfy`, `DialogRuns.dfy`, `DialogRequests.dfy` | one dialog; its runs; what it sends |
| `DialogManager.dfy`, `DialogActions.dfy`, `DialogTable.dfy` | the manager as a value; what it tells; as an object |
| `DialogRouting.dfy`, `DialogNames.dfy`, `DialogProtocol.dfy`, `DialogEnding.dfy` | routing; distinct IDs; two managers; the side that hangs up |

## What does not hold, and exactly when it does

- **Pending transactions.** A caller dropped by an outer timeout, as gathering does to its STUN
  requests, leaves its table entry behind (`CancelLeaksEntry`). The table keeps an entry whose
  caller is gone exactly when that caller was cancelled and, since it registered, no datagram
  with its number has arrived and the agent has not been closed (`EntryOutlivesCallerIff`).
- **Numbers of local requests.** A UAC can send two requests with one CSeq: PRACK for a
  reliable 183, then the 2xx sets the local number back to that of the INVITE, then BYE
  repeats PRACK's number (`UacRepeatsNumber`). Numbers increase over a whole run of any dialog
  exactly when no request is built after an early response has set the local number below that
  of an earlier request (`NumbersIncreaseIff`); for a call placed with an INVITE every early
  response that names the dialog does so (`RenamingSetsBack`).
- **Finding a dialog.** Two calls accepted without To tag or Contact are confirmed under the
  same empty ID, and the first is no longer found (`UnnamedCallsCollide`). Throughout a run all
  indexed dialogs are found exactly when no two of them share an ID and no cleanup drops a
  dialog that shares its ID with one it keeps (`AlwaysFoundIff`); fresh local names and complete
  2xx responses ensure that (`FreshNamesAreNeverShared`).
- **Hanging up.** The dialog of the side that hangs up is not ended by the response to its BYE
  nor removed by any cleanup: it is held exactly until a BYE of its peer arrives
  (`HeldUntilByeIff`).
- **Stored packets.** Not every stored packet is played: one off the packet grid stays in the
  buffer (`OffGridIsPassedBy`). Once playout is beyond a packet, it was played exactly if no pop
  passed it by, that is, none found it strictly within the distance it moves playout
  (`PlayedIffNotPassedBy`).
- **Answering a check.** A peer answers a request built with its own name and password exactly
  when that name has no colon and both names together have at most 1427 bytes
  (`RequestIsDispatched`); longer requests fill the 1500-byte receive buffer and are dropped.
- **IPv6 sources.** The client parser un-masks only the first four bytes, so an IPv6 source is
  read back exactly under the all-zero transaction number (`Unmask6Iff`).
- **Mixing.** The clamped running sum depends on the iteration order of the map
  (`OrderCanMatter`). It is the clamped exact sum in every order exactly when the contributions
  have one sign, or the positive ones total at most 32767 and the negative ones at most 32768
  in magnitude (`MixIsExactIff`).
- **Pair priority.** The 64-bit value is exact unless both candidates have priority 2^32 - 1
  (`PairPriorityFitsIff`). It tells all pairs of candidates up to a bound apart, and orders
  them, exactly when the bound is at most 2^31 (`PairPriorityIsFaithfulIff`).
- **Candidate text.** Printing and parsing give the candidate back exactly when its foundation
  is one word and its addresses carry no flow label or scope (`RoundTripIff`).
- **Delay control.** The controller does not reach its goal exactly: it rests exactly in the
  band from 3 samples below to 15 above (`RestsExactlyInBand`).

Where comments and code differ, the model follows the code: the target delay is the larger of
twice the jitter and the minimum delay, not their sum; unfreezing after a success compares only
the local foundation; "nearest packet" is the numerically smallest timestamp; forming pairs sets
the first pair of each foundation key back to Waiting whatever its state was.

## Model

| member | source | states |
|---|---|---|
| Jitter.JitterBuffer.constructor | crates/rsiprtp/src/media/jitter.rs:130-147 | a new buffer is empty, unprimed and at the initial delay |
| Jitter.JitterBuffer.Push | crates/rsiprtp/src/media/jitter.rs:152-232 | the new state and verdict are those of `AfterPush`: counting, anchoring, jitter, duplicate and late checks, storing, adapting, priming |
| Jitter.JitterBuffer.Note | crates/rsiprtp/src/media/jitter.rs:153-181 | counts the packet, anchors playout on the first one and updates the jitter estimate |
| Jitter.JitterBuffer.Store | crates/rsiprtp/src/media/jitter.rs:197-231 | stores the packet, advances the expected sequence number, adapts and primes |
| Jitter.JitterBuffer.Pop | crates/rsiprtp/src/media/jitter.rs:237-303 | the new state, decision and samples are those of `AfterPop` |
| Jitter.JitterBuffer.SkipOrConceal | crates/rsiprtp/src/media/jitter.rs:261-302 | with nothing stored at the playout point: skip ahead to the smallest key when it is far enough ahead, else conceal |
| Jitter.SmallestKey | crates/rsiprtp/src/media/jitter.rs:263-264 | the first entry of the ordered map is its numerically smallest key |
| Jitter.JitterBuffer.ConcealPacket | crates/rsiprtp/src/media/jitter.rs:306-317 | the in-place fade yields the last frame faded sample by sample and remembers it |
| Jitter.FadeSample | crates/rsiprtp/src/media/jitter.rs:310-314 | fading never raises a sample's magnitude nor changes its sign |
| JitterControl.FadeStaysAudible | crates/rsiprtp/src/media/jitter.rs:306-317 | the fade starts at full level and, up to truncation, keeps at least half of each sample |
| Jitter.JitterBuffer.AdaptDelay | crates/rsiprtp/src/media/jitter.rs:320-338 | the new target delay is one controller step towards the clamped goal |
| Jitter.JitterBuffer.Reset | crates/rsiprtp/src/media/jitter.rs:361-372 | a reset gives a fresh buffer that keeps its statistics |
| JitterRuns.PopMoves | crates/rsiprtp/src/media/jitter.rs:250-302 | a primed pop advances the unwrapped playout point by at least one packet, by more when it skips, and is never silent |
| JitterRuns.RunKeepsInv | crates/rsiprtp/src/media/jitter.rs:152-372 | every reachable state is well formed, on its time line, forward-moving, balanced and bounded |
| JitterRuns.PlayoutNeverGoesBack | crates/rsiprtp/src/media/jitter.rs:237-303 | over every run, from the first audible pop on there is no silence until a reset and positions never fall; equal only for the pop straight after an Accelerate |
| JitterRuns.PlayedFramesWerePushed | crates/rsiprtp/src/media/jitter.rs:209-218 | every frame played was pushed with the timestamp of the position it is played at |
| JitterRuns.AccountsBalance | crates/rsiprtp/src/media/jitter.rs:152-303 | received = duplicate + late + played + held + discarded by reset; primed pops = played + lost; jitter within zero and the largest deviation seen |
| JitterConceal.ConcealedFramesFade | crates/rsiprtp/src/media/jitter.rs:237-317 | over every run, a concealed frame follows an audible pop and is the fade of the frame heard there, of equal length, sample i times (2n - i)/2n truncated towards zero; a silent frame is one packet of zeros |
| JitterControl.PushCountsEach | crates/rsiprtp/src/media/jitter.rs:183-195 | a packet is a duplicate if its timestamp is stored, else late if it lies in the half space before the playout point, else stored; each has its own counter |
| JitterControl.ExpectedSequence | crates/rsiprtp/src/media/jitter.rs:197-207 | the expected sequence number moves to one beyond an accepted packet unless that lies in the half space before it |
| JitterControl.PrimesWhen | crates/rsiprtp/src/media/jitter.rs:223-229 | an accepted packet primes the buffer exactly when the packets stored and one more exceed the target delay |
| JitterControl.SkipsWhen | crates/rsiprtp/src/media/jitter.rs:261-290 | a pop skips ahead exactly when nothing is stored at the playout point and the smallest key is more than a packet and more than twice the target delay ahead |
| JitterControl.StatisticsReport | crates/rsiprtp/src/media/jitter.rs:334-338 | the statistics report the depth after each pop and the delay and jitter in milliseconds after each stored packet |
| JitterFate.FateOverRun | crates/rsiprtp/src/media/jitter.rs:152-303 | without a reset a stored packet waits, was played at its own position, or is stranded, the last exactly if some pop passed it by |
| JitterFate.PlayedIffNotPassedBy | crates/rsiprtp/src/media/jitter.rs:237-303 | once playout is beyond a stored packet by at most half the timestamp space, the packet was played there if and only if no pop passed it by, and is still stored otherwise |
| JitterFate.StrandedBlocksSkips | crates/rsiprtp/src/media/jitter.rs:263-277 | while a passed packet has the smallest key no pop skips ahead |
| JitterFate.OffGridIsPassedBy | crates/rsiprtp/src/media/jitter.rs:250-302 | a run that leaves a packet half a frame off the grid unplayed in the buffer |
| JitterControl.RestsExactlyInBand | crates/rsiprtp/src/media/jitter.rs:327-334 | the controller is at rest if and only if it is between 3 below and 15 above its goal |
| JitterControl.Settles | crates/rsiprtp/src/media/jitter.rs:327-334 | towards a constant goal it moves monotonically without overshoot and rests in the band after at most as many steps as the error has samples |
| JitterControl.TargetStaysBounded | crates/rsiprtp/src/media/jitter.rs:320-334 | over every run the target delay stays between the extremes of the configuration |
| JitterControl.TargetStaysInRange | crates/rsiprtp/src/media/jitter.rs:320-334 | it never leaves [min, max] when it starts there |
| JitterControl.DelayInSamples | crates/rsiprtp/src/media/jitter.rs:41-44 | a configured delay is its milliseconds times the clock rate over a thousand |
| JitterControl.GoalIsTwiceJitter | crates/rsiprtp/src/media/jitter.rs:322-325 | the goal is twice the jitter in whole samples, clamped to the configured delays |
| JitterControl.OnSchedule | crates/rsiprtp/src/media/jitter.rs:163-181 | the deviation of a packet is exactly what the conversion of the arrival gap is off from its timestamp distance, also across the wrap; on schedule and with a conversion good to one sample it is at most one |
| JitterReorder.TimestampsApart | crates/rsiprtp/src/media/jitter.rs:392-399 | frames within half the timestamp space have distinct keys and none counts as late |
| JitterReorder.ReorderingIsUndone | crates/rsiprtp/src/media/jitter.rs:152-259 | enough consecutive frames pushed in any order starting with the first, at any times, are played back in media order and leave the buffer empty, across the timestamp wrap |
| Mixer.AudioMixer.constructor | crates/rsiprtp/src/media/mixer.rs:34-40 | a new mixer is empty with room for fifteen sources |
| Mixer.AudioMixer.SetMaxSources | crates/rsiprtp/src/media/mixer.rs:43-45 | the limit never exceeds fifteen |
| Mixer.AudioMixer.OldestInactive | crates/rsiprtp/src/media/mixer.rs:55-60 | finds an inactive source silent for longest, or shows there is none |
| Mixer.AudioMixer.AddSource | crates/rsiprtp/src/media/mixer.rs:52-78 | updates or adds the source, evicting one stalest inactive source when full, refusing when all are active |
| Mixer.AudioMixer.MarkSilent | crates/rsiprtp/src/media/mixer.rs:81-86 | a known source becomes inactive and one frame more silent |
| Mixer.AudioMixer.MixExcept | crates/rsiprtp/src/media/mixer.rs:112-148 | each output sample is the running clamped sum in iteration order, and the source list is exactly the set of contributors without repeats |
| Mixer.AudioMixer.Accumulate | crates/rsiprtp/src/media/mixer.rs:138-144 | adds one source in place, clamping each sample and leaving the rest |
| Mixer.ContributorsExact | crates/rsiprtp/src/media/mixer.rs:122-136 | the contributors are the active, non-empty, non-excluded sources, each once |
| MixerProofs.NeverMoreThanFifteen | crates/rsiprtp/src/media/mixer.rs:43-91 | in every reachable state at most fifteen sources are held |
| MixerProofs.ActiveSourcesSurvive | crates/rsiprtp/src/media/mixer.rs:52-78 | adding never evicts an active source, evicts at most one, and refuses exactly when full of active ones |
| MixerProofs.SilenceIsCounted | crates/rsiprtp/src/media/mixer.rs:69-86 | a source keeps its last samples, is inactive once marked silent, and counts how often it was since |
| MixerProofs.RemovedIsForgotten | crates/rsiprtp/src/media/mixer.rs:89-91 | removing forgets that source and no other |
| MixerProofs.ListedIff | crates/rsiprtp/src/media/mixer.rs:122-136 | a source is listed if and only if it is held, active, has samples and is not the excluded one |
| MixerProofs.UnheardDoNotMatter | crates/rsiprtp/src/media/mixer.rs:122-145 | neither the excluded source nor an inactive one has any influence on mix or list |
| MixerProofs.MixIsExactIff | crates/rsiprtp/src/media/mixer.rs:138-144 | the mix at an index is the clamped exact sum of the samples heard, in every iteration order, if and only if the shares have one sign or neither sign's total leaves the range |
| MixerProofs.OrderCanMatter | crates/rsiprtp/src/media/mixer.rs:122-145 | three sources whose mix depends on the iteration order |
| Candidate.PriorityFits | crates/rsiprtp/src/ice/candidate.rs:237-244 | the priority is the plain sum of its parts and below 2^31 |
| Candidate.PriorityIsLexicographic | crates/rsiprtp/src/ice/candidate.rs:237-244 | candidates are ordered by type, then local preference, then lower component |
| Candidate.PairPriorityFitsIff | crates/rsiprtp/src/ice/candidate.rs:247-252 | the 64-bit pair priority is exact if and only if not both inputs are 2^32 - 1 |
| Candidate.PairPriorityIsSymmetric | crates/rsiprtp/src/ice/candidate.rs:247-252 | both agents compute the same priority |
| Candidate.PairPriorityIsLexicographic | crates/rsiprtp/src/ice/candidate.rs:247-252 | up to 2^31 pairs are ordered by minimum, then maximum, then the controlling side being larger |
| Candidate.PairPriorityIsInjective | crates/rsiprtp/src/ice/candidate.rs:247-252 | up to 2^31 a pair priority determines both candidate priorities |
| Candidate.PairPriorityIsFaithfulIff | crates/rsiprtp/src/ice/candidate.rs:247-252 | for every bound: on candidate priorities up to it, pair priorities are injective, and ordered lexicographically, if and only if the bound is at most 2^31 |
| Candidate.PairPriorityCollides | crates/rsiprtp/src/ice/candidate.rs:247-252 | just above 2^31 two different pairs share a priority: the other half of the equivalence |
| CandidateText.ToSdp | crates/rsiprtp/src/ice/candidate.rs:158-175 | the printed line is the fields joined by single spaces |
| CandidateText.FromSdp | crates/rsiprtp/src/ice/candidate.rs:178-231 | parsing reads the words of the line, with every failure of the source a None |
| CandidateText.ParseRelated | crates/rsiprtp/src/ice/candidate.rs:203-220 | the scan for the related address, loop step by loop step |
| CandidateText.SplitOfJoin | crates/rsiprtp/src/ice/candidate.rs:179-182 | splitting at white space undoes joining of words |
| CandidateText.DecimalRoundTrip | crates/rsiprtp/src/ice/candidate.rs:185-193 | a number within its bound is parsed back from its digits |
| CandidateText.RoundTripIff | crates/rsiprtp/src/ice/candidate.rs:158-231 | parsing the printed form returns the candidate if and only if its foundation is one word and its addresses are plain |
| CandidateReading.SplitOfSpaced | crates/rsiprtp/src/ice/candidate.rs:179 | a line is split into its words whatever white space stands before, between and after them |
| CandidateReading.NumeralIff | crates/rsiprtp/src/ice/candidate.rs:185-193 | a word is read as a number if and only if it spells it, with an optional plus sign and leading zeros, within the bound |
| CandidateReading.TokensIff | crates/rsiprtp/src/ice/candidate.rs:186-190 | exactly which words are read as a transport, in any case, and as a type |
| CandidateReading.ReadIff | crates/rsiprtp/src/ice/candidate.rs:178-231 | words are read as a candidate if and only if the first eight read as its fields, the seventh being typ, and the rest as its related address |
| CandidateReading.ExtensionsAreIgnored | crates/rsiprtp/src/ice/candidate.rs:203-220 | extension words around the related address are ignored; a related address that does not parse spoils the line |
| CandidateReading.PassesOver | crates/rsiprtp/src/ice/candidate.rs:213-217 | a related address without its port keyword is passed over |
| CandidateReading.LastRelatedCounts | crates/rsiprtp/src/ice/candidate.rs:203-220 | of several related addresses the last counts |
| IceAgent.IceAgent.constructor | crates/rsiprtp/src/ice/agent.rs:204-219 | a new agent has no candidates, pairs or selection |
| IceAgent.IceAgent.AddRemoteCandidates | crates/rsiprtp/src/ice/agent.rs:564-572 | appends the candidates and re-forms a valid, complete list |
| IceAgent.IceAgent.FormCandidatePairs | crates/rsiprtp/src/ice/agent.rs:575-626 | the nested loops, sort and unfreezing produce `Form` |
| IceAgent.IceAgent.PairLocal | crates/rsiprtp/src/ice/agent.rs:581-609 | one local candidate is paired with each compatible remote one not yet paired by address |
| IceAgent.IceAgent.UnfreezeFirsts | crates/rsiprtp/src/ice/agent.rs:615-623 | exactly the first pair of each foundation key is set to Waiting |
| CheckList.SortFacts | crates/rsiprtp/src/ice/agent.rs:612-613 | the sort permutes the list into descending priority |
| CheckList.SortIsStable | crates/rsiprtp/src/ice/agent.rs:612-613 | pairs of equal priority keep their order |
| CheckList.FormFacts | crates/rsiprtp/src/ice/agent.rs:575-626 | forming leaves the list sorted, without repeated address pairs, complete, sound, with first pairs waiting |
| CheckList.FormAllFacts | crates/rsiprtp/src/ice/agent.rs:564-626 | the same after any sequence of additions |
| CheckList.FormStates | crates/rsiprtp/src/ice/agent.rs:575-626 | every pair of the formed list is the old pair with its addresses, or a new one that is frozen and not nominated; only the first of its foundation key is set to Waiting |
| CheckList.OldPairsStay | crates/rsiprtp/src/ice/agent.rs:590-610 | no old pair is lost |
| CheckList.FirstBatchStates | crates/rsiprtp/src/ice/agent.rs:600-623 | after one batch a pair waits if and only if it is the first of its key, and is frozen otherwise |
| CheckList.NoneCheckedYet | crates/rsiprtp/src/ice/agent.rs:564-626 | after any batches every pair is waiting or frozen and none is nominated |
| CheckListAgreement.MirrorImages | crates/rsiprtp/src/ice/agent.rs:564-626 | two agents of opposite roles, with distinct addresses on each side, that exchange candidates in any batches hold mirror-image sets of pairs with equal priorities |
| CheckListAgreement.SamePrioritySequence | crates/rsiprtp/src/ice/agent.rs:598-613 | under the same hypotheses their lists have the same priority at every place |
| CheckListAgreement.SameOrder | crates/rsiprtp/src/ice/agent.rs:612-613 | two pairs of different priority stand in the same order in both lists |
| CheckListAgreement.MirrorPlaceByPlace | crates/rsiprtp/src/ice/agent.rs:564-626 | if moreover each side's candidate priorities are distinct and at most 2^31, the lists are mirror images place by place |
| IceAgent.IceAgent.StartChecks | crates/rsiprtp/src/ice/agent.rs:639-740 | Ok exactly when the list is not empty; list, state and selection afterwards for every check outcome, with and without credentials |
| IceAgent.IceAgent.CheckWaiting | crates/rsiprtp/src/ice/agent.rs:653-736 | the check loop stops at the first waiting pair that passes |
| IceAgent.IceAgent.UnfreezeRelatedPairs | crates/rsiprtp/src/ice/agent.rs:897-907 | thaws exactly the other frozen pairs with the given local foundation |
| IceAgent.IceAgent.FallbackSelection | crates/rsiprtp/src/ice/agent.rs:910-943 | selects the fallback pair or fails on an empty list |
| IceAgent.ChecksSelectBest | crates/rsiprtp/src/ice/agent.rs:664-736 | if some waiting pair passes: the selected pair has the highest priority among them, earlier ones failed, later ones are untouched, nomination only when controlling, exact unfreezing |
| IceAgent.NoPassFallsBack | crates/rsiprtp/src/ice/agent.rs:722-739 | otherwise all waiting pairs failed, nothing else changed, and the fallback is selected |
| IceAgent.FallbackIsFirst | crates/rsiprtp/src/ice/agent.rs:910-943 | the fallback is the first pair of two host candidates, else the first pair, and exists unless the list is empty |
| IceAgent.CheckedKeeps | crates/rsiprtp/src/ice/agent.rs:664-736 | checks leave order and addresses alone and no pair in progress |
| IceAgent.SuccessNeedsSocket | crates/rsiprtp/src/ice/agent.rs:676-694 | a pair succeeds only if its check does, through the socket bound to its related address, or to its own if it has none |
| IceAgent.SocketSuffices | crates/rsiprtp/src/ice/agent.rs:676-694 | with such a socket and a good result a pair at or before it succeeds |
| StunParse.ParseBindingResponse | crates/rsiprtp/src/ice/stun.rs:322-407 | on arbitrary bytes the parser terminates within bounds and returns `Response` |
| StunParse.ParseErrorResponse | crates/rsiprtp/src/ice/stun.rs:455-489 | on arbitrary bytes it terminates within bounds and returns `ScanError` |
| StunParse.ResponseYieldsLast | crates/rsiprtp/src/ice/stun.rs:363-406 | for every list of padded attributes the result is the last XOR-MAPPED-ADDRESS that way decoded, else the last MAPPED-ADDRESS; trailing bytes are ignored |
| StunParse.ErrorYieldsFirst | crates/rsiprtp/src/ice/stun.rs:455-489 | an error response yields its first ERROR-CODE with a code |
| StunParse.MappedRoundTrip | crates/rsiprtp/src/ice/stun.rs:410-452 | an unmasked address of either family is read back |
| StunRefusals.SearchedIff | crates/rsiprtp/src/ice/stun.rs:322-361 | on arbitrary bytes the parser looks for addresses if and only if there are 20 bytes, type 0x0101, the declared length, the cookie and the expected transaction; otherwise the error is that of the first of these that fails |
| StunRefusals.SplitExists | crates/rsiprtp/src/ice/stun.rs:368-400 | any bytes split into whole attributes and an incomplete rest |
| StunRefusals.AnyResponseYieldsLast | crates/rsiprtp/src/ice/stun.rs:363-406 | so on arbitrary well-formed messages the last decodable XOR-MAPPED-ADDRESS, else MAPPED-ADDRESS, is found |
| StunRefusals.ErrorMessageYieldsFirst | crates/rsiprtp/src/ice/stun.rs:335-337 | a message of type 0x0111 yields its first ERROR-CODE with a code, whatever its length, cookie and transaction |
| StunBinding.BuildRequest | crates/rsiprtp/src/ice/agent.rs:780-843 | the request's bytes, with the length field patched before hashing |
| StunBinding.PutAttr | crates/rsiprtp/src/ice/agent.rs:786-800 | appends an attribute padded with zeros to four bytes |
| StunBinding.FindIntegrity | crates/rsiprtp/src/ice/agent.rs:1122-1166 | the attribute walk, within bounds on arbitrary bytes |
| StunBinding.VerifyRequest | crates/rsiprtp/src/ice/agent.rs:1168-1204 | hash over the patched prefix, then UTF-8, then the name before the first colon |
| StunBinding.BuildBindingResponse | crates/rsiprtp/src/ice/agent.rs:1109-1270 | answers exactly the authentic requests, with `Answer` |
| StunRefusals.AnsweredIff | crates/rsiprtp/src/ice/agent.rs:1109-1204 | a request is answered if and only if its attributes hold a MESSAGE-INTEGRITY whose twenty bytes are the hash of the bytes before it under the password, and the last USERNAME before that is UTF-8 and starts with the receiver's name up to a colon |
| StunRefusals.ForgedIsDropped | crates/rsiprtp/src/ice/agent.rs:1184-1189 | a request with any other hash than the genuine one, so also one signed under another password, is not answered and is dropped |
| StunRefusals.RequestCarries | crates/rsiprtp/src/ice/agent.rs:780-843 | a request carries, in bytes, its type, transaction, both names, priority, role with tie-breaker, and the hash of all before it |
| StunRefusals.AcceptsIff | crates/rsiprtp/src/ice/agent.rs:853-885 | an answer is accepted if and only if it has 20 bytes, type 0x0101 and the cookie |
| StunBinding.TailIsIgnored | crates/rsiprtp/src/ice/agent.rs:1149-1160 | two requests equal up to the first MESSAGE-INTEGRITY, apart from the length field, are answered alike |
| StunBinding.LengthNeverTruncates | crates/rsiprtp/src/ice/agent.rs:1178-1181 | the recomputed length fits sixteen bits |
| StunExchange.HandleDatagram | crates/rsiprtp/src/ice/agent.rs:1044-1101 | one turn of the dispatcher: drop, deliver or reply |
| StunRefusals.DispatchIff | crates/rsiprtp/src/ice/agent.rs:1044-1101 | for any datagram: dropped below 20 or from 1500 bytes, delivered if its number is pending, answered if it is a proper request with type and cookie, dropped otherwise |
| StunExchange.DecodeGathered | crates/rsiprtp/src/ice/agent.rs:499-560 | the gathering decoder, including where it would read past the end |
| StunRefusals.GatheringRefusesIff | crates/rsiprtp/src/ice/agent.rs:499-522 | the gathering decoder refuses exactly the answers that a check refuses |
| StunRefusals.GatheringYieldsFirst | crates/rsiprtp/src/ice/agent.rs:526-556 | it stops at the first XOR-MAPPED-ADDRESS of eight bytes or more and un-masks an IPv4 address; after another family it goes on four bytes too far |
| StunRefusals.GatheringWithoutAddress | crates/rsiprtp/src/ice/agent.rs:526-560 | without one there is no address, and one cut short aborts |
| StunExchange.RequestIsAnswered | crates/rsiprtp/src/ice/agent.rs:1109-1204 | a request built with the receiver's name and password, and short enough for its 16-bit length field, is answered if and only if that name has no colon |
| StunExchange.RequestIsDispatched | crates/rsiprtp/src/ice/agent.rs:1044-1093 | through the socket, for names of any length: answered if and only if the receiver's name has no colon and both names together have at most 1427 bytes, and dropped otherwise |
| StunExchange.AnswerIsExact | crates/rsiprtp/src/ice/agent.rs:1206-1269 | the answer has an exact length field, the same transaction, a valid hash, and passes the sender's test |
| StunExchange.AnswerParses | crates/rsiprtp/src/ice/stun.rs:322-407 | the client parser reads the masked address of the answer |
| StunExchange.Unmask6Iff | crates/rsiprtp/src/ice/stun.rs:436-449 | an IPv6 source is read back if and only if it is plain and the transaction is all zero |
| StunExchange.AnswerIsGathered | crates/rsiprtp/src/ice/agent.rs:526-558 | the gathering decoder finds an IPv4 source |
| StunExchange.CheckComposes | crates/rsiprtp/src/ice/agent.rs:780-885 | a check end to end: reply, delivery to the sender, exact length, valid hash, acceptance, and an IPv4 source read back by both decoders (IPv6: by the client parser exactly as in `Unmask6Iff`) |
| StunTransactions.RunKeepsInv | crates/rsiprtp/src/ice/agent.rs:391-419 | the invariant of table, channels and claims holds under every interleaving, including callers dropped while sending, waiting or leaving |
| StunTransactions.EntryOutlivesCallerIff | crates/rsiprtp/src/ice/agent.rs:391-419 | over every run, the table holds an entry whose caller is gone if and only if that caller was cancelled and, since it registered, no datagram carrying its number was received and the agent was not closed |
| StunTransactions.PendingIff | crates/rsiprtp/src/ice/agent.rs:398-410 | an entry is in the table if and only if it was registered and neither its caller finished, nor a datagram with its number arrived, nor the agent closed since |
| StunTransactions.CancelLeaksEntry | crates/rsiprtp/src/ice/agent.rs:279-281 | the shortest run that leaks an entry: registered, sent, dropped by the gathering timeout |
| StunTransactions.CompletesOnce | crates/rsiprtp/src/ice/agent.rs:408-418 | once a caller has returned or was dropped, that never changes |
| StunTransactions.CompletesWithItsOwnBytes | crates/rsiprtp/src/ice/agent.rs:1068-1083 | it completes only with bytes that carry its number, and for want of a sender only after close; it times out only if no bytes reached it |
| StunTransactions.DatagramHasOneFate | crates/rsiprtp/src/ice/agent.rs:1079-1093 | a datagram completes at most one transaction and is then never answered as a request |
| SipDialog.InviteDialog.HandleResponse | crates/rsiprtp/src/dialog/invite.rs:193-249 | all branches of a response to the INVITE: ignored unless UAC and Early, else renamed, confirmed or terminated with its events (`AfterResponse`) |
| SipDialog.InviteDialog.HandleRequest | crates/rsiprtp/src/dialog/invite.rs:252-293 | all branches of an in-dialog request, with the number check for re-INVITE (`AfterRequest`) |
| SipDialog.InviteDialog.UpdateRemoteSeq | crates/rsiprtp/src/dialog/state.rs:283-295 | accepts exactly a first or larger number and remembers it |
| SipDialog.InviteDialog.Respond | crates/rsiprtp/src/dialog/invite.rs:296-318 | the state and events that a response sent by the UAS brings about (`AfterSendResponse`) |
| SipDialog.InviteDialog.NextLocalSeq | crates/rsiprtp/src/dialog/state.rs:275-278 | the local number advances by one |
| SipDialog.InviteDialog.SendBye | crates/rsiprtp/src/dialog/invite.rs:321-334 | only a confirmed dialog sends BYE; it is then Terminating even if the request cannot be built |
| SipDialog.InviteDialog.BuildPrack | crates/rsiprtp/src/dialog/invite.rs:348-391 | PRACK takes the next number, also when the build then aborts; without a CSeq method in the response it aborts before that |
| SipDialog.InviteDialog.BuildUpdate | crates/rsiprtp/src/dialog/invite.rs:402-443 | UPDATE takes the next number |
| SipDialog.InviteDialog.BuildByeWithReason | crates/rsiprtp/src/dialog/invite.rs:561-575 | number and state change only if the request can be built |
| SipDialog.Reversed | crates/rsiprtp/src/dialog/state.rs:115-134 | a caller's route set is the recorded routes in reverse |
| DialogRuns.RankNeverFalls | crates/rsiprtp/src/dialog/invite.rs:193-334 | the rank Early, Confirmed, Terminating, Terminated never falls |
| DialogRuns.AtMostOneVerdict | crates/rsiprtp/src/dialog/invite.rs:193-318 | at most one of Established, Rejected and Cancelled is ever emitted, none while Early |
| DialogRuns.ReInvitesIncrease | crates/rsiprtp/src/dialog/invite.rs:268-276 | re-INVITEs are reported with strictly increasing numbers |
| DialogRuns.NumbersIncreaseIff | crates/rsiprtp/src/dialog/invite.rs:201-234 | for any dialog, below the 32-bit limit, local requests have increasing numbers if and only if none is built after an early response has set the local number below an earlier request |
| DialogRuns.NumbersIncrease | crates/rsiprtp/src/dialog/invite.rs:320-443 | for any dialog: always for a UAS, and for a UAC among the requests built once past Early |
| DialogRuns.RenamingSetsBack | crates/rsiprtp/src/dialog/invite.rs:201-234 | for a call placed with an INVITE, an early response that names the dialog after a request was built always sets the number back |
| DialogRuns.UacRepeatsNumber | crates/rsiprtp/src/dialog/invite.rs:206-232 | PRACK and BYE of one call with the same number |
| DialogRequests.ServerSideIff | crates/rsiprtp/src/dialog/state.rs:224-256 | an INVITE makes a server-side dialog if and only if it has all six headers, and what that dialog knows |
| DialogRequests.ClientSideStarts | crates/rsiprtp/src/dialog/invite.rs:82-116 | what a client-side dialog knows at first |
| DialogRequests.ClientSideAnswered | crates/rsiprtp/src/dialog/state.rs:185-221 | what a 2xx makes of it, with and without the headers that name the dialog |
| DialogRequests.StepBuilds | crates/rsiprtp/src/dialog/invite.rs:320-443 | exactly when BYE, PRACK and UPDATE are built, what they carry and which number they take, at the 32-bit limit too |
| DialogRequests.ByeTerminates | crates/rsiprtp/src/dialog/invite.rs:561-575 | a dialog that has built a BYE of either kind is Terminating and sends it |
| DialogRequests.ServerSideIsConstant | crates/rsiprtp/src/dialog/invite.rs:193-443 | a server-side dialog keeps its name, URIs, target, Contact and routes over every run |
| DialogRequests.ServerSideCounts | crates/rsiprtp/src/dialog/state.rs:275-278 | its requests are numbered one, two, three and so on |
| DialogRequests.ReInvitesExceedInvite | crates/rsiprtp/src/dialog/invite.rs:268-276 | the re-INVITEs it reports have larger numbers than its INVITE |
| DialogRequests.AckedIff | crates/rsiprtp/src/dialog/invite.rs:278-284 | a dialog is acknowledged if and only if the application said so or an ACK reached it as a confirmed server side |
| DialogManager.RunKeepsInv | crates/rsiprtp/src/dialog/manager.rs:79-243 | in every reachable state each index entry points to a held dialog with that ID that is UAS or past Early |
| DialogManager.HandlesAreNeverReused | crates/rsiprtp/src/dialog/manager.rs:209-213 | dialogs that appear have handles beyond all earlier ones |
| DialogManager.HandlesAreDrawn | crates/rsiprtp/src/dialog/manager.rs:79-94 | a handle is drawn for every INVITE placed and every unrouted INVITE received, and for nothing else |
| DialogActions.ApplyTells | crates/rsiprtp/src/dialog/manager.rs:245-266 | each operation adds to the action list what the dialog step it makes emits, messages unchanged and events under the handle, or the report of a new call |
| DialogActions.NothingIsLost | crates/rsiprtp/src/dialog/manager.rs:189-266 | over every run, what the polls have returned followed by what is listed is exactly what was told, in order |
| DialogTable.DialogTable.constructor | crates/rsiprtp/src/dialog/manager.rs:65-74 | a new manager is empty |
| DialogTable.DialogTable.Create | crates/rsiprtp/src/dialog/manager.rs:79-94 | allocates a handle, holds a client-side dialog and registers it as pending (`CreateDialog`) |
| DialogTable.DialogTable.HandleRequest | crates/rsiprtp/src/dialog/manager.rs:97-113 | routed to its dialog, or a new server-side dialog, or ignored |
| DialogTable.DialogTable.HandleResponse | crates/rsiprtp/src/dialog/manager.rs:116-149 | found as pending call or by ID; indexes a dialog just confirmed |
| DialogTable.DialogTable.Respond | crates/rsiprtp/src/dialog/manager.rs:152-166 | the dialog takes the response and its actions move to the manager; an unknown handle changes nothing (`SendResponseFor`) |
| DialogTable.DialogTable.SendBye | crates/rsiprtp/src/dialog/manager.rs:169-174 | only the named dialog changes; the BYE it builds is returned (`SendByeFor`) |
| DialogTable.DialogTable.AckSent | crates/rsiprtp/src/dialog/manager.rs:177-181 | only the dialog's acknowledgement mark changes |
| DialogTable.DialogTable.PollActions | crates/rsiprtp/src/dialog/manager.rs:189-191 | returns and empties the action list |
| DialogTable.DialogTable.CleanupTerminated | crates/rsiprtp/src/dialog/manager.rs:194-207 | for every iteration order, exactly the ended dialogs and the entries under their IDs go |
| DialogTable.DialogTable.CreateUasDialog | crates/rsiprtp/src/dialog/manager.rs:215-232 | allocates, stores, indexes and reports a server-side dialog |
| DialogTable.DialogTable.FindDialogForRequest | crates/rsiprtp/src/dialog/manager.rs:234-243 | looks a request up with its tags swapped |
| DialogTable.DialogTable.CollectDialogActions | crates/rsiprtp/src/dialog/manager.rs:245-266 | moves a dialog's actions in order and changes no other dialog |
| DialogRouting.AlwaysFoundIff | crates/rsiprtp/src/dialog/manager.rs:138-243 | throughout a run every indexed dialog is found by its ID if and only if no two of them ever share one and no cleanup drops a dialog that shares its ID with one it keeps |
| DialogRouting.InDialogRequestsAreFound | crates/rsiprtp/src/dialog/manager.rs:97-243 | while no ID is shared every server-side dialog, and every client-side one ever confirmed, is found by its peer's requests until cleaned up |
| DialogRouting.UnnamedCallsCollide | crates/rsiprtp/src/dialog/manager.rs:116-149 | two outgoing calls, each answered by a 2xx without To tag or Contact, are both confirmed and the first is no longer found |
| DialogNames.FreshNamesAreNeverShared | crates/rsiprtp/src/dialog/manager.rs:79-232 | no ID is shared over any run whose inputs have fresh non-empty local tags, complete outgoing INVITEs, and To tag and Contact in every 2xx |
| DialogNames.FreshNamesAreFound | crates/rsiprtp/src/dialog/manager.rs:97-243 | on such inputs every server-side dialog, and every client-side one ever confirmed, is found by its peer's requests until cleaned up |
| DialogRouting.ConfirmedUnderPeersId | crates/rsiprtp/src/dialog/manager.rs:138-143 | a 2xx with To tag and Contact puts the dialog in the index under the ID its peer uses |
| DialogRouting.LateResponseIsFound | crates/rsiprtp/src/dialog/manager.rs:116-135 | a response to a call no longer pending is found by the dialog ID and changes nothing |
| DialogProtocol.ForeignIsHarmless | crates/rsiprtp/src/dialog/manager.rs:79-207 | operations on other dialogs, also under the same Call-ID, leave a dialog and its table entries alone |
| DialogProtocol.CallIsSetUp | crates/rsiprtp/src/dialog/manager.rs:97-166 | from states where both ends' names (Call-ID and local tag) are unused, INVITE and a 2xx with the callee's tag confirm both sides under mirrored IDs, URIs, targets and routes, amid any other traffic, repeated INVITEs with the Call-ID included, as long as no tag drawn repeats the name and the call is not ended |
| DialogProtocol.HangUpSendsBye | crates/rsiprtp/src/dialog/invite.rs:502-553 | the BYE carries the dialog's tags, URIs, target and routes, and touches only that dialog |
| DialogProtocol.ByeIsRouted | crates/rsiprtp/src/dialog/manager.rs:234-243 | a BYE built by either end is routed to exactly the peer's dialog, ends it and changes no other |
| DialogProtocol.CrossingByesEndBoth | crates/rsiprtp/src/dialog/invite.rs:252-334 | when both ends hang up at once, each BYE is routed to the other end and both dialogs end |
| DialogProtocol.WholeCall | crates/rsiprtp/src/dialog/manager.rs:97-243 | a whole call, set up amid other traffic and ended by either side; the callee reports the call and forwards the answer, both report it established, the side that hangs up forwards its BYE and the other reports it and the end |
| DialogEnding.PartingStep | crates/rsiprtp/src/dialog/invite.rs:193-293 | every manager operation but a BYE routed to it leaves a dialog that has hung up held and Terminating |
| DialogEnding.HeldUntilByeIff | crates/rsiprtp/src/dialog/manager.rs:97-207 | over every run with fresh names, a dialog that has hung up is still held in Terminating if and only if no BYE of its peer has arrived since; otherwise it has ended |

## Left out

- Sockets, asynchronous execution, locks and timers: they appear as inputs and steps.
- IceAgent.IceAgent.StartChecks: is one operation here; the source releases the list's lock
  between checks, so candidates added meanwhile could shift the positions it still uses.
- StunExchange.AnswerIsGathered: is about IPv4 sources, because the gathering decoder reads no
  other family.
- Interface discovery, candidate gathering over the network and TURN.
- Random numbers: transaction numbers are fresh (`Begin` in `StunTransactions.dfy`), and so are
  the local tags drawn in `DialogNames.dfy` and `DialogProtocol.dfy`.
- Jitter configurations with a zero rate or packet length (pushing divides by both) or with a
  packet of 2^31 samples or more, which the source would read as negative.
- Rounding of `f64` and `f32` in the jitter estimate and the fade, which are exact here.
- Handle and statistics counters are unbounded; a 64-bit overflow is out of reach.
- Parsing and printing of SIP messages: a message is a record of the header values the dialog
  layer reads, URIs that were parsed print to non-empty text that parses again, and building a
  request fails only while a URI is unknown. Record-Route values are taken as already parsed.
- `Session-Expires`, `RAck` and `Allow` header contents, the loose-routing flag, which the
  request builder does not read, and `handle_update`, which only reads the dialog.
- Panics on a request that cannot be built appear as the result None.
- `from_dialog_info`: the results about one dialog hold for every dialog value, so also for one
  rebuilt from its information.
- The text of error messages and log lines; the reason phrase of a STUN error stays bytes.
- Candidate constructors, IP address printing and parsing (arbitrary faithful functions), the
  floating-point speaker detector and gain control, WAV files, RTP, SRTP, SDP and session
  layers, and the `gabby` application.
