# Fireflies membership, verified

A Dafny model of the membership core of ifrit, an implementation of the Fireflies protocol. Every peer sits on several
hash rings, each a differently ordered circle of the live peers. On each ring a peer monitors its successor, accuses it
when it falls silent, and gossips with both neighbours. An accused peer answers with a note of the next epoch, signed
by itself; a peer that does not answer within the time limit is expelled from the live view.

The project has three layers.

- **Values.** `NodeSpec` and `Protocol` say what each step does to the state of one node; `Circle` says who precedes
  whom, without lists or indices. `Invariant`, `Steps`, `Provenance` and `Network` carry the invariants over single
  steps, over runs of one node and over runs of a network in which messages are lost, delayed, repeated or injected;
  `SmallSteps` takes runs apart. `Admission`, `Verdicts` and `Traffic` say exactly what is accepted, refused and sent;
  `Monitoring`, `Rebuttal`, `Expulsion`, `TimedPeers`, `Predecessors`, `GossipExchange` and `Rotation` hold the other
  theorems about the protocol. `Scenarios` and `Sample` show runs in which two natural
  expectations fail.
- **Algorithms.** `RingSearch` has the binary searches, `Mask` and `OwnNote` the bookkeeping of deactivated rings.
- **Objects.** `Rings`, `RingSets`, `Peers`, `Views`, `Replies` and `Nodes` are the mutable classes, with the loops and
  in-place updates of the original. Every method is proved to take the abstract state (`Abs`) to the one the value
  layer gives. `Nodes.Node.Serve` does so for any sequence of events and `Nodes.Live` from start-up on, so the theorems
  about runs hold of the objects.

How the surroundings are modelled:

- The position of an id on a ring is a function, injective on ids for each ring. This stands for SHA-256.
- A signature names its signer and what was signed; checking compares both. The adversary may use any signature except
  one of a correct node that this node has not made. The field `signed` is the log of a node's signatures, `sent` the
  log of its requests.
- Time and the verdicts of the failure detector are parameters. Iteration over a Go map is iteration in any order.
- Each handler is one atomic step.
- Masks are 32-bit words. The objects run with any number of rings; the theorems that speak of masks are about 1 to 32.

Where code and documentation differ, the model follows the code. A comment in the code
(`core/handlers.go:211-212`) says that epochs decide which notes a reply carries so that notes need not all be sent;
the test is the wrong way round for hosts that were reported, and `GossipExchange.CatchUpExactly` says exactly what
that means. The mask check counts bits beyond the rings (`Mask.ValidMaskBoundsDisabled`). An id off the ring counts as
its own predecessor (`Rings.Ring.IsPrev`). A join can clear an accusation without stopping the timer
(`Scenarios.ClearedButExpelled`).

## Model

| member | source | states |
|---|---|---|
| RingSearch.Insert | core/discovery/search.go:22-52 | The bounded search, whose bounds may cross, ends at the lower bound of the new hash: everything before is smaller, nothing after is; the result is the old list with the one entry put there. |
| RingSearch.Search | core/discovery/search.go:54-83 | Succeeds exactly when some entry has the hash, with the index of that entry; an empty list and an absent hash both fail. |
| RingSearch.FindSuccAndPrev | core/discovery/search.go:85-120 | For any id, on the list or not, returns two entries such that no entry lies strictly inside the arc to the first or from the second. |
| RingSearch.SuccIndex | core/discovery/search.go:122-124 | The wrapped successor index is the next one, or 0 after the last. |
| RingSearch.PrevIndex | core/discovery/search.go:126-133 | With Go's truncating remainder, the corrected index is the previous one, or the last before 0. |
| RingSearch.ListNeighbours | core/discovery/search.go:122-133 | In a sorted list, no entry lies inside the arc between two entries exactly when the second stands at the wrapped successor index of the first. |
| Rings.BetweenDecides | core/discovery/ring.go:428-456 | With the true predecessor of an id as start, the three-way comparison is true exactly when no entry lies strictly between the tested position and the id. |
| Rings.BetweenDecidesSucc | core/discovery/ring.go:428-456 | The same on the successor side. |
| Rings.InsertKeepsConsistent | core/discovery/ring.go:236-284 | Insertion at the lower bound keeps the list sorted, in agreement with the id map, and the cached index on the node itself, so the lost-self branch is unreachable. |
| Rings.RemoveKeepsConsistent | core/discovery/ring.go:286-321 | Removal of any other entry keeps the same agreement. |
| Rings.InsertChangesSucc | core/discovery/ring.go:261-263 | Comparing old and new successor detects exactly that the newcomer came right after the node. |
| Rings.InsertChangesPrev | core/discovery/ring.go:265-267 | Comparing old and new predecessor detects exactly that the newcomer came right before the node. |
| Rings.Ring.constructor | core/discovery/ring.go:217-234 | A new ring is consistent and holds only the node itself. |
| Rings.Ring.Add | core/discovery/ring.go:236-284 | Members grow by exactly the newcomer (nothing happens for a member); the lost neighbours are reported exactly when the newcomer becomes the node's successor or predecessor; the newcomer's two circle neighbours, which pruning looks at, are found. |
| Rings.Ring.Remove | core/discovery/ring.go:286-321 | Members lose exactly the given id, the node itself and strangers excepted; the index stays consistent. |
| Rings.Ring.IsPrev | core/discovery/ring.go:323-384 | In all four live/dead cases together: true exactly when no member lies strictly inside the arc from the accuser to the accused (or both are the same id off the ring). |
| Rings.Ring.BetweenNeighbours | core/discovery/ring.go:386-407 | True exactly when the id is the node itself, or is or would become its direct successor or predecessor. |
| Rings.Ring.Neighbours | core/discovery/ring.go:409-426 | The direct successor and predecessor on the circle of any id, member or not. |
| Circle.EndpointsDoNotCount | core/discovery/ring.go:323-384 | Whether the two ids are already on the ring does not change who precedes whom, so the predecessor check means the same before and after they are inserted. |
| Circle.NeighbourUnique | core/discovery/ring.go:458-472 | A position has at most one direct predecessor and at most one direct successor among the members. |
| Circle.NewcomerSplits | core/discovery/ring.go:236-284 | After a join, a direct-predecessor pair stays one unless the newcomer stands exactly between the two. |
| RingOrder.Canonical | core/discovery/ring.go:236-321 | Two sorted lists with the same ids are equal, however they came about. |
| RingOrder.RingsAreCanonical | core/discovery/ring.go:236-384 | Two rings with the same membership have the same list, map and length, and with the same self the same cached index. |
| RingOrder.SameVerdict | core/discovery/ring.go:323-384 | Two nodes with the same membership give the same predecessor verdict on every pair of ids. |
| RingOrder.JoinThenLeave | core/discovery/ring.go:236-321 | Adding a stranger and removing it again restores list, map, length and cached index. |
| RingOrder.PrecedesOnceInserted | core/discovery/ring.go:323-384 | The predecessor verdict for two distinct ids, live or not, equals standing at the previous index in the list that holds both. |
| RingOrder.OneCycle | core/discovery/ring.go:458-472 | Following direct successors from any member visits every member exactly once and returns to the start. |
| RingOrder.UniqueMonitor | core/discovery/ring.go:174-188 | With at least two members, each member has exactly one direct predecessor, another member: the one that monitors it on that ring. |
| RingOrder.UniqueTarget | core/discovery/ring.go:174-188 | Likewise each member has exactly one direct successor to monitor. |
| RingSets.RingSet.constructor | core/discovery/ring.go:56-78 | One ring per number from 1 to numRings, each holding the node itself. |
| RingSets.RingSet.Add | core/discovery/ring.go:80-91 | Every ring takes the newcomer in; its neighbours before the join are reported ring by ring. |
| RingSets.RingSet.Remove | core/discovery/ring.go:93-97 | Every ring loses the peer, and no ring ever loses the node itself. |
| RingSets.RingSet.IsPredecessor | core/discovery/ring.go:99-106 | The predecessor verdict on an existing ring, false on any other number. |
| RingSets.RingSet.MyRingSuccessor | core/discovery/ring.go:174-188 | The direct successor on the ring, nothing exactly when the node is alone or the ring does not exist. |
| RingSets.RingSet.MyRingNeighbours | core/discovery/ring.go:151-172 | Exactly the other members next to the node on the ring, at most two, without repetition. |
| RingSets.RingSet.ShouldBeMyNeighbour | core/discovery/ring.go:207-215 | True exactly when the id is the node itself or is, or would be, next to it on some ring. |
| RingSets.RingSet.FindNeighbours | core/discovery/ring.go:108-127 | Exactly the members next to the id on some ring. |
| Mask.BitHelpers | core/discovery/view.go:579-593 | Setting or clearing a bit of the word changes that bit and no other. |
| Mask.MaxByz | core/discovery/view.go:70-73 | The limit computed in floating point is the whole part of half of the rings less one, 0 below two rings, and so strictly below half. |
| Mask.ConfinedMask | core/discovery/view.go:562-571 | For a mask without bits beyond the rings, the mask check is exactly the bound on disabled rings. |
| Mask.Majority | core/discovery/view.go:562-571 | An accepted confined mask leaves a strict majority of the rings active. |
| Mask.SharedRing | core/discovery/view.go:562-571 | Any two accepted confined masks have a ring active in both. |
| Mask.ValidMaskBoundsDisabled | core/discovery/view.go:562-571 | The check alone bounds the disabled rings if and only if there are 32 rings, because it counts bits beyond the rings as active. |
| OwnNote.FreshIsSound | core/discovery/view.go:103-111 | The initial mask has exactly the ring bits set, none deactivated. |
| OwnNote.SomeRingToReactivate | core/discovery/view.go:521-527 | When the limit is reached, the search always finds another inactive ring: it never runs past the last one. |
| OwnNote.DeactivateKeeps | core/discovery/view.go:501-533 | A deactivation keeps the mask within the rings and the counter equal to the number of inactive rings, and leaves the accused ring off. |
| OwnNote.AnswerKeeps | core/discovery/view.go:384-415 | An accusation is answered if and only if it names the current epoch; the epoch rises by one, the mask stays acceptable, the accused ring ends up disabled whenever one ring may be. |
| OwnNote.AnswerExactly | core/discovery/view.go:501-533 | Bit by bit which rings are on after an answer, and the counter: nothing changes where no ring may or need be given up; else the accused ring goes off, and at the limit the first other ring that was off comes on. |
| OwnNote.AnswerRuns | core/discovery/view.go:384-415 | Over any sequence of self-accusations the bookkeeping stays exact and the answered epochs are consecutive: no epoch is answered twice, and the epoch grows by exactly the number of answers. |
| Peers.MakePeer | core/discovery/peer.go:69-113 | Fails exactly for zero rings or an unusable certificate; otherwise an empty slot for every ring number. |
| Peers.Peer.SetNote | core/discovery/peer.go:306-321 | Only a first or strictly newer note is stored, under the peer's own id; the epoch never falls. |
| Peers.Peer.Accuse | core/discovery/peer.go:176-216 | Refuses another epoch, an unknown ring and empty ids, in that order; otherwise fills the slot of the ring. The note and the other slots stay. |
| Peers.Peer.Create | core/discovery/peer.go:128-174 | Refuses an unknown ring and an identical accusation; otherwise stores the node's own signed accusation. Unless the ring is unknown, the slot then names this accuser and epoch; the other slots stay. |
| Peers.Peer.RemoveOlder | core/handlers.go:422-427 | Removing one by one the accusations older than the epoch empties exactly their slots; slot by slot where each accusation sits under its own ring. |
| Peers.Peer.AllAccusations | core/discovery/peer.go:276-291 | Exactly the accusations on record, visited in any order. |
| Peers.Peer.Accused | core/discovery/peer.go:293-304 | True exactly when some slot is filled. |
| Views.View.constructor | core/discovery/view.go:67-119 | The start state: every ring active, epoch 1, signed, nobody else known. |
| Views.PruneDecision | core/discovery/ring.go:275-281 | Looking only at the newcomer's two neighbours finds exactly the accusation that the join put out of date: the successor's, by the newcomer's predecessor. |
| Views.ClearAllPrunes | core/discovery/ring.go:275-281 | Doing so ring after ring prunes exactly the out-of-date accusations of all records. |
| Views.View.AddLive | core/discovery/view.go:243-258 | The peer is live and on every ring, and exactly the accusations put out of date are gone; a second join changes nothing. |
| Views.View.RemoveLive | core/discovery/view.go:274-289 | The peer is out of the live view and of every ring; its record and timer stay. |
| Views.View.AddFull | core/discovery/view.go:192-210 | A record appears exactly for a usable certificate of an unknown id; otherwise the outcome says which of the two was wrong. |
| Views.View.StartTimer | core/discovery/view.go:291-338 | A new timer starts now; an existing one only moves to a newer note and keeps its start; a missing or foreign note is refused and changes nothing. |
| Views.View.CheckTimeouts | core/discovery/view.go:369-382 | Visiting the timers in any order removes exactly the expired ones, from the timers, the live view and every ring. |
| Views.View.DeactivateRing | core/discovery/view.go:501-533 | The loop finds the first inactive ring other than the accused one; the errors leave the counter alone. |
| Views.View.ShouldRebuttal | core/discovery/view.go:384-415 | Publishes the next signed note exactly for an accusation at the current epoch, deactivation error or not. |
| Views.View.ValidAccuser | core/discovery/view.go:431-436 | The predecessor verdict over the live view and the node. |
| Views.View.ShouldBeNeighbour | core/discovery/view.go:417-422 | Next to the node on some ring, or the node itself. |
| Views.View.FindNeighbours | core/discovery/view.go:424-429 | The members next to the id on some ring. |
| Views.View.GossipPartners | core/discovery/view.go:219-228 | The other members next to the node on the current gossip ring; then the ring advances. |
| Views.View.MonitorTarget | core/discovery/view.go:230-241 | The unique direct successor on the current monitor ring, if it is another peer; then the ring advances. |
| Nodes.NewNode | core/node.go:146-216 | Fails exactly for an unusable certificate or no rings; with a certificate authority every accepted contact is known and live. |
| Nodes.Node.EvalCertificate | core/handlers.go:452-484 | The checks in order (own id, id size, signature by the authority or itself), then an entry in the full view. |
| Nodes.Node.EvalNote | core/handlers.go:369-450 | The in-place handler has exactly the effect and outcome of the note step, both for unaccused and for accused peers. |
| Nodes.Node.EvalSelfAccusation | core/handlers.go:313-328 | Wrong accuser, bad signature and stale epoch are refused in that order; otherwise the node answers and addresses its gossip partners. |
| Nodes.Node.EvalPeerAccusation | core/handlers.go:330-366 | Every way out of the handler, with the timer rule for repeated and for new accusations. |
| Nodes.Node.EvalAccusation | core/handlers.go:295-367 | Unsigned accusations are refused; the rest splits into those of the node itself and those of others. |
| Nodes.Node.MergeCertificates | core/handlers.go:273-293 | The loop folds the certificate step over the list, own certificate skipped. |
| Nodes.Node.MergeNotes | core/handlers.go:226-241 | The loop folds the note step over the list, own note skipped. |
| Nodes.Node.MergeAccusations | core/handlers.go:243-271 | The loop folds the accusation step over the list, skipping unknown parties and accused peers without a note. |
| Nodes.Node.MergeReply | core/protocol.go:52-54 | Certificates, then notes, then accusations. |
| Nodes.Node.Send | core/protocol.go:20-36 | The node's current note goes to exactly its partners on the current gossip ring. |
| Nodes.Node.Gossip | core/protocol.go:38-62 | A round is a run: the request, carrying the report of all known hosts, to the partners, followed by the merge of each reply that arrived. |
| Protocol.GossipIsRun | core/protocol.go:38-62 | Merging the replies of a round one by one equals the run of the corresponding events, so what holds of runs holds of rounds. |
| Nodes.Node.AccuseSuccessor | core/protocol.go:74-95 | A dead successor without a note is dropped; with a note it is accused and timed. |
| Nodes.Node.Monitor | core/protocol.go:64-98 | The loop makes one probe step per verdict. |
| Nodes.Node.Spread | core/handlers.go:43-127 | State, outcome and reply in all three cases: neighbour, known peer that is no neighbour, newcomer. |
| Nodes.Node.Handle | core/node.go:118-144 | One event leaves the objects in the state that the run semantics gives. |
| Nodes.Node.Serve | core/node.go:118-144 | Any sequence of events leaves the objects in the state that the run semantics gives, so every theorem about runs is about these objects. |
| Nodes.Live | core/node.go:146-216 | From start-up on: the objects of a new node are in the state of the run from the start-up state, and that state is consistent. |
| SmallSteps.RunIs | core/handlers.go:43-484 | Every run is a sequence of small steps, one certificate, note, accusation, probe, timeout check or request at a time. |
| Replies.MergeViews | core/handlers.go:198-224 | The certificates of exactly the unreported hosts, exactly the notes the epoch test selects including the node's own, and all accusations. |
| Replies.ReportAccusations | core/handlers.go:98-100 | Exactly the accusations of the requester. |
| Replies.Introduce | core/handlers.go:112-123 | The certificates of exactly this node and the newcomer's neighbours on all rings, with the notes of those that have one. |
| Replies.Report | core/discovery/view.go:468-489 | Every known host and nobody else, by its cleaned-up name, at its note's epoch or 0. |
| Invariant.EvalNoteEffect | core/handlers.go:369-450 | A note is accepted if and only if it is signed by a known peer, strictly newer and has a valid mask; it then clears every accusation, makes the peer live, and stops the timer of an accused peer. Otherwise nothing changes. |
| Invariant.InvalidateClears | core/handlers.go:422-434 | Because stored accusations carry the stored epoch, a newer note clears all of them. |
| Steps.EvalPeerAccusationKeeps | core/handlers.go:330-366 | Evaluating an accusation keeps the node consistent. |
| Steps.EvalSelfAccusationKeeps | core/handlers.go:313-328 | So does answering one. |
| Steps.SpreadKeeps | core/handlers.go:43-127 | So does answering a request. |
| Steps.MonitorRoundKeeps | core/protocol.go:64-98 | So does a monitoring round. |
| Steps.ApplyKeeps | core/handlers.go:43-484 | Every step keeps: accusations sit under their own ring at the accused's note epoch; no note, no accusation; live and accused implies timed; timed implies live; live implies known; self in neither view; own mask, counter and signatures exact. |
| Steps.RunKeeps | core/protocol.go:20-98 | The same along every run, and known peers, epochs and signatures only grow; a peer that was out comes back only with a strictly newer note. |
| Steps.NewNodeOk | core/node.go:197-213 | The start-up state satisfies it. |
| Verdicts.SelfAccusationExactly | core/handlers.go:313-328 | An accusation of the node is answered if and only if its ring exists, nobody live and not the node itself stands strictly between accuser and node, the accuser signed exactly this, and it names the current epoch. Any other leaves the state unchanged, and each refusal is named by the first thing that is wrong. |
| Verdicts.PeerAccusationExactly | core/handlers.go:330-366 | A new accusation is stored if and only if the stored note has its epoch and leaves the ring on, nobody live stands strictly between accuser and accused, whether or not the accuser is live (or both are one id off the ring), and the accuser signed it. Then exactly that slot and the timer of a live accused change; unless it was on file, any other changes nothing. |
| Verdicts.OnFileIsTimed | core/handlers.go:330-338 | In any state: an accusation on file only times a live accused that has no timer. |
| Verdicts.RefusalsExactly | core/handlers.go:340-366 | Which refusal another accusation gets: epoch, ring, accuser, signature, in that order. |
| Verdicts.MergeAccusationExactly | core/handlers.go:248-270 | In a reply: an accusation of the node is answered if and only if its accuser is known and it holds up; of a known peer with a note, by a known accuser, it is evaluated; any other is passed over. |
| Verdicts.AccusationsAreAnswered | core/handlers.go:243-271 | If any accusation in a list calls for an answer, the node ends at a later epoch, whatever the others are. |
| Verdicts.EpochRisesOnlyWhenAccused | core/discovery/view.go:384-415 | In every reachable state of the network a correct node's epoch rises only on a delivered reply with an accusation of it that its accuser signed; if the accuser is correct, it has made that accusation. |
| Admission.CertificateExactly | core/handlers.go:452-484 | On the certificate's fields: accepted if and only if the id is not the node's own, has 32 bytes, and is signed by the authority if there is one and by itself if there is none. A record appears exactly for an unknown peer with two addresses and an ECDSA key; nothing else changes. |
| Admission.RunsAdmitOnlyVouchedFor | core/handlers.go:467-481 | Along every run from start-up, with an authority everybody in the full view carries its signature, and without one their own. |
| Admission.ContactsAreLive | core/node.go:197-213 | After start-up with an authority exactly the eligible contacts are known and all of them are live; without one nobody is known. The first note is signed, at epoch 1, with every ring on. |
| Admission.SpreadExactly | core/handlers.go:43-127 | How every request ends, by certificate fields and ring positions: who is taken in, whose note is only evaluated, who is refused. |
| Admission.NoteRefusalsExactly | core/handlers.go:369-450 | When a note is accepted, and which refusal it gets otherwise, on its fields. |
| Admission.NoteOnAnyRecord | core/handlers.go:402-447 | In any state: an acceptable note empties exactly the slots of older accusations; the peer is live again, and an accused one loses its timer, if and only if none is left. |
| Traffic.RequestsExactly | core/protocol.go:38-44 | Sending addresses exactly the live peers next to the node on the current ring, with its certificate, current note and the given report; the ring then moves on by one. |
| Traffic.RebuttalExactly | core/protocol.go:20-36 | Answering sends the new note, without a report, to exactly those partners. |
| Traffic.RoundMergesEveryReply | core/protocol.go:43-54 | A round is the request followed by the replies of exactly the partners that could be reached. |
| Traffic.SomebodyIsPartner | core/discovery/ring.go:151-172 | As long as anybody is live there is a partner on every ring. |
| Traffic.ReportExactly | core/discovery/view.go:468-489 | Where no two ids come to share a name, the report gives every known host at exactly its note's epoch, or 0. |
| Traffic.MergedCertificates | core/handlers.go:198-203 | A merge holds a host's certificate if and only if the host was not reported, and no other. |
| Traffic.MergedNotes | core/handlers.go:204-223 | It holds a note if and only if the host was not reported or was reported at a later epoch, the node's own included, and no other. |
| Traffic.MergedAccusations | core/handlers.go:211-216 | It holds exactly the accusations on record. |
| Traffic.ReplyKind | core/handlers.go:58-124 | By ring positions: an adjacent requester gets a merge, or nothing when it reports no host; a known one that is not adjacent its accusations; a newcomer an introduction. |
| Traffic.ReportedAccusations | core/handlers.go:98-100 | A report of accusations holds exactly those on record. |
| Traffic.AccusedLearnsAndAnswers | core/handlers.go:93-100 | An expelled peer that asks is told, and if any accusation on record calls for an answer by its own lights it ends at a later epoch. |
| Traffic.IntroducedExactly | core/handlers.go:112-123 | An introduction holds the certificate and note of a party if and only if that is the node or a live peer next to the newcomer on some ring. |
| Traffic.IntroductionTeaches | core/handlers.go:112-123 | A newcomer that merges it knows all of them, at an epoch at least as late as the node's. |
| Scenarios.OneReplyTellsAll | core/protocol.go:52-54 | A node that knows nobody learns two peers, their notes and the accusation of one by the other from a single reply, timer included; this takes the order certificates, notes, accusations. |
| Provenance.ApplyStored | core/handlers.go:295-450 | A step stores only signatures that arrived or were made by the node. |
| Network.StepKeeps | core/handlers.go:43-484 | Every network step, including lost, repeated and injected messages, keeps all nodes consistent and every signature of a correct node its own. |
| Network.RunsKeep | core/handlers.go:43-484 | The same along every run of the network. |
| Network.EpochsAreTruthful | core/handlers.go:295-450 | In every reachable state of the network, what any correct node stores about a correct node carries an epoch no greater than that node's own, and the stored note was signed by it. |
| Network.EpochsNeverFall | core/handlers.go:386-390 | Along every continuation no correct node forgets a peer and no stored epoch falls. |
| Network.NotesAgree | core/discovery/view.go:384-415 | In every reachable state, two nodes that store the same epoch for a correct node store the same note. |
| Rebuttal.AnswerIsAccepted | core/handlers.go:369-450 | A node that knows the accused at an epoch no newer than the accusation accepts the answer and ends with it unaccused, live, at the new note, its timer gone if it was accused. |
| Rebuttal.AnswerDisablesRing | core/handlers.go:340-343 | With a ring to spare, it then refuses every accusation on the same ring at the new epoch. |
| Rebuttal.RebuttalClosesTheLoop | core/handlers.go:313-328 | In every reachable state of the network: delivering the rebuttal of a correct node to any correct node that knows it clears it there, with no assumption on what was stored. |
| Rebuttal.SignedNoteClears | core/handlers.go:369-450 | However late: in every reachable state, any note a correct node has ever signed clears it at every correct node that stores an older epoch, and changes nothing elsewhere. |
| Rebuttal.CurrentNoteClears | core/handlers.go:369-450 | A correct node's current note leaves exactly that note on record at every correct node that knows the sender. |
| Rebuttal.RebuttalIsSent | core/protocol.go:20-36 | The answer is in flight to every partner on the current gossip ring. |
| Expulsion.TimersKeepTheirStart | core/discovery/view.go:291-338 | No sequence of calls moves the start of a running timer or touches anything but timers. |
| Expulsion.ExpelledStaysOut | core/discovery/view.go:369-382 | A peer expelled by timeout is out of the live view and all rings and stays out, over any continuation, until a note strictly newer than the one stored at expulsion is accepted. |
| Expulsion.StartTimerExactly | core/discovery/view.go:291-338 | One call on the fields of the timer: refused, started now, left alone, or moved to a newer note with its start kept. |
| Expulsion.ExpelsExactly | core/discovery/view.go:369-382 | In a consistent node a timed peer leaves the live view and loses its timer if and only if the timer has run for longer than the limit; everybody else stays as they were. |
| Expulsion.TimersExactly | core/discovery/view.go:291-382 | In every small step a running timer is untouched unless it is removed, by a check past the limit or a newer note, and a timer that appears starts at the time of the step. |
| Expulsion.NobodyExpelledEarly | core/discovery/view.go:369-382 | Over runs: as long as no timeout check comes later than the limit after its timer started, a timed peer is live and timed since then, whatever else happens, unless it has answered. |
| Expulsion.NoteStopsTimer | core/handlers.go:402-447 | An accepted note stops the peer's timer if and only if the peer was accused. |
| Expulsion.SilentIsExpelled | core/protocol.go:87-92 | A peer that does not answer in time is expelled: from the start of its timer, whatever else the run brings, either a newer note of it has been accepted or a timeout check past the limit leaves it out of the live view and all rings. |
| Scenarios.ClearedButExpelled | core/discovery/ring.go:278-281 | A run from start-up, for every configuration with one ring and every newcomer that lands between the node and a successor found dead: the only accusation is cleared, the timer runs on, and a peer that nobody accuses is expelled. |
| Sample.TimedButNotAccused | core/discovery/ring.go:278-281 | The same on concrete positions, identifiers, times and events, with the configuration shown to be a good one. |
| TimedPeers.JoinClearsExactly | core/discovery/ring.go:275-281 | By ring positions, slot by slot: a join clears an accusation if and only if accused and accuser are members and the newcomer stands directly between the two. |
| TimedPeers.JoinKeepsTimedAccused | core/discovery/ring.go:278-281 | A join leaves every timed peer accused if and only if each has an accusation the newcomer does not land in the middle of. |
| TimedPeers.NoteKeepsTimedAccused | core/handlers.go:402-447 | Accepting a note leaves every timed peer accused if and only if it does not bring its sender back in the middle of all accusations of some timed peer. |
| TimedPeers.StepKeepsTimedAccused | core/handlers.go:295-450 | No other small step leaves a timed peer unaccused. |
| TimedPeers.TimedAccusedRuns | core/handlers.go:295-450 | Over whole runs: every timed peer stays accused all along if and only if no note of the run brings its sender back that way. |
| TimedPeers.TimedAccusedEvents | core/handlers.go:43-127 | For the events of a run: if no note among its small steps brings its sender back that way, every timed peer is accused at the end. |
| Predecessors.LeavingKeeps | core/discovery/ring.go:286-321 | Departures keep that accusations between live peers name the accused's current predecessor. |
| Predecessors.AcceptingKeeps | core/handlers.go:345-353 | So do accepted accusations. |
| Predecessors.MonitoringKeeps | core/protocol.go:66-95 | So do the node's own. |
| Predecessors.JoiningKeepsExactly | core/discovery/ring.go:236-284 | A join keeps it if and only if the newcomer directly precedes every live peer it is on record as accusing on that ring. |
| Predecessors.JoiningKeeps | core/discovery/ring.go:236-284 | So a newcomer that is not on record as an accuser keeps it, thanks to the pruning. |
| Predecessors.NoteKeeps | core/handlers.go:402-447 | Accepting a note keeps it if and only if it does not bring back a peer that stands elsewhere than right before the live peers it is on record as accusing. |
| Predecessors.StepKeepsExactly | core/handlers.go:295-450 | No other small step breaks it. |
| Predecessors.RunsKeepExactly | core/handlers.go:295-450 | Over whole runs: accusations between live peers name predecessors all along if and only if every peer that comes back stands in place. |
| Predecessors.EventsKeep | core/handlers.go:43-127 | For the events of a run: if every peer that comes back stands in place, accusations between live peers name predecessors at the end. |
| Scenarios.BackOutOfPlace | core/discovery/ring.go:236-284 | A run from start-up, for every configuration with one ring and any four peers in order: a peer accuses its successor, is expelled, is overtaken by a newcomer and comes back; the rule held before its return and fails after it. |
| Sample.AccuserNotPredecessor | core/discovery/ring.go:236-284 | The same on concrete positions, identifiers and events. |
| Predecessors.MonitorTargetIsValid | core/discovery/view.go:230-241 | The monitored peer may be accused by its monitor at every node with the same membership. |
| Monitoring.DeadIsAccused | core/protocol.go:71-96 | In a consistent node a successor found dead ends accused by this node on the probed ring and timed, whether or not the accusation existed; without a note it leaves the live view instead. |
| Monitoring.AccusationIsAccepted | core/handlers.go:330-366 | Every node with the same membership and the same note for the accused ends with that accusation on record and the accused timed, except that it refuses a new one on a ring the note disables. |
| Monitoring.AccusedAnswers | core/handlers.go:313-328 | The accused, agreeing on the membership, answers its monitor's accusation if and only if it is still at that epoch. |
| Monitoring.AccusingExactly | core/protocol.go:74-95 | In any state: a peer found dead ends accused by the node on that ring at the stored epoch; a live one without a timer gets one that starts now; other slots and running timers stay. |
| Monitoring.ProbedExactly | core/discovery/view.go:230-241 | The target of a probe is the live peer with nobody between the node and it on the probed ring. |
| Monitoring.SomebodyIsProbed | core/discovery/ring.go:174-188 | As long as anybody is live there is such a peer. |
| Monitoring.QuietRound | core/protocol.go:64-98 | A round in which every probe is answered changes nothing but the ring to probe next. |
| Monitoring.RoundTouchesOnlyTheDead | core/protocol.go:64-98 | In any round, whoever is newly accused, timed or dropped was probed in it and found dead. |
| Monitoring.RoundSignsOnlyForTheDead | core/protocol.go:64-98 | In any round, every new signature is the accusation of a peer probed and found dead, on that ring at the stored epoch. |
| Monitoring.RoundAccusesTheDead | core/protocol.go:64-98 | Every peer with a note that a round found dead ends the round accused by the node on the ring where it was probed, and timed. |
| Rotation.FullTurn | core/discovery/view.go:447-459 | From any ring, numRings consecutive turns visit every ring exactly once. |
| Rotation.RoundNeverRepeats | core/node.go:155-162 | However many pings are configured, one monitoring round never probes a ring twice. |
| GossipExchange.ExchangeTeaches | core/handlers.go:198-241 | After one exchange, every host of the responder that was not reported is known to the requester, at an epoch at least the responder's. |
| GossipExchange.ResponderIsLearned | core/handlers.go:219-223 | So is the responder itself, if it was known but not reported. |
| GossipExchange.EmptyReportTeachesNothing | core/handlers.go:72-76 | A request that reports no host counts as a rebuttal: a neighbour's reply teaches nothing. |
| GossipExchange.CatchUpExactly | core/handlers.go:200-209 | A reply offers a note newer than the reported epoch if and only if the host was not reported at all. |
| GossipExchange.UpdateExactly | core/discovery/view.go:479-486 | With the real report: a newer note is offered if and only if no id known to the requester cleans up to the host's id. |

## Left out

- Transport, TLS, gRPC, HTTP, bootstrapping, the certificate authority, the visualiser and the client facade: no
  membership logic.
- Application messages and streams (`core/handlers.go:129-196`): handlers of the user.
- Nodes.Node.Spread: the application's gossip handler (`core/handlers.go:78-83`) is not called; it has no effect on
  membership.
- Nodes.Node.Gossip: the application's response handler (`core/protocol.go:56-60`) is not called, for the same reason.
- Nodes.Node.EvalNote: does not reset the ping counter (`core/handlers.go:435`); a probe is a verdict of the failure
  detector, dead or not.
- Rings.Ring.Add: does not prune the successor's accusation (`core/discovery/ring.go:275-281`), because entries hold ids
  and records live in the view; it reports the newcomer's neighbours and `Views.View.AddLive` prunes, once all rings have
  taken the newcomer in. The slots of different rings do not meet.
- RingSets.RingSet.Add: does not pass on the neighbours that the node lost (`core/discovery/ring.go:80-91`), which are
  only needed to close connections; `Rings.Ring.Add` says which they are.
- Views.View.AddLive: does not close connections to lost neighbours (`core/discovery/view.go:255-257`).
- Views.View.RemoveLive: does not close the connection to the peer (`core/discovery/view.go:283`).
- Peers.Peer.Accuse: does not model a signature with a missing half (`core/discovery/peer.go:188-190`); a signature is
  present or absent as a whole.
- Mutexes and goroutines: interleavings inside one handler are not modelled.
- Failures of signing, marshalling and certificate parsing: signing always succeeds, and lists hold parsed certificates.
- Epochs are unbounded: wrap-around after 2^64 answers is not modelled; `OwnNote.AnswerRuns` shows that the epoch grows
  by one per answer only.
- Steps.RunKeeps: with more than 32 rings, which the code accepts, the ring bits run out and the mask part of the
  consistency does not hold; the theorem is about 1 to 32 rings.
- The rings are visited in ascending order where the original visits them in any order: they do not share state.
- `allMyNeighbours`, `MyRingNeighbours` of the view, `myRingPredecessor`, `AnyAccusation`, `ClearAccusations` and other
  queries of the same kind: would only add easy members.
- The contacts without a certificate authority (`core/node.go:375-389`): the same merge as in a gossip round.
- Replacing invalid UTF-8 in reported ids is an arbitrary function on ids in `Replies.Report`; the events of a run allow
  any report.
- Code that is commented out or marked as test-only.
