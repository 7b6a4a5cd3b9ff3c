# Cloud Itonami: a verified model of the Signal transport and its companions

The largest part of this project models the browser client's end-to-end messaging (`signal.js`): X3DH key agreement,
the Double Ratchet with skipped-message keys, device approvals, group sender chains, conversation envelopes and the
canonical text that is authenticated with every ciphertext. Four smaller programs of the repository that rest on a
loop with a real refinement argument are modelled beside it.

| file | what it holds |
|---|---|
| `Wrappers.dfy`, `Sequences.dfy`, `Texts.dfy` | failure types, and how sequences and texts come apart |
| `Keys.dfy` | symbolic keys, headers, associated data and ciphertexts |
| `Ratchet.dfy` | one session: the ratchet as functions on a record, and the mutable `RatchetState` that refines them |
| `RatchetHistory.dfy` | the sequence of ratchet epochs that explains both ends of a session, and how every step keeps it |
| `Secrecy.dfy` | what a network with private keys of its own can derive, and that sessions stay out of its reach |
| `Transport.dfy` | one client: X3DH, approvals, `encryptPacket`, `decryptPacket` |
| `Approvals.dfy` | what a verification asks the user, and what becomes of the answers |
| `Prekeys.dfy` | which bundles start a session, what the agreed secret is made of, how a one-time prekey is used up |
| `Runs.dfy`, `Guarantees.dfy` | two clients and an adversarial network, and what every run guarantees |
| `Backlog.dfy` | how many packets the network may hold back, in any order, without losing one |
| `Ordering.dfy`, `Envelopes.dfy`, `GroupChain.dfy` | membership digests, envelopes, group chains over whole runs |
| `Client.dfy` | `SignalClient`, the object over the stored records, refining the functions of the files above |
| `ExportedCalls.dfy` | envelopes as runs of packets, and approvals over runs of the exported calls |
| `Coverage.dfy`, `FreshKeys.dfy` | who an envelope is for, when it is refused, and that its generated keys are used once |
| `EnvelopesInRuns.dfy` | envelopes between the two clients of a run: when they are read, and what they can show |
| `Numerals.dfy`, `JsonText.dfy` | numbers and JSON values as text, with readers written from RFC 8259 |
| `Canonical.dfy`, `AssociatedData.dfy`, `Base64.dfy` | the texts behind the symbols |
| `StreamScan.dfy` | the streaming search for private-key material |
| `AccessibilityWalk.dfy`, `WalkOrder.dfy` | the budgeted walks over an accessibility tree, and their order told by places in it |
| `DnsProof.dfy` | query names, TXT decoding, JSON strings, lifetime of a DNS proof |
| `CostModel.dfy` | exact decimal cash flows and payback |

**How cryptography is modelled.** Keys are terms. A key pair is an id; a Diffie-Hellman output is an unordered pair of
ids; the root step, the chain step and the message key are constructors. A ciphertext records its key, its associated
data and its plaintext, and opens exactly under that key and that data. Freshly generated keys are drawn from a supply
that only grows. That two keys differ is therefore a lemma about terms, not an assumption.

**How a run is modelled.** `Runs.World` holds two clients, everything ever sent, everything accepted, and the supply.
An event sends a message, or delivers the ciphertext of any packet ever sent, to either side, any number of times, under
any header, prekey and conversation id, or injects a ciphertext that need not come from the other side: one under a key
that the network can derive, or one made for another pair or direction. `network` is the set of private keys that the
network holds; for the empty set the conditions that `Initial` puts on it hold by themselves. Alice is the one who
starts a session; Bob answers once he has one. A
`History` (epochs of alternating ratchet keys with their roots and message counts) is the ghost explanation of a
reachable world: each stored session is an endpoint of the history. The theorems of `Guarantees` do not mention it.

Each exported call is one atomic step. A session is loaded as a copy and written back only on success, as IndexedDB
does it. What the server answers, the generated keys and the user's approvals are arguments.

**Where the code and a reader's expectation differ.**

1. The approval of a bundle is looked up under the principal in the bundle and under its `id` field, which goes before
   its `device-id`; the session is stored under the requested principal and the `device-id`. A server that answers a
   request for `bob` with a bundle naming an approved `mallory` and carrying Bob's device id gets Mallory's key stored as
   Bob's session (`Transport.MisnamedBundleIsStored`), and one whose bundle names `bob` with `id` tablet and `device-id`
   laptop gets the tablet's key stored as the laptop's session (`Transport.OtherDeviceIsStored`). Sessions stay on
   approved keys exactly when every session-starting packet goes to the key approved for its target
   (`Transport.RunsKeepApproved`, `ExportedCalls.ExportedRunsKeepApproved`).
2. A member name with a newline can imitate two members in the membership digest, and one empty name no member at all
   (`Envelopes.NewlineImitatesMembers`, `Envelopes.EmptyNameImitatesNobody`). `Envelopes.MembershipIsMultiset` gives the
   exact condition under which the digest tells the multiset.
3. The directory may list a device id twice; the key listed last is then the approved one, and the session is dropped
   if any listed key was new (`Transport.VerifyDropsChanged`).
4. Only the first packet of a session carries a prekey. Later ones that overtake it are refused until it has arrived
   (`Guarantees.LaterPacketsWait`).
5. The kind of an envelope is not authenticated. A group envelope marked as direct shows its sender-key distribution as
   the message (`Envelopes.FlippedShowsDistribution`); a direct one marked as group is refused.
6. An own copy is opened whatever conversation it was sealed for, and its key follows from the ephemeral key it names
   (`Envelopes.CopyOfAnotherConversation`, `Envelopes.OwnCopyIff`, `Secrecy.CopyKeyIsDerivable`).
7. The final `dns-proof-expired` branch of the DNS helper is dead (`DnsProof.Prove`).

## Model

| member | source | states |
|---|---|---|
| Keys.AdvanceInjective | resources/cloud/itonami/app/signal.js:95-96 | positions of two chains hold the same chain key only if chain and position are the same |
| Ratchet.RangeContents | resources/cloud/itonami/app/signal.js:233-236 | the skipping loop stores exactly the passed positions, each with its own message key |
| Ratchet.DecryptIsBound | resources/cloud/itonami/app/signal.js:248-258 | whatever arrives, what is accepted was sealed for this binding and this header |
| Ratchet.SkipKeysIsBounded | resources/cloud/itonami/app/signal.js:231-237 | one skipping loop adds at most `MAX_SKIP` keys and loses none |
| Ratchet.DecryptGrowth | resources/cloud/itonami/app/signal.js:231-258 | an accepted packet adds at most twice `MAX_SKIP` skipped keys |
| Ratchet.RatchetState.constructor | resources/cloud/itonami/app/signal.js:284 | the working copy starts as the loaded record |
| Ratchet.RatchetState.Encrypt | resources/cloud/itonami/app/signal.js:224-230 | the updated fields are the record the ratchet function gives; without a sending chain nothing changes |
| Ratchet.RatchetState.SkipKeys | resources/cloud/itonami/app/signal.js:231-237 | the loop reaches the record that stores a range of keys at once, terminates, and refuses a larger gap unchanged |
| Ratchet.RatchetState.DhRatchet | resources/cloud/itonami/app/signal.js:238-247 | the two root steps in place give the ratcheted record |
| Ratchet.RatchetState.Decrypt | resources/cloud/itonami/app/signal.js:248-258 | stored key, new chain or current chain: plaintext and record as the function on records gives them |
| RatchetHistory.EncryptStep | resources/cloud/itonami/app/signal.js:224-230 | sending keeps an endpoint an endpoint; the header names its epoch, the announced length and the position |
| RatchetHistory.SkipStep | resources/cloud/itonami/app/signal.js:231-237 | catching up keeps accepted and stored positions a disjoint union of what was passed |
| RatchetHistory.AcceptStep | resources/cloud/itonami/app/signal.js:256-257 | using the head of the receiving chain accepts exactly that position |
| RatchetHistory.RatchetStep | resources/cloud/itonami/app/signal.js:238-247 | answering the peer's new key moves the endpoint two epochs on, to the peer's root and chain |
| RatchetHistory.KeysAreDistinct | resources/cloud/itonami/app/signal.js:91-96 | the key of a position is derived from no other root, output or position |
| RatchetHistory.RefusalIff | resources/cloud/itonami/app/signal.js:231-258 | for any session and packet, the limit of 100 is what refuses if and only if no key is stored and a gap is larger; the other refusals |
| RatchetHistory.DecryptSkipped | resources/cloud/itonami/app/signal.js:249-253 | a stored key opens its packet and is used up |
| RatchetHistory.DecryptCurrent | resources/cloud/itonami/app/signal.js:255-257 | in the current chain a packet opens if and only if it lies ahead by at most `MAX_SKIP` |
| RatchetHistory.DecryptNext | resources/cloud/itonami/app/signal.js:254-257 | a packet of a new chain opens if and only if both gaps are at most `MAX_SKIP` |
| RatchetHistory.DecryptRetired | resources/cloud/itonami/app/signal.js:248-258 | a packet of a retired chain without a stored key never opens |
| RatchetHistory.DecryptGenuine | resources/cloud/itonami/app/signal.js:248-258 | a genuine packet opens if and only if it was not accepted before and its key is stored or within reach, and the endpoint is kept |
| Secrecy.OpenedIsSecret | resources/cloud/itonami/app/signal.js:248-258 | a session whose root and stored keys cannot be derived opens only ciphertexts under keys that cannot be derived, under any header |
| Secrecy.EndpointIsSecret | resources/cloud/itonami/app/signal.js:91-96 | both ends of a history with a secret beginning have such sessions at every point |
| Secrecy.CopyKeyIsDerivable | resources/cloud/itonami/app/signal.js:302-304 | the key of an own copy can be derived if and only if the identity key or the ephemeral key is known |
| Transport.AgreementIffDescribed | resources/cloud/itonami/app/signal.js:189-222 | sender and receiver derive the same secret if and only if the bundle shows keys the receiver holds, with or without a one-time prekey |
| Prekeys.StartIff | resources/cloud/itonami/app/signal.js:179-205 | without a session a packet is made if and only if the bundle's signing key signed its prekey and the looked-up approval is its fingerprint; the signature is refused first |
| Prekeys.UnansweredAreSigned | resources/cloud/itonami/app/signal.js:179-278 | in every run from a client without sessions, a session not answered yet stands on a prekey signed by the signing key of its peer |
| Prekeys.SecretIsDerivableIff | resources/cloud/itonami/app/signal.js:189-198 | the agreed secret can be derived if and only if each of its three or four agreements can: own identity and signed prekey, ephemeral and identity, ephemeral and signed prekey, ephemeral and one-time prekey |
| Prekeys.FindsFirst | resources/cloud/itonami/app/signal.js:214-217 | looking up an id finds the key of the first one-time prekey with it, if there is one |
| Prekeys.RemovesExactly | resources/cloud/itonami/app/signal.js:218 | removing an id keeps exactly the other one-time prekeys, as often and in their order |
| Prekeys.AnswerUsesPrekey | resources/cloud/itonami/app/signal.js:206-222 | an answered prekey with an id uses up exactly the one-time prekeys of that id and nothing else of the device |
| Prekeys.AnswersIff | resources/cloud/itonami/app/signal.js:206-222 | a prekey is answered if and only if the device still has the signed prekey and the one-time prekey it names; the errors otherwise |
| Prekeys.PrekeyServesOnce | resources/cloud/itonami/app/signal.js:206-222 | once a packet used a one-time prekey, whether or not it opened, every later packet of any run that would start a session with it is refused and costs nothing |
| Prekeys.PassedOverIff | resources/cloud/itonami/app/signal.js:279-290 | a packet is passed over if and only if it is for somebody else; passed over, without prekey or from an unapproved device it costs nothing |
| Transport.FailureIsAtomic | resources/cloud/itonami/app/signal.js:279-299 | a refused packet changes nothing except, without a session, the named one-time prekey |
| Transport.AcceptedSession | resources/cloud/itonami/app/signal.js:284-298 | an accepted packet replaces exactly the sender's session by one ratchet step |
| Transport.AcceptanceIsLocal | resources/cloud/itonami/app/signal.js:279-299 | an accepted packet was sealed for this conversation, sender and device, leaves the other sessions alone and grows its own by at most two gaps |
| Transport.VerifyKeepsApproved | resources/cloud/itonami/app/signal.js:163-177 | approving keeps every stored session on an approved key, even when a later device is refused |
| Transport.VerifyDropsChanged | resources/cloud/itonami/app/signal.js:163-177 | a completed verification approves the listed keys, drops exactly the sessions with a new key, and leaves other peers alone |
| Approvals.DevicesPassIff | resources/cloud/itonami/app/signal.js:166-176 | the loop over the directory succeeds if and only if the user accepts every entry that is new when its turn comes |
| Approvals.VerifyIff | resources/cloud/itonami/app/signal.js:163-177 | the call counts the devices if and only if there are some and every new entry is accepted; otherwise it names what was missing |
| Approvals.VerifyEffect | resources/cloud/itonami/app/signal.js:163-177 | finished or refused, the call has exactly the effect of the entries before the first refused one; the refused device and those behind it keep approvals and sessions |
| Approvals.ApprovalsAreAnswered | resources/cloud/itonami/app/signal.js:168-174 | a key approved after the call and not before was put to the user with this principal, device id, fingerprint and changed flag, and accepted |
| Approvals.VerifyTouches | resources/cloud/itonami/app/signal.js:163-177 | nothing but approvals and sessions changes |
| Transport.SendKeepsApprovedIff | resources/cloud/itonami/app/signal.js:179-205 | a successful send keeps sessions on approved keys if and only if it goes to a stored session or to the key approved for the target |
| Transport.MisnamedBundleIsStored | resources/cloud/itonami/app/signal.js:184-188 | a bundle naming another approved principal is stored as the target's session |
| Transport.OtherDeviceIsStored | resources/cloud/itonami/app/signal.js:159-162 | a bundle whose `id` names another approved device of the same principal is stored as the session of its `device-id` |
| Transport.ReceiveKeepsApproved | resources/cloud/itonami/app/signal.js:279-299 | receiving keeps sessions on approved keys, whatever arrives |
| Transport.PerformKeepsApproved | resources/cloud/itonami/app/signal.js:159-299 | a call keeps sessions on approved keys if and only if it does not start one with another key |
| Transport.RunsKeepApproved | resources/cloud/itonami/app/signal.js:159-299 | throughout a run all sessions belong to the approved fingerprints if and only if every call of the run is guarded |
| Transport.HonestNamesKeepApproved | resources/cloud/itonami/app/signal.js:317-335 | with bundles whose approval is looked up under the peer they are stored for they always do |
| ExportedCalls.SealIsSends | resources/cloud/itonami/app/signal.js:381-398 | sealing an envelope is a run of packet sends, cut off where it fails, and besides touches only group chains |
| ExportedCalls.SealKeepsApprovedIff | resources/cloud/itonami/app/signal.js:381-398 | sealing keeps sessions on approved keys if and only if each of its packets is guarded where it is sent |
| ExportedCalls.ReadKeepsApproved | resources/cloud/itonami/app/signal.js:399-416 | opening an envelope keeps sessions on approved keys |
| ExportedCalls.ExportedRunsKeepApproved | resources/cloud/itonami/app/signal.js:163-416 | throughout a run of exported calls sessions are on approved keys if and only if every packet of the run is guarded |
| ExportedCalls.SafeAnswersKeepApproved | resources/cloud/itonami/app/signal.js:317-335 | so they are when every handed-out bundle names the peer it is stored for, or goes to a session or an approved key anyway |
| Runs.SendWithSession | resources/cloud/itonami/app/signal.js:260-278 | a side with a session always sends, and the invariant of both ends is kept |
| Runs.FirstSend | resources/cloud/itonami/app/signal.js:264-277 | the session-creating packet establishes the invariant, or nothing changes |
| Runs.DeliverKeepsLive | resources/cloud/itonami/app/signal.js:279-299 | any delivery of a sent ciphertext, genuine or not, keeps the invariant of both ends |
| Runs.InjectKeepsLive | resources/cloud/itonami/app/signal.js:279-299 | any forged or foreign ciphertext is refused and keeps the invariant of both ends |
| Runs.NewSessionIsSecret | resources/cloud/itonami/app/signal.js:206-222 | a session that answers a prekey under an approved name agrees on a secret that the network cannot derive |
| Runs.ResponderMeets | resources/cloud/itonami/app/signal.js:285-297 | a first packet that opens proves that the responder derived the initiator's secret |
| Runs.RunKeepsStep | resources/cloud/itonami/app/signal.js:224-299 | every reachable world is explained by one history on which both ends agree |
| Guarantees.RunsAreSound | resources/cloud/itonami/app/signal.js:248-299 | over every run, forgeries included, what is accepted was sent by the peer under that conversation, header and binding, and no position is accepted twice |
| Guarantees.ForgeriesAreRefused | resources/cloud/itonami/app/signal.js:279-299 | in every reachable world a ciphertext that need not come from the other side is refused |
| Guarantees.NetworkImpersonates | resources/cloud/itonami/app/signal.js:287-295 | if the approved key is the network's, it is accepted in the other side's name |
| Guarantees.PacketsOpenExactlyOnce | resources/cloud/itonami/app/signal.js:224-299 | in every reachable world a packet of the peer gives its plaintext if and only if it is new and stored or within the skip limits |
| Guarantees.FirstPacketOpensIff | resources/cloud/itonami/app/signal.js:279-299 | the prekey packet opens if and only if the receiver approved the device and still holds the bundle's keys |
| Guarantees.LaterPacketsWait | resources/cloud/itonami/app/signal.js:285-286 | while the receiver has no session, every packet after the first is refused for want of a prekey |
| Guarantees.EndsAgree | resources/cloud/itonami/app/signal.js:238-247 | at any time exactly one end has answered the other's latest key; one root step apart, roots and opposite chains are equal |
| Guarantees.SkippedKeysAreExact | resources/cloud/itonami/app/signal.js:231-258 | sent positions the receiver has moved past are the disjoint union of accepted ones and stored ones, and each stored key is the one its packet was sealed under |
| Guarantees.StoredPositionsWereSent | resources/cloud/itonami/app/signal.js:231-237 | no key is stored for a position the peer never used |
| Backlog.OutstandingPacketOpens | resources/cloud/itonami/app/signal.js:17-299 | while at most `MAX_SKIP + 1` packets to a side are unaccepted, any of them opens |
| Backlog.BacklogOpensInAnyOrder | resources/cloud/itonami/app/signal.js:231-258 | from every reachable world such a backlog can be delivered in any order; every packet is accepted with its plaintext and none stays behind |
| Backlog.HandshakeCompletes | resources/cloud/itonami/app/signal.js:260-299 | with both devices approved and a genuine current bundle, the first packet opens and both sides can send |
| Backlog.OneMoreIsRefused | resources/cloud/itonami/app/signal.js:232 | with `MAX_SKIP + 2` outstanding packets the last one is refused, from every start at which the handshake completes |
| Backlog.AcquaintedCanStart | resources/cloud/itonami/app/signal.js:189-222 | there is such a start |
| Ordering.SortDependsOnMultiset | resources/cloud/itonami/app/signal.js:337 | two lists sort alike if and only if they are the same multiset |
| Ordering.JoinIsInjective | resources/cloud/itonami/app/signal.js:337 | joined lines determine the list, for names without newlines, except that no name and one empty name look alike |
| Envelopes.MembershipIsMultiset | resources/cloud/itonami/app/signal.js:337-341 | against newline-free names, lists are the same multiset if and only if the digests agree, the other names are newline-free too, and both or neither are empty |
| Envelopes.NewlineImitatesMembers | resources/cloud/itonami/app/signal.js:337 | the digests of one name with a newline and of two names coincide |
| Envelopes.EmptyNameImitatesNobody | resources/cloud/itonami/app/signal.js:337 | the digests of one empty name and of no name coincide |
| Envelopes.SendCoversMembers | resources/cloud/itonami/app/signal.js:351-357 | a successful send has exactly one packet per directory device of each recipient, in order, all sealing the payload, and touches no group state or approval |
| Coverage.OthersAreMembers | resources/cloud/itonami/app/signal.js:382 | the recipients are the multiset of the members without the sender, in the members' order |
| Coverage.EnvelopeCoversMembers | resources/cloud/itonami/app/signal.js:381-398 | told from the members alone, where the server answers alike about one principal: each device has as many packets as its principal is a member, for each time the directory lists it, and the sender has none |
| Coverage.EnvelopeAddressesIff | resources/cloud/itonami/app/signal.js:381-398 | then a device is addressed if and only if it is a directory device of a member other than the sender |
| Coverage.EnvelopeAddressesListed | resources/cloud/itonami/app/signal.js:381-398 | whatever the server answers, a device is addressed if and only if an answer about a recipient lists it |
| Coverage.ChoosesLast | resources/cloud/itonami/app/signal.js:326-334 | the bundle for a device is the last one handed out for its id, else its directory entry without a one-time prekey |
| Coverage.ChoosesAll | resources/cloud/itonami/app/signal.js:326-334 | one bundle for each directory entry, in order |
| Coverage.BundlesIff | resources/cloud/itonami/app/signal.js:317-335 | bundles are given if and only if all listed keys are approved, one for each entry in order; what the server hands out is used as soon as one device has no session |
| Coverage.RefusedRecipient | resources/cloud/itonami/app/signal.js:317-325 | a recipient with an unapproved listed key, or with nothing listed, is refused before any packet |
| Coverage.EnvelopeIsApproved | resources/cloud/itonami/app/signal.js:317-398 | a finished envelope has only recipients with devices, all of whose keys the user approved |
| Coverage.GroupOpensIff | resources/cloud/itonami/app/signal.js:367-376 | a distribution opens a group ciphertext if and only if it hands out, for this conversation, epoch, membership, device and counter, the chain the ciphertext was sealed under |
| FreshKeys.EnvelopeKeysAreFresh | resources/cloud/itonami/app/signal.js:264-272 | no generated key is used twice within an envelope, and all lie within what it may use up |
| Envelopes.GroupShape | resources/cloud/itonami/app/signal.js:336-361 | all packets of a group send carry one distribution, which opens the group ciphertext |
| Envelopes.EnvelopeIsShaped | resources/cloud/itonami/app/signal.js:381-398 | what a finished envelope contains, for the direct and the group kind |
| Envelopes.EnvelopeRoundTrip | resources/cloud/itonami/app/signal.js:362-416 | every addressed device reads the plaintext if and only if its pairwise packet opens; only a group envelope needs a membership record |
| Envelopes.SenderReadsOwnCopy | resources/cloud/itonami/app/signal.js:301-315 | the sending device reads its own copy at any later time, without any change |
| Envelopes.SameMembersKnow | resources/cloud/itonami/app/signal.js:405-408 | a membership record with the same multiset of members is enough, whatever the names |
| Envelopes.ReadIff | resources/cloud/itonami/app/signal.js:399-416 | what any envelope, genuine or not, shows to a reader |
| Envelopes.UnboundIff | resources/cloud/itonami/app/signal.js:399-416 | which of the four refusals an envelope meets before a packet is opened, in the order of the tests; then nothing changes |
| Envelopes.FlippedShowsDistribution | resources/cloud/itonami/app/signal.js:405-415 | a group envelope marked as direct shows the distribution if and only if its packet opens |
| Envelopes.FlippedDirectIsRefused | resources/cloud/itonami/app/signal.js:405-408 | a direct envelope marked as group is refused |
| Envelopes.OwnCopyIff | resources/cloud/itonami/app/signal.js:309-315 | an own copy opens if and only if it was sealed under the key of its ephemeral key, for its own header |
| Envelopes.CopyOfAnotherConversation | resources/cloud/itonami/app/signal.js:409-412 | a copy sealed in one conversation is shown in another |
| Envelopes.CopyBelongsIff | resources/cloud/itonami/app/signal.js:309-315 | what an own copy shows was sealed for the conversation if and only if the two ids agree |
| EnvelopesInRuns.EnvelopeContinues | resources/cloud/itonami/app/signal.js:351-357 | the first packet that an envelope carries for a peer is the next one of the session with that peer |
| EnvelopesInRuns.EnvelopeOpensIff | resources/cloud/itonami/app/signal.js:399-416 | in every reachable world an envelope whose packet is on the wire is read if and only if that packet is acceptable |
| EnvelopesInRuns.EnvelopeIsReadIff | resources/cloud/itonami/app/signal.js:381-416 | an envelope sealed with a session is, at every later point of the run, read by the other side if and only if that has a session in which the packet is acceptable |
| EnvelopesInRuns.EnvelopeStarts | resources/cloud/itonami/app/signal.js:317-357 | the first packet that an envelope carries for a peer without a session starts one, from the bundle handed out for it or its directory entry |
| EnvelopesInRuns.FirstEnvelopeIsReadIff | resources/cloud/itonami/app/signal.js:260-299 | the envelope that starts the session is read, while there is none, if and only if the reader approved the sender and holds the bundle's keys, and afterwards if and only if its packet is acceptable |
| EnvelopesInRuns.EnvelopesAreSound | resources/cloud/itonami/app/signal.js:399-416 | whatever envelope the network puts together, what is read in the other side's name is what a payload shows that it sent in this conversation |
| GroupChain.PublicationEffect | resources/cloud/itonami/app/signal.js:336-361 | a publication uses the current chain once, or leaves every chain alone |
| GroupChain.StoredChainIsAdvanced | resources/cloud/itonami/app/signal.js:338-359 | in every run the stored chain is the epoch's first one advanced once per returned envelope |
| GroupChain.CountersCount | resources/cloud/itonami/app/signal.js:342-360 | every envelope of a run carries the number of earlier envelopes of its epoch as its counter |
| GroupChain.CountersNeverRepeat | resources/cloud/itonami/app/signal.js:342-360 | within an epoch counters grow; no two envelopes of a run share epoch and counter or message key |
| GroupChain.EpochFollowsDigest | resources/cloud/itonami/app/signal.js:337-341 | an epoch is continued if and only if there is one and the membership digest is unchanged; otherwise the epoch is new and starts at 0 |
| GroupChain.NewEpochIff | resources/cloud/itonami/app/signal.js:337-341 | for newline-free members the member multiset is unchanged if and only if the epoch is continued, the earlier names were newline-free, and both or neither lists are empty |
| Client.SignalClient.VerifyPrincipal | resources/cloud/itonami/app/signal.js:163-177 | the loop over the directory leaves the stored records the verification function gives |
| Client.SignalClient.X3dhReceiver | resources/cloud/itonami/app/signal.js:206-222 | derives the receiver's secret and removes the used one-time prekey |
| Client.SignalClient.EncryptPacket | resources/cloud/itonami/app/signal.js:260-278 | stored records and packet as the function gives them; nothing changes on failure |
| Client.SignalClient.DecryptPacket | resources/cloud/itonami/app/signal.js:279-299 | stored records and plaintext as the function gives them; a failed call writes no session back |
| Client.SignalClient.SendNext | resources/cloud/itonami/app/signal.js:355 | one packet more: the outcome of the whole send is reached from the new state |
| Client.SignalClient.SendAll | resources/cloud/itonami/app/signal.js:354-356 | the loop over the bundles, stopping at the first failure with the earlier sessions moved on |
| Client.SignalClient.SendToOne | resources/cloud/itonami/app/signal.js:352-356 | bundles and packets of one recipient; a recipient without devices fails |
| Client.SignalClient.SendNextMember | resources/cloud/itonami/app/signal.js:388-390 | one recipient more: the outcome of the whole send is reached from the new state |
| Client.SignalClient.SendToMembers | resources/cloud/itonami/app/signal.js:387-391 | the loop over the recipients, stopping at the first failure |
| Client.SignalClient.EncryptGroup | resources/cloud/itonami/app/signal.js:336-361 | the sender state is stored only after every packet was made |
| Client.SignalClient.EncryptConversation | resources/cloud/itonami/app/signal.js:381-398 | stored records and envelope as the function gives them |
| Client.SignalClient.DecryptEnvelope | resources/cloud/itonami/app/signal.js:399-416 | stored records and plaintext as the function gives them |
| Numerals.NumeralInjective | resources/cloud/itonami/app/signal.js:42 | different finite numbers are written differently, with or without point and exponent |
| Numerals.NumeralReads | resources/cloud/itonami/app/signal.js:42 | a reader of JSON numbers (section 6 of RFC 8259) takes the number back out and stops behind it |
| Numerals.PlainIff | resources/cloud/itonami/app/signal.js:41 | the decimal text of a number is the one text of digits without a leading zero that denotes it |
| JsonText.ValueReads | resources/cloud/itonami/app/signal.js:42 | a reader written from the grammar of RFC 8259 takes every value back out of its text and stops behind it, which fixes literals, brackets, separators, escapes and numbers |
| JsonText.EscapesAreShortest | resources/cloud/itonami/app/signal.js:42 | no shorter text is read as the same character, so only what must be escaped is; hexadecimal digits are in lower case |
| JsonText.TextDetermines | resources/cloud/itonami/app/signal.js:42 | the serialised text determines the value and where it ends |
| Canonical.CanonicalIffSimilar | resources/cloud/itonami/app/signal.js:39-41 | canonical forms are equal if and only if the values differ only in key order, at any depth |
| Canonical.StableIffSimilar | resources/cloud/itonami/app/signal.js:39-42 | texts are equal if and only if the values differ only in key order, at any depth |
| Canonical.CanonicalIsIdempotent | resources/cloud/itonami/app/signal.js:39-41 | canonicalising twice is canonicalising once |
| Canonical.OrderIff | resources/cloud/itonami/app/signal.js:41 | keys come in the one order that has array indices first, by number, and the other names behind them in dictionary order |
| Canonical.IndexIff | resources/cloud/itonami/app/signal.js:41 | the names enumerated first are the decimal texts of 0 to 2^32 - 2 |
| Ordering.AtMostIffDecided | resources/cloud/itonami/app/signal.js:41 | dictionary order is decided at the first difference, a beginning coming before what it begins |
| Canonical.CanonicalIff | resources/cloud/itonami/app/signal.js:39-41 | the canonical form is the one value that differs in nothing but key order and has its keys in order at every depth |
| Canonical.StableIsReadBack | resources/cloud/itonami/app/signal.js:39-42 | the text is read back as the value with its keys in order, and nothing is left over |
| AssociatedData.TextDeterminesAad | resources/cloud/itonami/app/signal.js:228 | sender and receiver authenticate the same text if and only if they mean the same packet, group or sent-copy record |
| AssociatedData.ParsedRecordGivesSameText | resources/cloud/itonami/app/signal.js:252-257 | a parsed record with its keys in another order gives the text the sender authenticated |
| AssociatedData.TextReadsAsRecord | resources/cloud/itonami/app/signal.js:224-349 | what is authenticated reads as the record of the ciphertext: for each name of the format its value, nothing else, keys in order at both levels |
| Base64.RoundTrip | resources/cloud/itonami/app/signal.js:30-37 | decoding inverts encoding on every byte sequence |
| Base64.B64IsBase64Url | resources/cloud/itonami/app/signal.js:30-33 | the characters stand, by the alphabet of section 5 of RFC 4648, for the bits of the bytes in groups of six, fewer than six zeros filling the last |
| Base64.B64IsInjective | resources/cloud/itonami/app/signal.js:30-33 | different byte sequences have different texts |
| Base64.SkippedNamesAreDistinct | resources/cloud/itonami/app/signal.js:235 | the ids under which skipped keys are stored differ for different positions |
| StreamScan.ShortMatch | scripts/package-controller-workspaces.py:58 | every match can be cut down to marker, line end and sixteen characters |
| StreamScan.MatchesIffRegex | scripts/package-controller-workspaces.py:58 | the recogniser of one marker accepts the language of the regular expression, told by the rules of its operators |
| StreamScan.CarrySuffices | scripts/package-controller-workspaces.py:57-61 | behind a clean text, searching 256 carried bytes and the chunk decides what searching everything decides |
| StreamScan.InspectFor | scripts/package-controller-workspaces.py:52-62 | for any markers the carry covers, refusal if and only if the whole content matches, else the digest of the whole content |
| StreamScan.InspectFile | scripts/package-controller-workspaces.py:25-62 | the same for the six private-key markers, however the content is split |
| AccessibilityWalk.Walker.Visit | bin/cloud-itonami-desktop-macos.swift:232-260 | appends the element's pre-order, cut off by the budget |
| AccessibilityWalk.Walk | bin/cloud-itonami-desktop-macos.swift:227-279 | the nodes are the first ones of the complete pruned pre-order, numbered in order |
| WalkOrder.WalkIsInOrder | bin/cloud-itonami-desktop-macos.swift:227-260 | the complete walk has exactly the elements with at most 24 above them and no unwanted menu bar on the way, each once, in reading order of their places in the tree, with their depth |
| AccessibilityWalk.FindNumbered | bin/cloud-itonami-desktop-macos.swift:322-327 | looking up the reference of a position finds the element at that position |
| AccessibilityWalk.RefsAreStable | bin/cloud-itonami-desktop-macos.swift:224-327 | a reference below two budgets names the same element at both |
| AccessibilityWalk.SmallerBudgetIsPrefix | bin/cloud-itonami-desktop-macos.swift:232-233 | a larger budget only adds nodes at the end |
| AccessibilityWalk.MenuReader.Visit | bin/cloud-itonami-desktop-macos.swift:389-395 | appends the leaf items below an element, cut off by the budget |
| AccessibilityWalk.MenuReader.VisitChild | bin/cloud-itonami-desktop-macos.swift:394-415 | appends the leaf items of one child: a menu, a leaf item, or the submenus of an item |
| AccessibilityWalk.MenuEntries | bin/cloud-itonami-desktop-macos.swift:384-420 | the listing is a prefix of the complete list of leaf items |
| WalkOrder.MenuIsInOrder | bin/cloud-itonami-desktop-macos.swift:384-420 | the complete listing has exactly the titled items without a menu reached through at most eight menus, in reading order, each under the titles of the items on the way |
| WalkOrder.PathEndsInTitle | bin/cloud-itonami-desktop-macos.swift:398-401 | a path ends in the entry's own title |
| DnsProof.QueryNameIffSplits | src/cloud/itonami/app/awai_dnssec_proof.c:38-70 | a name has one division into labels, the one a left-to-right scan finds |
| DnsProof.PrefixesAreWellFormed | src/cloud/itonami/app/awai_dnssec_proof.c:48-67 | a malformed beginning is never repaired, so an early refusal is right |
| DnsProof.ValidQname | src/cloud/itonami/app/awai_dnssec_proof.c:38-70 | one pass accepts exactly at most 254 bytes of two or more dot-ended labels |
| DnsProof.ChunksIffWire | src/cloud/itonami/app/awai_dnssec_proof.c:77-92 | bytes divide into complete character-strings in at most one way |
| DnsProof.TxtValueIffCarried | src/cloud/itonami/app/awai_dnssec_proof.c:72-95 | a text is decoded if and only if the bytes are complete, printable character-strings whose total length fits |
| DnsProof.CopyChunk | src/cloud/itonami/app/awai_dnssec_proof.c:83-89 | appends one chunk behind the text, or stops at a byte that is not printable |
| DnsProof.FlattenTxtRdata | src/cloud/itonami/app/awai_dnssec_proof.c:72-95 | the buffer holds the decoded text and a zero, within bounds, and success is exactly decodability |
| DnsProof.EmitJsonString | src/cloud/itonami/app/awai_dnssec_proof.c:23-36 | the output is the quoted text with each byte escaped on its own |
| DnsProof.JsonRoundTrip | src/cloud/itonami/app/awai_dnssec_proof.c:23-36 | a JSON reader takes the value back out of any document and stops behind it |
| DnsProof.ExactAnswer | src/cloud/itonami/app/awai_dnssec_proof.c:97-186 | success exactly for one text, at least one signature and nothing else; the expiry is the earliest one |
| DnsProof.Prove | src/cloud/itonami/app/awai_dnssec_proof.c:188-264 | a proof exactly for a valid name and a trusted, exact, unexpired answer; its lifetime is positive, at most 300 seconds and outlived by every signature; a refusal names the first thing that is wrong, and the last refusal never happens |
| CostModel.FixIsExact | scripts/itonami-sales-cost-model.py:10-21 | below ten to the 28th millionths decimal arithmetic rounds nothing, whatever the exponent |
| CostModel.HalfEvenIsNearest | scripts/itonami-sales-cost-model.py:10-21 | rounding goes to the nearest multiple, and from halfway to the even one |
| CostModel.AddIsExact | scripts/itonami-sales-cost-model.py:48-56 | sums of exact values are exact while they fit 28 digits |
| CostModel.TotalsAreExact | scripts/itonami-sales-cost-model.py:49-51 | the totals of every accepted scenario are exact |
| CostModel.MonthlyFlows | scripts/itonami-sales-cost-model.py:52-56 | the loop gives the exact flow and position of every month |
| CostModel.Payback | scripts/itonami-sales-cost-model.py:57 | the search returns the least month that is not negative, if any |
| CostModel.Evaluate | scripts/itonami-sales-cost-model.py:46-69 | one exact row |
| CostModel.Calculate | scripts/itonami-sales-cost-model.py:28-69 | rows exactly for accepted inputs, one exact row per scenario in order |
| CostModel.FlowsAccumulate | scripts/itonami-sales-cost-model.py:52-56 | each cumulative flow is the sum of the flows up to it |
| CostModel.NetIsLastFlow | scripts/itonami-sales-cost-model.py:49-56 | the last cumulative flow, the sum of all flows, the net saving and the difference of the totals are the same |
| CostModel.PaybackIsCeiling | scripts/itonami-sales-cost-model.py:57 | payback is the outlay divided by the monthly saving, rounded up, if within the horizon; without a saving only a zero outlay is paid back |

## Left out

- Real cryptography (X25519, Ed25519, HKDF, HMAC, AES-GCM, SHA-256): keys, outputs and ciphertexts are terms; fingerprints and membership digests are collision-free, standing for what they are taken of.
- IndexedDB, HTTP, server endpoints, feature detection, error texts, `ensureDevice`, `createDevice`, `initialize`: the store is a map of records, the server's answers are arguments.
- Two calls on one session that overlap in time: each exported call is one step. Both sides starting a session at once: in `Runs` only Alice starts one.
- EnvelopesInRuns.EnvelopesAreSound: of a group ciphertext it says that it opens under the chain that was handed out; every member holds that chain, and the code signs nothing, so which member sealed it is not said.
- A directory entry with an empty `id`, whose approval would be looked up under another field.
- Approvals during a two-party run: `Runs` covers the lifetime of a session; approvals and the sessions they delete are in `Transport.RunsKeepApproved`.
- Session and approval records are told apart by principal and device id; that two pairs with a colon in a name can share one storage key is not modelled.
- Digests of two lists that both contain a name with a newline: no condition on the names is given for them.
- The received group chain records (`groupRecvKey`): written and never read.
- Envelopes.EnvelopeRoundTrip: envelope and distribution travel as records, so their JSON text, and a user's text that imitates a distribution, are not modelled.
- Header fields are typed: a ratchet key that arrives in a non-canonical base64url spelling, or a counter that is not an integer, is not modelled.
- Canonical.StableIffSimilar: a number is the numeral JavaScript writes for it, so -0 is 0; the infinities, which JSON does not have, are not modelled; strings are sequences of code points, and names sort by code point rather than by UTF-16 unit.
- Base64.RoundTrip: decoding of texts with white space, which `atob` skips, is not modelled.
- Ratchet.RatchetState.Decrypt: the fields after a failed call are left open, since that copy is dropped.
- Packaging: file reading, tar streaming and manifests; a chunk is any sequence of bytes.
- Accessibility: attributes other than role and title, enabled state, shortcuts, overlays and screenshots; the tree is finite and each element is told apart by a handle.
- DNS: resolution and packet parsing; name comparison and the resolver's flags arrive as truth values, records as kind, class, owner and expiration.
- DnsProof.JsonRoundTrip: the reader yields bytes; escapes of characters beyond ASCII, which are never emitted, are not read.
- Cost model: `savings_rate_percent`, textual formatting of amounts, input hashing and JSON typing; amounts are compared as values, so the sign of a negative zero and trailing zeros do not appear.
