/** Conversation envelopes: one pairwise packet per addressed device, a group ciphertext under a sender chain, and
the sender's own copy. */
module Envelopes {
  import opened Wrappers
  import opened Keys
  import opened Transport
  import opened Ordering

  datatype Conversation = Conversation(id: string, direct: bool, members: seq<string>)

  /** What the server answers about one principal: its devices, and the bundles it hands out when asked. */
  datatype Directory = Directory(devices: seq<DirectoryDevice>, bundles: seq<Bundle>)

  datatype GroupSealed = GroupSealed(header: GroupHeader, cipher: Cipher)

  datatype SelfSealed = SelfSealed(header: SelfHeader, cipher: Cipher)

  datatype Envelope = Envelope(protocol: string, direct: bool, conversation: string, sender: string,
                               senderDevice: string, packets: seq<Packet>, self: Option<SelfSealed>,
                               group: Option<GroupSealed>)

  // ---------------------------------------------------------------------------
  // Addressing

  predicate AllVerified(c: ClientState, principal: string, devices: seq<DirectoryDevice>) {
    forall i :: 0 <= i < |devices| ==> Verified(c, Peer(principal, devices[i].id), devices[i].KeyFingerprint())
  }

  predicate AllInSession(c: ClientState, principal: string, devices: seq<DirectoryDevice>) {
    forall i :: 0 <= i < |devices| ==> Peer(principal, devices[i].id) in c.sessions
  }

  /** The handed-out bundle for a device, or the directory entry without a one-time prekey. */
  function Choose(principal: string, item: DirectoryDevice, handedOut: seq<Bundle>): (bundle: Bundle)
    ensures bundle.deviceId == item.id
    decreases |handedOut|
  {
    if handedOut == [] then
      Bundle(principal, None, item.id, item.signing, item.identity, item.signedPrekeyId, item.signedPrekey,
             item.signature, None, None)
    else if handedOut[|handedOut| - 1].deviceId == item.id then handedOut[|handedOut| - 1]
    else Choose(principal, item, handedOut[..|handedOut| - 1])
  }

  function ChooseAll(principal: string, devices: seq<DirectoryDevice>, handedOut: seq<Bundle>): seq<Bundle> {
    if devices == [] then []
    else [Choose(principal, devices[0], handedOut)] + ChooseAll(principal, devices[1..], handedOut)
  }

  function BundlesFor(c: ClientState, principal: string, answer: Directory): Attempt<seq<Bundle>> {
    if !AllVerified(c, principal, answer.devices) then Err(DeviceUnverified)
    else
      var handedOut := if AllInSession(c, principal, answer.devices) then [] else answer.bundles;
      Ok(ChooseAll(principal, answer.devices, handedOut))
  }

  type Sending = (ClientState, Attempt<seq<Packet>>)

  function Prepend(packets: seq<Packet>, sending: Sending): Sending {
    match sending.1
    case Ok(more) => (sending.0, Ok(packets + more))
    case Err(error) => (sending.0, Err(error))
  }

  /** A first send and the rest of it, which a failure of the first one cuts off. */
  function Then(one: Sending, rest: Sending): Sending {
    if one.1.Err? then one else Prepend(one.1.value, rest)
  }

  /** The outcome of one packet, as a send. */
  function OnePacket(c: ClientState, outcome: Attempt<(ClientState, Packet)>): Sending {
    match outcome
    case Err(error) => (c, Err(error))
    case Ok((d, packet)) => (d, Ok([packet]))
  }

  /** One packet per bundle; a failure keeps the sessions that earlier packets already moved on. */
  function SendAll(c: ClientState, recipient: string, bundles: seq<Bundle>, plaintext: Payload, conversation: string,
                   supply: nat): Sending
    decreases |bundles|
  {
    if bundles == [] then (c, Ok([]))
    else
      var one := OnePacket(c, EncryptPacket(c, recipient, bundles[0], plaintext, conversation, supply, supply + 1));
      Then(one, SendAll(one.0, recipient, bundles[1..], plaintext, conversation, supply + 2))
  }

  function SendToOne(c: ClientState, recipient: string, answer: Directory, plaintext: Payload, conversation: string,
                     supply: nat): Sending
  {
    match BundlesFor(c, recipient, answer)
    case Err(error) => (c, Err(error))
    case Ok(bundles) =>
      if bundles == [] then (c, Err(NoDevices)) else SendAll(c, recipient, bundles, plaintext, conversation, supply)
  }

  /** `directories[i]` is what the server answers about `recipients[i]` when its turn comes. */
  function SendToMembers(c: ClientState, recipients: seq<string>, directories: seq<Directory>, plaintext: Payload,
                         conversation: string, supply: nat): Sending
    requires |directories| == |recipients|
    decreases |recipients|
  {
    if recipients == [] then (c, Ok([]))
    else
      var one := SendToOne(c, recipients[0], directories[0], plaintext, conversation, supply);
      Then(one, SendToMembers(one.0, recipients[1..], directories[1..], plaintext, conversation,
                              supply + 2 * |directories[0].devices|))
  }

  function Addresses(packets: seq<Packet>): seq<Peer> {
    if packets == [] then []
    else [Peer(packets[0].recipient, packets[0].recipientDevice)] + Addresses(packets[1..])
  }

  function DeviceAddresses(principal: string, devices: seq<DirectoryDevice>): seq<Peer> {
    if devices == [] then [] else [Peer(principal, devices[0].id)] + DeviceAddresses(principal, devices[1..])
  }

  function MemberAddresses(recipients: seq<string>, directories: seq<Directory>): seq<Peer>
    requires |directories| == |recipients|
  {
    if recipients == [] then []
    else DeviceAddresses(recipients[0], directories[0].devices) + MemberAddresses(recipients[1..], directories[1..])
  }

  predicate AllSeal(packets: seq<Packet>, plaintext: Payload) {
    forall i :: 0 <= i < |packets| ==> packets[i].ratchet.cipher.plaintext == plaintext
  }

  lemma {:induction false} AddressesAppend(left: seq<Packet>, right: seq<Packet>)
    ensures Addresses(left + right) == Addresses(left) + Addresses(right)
  {
    if left == [] {
      assert left + right == right;
    } else {
      assert (left + right)[1..] == left[1..] + right;
      AddressesAppend(left[1..], right);
    }
  }

  /** The result of a send: one packet for each address in order, all sealing the same payload, and nothing of the
      client changed but its sessions. */
  predicate Covered(c: ClientState, addresses: seq<Peer>, plaintext: Payload, sending: Sending) {
    && (sending.1.Ok? ==> Addresses(sending.1.value) == addresses && AllSeal(sending.1.value, plaintext))
    && sending.0.groups == c.groups && sending.0.principal == c.principal && sending.0.device == c.device
    && sending.0.verified == c.verified
  }

  lemma CoveredPrepend(c: ClientState, d: ClientState, first: seq<Peer>, rest: seq<Peer>, plaintext: Payload,
                       packets: seq<Packet>, sending: Sending)
    requires Covered(c, first, plaintext, (d, Ok(packets))) && Covered(d, rest, plaintext, sending)
    ensures Covered(c, first + rest, plaintext, Prepend(packets, sending))
  {
    if sending.1.Ok? {
      AddressesAppend(packets, sending.1.value);
    }
  }

  /** One recipient and the rest, where a failure of the one ends the send. */
  lemma CoveredStep(c: ClientState, one: Sending, first: seq<Peer>, rest: seq<Peer>, plaintext: Payload,
                    sending: Sending)
    requires Covered(c, first, plaintext, one) && (one.1.Ok? ==> Covered(one.0, rest, plaintext, sending))
    ensures Covered(c, first + rest, plaintext, Then(one, sending))
  {
    if one.1.Ok? {
      CoveredPrepend(c, one.0, first, rest, plaintext, one.1.value, sending);
    }
  }

  lemma OnePacketCovers(c: ClientState, target: string, bundle: Bundle, plaintext: Payload, conversation: string,
                        ephemeral: nat, pair: nat)
    ensures Covered(c, [Peer(target, bundle.deviceId)], plaintext,
                    OnePacket(c, EncryptPacket(c, target, bundle, plaintext, conversation, ephemeral, pair)))
  {
    var outcome := EncryptPacket(c, target, bundle, plaintext, conversation, ephemeral, pair);
    if outcome.Ok? {
      var packet := outcome.value.1;
      assert packet.ratchet.cipher.plaintext == plaintext;
      assert Addresses([packet]) == [Peer(packet.recipient, packet.recipientDevice)] + Addresses([]);
    }
  }

  lemma {:induction false} SendAllCovers(c: ClientState, principal: string, devices: seq<DirectoryDevice>,
                                         handedOut: seq<Bundle>, plaintext: Payload, conversation: string, supply: nat)
    ensures Covered(c, DeviceAddresses(principal, devices), plaintext,
                    SendAll(c, principal, ChooseAll(principal, devices, handedOut), plaintext, conversation, supply))
    decreases |devices|
  {
    if devices == [] {
    } else {
      var bundles := ChooseAll(principal, devices, handedOut);
      assert bundles[0].deviceId == devices[0].id && bundles[1..] == ChooseAll(principal, devices[1..], handedOut);
      var one := OnePacket(c, EncryptPacket(c, principal, bundles[0], plaintext, conversation, supply, supply + 1));
      OnePacketCovers(c, principal, bundles[0], plaintext, conversation, supply, supply + 1);
      SendAllCovers(one.0, principal, devices[1..], handedOut, plaintext, conversation, supply + 2);
      CoveredStep(c, one, [Peer(principal, devices[0].id)], DeviceAddresses(principal, devices[1..]), plaintext,
                  SendAll(one.0, principal, bundles[1..], plaintext, conversation, supply + 2));
    }
  }

  lemma SendToOneCovers(c: ClientState, recipient: string, answer: Directory, plaintext: Payload,
                        conversation: string, supply: nat)
    ensures Covered(c, DeviceAddresses(recipient, answer.devices), plaintext,
                    SendToOne(c, recipient, answer, plaintext, conversation, supply))
  {
    var handedOut := if AllInSession(c, recipient, answer.devices) then [] else answer.bundles;
    SendAllCovers(c, recipient, answer.devices, handedOut, plaintext, conversation, supply);
  }

  /** A completed send carries exactly one packet for each directory device of each recipient, in order, and every
      packet seals the same payload. */
  lemma {:induction false} SendCoversMembers(c: ClientState, recipients: seq<string>, directories: seq<Directory>,
                                             plaintext: Payload, conversation: string, supply: nat)
    requires |directories| == |recipients|
    ensures Covered(c, MemberAddresses(recipients, directories), plaintext,
                    SendToMembers(c, recipients, directories, plaintext, conversation, supply))
    decreases |recipients|
  {
    if recipients == [] {
    } else {
      SendToOneCovers(c, recipients[0], directories[0], plaintext, conversation, supply);
      var one := SendToOne(c, recipients[0], directories[0], plaintext, conversation, supply);
      var next := supply + 2 * |directories[0].devices|;
      SendCoversMembers(one.0, recipients[1..], directories[1..], plaintext, conversation, next);
      CoveredStep(c, one, DeviceAddresses(recipients[0], directories[0].devices),
                  MemberAddresses(recipients[1..], directories[1..]), plaintext,
                  SendToMembers(one.0, recipients[1..], directories[1..], plaintext, conversation, next));
    }
  }

  // ---------------------------------------------------------------------------
  // Group sender chain

  /** The digest of the members stands for the text it is taken of. */
  function MembershipOf(members: seq<string>): string {
    JoinLines(Sort(members))
  }

  lemma SamePermutation(names: seq<string>, others: seq<string>)
    requires multiset(names) == multiset(others)
    ensures OneLiners(names) ==> OneLiners(others)
    ensures names == [] ==> others == []
  {
    forall i | 0 <= i < |others| ensures others[i] in names {
      assert others[i] in multiset(others);
    }
  }

  lemma SortKeepsNames(names: seq<string>)
    ensures OneLiners(Sort(names)) <==> OneLiners(names)
    ensures Sort(names) == [] <==> names == []
  {
    SortPermutes(names);
    SamePermutation(names, Sort(names));
    SamePermutation(Sort(names), names);
  }

  /** Against a list of newline-free names, the digest of another list tells exactly whether it is the same multiset,
      as long as no name of it contains a newline either and both or neither are empty. */
  lemma MembershipIsMultiset(left: seq<string>, right: seq<string>)
    requires OneLiners(left)
    ensures multiset(left) == multiset(right)
            <==> MembershipOf(left) == MembershipOf(right) && OneLiners(right) && (left == [] <==> right == [])
  {
    SortKeepsNames(left);
    SortKeepsNames(right);
    SortDependsOnMultiset(left, right);
    if multiset(left) == multiset(right) {
      SamePermutation(left, right);
      SamePermutation(right, left);
    } else if MembershipOf(left) == MembershipOf(right) && OneLiners(right) && (left == [] <==> right == []) {
      JoinIsInjective(Sort(left), Sort(right));
    }
  }

  /** Both conditions are needed: a newline in a name can imitate two members, and one empty name no member. */
  lemma NewlineImitatesMembers()
    ensures MembershipOf(["a\nb"]) == MembershipOf(["a", "b"])
    ensures multiset(["a\nb"]) != multiset(["a", "b"])
  {
    assert AtMost("a", "b");
    assert Insert("a", ["b"]) == ["a", "b"];
    assert Sort(["b"]) == ["b"];
    assert ["a", "b"][1..] == ["b"];
    assert JoinLines(["a", "b"]) == "a" + "\n" + JoinLines(["b"]);
    assert Sort(["a\nb"]) == ["a\nb"];
    assert |multiset(["a\nb"])| == 1 && |multiset(["a", "b"])| == 2;
  }

  lemma EmptyNameImitatesNobody()
    ensures MembershipOf([""]) == MembershipOf([]) && multiset([""]) != multiset([])
  {
    assert Sort([""]) == [""];
    assert "" in multiset([""]);
  }

  /** The stored sender state, or a new epoch whose id and chain are drawn from the supply. */
  function CurrentSender(c: ClientState, conversation: Conversation, supply: nat): SenderState {
    var membership := MembershipOf(conversation.members);
    if conversation.id in c.groups && c.groups[conversation.id].membership == membership then c.groups[conversation.id]
    else SenderState(supply, membership, Random(supply + 1), 0)
  }

  function GroupHeaderOf(conversation: Conversation, device: Device, s: SenderState): GroupHeader {
    GroupHeader(conversation.id + ":" + device.id, s.epoch, s.membership, device.id, s.counter)
  }

  /** The chain as every recipient device gets it. */
  function Distribution(conversation: Conversation, device: Device, s: SenderState): Payload {
    SenderKey(conversation.id, s.epoch, s.membership, device.id, s.counter, s.chain)
  }

  function SealGroup(conversation: Conversation, device: Device, s: SenderState, plaintext: Payload): GroupSealed {
    var header := GroupHeaderOf(conversation, device, s);
    GroupSealed(header, Cipher(Message(s.chain), GroupAad(header), plaintext))
  }

  /** The sender state is stored once every packet was made. */
  function FinishGroup(conversation: Conversation, s: SenderState, sealed: GroupSealed, sending: Sending)
    : (ClientState, Attempt<(GroupSealed, seq<Packet>)>)
  {
    match sending
    case (d, Err(error)) => (d, Err(error))
    case (d, Ok(packets)) =>
      var after := s.(chain := Next(s.chain), counter := s.counter + 1);
      (d.(groups := d.groups[conversation.id := after]), Ok((sealed, packets)))
  }

  function EncryptGroup(c: ClientState, conversation: Conversation, plaintext: Payload, recipients: seq<string>,
                        directories: seq<Directory>, supply: nat)
    : (ClientState, Attempt<(GroupSealed, seq<Packet>)>)
    requires |directories| == |recipients|
  {
    var s := CurrentSender(c, conversation, supply);
    FinishGroup(conversation, s, SealGroup(conversation, c.device, s, plaintext),
                SendToMembers(c, recipients, directories, Distribution(conversation, c.device, s), conversation.id,
                              supply + 2))
  }

  // ---------------------------------------------------------------------------
  // Envelopes

  function SealSelf(c: ClientState, plaintext: Payload, conversation: string, ephemeral: nat): SelfSealed {
    var header := SelfHeader(conversation, c.principal, c.device.id, ephemeral);
    SelfSealed(header, Cipher(SentCopy(SharedSecret(ephemeral, c.device.identity)), SelfAad(header), plaintext))
  }

  function OpenSelf(device: Device, sealed: SelfSealed): Attempt<Payload> {
    Open(SentCopy(SharedSecret(device.identity, sealed.header.ephemeral)), SelfAad(sealed.header), sealed.cipher)
  }

  function Others(members: seq<string>, principal: string): seq<string> {
    if members == [] then []
    else (if members[0] == principal then [] else [members[0]]) + Others(members[1..], principal)
  }

  function DeviceCount(directories: seq<Directory>): nat {
    if directories == [] then 0 else |directories[0].devices| + DeviceCount(directories[1..])
  }

  /** The key ids that one envelope may use up. */
  function Needed(directories: seq<Directory>): nat {
    3 + 2 * DeviceCount(directories)
  }

  type Body = (ClientState, Attempt<(seq<Packet>, Option<GroupSealed>)>)

  /** The packets of an envelope put together with the sender's own copy. */
  function Wrap(c: ClientState, conversation: Conversation, body: Body, own: SelfSealed)
    : (ClientState, Attempt<Envelope>)
  {
    match body.1
    case Err(error) => (body.0, Err(error))
    case Ok((packets, group)) =>
      (body.0, Ok(Envelope(PROTOCOL, conversation.direct, conversation.id, c.principal, c.device.id, packets, Some(own),
                           group)))
  }

  /** The packets of an envelope, and the group ciphertext if it has one. */
  function EncryptBody(c: ClientState, conversation: Conversation, plaintext: Payload, recipients: seq<string>,
                       directories: seq<Directory>, supply: nat): Body
    requires |directories| == |recipients|
  {
    if conversation.direct then
      match SendToMembers(c, recipients, directories, plaintext, conversation.id, supply)
      case (d, Err(error)) => (d, Err(error))
      case (d, Ok(packets)) => (d, Ok((packets, None)))
    else
      match EncryptGroup(c, conversation, plaintext, recipients, directories, supply)
      case (d, Err(error)) => (d, Err(error))
      case (d, Ok((sealed, packets))) => (d, Ok((packets, Some(sealed))))
  }

  function EncryptConversation(c: ClientState, conversation: Conversation, plaintext: Payload,
                               directories: seq<Directory>, supply: nat): (ClientState, Attempt<Envelope>)
    requires |directories| == |Others(conversation.members, c.principal)|
  {
    Wrap(c, conversation,
         EncryptBody(c, conversation, plaintext, Others(conversation.members, c.principal), directories, supply),
         SealSelf(c, plaintext, conversation.id, supply + 2 + 2 * DeviceCount(directories)))
  }

  function FirstFor(packets: seq<Packet>, principal: string, device: string): Option<Packet> {
    if packets == [] then None
    else if packets[0].recipient == principal && packets[0].recipientDevice == device then Some(packets[0])
    else FirstFor(packets[1..], principal, device)
  }

  function OpenGroup(group: GroupSealed, conversation: string, distribution: Payload): Attempt<Payload> {
    match distribution
    case Text(_) => Err(NotADistribution)
    case SenderKey(conv, epoch, membership, senderDevice, counter, chain) =>
      if conv != conversation || epoch != group.header.epoch || membership != group.header.membership
         || senderDevice != group.header.senderDevice || counter != group.header.counter then Err(GroupBinding)
      else Open(Message(chain), GroupAad(group.header), group.cipher)
  }

  function DecryptGroup(c: ClientState, packets: seq<Packet>, group: GroupSealed, sender: string,
                        conversation: string, pair: nat): (ClientState, Attempt<Payload>)
  {
    var packet := FirstFor(packets, c.principal, c.device.id);
    if packet.None? then (c, Err(NoPacketForDevice))
    else
      match DecryptPacket(c, sender, packet.value, conversation, pair)
      case (d, Err(error)) => (d, Err(error))
      case (d, Ok(None)) => (d, Err(NotADistribution))
      case (d, Ok(Some(distribution))) => (d, OpenGroup(group, conversation, distribution))
  }

  function DecryptDirect(c: ClientState, packets: seq<Packet>, sender: string, conversation: string, pair: nat)
    : (ClientState, Attempt<Payload>)
  {
    var packet := FirstFor(packets, c.principal, c.device.id);
    if packet.None? then (c, Err(NoPacketForDevice))
    else
      match DecryptPacket(c, sender, packet.value, conversation, pair)
      case (d, Err(error)) => (d, Err(error))
      case (d, Ok(None)) => (d, Err(NoPacketForDevice))
      case (d, Ok(Some(plaintext))) => (d, Ok(plaintext))
  }

  /** The envelope claims to be of this device, and has a copy for it. */
  predicate IsOwn(c: ClientState, envelope: Envelope, sender: string) {
    sender == c.principal && envelope.self.Some? && envelope.self.value.header.device == c.device.id
  }

  /** `known` is the receiver's own record of the conversation, if it has one. */
  function DecryptEnvelope(c: ClientState, envelope: Envelope, sender: string, conversation: string,
                           known: Option<Conversation>, pair: nat): (ClientState, Attempt<Payload>)
  {
    var own := IsOwn(c, envelope, sender);
    if envelope.protocol != PROTOCOL || envelope.conversation != conversation then (c, Err(EnvelopeBinding))
    else if !envelope.direct then
      if known.None? then (c, Err(MembershipUnknown))
      else if envelope.group.None? || MembershipOf(known.value.members) != envelope.group.value.header.membership then
        (c, Err(MembershipMismatch))
      else if own then (c, OpenSelf(c.device, envelope.self.value))
      else DecryptGroup(c, envelope.packets, envelope.group.value, sender, conversation, pair)
    else if own then (c, OpenSelf(c.device, envelope.self.value))
    else DecryptDirect(c, envelope.packets, sender, conversation, pair)
  }

  lemma {:induction false} FirstForIsAddressed(packets: seq<Packet>, principal: string, device: string)
    ensures var found := FirstFor(packets, principal, device);
            && (found.Some? <==> Peer(principal, device) in Addresses(packets))
            && (found.Some? ==> found.value in packets && found.value.recipient == principal
                                && found.value.recipientDevice == device)
  {
    if packets == [] {
    } else {
      FirstForIsAddressed(packets[1..], principal, device);
    }
  }

  lemma OwnCopyOpens(c: ClientState, plaintext: Payload, conversation: string, ephemeral: nat)
    ensures OpenSelf(c.device, SealSelf(c, plaintext, conversation, ephemeral)) == Ok(plaintext)
  {
  }

  /** What the pairwise packets of an envelope seal. */
  function Carried(c: ClientState, conversation: Conversation, plaintext: Payload, supply: nat): Payload {
    if conversation.direct then plaintext
    else Distribution(conversation, c.device, CurrentSender(c, conversation, supply))
  }

  /** A successful group send: the packets are addressed to these devices and all carry one distribution, which opens
      the group ciphertext. */
  predicate GroupShaped(device: Device, conversation: Conversation, plaintext: Payload, addresses: seq<Peer>,
                        outcome: (ClientState, Attempt<(GroupSealed, seq<Packet>)>), distribution: Payload)
  {
    outcome.1.Ok? ==>
      var (sealed, packets) := outcome.1.value;
      && Addresses(packets) == addresses && AllSeal(packets, distribution)
      && sealed.header.membership == MembershipOf(conversation.members)
      && sealed.header.sessionId == conversation.id + ":" + device.id && sealed.header.senderDevice == device.id
      && OpenGroup(sealed, conversation.id, distribution) == Ok(plaintext)
  }

  lemma FinishIsShaped(c: ClientState, conversation: Conversation, s: SenderState, plaintext: Payload,
                       addresses: seq<Peer>, sending: Sending)
    requires Covered(c, addresses, Distribution(conversation, c.device, s), sending)
    requires s.membership == MembershipOf(conversation.members)
    ensures GroupShaped(c.device, conversation, plaintext, addresses,
                        FinishGroup(conversation, s, SealGroup(conversation, c.device, s, plaintext), sending),
                        Distribution(conversation, c.device, s))
  {
  }

  /** The packets of a group send all carry one distribution, and that distribution opens the group ciphertext. */
  lemma GroupShape(c: ClientState, conversation: Conversation, plaintext: Payload, recipients: seq<string>,
                   directories: seq<Directory>, supply: nat)
    requires |directories| == |recipients|
    ensures GroupShaped(c.device, conversation, plaintext, MemberAddresses(recipients, directories),
                        EncryptGroup(c, conversation, plaintext, recipients, directories, supply),
                        Distribution(conversation, c.device, CurrentSender(c, conversation, supply)))
  {
    var s := CurrentSender(c, conversation, supply);
    var distribution := Distribution(conversation, c.device, s);
    SendCoversMembers(c, recipients, directories, distribution, conversation.id, supply + 2);
    FinishIsShaped(c, conversation, s, plaintext, MemberAddresses(recipients, directories),
                   SendToMembers(c, recipients, directories, distribution, conversation.id, supply + 2));
  }

  /** A successful body: the packets are addressed to these devices, and each carries the message itself, or the
      distribution that opens the group ciphertext. */
  predicate BodyShaped(device: Device, conversation: Conversation, plaintext: Payload, addresses: seq<Peer>,
                       body: Body, carried: Payload)
  {
    body.1.Ok? ==>
      var (packets, group) := body.1.value;
      && Addresses(packets) == addresses && AllSeal(packets, carried)
      && if conversation.direct then carried == plaintext
         else
           && group.Some? && group.value.header.membership == MembershipOf(conversation.members)
           && group.value.header.sessionId == conversation.id + ":" + device.id
           && group.value.header.senderDevice == device.id
           && OpenGroup(group.value, conversation.id, carried) == Ok(plaintext)
  }

  lemma BodyIsShaped(c: ClientState, conversation: Conversation, plaintext: Payload, recipients: seq<string>,
                     directories: seq<Directory>, supply: nat)
    requires |directories| == |recipients|
    ensures BodyShaped(c.device, conversation, plaintext, MemberAddresses(recipients, directories),
                       EncryptBody(c, conversation, plaintext, recipients, directories, supply),
                       Carried(c, conversation, plaintext, supply))
  {
    if conversation.direct {
      SendCoversMembers(c, recipients, directories, plaintext, conversation.id, supply);
    } else {
      GroupShape(c, conversation, plaintext, recipients, directories, supply);
    }
  }

  /** A successful envelope: its body as above, the conversation it is bound to, and a copy that its sender opens. */
  predicate Shaped(c: ClientState, conversation: Conversation, plaintext: Payload, addresses: seq<Peer>,
                   outcome: (ClientState, Attempt<Envelope>), carried: Payload)
  {
    outcome.1.Ok? ==>
      var envelope := outcome.1.value;
      && BodyShaped(c.device, conversation, plaintext, addresses,
                    (outcome.0, Ok((envelope.packets, envelope.group))), carried)
      && envelope.sender == c.principal && envelope.senderDevice == c.device.id
      && envelope.direct == conversation.direct
      && envelope.protocol == PROTOCOL && envelope.conversation == conversation.id
      && envelope.self.Some? && envelope.self.value.header.device == c.device.id
      && envelope.self.value.header.conversation == conversation.id && envelope.self.value.header.sender == c.principal
      && OpenSelf(c.device, envelope.self.value) == Ok(plaintext)
  }

  lemma WrapIsShaped(c: ClientState, conversation: Conversation, plaintext: Payload, addresses: seq<Peer>, body: Body,
                     carried: Payload, ephemeral: nat)
    requires BodyShaped(c.device, conversation, plaintext, addresses, body, carried)
    ensures Shaped(c, conversation, plaintext, addresses,
                   Wrap(c, conversation, body, SealSelf(c, plaintext, conversation.id, ephemeral)), carried)
  {
    OwnCopyOpens(c, plaintext, conversation.id, ephemeral);
  }

  /** What a finished envelope contains. */
  lemma EnvelopeIsShaped(c: ClientState, conversation: Conversation, plaintext: Payload, recipients: seq<string>,
                         directories: seq<Directory>, supply: nat)
    requires recipients == Others(conversation.members, c.principal) && |directories| == |recipients|
    ensures Shaped(c, conversation, plaintext, MemberAddresses(recipients, directories),
                   EncryptConversation(c, conversation, plaintext, directories, supply),
                   Carried(c, conversation, plaintext, supply))
  {
    BodyIsShaped(c, conversation, plaintext, recipients, directories, supply);
    WrapIsShaped(c, conversation, plaintext, MemberAddresses(recipients, directories),
                 EncryptBody(c, conversation, plaintext, recipients, directories, supply),
                 Carried(c, conversation, plaintext, supply), supply + 2 + 2 * DeviceCount(directories));
  }

  lemma OpensToSealed(r: ClientState, sender: string, packet: Packet, conversation: string, pair: nat)
    requires packet.recipient == r.principal && packet.recipientDevice == r.device.id
    ensures var opening := DecryptPacket(r, sender, packet, conversation, pair).1;
            opening.Ok? ==> opening.value == Some(packet.ratchet.cipher.plaintext)
  {
    if DecryptPacket(r, sender, packet, conversation, pair).1.Ok? {
      AcceptanceIsLocal(r, sender, packet, conversation, pair);
    }
  }

  /** The reader's own record of the conversation, which only a group envelope needs, has the members' digest. */
  predicate Knows(known: Option<Conversation>, conversation: Conversation) {
    conversation.direct || (known.Some? && MembershipOf(known.value.members) == MembershipOf(conversation.members))
  }

  /** What a receiver other than the sender makes of an envelope. */
  predicate ReadsAs(r: ClientState, envelope: Envelope, sender: string, known: Option<Conversation>, pair: nat,
                    plaintext: Payload)
  {
    var packet := FirstFor(envelope.packets, r.principal, r.device.id);
    && packet.Some?
    && var (after, opening) := DecryptPacket(r, sender, packet.value, envelope.conversation, pair);
       DecryptEnvelope(r, envelope, sender, envelope.conversation, known, pair)
       == (after, if opening.Ok? then Ok(plaintext) else Err(opening.error))
  }

  /** A successful envelope that this reader can open. */
  predicate IsRead(c: ClientState, conversation: Conversation, plaintext: Payload, addresses: seq<Peer>,
                   outcome: (ClientState, Attempt<Envelope>), r: ClientState, known: Option<Conversation>, pair: nat)
  {
    && outcome.1.Ok? && outcome.1.value.conversation == conversation.id
    && Addresses(outcome.1.value.packets) == addresses
    && ReadsAs(r, outcome.1.value, c.principal, known, pair, plaintext)
  }

  lemma ShapedReads(c: ClientState, conversation: Conversation, plaintext: Payload, addresses: seq<Peer>,
                    outcome: (ClientState, Attempt<Envelope>), carried: Payload, r: ClientState,
                    known: Option<Conversation>, pair: nat)
    requires Shaped(c, conversation, plaintext, addresses, outcome, carried) && outcome.1.Ok?
    requires Peer(r.principal, r.device.id) in addresses
    requires !(r.principal == c.principal && r.device.id == c.device.id)
    requires Knows(known, conversation)
    ensures IsRead(c, conversation, plaintext, addresses, outcome, r, known, pair)
  {
    var envelope := outcome.1.value;
    FirstForIsAddressed(envelope.packets, r.principal, r.device.id);
    OpensToSealed(r, c.principal, FirstFor(envelope.packets, r.principal, r.device.id).value, conversation.id, pair);
  }

  /** Every addressed device reads the plaintext exactly when its pairwise packet opens, directly or through the
      group ciphertext. */
  lemma EnvelopeRoundTrip(c: ClientState, conversation: Conversation, plaintext: Payload, recipients: seq<string>,
                          directories: seq<Directory>, supply: nat, r: ClientState, known: Option<Conversation>,
                          pair: nat)
    requires recipients == Others(conversation.members, c.principal) && |directories| == |recipients|
    requires EncryptConversation(c, conversation, plaintext, directories, supply).1.Ok?
    requires Peer(r.principal, r.device.id) in MemberAddresses(recipients, directories)
    requires !(r.principal == c.principal && r.device.id == c.device.id)
    requires Knows(known, conversation)
    ensures IsRead(c, conversation, plaintext, MemberAddresses(recipients, directories),
                   EncryptConversation(c, conversation, plaintext, directories, supply), r, known, pair)
  {
    EnvelopeIsShaped(c, conversation, plaintext, recipients, directories, supply);
    ShapedReads(c, conversation, plaintext, MemberAddresses(recipients, directories),
                EncryptConversation(c, conversation, plaintext, directories, supply),
                Carried(c, conversation, plaintext, supply), r, known, pair);
  }

  /** The device that sealed the envelope, or the same device later, opens its own copy and changes nothing. */
  predicate OpensOwnCopy(c: ClientState, conversation: Conversation, plaintext: Payload,
                         outcome: (ClientState, Attempt<Envelope>), later: ClientState, known: Option<Conversation>,
                         pair: nat)
  {
    outcome.1.Ok? ==>
      DecryptEnvelope(later, outcome.1.value, c.principal, conversation.id, known, pair) == (later, Ok(plaintext))
  }

  lemma ShapedOwnCopy(c: ClientState, conversation: Conversation, plaintext: Payload, addresses: seq<Peer>,
                      outcome: (ClientState, Attempt<Envelope>), carried: Payload, later: ClientState,
                      known: Option<Conversation>, pair: nat)
    requires Shaped(c, conversation, plaintext, addresses, outcome, carried) && Knows(known, conversation)
    requires later.principal == c.principal && later.device.id == c.device.id
             && later.device.identity == c.device.identity
    ensures OpensOwnCopy(c, conversation, plaintext, outcome, later, known, pair)
  {
  }

  /** The sending device reads its own copy at any later time, and reading changes nothing. */
  lemma SenderReadsOwnCopy(c: ClientState, conversation: Conversation, plaintext: Payload, directories: seq<Directory>,
                           supply: nat, later: ClientState, known: Option<Conversation>, pair: nat)
    requires |directories| == |Others(conversation.members, c.principal)| && Knows(known, conversation)
    requires later.principal == c.principal && later.device.id == c.device.id
             && later.device.identity == c.device.identity
    ensures OpensOwnCopy(c, conversation, plaintext,
                         EncryptConversation(c, conversation, plaintext, directories, supply), later, known, pair)
  {
    var recipients := Others(conversation.members, c.principal);
    EnvelopeIsShaped(c, conversation, plaintext, recipients, directories, supply);
    ShapedOwnCopy(c, conversation, plaintext, MemberAddresses(recipients, directories),
                  EncryptConversation(c, conversation, plaintext, directories, supply),
                  Carried(c, conversation, plaintext, supply), later, known, pair);
  }

  /** A record with the same members is enough, whatever their names. */
  lemma SameMembersKnow(known: Conversation, conversation: Conversation)
    requires multiset(known.members) == multiset(conversation.members)
    ensures Knows(Some(known), conversation)
  {
    SortDependsOnMultiset(known.members, conversation.members);
  }

  // ---------------------------------------------------------------------------
  // Arbitrary envelopes

  /** The conditions under which an envelope is looked into at all: protocol, conversation and, for the group kind, the
      membership that the reader knows. */
  predicate IsBound(envelope: Envelope, conversation: string, known: Option<Conversation>) {
    && envelope.protocol == PROTOCOL && envelope.conversation == conversation
    && (!envelope.direct ==>
          && known.Some? && envelope.group.Some?
          && MembershipOf(known.value.members) == envelope.group.value.header.membership)
  }

  /** What a reader makes of the payload of its packet. */
  function Shown(envelope: Envelope, conversation: string, carried: Payload): Attempt<Payload>
    requires !envelope.direct ==> envelope.group.Some?
  {
    if envelope.direct then Ok(carried) else OpenGroup(envelope.group.value, conversation, carried)
  }

  /** The payload of the reader's packet, if that opens. */
  function CarriedTo(r: ClientState, envelope: Envelope, sender: string, conversation: string, pair: nat)
    : Option<Payload>
  {
    var packet := FirstFor(envelope.packets, r.principal, r.device.id);
    if packet.None? then None
    else
      match DecryptPacket(r, sender, packet.value, conversation, pair).1
      case Ok(carried) => carried
      case Err(_) => None
  }

  lemma AddressedIsTaken(r: ClientState, sender: string, packet: Packet, conversation: string, pair: nat)
    requires packet.recipient == r.principal && packet.recipientDevice == r.device.id
    ensures DecryptPacket(r, sender, packet, conversation, pair).1 != Ok(None)
  {
  }

  /** What any envelope, genuine or not, shows to a reader: its own copy if it claims to be of this device, and
      otherwise what the payload of its packet makes of it. */
  lemma ReadIff(r: ClientState, envelope: Envelope, sender: string, conversation: string, known: Option<Conversation>,
                pair: nat, plaintext: Payload)
    ensures DecryptEnvelope(r, envelope, sender, conversation, known, pair).1 == Ok(plaintext)
            <==> && IsBound(envelope, conversation, known)
                 && if IsOwn(r, envelope, sender) then OpenSelf(r.device, envelope.self.value) == Ok(plaintext)
                    else var carried := CarriedTo(r, envelope, sender, conversation, pair);
                         carried.Some? && Shown(envelope, conversation, carried.value) == Ok(plaintext)
  {
    var packet := FirstFor(envelope.packets, r.principal, r.device.id);
    if packet.Some? {
      FirstForIsAddressed(envelope.packets, r.principal, r.device.id);
      AddressedIsTaken(r, sender, packet.value, conversation, pair);
    }
  }

  predicate IsUnbound(error: SignalError) {
    error == EnvelopeBinding || error == MembershipUnknown || error == MembershipMismatch
  }

  lemma PacketErrors(r: ClientState, sender: string, packet: Packet, conversation: string, pair: nat)
    ensures var result := DecryptPacket(r, sender, packet, conversation, pair).1;
            result.Err? ==> !IsUnbound(result.error) && result.error != NoPacketForDevice
  {
  }

  /** The outcome of opening the packet of this device, whichever way its payload is read. */
  predicate OnlyMisses(outcome: (ClientState, Attempt<Payload>), missing: bool) {
    && (outcome.1.Err? ==> !IsUnbound(outcome.1.error))
    && (outcome.1 == Err(NoPacketForDevice) <==> missing)
  }

  lemma DirectMisses(r: ClientState, packets: seq<Packet>, sender: string, conversation: string, pair: nat)
    ensures OnlyMisses(DecryptDirect(r, packets, sender, conversation, pair),
                       Peer(r.principal, r.device.id) !in Addresses(packets))
  {
    FirstForIsAddressed(packets, r.principal, r.device.id);
    var packet := FirstFor(packets, r.principal, r.device.id);
    if packet.Some? {
      AddressedIsTaken(r, sender, packet.value, conversation, pair);
      PacketErrors(r, sender, packet.value, conversation, pair);
    }
  }

  lemma GroupMisses(r: ClientState, packets: seq<Packet>, group: GroupSealed, sender: string, conversation: string,
                    pair: nat)
    ensures OnlyMisses(DecryptGroup(r, packets, group, sender, conversation, pair),
                       Peer(r.principal, r.device.id) !in Addresses(packets))
  {
    FirstForIsAddressed(packets, r.principal, r.device.id);
    var packet := FirstFor(packets, r.principal, r.device.id);
    if packet.Some? {
      AddressedIsTaken(r, sender, packet.value, conversation, pair);
      PacketErrors(r, sender, packet.value, conversation, pair);
    }
  }

  /** What keeps an envelope from being looked at, in the order of the tests; then nothing changes. */
  lemma UnboundIff(r: ClientState, envelope: Envelope, sender: string, conversation: string,
                   known: Option<Conversation>, pair: nat)
    ensures var (after, result) := DecryptEnvelope(r, envelope, sender, conversation, known, pair);
            && (!IsBound(envelope, conversation, known) ==> after == r)
            && (result == Err(EnvelopeBinding)
                <==> envelope.protocol != "itonami-signal-v1" || envelope.conversation != conversation)
            && (result == Err(MembershipUnknown)
                <==> result != Err(EnvelopeBinding) && !envelope.direct && known.None?)
            && (result == Err(MembershipMismatch)
                <==> result != Err(EnvelopeBinding) && result != Err(MembershipUnknown)
                     && !IsBound(envelope, conversation, known))
            && (result == Err(NoPacketForDevice)
                <==> IsBound(envelope, conversation, known) && !IsOwn(r, envelope, sender)
                     && Peer(r.principal, r.device.id) !in Addresses(envelope.packets))
  {
    DirectMisses(r, envelope.packets, sender, conversation, pair);
    if envelope.group.Some? {
      GroupMisses(r, envelope.packets, envelope.group.value, sender, conversation, pair);
    }
  }

  lemma FlippedShaped(c: ClientState, conversation: Conversation, plaintext: Payload, addresses: seq<Peer>,
                      outcome: (ClientState, Attempt<Envelope>), carried: Payload, r: ClientState,
                      known: Option<Conversation>, pair: nat)
    requires Shaped(c, conversation, plaintext, addresses, outcome, carried) && outcome.1.Ok?
    requires Peer(r.principal, r.device.id) in addresses && r.principal != c.principal
    ensures var envelope := outcome.1.value;
            var found := CarriedTo(r, envelope, c.principal, conversation.id, pair);
            && (found.Some?
                <==> DecryptEnvelope(r, envelope.(direct := true), c.principal, conversation.id, known, pair).1
                     == Ok(carried))
            && (found.Some? ==> found.value == carried)
  {
    var envelope := outcome.1.value;
    FirstForIsAddressed(envelope.packets, r.principal, r.device.id);
    OpensToSealed(r, c.principal, FirstFor(envelope.packets, r.principal, r.device.id).value, conversation.id, pair);
    ReadIff(r, envelope.(direct := true), c.principal, conversation.id, known, pair, carried);
  }

  /** A group envelope whose kind was changed to direct shows the distribution, chain and all, exactly when its packet
      opens. A message is shown exactly when the packet carries one. */
  lemma FlippedShowsDistribution(c: ClientState, conversation: Conversation, plaintext: Payload,
                                 recipients: seq<string>, directories: seq<Directory>, supply: nat, r: ClientState,
                                 known: Option<Conversation>, pair: nat)
    requires recipients == Others(conversation.members, c.principal) && |directories| == |recipients|
    requires !conversation.direct && EncryptConversation(c, conversation, plaintext, directories, supply).1.Ok?
    requires Peer(r.principal, r.device.id) in MemberAddresses(recipients, directories)
    requires r.principal != c.principal
    ensures var envelope := EncryptConversation(c, conversation, plaintext, directories, supply).1.value;
            var flipped := envelope.(direct := true);
            var distribution := Distribution(conversation, c.device, CurrentSender(c, conversation, supply));
            && distribution.SenderKey?
            && (DecryptEnvelope(r, flipped, c.principal, conversation.id, known, pair).1 == Ok(distribution)
                <==> CarriedTo(r, envelope, c.principal, conversation.id, pair).Some?)
            && (CarriedTo(r, envelope, c.principal, conversation.id, pair).Some? ==>
                  CarriedTo(r, envelope, c.principal, conversation.id, pair).value == distribution)
  {
    var outcome := EncryptConversation(c, conversation, plaintext, directories, supply);
    EnvelopeIsShaped(c, conversation, plaintext, recipients, directories, supply);
    FlippedShaped(c, conversation, plaintext, MemberAddresses(recipients, directories), outcome,
                  Carried(c, conversation, plaintext, supply), r, known, pair);
  }

  lemma BodyHasGroup(c: ClientState, conversation: Conversation, plaintext: Payload, recipients: seq<string>,
                     directories: seq<Directory>, supply: nat)
    requires |directories| == |recipients|
    ensures var body := EncryptBody(c, conversation, plaintext, recipients, directories, supply);
            body.1.Ok? ==> (body.1.value.1.Some? <==> !conversation.direct)
  {
  }

  /** A direct envelope whose kind was changed to group is refused. */
  lemma FlippedDirectIsRefused(c: ClientState, conversation: Conversation, plaintext: Payload,
                               directories: seq<Directory>, supply: nat, r: ClientState, sender: string, id: string,
                               known: Option<Conversation>, pair: nat)
    requires |directories| == |Others(conversation.members, c.principal)| && conversation.direct
    requires EncryptConversation(c, conversation, plaintext, directories, supply).1.Ok?
    ensures var envelope := EncryptConversation(c, conversation, plaintext, directories, supply).1.value;
            DecryptEnvelope(r, envelope.(direct := false), sender, id, known, pair).1.Err?
  {
    BodyHasGroup(c, conversation, plaintext, Others(conversation.members, c.principal), directories, supply);
  }

  // ---------------------------------------------------------------------------
  // Own copies

  /** An own copy is opened exactly when it was sealed under the key that belongs to its ephemeral key, for its header,
      whatever conversation that header names. */
  lemma OwnCopyIff(device: Device, sealed: SelfSealed, plaintext: Payload)
    ensures OpenSelf(device, sealed) == Ok(plaintext)
            <==> sealed.cipher == Cipher(SentCopy(SharedSecret(device.identity, sealed.header.ephemeral)),
                                         SelfAad(sealed.header), plaintext)
  {
  }

  /** The copy of one conversation put into an envelope of another is shown there. */
  lemma CopyOfAnotherConversation(c: ClientState, plaintext: Payload, other: string, ephemeral: nat,
                                  envelope: Envelope, known: Option<Conversation>, pair: nat)
    requires IsBound(envelope, envelope.conversation, known)
    requires envelope.self == Some(SealSelf(c, plaintext, other, ephemeral))
    ensures DecryptEnvelope(c, envelope, c.principal, envelope.conversation, known, pair) == (c, Ok(plaintext))
  {
    OwnCopyOpens(c, plaintext, other, ephemeral);
  }

  /** So what is shown from an own copy belongs to the conversation exactly when the two ids agree. */
  lemma CopyBelongsIff(c: ClientState, plaintext: Payload, sealedFor: string, ephemeral: nat, envelope: Envelope,
                       known: Option<Conversation>, pair: nat)
    requires envelope.self == Some(SealSelf(c, plaintext, sealedFor, ephemeral))
    requires DecryptEnvelope(c, envelope, c.principal, envelope.conversation, known, pair).1.Ok?
    ensures DecryptEnvelope(c, envelope, c.principal, envelope.conversation, known, pair).1 == Ok(plaintext)
    ensures SealSelf(c, plaintext, envelope.conversation, ephemeral) == envelope.self.value
            <==> sealedFor == envelope.conversation
  {
    OwnCopyOpens(c, plaintext, sealedFor, ephemeral);
  }
}
