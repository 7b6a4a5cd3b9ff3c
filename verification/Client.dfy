/** The browser client itself: an object over the stored device, sessions, approvals and sender chains. A session is
copied out of the store, worked on, and written back only when the call succeeds. */
module Client {
  import opened Wrappers
  import opened Sequences
  import opened Keys
  import opened Ratchet
  import opened Transport
  import opened Envelopes

  lemma DecryptKeepsValid(s: Session, sealed: Sealed, base: Base, pair: nat)
    requires s.Valid() && s.Decrypt(sealed, base, pair).Ok?
    ensures s.Decrypt(sealed, base, pair).value.0.Valid()
  {
  }

  lemma PrependTwice(first: seq<Packet>, second: seq<Packet>, sending: Sending)
    ensures Prepend(first, Prepend(second, sending)) == Prepend(first + second, sending)
  {
    if sending.1.Ok? {
      assert first + (second + sending.1.value) == (first + second) + sending.1.value;
    }
  }

  lemma PrependNothing(sending: Sending)
    ensures Prepend([], sending) == sending
  {
    if sending.1.Ok? {
      assert [] + sending.1.value == sending.1.value;
    }
  }

  lemma PrependToNothing(packets: seq<Packet>, c: ClientState)
    ensures Prepend(packets, (c, Ok([]))) == (c, Ok(packets))
  {
    AppendNothing(packets);
  }

  /** What is still to be sent from bundle `i` on. */
  function SendRest(c: ClientState, recipient: string, bundles: seq<Bundle>, plaintext: Payload, conversation: string,
                    supply: nat, i: nat): Sending
    requires i <= |bundles|
  {
    Envelopes.SendAll(c, recipient, bundles[i..], plaintext, conversation, supply + 2 * i)
  }

  lemma SendRestStarts(c: ClientState, recipient: string, bundles: seq<Bundle>, plaintext: Payload,
                       conversation: string, supply: nat)
    ensures var all := Envelopes.SendAll(c, recipient, bundles, plaintext, conversation, supply);
            all == Prepend([], SendRest(c, recipient, bundles, plaintext, conversation, supply, 0))
  {
    PrependNothing(Envelopes.SendAll(c, recipient, bundles, plaintext, conversation, supply));
    assert bundles[0..] == bundles;
  }

  lemma SendRestEnds(packets: seq<Packet>, c: ClientState, recipient: string, bundles: seq<Bundle>,
                     plaintext: Payload, conversation: string, supply: nat)
    ensures Prepend(packets, SendRest(c, recipient, bundles, plaintext, conversation, supply, |bundles|))
            == (c, Ok(packets))
  {
    PrependToNothing(packets, c);
  }

  /** One bundle more. */
  lemma SendRestStep(packets: seq<Packet>, c: ClientState, recipient: string, bundles: seq<Bundle>,
                     plaintext: Payload, conversation: string, supply: nat, i: nat)
    requires i < |bundles|
    ensures var all := Prepend(packets, SendRest(c, recipient, bundles, plaintext, conversation, supply, i));
            match Transport.EncryptPacket(c, recipient, bundles[i], plaintext, conversation, supply + 2 * i,
                                          supply + 2 * i + 1)
            case Err(error) => all == (c, Err(error))
            case Ok((d, packet)) =>
              all == Prepend(packets + [packet],
                             SendRest(d, recipient, bundles, plaintext, conversation, supply, i + 1))
  {
    assert bundles[i..][0] == bundles[i] && bundles[i..][1..] == bundles[i + 1..];
    var first := Transport.EncryptPacket(c, recipient, bundles[i], plaintext, conversation, supply + 2 * i,
                                         supply + 2 * i + 1);
    if first.Ok? {
      var (d, packet) := first.value;
      PrependTwice(packets, [packet], SendRest(d, recipient, bundles, plaintext, conversation, supply, i + 1));
    }
  }

  /** What is still to be sent from member `i` on. */
  function SendToRest(c: ClientState, recipients: seq<string>, directories: seq<Directory>, plaintext: Payload,
                      conversation: string, supply: nat, i: nat): Sending
    requires i <= |recipients| == |directories|
  {
    Envelopes.SendToMembers(c, recipients[i..], directories[i..], plaintext, conversation, supply)
  }

  lemma SendToRestStarts(c: ClientState, recipients: seq<string>, directories: seq<Directory>, plaintext: Payload,
                         conversation: string, supply: nat)
    requires |recipients| == |directories|
    ensures var all := Envelopes.SendToMembers(c, recipients, directories, plaintext, conversation, supply);
            all == Prepend([], SendToRest(c, recipients, directories, plaintext, conversation, supply, 0))
  {
    PrependNothing(Envelopes.SendToMembers(c, recipients, directories, plaintext, conversation, supply));
    assert recipients[0..] == recipients && directories[0..] == directories;
  }

  lemma SendToRestEnds(packets: seq<Packet>, c: ClientState, recipients: seq<string>, directories: seq<Directory>,
                       plaintext: Payload, conversation: string, supply: nat)
    requires |recipients| == |directories|
    ensures Prepend(packets, SendToRest(c, recipients, directories, plaintext, conversation, supply, |recipients|))
            == (c, Ok(packets))
  {
    PrependToNothing(packets, c);
  }

  /** One member more. */
  lemma SendToRestStep(packets: seq<Packet>, c: ClientState, recipients: seq<string>, directories: seq<Directory>,
                       plaintext: Payload, conversation: string, supply: nat, i: nat)
    requires i < |recipients| == |directories|
    ensures var all := Prepend(packets, SendToRest(c, recipients, directories, plaintext, conversation, supply, i));
            var (d, one) := Envelopes.SendToOne(c, recipients[i], directories[i], plaintext, conversation, supply);
            match one
            case Err(error) => all == (d, Err(error))
            case Ok(more) =>
              all == Prepend(packets + more, SendToRest(d, recipients, directories, plaintext, conversation,
                                                        supply + 2 * |directories[i].devices|, i + 1))
  {
    assert recipients[i..][0] == recipients[i] && recipients[i..][1..] == recipients[i + 1..];
    assert directories[i..][0] == directories[i] && directories[i..][1..] == directories[i + 1..];
    var (d, one) := Envelopes.SendToOne(c, recipients[i], directories[i], plaintext, conversation, supply);
    if one.Ok? {
      PrependTwice(packets, one.value, SendToRest(d, recipients, directories, plaintext, conversation,
                                                  supply + 2 * |directories[i].devices|, i + 1));
    }
  }

  class SignalClient {
    const principal: string
    var device: Device
    var sessions: map<Peer, Session>
    var verified: map<Peer, Fingerprint>
    var groups: map<string, SenderState>

    function State(): ClientState
      reads this
    {
      ClientState(principal, device, sessions, verified, groups)
    }

    ghost predicate Valid()
      reads this
    {
      State().Valid()
    }

    constructor (principal: string, device: Device)
      ensures Valid() && State() == ClientState(principal, device, map[], map[], map[])
    {
      this.principal := principal;
      this.device := device;
      sessions, verified, groups := map[], map[], map[];
    }

    method VerifyPrincipal(target: string, devices: seq<DirectoryDevice>, approve: Approval)
      returns (result: Attempt<nat>)
      requires Valid()
      modifies this
      ensures Valid()
      ensures (State(), result) == Transport.VerifyPrincipal(old(State()), target, devices, approve)
    {
      if devices == [] {
        return Err(NoDevices);
      }
      for i := 0 to |devices|
        invariant Valid()
        invariant VerifyDevices(old(State()), target, devices, approve)
                  == VerifyDevices(State(), target, devices[i..], approve)
      {
        var peer, fingerprint := Peer(target, devices[i].id), devices[i].KeyFingerprint();
        if !Verified(State(), peer, fingerprint) {
          if !approve(target, devices[i].id, fingerprint, peer in verified) {
            return Err(ApprovalRefused);
          }
          verified := verified[peer := fingerprint];
          sessions := sessions - {peer};
        }
      }
      return Ok(|devices|);
    }

    /** Uses up the one-time prekey that the packet names. */
    method X3dhReceiver(prekey: Prekey) returns (result: Attempt<Key>)
      modifies this
      ensures match Transport.X3dhReceiver(old(device), prekey)
              case Ok((after, secret)) =>
                result == Ok(secret) && State() == old(State()).(device := after)
              case Err(error) => result == Err(error) && State() == old(State())
    {
      if device.signedPrekeyId != prekey.signedPrekeyId {
        return Err(UnknownSignedPrekey);
      }
      var parts := [SharedSecret(device.signedPrekey, prekey.senderIdentity),
                    SharedSecret(device.identity, prekey.ephemeral),
                    SharedSecret(device.signedPrekey, prekey.ephemeral)];
      if prekey.oneTimeId.Some? {
        var oneTime := FindOneTime(device.oneTime, prekey.oneTimeId.value);
        if oneTime.None? {
          return Err(UnknownOneTimePrekey);
        }
        parts := parts + [SharedSecret(oneTime.value, prekey.ephemeral)];
        device := device.(oneTime := WithoutOneTime(device.oneTime, prekey.oneTimeId.value));
      }
      return Ok(Agreed(parts));
    }

    method EncryptPacket(target: string, bundle: Bundle, plaintext: Payload, conversation: string,
                         ephemeral: nat, pair: nat) returns (result: Attempt<Packet>)
      requires Valid()
      modifies this
      ensures Valid()
      ensures match Transport.EncryptPacket(old(State()), target, bundle, plaintext, conversation, ephemeral, pair)
              case Ok((after, packet)) => result == Ok(packet) && State() == after
              case Err(error) => result == Err(error) && State() == old(State())
    {
      var peer := Peer(target, bundle.deviceId);
      var base := Base(conversation, principal, device.id, target, bundle.deviceId);
      var state: RatchetState;
      var prekey: Option<Prekey> := None;
      if peer in sessions {
        state := new RatchetState(sessions[peer]);
      } else {
        var agreed := X3dhSender(State(), bundle, ephemeral);
        if agreed.Err? {
          return Err(agreed.error);
        }
        state := new RatchetState(InitiatorSession(agreed.value.0, bundle, pair));
        prekey := Some(agreed.value.1);
      }
      var sealed := state.Encrypt(plaintext, base);
      if sealed.Err? {
        return Err(sealed.error);
      }
      sessions := sessions[peer := state.Record()];
      return Ok(Packet(target, bundle.deviceId, device.id, prekey, sealed.value));
    }

    method DecryptPacket(sender: string, packet: Packet, conversation: string, pair: nat)
      returns (result: Attempt<Option<Payload>>)
      requires Valid()
      modifies this
      ensures Valid()
      ensures (State(), result) == Transport.DecryptPacket(old(State()), sender, packet, conversation, pair)
    {
      if packet.recipient != principal || packet.recipientDevice != device.id {
        return Ok(None);
      }
      var peer := Peer(sender, packet.senderDevice);
      var base := Base(conversation, sender, packet.senderDevice, principal, device.id);
      var state: RatchetState;
      if peer in sessions {
        state := new RatchetState(sessions[peer]);
      } else {
        if packet.prekey.None? {
          return Err(NoSessionNoPrekey);
        }
        var prekey := packet.prekey.value;
        if !Verified(State(), peer, Fingerprint(prekey.senderSigning, prekey.senderIdentity)) {
          return Err(DeviceUnverified);
        }
        var secret := X3dhReceiver(prekey);
        if secret.Err? {
          return Err(secret.error);
        }
        state := new RatchetState(ResponderSession(secret.value, device, prekey));
      }
      ghost var loaded := state.Record();
      var plaintext := state.Decrypt(packet.ratchet, base, pair);
      if plaintext.Err? {
        return Err(plaintext.error);
      }
      DecryptKeepsValid(loaded, packet.ratchet, base, pair);
      sessions := sessions[peer := state.Record()];
      return Ok(Some(plaintext.value));
    }

    /** Sends the packet for bundle `i`: `all`, the outcome of the whole send, is now reached from the new state. */
    method SendNext(packets: seq<Packet>, recipient: string, bundles: seq<Bundle>, plaintext: Payload,
                    conversation: string, supply: nat, i: nat, ghost all: Sending)
      returns (result: Attempt<seq<Packet>>)
      requires Valid() && i < |bundles|
      requires all == Prepend(packets, SendRest(State(), recipient, bundles, plaintext, conversation, supply, i))
      modifies this
      ensures Valid()
      ensures match result
              case Ok(more) =>
                all == Prepend(more, SendRest(State(), recipient, bundles, plaintext, conversation, supply, i + 1))
              case Err(error) => all == (State(), Err(error))
    {
      SendRestStep(packets, State(), recipient, bundles, plaintext, conversation, supply, i);
      var packet := EncryptPacket(recipient, bundles[i], plaintext, conversation, supply + 2 * i, supply + 2 * i + 1);
      result := if packet.Ok? then Ok(packets + [packet.value]) else Err(packet.error);
    }

    /** Encrypts one payload for every bundle; stops at the first failure. */
    method SendAll(recipient: string, bundles: seq<Bundle>, plaintext: Payload, conversation: string, supply: nat)
      returns (result: Attempt<seq<Packet>>)
      requires Valid()
      modifies this
      ensures Valid()
      ensures (State(), result) == Envelopes.SendAll(old(State()), recipient, bundles, plaintext, conversation, supply)
    {
      var packets: seq<Packet> := [];
      ghost var all := Envelopes.SendAll(State(), recipient, bundles, plaintext, conversation, supply);
      SendRestStarts(State(), recipient, bundles, plaintext, conversation, supply);
      for i := 0 to |bundles|
        invariant Valid()
        invariant all == Prepend(packets, SendRest(State(), recipient, bundles, plaintext, conversation, supply, i))
      {
        var next := SendNext(packets, recipient, bundles, plaintext, conversation, supply, i, all);
        if next.Err? {
          return next;
        }
        packets := next.value;
      }
      SendRestEnds(packets, State(), recipient, bundles, plaintext, conversation, supply);
      return Ok(packets);
    }

    method SendToOne(recipient: string, answer: Directory, plaintext: Payload, conversation: string, supply: nat)
      returns (result: Attempt<seq<Packet>>)
      requires Valid()
      modifies this
      ensures Valid()
      ensures (State(), result) == Envelopes.SendToOne(old(State()), recipient, answer, plaintext, conversation, supply)
    {
      var bundles := BundlesFor(State(), recipient, answer);
      if bundles.Err? {
        return Err(bundles.error);
      }
      if bundles.value == [] {
        return Err(NoDevices);
      }
      result := SendAll(recipient, bundles.value, plaintext, conversation, supply);
    }

    /** Sends to member `i`: `all`, the outcome of the whole send, is now reached from the new state. */
    method SendNextMember(packets: seq<Packet>, recipients: seq<string>, directories: seq<Directory>,
                          plaintext: Payload, conversation: string, supply: nat, i: nat, ghost all: Sending)
      returns (result: Attempt<seq<Packet>>)
      requires Valid() && |directories| == |recipients| && i < |recipients|
      requires all == Prepend(packets, SendToRest(State(), recipients, directories, plaintext, conversation, supply, i))
      modifies this
      ensures Valid()
      ensures match result
              case Ok(more) =>
                all == Prepend(more, SendToRest(State(), recipients, directories, plaintext, conversation,
                                                supply + 2 * |directories[i].devices|, i + 1))
              case Err(error) => all == (State(), Err(error))
    {
      SendToRestStep(packets, State(), recipients, directories, plaintext, conversation, supply, i);
      var one := SendToOne(recipients[i], directories[i], plaintext, conversation, supply);
      result := if one.Ok? then Ok(packets + one.value) else one;
    }

    method SendToMembers(recipients: seq<string>, directories: seq<Directory>, plaintext: Payload,
                         conversation: string, supply: nat) returns (result: Attempt<seq<Packet>>)
      requires Valid() && |directories| == |recipients|
      modifies this
      ensures Valid()
      ensures (State(), result)
              == Envelopes.SendToMembers(old(State()), recipients, directories, plaintext, conversation, supply)
    {
      var packets: seq<Packet> := [];
      var next: nat := supply;
      ghost var all := Envelopes.SendToMembers(State(), recipients, directories, plaintext, conversation, supply);
      SendToRestStarts(State(), recipients, directories, plaintext, conversation, supply);
      for i := 0 to |recipients|
        invariant Valid()
        invariant all
                  == Prepend(packets, SendToRest(State(), recipients, directories, plaintext, conversation, next, i))
      {
        var more := SendNextMember(packets, recipients, directories, plaintext, conversation, next, i, all);
        if more.Err? {
          return more;
        }
        packets := more.value;
        next := next + 2 * |directories[i].devices|;
      }
      SendToRestEnds(packets, State(), recipients, directories, plaintext, conversation, next);
      return Ok(packets);
    }

    method EncryptGroup(conversation: Conversation, plaintext: Payload, recipients: seq<string>,
                        directories: seq<Directory>, supply: nat) returns (result: Attempt<(GroupSealed, seq<Packet>)>)
      requires Valid() && |directories| == |recipients|
      modifies this
      ensures Valid()
      ensures (State(), result)
              == Envelopes.EncryptGroup(old(State()), conversation, plaintext, recipients, directories, supply)
    {
      var membership := MembershipOf(conversation.members);
      var sender := SenderState(supply, membership, Random(supply + 1), 0);
      if conversation.id in groups && groups[conversation.id].membership == membership {
        sender := groups[conversation.id];
      }
      var header := GroupHeaderOf(conversation, device, sender);
      var sealed := GroupSealed(header, Cipher(Message(sender.chain), GroupAad(header), plaintext));
      var distribution := SenderKey(conversation.id, sender.epoch, membership, device.id, sender.counter,
                                    sender.chain);
      var packets := SendToMembers(recipients, directories, distribution, conversation.id, supply + 2);
      if packets.Err? {
        return Err(packets.error);
      }
      groups := groups[conversation.id := sender.(chain := Next(sender.chain), counter := sender.counter + 1)];
      return Ok((sealed, packets.value));
    }

    method EncryptConversation(conversation: Conversation, plaintext: Payload, directories: seq<Directory>, supply: nat)
      returns (result: Attempt<Envelope>)
      requires Valid() && |directories| == |Others(conversation.members, principal)|
      modifies this
      ensures Valid()
      ensures (State(), result)
              == Envelopes.EncryptConversation(old(State()), conversation, plaintext, directories, supply)
    {
      var deviceId, recipients := device.id, Others(conversation.members, principal);
      var own := SealSelf(State(), plaintext, conversation.id, supply + 2 + 2 * DeviceCount(directories));
      var packets: seq<Packet>, group: Option<GroupSealed> := [], None;
      if conversation.direct {
        var sent := SendToMembers(recipients, directories, plaintext, conversation.id, supply);
        if sent.Err? {
          return Err(sent.error);
        }
        packets := sent.value;
      } else {
        var sent := EncryptGroup(conversation, plaintext, recipients, directories, supply);
        if sent.Err? {
          return Err(sent.error);
        }
        packets, group := sent.value.1, Some(sent.value.0);
      }
      return Ok(Envelope(PROTOCOL, conversation.direct, conversation.id, principal, deviceId, packets, Some(own),
                         group));
    }

    method DecryptEnvelope(envelope: Envelope, sender: string, conversation: string, known: Option<Conversation>,
                           pair: nat) returns (result: Attempt<Payload>)
      requires Valid()
      modifies this
      ensures Valid()
      ensures (State(), result)
              == Envelopes.DecryptEnvelope(old(State()), envelope, sender, conversation, known, pair)
    {
      if envelope.protocol != PROTOCOL || envelope.conversation != conversation {
        return Err(EnvelopeBinding);
      }
      if !envelope.direct {
        if known.None? {
          return Err(MembershipUnknown);
        }
        if envelope.group.None? || MembershipOf(known.value.members) != envelope.group.value.header.membership {
          return Err(MembershipMismatch);
        }
      }
      if sender == principal && envelope.self.Some? && envelope.self.value.header.device == device.id {
        return OpenSelf(device, envelope.self.value);
      }
      var packet := FirstFor(envelope.packets, principal, device.id);
      if packet.None? {
        return Err(NoPacketForDevice);
      }
      var carried := DecryptPacket(sender, packet.value, conversation, pair);
      if carried.Err? {
        return Err(carried.error);
      }
      if envelope.direct {
        return if carried.value.Some? then Ok(carried.value.value) else Err(NoPacketForDevice);
      }
      return if carried.value.Some? then OpenGroup(envelope.group.value, conversation, carried.value.value)
             else Err(NotADistribution);
    }
  }
}
