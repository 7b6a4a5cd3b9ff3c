/** What becomes of prekeys: which bundles start a session, what the agreed secret is made of, and how a one-time prekey
is used up. */
module Prekeys {
  import opened Wrappers
  import opened Sequences
  import opened Keys
  import opened Ratchet
  import opened Secrecy
  import opened Transport

  // ---------------------------------------------------------------------------
  // Starting a session

  predicate IsSigned(bundle: Bundle) {
    bundle.signature == Signature(bundle.signing, bundle.signedPrekey)
  }

  predicate IsApproved(c: ClientState, bundle: Bundle) {
    Verified(c, LookedUp(bundle), Fingerprint(bundle.signing, bundle.identity))
  }

  /** A packet that has to start a session is made exactly from a bundle whose prekey is signed by its signing key, and
      whose keys are approved under the peer it names. */
  lemma StartIff(c: ClientState, target: string, bundle: Bundle, plaintext: Payload, conversation: string,
                 ephemeral: nat, pair: nat)
    requires Peer(target, bundle.deviceId) !in c.sessions
    ensures var started := EncryptPacket(c, target, bundle, plaintext, conversation, ephemeral, pair);
            && (started.Ok? <==> IsSigned(bundle) && IsApproved(c, bundle))
            && (!IsSigned(bundle) ==> started == Err(BadPrekeySignature))
            && (IsSigned(bundle) && !IsApproved(c, bundle) ==> started == Err(DeviceUnverified))
  {
  }

  /** A session that was started and not answered yet. */
  predicate IsUnanswered(x: Session) {
    x.ckr.None? && x.dhr.Some?
  }

  /** A call that brings this signature. */
  predicate Brings(call: Call, signature: Signature) {
    call.Send? && call.bundle.signature == signature
  }

  predicate Brought(calls: seq<Call>, signature: Signature) {
    exists i :: 0 <= i < |calls| && Brings(calls[i], signature)
  }

  /** The remote ratchet key of an unanswered session is a prekey under a signature, by the signing key that belongs to
      the session, which one of these calls brought. */
  predicate StartedSigned(x: Session, calls: seq<Call>) {
    IsUnanswered(x) ==> Brought(calls, Signature(x.peer.signing, x.dhr.value))
  }

  ghost predicate AllSigned(c: ClientState, calls: seq<Call>) {
    forall peer :: peer in c.sessions ==> StartedSigned(c.sessions[peer], calls)
  }

  lemma MoreCallsBring(first: seq<Call>, call: Call, signature: Signature)
    requires Brought(first, signature) || Brings(call, signature)
    ensures Brought(first + [call], signature)
  {
    if Brought(first, signature) {
      var i :| 0 <= i < |first| && Brings(first[i], signature);
      assert Brings((first + [call])[i], signature);
    } else {
      assert Brings((first + [call])[|first|], signature);
    }
  }

  lemma SendKeepsSigned(c: ClientState, call: Call, calls: seq<Call>)
    requires AllSigned(c, calls) && call.Send?
    ensures AllSigned(Perform(c, call), calls + [call])
  {
    var d, target := Perform(c, call), Peer(call.target, call.bundle.deviceId);
    forall peer | peer in d.sessions && IsUnanswered(d.sessions[peer])
      ensures Brought(calls + [call], Signature(d.sessions[peer].peer.signing, d.sessions[peer].dhr.value))
    {
      if peer in c.sessions {
        assert StartedSigned(c.sessions[peer], calls);
      }
      MoreCallsBring(calls, call, Signature(d.sessions[peer].peer.signing, d.sessions[peer].dhr.value));
    }
  }

  lemma AnsweredStays(x: Session, sealed: Sealed, base: Base, pair: nat)
    requires x.Decrypt(sealed, base, pair).Ok?
    ensures var y := x.Decrypt(sealed, base, pair).value.0;
            IsUnanswered(y) ==> IsUnanswered(x) && y.dhr == x.dhr && y.peer == x.peer
  {
  }

  lemma OthersKeepSigned(c: ClientState, d: ClientState, call: Call, calls: seq<Call>)
    requires AllSigned(c, calls)
    requires forall peer :: peer in d.sessions && IsUnanswered(d.sessions[peer]) ==>
               peer in c.sessions && IsUnanswered(c.sessions[peer])
               && c.sessions[peer].dhr == d.sessions[peer].dhr && c.sessions[peer].peer == d.sessions[peer].peer
    ensures AllSigned(d, calls + [call])
  {
    forall peer | peer in d.sessions && IsUnanswered(d.sessions[peer])
      ensures Brought(calls + [call], Signature(d.sessions[peer].peer.signing, d.sessions[peer].dhr.value))
    {
      assert StartedSigned(c.sessions[peer], calls);
      MoreCallsBring(calls, call, Signature(d.sessions[peer].peer.signing, d.sessions[peer].dhr.value));
    }
  }

  lemma {:induction false} VerifyOnlyDrops(c: ClientState, principal: string, devices: seq<DirectoryDevice>,
                                           approve: Approval, peer: Peer)
    ensures var d := VerifyDevices(c, principal, devices, approve).0;
            && d.device == c.device
            && (peer in d.sessions ==> peer in c.sessions && d.sessions[peer] == c.sessions[peer])
    decreases |devices|
  {
    if devices == [] {
    } else {
      var first, fingerprint := Peer(principal, devices[0].id), devices[0].KeyFingerprint();
      VerifyOnlyDrops(c, principal, devices[1..], approve, peer);
      VerifyOnlyDrops(Approve(c, first, fingerprint), principal, devices[1..], approve, peer);
    }
  }

  /** A session that answers a prekey packet has a receiving chain. */
  lemma NewIsAnswered(c: ClientState, sender: string, packet: Packet, conversation: string, pair: nat)
    requires DecryptPacket(c, sender, packet, conversation, pair).1.Ok?
    requires DecryptPacket(c, sender, packet, conversation, pair).1.value.Some?
    requires Peer(sender, packet.senderDevice) !in c.sessions
    ensures var d := DecryptPacket(c, sender, packet, conversation, pair).0;
            Peer(sender, packet.senderDevice) in d.sessions
            && !IsUnanswered(d.sessions[Peer(sender, packet.senderDevice)])
  {
  }

  lemma ReceiveKeepsSigned(c: ClientState, call: Call, calls: seq<Call>)
    requires AllSigned(c, calls) && call.Receive?
    ensures AllSigned(Perform(c, call), calls + [call])
  {
    var d, result := DecryptPacket(c, call.sender, call.packet, call.conversation, call.pair).0,
                     DecryptPacket(c, call.sender, call.packet, call.conversation, call.pair).1;
    if result.Ok? && result.value.Some? {
      var before, base := AcceptedSession(c, call.sender, call.packet, call.conversation, call.pair);
      AnsweredStays(before, call.packet.ratchet, base, call.pair);
      if Peer(call.sender, call.packet.senderDevice) !in c.sessions {
        NewIsAnswered(c, call.sender, call.packet, call.conversation, call.pair);
      }
    }
    OthersKeepSigned(c, d, call, calls);
  }

  lemma CallKeepsSigned(c: ClientState, call: Call, calls: seq<Call>)
    requires AllSigned(c, calls)
    ensures AllSigned(Perform(c, call), calls + [call])
  {
    if call.Send? {
      SendKeepsSigned(c, call, calls);
    } else if call.Receive? {
      ReceiveKeepsSigned(c, call, calls);
    } else {
      forall peer | peer in Perform(c, call).sessions
        ensures peer in c.sessions && Perform(c, call).sessions[peer] == c.sessions[peer]
      {
        VerifyOnlyDrops(c, call.principal, call.devices, call.approve, peer);
      }
      OthersKeepSigned(c, Perform(c, call), call, calls);
    }
  }

  /** In every run from a client without sessions, each session that is not answered yet stands on a prekey signed by
      the signing key of its peer. */
  lemma {:induction false} UnansweredAreSigned(c: ClientState, calls: seq<Call>)
    requires c.sessions == map[]
    ensures AllSigned(PerformAll(c, calls), calls)
    decreases |calls|
  {
    if calls == [] {
    } else {
      var front, last := calls[..|calls| - 1], calls[|calls| - 1];
      UnansweredAreSigned(c, front);
      CallKeepsSigned(PerformAll(c, front), last, front);
      FrontAndLast(calls);
    }
  }

  // ---------------------------------------------------------------------------
  // The agreed secret

  predicate Knows(network: set<nat>, a: nat, b: nat) {
    a in network || b in network
  }

  /** The secret can be derived exactly by whoever holds a private key of each of its three or four agreements: the
      sender's identity with the signed prekey, and the ephemeral key with the identity, the signed prekey and, if there
      is one, the one-time prekey. */
  lemma SecretIsDerivableIff(network: set<nat>, c: ClientState, bundle: Bundle, ephemeral: nat)
    requires X3dhSender(c, bundle, ephemeral).Ok?
    ensures Derivable(network, X3dhSender(c, bundle, ephemeral).value.0)
            <==> && Knows(network, c.device.identity, bundle.signedPrekey)
                 && Knows(network, ephemeral, bundle.identity)
                 && Knows(network, ephemeral, bundle.signedPrekey)
                 && (bundle.oneTime.Some? ==> Knows(network, ephemeral, bundle.oneTime.value))
  {
    var parts := X3dhSender(c, bundle, ephemeral).value.0.parts;
    SharedIsSecret(network, c.device.identity, bundle.signedPrekey);
    SharedIsSecret(network, ephemeral, bundle.identity);
    SharedIsSecret(network, ephemeral, bundle.signedPrekey);
    if bundle.oneTime.Some? {
      SharedIsSecret(network, ephemeral, bundle.oneTime.value);
      assert parts[3] == SharedSecret(ephemeral, bundle.oneTime.value);
    }
    assert parts[0] == SharedSecret(c.device.identity, bundle.signedPrekey);
    assert parts[1] == SharedSecret(ephemeral, bundle.identity);
    assert parts[2] == SharedSecret(ephemeral, bundle.signedPrekey);
    assert |parts| == if bundle.oneTime.Some? then 4 else 3;
  }

  // ---------------------------------------------------------------------------
  // One-time prekeys

  /** `key` belongs to the first prekey with this id. */
  predicate IsFirst(prekeys: seq<OneTime>, id: int, key: nat, i: nat) {
    i < |prekeys| && prekeys[i] == OneTime(id, key) && forall j :: 0 <= j < i ==> prekeys[j].id != id
  }

  predicate Has(prekeys: seq<OneTime>, id: int) {
    exists i :: 0 <= i < |prekeys| && prekeys[i].id == id
  }

  lemma {:induction false} FindsFirst(prekeys: seq<OneTime>, id: int) returns (i: nat)
    ensures FindOneTime(prekeys, id).Some? <==> Has(prekeys, id)
    ensures FindOneTime(prekeys, id).Some? ==> IsFirst(prekeys, id, FindOneTime(prekeys, id).value, i)
  {
    i := 0;
    if prekeys == [] {
    } else if prekeys[0].id == id {
    } else {
      var later := FindsFirst(prekeys[1..], id);
      i := later + 1;
      if Has(prekeys, id) {
        var j :| 0 <= j < |prekeys| && prekeys[j].id == id;
        assert prekeys[1..][j - 1].id == id;
      }
      if Has(prekeys[1..], id) {
        var j :| 0 <= j < |prekeys| - 1 && prekeys[1..][j].id == id;
        assert prekeys[j + 1].id == id;
      }
    }
  }

  /** The same prekeys in the same order, except those with this id. */
  ghost predicate IsWithout(part: seq<OneTime>, whole: seq<OneTime>, id: int) {
    && (forall o :: o in part <==> o in whole && o.id != id)
    && multiset(part) <= multiset(whole)
    && exists at: seq<nat> :: IsSelection(part, whole, at)
  }

  lemma {:induction false} RemovalSelects(prekeys: seq<OneTime>, id: int) returns (at: seq<nat>)
    ensures IsSelection(WithoutOneTime(prekeys, id), prekeys, at)
  {
    if prekeys == [] {
      at := [];
    } else {
      var rest := RemovalSelects(prekeys[1..], id);
      SelectionLater(WithoutOneTime(prekeys[1..], id), prekeys, rest);
      AppendNothing(WithoutOneTime(prekeys[1..], id));
      at := if prekeys[0].id == id then Shifted(rest) else [0] + Shifted(rest);
    }
  }

  lemma {:induction false} RemovalCounts(prekeys: seq<OneTime>, id: int, o: OneTime)
    ensures multiset(WithoutOneTime(prekeys, id))[o] == if o.id == id then 0 else multiset(prekeys)[o]
  {
    if prekeys == [] {
    } else {
      RemovalCounts(prekeys[1..], id, o);
      HeadAndTail(prekeys);
    }
  }

  lemma RemovesExactly(prekeys: seq<OneTime>, id: int)
    ensures IsWithout(WithoutOneTime(prekeys, id), prekeys, id)
    ensures !Has(WithoutOneTime(prekeys, id), id)
  {
    var after := WithoutOneTime(prekeys, id);
    forall o: OneTime ensures multiset(after)[o] == if o.id == id then 0 else multiset(prekeys)[o] {
      RemovalCounts(prekeys, id, o);
    }
    forall o: OneTime ensures o in after <==> o in prekeys && o.id != id {
      assert o in after <==> o in multiset(after);
      assert o in prekeys <==> o in multiset(prekeys);
    }
    var at := RemovalSelects(prekeys, id);
    assert IsSelection(after, prekeys, at);
  }

  /** An answered prekey uses up exactly the one-time prekeys with the id it names, and nothing else of the device. */
  lemma AnswerUsesPrekey(device: Device, prekey: Prekey)
    requires X3dhReceiver(device, prekey).Ok?
    ensures var after := X3dhReceiver(device, prekey).value.0;
            && after.(oneTime := device.oneTime) == device
            && (prekey.oneTimeId.None? ==> after == device)
            && (prekey.oneTimeId.Some? ==>
                  && Has(device.oneTime, prekey.oneTimeId.value) && !Has(after.oneTime, prekey.oneTimeId.value)
                  && IsWithout(after.oneTime, device.oneTime, prekey.oneTimeId.value))
  {
    if prekey.oneTimeId.Some? {
      RemovesExactly(device.oneTime, prekey.oneTimeId.value);
      var i := FindsFirst(device.oneTime, prekey.oneTimeId.value);
    }
  }

  /** A prekey is answered exactly when the device still has the signed prekey and the one-time prekey it names. */
  lemma AnswersIff(device: Device, prekey: Prekey)
    ensures var answer := X3dhReceiver(device, prekey);
            if prekey.signedPrekeyId != device.signedPrekeyId then answer == Err(UnknownSignedPrekey)
            else if prekey.oneTimeId.Some? && !Has(device.oneTime, prekey.oneTimeId.value)
            then answer == Err(UnknownOneTimePrekey)
            else answer.Ok?
  {
    if prekey.oneTimeId.Some? {
      var i := FindsFirst(device.oneTime, prekey.oneTimeId.value);
    }
  }

  // ---------------------------------------------------------------------------
  // At most one use

  predicate NoMore(before: seq<OneTime>, after: seq<OneTime>) {
    forall o :: o in after ==> o in before
  }

  lemma AnswerMakesNoPrekeys(device: Device, prekey: Prekey)
    requires X3dhReceiver(device, prekey).Ok?
    ensures NoMore(device.oneTime, X3dhReceiver(device, prekey).value.0.oneTime)
  {
    if prekey.oneTimeId.Some? {
      RemovesExactly(device.oneTime, prekey.oneTimeId.value);
    }
  }

  /** Receiving leaves the device alone, or leaves what answering the prekey leaves. */
  lemma DeviceAfter(c: ClientState, sender: string, packet: Packet, conversation: string, pair: nat)
    ensures var d := DecryptPacket(c, sender, packet, conversation, pair).0;
            d.device == c.device
            || (packet.prekey.Some? && X3dhReceiver(c.device, packet.prekey.value).Ok?
                && d.device == X3dhReceiver(c.device, packet.prekey.value).value.0)
  {
  }

  lemma ReceiveMakesNoPrekeys(c: ClientState, sender: string, packet: Packet, conversation: string, pair: nat)
    ensures NoMore(c.device.oneTime, DecryptPacket(c, sender, packet, conversation, pair).0.device.oneTime)
  {
    DeviceAfter(c, sender, packet, conversation, pair);
    if packet.prekey.Some? && X3dhReceiver(c.device, packet.prekey.value).Ok? {
      AnswerMakesNoPrekeys(c.device, packet.prekey.value);
    }
  }

  lemma CallMakesNoPrekeys(c: ClientState, call: Call)
    ensures NoMore(c.device.oneTime, Perform(c, call).device.oneTime)
  {
    match call
    case Verify(principal, devices, approve) => VerifyOnlyDrops(c, principal, devices, approve, Peer("", ""));
    case Send(_, _, _, _, _, _) =>
    case Receive(sender, packet, conversation, pair) =>
      ReceiveMakesNoPrekeys(c, sender, packet, conversation, pair);
  }

  lemma {:induction false} RunMakesNoPrekeys(c: ClientState, calls: seq<Call>)
    ensures NoMore(c.device.oneTime, PerformAll(c, calls).device.oneTime)
    decreases |calls|
  {
    if calls == [] {
    } else {
      RunMakesNoPrekeys(c, calls[..|calls| - 1]);
      CallMakesNoPrekeys(PerformAll(c, calls[..|calls| - 1]), calls[|calls| - 1]);
    }
  }

  /** A packet that starts a session with a one-time prekey. */
  predicate UsesPrekey(c: ClientState, sender: string, packet: Packet, id: int) {
    && packet.recipient == c.principal && packet.recipientDevice == c.device.id
    && Peer(sender, packet.senderDevice) !in c.sessions
    && packet.prekey.Some? && packet.prekey.value.oneTimeId == Some(id)
    && packet.prekey.value.signedPrekeyId == c.device.signedPrekeyId
    && Verified(c, Peer(sender, packet.senderDevice),
                Fingerprint(packet.prekey.value.senderSigning, packet.prekey.value.senderIdentity))
  }

  lemma UseTakesPrekey(c: ClientState, sender: string, packet: Packet, conversation: string, pair: nat, id: int)
    requires UsesPrekey(c, sender, packet, id)
    ensures !Has(DecryptPacket(c, sender, packet, conversation, pair).0.device.oneTime, id)
    ensures !Has(c.device.oneTime, id) ==>
              DecryptPacket(c, sender, packet, conversation, pair) == (c, Err(UnknownOneTimePrekey))
  {
    AnswersIff(c.device, packet.prekey.value);
    if X3dhReceiver(c.device, packet.prekey.value).Ok? {
      AnswerUsesPrekey(c.device, packet.prekey.value);
    }
  }

  lemma WasThere(before: seq<OneTime>, after: seq<OneTime>, id: int)
    requires NoMore(before, after) && Has(after, id)
    ensures Has(before, id)
  {
    var i :| 0 <= i < |after| && after[i].id == id;
    assert after[i] in before;
    var j :| 0 <= j < |before| && before[j] == after[i];
  }

  /** Once a packet has used a one-time prekey, whether or not it opened, every later packet that would start a session
      with it is refused and changes nothing. */
  lemma PrekeyServesOnce(c: ClientState, sender: string, packet: Packet, conversation: string, pair: nat, id: int,
                         later: seq<Call>, other: string, second: Packet, elsewhere: string, next: nat)
    requires UsesPrekey(c, sender, packet, id)
    requires var d := PerformAll(DecryptPacket(c, sender, packet, conversation, pair).0, later);
             UsesPrekey(d, other, second, id)
    ensures var d := PerformAll(DecryptPacket(c, sender, packet, conversation, pair).0, later);
            DecryptPacket(d, other, second, elsewhere, next) == (d, Err(UnknownOneTimePrekey))
  {
    var after := DecryptPacket(c, sender, packet, conversation, pair).0;
    UseTakesPrekey(c, sender, packet, conversation, pair, id);
    RunMakesNoPrekeys(after, later);
    if Has(PerformAll(after, later).device.oneTime, id) {
      WasThere(after.device.oneTime, PerformAll(after, later).device.oneTime, id);
    }
    UseTakesPrekey(PerformAll(after, later), other, second, elsewhere, next, id);
  }

  /** A packet is passed over exactly when it is addressed to somebody else, and then costs nothing; one without session
      and prekey, or with a prekey of a device that is not approved, costs nothing either. */
  lemma PassedOverIff(c: ClientState, sender: string, packet: Packet, conversation: string, pair: nat)
    ensures var (d, result) := DecryptPacket(c, sender, packet, conversation, pair);
            && (result == Ok(None)
                <==> Peer(packet.recipient, packet.recipientDevice) != Peer(c.principal, c.device.id))
            && (result == Ok(None) ==> d == c)
            && (result != Ok(None) && Peer(sender, packet.senderDevice) !in c.sessions ==>
                  && (packet.prekey.None? ==> d == c && result == Err(NoSessionNoPrekey))
                  && (packet.prekey.Some?
                      && !Verified(c, Peer(sender, packet.senderDevice),
                                   Fingerprint(packet.prekey.value.senderSigning, packet.prekey.value.senderIdentity))
                      ==> d == c && result == Err(DeviceUnverified)))
  {
  }
}
