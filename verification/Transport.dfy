/** One client's view of the pairwise transport: key agreement, approvals and the stored sessions.

`ClientState` is what the browser keeps in IndexedDB; each function is one exported call, as a value. Fresh key
pairs and the answers of the server are arguments. */
module Transport {
  import opened Wrappers
  import opened Keys
  import opened Ratchet

  datatype OneTime = OneTime(id: int, key: nat)

  /** Private keys are ids; the public half of a key goes by the same id. */
  datatype Device = Device(id: string, signing: nat, identity: nat, signedPrekeyId: int, signedPrekey: nat,
                           oneTime: seq<OneTime>)

  datatype Signature = Signature(signer: nat, signed: nat)

  /** `id` is a field that bundles need not have; where there is one, approvals are looked up under it. */
  datatype Bundle = Bundle(principal: string, id: Option<string>, deviceId: string, signing: nat, identity: nat,
                           signedPrekeyId: int, signedPrekey: nat, signature: Signature,
                           oneTimeId: Option<int>, oneTime: Option<nat>)

  datatype Prekey = Prekey(senderIdentity: nat, senderSigning: nat, ephemeral: nat,
                           signedPrekeyId: int, oneTimeId: Option<int>)

  datatype Packet = Packet(recipient: string, recipientDevice: string, senderDevice: string,
                           prekey: Option<Prekey>, ratchet: Sealed)

  datatype Peer = Peer(principal: string, device: string)

  /** The sending chain of one conversation, as `Group` uses it. */
  datatype SenderState = SenderState(epoch: nat, membership: string, chain: Key, counter: nat)

  datatype ClientState = ClientState(principal: string, device: Device, sessions: map<Peer, Session>,
                                     verified: map<Peer, Fingerprint>, groups: map<string, SenderState>)
  {
    /** Every stored session belongs to the device key that the user approved for that peer. */
    ghost predicate Approved() {
      forall peer :: peer in sessions ==> peer in verified && sessions[peer].peer == verified[peer]
    }

    /** Every stored record is one that a call may work on. */
    ghost predicate Valid() {
      forall peer :: peer in sessions ==> sessions[peer].Valid()
    }
  }

  predicate Verified(c: ClientState, peer: Peer, fingerprint: Fingerprint) {
    peer in c.verified && c.verified[peer] == fingerprint
  }

  // ---------------------------------------------------------------------------
  // X3DH

  function FindOneTime(prekeys: seq<OneTime>, id: int): Option<nat> {
    if prekeys == [] then None
    else if prekeys[0].id == id then Some(prekeys[0].key)
    else FindOneTime(prekeys[1..], id)
  }

  function WithoutOneTime(prekeys: seq<OneTime>, id: int): seq<OneTime> {
    if prekeys == [] then []
    else (if prekeys[0].id == id then [] else [prekeys[0]]) + WithoutOneTime(prekeys[1..], id)
  }

  /** The peer whose approval a bundle is compared with: the principal it names, and its `id` unless that is missing or
      empty. */
  function LookedUp(bundle: Bundle): Peer {
    Peer(bundle.principal, if bundle.id.Some? && bundle.id.value != "" then bundle.id.value else bundle.deviceId)
  }

  function X3dhSender(c: ClientState, bundle: Bundle, ephemeral: nat): Attempt<(Key, Prekey)> {
    if bundle.signature != Signature(bundle.signing, bundle.signedPrekey) then Err(BadPrekeySignature)
    else if !Verified(c, LookedUp(bundle), Fingerprint(bundle.signing, bundle.identity)) then
      Err(DeviceUnverified)
    else
      var parts := [SharedSecret(c.device.identity, bundle.signedPrekey),
                    SharedSecret(ephemeral, bundle.identity),
                    SharedSecret(ephemeral, bundle.signedPrekey)]
                   + (if bundle.oneTime.Some? then [SharedSecret(ephemeral, bundle.oneTime.value)] else []);
      Ok((Agreed(parts), Prekey(c.device.identity, c.device.signing, ephemeral,
                                bundle.signedPrekeyId, bundle.oneTimeId)))
  }

  /** The agreed secret, and the device without the one-time prekey that it used up. */
  function X3dhReceiver(device: Device, prekey: Prekey): Attempt<(Device, Key)> {
    if device.signedPrekeyId != prekey.signedPrekeyId then Err(UnknownSignedPrekey)
    else
      var parts := [SharedSecret(device.signedPrekey, prekey.senderIdentity),
                    SharedSecret(device.identity, prekey.ephemeral),
                    SharedSecret(device.signedPrekey, prekey.ephemeral)];
      if prekey.oneTimeId.None? then Ok((device, Agreed(parts)))
      else
        var found := FindOneTime(device.oneTime, prekey.oneTimeId.value);
        if found.None? then Err(UnknownOneTimePrekey)
        else Ok((device.(oneTime := WithoutOneTime(device.oneTime, prekey.oneTimeId.value)),
                 Agreed(parts + [SharedSecret(found.value, prekey.ephemeral)])))
  }

  /** The bundle shows the keys that this device still holds. */
  predicate Describes(bundle: Bundle, device: Device) {
    && bundle.signedPrekeyId == device.signedPrekeyId
    && bundle.signedPrekey == device.signedPrekey
    && bundle.identity == device.identity
    && (bundle.oneTimeId.Some? <==> bundle.oneTime.Some?)
    && (bundle.oneTimeId.Some? ==> FindOneTime(device.oneTime, bundle.oneTimeId.value) == bundle.oneTime)
  }

  lemma SharedSecretInjective(a: nat, b: nat, c: nat)
    ensures SharedSecret(a, b) == SharedSecret(c, a) <==> b == c
  {
  }

  /** Both sides derive the same secret exactly from bundles that describe the receiving device. */
  lemma AgreementIffDescribed(c: ClientState, bundle: Bundle, ephemeral: nat, device: Device)
    requires X3dhSender(c, bundle, ephemeral).Ok?
    ensures var (secret, prekey) := X3dhSender(c, bundle, ephemeral).value;
            var received := X3dhReceiver(device, prekey);
            received.Ok? && received.value.1 == secret <==> Describes(bundle, device)
  {
    var (secret, prekey) := X3dhSender(c, bundle, ephemeral).value;
    SharedSecretInjective(c.device.identity, bundle.signedPrekey, device.signedPrekey);
    SharedSecretInjective(ephemeral, bundle.identity, device.identity);
    SharedSecretInjective(ephemeral, bundle.signedPrekey, device.signedPrekey);
    var received := X3dhReceiver(device, prekey);
    if received.Ok? {
      var mine, theirs := secret.parts, received.value.1.parts;
      if bundle.oneTime.Some? && bundle.oneTimeId.Some? {
        var found := FindOneTime(device.oneTime, bundle.oneTimeId.value);
        SharedSecretInjective(ephemeral, bundle.oneTime.value, found.value);
        assert mine[3] == SharedSecret(ephemeral, bundle.oneTime.value);
        assert theirs[3] == SharedSecret(found.value, ephemeral);
      }
      assert mine[0] == SharedSecret(c.device.identity, bundle.signedPrekey);
      assert theirs[0] == SharedSecret(device.signedPrekey, c.device.identity);
      assert mine[1] == SharedSecret(ephemeral, bundle.identity);
      assert theirs[1] == SharedSecret(device.identity, ephemeral);
      if Describes(bundle, device) {
        assert mine == theirs;
      } else {
        assert mine != theirs;
      }
    }
  }

  // ---------------------------------------------------------------------------
  // Pairwise packets

  function InitiatorSession(secret: Key, bundle: Bundle, pair: nat): Session {
    var output := SharedSecret(pair, bundle.signedPrekey);
    Session(Root(secret, output), Some(Chain(secret, output)), None, pair, Some(bundle.signedPrekey),
            0, 0, 0, map[], Fingerprint(bundle.signing, bundle.identity))
  }

  function ResponderSession(secret: Key, device: Device, prekey: Prekey): Session {
    Session(secret, None, None, device.signedPrekey, None, 0, 0, 0, map[],
            Fingerprint(prekey.senderSigning, prekey.senderIdentity))
  }

  function EncryptPacket(c: ClientState, target: string, bundle: Bundle, plaintext: Payload, conversation: string,
                         ephemeral: nat, pair: nat): Attempt<(ClientState, Packet)>
  {
    var peer := Peer(target, bundle.deviceId);
    var base := Base(conversation, c.principal, c.device.id, target, bundle.deviceId);
    var (session, prekey) :-
      if peer in c.sessions then Ok((c.sessions[peer], None))
      else
        var (secret, prekey) :- X3dhSender(c, bundle, ephemeral);
        Ok((InitiatorSession(secret, bundle, pair), Some(prekey)));
    var (after, sealed) :- session.Encrypt(plaintext, base);
    Ok((c.(sessions := c.sessions[peer := after]), Packet(target, bundle.deviceId, c.device.id, prekey, sealed)))
  }

  /** The session a prekey packet asks for; only its one-time prekey can be used up by asking. */
  function Respond(c: ClientState, sender: string, packet: Packet): (ClientState, Attempt<Session>) {
    if packet.prekey.None? then (c, Err(NoSessionNoPrekey))
    else
      var prekey := packet.prekey.value;
      if !Verified(c, Peer(sender, packet.senderDevice), Fingerprint(prekey.senderSigning, prekey.senderIdentity)) then
        (c, Err(DeviceUnverified))
      else
        match X3dhReceiver(c.device, prekey)
        case Err(error) => (c, Err(error))
        case Ok((device, secret)) => (c.(device := device), Ok(ResponderSession(secret, device, prekey)))
  }

  function DecryptPacket(c: ClientState, sender: string, packet: Packet, conversation: string, pair: nat)
    : (ClientState, Attempt<Option<Payload>>)
  {
    if packet.recipient != c.principal || packet.recipientDevice != c.device.id then (c, Ok(None))
    else
      var peer := Peer(sender, packet.senderDevice);
      var base := Base(conversation, sender, packet.senderDevice, c.principal, c.device.id);
      var (d, session) := if peer in c.sessions then (c, Ok(c.sessions[peer])) else Respond(c, sender, packet);
      if session.Err? then (d, Err(session.error))
      else
        match session.value.Decrypt(packet.ratchet, base, pair)
        case Err(error) => (d, Err(error))
        case Ok((after, plaintext)) => (d.(sessions := d.sessions[peer := after]), Ok(Some(plaintext)))
  }

  /** A refused packet changes no session and no approval; it can only cost one one-time prekey, and that only
      while there is no session for its sender. */
  lemma FailureIsAtomic(c: ClientState, sender: string, packet: Packet, conversation: string, pair: nat)
    requires DecryptPacket(c, sender, packet, conversation, pair).1.Err?
    ensures var d := DecryptPacket(c, sender, packet, conversation, pair).0;
            d == c || (&& Peer(sender, packet.senderDevice) !in c.sessions
                       && packet.prekey.Some? && packet.prekey.value.oneTimeId.Some?
                       && FindOneTime(c.device.oneTime, packet.prekey.value.oneTimeId.value).Some?
                       && d == c.(device := c.device.(oneTime :=
                            WithoutOneTime(c.device.oneTime, packet.prekey.value.oneTimeId.value))))
  {
  }

  /** An accepted packet touches only the session of its sender, which takes one step of the ratchet. */
  lemma AcceptedSession(c: ClientState, sender: string, packet: Packet, conversation: string, pair: nat)
    returns (before: Session, base: Base)
    requires DecryptPacket(c, sender, packet, conversation, pair).1.Ok?
    requires DecryptPacket(c, sender, packet, conversation, pair).1.value.Some?
    ensures var (d, result) := DecryptPacket(c, sender, packet, conversation, pair);
            var peer := Peer(sender, packet.senderDevice);
            && base == Base(conversation, sender, packet.senderDevice, c.principal, c.device.id)
            && (if peer in c.sessions then before == c.sessions[peer] else before.skipped == map[])
            && d.verified == c.verified && d.groups == c.groups && d.principal == c.principal
            && var after := before.Decrypt(packet.ratchet, base, pair);
               after.Ok? && d.sessions == c.sessions[peer := after.value.0] && result.value == Some(after.value.1)
  {
    var peer := Peer(sender, packet.senderDevice);
    before := if peer in c.sessions then c.sessions[peer] else Respond(c, sender, packet).1.value;
    base := Base(conversation, sender, packet.senderDevice, c.principal, c.device.id);
  }

  /** An accepted packet was sealed for this binding, and leaves at most two gaps of new skipped keys. */
  lemma AcceptanceIsLocal(c: ClientState, sender: string, packet: Packet, conversation: string, pair: nat)
    requires DecryptPacket(c, sender, packet, conversation, pair).1.Ok?
    requires DecryptPacket(c, sender, packet, conversation, pair).1.value.Some?
    ensures var (d, result) := DecryptPacket(c, sender, packet, conversation, pair);
            var peer := Peer(sender, packet.senderDevice);
            && d.verified == c.verified && d.groups == c.groups && d.principal == c.principal
            && d.sessions - {peer} == c.sessions - {peer} && peer in d.sessions
            && result.value.value == packet.ratchet.cipher.plaintext
            && packet.ratchet.cipher.aad == PacketAad(Base(conversation, sender, packet.senderDevice,
                                                           c.principal, c.device.id), packet.ratchet.header)
            && |d.sessions[peer].skipped|
               <= (if peer in c.sessions then |c.sessions[peer].skipped| else 0) + 2 * MAX_SKIP
  {
    var before, base := AcceptedSession(c, sender, packet, conversation, pair);
    DecryptIsBound(before, packet.ratchet, base, pair);
    DecryptGrowth(before, packet.ratchet, base, pair);
  }

  // ---------------------------------------------------------------------------
  // Approvals

  datatype DirectoryDevice = DirectoryDevice(id: string, signing: nat, identity: nat,
                                             signedPrekeyId: int, signedPrekey: nat, signature: Signature)
  {
    function KeyFingerprint(): Fingerprint {
      Fingerprint(signing, identity)
    }
  }

  /** The user's answer to a device fingerprint: principal, device id, fingerprint, and whether one was approved. */
  type Approval = (string, string, Fingerprint, bool) -> bool

  function Approve(c: ClientState, peer: Peer, fingerprint: Fingerprint): ClientState {
    c.(verified := c.verified[peer := fingerprint], sessions := c.sessions - {peer})
  }

  function VerifyDevices(c: ClientState, principal: string, devices: seq<DirectoryDevice>, approve: Approval)
    : (ClientState, Attempt<()>)
    decreases |devices|
  {
    if devices == [] then (c, Ok(()))
    else
      var peer, fingerprint := Peer(principal, devices[0].id), devices[0].KeyFingerprint();
      if Verified(c, peer, fingerprint) then VerifyDevices(c, principal, devices[1..], approve)
      else if !approve(principal, devices[0].id, fingerprint, peer in c.verified) then (c, Err(ApprovalRefused))
      else VerifyDevices(Approve(c, peer, fingerprint), principal, devices[1..], approve)
  }

  function VerifyPrincipal(c: ClientState, principal: string, devices: seq<DirectoryDevice>, approve: Approval)
    : (ClientState, Attempt<nat>)
  {
    if devices == [] then (c, Err(NoDevices))
    else
      match VerifyDevices(c, principal, devices, approve)
      case (d, Ok(_)) => (d, Ok(|devices|))
      case (d, Err(error)) => (d, Err(error))
  }

  lemma {:induction false} VerifyKeepsApproved(c: ClientState, principal: string, devices: seq<DirectoryDevice>,
                                               approve: Approval)
    requires c.Approved()
    ensures VerifyDevices(c, principal, devices, approve).0.Approved()
    decreases |devices|
  {
    if devices == [] {
    } else {
      var peer, fingerprint := Peer(principal, devices[0].id), devices[0].KeyFingerprint();
      if Verified(c, peer, fingerprint) {
        VerifyKeepsApproved(c, principal, devices[1..], approve);
      } else if approve(principal, devices[0].id, fingerprint, peer in c.verified) {
        VerifyKeepsApproved(Approve(c, peer, fingerprint), principal, devices[1..], approve);
      }
    }
  }

  /** The fingerprint that a directory shows last for a device id. */
  function Listed(devices: seq<DirectoryDevice>, id: string): Option<Fingerprint> {
    if devices == [] then None
    else if Listed(devices[1..], id).Some? then Listed(devices[1..], id)
    else if devices[0].id == id then Some(devices[0].KeyFingerprint())
    else None
  }

  /** Whatever a directory shows for this peer is already approved. */
  predicate NothingNew(c: ClientState, devices: seq<DirectoryDevice>, peer: Peer) {
    forall i :: 0 <= i < |devices| && devices[i].id == peer.device ==> Verified(c, peer, devices[i].KeyFingerprint())
  }

  predicate SameAt<V(==)>(m: map<Peer, V>, n: map<Peer, V>, peer: Peer) {
    (peer in m <==> peer in n) && (peer in m ==> m[peer] == n[peer])
  }

  lemma NothingNewStep(c: ClientState, devices: seq<DirectoryDevice>, peer: Peer)
    requires devices != []
    ensures NothingNew(c, devices, peer)
            <==> (devices[0].id == peer.device ==> Verified(c, peer, devices[0].KeyFingerprint()))
                 && NothingNew(c, devices[1..], peer)
  {
    if NothingNew(c, devices, peer) {
      forall i | 0 <= i < |devices| - 1 && devices[1..][i].id == peer.device
        ensures Verified(c, peer, devices[1..][i].KeyFingerprint())
      {
        assert devices[1..][i] == devices[i + 1];
      }
    } else {
      var i :| 0 <= i < |devices| && devices[i].id == peer.device && !Verified(c, peer, devices[i].KeyFingerprint());
      assert i > 0 ==> devices[i] == devices[1..][i - 1];
    }
  }

  lemma {:induction false} UnlistedIsNotNew(c: ClientState, devices: seq<DirectoryDevice>, peer: Peer)
    ensures Listed(devices, peer.device).None? ==> NothingNew(c, devices, peer)
  {
    if devices == [] {
    } else {
      UnlistedIsNotNew(c, devices[1..], peer);
      NothingNewStep(c, devices, peer);
    }
  }

  /** A completed verification approves the keys listed last, drops the sessions of those peers for whom a key was
      new, and leaves every other peer alone. */
  lemma {:induction false} VerifyDropsChanged(c: ClientState, principal: string, devices: seq<DirectoryDevice>,
                                              approve: Approval, peer: Peer)
    requires VerifyDevices(c, principal, devices, approve).1.Ok?
    ensures var d := VerifyDevices(c, principal, devices, approve).0;
            var listed := if peer.principal == principal then Listed(devices, peer.device) else None;
            if listed.None? then SameAt(d.verified, c.verified, peer) && SameAt(d.sessions, c.sessions, peer)
            else
              && Verified(d, peer, listed.value)
              && (peer in d.sessions <==> peer in c.sessions && NothingNew(c, devices, peer))
              && (peer in d.sessions ==> d.sessions[peer] == c.sessions[peer])
    decreases |devices|
  {
    if devices == [] {
    } else {
      var first, fingerprint := Peer(principal, devices[0].id), devices[0].KeyFingerprint();
      var e := if Verified(c, first, fingerprint) then c else Approve(c, first, fingerprint);
      VerifyDropsChanged(e, principal, devices[1..], approve, peer);
      NothingNewStep(c, devices, peer);
      UnlistedIsNotNew(e, devices[1..], peer);
      if peer != first {
        assert NothingNew(e, devices[1..], peer) <==> NothingNew(c, devices[1..], peer);
      }
    }
  }

  // ---------------------------------------------------------------------------
  // Runs of one client

  datatype Call =
    | Verify(principal: string, devices: seq<DirectoryDevice>, approve: Approval)
    | Send(target: string, bundle: Bundle, plaintext: Payload, conversation: string, ephemeral: nat, pair: nat)
    | Receive(sender: string, packet: Packet, conversation: string, pair: nat)

  /** A packet to this target goes to a stored session, or to the device key that the user approved for the target. */
  predicate GoesToApproved(c: ClientState, target: string, bundle: Bundle) {
    var peer := Peer(target, bundle.deviceId);
    peer in c.sessions || Verified(c, peer, Fingerprint(bundle.signing, bundle.identity))
  }

  /** The call is not one that starts a session with a key other than the approved one. */
  predicate Guarded(c: ClientState, call: Call) {
    call.Send? && EncryptPacket(c, call.target, call.bundle, call.plaintext, call.conversation, call.ephemeral,
                                call.pair).Ok?
    ==> GoesToApproved(c, call.target, call.bundle)
  }

  /** A bundle whose approval is looked up under the peer that its session is stored for. */
  predicate Names(bundle: Bundle, target: string) {
    LookedUp(bundle) == Peer(target, bundle.deviceId)
  }

  predicate NamesTarget(call: Call) {
    call.Send? ==> Names(call.bundle, call.target)
  }

  function Perform(c: ClientState, call: Call): ClientState {
    match call
    case Verify(principal, devices, approve) => VerifyPrincipal(c, principal, devices, approve).0
    case Send(target, bundle, plaintext, conversation, ephemeral, pair) =>
      (match EncryptPacket(c, target, bundle, plaintext, conversation, ephemeral, pair)
       case Ok((d, _)) => d
       case Err(_) => c)
    case Receive(sender, packet, conversation, pair) => DecryptPacket(c, sender, packet, conversation, pair).0
  }

  function PerformAll(c: ClientState, calls: seq<Call>): ClientState {
    if calls == [] then c else Perform(PerformAll(c, calls[..|calls| - 1]), calls[|calls| - 1])
  }

  lemma RatchetKeepsPeer(s: Session, sealed: Sealed, base: Base, pair: nat)
    requires s.Decrypt(sealed, base, pair).Ok?
    ensures s.Decrypt(sealed, base, pair).value.0.peer == s.peer
  {
  }

  /** A bundle that names another approved principal is stored as a session of the target. */
  lemma MisnamedBundleIsStored()
    ensures var c := ClientState("alice", Device("a", 1, 2, 1, 3, []), map[],
                                 map[Peer("mallory", "d") := Fingerprint(7, 8), Peer("bob", "d") := Fingerprint(5, 6)],
                                 map[]);
            var bundle := Bundle("mallory", None, "d", 7, 8, 1, 9, Signature(7, 9), None, None);
            var sent := EncryptPacket(c, "bob", bundle, Text("hello"), "conversation", 20, 21);
            c.Approved() && sent.Ok? && !sent.value.0.Approved()
  {
    var c := ClientState("alice", Device("a", 1, 2, 1, 3, []), map[],
                         map[Peer("mallory", "d") := Fingerprint(7, 8), Peer("bob", "d") := Fingerprint(5, 6)], map[]);
    var bundle := Bundle("mallory", None, "d", 7, 8, 1, 9, Signature(7, 9), None, None);
    assert Peer("bob", "d").principal != Peer("mallory", "d").principal;
    var d := EncryptPacket(c, "bob", bundle, Text("hello"), "conversation", 20, 21).value.0;
    assert Peer("bob", "d") in d.sessions && d.sessions[Peer("bob", "d")].peer == Fingerprint(7, 8);
  }

  /** A bundle that names another approved device of the same principal is stored as a session of the target device. */
  lemma OtherDeviceIsStored()
    ensures var c := ClientState("alice", Device("a", 1, 2, 1, 3, []), map[],
                                 map[Peer("bob", "tablet") := Fingerprint(7, 8),
                                     Peer("bob", "laptop") := Fingerprint(5, 6)],
                                 map[]);
            var bundle := Bundle("bob", Some("tablet"), "laptop", 7, 8, 1, 9, Signature(7, 9), None, None);
            var sent := EncryptPacket(c, "bob", bundle, Text("hello"), "conversation", 20, 21);
            c.Approved() && sent.Ok? && !sent.value.0.Approved()
  {
    var c := ClientState("alice", Device("a", 1, 2, 1, 3, []), map[],
                         map[Peer("bob", "tablet") := Fingerprint(7, 8), Peer("bob", "laptop") := Fingerprint(5, 6)],
                         map[]);
    var bundle := Bundle("bob", Some("tablet"), "laptop", 7, 8, 1, 9, Signature(7, 9), None, None);
    assert Peer("bob", "tablet").device[0] != Peer("bob", "laptop").device[0];
    var d := EncryptPacket(c, "bob", bundle, Text("hello"), "conversation", 20, 21).value.0;
    assert Peer("bob", "laptop") in d.sessions && d.sessions[Peer("bob", "laptop")].peer == Fingerprint(7, 8);
  }

  /** A send keeps the sessions on approved keys exactly when it goes to a session or to the approved key. The code
      looks the approval up under the names in the bundle, not under the target (`MisnamedBundleIsStored`,
      `OtherDeviceIsStored`). */
  lemma SendKeepsApprovedIff(c: ClientState, target: string, bundle: Bundle, plaintext: Payload, conversation: string,
                             ephemeral: nat, pair: nat)
    requires c.Approved() && EncryptPacket(c, target, bundle, plaintext, conversation, ephemeral, pair).Ok?
    ensures EncryptPacket(c, target, bundle, plaintext, conversation, ephemeral, pair).value.0.Approved()
            <==> GoesToApproved(c, target, bundle)
  {
    var d := EncryptPacket(c, target, bundle, plaintext, conversation, ephemeral, pair).value.0;
    var peer := Peer(target, bundle.deviceId);
    assert d.verified == c.verified && d.sessions == c.sessions[peer := d.sessions[peer]];
    if peer in c.sessions {
      assert d.sessions[peer].peer == c.sessions[peer].peer;
    } else {
      assert d.sessions[peer].peer == Fingerprint(bundle.signing, bundle.identity);
    }
    if GoesToApproved(c, target, bundle) {
      assert forall other :: other in d.sessions && other != peer ==> d.sessions[other] == c.sessions[other];
    }
  }

  lemma ReceiveKeepsApproved(c: ClientState, sender: string, packet: Packet, conversation: string, pair: nat)
    requires c.Approved()
    ensures DecryptPacket(c, sender, packet, conversation, pair).0.Approved()
  {
    var peer := Peer(sender, packet.senderDevice);
    var base := Base(conversation, sender, packet.senderDevice, c.principal, c.device.id);
    var (d, result) := DecryptPacket(c, sender, packet, conversation, pair);
    if result.Ok? && result.value.Some? {
      var before := if peer in c.sessions then c.sessions[peer] else Respond(c, sender, packet).1.value;
      RatchetKeepsPeer(before, packet.ratchet, base, pair);
    }
  }

  /** A call keeps every session on an approved key exactly when it is guarded. */
  lemma PerformKeepsApproved(c: ClientState, call: Call)
    requires c.Approved()
    ensures Perform(c, call).Approved() <==> Guarded(c, call)
  {
    match call
    case Verify(principal, devices, approve) => VerifyKeepsApproved(c, principal, devices, approve);
    case Send(target, bundle, plaintext, conversation, ephemeral, pair) =>
      if EncryptPacket(c, target, bundle, plaintext, conversation, ephemeral, pair).Ok? {
        SendKeepsApprovedIff(c, target, bundle, plaintext, conversation, ephemeral, pair);
      }
    case Receive(sender, packet, conversation, pair) => ReceiveKeepsApproved(c, sender, packet, conversation, pair);
  }

  ghost predicate AlwaysApproved(c: ClientState, calls: seq<Call>) {
    forall i :: 0 <= i <= |calls| ==> PerformAll(c, calls[..i]).Approved()
  }

  ghost predicate AlwaysGuarded(c: ClientState, calls: seq<Call>) {
    forall i :: 0 <= i < |calls| ==> Guarded(PerformAll(c, calls[..i]), calls[i])
  }

  lemma PerformOneMore(c: ClientState, calls: seq<Call>, i: nat)
    requires i < |calls|
    ensures PerformAll(c, calls[..i + 1]) == Perform(PerformAll(c, calls[..i]), calls[i])
  {
    assert calls[..i + 1][..i] == calls[..i];
  }

  lemma {:induction false} GuardedReachesApproved(c: ClientState, calls: seq<Call>, i: nat)
    requires c.Approved() && i <= |calls| && AlwaysGuarded(c, calls)
    ensures PerformAll(c, calls[..i]).Approved()
  {
    if i == 0 {
    } else {
      GuardedReachesApproved(c, calls, i - 1);
      PerformOneMore(c, calls, i - 1);
      PerformKeepsApproved(PerformAll(c, calls[..i - 1]), calls[i - 1]);
    }
  }

  /** At every point of a run all stored sessions belong to the device keys currently approved for their peers, exactly
      when every call of the run is guarded. */
  lemma RunsKeepApproved(c: ClientState, calls: seq<Call>)
    requires c.Approved()
    ensures AlwaysApproved(c, calls) <==> AlwaysGuarded(c, calls)
  {
    if AlwaysGuarded(c, calls) {
      forall i | 0 <= i <= |calls| ensures PerformAll(c, calls[..i]).Approved() {
        GuardedReachesApproved(c, calls, i);
      }
    } else {
      var i :| 0 <= i < |calls| && !Guarded(PerformAll(c, calls[..i]), calls[i]);
      PerformOneMore(c, calls, i);
      if AlwaysApproved(c, calls) {
        assert PerformAll(c, calls[..i]).Approved() && PerformAll(c, calls[..i + 1]).Approved();
        PerformKeepsApproved(PerformAll(c, calls[..i]), calls[i]);
      }
    }
  }

  lemma NamedIsGuarded(c: ClientState, call: Call)
    requires NamesTarget(call)
    ensures Guarded(c, call)
  {
  }

  /** With a server whose bundles name the principal they were asked for, and no other device id than the one they are
      stored under, sessions stay on approved keys. */
  lemma HonestNamesKeepApproved(c: ClientState, calls: seq<Call>)
    requires c.Approved() && forall i :: 0 <= i < |calls| ==> NamesTarget(calls[i])
    ensures AlwaysApproved(c, calls)
  {
    forall i | 0 <= i < |calls| ensures Guarded(PerformAll(c, calls[..i]), calls[i]) {
      NamedIsGuarded(PerformAll(c, calls[..i]), calls[i]);
    }
    RunsKeepApproved(c, calls);
  }
}
