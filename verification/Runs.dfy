/** Whole runs of two clients over a network that may drop, repeat, reorder, relabel and forge packets.

Alice is the only one of the two who starts a session. The network delivers any ciphertext that was ever sent,
any number of times, to either side, under any header, prekey and conversation it likes. It also delivers ciphertexts of
its own making, and any that were made for others. */
module Runs {
  import opened Wrappers
  import opened Sequences
  import opened Keys
  import opened Ratchet
  import opened RatchetHistory
  import opened Secrecy
  import opened Transport
  import Prekeys

  datatype Role = Alice | Bob

  function Other(role: Role): Role {
    if role == Alice then Bob else Alice
  }

  datatype Sent = Sent(from: Role, conversation: string, packet: Packet, plaintext: Payload)

  datatype Accepted = Accepted(reader: Role, conversation: string, header: Header, plaintext: Payload)

  datatype Event =
    | SendTo(from: Role, plaintext: Payload, conversation: string)
    | Deliver(to: Role, index: nat, header: Header, prekey: Option<Prekey>, conversation: string)
    | Inject(to: Role, cipher: Cipher, header: Header, prekey: Option<Prekey>, conversation: string)

  /** `supply` is the next unused key id; `bundle` is what the server answers to Alice's request for Bob's keys;
      `network` are the private keys that the network holds. */
  datatype World = World(alice: ClientState, bob: ClientState, bundle: Bundle, wire: seq<Sent>,
                         accepted: seq<Accepted>, supply: nat, network: set<nat>)
  {
    function Me(role: Role): ClientState {
      if role == Alice then alice else bob
    }

    function Name(role: Role): Peer {
      Peer(Me(role).principal, Me(role).device.id)
    }

    predicate HasSession(role: Role) {
      Name(Other(role)) in Me(role).sessions
    }

    function SessionOf(role: Role): Session
      requires HasSession(role)
    {
      Me(role).sessions[Name(Other(role))]
    }

    function Become(role: Role, c: ClientState): World {
      if role == Alice then this.(alice := c) else this.(bob := c)
    }
  }

  function BaseBetween(sender: Peer, recipient: Peer, conversation: string): Base {
    Base(conversation, sender.principal, sender.device, recipient.principal, recipient.device)
  }

  /** Once there is a session, the bundle only says which device the packet is for. */
  function BundleFor(w: World, from: Role): Bundle {
    if from == Alice then w.bundle
    else Bundle(w.alice.principal, None, w.alice.device.id, w.alice.device.signing, w.alice.device.identity,
                w.alice.device.signedPrekeyId, w.alice.device.signedPrekey,
                Signature(w.alice.device.signing, w.alice.device.signedPrekey), None, None)
  }

  function SendStep(w: World, from: Role, plaintext: Payload, conversation: string): World {
    if from == Bob && !w.HasSession(Bob) then w
    else
      match EncryptPacket(w.Me(from), w.Name(Other(from)).principal, BundleFor(w, from), plaintext, conversation,
                          w.supply, w.supply + 1)
      case Err(_) => w
      case Ok((c, packet)) =>
        w.Become(from, c).(wire := w.wire + [Sent(from, conversation, packet, plaintext)], supply := w.supply + 2)
  }

  function Delivered(w: World, to: Role, index: nat, header: Header, prekey: Option<Prekey>): Packet
    requires index < |w.wire|
  {
    Packet(w.Name(to).principal, w.Name(to).device, w.Name(Other(to)).device, prekey,
           Sealed(header, w.wire[index].packet.ratchet.cipher))
  }

  /** What the receiving client makes of a delivery. */
  function Outcome(w: World, to: Role, index: nat, header: Header, prekey: Option<Prekey>, conversation: string)
    : (ClientState, Attempt<Option<Payload>>)
    requires index < |w.wire|
  {
    DecryptPacket(w.Me(to), w.Name(Other(to)).principal, Delivered(w, to, index, header, prekey), conversation,
                  w.supply)
  }

  function DeliverStep(w: World, to: Role, index: nat, header: Header, prekey: Option<Prekey>, conversation: string)
    : World
  {
    if index >= |w.wire| then w
    else
      var (c, result) := Outcome(w, to, index, header, prekey, conversation);
      var after := w.Become(to, c).(supply := w.supply + 1);
      match result
      case Ok(Some(plaintext)) =>
        after.(accepted := w.accepted + [Accepted(to, conversation, header, plaintext)])
      case _ => after
  }

  predicate BoundBetween(aad: Aad, sender: Peer, recipient: Peer) {
    && aad.PacketAad? && aad.base.sender == sender.principal && aad.base.senderDevice == sender.device
    && aad.base.recipient == recipient.principal && aad.base.recipientDevice == recipient.device
  }

  /** A ciphertext that need not come from the other side: the network can derive its key, or it was made for another
      pair or direction, and anybody may have made it. */
  predicate IsForgeable(w: World, to: Role, cipher: Cipher) {
    Derivable(w.network, cipher.key) || !BoundBetween(cipher.aad, w.Name(Other(to)), w.Name(to))
  }

  function Injected(w: World, to: Role, cipher: Cipher, header: Header, prekey: Option<Prekey>): Packet {
    Packet(w.Name(to).principal, w.Name(to).device, w.Name(Other(to)).device, prekey, Sealed(header, cipher))
  }

  /** What the receiving client makes of it under the other side's name. */
  function InjectionOutcome(w: World, to: Role, cipher: Cipher, header: Header, prekey: Option<Prekey>,
                            conversation: string): (ClientState, Attempt<Option<Payload>>)
  {
    DecryptPacket(w.Me(to), w.Name(Other(to)).principal, Injected(w, to, cipher, header, prekey), conversation,
                  w.supply)
  }

  function InjectStep(w: World, to: Role, cipher: Cipher, header: Header, prekey: Option<Prekey>,
                      conversation: string): World
  {
    if !IsForgeable(w, to, cipher) then w
    else
      var (c, result) := InjectionOutcome(w, to, cipher, header, prekey, conversation);
      var after := w.Become(to, c).(supply := w.supply + 1);
      match result
      case Ok(Some(plaintext)) =>
        after.(accepted := w.accepted + [Accepted(to, conversation, header, plaintext)])
      case _ => after
  }

  function Step(w: World, event: Event): World {
    match event
    case SendTo(from, plaintext, conversation) => SendStep(w, from, plaintext, conversation)
    case Deliver(to, index, header, prekey, conversation) => DeliverStep(w, to, index, header, prekey, conversation)
    case Inject(to, cipher, header, prekey, conversation) => InjectStep(w, to, cipher, header, prekey, conversation)
  }

  function Run(w: World, events: seq<Event>): World {
    if events == [] then w else Step(Run(w, events[..|events| - 1]), events[|events| - 1])
  }

  lemma RunOneMore(start: World, events: seq<Event>, event: Event)
    ensures Run(start, events + [event]) == Step(Run(start, events), event)
  {
    FrontOfSnoc(events, event);
  }

  /** A side whose prekey is its own, and who has not approved a key of the network for the other side. */
  predicate TrustedSide(w: World, role: Role) {
    && w.Me(role).device.signedPrekey !in w.network
    && (w.Name(Other(role)) in w.Me(role).verified ==>
          w.Me(role).verified[w.Name(Other(role))].identity !in w.network)
  }

  /** The network holds none of the keys that the two agree with. Without private keys it always meets this. */
  predicate Trusted(w: World) {
    && (forall i :: i in w.network ==> i < w.supply)
    && TrustedSide(w, Alice) && TrustedSide(w, Bob) && w.bundle.identity !in w.network
    && (forall i :: 0 <= i < |w.wire| && w.wire[i].packet.prekey.Some? ==>
          w.wire[i].packet.prekey.value.ephemeral !in w.network)
  }

  /** Two different devices, no session between them yet, a bundle for Bob's device, and a network that is neither of
      the two. */
  predicate Initial(w: World) {
    && w.Name(Alice) != w.Name(Bob)
    && w.bundle.deviceId == w.bob.device.id
    && w.bundle.signedPrekey < w.supply
    && !w.HasSession(Alice) && !w.HasSession(Bob)
    && w.wire == [] && w.accepted == [] && Trusted(w)
  }

  // ---------------------------------------------------------------------------
  // The invariant

  function IdOf(header: Header): SkippedId {
    SkippedId(header.dh, header.n)
  }

  function AcceptedIds(accepted: seq<Accepted>, role: Role): set<SkippedId> {
    if accepted == [] then {}
    else
      var last := accepted[|accepted| - 1];
      AcceptedIds(accepted[..|accepted| - 1], role) + (if last.reader == role then {IdOf(last.header)} else {})
  }

  /** The latest epoch that a role owns when there are `epochs` of them; -1 for a Bob who has not answered. */
  function OwnEpoch(role: Role, epochs: nat): int {
    if (role == Alice) == (epochs % 2 == 1) then epochs - 1 else epochs - 2
  }

  function OwnerOf(k: nat): Role {
    if k % 2 == 0 then Alice else Bob
  }

  /** `sent` is a message of epoch `k`. */
  ghost predicate SentIn(h: History, alice: Peer, bob: Peer, sent: Sent, k: nat) {
    var sealed := sent.packet.ratchet;
    var (me, you) := if sent.from == Alice then (alice, bob) else (bob, alice);
    && sent.from == OwnerOf(k)
    && 0 <= sealed.header.n
    && Genuine(h, k, sealed.header.n, sealed, BaseBetween(me, you, sent.conversation))
    && sealed.cipher.plaintext == sent.plaintext
  }

  ghost predicate OnWire(h: History, alice: Peer, bob: Peer, sent: Sent) {
    exists k: nat :: SentIn(h, alice, bob, sent, k)
  }

  ghost predicate WireInStep(h: History, alice: Peer, bob: Peer, wire: seq<Sent>) {
    && (forall i :: 0 <= i < |wire| ==> OnWire(h, alice, bob, wire[i]))
    && (forall i, j :: 0 <= i < j < |wire| ==>
          IdOf(wire[i].packet.ratchet.header) != IdOf(wire[j].packet.ratchet.header))
  }

  /** An accepted message is one the peer sent: same header, same conversation, same plaintext. */
  predicate Explains(sent: Sent, a: Accepted) {
    && sent.from == Other(a.reader) && sent.packet.ratchet.header == a.header
    && sent.conversation == a.conversation && sent.plaintext == a.plaintext
  }

  predicate Explained(wire: seq<Sent>, a: Accepted) {
    exists j :: 0 <= j < |wire| && Explains(wire[j], a)
  }

  predicate Sound(w: World) {
    forall i :: 0 <= i < |w.accepted| ==> Explained(w.wire, w.accepted[i])
  }

  /** No side accepts the same position of the same ratchet key twice. */
  predicate AtMostOnce(w: World) {
    forall i, j :: 0 <= i < j < |w.accepted| && w.accepted[i].reader == w.accepted[j].reader ==>
      IdOf(w.accepted[i].header) != IdOf(w.accepted[j].header)
  }

  /** Exactly Alice's first message carries a prekey, and it belongs to the secret the history starts from. */
  ghost predicate PrekeyInStep(h: History, w: World) {
    && |h.roots| > 0 && |w.wire| > 0
    && (forall i :: 0 <= i < |w.wire| ==> (w.wire[i].packet.prekey.Some? <==> i == 0))
    && w.wire[0].from == Alice && w.wire[0].packet.ratchet.header.n == 0
    && X3dhSender(w.alice, w.bundle, w.wire[0].packet.prekey.value.ephemeral)
       == Ok((h.roots[0], w.wire[0].packet.prekey.value))
  }

  predicate OnceSent(wire: seq<Sent>, from: Role, id: SkippedId) {
    exists i :: 0 <= i < |wire| && wire[i].from == from && IdOf(wire[i].packet.ratchet.header) == id
  }

  ghost predicate PositionSent(h: History, wire: seq<Sent>, k: nat, n: nat)
    requires h.Sized()
  {
    k < |h.dhs| && n < h.counts[k] ==> OnceSent(wire, OwnerOf(k), SkippedId(h.dhs[k], n))
  }

  /** Every counted position is on the wire. */
  ghost predicate Complete(h: History, wire: seq<Sent>) {
    h.Sized() && forall k: nat, n: nat :: PositionSent(h, wire, k, n)
  }

  ghost predicate SideInStep(h: History, w: World, role: Role) {
    if role == Bob && |h.dhs| == 1 then !w.HasSession(Bob) && AcceptedIds(w.accepted, Bob) == {}
    else w.HasSession(role)
         && Endpoint(h, OwnEpoch(role, |h.dhs|), w.SessionOf(role), AcceptedIds(w.accepted, role))
  }

  ghost predicate NamesInStep(h: History, w: World) {
    && w.Name(Alice) != w.Name(Bob) && w.bundle.deviceId == w.bob.device.id
    && h.Valid(w.supply) && h.prekey == w.bundle.signedPrekey < w.supply && |h.dhs| >= 1
  }

  ghost predicate Live(h: History, w: World) {
    && NamesInStep(h, w)
    && SideInStep(h, w, Alice) && SideInStep(h, w, Bob)
    && WireInStep(h, w.Name(Alice), w.Name(Bob), w.wire) && Complete(h, w.wire) && PrekeyInStep(h, w)
    && Sound(w) && AtMostOnce(w)
  }

  lemma {:induction false} AcceptedIdsOf(accepted: seq<Accepted>, role: Role, id: SkippedId)
    ensures id in AcceptedIds(accepted, role) <==>
            exists i :: 0 <= i < |accepted| && accepted[i].reader == role && IdOf(accepted[i].header) == id
  {
    if accepted == [] {
    } else {
      var init := accepted[..|accepted| - 1];
      AcceptedIdsOf(init, role, id);
      if i :| 0 <= i < |accepted| && accepted[i].reader == role && IdOf(accepted[i].header) == id {
        assert i < |init| ==> init[i] == accepted[i];
      }
    }
  }

  lemma OneMoreIsSound(w: World, a: Accepted)
    requires Sound(w) && Explained(w.wire, a)
    ensures Sound(w.(accepted := w.accepted + [a]))
  {
    var all := w.accepted + [a];
    forall i | 0 <= i < |all| ensures Explained(w.wire, all[i]) {
      assert i < |w.accepted| ==> all[i] == w.accepted[i];
    }
  }

  lemma OneMoreAtMostOnce(w: World, a: Accepted)
    requires AtMostOnce(w) && IdOf(a.header) !in AcceptedIds(w.accepted, a.reader)
    ensures AtMostOnce(w.(accepted := w.accepted + [a]))
  {
    var all := w.accepted + [a];
    AcceptedIdsOf(w.accepted, a.reader, IdOf(a.header));
    forall i, j | 0 <= i < j < |all| && all[i].reader == all[j].reader
      ensures IdOf(all[i].header) != IdOf(all[j].header)
    {
      assert all[i] == w.accepted[i];
      assert j < |w.accepted| ==> all[j] == w.accepted[j];
    }
  }

  lemma OneMoreId(accepted: seq<Accepted>, a: Accepted, role: Role)
    ensures AcceptedIds(accepted + [a], role)
            == AcceptedIds(accepted, role) + (if a.reader == role then {IdOf(a.header)} else {})
  {
    FrontOfSnoc(accepted, a);
  }

  lemma OneMoreAccepted(w: World, a: Accepted)
    requires Sound(w) && AtMostOnce(w)
    requires IdOf(a.header) !in AcceptedIds(w.accepted, a.reader)
    requires Explained(w.wire, a)
    ensures Sound(w.(accepted := w.accepted + [a])) && AtMostOnce(w.(accepted := w.accepted + [a]))
    ensures AcceptedIds(w.accepted + [a], a.reader) == AcceptedIds(w.accepted, a.reader) + {IdOf(a.header)}
    ensures AcceptedIds(w.accepted + [a], Other(a.reader)) == AcceptedIds(w.accepted, Other(a.reader))
  {
    OneMoreIsSound(w, a);
    OneMoreAtMostOnce(w, a);
    OneMoreId(w.accepted, a, a.reader);
    OneMoreId(w.accepted, a, Other(a.reader));
  }

  // ---------------------------------------------------------------------------
  // Sending keeps the invariant

  lemma CountKeepsSent(h: History, e: nat, alice: Peer, bob: Peer, sent: Sent, k: nat)
    requires SentIn(h, alice, bob, sent, k) && e < |h.dhs| && |h.dhs| - 2 <= e
    ensures SentIn(h.Count(e), alice, bob, sent, k)
  {
  }

  lemma SentIsBelowCount(h: History, supply: nat, e: nat, alice: Peer, bob: Peer, sent: Sent)
    requires h.Valid(supply) && OnWire(h, alice, bob, sent) && e < |h.dhs|
    ensures IdOf(sent.packet.ratchet.header) != SkippedId(h.dhs[e], h.counts[e])
  {
    var k: nat :| SentIn(h, alice, bob, sent, k);
    assert k < e || k == e || e < k;
  }

  lemma SendKeepsWire(h: History, supply: nat, e: nat, alice: Peer, bob: Peer, wire: seq<Sent>, sent: Sent)
    requires h.Valid(supply) && WireInStep(h, alice, bob, wire)
    requires e < |h.dhs| && |h.dhs| - 2 <= e && IdOf(sent.packet.ratchet.header) == SkippedId(h.dhs[e], h.counts[e])
    requires SentIn(h.Count(e), alice, bob, sent, e)
    ensures WireInStep(h.Count(e), alice, bob, wire + [sent])
  {
    var all := wire + [sent];
    forall i | 0 <= i < |wire| ensures OnWire(h.Count(e), alice, bob, all[i]) {
      assert OnWire(h, alice, bob, wire[i]);
      var k: nat :| SentIn(h, alice, bob, wire[i], k);
      CountKeepsSent(h, e, alice, bob, wire[i], k);
    }
    forall i | 0 <= i < |wire| ensures IdOf(wire[i].packet.ratchet.header) != IdOf(sent.packet.ratchet.header) {
      SentIsBelowCount(h, supply, e, alice, bob, wire[i]);
    }
    assert OnWire(h.Count(e), alice, bob, sent);
  }

  lemma CountKeepsValid(h: History, supply: nat, e: nat)
    requires h.Valid(supply) && e < |h.dhs|
    ensures h.Count(e).Valid(supply)
  {
    var g := h.Count(e);
    assert forall k: nat :: k < |h.dhs| ==> g.Output(k) == h.Output(k);
  }

  lemma ValidIsMonotone(h: History, supply: nat, more: nat)
    requires h.Valid(supply) && supply <= more
    ensures h.Valid(more)
  {
  }

  /** What a side with a session puts on the wire. */
  function NextSent(w: World, from: Role, plaintext: Payload, conversation: string): Attempt<(Session, Sent)>
    requires w.HasSession(from)
  {
    var me, you := w.Name(from), w.Name(Other(from));
    var (y, sealed) :- w.SessionOf(from).Encrypt(plaintext, BaseBetween(me, you, conversation));
    Ok((y, Sent(from, conversation, Packet(you.principal, you.device, me.device, None, sealed), plaintext)))
  }

  /** The call changes the sender's record, the wire and nothing else. */
  predicate SentStep(w: World, v: World, from: Role, y: Session, sent: Sent) {
    && v.Me(Other(from)) == w.Me(Other(from))
    && v.Me(from) == w.Me(from).(sessions := w.Me(from).sessions[w.Name(Other(from)) := y])
    && v.wire == w.wire + [sent] && v.accepted == w.accepted
    && v.bundle == w.bundle && v.supply == w.supply + 2
  }

  lemma SendIsNextSent(w: World, from: Role, plaintext: Payload, conversation: string)
    requires w.HasSession(from) && w.bundle.deviceId == w.bob.device.id
    requires NextSent(w, from, plaintext, conversation).Ok?
    ensures var (y, sent) := NextSent(w, from, plaintext, conversation).value;
            SentStep(w, SendStep(w, from, plaintext, conversation), from, y, sent)
  {
  }

  lemma NextSentIsGenuine(h: History, e: nat, w: World, from: Role, accepted: set<SkippedId>, plaintext: Payload,
                          conversation: string)
    requires w.HasSession(from) && Endpoint(h, e, w.SessionOf(from), accepted) && OwnerOf(e) == from
    ensures NextSent(w, from, plaintext, conversation).Ok?
    ensures var (y, sent) := NextSent(w, from, plaintext, conversation).value;
            && IdOf(sent.packet.ratchet.header) == SkippedId(h.dhs[e], h.counts[e])
            && SentIn(h.Count(e), w.Name(Alice), w.Name(Bob), sent, e)
            && Endpoint(h.Count(e), e, y, accepted)
            && sent.packet.prekey == None
  {
    var base := BaseBetween(w.Name(from), w.Name(Other(from)), conversation);
    EncryptStep(h, e, w.SessionOf(from), accepted, plaintext, base);
  }

  lemma SendKeepsSides(h: History, e: nat, w: World, v: World, from: Role, y: Session, sent: Sent)
    requires |h.dhs| >= 1 && e == OwnEpoch(from, |h.dhs|) && h.Sized()
    requires SideInStep(h, w, Other(from)) && w.Name(Alice) != w.Name(Bob)
    requires SentStep(w, v, from, y, sent)
    requires Endpoint(h.Count(e), e, y, AcceptedIds(w.accepted, from))
    ensures SideInStep(h.Count(e), v, from) && SideInStep(h.Count(e), v, Other(from))
  {
    assert v.HasSession(from) && v.SessionOf(from) == y;
    if w.HasSession(Other(from)) {
      CountKeepsEndpoint(h, e, OwnEpoch(Other(from), |h.dhs|), w.SessionOf(Other(from)),
                         AcceptedIds(w.accepted, Other(from)));
    }
  }

  lemma SendKeepsPrekey(h: History, g: History, w: World, v: World, from: Role, y: Session, sent: Sent)
    requires PrekeyInStep(h, w) && SentStep(w, v, from, y, sent) && sent.packet.prekey == None
    requires g.roots == h.roots
    ensures PrekeyInStep(g, v)
  {
  }

  lemma SessionIsEndpoint(h: History, w: World, role: Role) returns (e: nat)
    requires |h.dhs| >= 1 && SideInStep(h, w, role) && w.HasSession(role)
    ensures e == OwnEpoch(role, |h.dhs|) && OwnerOf(e) == role && |h.dhs| - 2 <= e < |h.dhs|
    ensures Endpoint(h, e, w.SessionOf(role), AcceptedIds(w.accepted, role))
  {
    e := OwnEpoch(role, |h.dhs|);
  }

  lemma NextStep(h: History, e: nat, w: World, from: Role, accepted: set<SkippedId>, plaintext: Payload,
                 conversation: string) returns (y: Session, sent: Sent)
    requires w.HasSession(from) && Endpoint(h, e, w.SessionOf(from), accepted) && OwnerOf(e) == from
    requires w.bundle.deviceId == w.bob.device.id
    ensures SentStep(w, SendStep(w, from, plaintext, conversation), from, y, sent)
    ensures IdOf(sent.packet.ratchet.header) == SkippedId(h.dhs[e], h.counts[e])
    ensures SentIn(h.Count(e), w.Name(Alice), w.Name(Bob), sent, e)
    ensures Endpoint(h.Count(e), e, y, accepted)
    ensures sent.packet.prekey == None
  {
    NextSentIsGenuine(h, e, w, from, accepted, plaintext, conversation);
    SendIsNextSent(w, from, plaintext, conversation);
    var step := NextSent(w, from, plaintext, conversation).value;
    y, sent := step.0, step.1;
  }

  lemma SendKeepsComplete(h: History, e: nat, wire: seq<Sent>, sent: Sent)
    requires Complete(h, wire) && e < |h.dhs| && sent.from == OwnerOf(e)
    requires IdOf(sent.packet.ratchet.header) == SkippedId(h.dhs[e], h.counts[e])
    ensures Complete(h.Count(e), wire + [sent])
  {
    forall k: nat, n: nat ensures PositionSent(h.Count(e), wire + [sent], k, n) {
      if k < |h.dhs| && n < h.Count(e).counts[k] {
        if k == e && n == h.counts[e] {
          assert (wire + [sent])[|wire|] == sent;
        } else {
          assert PositionSent(h, wire, k, n);
          var i :| 0 <= i < |wire| && wire[i].from == OwnerOf(k)
                   && IdOf(wire[i].packet.ratchet.header) == SkippedId(h.dhs[k], n);
          assert (wire + [sent])[i] == wire[i];
        }
      }
    }
  }

  lemma GrowingWireKeepsSound(w: World, v: World, sent: Sent)
    requires Sound(w) && v.accepted == w.accepted && v.wire == w.wire + [sent]
    ensures Sound(v)
  {
    forall i | 0 <= i < |v.accepted| ensures Explained(v.wire, v.accepted[i]) {
      assert Explained(w.wire, w.accepted[i]);
      var j :| 0 <= j < |w.wire| && Explains(w.wire[j], w.accepted[i]);
      assert v.wire[j] == w.wire[j];
    }
  }

  lemma SendKeepsLive(h: History, e: nat, w: World, v: World, from: Role, y: Session, sent: Sent)
    requires Live(h, w) && e == OwnEpoch(from, |h.dhs|)
    requires SentStep(w, v, from, y, sent) && sent.packet.prekey == None
    requires IdOf(sent.packet.ratchet.header) == SkippedId(h.dhs[e], h.counts[e])
    requires SentIn(h.Count(e), w.Name(Alice), w.Name(Bob), sent, e)
    requires Endpoint(h.Count(e), e, y, AcceptedIds(w.accepted, from))
    ensures Live(h.Count(e), v)
  {
    SendKeepsWire(h, w.supply, e, w.Name(Alice), w.Name(Bob), w.wire, sent);
    SendKeepsComplete(h, e, w.wire, sent);
    CountKeepsValid(h, w.supply, e);
    ValidIsMonotone(h.Count(e), w.supply, v.supply);
    SendKeepsSides(h, e, w, v, from, y, sent);
    SendKeepsPrekey(h, h.Count(e), w, v, from, y, sent);
    GrowingWireKeepsSound(w, v, sent);
  }

  /** A side that has a session always sends, and sends the next message of its own epoch. */
  lemma SendWithSession(h: History, w: World, from: Role, plaintext: Payload, conversation: string)
    returns (g: History)
    requires Live(h, w) && w.HasSession(from)
    ensures Live(g, SendStep(w, from, plaintext, conversation))
  {
    var e := SessionIsEndpoint(h, w, from);
    var y, sent := NextStep(h, e, w, from, AcceptedIds(w.accepted, from), plaintext, conversation);
    g := h.Count(e);
    SendKeepsLive(h, e, w, SendStep(w, from, plaintext, conversation), from, y, sent);
  }

  // ---------------------------------------------------------------------------
  // The first message

  ghost function FirstHistory(secret: Key, prekey: nat, pair: nat): (h: History)
    ensures h.Sized() && |h.dhs| == 1
  {
    History(prekey, [], [secret], []).Extend(pair)
  }

  lemma InitiatorIsEndpoint(secret: Key, bundle: Bundle, pair: nat)
    requires secret.Agreed? && bundle.signedPrekey < pair
    ensures var h := FirstHistory(secret, bundle.signedPrekey, pair);
            && h.Valid(pair + 1) && Endpoint(h, 0, InitiatorSession(secret, bundle, pair), {})
  {
    var h := FirstHistory(secret, bundle.signedPrekey, pair);
    SharedSecretSymmetric(bundle.signedPrekey, pair);
    assert h.dhs == [pair] && h.counts == [0];
    assert Advance(h.ChainAt(0), 0) == h.ChainAt(0);
  }

  /** The record and the packet of Alice's first message. */
  function FirstSent(w: World, secret: Key, prekey: Prekey, plaintext: Payload, conversation: string)
    : Attempt<(Session, Sent)>
  {
    var me, you := w.Name(Alice), w.Name(Bob);
    var (y, sealed) :- InitiatorSession(secret, w.bundle, w.supply + 1)
                       .Encrypt(plaintext, BaseBetween(me, you, conversation));
    Ok((y, Sent(Alice, conversation, Packet(you.principal, you.device, me.device, Some(prekey), sealed), plaintext)))
  }

  lemma FirstSentIsGenuine(w: World, secret: Key, prekey: Prekey, plaintext: Payload, conversation: string)
    returns (g: History)
    requires Initial(w) && secret.Agreed?
    ensures FirstSent(w, secret, prekey, plaintext, conversation).Ok?
    ensures var (y, sent) := FirstSent(w, secret, prekey, plaintext, conversation).value;
            && g.Valid(w.supply + 2) && g.prekey == w.bundle.signedPrekey && |g.dhs| == 1 && g.roots[0] == secret
            && g.counts[0] == 1
            && Endpoint(g, 0, y, {}) && SentIn(g, w.Name(Alice), w.Name(Bob), sent, 0)
            && sent.packet.prekey == Some(prekey) && sent.packet.ratchet.header.n == 0
  {
    var h := FirstHistory(secret, w.bundle.signedPrekey, w.supply + 1);
    InitiatorIsEndpoint(secret, w.bundle, w.supply + 1);
    EncryptStep(h, 0, InitiatorSession(secret, w.bundle, w.supply + 1), {}, plaintext,
                BaseBetween(w.Name(Alice), w.Name(Bob), conversation));
    CountKeepsValid(h, w.supply + 2, 0);
    g := h.Count(0);
  }

  lemma FirstIsLive(g: History, w: World, v: World, y: Session, sent: Sent)
    requires Initial(w) && SentStep(w, v, Alice, y, sent)
    requires g.Valid(v.supply) && g.prekey == w.bundle.signedPrekey && |g.dhs| == 1
    requires Endpoint(g, 0, y, {}) && SentIn(g, w.Name(Alice), w.Name(Bob), sent, 0) && g.counts[0] == 1
    requires sent.packet.prekey.Some? && sent.packet.ratchet.header.n == 0
    requires X3dhSender(w.alice, w.bundle, sent.packet.prekey.value.ephemeral)
             == Ok((g.roots[0], sent.packet.prekey.value))
    ensures Live(g, v)
  {
    assert v.HasSession(Alice) && v.SessionOf(Alice) == y;
    assert v.wire == [sent];
    assert OnWire(g, w.Name(Alice), w.Name(Bob), sent);
    assert OnceSent(v.wire, Alice, SkippedId(g.dhs[0], 0)) by {
      assert v.wire[0] == sent;
    }
    assert !v.HasSession(Bob);
  }

  lemma FirstSend(w: World, plaintext: Payload, conversation: string) returns (live: bool, g: History)
    requires Initial(w)
    ensures var v := SendStep(w, Alice, plaintext, conversation); if live then Live(g, v) else Initial(v)
  {
    var agreed := X3dhSender(w.alice, w.bundle, w.supply);
    live, g := agreed.Ok?, History(0, [], [], []);
    if live {
      var (secret, prekey) := agreed.value;
      g := FirstSentIsGenuine(w, secret, prekey, plaintext, conversation);
      var (y, sent) := FirstSent(w, secret, prekey, plaintext, conversation).value;
      FirstIsLive(g, w, SendStep(w, Alice, plaintext, conversation), y, sent);
    }
  }

  // ---------------------------------------------------------------------------
  // Receiving keeps the invariant

  lemma ExtendKeepsSent(h: History, pair: nat, alice: Peer, bob: Peer, sent: Sent, k: nat)
    requires SentIn(h, alice, bob, sent, k)
    ensures SentIn(h.Extend(pair), alice, bob, sent, k)
  {
    ExtendKeepsChains(h, pair, k);
  }

  lemma ExtendKeepsWire(h: History, pair: nat, alice: Peer, bob: Peer, wire: seq<Sent>)
    requires h.Sized() && WireInStep(h, alice, bob, wire)
    ensures WireInStep(h.Extend(pair), alice, bob, wire)
  {
    forall i | 0 <= i < |wire| ensures OnWire(h.Extend(pair), alice, bob, wire[i]) {
      assert OnWire(h, alice, bob, wire[i]);
      var k: nat :| SentIn(h, alice, bob, wire[i], k);
      ExtendKeepsSent(h, pair, alice, bob, wire[i], k);
    }
  }

  lemma ExtendKeepsComplete(h: History, pair: nat, wire: seq<Sent>)
    requires Complete(h, wire)
    ensures Complete(h.Extend(pair), wire)
  {
    forall k: nat, n: nat ensures PositionSent(h.Extend(pair), wire, k, n) {
      assert PositionSent(h, wire, k, n);
    }
  }

  /** A ciphertext that opens for `to` was sent to `to`, in this conversation and under this header. */
  lemma BoundToWire(h: History, w: World, to: Role, index: nat, header: Header, conversation: string)
    returns (k: nat)
    requires w.Name(Alice) != w.Name(Bob) && index < |w.wire|
    requires OnWire(h, w.Name(Alice), w.Name(Bob), w.wire[index])
    requires w.wire[index].packet.ratchet.cipher.aad
             == PacketAad(BaseBetween(w.Name(Other(to)), w.Name(to), conversation), header)
    ensures w.wire[index].from == Other(to) && w.wire[index].conversation == conversation
    ensures w.wire[index].packet.ratchet.header == header
    ensures SentIn(h, w.Name(Alice), w.Name(Bob), w.wire[index], k)
  {
    k :| SentIn(h, w.Name(Alice), w.Name(Bob), w.wire[index], k);
  }

  predicate ReceivedStep(w: World, v: World, to: Role, y: Session, a: Accepted) {
    && v.Me(Other(to)) == w.Me(Other(to))
    && v.Name(to) == w.Name(to) && v.Me(to).verified == w.Me(to).verified
    && (to == Alice ==> v.alice.device == w.alice.device)
    && v.HasSession(to) && v.SessionOf(to) == y
    && v.wire == w.wire && v.accepted == w.accepted + [a]
    && v.bundle == w.bundle && v.supply == w.supply + 1
  }

  lemma Parities(m: int, n: int)
    ensures (m + 1) % 2 != m % 2
    ensures (m - n) % 2 == 0 <==> m % 2 == n % 2
  {
  }

  lemma OwnEpochParity(role: Role, epochs: nat)
    requires epochs >= 1
    ensures var e := OwnEpoch(role, epochs);
            epochs - 2 <= e < epochs && (e % 2 == 0 <==> role == Alice) && (e == -1 <==> role == Bob && epochs == 1)
  {
    Parities(epochs - 1, epochs - 2);
    Parities(epochs - 2, epochs);
  }

  lemma OwnEpochTurns(to: Role, epochs: nat)
    requires epochs >= 1 && OwnEpoch(to, epochs) + 2 == epochs
    ensures OwnEpoch(to, epochs + 1) == epochs && OwnEpoch(Other(to), epochs + 1) == OwnEpoch(Other(to), epochs)
  {
    Parities(epochs, 0);
  }

  lemma EpochsTurn(to: Role, epochs: nat, k: nat)
    requires epochs >= 1 && k < epochs && OwnerOf(k) == Other(to)
    ensures var e := OwnEpoch(to, epochs);
            && epochs - 2 <= e < epochs && FromPeer(e, k)
            && (k == e + 1 ==> e + 2 == epochs && OwnEpoch(to, epochs + 1) == e + 2
                               && OwnEpoch(Other(to), epochs + 1) == OwnEpoch(Other(to), epochs)
                               && (epochs == 1 ==> to == Bob))
  {
    var e := OwnEpoch(to, epochs);
    OwnEpochParity(to, epochs);
    Parities(e, k);
    Parities(e + 1, k);
    if k == e + 1 {
      OwnEpochTurns(to, epochs);
    }
  }

  lemma ReceiveKeepsOther(h: History, w: World, v: World, to: Role, pair: nat)
    requires h.Sized() && SideInStep(h, w, Other(to)) && |h.dhs| >= 1
    requires OwnEpoch(Other(to), |h.dhs| + 1) == OwnEpoch(Other(to), |h.dhs|)
    requires |h.dhs| == 1 ==> to == Bob
    requires v.Me(Other(to)) == w.Me(Other(to)) && v.Name(to) == w.Name(to)
    requires AcceptedIds(v.accepted, Other(to)) == AcceptedIds(w.accepted, Other(to))
    ensures SideInStep(h.Extend(pair), v, Other(to))
  {
    ExtendKeepsEndpoint(h, pair, OwnEpoch(Other(to), |h.dhs|), w.SessionOf(Other(to)),
                        AcceptedIds(w.accepted, Other(to)));
  }

  lemma ReceiveKeepsPrekey(h: History, g: History, w: World, v: World, to: Role, y: Session, a: Accepted)
    requires PrekeyInStep(h, w) && ReceivedStep(w, v, to, y, a) && h.roots <= g.roots
    ensures PrekeyInStep(g, v)
  {
  }

  /** The receiver's side after an accepted packet of epoch `k`. */
  lemma AcceptedSide(h: History, w: World, to: Role, index: nat, k: nat, e: int, x: Session, a: Accepted)
    requires w.Name(Alice) != w.Name(Bob) && h.Valid(w.supply) && h.prekey < w.supply
    requires index < |w.wire| && a.reader == to && Explains(w.wire[index], a)
    requires SentIn(h, w.Name(Alice), w.Name(Bob), w.wire[index], k)
    requires |h.dhs| - 2 <= e && FromPeer(e, k) && Endpoint(h, e, x, AcceptedIds(w.accepted, to))
    ensures var plain := x.Decrypt(w.wire[index].packet.ratchet,
                                   BaseBetween(w.Name(Other(to)), w.Name(to), a.conversation), w.supply);
            var ids := AcceptedIds(w.accepted, to);
            && (plain.Ok? <==> IdOf(a.header) !in ids && (IdOf(a.header) in x.skipped || WithinSkipLimits(x, a.header)))
            && (plain.Ok? ==>
                  Endpoint(if k == e + 1 then h.Extend(w.supply) else h, if k == e + 1 then e + 2 else e,
                           plain.value.0, ids + {IdOf(a.header)}))
  {
    var base := BaseBetween(w.Name(Other(to)), w.Name(to), a.conversation);
    DecryptGenuine(h, w.supply, e, x, AcceptedIds(w.accepted, to), k, a.header.n, w.wire[index].packet.ratchet, base,
                   w.supply);
  }

  lemma OwnSide(g: History, w: World, v: World, to: Role, e: nat, y: Session, a: Accepted)
    requires ReceivedStep(w, v, to, y, a) && g.Sized() && e == OwnEpoch(to, |g.dhs|)
    requires Endpoint(g, e, y, AcceptedIds(v.accepted, to))
    ensures SideInStep(g, v, to)
  {
  }

  lemma OtherSide(h: History, w: World, v: World, to: Role)
    requires SideInStep(h, w, Other(to)) && v.Me(Other(to)) == w.Me(Other(to)) && v.Name(to) == w.Name(to)
    requires AcceptedIds(v.accepted, Other(to)) == AcceptedIds(w.accepted, Other(to))
    ensures SideInStep(h, v, Other(to))
  {
  }

  lemma AcceptInPlace(h: History, w: World, v: World, to: Role, e: nat, y: Session, a: Accepted)
    requires Live(h, w) && a.reader == to && Explained(w.wire, a) && ReceivedStep(w, v, to, y, a)
    requires e == OwnEpoch(to, |h.dhs|)
    requires IdOf(a.header) !in AcceptedIds(w.accepted, to)
    requires Endpoint(h, e, y, AcceptedIds(w.accepted, to) + {IdOf(a.header)})
    ensures Live(h, v)
  {
    OneMoreAccepted(w, a);
    OwnSide(h, w, v, to, e, y, a);
    OtherSide(h, w, v, to);
    ValidIsMonotone(h, w.supply, v.supply);
    ReceiveKeepsPrekey(h, h, w, v, to, y, a);
  }

  lemma TurnSides(h: History, w: World, v: World, to: Role, e: int, y: Session, a: Accepted)
    requires h.Sized() && |h.dhs| >= 1 && e == OwnEpoch(to, |h.dhs|) && e + 2 == |h.dhs|
    requires SideInStep(h, w, Other(to)) && a.reader == to && ReceivedStep(w, v, to, y, a)
    requires AcceptedIds(v.accepted, Other(to)) == AcceptedIds(w.accepted, Other(to))
    requires Endpoint(h.Extend(w.supply), e + 2, y, AcceptedIds(v.accepted, to))
    ensures SideInStep(h.Extend(w.supply), v, to) && SideInStep(h.Extend(w.supply), v, Other(to))
  {
    EpochsTurn(to, |h.dhs|, e + 1);
    OwnSide(h.Extend(w.supply), w, v, to, e + 2, y, a);
    ReceiveKeepsOther(h, w, v, to, w.supply);
  }

  lemma TurnNames(h: History, w: World, v: World, to: Role, y: Session, a: Accepted)
    requires NamesInStep(h, w) && ReceivedStep(w, v, to, y, a)
    ensures NamesInStep(h.Extend(w.supply), v)
  {
    ExtendKeepsValid(h, w.supply, w.supply);
  }

  lemma AcceptTurning(h: History, w: World, v: World, to: Role, e: int, y: Session, a: Accepted)
    requires NamesInStep(h, w) && SideInStep(h, w, Other(to)) && PrekeyInStep(h, w) && Sound(w) && AtMostOnce(w)
    requires WireInStep(h, w.Name(Alice), w.Name(Bob), w.wire) && Complete(h, w.wire)
    requires a.reader == to && Explained(w.wire, a) && ReceivedStep(w, v, to, y, a)
    requires e == OwnEpoch(to, |h.dhs|) && e + 2 == |h.dhs|
    requires IdOf(a.header) !in AcceptedIds(w.accepted, to)
    requires Endpoint(h.Extend(w.supply), e + 2, y, AcceptedIds(w.accepted, to) + {IdOf(a.header)})
    ensures Live(h.Extend(w.supply), v)
  {
    OneMoreAccepted(w, a);
    TurnNames(h, w, v, to, y, a);
    TurnSides(h, w, v, to, e, y, a);
    ExtendKeepsWire(h, w.supply, w.Name(Alice), w.Name(Bob), w.wire);
    ExtendKeepsComplete(h, w.supply, w.wire);
    ReceiveKeepsPrekey(h, h.Extend(w.supply), w, v, to, y, a);
    assert SideInStep(h.Extend(w.supply), v, Alice) && SideInStep(h.Extend(w.supply), v, Bob);
  }

  lemma AcceptKeepsLive(h: History, w: World, v: World, to: Role, index: nat, k: nat, e: int, x: Session, y: Session,
                        a: Accepted) returns (g: History)
    requires Live(h, w) && index < |w.wire| && a.reader == to && Explains(w.wire[index], a)
    requires SentIn(h, w.Name(Alice), w.Name(Bob), w.wire[index], k)
    requires e == OwnEpoch(to, |h.dhs|) && Endpoint(h, e, x, AcceptedIds(w.accepted, to))
    requires e >= 0 ==> w.HasSession(to)
    requires x.Decrypt(w.wire[index].packet.ratchet,
                       BaseBetween(w.Name(Other(to)), w.Name(to), a.conversation), w.supply)
             == Ok((y, a.plaintext))
    requires ReceivedStep(w, v, to, y, a)
    ensures Live(g, v)
  {
    EpochsTurn(to, |h.dhs|, k);
    AcceptedSide(h, w, to, index, k, e, x, a);
    if k == e + 1 {
      g := h.Extend(w.supply);
      AcceptTurning(h, w, v, to, e, y, a);
    } else {
      g := h;
      AcceptInPlace(h, w, v, to, e, y, a);
    }
  }

  predicate Untouched(x: Session) {
    x.cks == None && x.ckr == None && x.dhr == None && x.ns == x.nr == x.pn == 0 && x.skipped == map[]
  }

  /** A responder whose first packet opens shares the initiator's secret and signed prekey. */
  lemma ResponderMeets(h: History, supply: nat, x: Session, n: nat, sealed: Sealed, base: Base, pair: nat)
    requires h.Valid(supply) && |h.dhs| == 1 && Genuine(h, 0, n, sealed, base)
    requires Untouched(x)
    requires x.Decrypt(sealed, base, pair).Ok?
    ensures Endpoint(h, -1, x, {})
  {
    var t := x.CatchUp(sealed.header, pair).value;
    assert t.ckr == Some(Advance(Chain(x.rk, SharedSecret(x.dhs, h.dhs[0])), n));
    KeysAreDistinct(h, 0, n, x.rk, SharedSecret(x.dhs, h.dhs[0]), n);
    SharedSecretInjective(h.dhs[0], x.dhs, h.prekey);
  }

  /** Refusing a packet leaves both records, the wire and the log as they were. */
  predicate RefusedStep(w: World, v: World, to: Role) {
    && v.Me(Other(to)) == w.Me(Other(to))
    && v.Name(to) == w.Name(to) && v.Me(to).verified == w.Me(to).verified && v.Me(to).sessions == w.Me(to).sessions
    && (to == Alice && w.HasSession(Alice) ==> v.alice == w.alice)
    && v.wire == w.wire && v.accepted == w.accepted && v.bundle == w.bundle && v.supply == w.supply + 1
  }

  lemma RefusedKeepsSide(h: History, w: World, v: World, to: Role, role: Role)
    requires SideInStep(h, w, role) && RefusedStep(w, v, to)
    ensures SideInStep(h, v, role)
  {
  }

  lemma RefusedKeepsLive(h: History, w: World, v: World, to: Role)
    requires Live(h, w) && RefusedStep(w, v, to)
    ensures Live(h, v)
  {
    RefusedKeepsSide(h, w, v, to, Alice);
    RefusedKeepsSide(h, w, v, to, Bob);
    assert PrekeyInStep(h, v) by {
      assert v.alice == w.alice;
    }
    ValidIsMonotone(h, w.supply, v.supply);
  }

  /** The record on which a delivery is decrypted. */
  function Loaded(w: World, to: Role, index: nat, header: Header, prekey: Option<Prekey>): Attempt<Session>
    requires index < |w.wire|
  {
    if w.HasSession(to) then Ok(w.SessionOf(to))
    else Respond(w.Me(to), w.Name(Other(to)).principal, Delivered(w, to, index, header, prekey)).1
  }

  lemma DeliveryOutcome(w: World, to: Role, index: nat, header: Header, prekey: Option<Prekey>, conversation: string)
    requires index < |w.wire|
    ensures var v := DeliverStep(w, to, index, header, prekey, conversation);
            var result := Outcome(w, to, index, header, prekey, conversation).1;
            var loaded := Loaded(w, to, index, header, prekey);
            var base := BaseBetween(w.Name(Other(to)), w.Name(to), conversation);
            var sealed := Sealed(header, w.wire[index].packet.ratchet.cipher);
            if loaded.Ok? && loaded.value.Decrypt(sealed, base, w.supply).Ok? then
              var (y, plaintext) := loaded.value.Decrypt(sealed, base, w.supply).value;
              && result == Ok(Some(plaintext))
              && v.accepted == w.accepted + [Accepted(to, conversation, header, plaintext)]
              && v.HasSession(to) && v.SessionOf(to) == y
              && (to == Alice && w.HasSession(Alice) ==> v.alice.device == w.alice.device)
              && v.Me(Other(to)) == w.Me(Other(to))
              && v.Name(to) == w.Name(to) && v.Me(to).verified == w.Me(to).verified
              && v.wire == w.wire && v.bundle == w.bundle && v.supply == w.supply + 1
            else result.Err? && RefusedStep(w, v, to)
  {
  }

  lemma AcceptedIsBound(w: World, to: Role, index: nat, header: Header, x: Session, conversation: string)
    requires index < |w.wire|
    requires x.Decrypt(Sealed(header, w.wire[index].packet.ratchet.cipher),
                       BaseBetween(w.Name(Other(to)), w.Name(to), conversation), w.supply).Ok?
    ensures var cipher := w.wire[index].packet.ratchet.cipher;
            var base := BaseBetween(w.Name(Other(to)), w.Name(to), conversation);
            cipher.aad == PacketAad(base, header)
            && x.Decrypt(Sealed(header, cipher), base, w.supply).value.1 == cipher.plaintext
  {
    DecryptIsBound(x, Sealed(header, w.wire[index].packet.ratchet.cipher),
                   BaseBetween(w.Name(Other(to)), w.Name(to), conversation), w.supply);
  }

  /** The record is the stored one, or that of a responder who has received nothing yet. */
  predicate Loads(w: World, to: Role, x: Session) {
    if w.HasSession(to) then x == w.SessionOf(to) else Untouched(x)
  }

  /** The endpoint that a successful delivery was made to. */
  lemma LoadedIsEndpoint(h: History, w: World, to: Role, loaded: Session, index: nat, conversation: string, k: nat)
    returns (e: int)
    requires NamesInStep(h, w) && SideInStep(h, w, to) && index < |w.wire|
    requires SentIn(h, w.Name(Alice), w.Name(Bob), w.wire[index], k) && w.wire[index].from == Other(to)
    requires conversation == w.wire[index].conversation
    requires Loads(w, to, loaded)
    requires loaded.Decrypt(w.wire[index].packet.ratchet, BaseBetween(w.Name(Other(to)), w.Name(to), conversation),
                            w.supply).Ok?
    ensures e == OwnEpoch(to, |h.dhs|) && (e >= 0 ==> w.HasSession(to))
    ensures Endpoint(h, e, loaded, AcceptedIds(w.accepted, to))
  {
    if w.HasSession(to) {
      e := SessionIsEndpoint(h, w, to);
    } else {
      e := -1;
      ResponderMeets(h, w.supply, loaded, w.wire[index].packet.ratchet.header.n, w.wire[index].packet.ratchet,
                     BaseBetween(w.Name(Other(to)), w.Name(to), conversation), w.supply);
    }
  }

  lemma LoadedLoads(w: World, to: Role, index: nat, header: Header, prekey: Option<Prekey>)
    requires index < |w.wire| && Loaded(w, to, index, header, prekey).Ok?
    ensures Loads(w, to, Loaded(w, to, index, header, prekey).value)
  {
  }

  lemma AcceptedDelivery(h: History, w: World, v: World, to: Role, index: nat, header: Header, conversation: string,
                         x: Session, y: Session, plaintext: Payload) returns (g: History)
    requires Live(h, w) && index < |w.wire| && Loads(w, to, x)
    requires x.Decrypt(Sealed(header, w.wire[index].packet.ratchet.cipher),
                       BaseBetween(w.Name(Other(to)), w.Name(to), conversation), w.supply) == Ok((y, plaintext))
    requires ReceivedStep(w, v, to, y, Accepted(to, conversation, header, plaintext))
    ensures Live(g, v)
  {
    AcceptedIsBound(w, to, index, header, x, conversation);
    assert OnWire(h, w.Name(Alice), w.Name(Bob), w.wire[index]);
    var k := BoundToWire(h, w, to, index, header, conversation);
    assert Sealed(header, w.wire[index].packet.ratchet.cipher) == w.wire[index].packet.ratchet;
    var e := LoadedIsEndpoint(h, w, to, x, index, conversation, k);
    g := AcceptKeepsLive(h, w, v, to, index, k, e, x, y, Accepted(to, conversation, header, plaintext));
  }

  lemma AliceHasSession(h: History, w: World)
    requires SideInStep(h, w, Alice)
    ensures w.HasSession(Alice)
  {
  }

  lemma DeliverKeepsLive(h: History, w: World, to: Role, index: nat, header: Header, prekey: Option<Prekey>,
                         conversation: string) returns (g: History)
    requires Live(h, w)
    ensures Live(g, DeliverStep(w, to, index, header, prekey, conversation))
  {
    g := h;
    if index < |w.wire| {
      var v := DeliverStep(w, to, index, header, prekey, conversation);
      var loaded := Loaded(w, to, index, header, prekey);
      var base := BaseBetween(w.Name(Other(to)), w.Name(to), conversation);
      var sealed := Sealed(header, w.wire[index].packet.ratchet.cipher);
      AliceHasSession(h, w);
      DeliveryOutcome(w, to, index, header, prekey, conversation);
      if loaded.Ok? && loaded.value.Decrypt(sealed, base, w.supply).Ok? {
        var (y, plaintext) := loaded.value.Decrypt(sealed, base, w.supply).value;
        LoadedLoads(w, to, index, header, prekey);
        g := AcceptedDelivery(h, w, v, to, index, header, conversation, loaded.value, y, plaintext);
      } else {
        RefusedKeepsLive(h, w, v, to);
      }
    }
  }

  // ---------------------------------------------------------------------------
  // Forged ciphertexts

  /** What no step changes about the two sides. */
  predicate SameTrust(w: World, v: World, role: Role) {
    && v.Name(role) == w.Name(role) && v.Me(role).verified == w.Me(role).verified
    && v.Me(role).device.signedPrekey == w.Me(role).device.signedPrekey
    && v.bundle == w.bundle && v.network == w.network && w.supply <= v.supply
  }

  lemma SendKeepsTrust(w: World, from: Role, plaintext: Payload, conversation: string)
    requires Trusted(w)
    ensures Trusted(SendStep(w, from, plaintext, conversation))
  {
    var v := SendStep(w, from, plaintext, conversation);
    assert SameTrust(w, v, Alice) && SameTrust(w, v, Bob);
    assert v.wire == w.wire || (|v.wire| == |w.wire| + 1 && v.wire[..|w.wire|] == w.wire
                                && (v.wire[|w.wire|].packet.prekey.Some? ==>
                                      v.wire[|w.wire|].packet.prekey.value.ephemeral == w.supply));
    forall i | 0 <= i < |v.wire| && v.wire[i].packet.prekey.Some?
      ensures v.wire[i].packet.prekey.value.ephemeral !in v.network
    {
      assert i < |w.wire| ==> v.wire[i] == w.wire[i];
    }
  }

  lemma ReceptionKeepsTrust(w: World, v: World)
    requires Trusted(w) && SameTrust(w, v, Alice) && SameTrust(w, v, Bob) && v.wire == w.wire
    ensures Trusted(v)
  {
  }

  /** Whatever a client receives, its approvals, its prekey and its names stay. */
  lemma ReceptionKeepsClient(c: ClientState, sender: string, packet: Packet, conversation: string, pair: nat)
    ensures var d := DecryptPacket(c, sender, packet, conversation, pair).0;
            && d.principal == c.principal && d.device.id == c.device.id && d.verified == c.verified
            && d.device.signedPrekey == c.device.signedPrekey
  {
  }

  lemma StepKeepsTrust(w: World, event: Event)
    requires Trusted(w)
    ensures Trusted(Step(w, event))
  {
    match event
    case SendTo(from, plaintext, conversation) => SendKeepsTrust(w, from, plaintext, conversation);
    case Deliver(to, index, header, prekey, conversation) =>
      if index < |w.wire| {
        ReceptionKeepsClient(w.Me(to), w.Name(Other(to)).principal, Delivered(w, to, index, header, prekey),
                             conversation, w.supply);
        ReceptionKeepsTrust(w, DeliverStep(w, to, index, header, prekey, conversation));
      }
    case Inject(to, cipher, header, prekey, conversation) =>
      if IsForgeable(w, to, cipher) {
        ReceptionKeepsClient(w.Me(to), w.Name(Other(to)).principal, Injected(w, to, cipher, header, prekey),
                             conversation, w.supply);
        ReceptionKeepsTrust(w, InjectStep(w, to, cipher, header, prekey, conversation));
      }
  }

  /** The record on which an injected packet is decrypted. */
  function InjectionLoads(w: World, to: Role, cipher: Cipher, header: Header, prekey: Option<Prekey>): Attempt<Session>
  {
    if w.HasSession(to) then Ok(w.SessionOf(to))
    else Respond(w.Me(to), w.Name(Other(to)).principal, Injected(w, to, cipher, header, prekey)).1
  }

  lemma InjectionIsRefused(w: World, to: Role, cipher: Cipher, header: Header, prekey: Option<Prekey>,
                           conversation: string)
    requires IsForgeable(w, to, cipher)
    requires var loaded := InjectionLoads(w, to, cipher, header, prekey);
             loaded.Ok? ==> IsSecret(w.network, loaded.value)
    ensures InjectionOutcome(w, to, cipher, header, prekey, conversation).1.Err?
    ensures RefusedStep(w, InjectStep(w, to, cipher, header, prekey, conversation), to)
  {
    var loaded := InjectionLoads(w, to, cipher, header, prekey);
    var base := BaseBetween(w.Name(Other(to)), w.Name(to), conversation);
    if loaded.Ok? && loaded.value.Decrypt(Sealed(header, cipher), base, w.supply).Ok? {
      OpenedIsSecret(w.network, loaded.value, Sealed(header, cipher), base, w.supply);
      DecryptIsBound(loaded.value, Sealed(header, cipher), base, w.supply);
      assert false;
    }
  }

  /** A session that answers a prekey under an approved name agrees with a key that the network does not hold. */
  lemma NewSessionIsSecret(w: World, to: Role, cipher: Cipher, header: Header, prekey: Option<Prekey>)
    requires Trusted(w) && !w.HasSession(to) && InjectionLoads(w, to, cipher, header, prekey).Ok?
    ensures IsSecret(w.network, InjectionLoads(w, to, cipher, header, prekey).value)
  {
    var mine, theirs := w.Me(to).device.signedPrekey, prekey.value.senderIdentity;
    var secret := InjectionLoads(w, to, cipher, header, prekey).value.rk;
    assert mine !in w.network && theirs !in w.network;
    SharedIsSecret(w.network, mine, theirs);
    assert secret.parts[0] == SharedSecret(mine, theirs);
    SecretPart(w.network, secret.parts, 0);
  }

  /** Alice's agreement has a part that the network cannot derive. */
  lemma BeginningIsSecret(h: History, w: World)
    requires PrekeyInStep(h, w) && Trusted(w)
    ensures !Derivable(w.network, h.roots[0])
  {
    Prekeys.SecretIsDerivableIff(w.network, w.alice, w.bundle, w.wire[0].packet.prekey.value.ephemeral);
  }

  lemma LoadedIsSecret(h: History, w: World, to: Role, cipher: Cipher, header: Header, prekey: Option<Prekey>)
    requires Live(h, w) && Trusted(w) && InjectionLoads(w, to, cipher, header, prekey).Ok?
    ensures IsSecret(w.network, InjectionLoads(w, to, cipher, header, prekey).value)
  {
    if w.HasSession(to) {
      BeginningIsSecret(h, w);
      var e := SessionIsEndpoint(h, w, to);
      EndpointIsSecret(w.network, h, e, w.SessionOf(to), AcceptedIds(w.accepted, to));
    } else {
      NewSessionIsSecret(w, to, cipher, header, prekey);
    }
  }

  lemma InjectKeepsLive(h: History, w: World, to: Role, cipher: Cipher, header: Header, prekey: Option<Prekey>,
                        conversation: string)
    requires Live(h, w) && Trusted(w)
    ensures Live(h, InjectStep(w, to, cipher, header, prekey, conversation))
  {
    if IsForgeable(w, to, cipher) {
      if InjectionLoads(w, to, cipher, header, prekey).Ok? {
        LoadedIsSecret(h, w, to, cipher, header, prekey);
      }
      InjectionIsRefused(w, to, cipher, header, prekey, conversation);
      RefusedKeepsLive(h, w, InjectStep(w, to, cipher, header, prekey, conversation), to);
    }
  }

  // ---------------------------------------------------------------------------
  // Every run

  lemma InitialStep(w: World, event: Event) returns (live: bool, g: History)
    requires Initial(w)
    ensures if live then Live(g, Step(w, event)) else Initial(Step(w, event))
  {
    live, g := false, History(0, [], [], []);
    StepKeepsTrust(w, event);
    if event.SendTo? && event.from == Alice {
      live, g := FirstSend(w, event.plaintext, event.conversation);
    } else if event.Inject? && IsForgeable(w, event.to, event.cipher) {
      if InjectionLoads(w, event.to, event.cipher, event.header, event.prekey).Ok? {
        NewSessionIsSecret(w, event.to, event.cipher, event.header, event.prekey);
      }
      InjectionIsRefused(w, event.to, event.cipher, event.header, event.prekey, event.conversation);
    }
  }

  lemma SendStepKeepsLive(h: History, w: World, from: Role, plaintext: Payload, conversation: string)
    returns (g: History)
    requires Live(h, w)
    ensures Live(g, SendStep(w, from, plaintext, conversation))
  {
    AliceHasSession(h, w);
    if from == Bob && !w.HasSession(Bob) {
      g := h;
    } else {
      g := SendWithSession(h, w, from, plaintext, conversation);
    }
  }

  lemma LiveStep(h: History, w: World, event: Event) returns (g: History)
    requires Live(h, w) && Trusted(w)
    ensures Live(g, Step(w, event))
  {
    match event
    case SendTo(from, plaintext, conversation) => g := SendStepKeepsLive(h, w, from, plaintext, conversation);
    case Deliver(to, index, header, prekey, conversation) =>
      g := DeliverKeepsLive(h, w, to, index, header, prekey, conversation);
    case Inject(to, cipher, header, prekey, conversation) =>
      g := h;
      InjectKeepsLive(h, w, to, cipher, header, prekey, conversation);
  }

  /** Every reachable world is either untouched or explained by one history that both ends agree on. */
  lemma {:induction false} RunKeepsStep(w: World, events: seq<Event>) returns (live: bool, h: History)
    requires Initial(w)
    ensures if live then Live(h, Run(w, events)) else Initial(Run(w, events))
    ensures Trusted(Run(w, events))
    decreases |events|
  {
    live, h := false, History(0, [], [], []);
    if events == [] {
    } else {
      var before := Run(w, events[..|events| - 1]);
      live, h := RunKeepsStep(w, events[..|events| - 1]);
      StepKeepsTrust(before, events[|events| - 1]);
      if live {
        h := LiveStep(h, before, events[|events| - 1]);
      } else {
        live, h := InitialStep(before, events[|events| - 1]);
      }
    }
  }
}
