/** Envelopes between the two clients of a run: the packet that an envelope carries for the other side is the one that
the run puts on the wire, and the envelope is read exactly when that packet is acceptable. */
module EnvelopesInRuns {
  import opened Wrappers
  import opened Sequences
  import opened Keys
  import opened Ratchet
  import opened Transport
  import opened Runs
  import opened Guarantees
  import opened Envelopes

  // ---------------------------------------------------------------------------
  // Addresses on the wire

  predicate IsAddressed(w: World, sent: Sent) {
    var me, you := w.Name(sent.from), w.Name(Other(sent.from));
    && sent.packet.recipient == you.principal && sent.packet.recipientDevice == you.device
    && sent.packet.senderDevice == me.device
  }

  predicate AllAddressed(w: World) {
    w.bundle.deviceId == w.bob.device.id && forall i :: 0 <= i < |w.wire| ==> IsAddressed(w, w.wire[i])
  }

  /** What no event changes. */
  predicate Continues(w: World, v: World) {
    v.Name(Alice) == w.Name(Alice) && v.Name(Bob) == w.Name(Bob) && w.wire <= v.wire
  }

  lemma SendContinues(w: World, from: Role, plaintext: Payload, conversation: string)
    requires AllAddressed(w)
    ensures var v := SendStep(w, from, plaintext, conversation); Continues(w, v) && AllAddressed(v)
  {
  }

  lemma DeliveryContinues(w: World, to: Role, index: nat, header: Header, prekey: Option<Prekey>,
                          conversation: string)
    requires AllAddressed(w)
    ensures var v := DeliverStep(w, to, index, header, prekey, conversation); Continues(w, v) && AllAddressed(v)
  {
    if index < |w.wire| {
      DeliveryOutcome(w, to, index, header, prekey, conversation);
    }
  }

  lemma StepContinues(w: World, event: Event)
    requires AllAddressed(w)
    ensures Continues(w, Step(w, event)) && AllAddressed(Step(w, event))
  {
    match event
    case SendTo(from, plaintext, conversation) => SendContinues(w, from, plaintext, conversation);
    case Deliver(to, index, header, prekey, conversation) =>
      DeliveryContinues(w, to, index, header, prekey, conversation);
    case Inject(to, cipher, header, prekey, conversation) =>
      ReceptionKeepsClient(w.Me(to), w.Name(Other(to)).principal, Injected(w, to, cipher, header, prekey),
                           conversation, w.supply);
  }

  lemma {:induction false} RunContinues(start: World, events: seq<Event>, later: seq<Event>)
    requires AllAddressed(Run(start, events))
    ensures Continues(Run(start, events), Run(start, events + later)) && AllAddressed(Run(start, events + later))
    decreases |later|
  {
    if later == [] {
      AppendNothing(events);
    } else {
      var front, last := later[..|later| - 1], later[|later| - 1];
      RunContinues(start, events, front);
      AppendLast(events, later);
      RunOneMore(start, events + front, last);
      StepContinues(Run(start, events + front), last);
    }
  }

  lemma ReachableIsAddressed(start: World, events: seq<Event>)
    requires Initial(start)
    ensures AllAddressed(Run(start, events))
  {
    AppendNothing(events);
    RunContinues(start, [], events);
  }

  // ---------------------------------------------------------------------------
  // The packet for the other side

  /** The next packet of a stored session. */
  function NextPacket(c: ClientState, peer: Peer, plaintext: Payload, conversation: string): Attempt<Packet>
    requires peer in c.sessions
  {
    var (after, sealed) :- c.sessions[peer].Encrypt(plaintext, Base(conversation, c.principal, c.device.id,
                                                                    peer.principal, peer.device));
    Ok(Packet(peer.principal, peer.device, c.device.id, None, sealed))
  }

  predicate SameSession(c: ClientState, d: ClientState, peer: Peer)
    requires peer in c.sessions
  {
    d.principal == c.principal && d.device == c.device && peer in d.sessions && d.sessions[peer] == c.sessions[peer]
  }

  /** Among these packets the first one for `peer` continues its session; without one its session is untouched. */
  predicate FirstContinues(c: ClientState, peer: Peer, plaintext: Payload, conversation: string, sending: Sending)
    requires peer in c.sessions
  {
    sending.1.Ok? ==>
      match FirstFor(sending.1.value, peer.principal, peer.device)
      case Some(packet) => NextPacket(c, peer, plaintext, conversation) == Ok(packet)
      case None => SameSession(c, sending.0, peer)
  }

  lemma {:induction false} FirstForAppend(left: seq<Packet>, right: seq<Packet>, principal: string, device: string)
    ensures FirstFor(left + right, principal, device)
            == if FirstFor(left, principal, device).Some? then FirstFor(left, principal, device)
               else FirstFor(right, principal, device)
  {
    if left == [] {
      assert left + right == right;
    } else {
      FirstForAppend(left[1..], right, principal, device);
      assert (left + right)[1..] == left[1..] + right;
    }
  }

  lemma FirstContinuesThen(c: ClientState, one: Sending, peer: Peer, plaintext: Payload, conversation: string,
                           rest: Sending)
    requires peer in c.sessions && peer in one.0.sessions && peer in rest.0.sessions
    requires FirstContinues(c, peer, plaintext, conversation, one)
    requires FirstContinues(one.0, peer, plaintext, conversation, rest)
    ensures peer in Then(one, rest).0.sessions && FirstContinues(c, peer, plaintext, conversation, Then(one, rest))
  {
    if one.1.Ok? && rest.1.Ok? {
      FirstForAppend(one.1.value, rest.1.value, peer.principal, peer.device);
    }
  }

  lemma FirstForOne(packet: Packet, peer: Peer)
    ensures FirstFor([packet], peer.principal, peer.device)
            == if packet.recipient == peer.principal && packet.recipientDevice == peer.device then Some(packet)
               else None
  {
  }

  lemma OnePacketContinues(c: ClientState, peer: Peer, recipient: string, bundle: Bundle, plaintext: Payload,
                           conversation: string, ephemeral: nat, pair: nat)
    requires peer in c.sessions
    ensures var one := OnePacket(c, EncryptPacket(c, recipient, bundle, plaintext, conversation, ephemeral, pair));
            peer in one.0.sessions && FirstContinues(c, peer, plaintext, conversation, one)
  {
    var outcome := EncryptPacket(c, recipient, bundle, plaintext, conversation, ephemeral, pair);
    if outcome.Ok? {
      FirstForOne(outcome.value.1, peer);
    }
  }

  lemma {:induction false} SendAllContinues(c: ClientState, peer: Peer, recipient: string, bundles: seq<Bundle>,
                                            plaintext: Payload, conversation: string, supply: nat)
    requires peer in c.sessions
    ensures var sending := SendAll(c, recipient, bundles, plaintext, conversation, supply);
            peer in sending.0.sessions && FirstContinues(c, peer, plaintext, conversation, sending)
    decreases |bundles|
  {
    if bundles == [] {
    } else {
      var one := OnePacket(c, EncryptPacket(c, recipient, bundles[0], plaintext, conversation, supply, supply + 1));
      OnePacketContinues(c, peer, recipient, bundles[0], plaintext, conversation, supply, supply + 1);
      SendAllContinues(one.0, peer, recipient, bundles[1..], plaintext, conversation, supply + 2);
      FirstContinuesThen(c, one, peer, plaintext, conversation,
                         SendAll(one.0, recipient, bundles[1..], plaintext, conversation, supply + 2));
    }
  }

  lemma SendToOneContinues(c: ClientState, peer: Peer, recipient: string, answer: Directory, plaintext: Payload,
                           conversation: string, supply: nat)
    requires peer in c.sessions
    ensures var sending := SendToOne(c, recipient, answer, plaintext, conversation, supply);
            peer in sending.0.sessions && FirstContinues(c, peer, plaintext, conversation, sending)
  {
    var bundles := BundlesFor(c, recipient, answer);
    if bundles.Ok? {
      SendAllContinues(c, peer, recipient, bundles.value, plaintext, conversation, supply);
    }
  }

  lemma {:induction false} SendToMembersContinues(c: ClientState, peer: Peer, recipients: seq<string>,
                                                  directories: seq<Directory>, plaintext: Payload,
                                                  conversation: string, supply: nat)
    requires peer in c.sessions && |directories| == |recipients|
    ensures var sending := SendToMembers(c, recipients, directories, plaintext, conversation, supply);
            peer in sending.0.sessions && FirstContinues(c, peer, plaintext, conversation, sending)
    decreases |recipients|
  {
    if recipients == [] {
    } else {
      var one := SendToOne(c, recipients[0], directories[0], plaintext, conversation, supply);
      var next := supply + 2 * |directories[0].devices|;
      SendToOneContinues(c, peer, recipients[0], directories[0], plaintext, conversation, supply);
      SendToMembersContinues(one.0, peer, recipients[1..], directories[1..], plaintext, conversation, next);
      FirstContinuesThen(c, one, peer, plaintext, conversation,
                         SendToMembers(one.0, recipients[1..], directories[1..], plaintext, conversation, next));
    }
  }

  /** The first packet that an envelope carries for a peer continues the session with that peer. */
  lemma EnvelopeContinues(c: ClientState, peer: Peer, conversation: Conversation, plaintext: Payload,
                          recipients: seq<string>, directories: seq<Directory>, supply: nat)
    requires peer in c.sessions && recipients == Others(conversation.members, c.principal)
    requires |directories| == |recipients| && peer in MemberAddresses(recipients, directories)
    requires EncryptConversation(c, conversation, plaintext, directories, supply).1.Ok?
    ensures var envelope := EncryptConversation(c, conversation, plaintext, directories, supply).1.value;
            var packet := FirstFor(envelope.packets, peer.principal, peer.device);
            packet.Some?
            && NextPacket(c, peer, Carried(c, conversation, plaintext, supply), conversation.id) == Ok(packet.value)
  {
    var carried := Carried(c, conversation, plaintext, supply);
    EnvelopeIsShaped(c, conversation, plaintext, recipients, directories, supply);
    var envelope := EncryptConversation(c, conversation, plaintext, directories, supply).1.value;
    FirstForIsAddressed(envelope.packets, peer.principal, peer.device);
    if conversation.direct {
      SendToMembersContinues(c, peer, recipients, directories, carried, conversation.id, supply);
    } else {
      SendToMembersContinues(c, peer, recipients, directories, carried, conversation.id, supply + 2);
    }
  }

  // ---------------------------------------------------------------------------
  // Reading in a run

  lemma SentIsNextPacket(w: World, from: Role, plaintext: Payload, conversation: string)
    requires w.HasSession(from) && w.bundle.deviceId == w.bob.device.id
    requires NextPacket(w.Me(from), w.Name(Other(from)), plaintext, conversation).Ok?
    ensures var v := Step(w, SendTo(from, plaintext, conversation));
            && |v.wire| == |w.wire| + 1
            && var sent := v.wire[|w.wire|];
               && sent.from == from && sent.conversation == conversation
               && Ok(sent.packet) == NextPacket(w.Me(from), w.Name(Other(from)), plaintext, conversation)
  {
    SendIsNextSent(w, from, plaintext, conversation);
  }

  /** An unaltered delivery is a call on the packet itself. */
  lemma DeliveredIsSent(w: World, to: Role, index: nat)
    requires AllAddressed(w) && index < |w.wire| && w.wire[index].from == Other(to)
    ensures var sent := w.wire[index];
            Outcome(w, to, index, sent.packet.ratchet.header, sent.packet.prekey, sent.conversation)
            == DecryptPacket(w.Me(to), w.Name(Other(to)).principal, sent.packet, sent.conversation, w.supply)
  {
    var packet := w.wire[index].packet;
    assert IsAddressed(w, w.wire[index]);
    assert Sealed(packet.ratchet.header, packet.ratchet.cipher) == packet.ratchet;
    assert Delivered(w, to, index, packet.ratchet.header, packet.prekey) == packet;
  }

  /** In every reachable world an envelope whose packet for this side is on the wire is read as its plaintext exactly
      when that packet is acceptable; otherwise it is refused. */
  lemma EnvelopeOpensIff(start: World, events: seq<Event>, to: Role, index: nat, envelope: Envelope,
                         plaintext: Payload, known: Option<Conversation>)
    requires Initial(start)
    requires var w := Run(start, events);
             && index < |w.wire| && w.wire[index].from == Other(to) && w.HasSession(to)
             && FirstFor(envelope.packets, w.Name(to).principal, w.Name(to).device) == Some(w.wire[index].packet)
             && w.wire[index].conversation == envelope.conversation
             && ReadsAs(w.Me(to), envelope, w.Name(Other(to)).principal, known, w.supply, plaintext)
    ensures var w := Run(start, events);
            var read := DecryptEnvelope(w.Me(to), envelope, w.Name(Other(to)).principal, envelope.conversation, known,
                                        w.supply).1;
            if Acceptable(w, to, w.wire[index].packet.ratchet.header) then read == Ok(plaintext) else read.Err?
  {
    var w := Run(start, events);
    ReachableIsAddressed(start, events);
    DeliveredIsSent(w, to, index);
    PacketsOpenExactlyOnce(start, events, to, index, w.wire[index].packet.prekey);
  }

  lemma PacketStaysOnWire(start: World, events: seq<Event>, to: Role, carried: Payload, id: string,
                          later: seq<Event>)
    requires Initial(start) && Run(start, events).HasSession(Other(to))
    requires var w := Run(start, events); NextPacket(w.Me(Other(to)), w.Name(to), carried, id).Ok?
    ensures var w, v := Run(start, events), Run(start, events + [SendTo(Other(to), carried, id)] + later);
            && v.Name(Alice) == w.Name(Alice) && v.Name(Bob) == w.Name(Bob) && v.Name(Alice) != v.Name(Bob)
            && |w.wire| < |v.wire|
            && var sent := v.wire[|w.wire|];
               && sent.from == Other(to) && sent.conversation == id
               && Ok(sent.packet) == NextPacket(w.Me(Other(to)), w.Name(to), carried, id)
  {
    var w, sending := Run(start, events), SendTo(Other(to), carried, id);
    var live, h := RunKeepsStep(start, events);
    ReachableIsAddressed(start, events);
    SentIsNextPacket(w, Other(to), carried, id);
    RunOneMore(start, events, sending);
    StepContinues(w, sending);
    RunContinues(start, events + [sending], later);
  }

  lemma WireIsNotEmpty(start: World, events: seq<Event>, role: Role)
    requires Initial(start) && Run(start, events).HasSession(role)
    ensures |Run(start, events).wire| > 0
  {
    var live, h := RunKeepsStep(start, events);
  }

  lemma OnlyBobWaits(start: World, events: seq<Event>, to: Role)
    requires Initial(start) && |Run(start, events).wire| > 0 && !Run(start, events).HasSession(to)
    ensures to == Bob
  {
    var live, h := RunKeepsStep(start, events);
    AliceHasSession(h, Run(start, events));
  }

  /** Without a session at the reader, an envelope of a sender who has one is refused. */
  lemma EnvelopeWaits(start: World, events: seq<Event>, all: seq<Event>, to: Role, envelope: Envelope,
                      plaintext: Payload, known: Option<Conversation>)
    requires Initial(start) && Run(start, events).HasSession(Other(to))
    requires var index, v := |Run(start, events).wire|, Run(start, all);
             && index < |v.wire| && v.wire[index].from == Other(to) && !v.HasSession(to)
             && FirstFor(envelope.packets, v.Name(to).principal, v.Name(to).device) == Some(v.wire[index].packet)
             && v.wire[index].conversation == envelope.conversation
             && ReadsAs(v.Me(to), envelope, v.Name(Other(to)).principal, known, v.supply, plaintext)
    ensures var v := Run(start, all);
            DecryptEnvelope(v.Me(to), envelope, v.Name(Other(to)).principal, envelope.conversation, known,
                            v.supply).1.Err?
  {
    var index, v := |Run(start, events).wire|, Run(start, all);
    WireIsNotEmpty(start, events, Other(to));
    OnlyBobWaits(start, all, to);
    ReachableIsAddressed(start, all);
    DeliveredIsSent(v, to, index);
    LaterPacketsWait(start, all, index);
  }

  /** One side with a session seals an envelope that addresses the other and the run sends its packet. At every later
      point the other side reads the envelope exactly when it has a session in which the packet is acceptable. */
  lemma EnvelopeIsReadIff(start: World, events: seq<Event>, to: Role, conversation: Conversation, plaintext: Payload,
                          directories: seq<Directory>, supply: nat, later: seq<Event>, known: Option<Conversation>)
    requires Initial(start) && Knows(known, conversation)
    requires var w := Run(start, events);
             var c := w.Me(Other(to));
             && w.HasSession(Other(to)) && |directories| == |Others(conversation.members, c.principal)|
             && EncryptConversation(c, conversation, plaintext, directories, supply).1.Ok?
             && w.Name(to) in MemberAddresses(Others(conversation.members, c.principal), directories)
    ensures var w := Run(start, events);
            var c := w.Me(Other(to));
            var envelope := EncryptConversation(c, conversation, plaintext, directories, supply).1.value;
            var sending := [SendTo(Other(to), Carried(c, conversation, plaintext, supply), conversation.id)];
            var v := Run(start, events + sending + later);
            && |w.wire| < |v.wire|
            && var read := DecryptEnvelope(v.Me(to), envelope, c.principal, conversation.id, known, v.supply).1;
               if v.HasSession(to) && Acceptable(v, to, v.wire[|w.wire|].packet.ratchet.header)
               then read == Ok(plaintext) else read.Err?
  {
    var w := Run(start, events);
    var c := w.Me(Other(to));
    var recipients := Others(conversation.members, c.principal);
    var carried := Carried(c, conversation, plaintext, supply);
    var envelope := EncryptConversation(c, conversation, plaintext, directories, supply).1.value;
    var sent := events + [SendTo(Other(to), carried, conversation.id)];
    var v := Run(start, sent + later);
    EnvelopeContinues(c, w.Name(to), conversation, plaintext, recipients, directories, supply);
    PacketStaysOnWire(start, events, to, carried, conversation.id, later);
    EnvelopeRoundTrip(c, conversation, plaintext, recipients, directories, supply, v.Me(to), known, v.supply);
    if v.HasSession(to) {
      EnvelopeOpensIff(start, sent + later, to, |w.wire|, envelope, plaintext, known);
    } else {
      EnvelopeWaits(start, events, sent + later, to, envelope, plaintext, known);
    }
  }

  // ---------------------------------------------------------------------------
  // The first envelope

  function FirstBundle(bundles: seq<Bundle>, device: string): Option<Bundle> {
    if bundles == [] then None
    else if bundles[0].deviceId == device then Some(bundles[0])
    else FirstBundle(bundles[1..], device)
  }

  function Earlier(first: Option<Bundle>, second: Option<Bundle>): Option<Bundle> {
    if first.Some? then first else second
  }

  function BundleFrom(recipient: string, bundles: seq<Bundle>, peer: Peer): Option<Bundle> {
    if recipient == peer.principal then FirstBundle(bundles, peer.device) else None
  }

  /** The bundle that a new session with `peer` is started from. */
  function BundleUsed(recipients: seq<string>, directories: seq<Directory>, peer: Peer): Option<Bundle>
    requires |directories| == |recipients|
  {
    if recipients == [] then None
    else
      Earlier(BundleFrom(recipients[0], ChooseAll(recipients[0], directories[0].devices, directories[0].bundles), peer),
              BundleUsed(recipients[1..], directories[1..], peer))
  }

  /** `packet` is what starting a session from this bundle gives. */
  predicate Starts(c: ClientState, peer: Peer, bundle: Bundle, plaintext: Payload, conversation: string,
                   ephemeral: nat, packet: Packet)
  {
    var started := EncryptPacket(c.(sessions := map[]), peer.principal, bundle, plaintext, conversation, ephemeral,
                                 ephemeral + 1);
    started.Ok? && started.value.1 == packet
  }

  predicate SameButSessions(c: ClientState, d: ClientState) {
    d.(sessions := c.sessions) == c
  }

  ghost predicate StartsFrom(c: ClientState, peer: Peer, bundle: Option<Bundle>, plaintext: Payload,
                             conversation: string, supply: nat, packet: Packet)
  {
    bundle.Some? && exists ephemeral: nat ::
      supply <= ephemeral && Starts(c, peer, bundle.value, plaintext, conversation, ephemeral, packet)
  }

  /** Among these packets the first one for `peer` starts a session; without one there is still no session. */
  ghost predicate FirstStarts(c: ClientState, peer: Peer, bundle: Option<Bundle>, plaintext: Payload,
                              conversation: string, supply: nat, sending: Sending)
  {
    sending.1.Ok? ==>
      match FirstFor(sending.1.value, peer.principal, peer.device)
      case Some(packet) => StartsFrom(c, peer, bundle, plaintext, conversation, supply, packet)
      case None => bundle.None? && SameButSessions(c, sending.0) && peer !in sending.0.sessions
  }

  lemma StartsTogether(c: ClientState, d: ClientState, peer: Peer, bundle: Option<Bundle>, plaintext: Payload,
                       conversation: string, supply: nat, next: nat, packet: Packet)
    requires SameButSessions(c, d) && supply <= next
    requires StartsFrom(d, peer, bundle, plaintext, conversation, next, packet)
    ensures StartsFrom(c, peer, bundle, plaintext, conversation, supply, packet)
  {
    var ephemeral: nat :| next <= ephemeral
                          && Starts(d, peer, bundle.value, plaintext, conversation, ephemeral, packet);
    assert c.(sessions := map[]) == d.(sessions := map[]);
    assert Starts(c, peer, bundle.value, plaintext, conversation, ephemeral, packet);
  }

  lemma FirstStartsThen(c: ClientState, one: Sending, peer: Peer, first: Option<Bundle>, second: Option<Bundle>,
                        plaintext: Payload, conversation: string, supply: nat, next: nat, rest: Sending)
    requires FirstStarts(c, peer, first, plaintext, conversation, supply, one) && supply <= next
    requires peer !in one.0.sessions ==> FirstStarts(one.0, peer, second, plaintext, conversation, next, rest)
    ensures FirstStarts(c, peer, Earlier(first, second), plaintext, conversation, supply, Then(one, rest))
  {
    if one.1.Ok? && rest.1.Ok? {
      FirstForAppend(one.1.value, rest.1.value, peer.principal, peer.device);
      var mine, theirs := FirstFor(one.1.value, peer.principal, peer.device),
                          FirstFor(rest.1.value, peer.principal, peer.device);
      if mine.None? && theirs.Some? {
        StartsTogether(c, one.0, peer, second, plaintext, conversation, supply, next, theirs.value);
      }
    }
  }

  lemma OnePacketStarts(c: ClientState, peer: Peer, recipient: string, bundle: Bundle, plaintext: Payload,
                        conversation: string, ephemeral: nat)
    requires peer !in c.sessions
    ensures FirstStarts(c, peer, BundleFrom(recipient, [bundle], peer), plaintext, conversation, ephemeral,
                        OnePacket(c, EncryptPacket(c, recipient, bundle, plaintext, conversation, ephemeral,
                                                   ephemeral + 1)))
  {
    var outcome := EncryptPacket(c, recipient, bundle, plaintext, conversation, ephemeral, ephemeral + 1);
    assert FirstBundle([bundle], peer.device) == if bundle.deviceId == peer.device then Some(bundle) else None;
    if outcome.Ok? {
      FirstForOne(outcome.value.1, peer);
      if recipient == peer.principal && bundle.deviceId == peer.device {
        assert Starts(c, peer, bundle, plaintext, conversation, ephemeral, outcome.value.1);
      }
    }
  }

  lemma FirstBundleThen(recipient: string, bundles: seq<Bundle>, peer: Peer)
    requires bundles != []
    ensures BundleFrom(recipient, bundles, peer)
            == Earlier(BundleFrom(recipient, [bundles[0]], peer), BundleFrom(recipient, bundles[1..], peer))
  {
    assert FirstBundle([bundles[0]], peer.device)
           == if bundles[0].deviceId == peer.device then Some(bundles[0]) else None;
  }

  lemma {:induction false} SendAllStarts(c: ClientState, peer: Peer, recipient: string, bundles: seq<Bundle>,
                                         plaintext: Payload, conversation: string, supply: nat)
    requires peer !in c.sessions
    ensures FirstStarts(c, peer, BundleFrom(recipient, bundles, peer), plaintext, conversation, supply,
                        SendAll(c, recipient, bundles, plaintext, conversation, supply))
    decreases |bundles|
  {
    if bundles == [] {
    } else {
      var one := OnePacket(c, EncryptPacket(c, recipient, bundles[0], plaintext, conversation, supply, supply + 1));
      OnePacketStarts(c, peer, recipient, bundles[0], plaintext, conversation, supply);
      if peer !in one.0.sessions {
        SendAllStarts(one.0, peer, recipient, bundles[1..], plaintext, conversation, supply + 2);
      }
      FirstStartsThen(c, one, peer, BundleFrom(recipient, [bundles[0]], peer),
                      BundleFrom(recipient, bundles[1..], peer), plaintext, conversation, supply, supply + 2,
                      SendAll(one.0, recipient, bundles[1..], plaintext, conversation, supply + 2));
      FirstBundleThen(recipient, bundles, peer);
    }
  }

  /** A device without a session makes the server's bundles be asked for; other devices do not matter. */
  lemma {:induction false} ChosenWithoutSession(c: ClientState, peer: Peer, recipient: string,
                                                devices: seq<DirectoryDevice>, handedOut: seq<Bundle>)
    requires peer !in c.sessions && recipient == peer.principal && AllInSession(c, recipient, devices)
    ensures FirstBundle(ChooseAll(recipient, devices, []), peer.device).None?
    ensures FirstBundle(ChooseAll(recipient, devices, handedOut), peer.device).None?
  {
    if devices == [] {
    } else {
      assert Peer(recipient, devices[0].id) in c.sessions;
      assert AllInSession(c, recipient, devices[1..]) by {
        assert forall i :: 0 <= i < |devices| - 1 ==> devices[1..][i] == devices[i + 1];
      }
      ChosenWithoutSession(c, peer, recipient, devices[1..], handedOut);
    }
  }

  lemma SendToOneStarts(c: ClientState, peer: Peer, recipient: string, answer: Directory, plaintext: Payload,
                        conversation: string, supply: nat)
    requires peer !in c.sessions
    ensures FirstStarts(c, peer, BundleFrom(recipient, ChooseAll(recipient, answer.devices, answer.bundles), peer),
                        plaintext, conversation, supply,
                        SendToOne(c, recipient, answer, plaintext, conversation, supply))
  {
    var bundles := BundlesFor(c, recipient, answer);
    if bundles.Ok? {
      SendAllStarts(c, peer, recipient, bundles.value, plaintext, conversation, supply);
      if recipient == peer.principal && AllInSession(c, recipient, answer.devices) {
        ChosenWithoutSession(c, peer, recipient, answer.devices, answer.bundles);
      }
    }
  }

  lemma {:induction false} SendToMembersStarts(c: ClientState, peer: Peer, recipients: seq<string>,
                                               directories: seq<Directory>, plaintext: Payload, conversation: string,
                                               supply: nat)
    requires peer !in c.sessions && |directories| == |recipients|
    ensures FirstStarts(c, peer, BundleUsed(recipients, directories, peer), plaintext, conversation, supply,
                        SendToMembers(c, recipients, directories, plaintext, conversation, supply))
    decreases |recipients|
  {
    if recipients == [] {
    } else {
      var one := SendToOne(c, recipients[0], directories[0], plaintext, conversation, supply);
      var next := supply + 2 * |directories[0].devices|;
      SendToOneStarts(c, peer, recipients[0], directories[0], plaintext, conversation, supply);
      if peer !in one.0.sessions {
        SendToMembersStarts(one.0, peer, recipients[1..], directories[1..], plaintext, conversation, next);
      }
      var bundles := ChooseAll(recipients[0], directories[0].devices, directories[0].bundles);
      FirstStartsThen(c, one, peer, BundleFrom(recipients[0], bundles, peer),
                      BundleUsed(recipients[1..], directories[1..], peer), plaintext, conversation, supply, next,
                      SendToMembers(one.0, recipients[1..], directories[1..], plaintext, conversation, next));
    }
  }

  /** The first packet that an envelope carries for a peer without a session starts one, from the bundle that the server
      handed out for it or its directory entry. */
  lemma EnvelopeStarts(c: ClientState, peer: Peer, conversation: Conversation, plaintext: Payload,
                       recipients: seq<string>, directories: seq<Directory>, supply: nat)
    requires peer !in c.sessions && recipients == Others(conversation.members, c.principal)
    requires |directories| == |recipients| && peer in MemberAddresses(recipients, directories)
    requires EncryptConversation(c, conversation, plaintext, directories, supply).1.Ok?
    ensures var envelope := EncryptConversation(c, conversation, plaintext, directories, supply).1.value;
            var packet := FirstFor(envelope.packets, peer.principal, peer.device);
            packet.Some?
            && StartsFrom(c, peer, BundleUsed(recipients, directories, peer),
                          Carried(c, conversation, plaintext, supply), conversation.id, supply, packet.value)
  {
    var carried := Carried(c, conversation, plaintext, supply);
    var envelope := EncryptConversation(c, conversation, plaintext, directories, supply).1.value;
    var bundle := BundleUsed(recipients, directories, peer);
    EnvelopeIsShaped(c, conversation, plaintext, recipients, directories, supply);
    FirstForIsAddressed(envelope.packets, peer.principal, peer.device);
    var packet := FirstFor(envelope.packets, peer.principal, peer.device).value;
    if conversation.direct {
      SendToMembersStarts(c, peer, recipients, directories, carried, conversation.id, supply);
    } else {
      SendToMembersStarts(c, peer, recipients, directories, carried, conversation.id, supply + 2);
      StartsTogether(c, c, peer, bundle, carried, conversation.id, supply, supply + 2, packet);
    }
  }

  /** The run that Alice's first envelope begins: it starts from the bundle and the keys that the envelope used. */
  function Begun(start: World, bundle: Bundle, ephemeral: nat): World {
    start.(bundle := bundle, supply := ephemeral)
  }

  lemma BegunIsInitial(start: World, bundle: Bundle, ephemeral: nat)
    requires Initial(start) && start.supply <= ephemeral
    requires bundle.deviceId == start.bob.device.id && bundle.signedPrekey < ephemeral
    requires bundle.identity !in start.network
    ensures Initial(Begun(start, bundle, ephemeral))
  {
  }

  lemma StartIsSent(start: World, bundle: Bundle, plaintext: Payload, conversation: string, ephemeral: nat,
                    packet: Packet)
    requires !start.HasSession(Alice) && start.wire == [] && bundle.deviceId == start.bob.device.id
    requires Starts(start.alice, start.Name(Bob), bundle, plaintext, conversation, ephemeral, packet)
    ensures var v := Step(Begun(start, bundle, ephemeral), SendTo(Alice, plaintext, conversation));
            |v.wire| == 1 && v.wire[0].packet == packet && v.wire[0].conversation == conversation
            && v.wire[0].from == Alice && v.wire[0].plaintext == plaintext
  {
  }

  lemma FirstBundleIsFor(bundles: seq<Bundle>, device: string)
    ensures FirstBundle(bundles, device).Some? ==> FirstBundle(bundles, device).value.deviceId == device
  {
  }

  lemma {:induction false} BundleUsedIsFor(recipients: seq<string>, directories: seq<Directory>, peer: Peer)
    requires |directories| == |recipients|
    ensures var used := BundleUsed(recipients, directories, peer);
            used.Some? ==> used.value.deviceId == peer.device
  {
    if recipients == [] {
    } else {
      FirstBundleIsFor(ChooseAll(recipients[0], directories[0].devices, directories[0].bundles), peer.device);
      BundleUsedIsFor(recipients[1..], directories[1..], peer);
    }
  }

  /** Bob reads this envelope exactly when, without a session, he has approved Alice's device and holds the keys of the
      bundle, or, with one, its packet is acceptable. */
  predicate FirstIsRead(v: World, sender: string, envelope: Envelope, plaintext: Payload, known: Option<Conversation>)
    requires |v.wire| > 0
  {
    var read := DecryptEnvelope(v.bob, envelope, sender, envelope.conversation, known, v.supply).1;
    if (if v.HasSession(Bob) then Acceptable(v, Bob, v.wire[0].packet.ratchet.header) else Reachable(v))
    then read == Ok(plaintext) else read.Err?
  }

  lemma FirstPacketStays(start: World, sending: Event, later: seq<Event>)
    requires Initial(start) && |Step(start, sending).wire| > 0
    ensures var v, w := Run(start, [sending] + later), Step(start, sending);
            && |v.wire| > 0 && v.wire[0] == w.wire[0]
            && v.Name(Alice) == start.Name(Alice) && v.Name(Bob) == start.Name(Bob)
  {
    RunOneMore(start, [], sending);
    AppendNothing([sending]);
    ReachableIsAddressed(start, [sending]);
    RunContinues(start, [sending], later);
    StepContinues(start, sending);
  }

  lemma FirstIsReadIff(start: World, events: seq<Event>, envelope: Envelope, plaintext: Payload,
                       known: Option<Conversation>)
    requires Initial(start)
    requires var v := Run(start, events);
             && |v.wire| > 0 && v.wire[0].from == Alice && v.wire[0].conversation == envelope.conversation
             && FirstFor(envelope.packets, v.Name(Bob).principal, v.Name(Bob).device) == Some(v.wire[0].packet)
             && ReadsAs(v.bob, envelope, v.Name(Alice).principal, known, v.supply, plaintext)
    ensures FirstIsRead(Run(start, events), Run(start, events).Name(Alice).principal, envelope, plaintext, known)
  {
    var v := Run(start, events);
    if v.HasSession(Bob) {
      EnvelopeOpensIff(start, events, Bob, 0, envelope, plaintext, known);
    } else {
      ReachableIsAddressed(start, events);
      DeliveredIsSent(v, Bob, 0);
      FirstPacketOpensIff(start, events);
    }
  }

  /** Alice's first envelope for Bob begins a run; `ephemeral` is the first key it generated for him. At every later
      point of that run Bob reads the envelope exactly when, without a session, he has approved Alice's device and holds
      the keys of the bundle, or, with one, its packet is acceptable. */
  lemma FirstEnvelopeIsReadIff(start: World, conversation: Conversation, plaintext: Payload,
                               directories: seq<Directory>, supply: nat, later: seq<Event>,
                               known: Option<Conversation>) returns (ephemeral: nat)
    requires Initial(start) && Knows(known, conversation) && start.supply <= supply
    requires var recipients := Others(conversation.members, start.alice.principal);
             && |directories| == |recipients| && start.Name(Bob) in MemberAddresses(recipients, directories)
             && EncryptConversation(start.alice, conversation, plaintext, directories, supply).1.Ok?
             && var used := BundleUsed(recipients, directories, start.Name(Bob));
                used.Some? ==> used.value.signedPrekey < supply && used.value.identity !in start.network
    ensures var recipients := Others(conversation.members, start.alice.principal);
            var envelope := EncryptConversation(start.alice, conversation, plaintext, directories, supply).1.value;
            var used := BundleUsed(recipients, directories, start.Name(Bob));
            && used.Some? && supply <= ephemeral
            && var begun := Begun(start, used.value, ephemeral);
               var sending := SendTo(Alice, Carried(start.alice, conversation, plaintext, supply), conversation.id);
               var v := Run(begun, [sending] + later);
               && Initial(begun) && envelope.conversation == conversation.id
               && |v.wire| > 0 && FirstIsRead(v, start.alice.principal, envelope, plaintext, known)
  {
    var c, peer := start.alice, start.Name(Bob);
    var recipients := Others(conversation.members, c.principal);
    var carried := Carried(c, conversation, plaintext, supply);
    var envelope := EncryptConversation(c, conversation, plaintext, directories, supply).1.value;
    var used := BundleUsed(recipients, directories, peer);
    EnvelopeStarts(c, peer, conversation, plaintext, recipients, directories, supply);
    var packet := FirstFor(envelope.packets, peer.principal, peer.device).value;
    ephemeral :| supply <= ephemeral
                 && Starts(c, peer, used.value, carried, conversation.id, ephemeral, packet);
    BundleUsedIsFor(recipients, directories, peer);
    BegunIsInitial(start, used.value, ephemeral);
    StartIsSent(start, used.value, carried, conversation.id, ephemeral, packet);
    var begun, sending := Begun(start, used.value, ephemeral), SendTo(Alice, carried, conversation.id);
    var v := Run(begun, [sending] + later);
    FirstPacketStays(begun, sending, later);
    EnvelopeRoundTrip(c, conversation, plaintext, recipients, directories, supply, v.bob, known, v.supply);
    FirstIsReadIff(begun, [sending] + later, envelope, plaintext, known);
  }

  // ---------------------------------------------------------------------------
  // Soundness

  /** The network can present this ciphertext to a side: it was sent, or it need not come from the other side. */
  predicate CanPresent(w: World, to: Role, cipher: Cipher) {
    IsForgeable(w, to, cipher) || exists i :: 0 <= i < |w.wire| && w.wire[i].packet.ratchet.cipher == cipher
  }

  /** This payload was sent to `to` in this conversation under this header. */
  predicate WasSent(w: World, to: Role, conversation: string, header: Header, payload: Payload) {
    exists j :: 0 <= j < |w.wire| && Explains(w.wire[j], Accepted(to, conversation, header, payload))
  }

  lemma DeliveredIsSound(start: World, events: seq<Event>, to: Role, index: nat, header: Header,
                         prekey: Option<Prekey>, conversation: string)
    requires Initial(start) && index < |Run(start, events).wire|
    ensures var w := Run(start, events);
            var reading := Outcome(w, to, index, header, prekey, conversation).1;
            reading.Ok? && reading.value.Some? ==> WasSent(w, to, conversation, header, reading.value.value)
  {
    var w := Run(start, events);
    var event := Deliver(to, index, header, prekey, conversation);
    RunOneMore(start, events, event);
    RunsAreSound(start, events + [event]);
    var v := Step(w, event);
    DeliveryOutcome(w, to, index, header, prekey, conversation);
    var reading := Outcome(w, to, index, header, prekey, conversation).1;
    if reading.Ok? && reading.value.Some? {
      assert v.accepted[|w.accepted|] == Accepted(to, conversation, header, reading.value.value);
      assert Explained(v.wire, v.accepted[|w.accepted|]);
    }
  }

  /** A packet that opens in the other side's name carries what the other side sent. */
  lemma PacketIsSound(start: World, events: seq<Event>, to: Role, packet: Packet, conversation: string)
    requires Initial(start)
    requires var w := Run(start, events);
             && packet.recipient == w.Name(to).principal && packet.recipientDevice == w.Name(to).device
             && packet.senderDevice == w.Name(Other(to)).device
             && CanPresent(w, to, packet.ratchet.cipher)
    ensures var w := Run(start, events);
            var reading := DecryptPacket(w.Me(to), w.Name(Other(to)).principal, packet, conversation, w.supply).1;
            reading.Ok? ==>
              reading.value.Some? && WasSent(w, to, conversation, packet.ratchet.header, reading.value.value)
  {
    var w := Run(start, events);
    var sealed := packet.ratchet;
    assert Sealed(sealed.header, sealed.cipher) == sealed;
    AddressedIsTaken(w.Me(to), w.Name(Other(to)).principal, packet, conversation, w.supply);
    if IsForgeable(w, to, sealed.cipher) {
      assert Injected(w, to, sealed.cipher, sealed.header, packet.prekey) == packet;
      ForgeriesAreRefused(start, events, to, sealed.cipher, sealed.header, packet.prekey, conversation);
    } else {
      var i :| 0 <= i < |w.wire| && w.wire[i].packet.ratchet.cipher == sealed.cipher;
      assert Delivered(w, to, i, sealed.header, packet.prekey) == packet;
      DeliveredIsSound(start, events, to, i, sealed.header, packet.prekey, conversation);
    }
  }

  /** Some payload that the other side sent shows this. */
  ghost predicate SentAs(w: World, to: Role, envelope: Envelope, conversation: string, header: Header, shown: Payload)
    requires !envelope.direct ==> envelope.group.Some?
  {
    exists payload: Payload ::
      WasSent(w, to, conversation, header, payload) && Shown(envelope, conversation, payload) == Ok(shown)
  }

  /** Whatever envelope the network puts together, what a side reads from it in the other side's name is what a payload
      shows that the other side sent in this conversation: the payload itself in an envelope of the direct kind, and in
      one of the group kind the message under the chain that the payload hands out. */
  lemma EnvelopesAreSound(start: World, events: seq<Event>, to: Role, envelope: Envelope, conversation: string,
                          known: Option<Conversation>)
    requires Initial(start)
    requires var w := Run(start, events);
             var packet := FirstFor(envelope.packets, w.Name(to).principal, w.Name(to).device);
             && !IsOwn(w.Me(to), envelope, w.Name(Other(to)).principal)
             && (packet.Some? ==> packet.value.senderDevice == w.Name(Other(to)).device
                                  && CanPresent(w, to, packet.value.ratchet.cipher))
    ensures var w := Run(start, events);
            var read := DecryptEnvelope(w.Me(to), envelope, w.Name(Other(to)).principal, conversation, known,
                                        w.supply).1;
            read.Ok? ==>
              && IsBound(envelope, conversation, known)
              && var packet := FirstFor(envelope.packets, w.Name(to).principal, w.Name(to).device);
                 packet.Some? && SentAs(w, to, envelope, conversation, packet.value.ratchet.header, read.value)
  {
    var w := Run(start, events);
    var me, sender := w.Me(to), w.Name(Other(to)).principal;
    var read := DecryptEnvelope(me, envelope, sender, conversation, known, w.supply).1;
    if read.Ok? {
      ReadIff(me, envelope, sender, conversation, known, w.supply, read.value);
      FirstForIsAddressed(envelope.packets, me.principal, me.device.id);
      var packet := FirstFor(envelope.packets, me.principal, me.device.id).value;
      PacketIsSound(start, events, to, packet, conversation);
    }
  }
}
