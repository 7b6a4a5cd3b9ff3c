/** What every run of the two clients guarantees, without mentioning the history that explains it. */
module Guarantees {
  import opened Wrappers
  import opened Keys
  import opened Ratchet
  import opened RatchetHistory
  import opened Secrecy
  import opened Transport
  import opened Runs

  /** Every accepted message is one that the peer sent in that conversation under that header, and none is accepted
      twice, however the network repeats, relabels or mixes what it has seen. */
  lemma RunsAreSound(start: World, events: seq<Event>)
    requires Initial(start)
    ensures Sound(Run(start, events)) && AtMostOnce(Run(start, events))
  {
    var live, h := RunKeepsStep(start, events);
  }

  /** No ciphertext that need not come from the other side is accepted in its name, at any point of any run. */
  lemma ForgeriesAreRefused(start: World, events: seq<Event>, to: Role, cipher: Cipher, header: Header,
                            prekey: Option<Prekey>, conversation: string)
    requires Initial(start) && IsForgeable(Run(start, events), to, cipher)
    ensures InjectionOutcome(Run(start, events), to, cipher, header, prekey, conversation).1.Err?
  {
    var live, h := RunKeepsStep(start, events);
    var w := Run(start, events);
    if InjectionLoads(w, to, cipher, header, prekey).Ok? {
      if live {
        LoadedIsSecret(h, w, to, cipher, header, prekey);
      } else {
        NewSessionIsSecret(w, to, cipher, header, prekey);
      }
    }
    InjectionIsRefused(w, to, cipher, header, prekey, conversation);
  }

  /** Bob has approved a key of the network in Alice's name. */
  function Deceived(): World {
    World(ClientState("alice", Device("phone", 10, 11, 1, 12, []), map[], map[], map[]),
          ClientState("bob", Device("laptop", 4, 5, 1, 6, []), map[], map[Peer("alice", "phone") := Fingerprint(1, 2)],
                      map[]),
          Bundle("bob", None, "laptop", 4, 5, 1, 6, Signature(4, 6), None, None), [], [], 20, {2})
  }

  /** The trust in approvals is needed: such a network sends him a message of Alice that she never sent. */
  lemma NetworkImpersonates()
    ensures var w := Deceived();
            var header := Header(2, 0, 0);
            var secret := Agreed([SharedSecret(6, 2), SharedSecret(5, 2), SharedSecret(6, 2)]);
            var aad := PacketAad(BaseBetween(w.Name(Alice), w.Name(Bob), "conversation"), header);
            var cipher := Cipher(Message(Chain(secret, SharedSecret(6, 2))), aad, Text("hello"));
            && IsForgeable(w, Bob, cipher)
            && InjectionOutcome(w, Bob, cipher, header, Some(Prekey(2, 1, 2, 1, None)), "conversation").1
               == Ok(Some(Text("hello")))
  {
    var w := Deceived();
    var parts := [SharedSecret(6, 2), SharedSecret(5, 2), SharedSecret(6, 2)];
    SharedIsSecret(w.network, 6, 2);
    SharedIsSecret(w.network, 5, 2);
    assert Derivable(w.network, Agreed(parts));
    var prekey := Prekey(2, 1, 2, 1, None);
    assert X3dhReceiver(w.bob.device, prekey).Ok? && X3dhReceiver(w.bob.device, prekey).value.1 == Agreed(parts);
  }

  lemma EpochOfSent(h: History, w: World, index: nat) returns (k: nat)
    requires Live(h, w) && index < |w.wire|
    ensures SentIn(h, w.Name(Alice), w.Name(Bob), w.wire[index], k) && w.wire[index].from == OwnerOf(k)
  {
    assert OnWire(h, w.Name(Alice), w.Name(Bob), w.wire[index]);
    k :| SentIn(h, w.Name(Alice), w.Name(Bob), w.wire[index], k);
  }

  // ---------------------------------------------------------------------------
  // Completeness

  /** What the receiver checks about a packet of the peer before deriving its key. */
  predicate Acceptable(w: World, to: Role, header: Header)
    requires w.HasSession(to)
  {
    && IdOf(header) !in AcceptedIds(w.accepted, to)
    && (IdOf(header) in w.SessionOf(to).skipped || WithinSkipLimits(w.SessionOf(to), header))
  }

  lemma DeliveryDecides(w: World, to: Role, index: nat, prekey: Option<Prekey>)
    requires index < |w.wire| && w.HasSession(to)
    ensures var sent := w.wire[index];
            var result := Outcome(w, to, index, sent.packet.ratchet.header, prekey, sent.conversation).1;
            var base := BaseBetween(w.Name(Other(to)), w.Name(to), sent.conversation);
            var plain := w.SessionOf(to).Decrypt(sent.packet.ratchet, base, w.supply);
            if plain.Ok? then result == Ok(Some(sent.packet.ratchet.cipher.plaintext)) else result.Err?
  {
    var sent := w.wire[index];
    var header := sent.packet.ratchet.header;
    assert Sealed(header, sent.packet.ratchet.cipher) == sent.packet.ratchet;
    DeliveryOutcome(w, to, index, header, prekey, sent.conversation);
    if w.SessionOf(to).Decrypt(sent.packet.ratchet, BaseBetween(w.Name(Other(to)), w.Name(to), sent.conversation),
                               w.supply).Ok? {
      AcceptedIsBound(w, to, index, header, w.SessionOf(to), sent.conversation);
    }
  }

  lemma LiveDelivery(h: History, w: World, to: Role, index: nat)
    requires Live(h, w) && index < |w.wire| && w.wire[index].from == Other(to) && w.HasSession(to)
    ensures var sent := w.wire[index];
            var base := BaseBetween(w.Name(Other(to)), w.Name(to), sent.conversation);
            && (w.SessionOf(to).Decrypt(sent.packet.ratchet, base, w.supply).Ok?
                <==> Acceptable(w, to, sent.packet.ratchet.header))
            && sent.packet.ratchet.cipher.plaintext == sent.plaintext
  {
    var sent := w.wire[index];
    var k := EpochOfSent(h, w, index);
    EpochsTurn(to, |h.dhs|, k);
    var e := SessionIsEndpoint(h, w, to);
    AcceptedSide(h, w, to, index, k, e, w.SessionOf(to),
                 Accepted(to, sent.conversation, sent.packet.ratchet.header, sent.plaintext));
  }

  /** In every reachable world, an unaltered packet of the peer yields its plaintext exactly when it has not been
      accepted before and its key is stored or within the skip limits; otherwise it is refused. */
  lemma PacketsOpenExactlyOnce(start: World, events: seq<Event>, to: Role, index: nat, prekey: Option<Prekey>)
    requires Initial(start)
    requires var w := Run(start, events);
             index < |w.wire| && w.wire[index].from == Other(to) && w.HasSession(to)
    ensures var w := Run(start, events);
            var sent := w.wire[index];
            var result := Outcome(w, to, index, sent.packet.ratchet.header, prekey, sent.conversation).1;
            if Acceptable(w, to, sent.packet.ratchet.header) then result == Ok(Some(sent.plaintext)) else result.Err?
  {
    var live, h := RunKeepsStep(start, events);
    LiveDelivery(h, Run(start, events), to, index);
    DeliveryDecides(Run(start, events), to, index, prekey);
  }

  // ---------------------------------------------------------------------------
  // The first packet

  /** Bob has approved Alice's device key, and still holds the keys that Alice's bundle showed. */
  predicate Reachable(w: World) {
    && Verified(w.bob, w.Name(Alice), Fingerprint(w.alice.device.signing, w.alice.device.identity))
    && Describes(w.bundle, w.bob.device)
  }

  lemma FirstLoaded(h: History, w: World)
    requires Live(h, w) && !w.HasSession(Bob)
    ensures var first := w.wire[0].packet;
            var loaded := Loaded(w, Bob, 0, first.ratchet.header, first.prekey);
            Reachable(w) <==> loaded.Ok? && loaded.value.rk == h.roots[0]
    ensures var first := w.wire[0].packet;
            var loaded := Loaded(w, Bob, 0, first.ratchet.header, first.prekey);
            Reachable(w) ==> loaded.value.dhs == h.prekey
  {
    var prekey := w.wire[0].packet.prekey.value;
    AgreementIffDescribed(w.alice, w.bundle, prekey.ephemeral, w.bob.device);
  }

  lemma FreshResponderIsEndpoint(h: History, x: Session)
    requires h.Sized() && |h.dhs| == 1 && Untouched(x) && x.rk == h.roots[0] && x.dhs == h.prekey
    ensures Endpoint(h, -1, x, {})
  {
  }

  lemma FirstDecrypt(h: History, w: World, x: Session, k: nat)
    requires NamesInStep(h, w) && |h.dhs| == 1 && |w.wire| > 0 && Untouched(x) && AcceptedIds(w.accepted, Bob) == {}
    requires SentIn(h, w.Name(Alice), w.Name(Bob), w.wire[0], k) && w.wire[0].packet.ratchet.header.n == 0
    requires x.rk == h.roots[0] ==> x.dhs == h.prekey
    ensures var sent := w.wire[0];
            x.Decrypt(sent.packet.ratchet, BaseBetween(w.Name(Alice), w.Name(Bob), sent.conversation), w.supply).Ok?
            <==> x.rk == h.roots[0]
  {
    var sent := w.wire[0];
    var base := BaseBetween(w.Name(Alice), w.Name(Bob), sent.conversation);
    if x.rk == h.roots[0] {
      FreshResponderIsEndpoint(h, x);
      AcceptedSide(h, w, Bob, 0, k, -1, x,
                   Accepted(Bob, sent.conversation, sent.packet.ratchet.header, sent.plaintext));
    } else if x.Decrypt(sent.packet.ratchet, base, w.supply).Ok? {
      ResponderMeets(h, w.supply, x, 0, sent.packet.ratchet, base, w.supply);
    }
  }

  lemma LiveFirstPacket(h: History, w: World)
    requires Live(h, w) && !w.HasSession(Bob)
    ensures var sent := w.wire[0];
            var result := Outcome(w, Bob, 0, sent.packet.ratchet.header, sent.packet.prekey, sent.conversation).1;
            if Reachable(w) then result == Ok(Some(sent.plaintext)) else result.Err?
  {
    var sent := w.wire[0];
    var k := EpochOfSent(h, w, 0);
    var header := sent.packet.ratchet.header;
    var loaded := Loaded(w, Bob, 0, header, sent.packet.prekey);
    FirstLoaded(h, w);
    DeliveryOutcome(w, Bob, 0, header, sent.packet.prekey, sent.conversation);
    assert Sealed(header, sent.packet.ratchet.cipher) == sent.packet.ratchet;
    if loaded.Ok? {
      LoadedLoads(w, Bob, 0, header, sent.packet.prekey);
      FirstDecrypt(h, w, loaded.value, k);
    }
  }

  /** While Bob has no session, Alice's first packet opens exactly when Bob approved her device and still holds the
      keys of the bundle she used. */
  lemma FirstPacketOpensIff(start: World, events: seq<Event>)
    requires Initial(start)
    requires var w := Run(start, events); |w.wire| > 0 && !w.HasSession(Bob)
    ensures var w := Run(start, events);
            var sent := w.wire[0];
            var result := Outcome(w, Bob, 0, sent.packet.ratchet.header, sent.packet.prekey, sent.conversation).1;
            if Reachable(w) then result == Ok(Some(sent.plaintext)) else result.Err?
  {
    var live, h := RunKeepsStep(start, events);
    LiveFirstPacket(h, Run(start, events));
  }

  /** Until then her later packets are refused as they were sent: only the first one carries a prekey. */
  lemma LaterPacketsWait(start: World, events: seq<Event>, index: nat)
    requires Initial(start)
    requires var w := Run(start, events); 0 < index < |w.wire| && !w.HasSession(Bob)
    ensures var w := Run(start, events);
            var sent := w.wire[index];
            Outcome(w, Bob, index, sent.packet.ratchet.header, sent.packet.prekey, sent.conversation).1
            == Err(NoSessionNoPrekey)
  {
    var live, h := RunKeepsStep(start, events);
    var w := Run(start, events);
    assert PrekeyInStep(h, w) && w.wire[index].packet.prekey == None;
  }

  // ---------------------------------------------------------------------------
  // Agreement

  /** `x` has answered `y`'s latest key: one root-key step takes `y` to `x`'s root and sending chain, and `x`'s
      receiving chain runs into `y`'s sending chain. */
  predicate Answers(x: Session, y: Session) {
    var output := SharedSecret(y.dhs, x.dhs);
    && x.dhr == Some(y.dhs)
    && x.rk == Root(y.rk, output)
    && x.cks == Some(Advance(Chain(y.rk, output), x.ns))
    && x.nr <= y.ns && y.nr <= x.pn
    && x.ckr.Some? && y.cks == Some(Advance(x.ckr.value, y.ns - x.nr))
  }

  lemma LatestAnswers(h: History, supply: nat, e: nat, x: Session, y: Session, xs: set<SkippedId>, ys: set<SkippedId>)
    requires h.Valid(supply) && e + 1 == |h.dhs| && e >= 1
    requires Endpoint(h, e, x, xs) && Endpoint(h, e - 1, y, ys)
    ensures Answers(x, y) && !Answers(y, x)
  {
    AdvanceAdds(h.ChainAt(e - 1), x.nr, y.ns - x.nr);
    assert y.dhr != Some(x.dhs);
  }

  lemma LiveEndsAgree(h: History, w: World)
    requires |h.dhs| >= 1 && h.Valid(w.supply) && SideInStep(h, w, Alice) && SideInStep(h, w, Bob)
    requires w.HasSession(Alice) && w.HasSession(Bob)
    ensures Answers(w.SessionOf(Alice), w.SessionOf(Bob)) <==> !Answers(w.SessionOf(Bob), w.SessionOf(Alice))
  {
    var a := SessionIsEndpoint(h, w, Alice);
    var b := SessionIsEndpoint(h, w, Bob);
    var aliceIds, bobIds := AcceptedIds(w.accepted, Alice), AcceptedIds(w.accepted, Bob);
    if a > b {
      LatestAnswers(h, w.supply, a, w.SessionOf(Alice), w.SessionOf(Bob), aliceIds, bobIds);
    } else {
      LatestAnswers(h, w.supply, b, w.SessionOf(Bob), w.SessionOf(Alice), bobIds, aliceIds);
    }
  }

  /** Whenever both sides have a session, exactly one of them has answered the other's latest key, and that one
      step apart their roots and opposite chains are the same. */
  lemma EndsAgree(start: World, events: seq<Event>)
    requires Initial(start)
    requires var w := Run(start, events); w.HasSession(Alice) && w.HasSession(Bob)
    ensures var w := Run(start, events);
            Answers(w.SessionOf(Alice), w.SessionOf(Bob)) <==> !Answers(w.SessionOf(Bob), w.SessionOf(Alice))
  {
    var live, h := RunKeepsStep(start, events);
    LiveEndsAgree(h, Run(start, events));
  }

  // ---------------------------------------------------------------------------
  // Skipped keys

  /** The receiver has moved past this position: it lies below the receiving counter of the current chain, or in a
      chain of the peer that is neither the current one nor one still unseen. */
  predicate MovedPast(w: World, to: Role, header: Header)
    requires w.HasSession(to) && w.HasSession(Other(to))
  {
    if w.SessionOf(to).dhr == Some(header.dh) then header.n < w.SessionOf(to).nr
    else header.dh != w.SessionOf(Other(to)).dhs
  }

  lemma OwnEpochsAreAdjacent(role: Role, epochs: nat)
    requires epochs >= 1
    ensures OwnEpoch(role, epochs) + OwnEpoch(Other(role), epochs) == 2 * epochs - 3
  {
  }

  lemma SentPosition(h: History, supply: nat, e: nat, f: nat, k: nat, n: nat, x: Session, y: Session,
                     xs: set<SkippedId>, ys: set<SkippedId>)
    requires h.Valid(supply) && Endpoint(h, e, x, xs) && |h.dhs| - 2 <= e && |h.dhs| >= 2
    requires Endpoint(h, f, y, ys) && e + f == 2 * |h.dhs| - 3
    requires FromPeer(e, k) && k < |h.dhs| && n < h.counts[k]
    ensures var id := SkippedId(h.dhs[k], n);
            && (id in xs || id in x.skipped <==>
                  if x.dhr == Some(h.dhs[k]) then n < x.nr else h.dhs[k] != y.dhs)
            && !(id in xs && id in x.skipped)
            && (id in x.skipped ==> x.skipped[id] == h.KeyAt(k, n))
  {
    var id := SkippedId(h.dhs[k], n);
    EpochIsUnique(h, supply, e, x.nr, k, n);
    assert id in xs || id in x.skipped <==> Passed(h, e, x.nr, id);
  }

  lemma LivePosition(h: History, w: World, to: Role, index: nat, k: nat)
    requires NamesInStep(h, w) && SideInStep(h, w, Alice) && SideInStep(h, w, Bob)
    requires index < |w.wire| && w.wire[index].from == Other(to) && w.HasSession(to) && w.HasSession(Other(to))
    requires SentIn(h, w.Name(Alice), w.Name(Bob), w.wire[index], k)
    ensures var sealed := w.wire[index].packet.ratchet;
            var id, stored := IdOf(sealed.header), w.SessionOf(to).skipped;
            && (id in AcceptedIds(w.accepted, to) || id in stored <==> MovedPast(w, to, sealed.header))
            && !(id in AcceptedIds(w.accepted, to) && id in stored)
            && (id in stored ==> stored[id] == sealed.cipher.key)
  {
    EpochsTurn(to, |h.dhs|, k);
    var e := SessionIsEndpoint(h, w, to);
    var f := SessionIsEndpoint(h, w, Other(to));
    OwnEpochsAreAdjacent(to, |h.dhs|);
    SentPosition(h, w.supply, e, f, k, w.wire[index].packet.ratchet.header.n, w.SessionOf(to), w.SessionOf(Other(to)),
                 AcceptedIds(w.accepted, to), AcceptedIds(w.accepted, Other(to)));
  }

  /** The positions of the peer's packets that the receiver has moved past are the disjoint union of the accepted
      ones and those with a stored key, and each stored key is the one its packet was sealed under. */
  lemma SkippedKeysAreExact(start: World, events: seq<Event>, to: Role, index: nat)
    requires Initial(start)
    requires var w := Run(start, events);
             && index < |w.wire| && w.wire[index].from == Other(to)
             && w.HasSession(to) && w.HasSession(Other(to))
    ensures var w := Run(start, events);
            var sealed := w.wire[index].packet.ratchet;
            var id, stored := IdOf(sealed.header), w.SessionOf(to).skipped;
            && (id in AcceptedIds(w.accepted, to) || id in stored <==> MovedPast(w, to, sealed.header))
            && !(id in AcceptedIds(w.accepted, to) && id in stored)
            && (id in stored ==> stored[id] == sealed.cipher.key)
  {
    var live, h := RunKeepsStep(start, events);
    var w := Run(start, events);
    var k := EpochOfSent(h, w, index);
    LivePosition(h, w, to, index, k);
  }

  lemma PeerOwns(e: nat, k: nat)
    requires (e - k) % 2 == 1
    ensures OwnerOf(k) == Other(OwnerOf(e))
  {
    Parities(e, k);
    Parities(k, e);
  }

  lemma StoredPosition(h: History, e: nat, x: Session, accepted: set<SkippedId>, wire: seq<Sent>, id: SkippedId)
    requires Endpoint(h, e, x, accepted) && Complete(h, wire) && id in x.skipped
    ensures OnceSent(wire, Other(OwnerOf(e)), id)
  {
    assert Passed(h, e, x.nr, id);
    var k: nat :| Reached(h, e, x.nr, id, k);
    PeerOwns(e, k);
    assert PositionSent(h, wire, k, id.n);
  }

  /** No key is stored for a position that the peer never used. */
  lemma StoredPositionsWereSent(start: World, events: seq<Event>, to: Role, id: SkippedId)
    requires Initial(start)
    requires var w := Run(start, events); w.HasSession(to) && id in w.SessionOf(to).skipped
    ensures OnceSent(Run(start, events).wire, Other(to), id)
  {
    var live, h := RunKeepsStep(start, events);
    var w := Run(start, events);
    var e := SessionIsEndpoint(h, w, to);
    StoredPosition(h, e, w.SessionOf(to), AcceptedIds(w.accepted, to), w.wire, id);
  }
}
