/** How much the network may hold back: up to 101 packets to one side can be outstanding at a time and be delivered in
any order, and none of them is lost. */
module Backlog {
  import opened Wrappers
  import opened Sequences
  import opened Keys
  import opened Ratchet
  import opened RatchetHistory
  import opened Transport
  import opened Runs
  import opened Guarantees

  /** The packets of a side whose positions are not among the accepted ones. */
  function OutstandingOf(wire: seq<Sent>, from: Role, accepted: set<SkippedId>): set<nat> {
    set i: nat | i < |wire| && wire[i].from == from && IdOf(wire[i].packet.ratchet.header) !in accepted
  }

  function Outstanding(w: World, to: Role): set<nat> {
    OutstandingOf(w.wire, Other(to), AcceptedIds(w.accepted, to))
  }

  // ---------------------------------------------------------------------------
  // A gap is made of outstanding packets

  /** Each unaccepted position of an epoch accounts for one outstanding packet. */
  lemma {:induction false} GapIsOutstanding(h: History, wire: seq<Sent>, accepted: set<SkippedId>, k: nat, from: nat,
                                            until: nat) returns (gap: set<nat>)
    requires Complete(h, wire) && k < |h.dhs| && from <= until <= h.counts[k]
    requires forall n :: from <= n < until ==> SkippedId(h.dhs[k], n) !in accepted
    ensures |gap| == until - from && gap <= OutstandingOf(wire, OwnerOf(k), accepted)
    ensures forall i :: i in gap ==> var id := IdOf(wire[i].packet.ratchet.header);
                                     id.dh == h.dhs[k] && id.n < until
    decreases until - from
  {
    gap := {};
    if until <= from {
    } else {
      gap := GapIsOutstanding(h, wire, accepted, k, from, until - 1);
      var last: nat := until - 1;
      assert PositionSent(h, wire, k, last);
      var i :| 0 <= i < |wire| && wire[i].from == OwnerOf(k)
               && IdOf(wire[i].packet.ratchet.header) == SkippedId(h.dhs[k], last);
      gap := gap + {i};
    }
  }

  lemma UnreachedIsUnaccepted(h: History, supply: nat, e: int, x: Session, accepted: set<SkippedId>, k: nat, n: nat)
    requires h.Valid(supply) && Endpoint(h, e, x, accepted) && k < |h.dhs|
    requires k < e - 1 ==> n >= h.counts[k]
    requires k == e - 1 ==> n >= x.nr
    ensures SkippedId(h.dhs[k], n) !in accepted
  {
    EpochIsUnique(h, supply, e, x.nr, k, n);
  }

  /** The gap that skipping to `until` jumps in the peer's epoch `k` is at most what is outstanding. */
  lemma GapIsShort(h: History, supply: nat, wire: seq<Sent>, e: int, x: Session, accepted: set<SkippedId>, k: nat,
                   from: nat, until: nat, index: nat)
    requires h.Valid(supply) && Complete(h, wire) && Endpoint(h, e, x, accepted) && k < |h.dhs|
    requires from <= until <= h.counts[k] && e - 1 <= k && (k == e - 1 ==> x.nr <= from)
    requires index in OutstandingOf(wire, OwnerOf(k), accepted)
    requires var id := IdOf(wire[index].packet.ratchet.header); id.dh != h.dhs[k] || id.n >= until
    ensures until - from < |OutstandingOf(wire, OwnerOf(k), accepted)|
  {
    forall n | from <= n < until ensures SkippedId(h.dhs[k], n) !in accepted {
      UnreachedIsUnaccepted(h, supply, e, x, accepted, k, n);
    }
    var gap := GapIsOutstanding(h, wire, accepted, k, from, until);
    assert index !in gap;
    SubsetSize(gap + {index}, OutstandingOf(wire, OwnerOf(k), accepted));
  }

  lemma OutstandingIsAcceptable(h: History, supply: nat, wire: seq<Sent>, e: int, x: Session,
                                accepted: set<SkippedId>, k: nat, index: nat)
    requires h.Valid(supply) && Complete(h, wire) && Endpoint(h, e, x, accepted) && |h.dhs| - 2 <= e
    requires FromPeer(e, k) && k < |h.dhs| && index in OutstandingOf(wire, OwnerOf(k), accepted)
    requires |OutstandingOf(wire, OwnerOf(k), accepted)| <= MAX_SKIP + 1
    requires var header := wire[index].packet.ratchet.header;
             0 <= header.n < h.counts[k] && header == Header(h.dhs[k], h.Announced(k), header.n)
    ensures var header := wire[index].packet.ratchet.header;
            IdOf(header) in x.skipped || WithinSkipLimits(x, header)
  {
    var header := wire[index].packet.ratchet.header;
    EpochIsUnique(h, supply, e, x.nr, k, header.n);
    if k == e + 1 {
      assert x.dhr != Some(h.dhs[k]);
      GapIsShort(h, supply, wire, e, x, accepted, k, 0, header.n, index);
      if e > 0 {
        GapIsShort(h, supply, wire, e, x, accepted, e - 1, x.nr, h.counts[e - 1], index);
      }
    } else if k == e - 1 && header.n >= x.nr {
      GapIsShort(h, supply, wire, e, x, accepted, k, x.nr, header.n, index);
    } else {
      assert Reached(h, e, x.nr, IdOf(header), k);
    }
  }

  lemma LiveBacklog(h: History, w: World, to: Role, index: nat)
    requires Live(h, w) && w.HasSession(to) && index in Outstanding(w, to) && |Outstanding(w, to)| <= MAX_SKIP + 1
    ensures Acceptable(w, to, w.wire[index].packet.ratchet.header)
  {
    var k := EpochOfSent(h, w, index);
    EpochsTurn(to, |h.dhs|, k);
    var e := SessionIsEndpoint(h, w, to);
    OutstandingIsAcceptable(h, w.supply, w.wire, e, w.SessionOf(to), AcceptedIds(w.accepted, to), k, index);
  }

  /** In every reachable world: while at most 101 packets to a side are outstanding, each of them opens. */
  lemma OutstandingPacketOpens(start: World, events: seq<Event>, to: Role, index: nat, prekey: Option<Prekey>)
    requires Initial(start)
    requires var w := Run(start, events);
             w.HasSession(to) && index in Outstanding(w, to) && |Outstanding(w, to)| <= MAX_SKIP + 1
    ensures var w := Run(start, events);
            var sent := w.wire[index];
            Outcome(w, to, index, sent.packet.ratchet.header, prekey, sent.conversation).1 == Ok(Some(sent.plaintext))
  {
    var live, h := RunKeepsStep(start, events);
    LiveBacklog(h, Run(start, events), to, index);
    PacketsOpenExactlyOnce(start, events, to, index, prekey);
  }

  // ---------------------------------------------------------------------------
  // Any order

  /** A packet arrives as it was sent. */
  function Faithful(sent: Sent, index: nat): Event {
    Deliver(Other(sent.from), index, sent.packet.ratchet.header, sent.packet.prekey, sent.conversation)
  }

  function Deliveries(wire: seq<Sent>, order: seq<nat>): (events: seq<Event>)
    requires forall i :: 0 <= i < |order| ==> order[i] < |wire|
  {
    if order == [] then []
    else
      var last := order[|order| - 1];
      Deliveries(wire, order[..|order| - 1]) + [Faithful(wire[last], last)]
  }

  /** What a side has to show for these deliveries. */
  function Received(wire: seq<Sent>, order: seq<nat>): seq<Accepted>
    requires forall i :: 0 <= i < |order| ==> order[i] < |wire|
  {
    if order == [] then []
    else
      var sent := wire[order[|order| - 1]];
      Received(wire, order[..|order| - 1])
      + [Accepted(Other(sent.from), sent.conversation, sent.packet.ratchet.header, sent.plaintext)]
  }

  predicate IsOrder(order: seq<nat>, indices: set<nat>) {
    && (forall i :: 0 <= i < |order| ==> order[i] in indices)
    && (forall i, j :: 0 <= i < j < |order| ==> order[i] != order[j])
  }

  function Those(order: seq<nat>): set<nat> {
    set i | 0 <= i < |order| :: order[i]
  }

  lemma LastIsNew(order: seq<nat>, indices: set<nat>)
    requires order != [] && IsOrder(order, indices)
    ensures var front, last := order[..|order| - 1], order[|order| - 1];
            IsOrder(front, indices) && last !in Those(front) && Those(order) == Those(front) + {last}
  {
    assert order == order[..|order| - 1] + [order[|order| - 1]];
  }

  /** The world after an opened delivery. */
  predicate OpenedStep(w: World, v: World, to: Role, index: nat)
    requires index < |w.wire|
  {
    var sent := w.wire[index];
    && v.wire == w.wire && v.HasSession(to)
    && v.accepted == w.accepted + [Accepted(to, sent.conversation, sent.packet.ratchet.header, sent.plaintext)]
  }

  lemma OpenedDelivery(w: World, index: nat)
    requires index < |w.wire|
    requires var sent := w.wire[index];
             Outcome(w, Other(sent.from), index, sent.packet.ratchet.header, sent.packet.prekey, sent.conversation).1
             == Ok(Some(sent.plaintext))
    ensures OpenedStep(w, Step(w, Faithful(w.wire[index], index)), Other(w.wire[index].from), index)
  {
    var sent := w.wire[index];
    DeliveryOutcome(w, Other(sent.from), index, sent.packet.ratchet.header, sent.packet.prekey, sent.conversation);
  }

  lemma OneLessOutstanding(h: History, w: World, v: World, to: Role, index: nat)
    requires WireInStep(h, w.Name(Alice), w.Name(Bob), w.wire) && index in Outstanding(w, to)
    requires OpenedStep(w, v, to, index)
    ensures Outstanding(v, to) == Outstanding(w, to) - {index}
  {
    assert v.accepted[..|w.accepted|] == w.accepted;
    assert AcceptedIds(v.accepted, to) == AcceptedIds(w.accepted, to) + {IdOf(w.wire[index].packet.ratchet.header)};
  }

  /** `v` comes out of `w` by accepting these packets, each with the plaintext sent. */
  predicate Drained(w: World, v: World, to: Role, order: seq<nat>)
    requires forall i :: 0 <= i < |order| ==> order[i] < |w.wire|
  {
    && v.accepted == w.accepted + Received(w.wire, order)
    && Outstanding(v, to) == Outstanding(w, to) - Those(order)
    && v.wire == w.wire && v.HasSession(to)
  }

  lemma NothingDrained(w: World, to: Role)
    requires w.HasSession(to)
    ensures Drained(w, w, to, [])
  {
    assert w.accepted + [] == w.accepted;
  }

  lemma OneMoreDrained(w: World, u: World, v: World, to: Role, order: seq<nat>)
    requires order != [] && IsOrder(order, Outstanding(w, to))
    requires Drained(w, u, to, order[..|order| - 1])
    requires var last := order[|order| - 1];
             OpenedStep(u, v, to, last) && Outstanding(v, to) == Outstanding(u, to) - {last}
    ensures Drained(w, v, to, order)
  {
    LastIsNew(order, Outstanding(w, to));
  }

  lemma OneMoreDelivery(start: World, events: seq<Event>, to: Role, index: nat)
    requires Initial(start)
    requires var w := Run(start, events);
             w.HasSession(to) && index in Outstanding(w, to) && |Outstanding(w, to)| <= MAX_SKIP + 1
    ensures var w := Run(start, events);
            var v := Run(start, events + [Faithful(w.wire[index], index)]);
            OpenedStep(w, v, to, index) && Outstanding(v, to) == Outstanding(w, to) - {index}
  {
    var live, h := RunKeepsStep(start, events);
    var w := Run(start, events);
    OutstandingPacketOpens(start, events, to, index, w.wire[index].packet.prekey);
    OpenedDelivery(w, index);
    RunOneMore(start, events, Faithful(w.wire[index], index));
    OneLessOutstanding(h, w, Step(w, Faithful(w.wire[index], index)), to, index);
  }

  lemma DrainMore(start: World, events: seq<Event>, w: World, to: Role, order: seq<nat>)
    requires Initial(start) && order != [] && IsOrder(order, Outstanding(w, to))
    requires |Outstanding(w, to)| <= MAX_SKIP + 1 && Drained(w, Run(start, events), to, order[..|order| - 1])
    ensures var last := order[|order| - 1];
            Drained(w, Run(start, events + [Faithful(w.wire[last], last)]), to, order)
  {
    var u, last := Run(start, events), order[|order| - 1];
    LastIsNew(order, Outstanding(w, to));
    SubsetSize(Outstanding(u, to), Outstanding(w, to));
    OneMoreDelivery(start, events, to, last);
    OneMoreDrained(w, u, Run(start, events + [Faithful(w.wire[last], last)]), to, order);
  }

  /** From every reachable world, up to 101 outstanding packets can be delivered in any order: all of them are
      accepted, in that order and with the plaintexts sent, and are no longer outstanding. */
  lemma {:induction false} BacklogOpensInAnyOrder(start: World, events: seq<Event>, to: Role, order: seq<nat>)
    requires Initial(start)
    requires var w := Run(start, events);
             && w.HasSession(to) && |Outstanding(w, to)| <= MAX_SKIP + 1 && IsOrder(order, Outstanding(w, to))
    ensures var w := Run(start, events);
            Drained(w, Run(start, events + Deliveries(w.wire, order)), to, order)
    decreases |order|
  {
    var w := Run(start, events);
    if order == [] {
      assert events + [] == events;
      NothingDrained(w, to);
    } else {
      var front, last := order[..|order| - 1], order[|order| - 1];
      LastIsNew(order, Outstanding(w, to));
      BacklogOpensInAnyOrder(start, events, to, front);
      var before := events + Deliveries(w.wire, front);
      DrainMore(start, before, w, to, order);
      assert events + Deliveries(w.wire, order) == before + [Faithful(w.wire[last], last)];
    }
  }

  // ---------------------------------------------------------------------------
  // The beginning

  lemma FirstPacketGoesOut(start: World, plaintext: Payload, conversation: string)
    requires Initial(start) && X3dhSender(start.alice, start.bundle, start.supply).Ok?
    ensures var w := SendStep(start, Alice, plaintext, conversation);
            && |w.wire| == 1 && w.wire[0].from == Alice && w.wire[0].conversation == conversation
            && w.wire[0].plaintext == plaintext && !w.HasSession(Bob) && w.accepted == []
            && (Reachable(start) ==> Reachable(w))
  {
  }

  lemma BothHaveSessions(start: World, events: seq<Event>)
    requires Initial(start) && Run(start, events).HasSession(Bob)
    ensures Run(start, events).HasSession(Alice) && Run(start, events).SessionOf(Bob).cks.Some?
  {
    var live, h := RunKeepsStep(start, events);
    AliceHasSession(h, Run(start, events));
    var e := SessionIsEndpoint(h, Run(start, events), Bob);
  }

  /** A session comes about whenever Bob approved Alice's device and still holds the keys of the genuine bundle that
      Alice approved: her first packet opens at once, and from then on both sides can send. */
  lemma HandshakeCompletes(start: World, plaintext: Payload, conversation: string)
    requires Initial(start) && X3dhSender(start.alice, start.bundle, start.supply).Ok? && Reachable(start)
    ensures var first := SendTo(Alice, plaintext, conversation);
            var w := Run(start, [first]);
            && |w.wire| == 1
            && var v := Run(start, [first] + [Faithful(w.wire[0], 0)]);
               && v.HasSession(Alice) && v.HasSession(Bob) && v.SessionOf(Bob).cks.Some?
               && v.accepted == [Accepted(Bob, conversation, w.wire[0].packet.ratchet.header, plaintext)]
  {
    var events := [SendTo(Alice, plaintext, conversation)];
    var w := Run(start, events);
    RunOneMore(start, [], events[0]);
    assert [] + [events[0]] == events;
    FirstPacketGoesOut(start, plaintext, conversation);
    FirstPacketOpensIff(start, events);
    OpenedDelivery(w, 0);
    RunOneMore(start, events, Faithful(w.wire[0], 0));
    BothHaveSessions(start, events + [Faithful(w.wire[0], 0)]);
  }

  // ---------------------------------------------------------------------------
  // One more is too many

  lemma FirstRun(start: World, event: Event)
    ensures Run(start, [event]) == Step(start, event)
  {
    RunOneMore(start, [], event);
    assert [] + [event] == [event];
  }

  /** The events of `HandshakeCompletes`. */
  function Greeting(start: World, plaintext: Payload, conversation: string): seq<Event>
    requires Initial(start) && X3dhSender(start.alice, start.bundle, start.supply).Ok?
  {
    FirstPacketGoesOut(start, plaintext, conversation);
    FirstRun(start, SendTo(Alice, plaintext, conversation));
    [SendTo(Alice, plaintext, conversation)]
    + [Faithful(Run(start, [SendTo(Alice, plaintext, conversation)]).wire[0], 0)]
  }

  /** `count` messages of Alice in a row. */
  function Burst(count: nat, plaintext: Payload, conversation: string): seq<Event> {
    if count == 0 then [] else Burst(count - 1, plaintext, conversation) + [SendTo(Alice, plaintext, conversation)]
  }

  predicate JustStarted(x: Session, dh: nat) {
    x.dhr == Some(dh) && x.nr == 1 && x.skipped == map[]
  }

  /** Bob has accepted the first of Alice's messages and none of the `count` others; all belong to one chain. */
  predicate Behind(w: World, dh: nat, count: nat) {
    && w.Name(Alice) != w.Name(Bob) && w.bundle.deviceId == w.bob.device.id
    && w.HasSession(Alice) && w.SessionOf(Alice).dhs == dh && w.SessionOf(Alice).ns == count + 1
    && w.SessionOf(Alice).cks.Some?
    && w.HasSession(Bob) && JustStarted(w.SessionOf(Bob), dh)
    && |w.accepted| == 1 && w.accepted[0].reader == Bob && IdOf(w.accepted[0].header) == SkippedId(dh, 0)
    && |w.wire| == count + 1
    && forall i :: 0 <= i < |w.wire| ==>
         w.wire[i].from == Alice && IdOf(w.wire[i].packet.ratchet.header) == SkippedId(dh, i)
  }

  lemma UntouchedStarts(x: Session, sealed: Sealed, base: Base, pair: nat)
    requires Untouched(x) && sealed.header.n == 0 && sealed.header.pn == 0 && x.Decrypt(sealed, base, pair).Ok?
    ensures JustStarted(x.Decrypt(sealed, base, pair).value.0, sealed.header.dh)
  {
  }

  /** What Alice's side is like after her first message. */
  lemma FirstMessage(start: World, plaintext: Payload, conversation: string)
    requires Initial(start) && X3dhSender(start.alice, start.bundle, start.supply).Ok?
    ensures var w := SendStep(start, Alice, plaintext, conversation);
            && w.Name(Alice) != w.Name(Bob) && w.bundle.deviceId == w.bob.device.id
            && w.HasSession(Alice) && w.SessionOf(Alice).ns == 1 && w.SessionOf(Alice).cks.Some?
            && |w.wire| == 1 && w.wire[0].packet.ratchet.header == Header(w.SessionOf(Alice).dhs, 0, 0)
  {
  }

  /** Delivering the first message starts Bob's side and leaves Alice's alone. */
  lemma FirstDelivery(w: World, dh: nat)
    requires w.Name(Alice) != w.Name(Bob) && |w.wire| == 1 && w.wire[0].from == Alice && !w.HasSession(Bob)
    requires w.wire[0].packet.ratchet.header == Header(dh, 0, 0)
    requires Step(w, Faithful(w.wire[0], 0)).HasSession(Bob)
    ensures var v := Step(w, Faithful(w.wire[0], 0));
            && JustStarted(v.SessionOf(Bob), dh) && v.alice == w.alice && v.bundle == w.bundle && v.wire == w.wire
            && v.Name(Bob) == w.Name(Bob)
  {
    var sent := w.wire[0];
    var loaded := Loaded(w, Bob, 0, sent.packet.ratchet.header, sent.packet.prekey);
    var base := BaseBetween(w.Name(Alice), w.Name(Bob), sent.conversation);
    assert Sealed(sent.packet.ratchet.header, sent.packet.ratchet.cipher) == sent.packet.ratchet;
    DeliveryOutcome(w, Bob, 0, sent.packet.ratchet.header, sent.packet.prekey, sent.conversation);
    if loaded.Ok? && loaded.value.Decrypt(sent.packet.ratchet, base, w.supply).Ok? {
      LoadedLoads(w, Bob, 0, sent.packet.ratchet.header, sent.packet.prekey);
      UntouchedStarts(loaded.value, sent.packet.ratchet, base, w.supply);
    }
  }

  lemma GreetedIsBehind(start: World, plaintext: Payload, conversation: string) returns (dh: nat)
    requires Initial(start) && X3dhSender(start.alice, start.bundle, start.supply).Ok? && Reachable(start)
    ensures Behind(Run(start, Greeting(start, plaintext, conversation)), dh, 0)
  {
    var first := SendTo(Alice, plaintext, conversation);
    var w := SendStep(start, Alice, plaintext, conversation);
    FirstPacketGoesOut(start, plaintext, conversation);
    FirstMessage(start, plaintext, conversation);
    FirstRun(start, first);
    HandshakeCompletes(start, plaintext, conversation);
    dh := w.SessionOf(Alice).dhs;
    RunOneMore(start, [first], Faithful(w.wire[0], 0));
    FirstDelivery(w, dh);
  }

  lemma OneMoreBehind(w: World, dh: nat, count: nat, plaintext: Payload, conversation: string)
    requires Behind(w, dh, count)
    ensures Behind(SendStep(w, Alice, plaintext, conversation), dh, count + 1)
  {
    SendIsNextSent(w, Alice, plaintext, conversation);
  }

  lemma {:induction false} RunAppend(start: World, first: seq<Event>, second: seq<Event>)
    ensures Run(start, first + second) == Run(Run(start, first), second)
    decreases |second|
  {
    if second == [] {
      AppendNothing(first);
    } else {
      var front, last := second[..|second| - 1], second[|second| - 1];
      RunAppend(start, first, front);
      AppendLast(first, second);
      RunOneMore(start, first + front, last);
    }
  }

  lemma OneMoreInBurst(w: World, earlier: seq<Event>, dh: nat, count: nat, plaintext: Payload, conversation: string)
    requires Behind(Run(w, earlier), dh, count)
    ensures Behind(Run(w, earlier + [SendTo(Alice, plaintext, conversation)]), dh, count + 1)
  {
    OneMoreBehind(Run(w, earlier), dh, count, plaintext, conversation);
    RunOneMore(w, earlier, SendTo(Alice, plaintext, conversation));
  }

  lemma {:induction false} BurstLeavesBehind(w: World, dh: nat, count: nat, plaintext: Payload, conversation: string)
    requires Behind(w, dh, 0)
    ensures Behind(Run(w, Burst(count, plaintext, conversation)), dh, count)
  {
    if count == 0 {
    } else {
      BurstLeavesBehind(w, dh, count - 1, plaintext, conversation);
      OneMoreInBurst(w, Burst(count - 1, plaintext, conversation), dh, count - 1, plaintext, conversation);
    }
  }

  function Upto(count: nat): set<nat> {
    if count == 0 then {} else Upto(count - 1) + {count}
  }

  lemma {:induction false} UptoSize(count: nat)
    ensures |Upto(count)| == count && forall i: nat :: i in Upto(count) <==> 1 <= i <= count
  {
    if count == 0 {
    } else {
      UptoSize(count - 1);
    }
  }

  lemma BehindIsOutstanding(w: World, dh: nat, count: nat)
    requires Behind(w, dh, count)
    ensures Outstanding(w, Bob) == Upto(count) && |Outstanding(w, Bob)| == count
  {
    assert w.accepted[..0] == [];
    assert AcceptedIds(w.accepted, Bob) == {SkippedId(dh, 0)};
    UptoSize(count);
  }

  lemma LastIsOutOfReach(w: World, dh: nat)
    requires Behind(w, dh, MAX_SKIP + 2)
    ensures !Acceptable(w, Bob, w.wire[MAX_SKIP + 2].packet.ratchet.header)
  {
    assert IdOf(w.wire[MAX_SKIP + 2].packet.ratchet.header) == SkippedId(dh, MAX_SKIP + 2);
  }

  /** The bound is the largest: with 102 outstanding packets the last one is refused. */
  lemma OneMoreIsRefused(start: World, plaintext: Payload, conversation: string)
    requires Initial(start) && X3dhSender(start.alice, start.bundle, start.supply).Ok? && Reachable(start)
    ensures var w := Run(start, Greeting(start, plaintext, conversation)
                                + Burst(MAX_SKIP + 2, plaintext, conversation));
            && w.HasSession(Bob) && |Outstanding(w, Bob)| == MAX_SKIP + 2 && MAX_SKIP + 2 in Outstanding(w, Bob)
            && var sent := w.wire[MAX_SKIP + 2];
               Outcome(w, Bob, MAX_SKIP + 2, sent.packet.ratchet.header, sent.packet.prekey, sent.conversation).1.Err?
  {
    var greeting := Greeting(start, plaintext, conversation);
    var events := greeting + Burst(MAX_SKIP + 2, plaintext, conversation);
    var dh := GreetedIsBehind(start, plaintext, conversation);
    RunAppend(start, greeting, Burst(MAX_SKIP + 2, plaintext, conversation));
    BurstLeavesBehind(Run(start, greeting), dh, MAX_SKIP + 2, plaintext, conversation);
    var w := Run(start, events);
    BehindIsOutstanding(w, dh, MAX_SKIP + 2);
    LastIsOutOfReach(w, dh);
    PacketsOpenExactlyOnce(start, events, Bob, MAX_SKIP + 2, w.wire[MAX_SKIP + 2].packet.prekey);
  }

  /** Two clients who have approved each other's devices. */
  function Acquainted(): World {
    var alice := Device("phone", 1, 2, 1, 3, []);
    var bob := Device("laptop", 4, 5, 1, 6, []);
    World(ClientState("alice", alice, map[], map[Peer("bob", "laptop") := Fingerprint(4, 5)], map[]),
          ClientState("bob", bob, map[], map[Peer("alice", "phone") := Fingerprint(1, 2)], map[]),
          Bundle("bob", None, "laptop", 4, 5, 1, 6, Signature(4, 6), None, None), [], [], 7, {})
  }

  /** There is such a start: the lemmas above are about something. */
  lemma AcquaintedCanStart()
    ensures var start := Acquainted();
            Initial(start) && X3dhSender(start.alice, start.bundle, start.supply).Ok? && Reachable(start)
  {
    assert "alice" != "bob";
  }
}
