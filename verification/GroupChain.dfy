/** The group sender chain over whole runs of one client: epochs, counters and message keys of every envelope that
was returned. */
module GroupChain {
  import opened Wrappers
  import opened Keys
  import opened Transport
  import opened Ordering
  import opened Envelopes

  datatype Published = Published(conversation: string, members: seq<string>, sealed: GroupSealed)

  datatype Event =
    | Publish(conversation: Conversation, plaintext: Payload, directories: seq<Directory>)
    | Elsewhere(call: Call)

  /** `log` holds the group ciphertexts that were returned, oldest first. */
  datatype World = World(client: ClientState, log: seq<Published>, supply: nat)

  predicate Answered(w: World, event: Event) {
    event.Publish? ==> |event.directories| == |Others(event.conversation.members, w.client.principal)|
  }

  function LogAfter(log: seq<Published>, conversation: Conversation, result: Attempt<Envelope>): seq<Published> {
    if result.Ok? && result.value.group.Some?
    then log + [Published(conversation.id, conversation.members, result.value.group.value)]
    else log
  }

  function Step(w: World, event: Event): World {
    if !Answered(w, event) then w
    else
      match event
      case Elsewhere(call) => w.(client := Perform(w.client, call))
      case Publish(conversation, plaintext, directories) =>
        var (c, result) := EncryptConversation(w.client, conversation, plaintext, directories, w.supply);
        World(c, LogAfter(w.log, conversation, result), w.supply + Needed(directories))
  }

  function Run(w: World, events: seq<Event>): World {
    if events == [] then w else Step(Run(w, events[..|events| - 1]), events[|events| - 1])
  }

  predicate Initial(w: World) {
    w.client.groups == map[] && w.log == []
  }

  /** How many envelopes of an epoch were returned. */
  function EpochCount(log: seq<Published>, epoch: nat): nat {
    if log == [] then 0
    else EpochCount(log[..|log| - 1], epoch) + (if log[|log| - 1].sealed.header.epoch == epoch then 1 else 0)
  }

  function LastOf(log: seq<Published>, conversation: string): Option<Published> {
    if log == [] then None
    else if log[|log| - 1].conversation == conversation then Some(log[|log| - 1])
    else LastOf(log[..|log| - 1], conversation)
  }

  function KeyOf(epoch: nat, counter: nat): Key {
    Message(Advance(Random(epoch + 1), counter))
  }

  // ---------------------------------------------------------------------------
  // The invariant

  ghost predicate StateKept(s: SenderState, log: seq<Published>, supply: nat, last: Option<Published>) {
    && last.Some? && s.epoch == last.value.sealed.header.epoch < supply
    && s.membership == MembershipOf(last.value.members)
    && s.counter == EpochCount(log, s.epoch)
    && s.chain == Advance(Random(s.epoch + 1), s.counter)
  }

  ghost predicate GroupsKept(groups: map<string, SenderState>, log: seq<Published>, supply: nat) {
    && (forall conv :: conv !in groups ==> LastOf(log, conv) == None)
    && (forall conv :: conv in groups ==> StateKept(groups[conv], log, supply, LastOf(log, conv)))
    && (forall conv, other :: conv in groups && other in groups && groups[conv].epoch == groups[other].epoch ==>
          conv == other)
  }

  ghost predicate EntryKept(earlier: seq<Published>, p: Published, supply: nat) {
    && p.sealed.header.epoch < supply
    && p.sealed.header.counter == EpochCount(earlier, p.sealed.header.epoch)
    && p.sealed.cipher.key == KeyOf(p.sealed.header.epoch, p.sealed.header.counter)
  }

  ghost predicate LogKept(log: seq<Published>, supply: nat) {
    forall i :: 0 <= i < |log| ==> EntryKept(log[..i], log[i], supply)
  }

  ghost predicate Kept(w: World) {
    GroupsKept(w.client.groups, w.log, w.supply) && LogKept(w.log, w.supply)
  }

  lemma {:induction false} UnusedEpoch(log: seq<Published>, supply: nat, epoch: nat)
    requires LogKept(log, supply) && supply <= epoch
    ensures EpochCount(log, epoch) == 0
  {
    if log == [] {
    } else {
      var init := log[..|log| - 1];
      forall i | 0 <= i < |init| ensures EntryKept(init[..i], init[i], supply) {
        assert init[..i] == log[..i] && EntryKept(log[..i], log[i], supply);
      }
      assert EntryKept(log[..|log| - 1], log[|log| - 1], supply);
      UnusedEpoch(init, supply, epoch);
    }
  }

  /** What a publication does to the sender states: nothing, or one use of the chain `s`. */
  ghost predicate Used(c: ClientState, s: SenderState, conversation: Conversation,
                       outcome: (ClientState, Attempt<Envelope>))
  {
    if outcome.1.Ok? && outcome.1.value.group.Some? then
      && outcome.0.groups == c.groups[conversation.id := s.(chain := Next(s.chain), counter := s.counter + 1)]
      && outcome.1.value.group.value.header == GroupHeaderOf(conversation, c.device, s)
      && outcome.1.value.group.value.cipher.key == Message(s.chain)
    else outcome.0.groups == c.groups
  }

  /** The same of the packets and the group ciphertext alone. */
  ghost predicate UsedBy(c: ClientState, s: SenderState, conversation: Conversation, body: Body) {
    if body.1.Ok? && body.1.value.1.Some? then
      && body.0.groups == c.groups[conversation.id := s.(chain := Next(s.chain), counter := s.counter + 1)]
      && body.1.value.1.value.header == GroupHeaderOf(conversation, c.device, s)
      && body.1.value.1.value.cipher.key == Message(s.chain)
    else body.0.groups == c.groups
  }

  /** One use of the chain `s`, or none if nothing was sent. */
  predicate UsedOnce(c: ClientState, s: SenderState, conversation: Conversation, sealed: GroupSealed,
                     outcome: (ClientState, Attempt<(GroupSealed, seq<Packet>)>))
  {
    if outcome.1.Err? then outcome.0.groups == c.groups
    else
      && outcome.0.groups == c.groups[conversation.id := s.(chain := Next(s.chain), counter := s.counter + 1)]
      && outcome.1.value.0 == sealed
  }

  lemma FinishEffect(c: ClientState, conversation: Conversation, s: SenderState, sealed: GroupSealed,
                     sending: Sending)
    requires sending.0.groups == c.groups
    ensures UsedOnce(c, s, conversation, sealed, FinishGroup(conversation, s, sealed, sending))
  {
  }

  lemma GroupEffect(c: ClientState, conversation: Conversation, plaintext: Payload, recipients: seq<string>,
                    directories: seq<Directory>, supply: nat)
    requires |directories| == |recipients|
    ensures var s := CurrentSender(c, conversation, supply);
            UsedOnce(c, s, conversation, SealGroup(conversation, c.device, s, plaintext),
                     EncryptGroup(c, conversation, plaintext, recipients, directories, supply))
  {
    var s := CurrentSender(c, conversation, supply);
    var distribution := Distribution(conversation, c.device, s);
    SendCoversMembers(c, recipients, directories, distribution, conversation.id, supply + 2);
    FinishEffect(c, conversation, s, SealGroup(conversation, c.device, s, plaintext),
                 SendToMembers(c, recipients, directories, distribution, conversation.id, supply + 2));
  }

  lemma BodyEffect(c: ClientState, conversation: Conversation, plaintext: Payload, recipients: seq<string>,
                   directories: seq<Directory>, supply: nat)
    requires |directories| == |recipients|
    ensures UsedBy(c, CurrentSender(c, conversation, supply), conversation,
                   EncryptBody(c, conversation, plaintext, recipients, directories, supply))
  {
    if conversation.direct {
      SendCoversMembers(c, recipients, directories, plaintext, conversation.id, supply);
    } else {
      GroupEffect(c, conversation, plaintext, recipients, directories, supply);
    }
  }

  lemma WrappedEffect(c: ClientState, s: SenderState, conversation: Conversation, body: Body, own: SelfSealed)
    requires UsedBy(c, s, conversation, body)
    ensures Used(c, s, conversation, Wrap(c, conversation, body, own))
  {
  }

  lemma PublicationEffect(c: ClientState, conversation: Conversation, plaintext: Payload, directories: seq<Directory>,
                          supply: nat)
    requires |directories| == |Others(conversation.members, c.principal)|
    ensures Used(c, CurrentSender(c, conversation, supply), conversation,
                 EncryptConversation(c, conversation, plaintext, directories, supply))
  {
    var recipients := Others(conversation.members, c.principal);
    BodyEffect(c, conversation, plaintext, recipients, directories, supply);
    WrappedEffect(c, CurrentSender(c, conversation, supply), conversation,
                  EncryptBody(c, conversation, plaintext, recipients, directories, supply),
                  SealSelf(c, plaintext, conversation.id, supply + 2 + 2 * DeviceCount(directories)));
  }

  lemma AppendOne(log: seq<Published>, p: Published, epoch: nat, conversation: string)
    ensures EpochCount(log + [p], epoch) == EpochCount(log, epoch) + (if p.sealed.header.epoch == epoch then 1 else 0)
    ensures LastOf(log + [p], conversation)
            == (if p.conversation == conversation then Some(p) else LastOf(log, conversation))
  {
    assert (log + [p])[..|log|] == log;
  }

  lemma MoreSupply(groups: map<string, SenderState>, log: seq<Published>, supply: nat, more: nat)
    requires GroupsKept(groups, log, supply) && LogKept(log, supply) && supply <= more
    ensures GroupsKept(groups, log, more) && LogKept(log, more)
  {
    forall conv | conv in groups ensures StateKept(groups[conv], log, more, LastOf(log, conv)) {
      assert StateKept(groups[conv], log, supply, LastOf(log, conv));
    }
    forall i | 0 <= i < |log| ensures EntryKept(log[..i], log[i], more) {
      assert EntryKept(log[..i], log[i], supply);
    }
  }

  lemma AppendKeepsLog(log: seq<Published>, supply: nat, p: Published)
    requires LogKept(log, supply) && EntryKept(log, p, supply)
    ensures LogKept(log + [p], supply)
  {
    var all := log + [p];
    forall i | 0 <= i < |all| ensures EntryKept(all[..i], all[i], supply) {
      if i < |log| {
        assert all[..i] == log[..i];
      } else {
        assert all[..i] == log;
      }
    }
  }

  /** The chain that the next publication uses stands where the log of its epoch ends. */
  ghost predicate Current(groups: map<string, SenderState>, log: seq<Published>, supply: nat, s: SenderState,
                          conversation: string)
  {
    && s.epoch < supply && s.counter == EpochCount(log, s.epoch) && s.chain == Advance(Random(s.epoch + 1), s.counter)
    && forall conv :: conv in groups && conv != conversation ==> groups[conv].epoch != s.epoch
  }

  lemma AppendKeepsGroups(groups: map<string, SenderState>, log: seq<Published>, supply: nat, s: SenderState,
                          p: Published)
    requires GroupsKept(groups, log, supply) && Current(groups, log, supply, s, p.conversation)
    requires p.sealed.header.epoch == s.epoch && s.membership == MembershipOf(p.members)
    ensures GroupsKept(groups[p.conversation := s.(chain := Next(s.chain), counter := s.counter + 1)], log + [p],
                       supply)
  {
    var after := s.(chain := Next(s.chain), counter := s.counter + 1);
    var more := groups[p.conversation := after];
    AppendOne(log, p, s.epoch, p.conversation);
    assert StateKept(after, log + [p], supply, Some(p));
    forall conv | conv in more ensures StateKept(more[conv], log + [p], supply, LastOf(log + [p], conv)) {
      if conv != p.conversation {
        assert StateKept(groups[conv], log, supply, LastOf(log, conv));
        AppendOne(log, p, groups[conv].epoch, conv);
      }
    }
    forall conv | conv !in more ensures LastOf(log + [p], conv) == None {
      AppendOne(log, p, 0, conv);
    }
  }

  lemma CurrentIsReady(groups: map<string, SenderState>, log: seq<Published>, supply: nat, more: nat, s: SenderState,
                       conversation: string)
    requires GroupsKept(groups, log, supply) && LogKept(log, supply) && supply + 2 <= more
    requires if conversation in groups && groups[conversation].membership == s.membership
             then s == groups[conversation]
             else s.epoch == supply && s.counter == 0 && s.chain == Random(supply + 1)
    ensures Current(groups, log, more, s, conversation)
  {
    if conversation in groups {
      assert StateKept(groups[conversation], log, supply, LastOf(log, conversation));
    }
    UnusedEpoch(log, supply, supply);
    forall conv | conv in groups ensures groups[conv].epoch < supply {
      assert StateKept(groups[conv], log, supply, LastOf(log, conv));
    }
  }

  lemma UseIsKept(groups: map<string, SenderState>, log: seq<Published>, supply: nat, s: SenderState, p: Published)
    requires Current(groups, log, supply, s, p.conversation)
    requires p.sealed.header.epoch == s.epoch && p.sealed.header.counter == s.counter
    requires p.sealed.cipher.key == Message(s.chain)
    ensures EntryKept(log, p, supply)
  {
  }

  /** One more use of a kept or new chain. */
  lemma AppendKeeps(groups: map<string, SenderState>, log: seq<Published>, supply: nat, more: nat, s: SenderState,
                    p: Published)
    requires GroupsKept(groups, log, supply) && LogKept(log, supply) && supply + 2 <= more
    requires p.sealed.header.epoch == s.epoch && p.sealed.header.counter == s.counter
    requires p.sealed.cipher.key == Message(s.chain) && s.membership == MembershipOf(p.members)
    requires if p.conversation in groups && groups[p.conversation].membership == s.membership
             then s == groups[p.conversation]
             else s.epoch == supply && s.counter == 0 && s.chain == Random(supply + 1)
    ensures GroupsKept(groups[p.conversation := s.(chain := Next(s.chain), counter := s.counter + 1)], log + [p], more)
    ensures LogKept(log + [p], more)
  {
    CurrentIsReady(groups, log, supply, more, s, p.conversation);
    MoreSupply(groups, log, supply, more);
    AppendKeepsGroups(groups, log, more, s, p);
    UseIsKept(groups, log, more, s, p);
    AppendKeepsLog(log, more, p);
  }

  lemma PublishKeeps(c: ClientState, log: seq<Published>, supply: nat, conversation: Conversation, s: SenderState,
                     outcome: (ClientState, Attempt<Envelope>), needed: nat)
    requires GroupsKept(c.groups, log, supply) && LogKept(log, supply) && needed >= 2
    requires s.membership == MembershipOf(conversation.members)
    requires if conversation.id in c.groups && c.groups[conversation.id].membership == s.membership
             then s == c.groups[conversation.id]
             else s.epoch == supply && s.counter == 0 && s.chain == Random(supply + 1)
    requires Used(c, s, conversation, outcome)
    ensures var after := LogAfter(log, conversation, outcome.1);
            GroupsKept(outcome.0.groups, after, supply + needed) && LogKept(after, supply + needed)
  {
    if outcome.1.Ok? && outcome.1.value.group.Some? {
      AppendKeeps(c.groups, log, supply, supply + needed, s,
                  Published(conversation.id, conversation.members, outcome.1.value.group.value));
    } else {
      MoreSupply(c.groups, log, supply, supply + needed);
    }
  }

  lemma PublishStepKeeps(w: World, conversation: Conversation, plaintext: Payload, directories: seq<Directory>)
    requires Kept(w) && |directories| == |Others(conversation.members, w.client.principal)|
    ensures Kept(Step(w, Publish(conversation, plaintext, directories)))
  {
    PublicationEffect(w.client, conversation, plaintext, directories, w.supply);
    PublishKeeps(w.client, w.log, w.supply, conversation, CurrentSender(w.client, conversation, w.supply),
                 EncryptConversation(w.client, conversation, plaintext, directories, w.supply), Needed(directories));
  }

  lemma {:induction false} VerifyKeepsGroups(c: ClientState, principal: string, devices: seq<DirectoryDevice>,
                                             approve: Approval)
    ensures VerifyDevices(c, principal, devices, approve).0.groups == c.groups
    decreases |devices|
  {
    if devices == [] {
    } else {
      var peer, fingerprint := Peer(principal, devices[0].id), devices[0].KeyFingerprint();
      VerifyKeepsGroups(c, principal, devices[1..], approve);
      VerifyKeepsGroups(Approve(c, peer, fingerprint), principal, devices[1..], approve);
    }
  }

  lemma PerformKeepsGroups(c: ClientState, call: Call)
    ensures Perform(c, call).groups == c.groups
  {
    if call.Verify? {
      VerifyKeepsGroups(c, call.principal, call.devices, call.approve);
    }
  }

  lemma StepKeeps(w: World, event: Event)
    requires Kept(w)
    ensures Kept(Step(w, event))
  {
    if Answered(w, event) {
      match event
      case Elsewhere(call) => PerformKeepsGroups(w.client, call);
      case Publish(conversation, plaintext, directories) =>
        PublishStepKeeps(w, conversation, plaintext, directories);
    }
  }

  lemma {:induction false} RunKeeps(w: World, events: seq<Event>)
    requires Initial(w)
    ensures Kept(Run(w, events))
    decreases |events|
  {
    if events == [] {
    } else {
      RunKeeps(w, events[..|events| - 1]);
      StepKeeps(Run(w, events[..|events| - 1]), events[|events| - 1]);
    }
  }

  // ---------------------------------------------------------------------------
  // What runs guarantee

  /** The stored chain is the epoch's first chain key advanced once for every returned envelope of the epoch. */
  predicate IsAdvanced(w: World, conversation: string)
    requires conversation in w.client.groups
  {
    var s := w.client.groups[conversation];
    s.counter == EpochCount(w.log, s.epoch) && s.chain == Advance(Random(s.epoch + 1), s.counter)
  }

  lemma StoredIsKept(w: World, conversation: string)
    requires Kept(w) && conversation in w.client.groups
    ensures IsAdvanced(w, conversation)
  {
    assert StateKept(w.client.groups[conversation], w.log, w.supply, LastOf(w.log, conversation));
  }

  /** In every run every stored chain stands where its epoch's envelopes have brought it. */
  lemma StoredChainIsAdvanced(start: World, events: seq<Event>, conversation: string)
    requires Initial(start) && conversation in Run(start, events).client.groups
    ensures IsAdvanced(Run(start, events), conversation)
  {
    RunKeeps(start, events);
    StoredIsKept(Run(start, events), conversation);
  }

  lemma {:induction false} EpochCountGrows(log: seq<Published>, i: nat, j: nat, epoch: nat)
    requires i < j <= |log| && log[i].sealed.header.epoch == epoch
    ensures EpochCount(log[..i], epoch) < EpochCount(log[..j], epoch)
    decreases j
  {
    assert log[..j][..j - 1] == log[..j - 1];
    if i == j - 1 {
    } else {
      EpochCountGrows(log, i, j - 1, epoch);
    }
  }

  lemma KeysDiffer(epoch: nat, counter: nat, other: nat, otherCounter: nat)
    requires !(epoch == other && counter == otherCounter)
    ensures KeyOf(epoch, counter) != KeyOf(other, otherCounter)
  {
    if KeyOf(epoch, counter) == KeyOf(other, otherCounter) {
      AdvanceInjective(Random(epoch + 1), counter, Random(other + 1), otherCounter);
    }
  }

  lemma EntriesDiffer(log: seq<Published>, supply: nat, i: nat, j: nat)
    requires LogKept(log, supply) && i < j < |log|
    ensures var first, second := log[i].sealed, log[j].sealed;
            && second.header.counter == EpochCount(log[..j], second.header.epoch)
            && (first.header.epoch == second.header.epoch ==> first.header.counter < second.header.counter)
            && first.cipher.key != second.cipher.key
  {
    var first, second := log[i].sealed.header, log[j].sealed.header;
    assert EntryKept(log[..i], log[i], supply) && EntryKept(log[..j], log[j], supply);
    if first.epoch == second.epoch {
      EpochCountGrows(log, i, j, first.epoch);
    }
    KeysDiffer(first.epoch, first.counter, second.epoch, second.counter);
  }

  lemma EntryIsKept(w: World, i: nat)
    requires Kept(w) && i < |w.log|
    ensures EntryKept(w.log[..i], w.log[i], w.supply)
  {
  }

  /** Every envelope of a run carries as its counter the number of earlier envelopes of its epoch: 0, 1, 2, ... */
  lemma CountersCount(start: World, events: seq<Event>, i: nat)
    requires Initial(start) && i < |Run(start, events).log|
    ensures var log := Run(start, events).log;
            log[i].sealed.header.counter == EpochCount(log[..i], log[i].sealed.header.epoch)
  {
    RunKeeps(start, events);
    EntryIsKept(Run(start, events), i);
  }

  /** Within an epoch the counters grow in the order in which the envelopes were returned; no two envelopes of a run
      share epoch and counter, and none shares its message key. */
  lemma CountersNeverRepeat(start: World, events: seq<Event>, i: nat, j: nat)
    requires Initial(start) && i < j < |Run(start, events).log|
    ensures var log := Run(start, events).log;
            && log[j].sealed.header.counter == EpochCount(log[..j], log[j].sealed.header.epoch)
            && (log[i].sealed.header.epoch == log[j].sealed.header.epoch ==>
                  log[i].sealed.header.counter < log[j].sealed.header.counter)
            && log[i].sealed.cipher.key != log[j].sealed.cipher.key
  {
    RunKeeps(start, events);
    var w := Run(start, events);
    EntriesDiffer(w.log, w.supply, i, j);
  }

  /** A group envelope is returned. */
  predicate Publishes(w: World, conversation: Conversation, plaintext: Payload, directories: seq<Directory>) {
    && |directories| == |Others(conversation.members, w.client.principal)|
    && var result := EncryptConversation(w.client, conversation, plaintext, directories, w.supply).1;
       result.Ok? && result.value.group.Some?
  }

  function HeaderOf(w: World, conversation: Conversation, plaintext: Payload, directories: seq<Directory>): GroupHeader
    requires Publishes(w, conversation, plaintext, directories)
  {
    EncryptConversation(w.client, conversation, plaintext, directories, w.supply).1.value.group.value.header
  }

  lemma HeaderFollowsDigest(c: ClientState, log: seq<Published>, supply: nat, conversation: Conversation,
                            header: GroupHeader)
    requires GroupsKept(c.groups, log, supply) && LogKept(log, supply)
    requires header == GroupHeaderOf(conversation, c.device, CurrentSender(c, conversation, supply))
    ensures var last := LastOf(log, conversation.id);
            if last.Some? && MembershipOf(last.value.members) == MembershipOf(conversation.members)
            then header.epoch == last.value.sealed.header.epoch
            else header.counter == 0 && forall i :: 0 <= i < |log| ==> log[i].sealed.header.epoch != header.epoch
  {
    if conversation.id in c.groups {
      assert StateKept(c.groups[conversation.id], log, supply, LastOf(log, conversation.id));
    }
    forall i | 0 <= i < |log| ensures log[i].sealed.header.epoch < supply {
      assert EntryKept(log[..i], log[i], supply);
    }
  }

  /** A returned envelope continues the conversation's last epoch exactly when there is one and the membership digest
      is the same; otherwise it opens an epoch that no earlier envelope carries. */
  lemma EpochFollowsDigest(start: World, events: seq<Event>, conversation: Conversation, plaintext: Payload,
                           directories: seq<Directory>)
    requires Initial(start) && Publishes(Run(start, events), conversation, plaintext, directories)
    ensures var w := Run(start, events);
            var header := HeaderOf(w, conversation, plaintext, directories);
            var last := LastOf(w.log, conversation.id);
            if last.Some? && MembershipOf(last.value.members) == MembershipOf(conversation.members)
            then header.epoch == last.value.sealed.header.epoch
            else header.counter == 0 && forall i :: 0 <= i < |w.log| ==> w.log[i].sealed.header.epoch != header.epoch
  {
    RunKeeps(start, events);
    var w := Run(start, events);
    PublicationEffect(w.client, conversation, plaintext, directories, w.supply);
    HeaderFollowsDigest(w.client, w.log, w.supply, conversation, HeaderOf(w, conversation, plaintext, directories));
  }

  lemma LastIsLogged(log: seq<Published>, conversation: string)
    ensures LastOf(log, conversation).Some? ==> LastOf(log, conversation).value in log
  {
  }

  /** For members without newlines in their names: the members are those of the conversation's last envelope exactly
      when its epoch is continued, no name of it contained a newline, and both or neither lists are empty. */
  lemma NewEpochIff(start: World, events: seq<Event>, conversation: Conversation, plaintext: Payload,
                    directories: seq<Directory>)
    requires Initial(start) && Publishes(Run(start, events), conversation, plaintext, directories)
    requires OneLiners(conversation.members) && LastOf(Run(start, events).log, conversation.id).Some?
    ensures var w := Run(start, events);
            var last := LastOf(w.log, conversation.id).value;
            multiset(last.members) == multiset(conversation.members)
            <==> HeaderOf(w, conversation, plaintext, directories).epoch == last.sealed.header.epoch
                 && OneLiners(last.members) && (last.members == [] <==> conversation.members == [])
  {
    EpochFollowsDigest(start, events, conversation, plaintext, directories);
    var log := Run(start, events).log;
    LastIsLogged(log, conversation.id);
    MembershipIsMultiset(conversation.members, LastOf(log, conversation.id).value.members);
  }
}
