/** Who an envelope is for, what its packets are made from, and what makes the sending fail. */
module Coverage {
  import opened Wrappers
  import opened Sequences
  import opened Keys
  import opened Transport
  import opened Envelopes

  // ---------------------------------------------------------------------------
  // Recipients

  lemma {:induction false} OthersSelect(members: seq<string>, principal: string) returns (at: seq<nat>)
    ensures IsSelection(Others(members, principal), members, at)
  {
    if members == [] {
      at := [];
    } else {
      var rest := OthersSelect(members[1..], principal);
      SelectionLater(Others(members[1..], principal), members, rest);
      AppendNothing(Others(members[1..], principal));
      at := if members[0] == principal then Shifted(rest) else [0] + Shifted(rest);
    }
  }

  lemma {:induction false} OthersCount(members: seq<string>, principal: string, name: string)
    ensures multiset(Others(members, principal))[name] == if name == principal then 0 else multiset(members)[name]
  {
    if members == [] {
    } else {
      OthersCount(members[1..], principal, name);
      HeadAndTail(members);
    }
  }

  /** The recipients are the members except the sender, each as often as it is a member, in the members' order. */
  lemma OthersAreMembers(members: seq<string>, principal: string) returns (at: seq<nat>)
    ensures multiset(Others(members, principal)) == multiset(members)[principal := 0]
    ensures IsSelection(Others(members, principal), members, at)
  {
    forall name: string
      ensures multiset(Others(members, principal))[name] == multiset(members)[principal := 0][name]
    {
      OthersCount(members, principal, name);
    }
    at := OthersSelect(members, principal);
  }

  /** What the server answers when its answers depend on the principal alone. */
  function AnswersOf(recipients: seq<string>, answer: string -> Directory): (directories: seq<Directory>)
    ensures |directories| == |recipients|
  {
    if recipients == [] then [] else [answer(recipients[0])] + AnswersOf(recipients[1..], answer)
  }

  /** How often a directory lists a device id. */
  function Listings(devices: seq<DirectoryDevice>, id: string): nat {
    if devices == [] then 0 else (if devices[0].id == id then 1 else 0) + Listings(devices[1..], id)
  }

  lemma {:induction false} DeviceAddressCount(principal: string, devices: seq<DirectoryDevice>, peer: Peer)
    ensures multiset(DeviceAddresses(principal, devices))[peer]
            == if peer.principal == principal then Listings(devices, peer.device) else 0
  {
    if devices == [] {
    } else {
      DeviceAddressCount(principal, devices[1..], peer);
    }
  }

  lemma HeadCount<T>(s: seq<T>, x: T)
    requires s != []
    ensures multiset(s)[x] == (if s[0] == x then 1 else 0) + multiset(s[1..])[x]
  {
    HeadAndTail(s);
  }

  lemma AppendCount<T>(s: seq<T>, t: seq<T>, x: T)
    ensures multiset(s + t)[x] == multiset(s)[x] + multiset(t)[x]
  {
  }

  lemma Distributes(first: nat, rest: nat, listings: nat)
    ensures (first + rest) * listings == first * listings + rest * listings
  {
  }

  lemma MemberAddressesStep(recipients: seq<string>, answer: string -> Directory)
    requires recipients != []
    ensures MemberAddresses(recipients, AnswersOf(recipients, answer))
            == DeviceAddresses(recipients[0], answer(recipients[0]).devices)
               + MemberAddresses(recipients[1..], AnswersOf(recipients[1..], answer))
  {
    var directories := AnswersOf(recipients, answer);
    assert directories[0] == answer(recipients[0]) && directories[1..] == AnswersOf(recipients[1..], answer);
  }

  lemma {:induction false} AddressCount(recipients: seq<string>, answer: string -> Directory, peer: Peer)
    ensures multiset(MemberAddresses(recipients, AnswersOf(recipients, answer)))[peer]
            == multiset(recipients)[peer.principal] * Listings(answer(peer.principal).devices, peer.device)
  {
    if recipients == [] {
    } else {
      var listings := Listings(answer(peer.principal).devices, peer.device);
      AddressCount(recipients[1..], answer, peer);
      MemberAddressesStep(recipients, answer);
      AppendCount(DeviceAddresses(recipients[0], answer(recipients[0]).devices),
                  MemberAddresses(recipients[1..], AnswersOf(recipients[1..], answer)), peer);
      DeviceAddressCount(recipients[0], answer(recipients[0]).devices, peer);
      HeadCount(recipients, peer.principal);
      Distributes(if recipients[0] == peer.principal then 1 else 0, multiset(recipients[1..])[peer.principal],
                  listings);
    }
  }

  lemma ShapedAddresses(c: ClientState, conversation: Conversation, plaintext: Payload, addresses: seq<Peer>,
                        outcome: (ClientState, Attempt<Envelope>), carried: Payload)
    requires Shaped(c, conversation, plaintext, addresses, outcome, carried) && outcome.1.Ok?
    ensures Addresses(outcome.1.value.packets) == addresses
  {
  }

  /** A finished envelope carries for every device as many packets as its principal is a member, for each time the
      directory lists it, and none for the sender. */
  lemma EnvelopeCoversMembers(c: ClientState, conversation: Conversation, plaintext: Payload,
                              answer: string -> Directory, supply: nat, peer: Peer)
    requires EncryptConversation(c, conversation, plaintext,
                                 AnswersOf(Others(conversation.members, c.principal), answer), supply).1.Ok?
    ensures var envelope := EncryptConversation(c, conversation, plaintext,
                                                AnswersOf(Others(conversation.members, c.principal), answer),
                                                supply).1.value;
            multiset(Addresses(envelope.packets))[peer]
            == if peer.principal == c.principal then 0
               else multiset(conversation.members)[peer.principal]
                    * Listings(answer(peer.principal).devices, peer.device)
  {
    var recipients := Others(conversation.members, c.principal);
    EnvelopeIsShaped(c, conversation, plaintext, recipients, AnswersOf(recipients, answer), supply);
    ShapedAddresses(c, conversation, plaintext, MemberAddresses(recipients, AnswersOf(recipients, answer)),
                    EncryptConversation(c, conversation, plaintext, AnswersOf(recipients, answer), supply),
                    Carried(c, conversation, plaintext, supply));
    AddressCount(recipients, answer, peer);
    OthersCount(conversation.members, c.principal, peer.principal);
  }

  lemma {:induction false} IsListed(devices: seq<DirectoryDevice>, id: string)
    ensures Listings(devices, id) > 0 <==> exists i :: 0 <= i < |devices| && devices[i].id == id
  {
    if devices == [] {
    } else {
      IsListed(devices[1..], id);
      if i :| 0 <= i < |devices| && devices[i].id == id {
        assert i > 0 ==> devices[1..][i - 1].id == id;
      }
      if i :| 0 <= i < |devices| - 1 && devices[1..][i].id == id {
        assert devices[i + 1].id == id;
      }
    }
  }

  lemma Factors(a: nat, b: nat)
    ensures a * b > 0 <==> a > 0 && b > 0
  {
  }

  /** So its addresses are exactly the directory devices of the members other than the sender. */
  lemma EnvelopeAddressesIff(c: ClientState, conversation: Conversation, plaintext: Payload,
                             answer: string -> Directory, supply: nat, peer: Peer)
    requires EncryptConversation(c, conversation, plaintext,
                                 AnswersOf(Others(conversation.members, c.principal), answer), supply).1.Ok?
    ensures var envelope := EncryptConversation(c, conversation, plaintext,
                                                AnswersOf(Others(conversation.members, c.principal), answer),
                                                supply).1.value;
            peer in Addresses(envelope.packets)
            <==> && peer.principal != c.principal && peer.principal in conversation.members
                 && exists i :: 0 <= i < |answer(peer.principal).devices|
                                && answer(peer.principal).devices[i].id == peer.device
  {
    EnvelopeCoversMembers(c, conversation, plaintext, answer, supply, peer);
    IsListed(answer(peer.principal).devices, peer.device);
    Factors(multiset(conversation.members)[peer.principal], Listings(answer(peer.principal).devices, peer.device));
    var envelope := EncryptConversation(c, conversation, plaintext,
                                        AnswersOf(Others(conversation.members, c.principal), answer), supply).1.value;
    assert peer in Addresses(envelope.packets) <==> peer in multiset(Addresses(envelope.packets));
    assert peer.principal in conversation.members <==> peer.principal in multiset(conversation.members);
  }

  predicate ListsDevice(answer: Directory, id: string) {
    exists i :: 0 <= i < |answer.devices| && answer.devices[i].id == id
  }

  /** Answer `k` is about the principal of this peer, and lists its device. */
  predicate IsAnswered(recipients: seq<string>, directories: seq<Directory>, peer: Peer, k: nat) {
    k < |recipients| && k < |directories| && recipients[k] == peer.principal && ListsDevice(directories[k], peer.device)
  }

  lemma DeviceAddressIff(principal: string, answer: Directory, peer: Peer)
    ensures peer in DeviceAddresses(principal, answer.devices)
            <==> peer.principal == principal && ListsDevice(answer, peer.device)
  {
    DeviceAddressCount(principal, answer.devices, peer);
    IsListed(answer.devices, peer.device);
    assert peer in DeviceAddresses(principal, answer.devices)
           <==> peer in multiset(DeviceAddresses(principal, answer.devices));
  }

  lemma {:induction false} MemberAddressIff(recipients: seq<string>, directories: seq<Directory>, peer: Peer)
    requires |directories| == |recipients|
    ensures peer in MemberAddresses(recipients, directories)
            <==> exists k: nat :: IsAnswered(recipients, directories, peer, k)
  {
    if recipients == [] {
    } else {
      MemberAddressIff(recipients[1..], directories[1..], peer);
      DeviceAddressIff(recipients[0], directories[0], peer);
      if k: nat :| IsAnswered(recipients, directories, peer, k) {
        assert k > 0 ==> IsAnswered(recipients[1..], directories[1..], peer, k - 1);
      }
      if k: nat :| IsAnswered(recipients[1..], directories[1..], peer, k) {
        assert IsAnswered(recipients, directories, peer, k + 1);
      }
      assert IsAnswered(recipients, directories, peer, 0)
             <==> peer in DeviceAddresses(recipients[0], directories[0].devices);
    }
  }

  /** Whatever the server answers, and even if it answers differently about one principal: the addresses are exactly the
      devices that an answer about a recipient lists. */
  lemma EnvelopeAddressesListed(c: ClientState, conversation: Conversation, plaintext: Payload,
                                directories: seq<Directory>, supply: nat, peer: Peer)
    requires |directories| == |Others(conversation.members, c.principal)|
    requires EncryptConversation(c, conversation, plaintext, directories, supply).1.Ok?
    ensures peer in Addresses(EncryptConversation(c, conversation, plaintext, directories, supply).1.value.packets)
            <==> exists k: nat :: IsAnswered(Others(conversation.members, c.principal), directories, peer, k)
  {
    var recipients := Others(conversation.members, c.principal);
    EnvelopeIsShaped(c, conversation, plaintext, recipients, directories, supply);
    ShapedAddresses(c, conversation, plaintext, MemberAddresses(recipients, directories),
                    EncryptConversation(c, conversation, plaintext, directories, supply),
                    Carried(c, conversation, plaintext, supply));
    MemberAddressIff(recipients, directories, peer);
  }

  // ---------------------------------------------------------------------------
  // Bundles

  /** Bundle `i` is the last one handed out for this device id. */
  predicate IsLast(handedOut: seq<Bundle>, id: string, i: nat) {
    && i < |handedOut| && handedOut[i].deviceId == id
    && forall j :: i < j < |handedOut| ==> handedOut[j].deviceId != id
  }

  predicate IsMissing(handedOut: seq<Bundle>, id: string) {
    forall j :: 0 <= j < |handedOut| ==> handedOut[j].deviceId != id
  }

  /** The directory entry as a bundle, without an id of its own and without a one-time prekey. */
  predicate IsEntry(principal: string, item: DirectoryDevice, bundle: Bundle) {
    && bundle.principal == principal && bundle.id.None? && bundle.deviceId == item.id
    && bundle.signing == item.signing && bundle.identity == item.identity
    && bundle.signedPrekeyId == item.signedPrekeyId && bundle.signedPrekey == item.signedPrekey
    && bundle.signature == item.signature && bundle.oneTimeId.None? && bundle.oneTime.None?
  }

  lemma MissingStep(handedOut: seq<Bundle>, id: string)
    requires handedOut != [] && handedOut[|handedOut| - 1].deviceId != id
    ensures IsMissing(handedOut, id) <==> IsMissing(handedOut[..|handedOut| - 1], id)
  {
    if IsMissing(handedOut[..|handedOut| - 1], id) {
      forall j | 0 <= j < |handedOut| ensures handedOut[j].deviceId != id {
        assert j < |handedOut| - 1 ==> handedOut[..|handedOut| - 1][j] == handedOut[j];
      }
    }
  }

  /** The bundle for a device is the last one handed out for its id, and the directory entry if there is none. */
  lemma {:induction false} ChoosesLast(principal: string, item: DirectoryDevice, handedOut: seq<Bundle>)
    returns (i: nat)
    ensures var bundle := Choose(principal, item, handedOut);
            if IsMissing(handedOut, item.id) then IsEntry(principal, item, bundle)
            else IsLast(handedOut, item.id, i) && bundle == handedOut[i]
    decreases |handedOut|
  {
    i := 0;
    if handedOut == [] {
    } else {
      i := |handedOut| - 1;
      if handedOut[i].deviceId != item.id {
        i := ChoosesLast(principal, item, handedOut[..|handedOut| - 1]);
        MissingStep(handedOut, item.id);
      }
    }
  }

  lemma {:induction false} ChoosesAsMany(principal: string, devices: seq<DirectoryDevice>, handedOut: seq<Bundle>)
    ensures |ChooseAll(principal, devices, handedOut)| == |devices|
  {
    if devices == [] {
    } else {
      ChoosesAsMany(principal, devices[1..], handedOut);
    }
  }

  /** The bundles follow the directory, one for each entry in order. */
  lemma {:induction false} ChoosesAll(principal: string, devices: seq<DirectoryDevice>, handedOut: seq<Bundle>, i: nat)
    requires i < |devices|
    ensures |ChooseAll(principal, devices, handedOut)| == |devices|
    ensures ChooseAll(principal, devices, handedOut)[i] == Choose(principal, devices[i], handedOut)
  {
    if i == 0 {
      ChoosesAsMany(principal, devices, handedOut);
    } else {
      ChoosesAll(principal, devices[1..], handedOut, i - 1);
    }
  }

  predicate IsApprovedEntry(c: ClientState, principal: string, item: DirectoryDevice) {
    Verified(c, Peer(principal, item.id), item.KeyFingerprint())
  }

  predicate LacksSession(c: ClientState, principal: string, item: DirectoryDevice) {
    Peer(principal, item.id) !in c.sessions
  }

  /** Bundles are asked for as soon as one listed device has no session. */
  predicate AsksForBundles(c: ClientState, principal: string, devices: seq<DirectoryDevice>) {
    exists i :: 0 <= i < |devices| && LacksSession(c, principal, devices[i])
  }

  /** The bundle that a listed device gets from what was handed out. */
  ghost predicate IsBundleOf(principal: string, item: DirectoryDevice, handedOut: seq<Bundle>, bundle: Bundle) {
    if IsMissing(handedOut, item.id) then IsEntry(principal, item, bundle)
    else exists k: nat :: IsLast(handedOut, item.id, k) && bundle == handedOut[k]
  }

  /** A recipient gets bundles exactly when all listed keys are approved: one for each entry in order, from what the
      server hands out if one of the devices has no session, and else from the entries themselves. */
  lemma BundlesIff(c: ClientState, principal: string, answer: Directory)
    ensures match BundlesFor(c, principal, answer)
            case Err(error) =>
              && error == DeviceUnverified
              && exists i :: 0 <= i < |answer.devices| && !IsApprovedEntry(c, principal, answer.devices[i])
            case Ok(bundles) =>
              && (forall i :: 0 <= i < |answer.devices| ==> IsApprovedEntry(c, principal, answer.devices[i]))
              && |bundles| == |answer.devices|
              && var handedOut := if AsksForBundles(c, principal, answer.devices) then answer.bundles else [];
                 forall i :: 0 <= i < |bundles| ==> IsBundleOf(principal, answer.devices[i], handedOut, bundles[i])
  {
    var handedOut := if AsksForBundles(c, principal, answer.devices) then answer.bundles else [];
    ChoosesAsMany(principal, answer.devices, handedOut);
    forall i | 0 <= i < |answer.devices|
      ensures IsBundleOf(principal, answer.devices[i], handedOut,
                         ChooseAll(principal, answer.devices, handedOut)[i]) {
      ChoosesAll(principal, answer.devices, handedOut, i);
      var k := ChoosesLast(principal, answer.devices[i], handedOut);
    }
    assert !AllVerified(c, principal, answer.devices)
           <==> exists i :: 0 <= i < |answer.devices| && !IsApprovedEntry(c, principal, answer.devices[i]);
    assert AllInSession(c, principal, answer.devices) <==> !AsksForBundles(c, principal, answer.devices);
  }

  // ---------------------------------------------------------------------------
  // Refusals

  /** A recipient with a listed key that is not approved, or with nothing listed, is refused without a packet. */
  lemma RefusedRecipient(c: ClientState, recipient: string, answer: Directory, plaintext: Payload,
                         conversation: string, supply: nat)
    ensures var sending := SendToOne(c, recipient, answer, plaintext, conversation, supply);
            && ((exists i :: 0 <= i < |answer.devices|
                             && !Verified(c, Peer(recipient, answer.devices[i].id), answer.devices[i].KeyFingerprint()))
                ==> sending == (c, Err(DeviceUnverified)))
            && (answer.devices == [] ==> sending == (c, Err(NoDevices)))
  {
    ChoosesAsMany(recipient, answer.devices, answer.bundles);
  }

  predicate IsReady(c: ClientState, recipient: string, answer: Directory) {
    && answer.devices != []
    && forall i :: 0 <= i < |answer.devices| ==>
         Verified(c, Peer(recipient, answer.devices[i].id), answer.devices[i].KeyFingerprint())
  }

  predicate AreReady(c: ClientState, recipients: seq<string>, directories: seq<Directory>)
    requires |directories| == |recipients|
  {
    forall i :: 0 <= i < |recipients| ==> IsReady(c, recipients[i], directories[i])
  }

  lemma OneIsReady(c: ClientState, recipient: string, answer: Directory, plaintext: Payload, conversation: string,
                   supply: nat)
    requires SendToOne(c, recipient, answer, plaintext, conversation, supply).1.Ok?
    ensures IsReady(c, recipient, answer)
  {
    RefusedRecipient(c, recipient, answer, plaintext, conversation, supply);
  }

  lemma ReadyTogether(c: ClientState, d: ClientState, recipients: seq<string>, directories: seq<Directory>)
    requires |directories| == |recipients| > 0 && d.verified == c.verified
    requires IsReady(c, recipients[0], directories[0]) && AreReady(d, recipients[1..], directories[1..])
    ensures AreReady(c, recipients, directories)
  {
    forall i | 0 <= i < |recipients| ensures IsReady(c, recipients[i], directories[i]) {
      if i > 0 {
        assert IsReady(d, recipients[1..][i - 1], directories[1..][i - 1]);
      }
    }
  }

  /** A send that succeeds so far as to make all packets. */
  predicate ReadyIfSent(c: ClientState, recipients: seq<string>, directories: seq<Directory>, sending: Sending)
    requires |directories| == |recipients|
  {
    sending.1.Ok? ==> AreReady(c, recipients, directories)
  }

  lemma ReadyThen(c: ClientState, one: Sending, recipients: seq<string>, directories: seq<Directory>, rest: Sending)
    requires |directories| == |recipients| > 0 && one.0.verified == c.verified
    requires one.1.Ok? ==> IsReady(c, recipients[0], directories[0])
    requires ReadyIfSent(one.0, recipients[1..], directories[1..], rest)
    ensures ReadyIfSent(c, recipients, directories, Then(one, rest))
  {
    if one.1.Ok? && rest.1.Ok? {
      ReadyTogether(c, one.0, recipients, directories);
    }
  }

  lemma {:induction false} MembersAreReady(c: ClientState, recipients: seq<string>, directories: seq<Directory>,
                                           plaintext: Payload, conversation: string, supply: nat)
    requires |directories| == |recipients|
    ensures ReadyIfSent(c, recipients, directories,
                        SendToMembers(c, recipients, directories, plaintext, conversation, supply))
    decreases |recipients|
  {
    if recipients == [] {
    } else {
      var one := SendToOne(c, recipients[0], directories[0], plaintext, conversation, supply);
      var next := supply + 2 * |directories[0].devices|;
      SendToOneCovers(c, recipients[0], directories[0], plaintext, conversation, supply);
      if one.1.Ok? {
        OneIsReady(c, recipients[0], directories[0], plaintext, conversation, supply);
      }
      MembersAreReady(one.0, recipients[1..], directories[1..], plaintext, conversation, next);
      ReadyThen(c, one, recipients, directories,
                SendToMembers(one.0, recipients[1..], directories[1..], plaintext, conversation, next));
    }
  }

  /** An envelope is finished only if every other member has devices and the user approved the key of each. */
  lemma EnvelopeIsApproved(c: ClientState, conversation: Conversation, plaintext: Payload,
                           directories: seq<Directory>, supply: nat)
    requires |directories| == |Others(conversation.members, c.principal)|
    requires EncryptConversation(c, conversation, plaintext, directories, supply).1.Ok?
    ensures AreReady(c, Others(conversation.members, c.principal), directories)
  {
    var recipients := Others(conversation.members, c.principal);
    MembersAreReady(c, recipients, directories, Carried(c, conversation, plaintext, supply), conversation.id,
                    if conversation.direct then supply else supply + 2);
  }

  // ---------------------------------------------------------------------------
  // Group ciphertexts

  /** A distribution opens a group ciphertext exactly when it hands out a chain for this conversation, epoch,
      membership, device and counter, and the ciphertext was sealed under the message key of that chain for its own
      header. */
  lemma GroupOpensIff(group: GroupSealed, conversation: string, distribution: Payload, plaintext: Payload)
    ensures OpenGroup(group, conversation, distribution) == Ok(plaintext)
            <==> exists chain: Key ::
                   && distribution == SenderKey(conversation, group.header.epoch, group.header.membership,
                                                group.header.senderDevice, group.header.counter, chain)
                   && group.cipher == Cipher(Message(chain), GroupAad(group.header), plaintext)
  {
    if OpenGroup(group, conversation, distribution) == Ok(plaintext) {
      assert distribution == SenderKey(conversation, group.header.epoch, group.header.membership,
                                       group.header.senderDevice, group.header.counter, distribution.chain);
    }
  }
}
