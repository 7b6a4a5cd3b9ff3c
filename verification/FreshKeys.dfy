/** No key that sealing an envelope generates is used twice. */
module FreshKeys {
  import opened Wrappers
  import opened Keys
  import opened Transport
  import opened Envelopes
  import opened ExportedCalls

  /** Each of these packets has two keys of its own between `low` and `high`, in the order of the packets. */
  predicate AreFresh(calls: seq<Call>, low: nat, high: nat) {
    && low <= high
    && (forall i :: 0 <= i < |calls| ==>
          calls[i].Send? && low <= calls[i].ephemeral < calls[i].pair < high)
    && (forall i, j :: 0 <= i < j < |calls| ==> calls[i].pair < calls[j].ephemeral)
  }

  lemma FreshThen(first: seq<Call>, one: Sending, second: seq<Call>, low: nat, middle: nat, high: nat)
    requires AreFresh(first, low, middle) && AreFresh(second, middle, high)
    ensures AreFresh(CallsThen(first, one, second), low, high)
  {
  }

  lemma {:induction false} SendAllIsFresh(c: ClientState, recipient: string, bundles: seq<Bundle>, plaintext: Payload,
                                          conversation: string, supply: nat)
    ensures AreFresh(SendAllCalls(c, recipient, bundles, plaintext, conversation, supply), supply,
                     supply + 2 * |bundles|)
    decreases |bundles|
  {
    if bundles == [] {
    } else {
      var one := OnePacket(c, EncryptPacket(c, recipient, bundles[0], plaintext, conversation, supply, supply + 1));
      SendAllIsFresh(one.0, recipient, bundles[1..], plaintext, conversation, supply + 2);
      FreshThen([Send(recipient, bundles[0], plaintext, conversation, supply, supply + 1)], one,
                SendAllCalls(one.0, recipient, bundles[1..], plaintext, conversation, supply + 2), supply, supply + 2,
                supply + 2 * |bundles|);
    }
  }

  lemma {:induction false} AsManyBundles(principal: string, devices: seq<DirectoryDevice>, handedOut: seq<Bundle>)
    ensures |ChooseAll(principal, devices, handedOut)| == |devices|
  {
    if devices == [] {
    } else {
      AsManyBundles(principal, devices[1..], handedOut);
    }
  }

  lemma SendToOneIsFresh(c: ClientState, recipient: string, answer: Directory, plaintext: Payload,
                         conversation: string, supply: nat)
    ensures AreFresh(SendToOneCalls(c, recipient, answer, plaintext, conversation, supply), supply,
                     supply + 2 * |answer.devices|)
  {
    var bundles := BundlesFor(c, recipient, answer);
    if bundles.Ok? {
      AsManyBundles(recipient, answer.devices,
                    if AllInSession(c, recipient, answer.devices) then [] else answer.bundles);
      SendAllIsFresh(c, recipient, bundles.value, plaintext, conversation, supply);
    }
  }

  ghost predicate SenderIsFresh(sender: Sender) {
    forall c, recipient, answer: Directory, plaintext, conversation, supply: nat ::
      AreFresh(sender(c, recipient, answer, plaintext, conversation, supply).calls, supply,
               supply + 2 * |answer.devices|)
  }

  lemma {:induction false} TraceIsFresh(sender: Sender, c: ClientState, recipients: seq<string>,
                                        directories: seq<Directory>, plaintext: Payload, conversation: string,
                                        supply: nat)
    requires |directories| == |recipients| && SenderIsFresh(sender)
    ensures AreFresh(TraceEach(sender, c, recipients, directories, plaintext, conversation, supply).calls, supply,
                     supply + 2 * DeviceCount(directories))
    decreases |recipients|
  {
    if recipients == [] {
    } else {
      var one := sender(c, recipients[0], directories[0], plaintext, conversation, supply);
      var next := supply + 2 * |directories[0].devices|;
      TraceIsFresh(sender, one.sending.0, recipients[1..], directories[1..], plaintext, conversation, next);
      FreshThen(one.calls, one.sending,
                TraceEach(sender, one.sending.0, recipients[1..], directories[1..], plaintext, conversation,
                          next).calls,
                supply, next, supply + 2 * DeviceCount(directories));
    }
  }

  lemma OneIsFresh()
    ensures SenderIsFresh(TraceOne)
  {
    forall c: ClientState, recipient: string, answer: Directory, plaintext: Payload, conversation: string, supply: nat
      ensures AreFresh(TraceOne(c, recipient, answer, plaintext, conversation, supply).calls, supply,
                       supply + 2 * |answer.devices|)
    {
      SendToOneIsFresh(c, recipient, answer, plaintext, conversation, supply);
    }
  }

  lemma WiderIsFresh(calls: seq<Call>, low: nat, high: nat, higher: nat)
    requires AreFresh(calls, low, high) && high <= higher
    ensures AreFresh(calls, low, higher)
  {
  }

  lemma WrappedCopy(c: ClientState, conversation: Conversation, body: Body, own: SelfSealed)
    ensures var wrapped := Wrap(c, conversation, body, own).1; wrapped.Ok? ==> wrapped.value.self == Some(own)
  {
  }

  /** The packets of an envelope use keys of their own, behind the epoch and chain that a new group chain takes and
      before the key of the sender's copy; all of them lie within what the envelope may use up. */
  lemma EnvelopeKeysAreFresh(c: ClientState, conversation: Conversation, plaintext: Payload,
                             directories: seq<Directory>, supply: nat)
    requires |directories| == |Others(conversation.members, c.principal)|
    ensures var calls := SealCalls(c, conversation, plaintext, directories, supply);
            var copy := supply + 2 + 2 * DeviceCount(directories);
            var outcome := EncryptConversation(c, conversation, plaintext, directories, supply).1;
            && AreFresh(calls, if conversation.direct then supply else supply + 2, copy)
            && (outcome.Ok? ==> outcome.value.self.Some? && outcome.value.self.value.header.ephemeral == copy)
            && copy < supply + Needed(directories)
  {
    var first := if conversation.direct then supply else supply + 2;
    OneIsFresh();
    TraceIsFresh(TraceOne, c, Others(conversation.members, c.principal), directories,
                 Carried(c, conversation, plaintext, supply), conversation.id, first);
    WiderIsFresh(SealCalls(c, conversation, plaintext, directories, supply), first,
                 first + 2 * DeviceCount(directories), supply + 2 + 2 * DeviceCount(directories));
    WrappedCopy(c, conversation,
                EncryptBody(c, conversation, plaintext, Others(conversation.members, c.principal), directories, supply),
                SealSelf(c, plaintext, conversation.id, supply + 2 + 2 * DeviceCount(directories)));
  }
}
