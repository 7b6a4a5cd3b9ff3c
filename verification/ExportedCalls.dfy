/** Runs of the calls that the client exports: verifying a principal, sealing a conversation envelope, opening one. */
module ExportedCalls {
  import opened Wrappers
  import opened Sequences
  import opened Keys
  import opened Transport
  import opened Envelopes

  datatype Exported =
    | VerifyAll(principal: string, devices: seq<DirectoryDevice>, approve: Approval)
    | Seal(conversation: Conversation, plaintext: Payload, directories: seq<Directory>, supply: nat)
    | Read(envelope: Envelope, sender: string, id: string, known: Option<Conversation>, pair: nat)

  /** The server answers once for each addressed member. */
  predicate Answered(c: ClientState, call: Exported) {
    call.Seal? ==> |call.directories| == |Others(call.conversation.members, c.principal)|
  }

  function PerformExported(c: ClientState, call: Exported): ClientState {
    if !Answered(c, call) then c
    else
      match call
      case VerifyAll(principal, devices, approve) => VerifyPrincipal(c, principal, devices, approve).0
      case Seal(conversation, plaintext, directories, supply) =>
        EncryptConversation(c, conversation, plaintext, directories, supply).0
      case Read(envelope, sender, id, known, pair) =>
        DecryptEnvelope(c, envelope, sender, id, known, pair).0
  }

  function PerformAllExported(c: ClientState, calls: seq<Exported>): ClientState {
    if calls == [] then c
    else PerformExported(PerformAllExported(c, calls[..|calls| - 1]), calls[|calls| - 1])
  }

  // ---------------------------------------------------------------------------
  // Runs of sends

  predicate AreSends(calls: seq<Call>) {
    forall i :: 0 <= i < |calls| ==> calls[i].Send?
  }

  /** The state after one send. */
  function Sent(c: ClientState, call: Call): ClientState
    requires call.Send?
  {
    OnePacket(c, EncryptPacket(c, call.target, call.bundle, call.plaintext, call.conversation, call.ephemeral,
                               call.pair)).0
  }

  function SentAll(c: ClientState, calls: seq<Call>): ClientState
    requires AreSends(calls)
    decreases |calls|
  {
    if calls == [] then c else SentAll(Sent(c, calls[0]), calls[1..])
  }

  lemma SentOne(c: ClientState, call: Call)
    requires call.Send?
    ensures SentAll(c, [call]) == Sent(c, call)
  {
    assert [call][1..] == [];
    assert SentAll(Sent(c, call), []) == Sent(c, call);
  }

  lemma {:induction false} SentAppend(c: ClientState, first: seq<Call>, second: seq<Call>)
    requires AreSends(first) && AreSends(second)
    ensures AreSends(first + second) && SentAll(c, first + second) == SentAll(SentAll(c, first), second)
    decreases |first|
  {
    if first == [] {
      AppendNothing(second);
    } else {
      SentAppend(Sent(c, first[0]), first[1..], second);
      TailOfAppend(first, second);
    }
  }

  /** These sends lead from `c` to the state of this outcome. */
  predicate LeadTo(c: ClientState, calls: seq<Call>, sending: Sending) {
    AreSends(calls) && SentAll(c, calls) == sending.0
  }

  lemma SentIsPerformed(c: ClientState, call: Call)
    requires call.Send?
    ensures Sent(c, call) == Perform(c, call)
  {
  }

  /** A run of sends is a run of calls. */
  lemma {:induction false} SentAllIsPerformed(c: ClientState, calls: seq<Call>)
    requires AreSends(calls)
    ensures SentAll(c, calls) == PerformAll(c, calls)
    decreases |calls|
  {
    if calls == [] {
    } else {
      var front, last := calls[..|calls| - 1], calls[|calls| - 1];
      SentAllIsPerformed(c, front);
      SentAppend(c, front, [last]);
      FrontAndLast(calls);
      SentOne(SentAll(c, front), last);
      SentIsPerformed(SentAll(c, front), last);
    }
  }

  // ---------------------------------------------------------------------------
  // One envelope as a run of sends

  function CallsThen(first: seq<Call>, one: Sending, second: seq<Call>): seq<Call> {
    if one.1.Err? then first else first + second
  }

  lemma LeadOn(c: ClientState, first: seq<Call>, one: Sending, second: seq<Call>, rest: Sending)
    requires LeadTo(c, first, one) && LeadTo(one.0, second, rest)
    ensures LeadTo(c, CallsThen(first, one, second), Then(one, rest))
  {
    SentAppend(c, first, second);
  }

  /** The packets that are tried, up to and with the first one that fails. */
  function SendAllCalls(c: ClientState, recipient: string, bundles: seq<Bundle>, plaintext: Payload,
                        conversation: string, supply: nat): seq<Call>
    decreases |bundles|
  {
    if bundles == [] then []
    else
      var one := OnePacket(c, EncryptPacket(c, recipient, bundles[0], plaintext, conversation, supply, supply + 1));
      CallsThen([Send(recipient, bundles[0], plaintext, conversation, supply, supply + 1)], one,
                SendAllCalls(one.0, recipient, bundles[1..], plaintext, conversation, supply + 2))
  }

  function SendToOneCalls(c: ClientState, recipient: string, answer: Directory, plaintext: Payload,
                          conversation: string, supply: nat): seq<Call>
  {
    match BundlesFor(c, recipient, answer)
    case Err(_) => []
    case Ok(bundles) => SendAllCalls(c, recipient, bundles, plaintext, conversation, supply)
  }

  lemma OnePacketLeads(c: ClientState, recipient: string, bundle: Bundle, plaintext: Payload, conversation: string,
                       ephemeral: nat, pair: nat)
    ensures LeadTo(c, [Send(recipient, bundle, plaintext, conversation, ephemeral, pair)],
                   OnePacket(c, EncryptPacket(c, recipient, bundle, plaintext, conversation, ephemeral, pair)))
  {
    SentOne(c, Send(recipient, bundle, plaintext, conversation, ephemeral, pair));
  }

  lemma {:induction false} SendAllLeads(c: ClientState, recipient: string, bundles: seq<Bundle>, plaintext: Payload,
                                        conversation: string, supply: nat)
    ensures LeadTo(c, SendAllCalls(c, recipient, bundles, plaintext, conversation, supply),
                   SendAll(c, recipient, bundles, plaintext, conversation, supply))
    decreases |bundles|
  {
    if bundles == [] {
    } else {
      var outcome := EncryptPacket(c, recipient, bundles[0], plaintext, conversation, supply, supply + 1);
      var one := OnePacket(c, outcome);
      OnePacketLeads(c, recipient, bundles[0], plaintext, conversation, supply, supply + 1);
      SendAllLeads(one.0, recipient, bundles[1..], plaintext, conversation, supply + 2);
      LeadOn(c, [Send(recipient, bundles[0], plaintext, conversation, supply, supply + 1)], one,
             SendAllCalls(one.0, recipient, bundles[1..], plaintext, conversation, supply + 2),
             SendAll(one.0, recipient, bundles[1..], plaintext, conversation, supply + 2));
    }
  }

  lemma SendToOneLeads(c: ClientState, recipient: string, answer: Directory, plaintext: Payload,
                       conversation: string, supply: nat)
    ensures LeadTo(c, SendToOneCalls(c, recipient, answer, plaintext, conversation, supply),
                   SendToOne(c, recipient, answer, plaintext, conversation, supply))
  {
    var bundles := BundlesFor(c, recipient, answer);
    if bundles.Ok? {
      SendAllLeads(c, recipient, bundles.value, plaintext, conversation, supply);
    }
  }

  /** A send with the packets it tried. */
  datatype Trace = Trace(calls: seq<Call>, sending: Sending)

  /** How one recipient is sent to. */
  type Sender = (ClientState, string, Directory, Payload, string, nat) -> Trace

  function Join(one: Trace, rest: Trace): Trace {
    Trace(CallsThen(one.calls, one.sending, rest.calls), Then(one.sending, rest.sending))
  }

  function TraceEach(sender: Sender, c: ClientState, recipients: seq<string>, directories: seq<Directory>,
                     plaintext: Payload, conversation: string, supply: nat): Trace
    requires |directories| == |recipients|
    decreases |recipients|
  {
    if recipients == [] then Trace([], (c, Ok([])))
    else
      var one := sender(c, recipients[0], directories[0], plaintext, conversation, supply);
      Join(one, TraceEach(sender, one.sending.0, recipients[1..], directories[1..], plaintext, conversation,
                          supply + 2 * |directories[0].devices|))
  }

  function TraceOne(c: ClientState, recipient: string, answer: Directory, plaintext: Payload, conversation: string,
                    supply: nat): Trace
  {
    Trace(SendToOneCalls(c, recipient, answer, plaintext, conversation, supply),
          SendToOne(c, recipient, answer, plaintext, conversation, supply))
  }

  predicate Leads(c: ClientState, trace: Trace) {
    LeadTo(c, trace.calls, trace.sending)
  }

  lemma JoinLeads(c: ClientState, one: Trace, rest: Trace)
    requires Leads(c, one) && Leads(one.sending.0, rest)
    ensures Leads(c, Join(one, rest))
  {
    LeadOn(c, one.calls, one.sending, rest.calls, rest.sending);
  }

  ghost predicate SenderLeads(sender: Sender) {
    forall c, recipient, answer, plaintext, conversation, supply ::
      Leads(c, sender(c, recipient, answer, plaintext, conversation, supply))
  }

  lemma {:induction false} TraceLeads(sender: Sender, c: ClientState, recipients: seq<string>,
                                      directories: seq<Directory>, plaintext: Payload, conversation: string,
                                      supply: nat)
    requires |directories| == |recipients| && SenderLeads(sender)
    ensures Leads(c, TraceEach(sender, c, recipients, directories, plaintext, conversation, supply))
    decreases |recipients|
  {
    if recipients == [] {
    } else {
      var one := sender(c, recipients[0], directories[0], plaintext, conversation, supply);
      var next := supply + 2 * |directories[0].devices|;
      TraceLeads(sender, one.sending.0, recipients[1..], directories[1..], plaintext, conversation, next);
      JoinLeads(c, one, TraceEach(sender, one.sending.0, recipients[1..], directories[1..], plaintext, conversation,
                                  next));
    }
  }

  ghost predicate SenderSends(sender: Sender) {
    forall c, recipient, answer, plaintext, conversation, supply ::
      sender(c, recipient, answer, plaintext, conversation, supply).sending
      == SendToOne(c, recipient, answer, plaintext, conversation, supply)
  }

  lemma {:induction false} TraceIsSend(sender: Sender, c: ClientState, recipients: seq<string>,
                                       directories: seq<Directory>, plaintext: Payload, conversation: string,
                                       supply: nat)
    requires |directories| == |recipients| && SenderSends(sender)
    ensures TraceEach(sender, c, recipients, directories, plaintext, conversation, supply).sending
            == SendToMembers(c, recipients, directories, plaintext, conversation, supply)
    decreases |recipients|
  {
    if recipients == [] {
    } else {
      var one := SendToOne(c, recipients[0], directories[0], plaintext, conversation, supply);
      TraceIsSend(sender, one.0, recipients[1..], directories[1..], plaintext, conversation,
                  supply + 2 * |directories[0].devices|);
    }
  }

  /** What sealing an envelope does to sessions, packet by packet. */
  function SealTrace(sender: Sender, c: ClientState, conversation: Conversation, plaintext: Payload,
                     directories: seq<Directory>, supply: nat): Trace
    requires |directories| == |Others(conversation.members, c.principal)|
  {
    TraceEach(sender, c, Others(conversation.members, c.principal), directories,
              Carried(c, conversation, plaintext, supply), conversation.id,
              if conversation.direct then supply else supply + 2)
  }

  function SealCalls(c: ClientState, conversation: Conversation, plaintext: Payload, directories: seq<Directory>,
                     supply: nat): seq<Call>
    requires |directories| == |Others(conversation.members, c.principal)|
  {
    SealTrace(TraceOne, c, conversation, plaintext, directories, supply).calls
  }

  predicate SameButGroups(c: ClientState, d: ClientState) {
    c.(groups := d.groups) == d
  }

  lemma OneIsTraced()
    ensures SenderLeads(TraceOne) && SenderSends(TraceOne)
  {
    forall c: ClientState, recipient: string, answer: Directory, plaintext: Payload, conversation: string, supply: nat
      ensures Leads(c, TraceOne(c, recipient, answer, plaintext, conversation, supply))
    {
      SendToOneLeads(c, recipient, answer, plaintext, conversation, supply);
    }
  }

  lemma TracedIsSends(sender: Sender, c: ClientState, conversation: Conversation, plaintext: Payload,
                      directories: seq<Directory>, supply: nat)
    requires |directories| == |Others(conversation.members, c.principal)|
    requires SenderLeads(sender) && SenderSends(sender)
    ensures var trace := SealTrace(sender, c, conversation, plaintext, directories, supply);
            && AreSends(trace.calls)
            && SameButGroups(SentAll(c, trace.calls),
                             EncryptConversation(c, conversation, plaintext, directories, supply).0)
  {
    var recipients := Others(conversation.members, c.principal);
    var carried := Carried(c, conversation, plaintext, supply);
    var first := if conversation.direct then supply else supply + 2;
    TraceLeads(sender, c, recipients, directories, carried, conversation.id, first);
    TraceIsSend(sender, c, recipients, directories, carried, conversation.id, first);
  }

  /** Sealing an envelope is a run of sends, whether it succeeds or fails midway, and touches only group chains
      besides. */
  lemma SealIsSends(c: ClientState, conversation: Conversation, plaintext: Payload, directories: seq<Directory>,
                    supply: nat)
    requires |directories| == |Others(conversation.members, c.principal)|
    ensures AreSends(SealCalls(c, conversation, plaintext, directories, supply))
    ensures SameButGroups(PerformAll(c, SealCalls(c, conversation, plaintext, directories, supply)),
                          EncryptConversation(c, conversation, plaintext, directories, supply).0)
  {
    OneIsTraced();
    TracedIsSends(TraceOne, c, conversation, plaintext, directories, supply);
    SentAllIsPerformed(c, SealCalls(c, conversation, plaintext, directories, supply));
  }

  // ---------------------------------------------------------------------------
  // Exactly when an envelope keeps approvals

  /** A session on a key that is not approved stays so through every send. */
  lemma SendStaysUnapproved(c: ClientState, call: Call)
    requires call.Send? && Perform(c, call).Approved()
    ensures c.Approved()
  {
    var d := Perform(c, call);
    forall peer | peer in c.sessions ensures peer in c.verified && c.sessions[peer].peer == c.verified[peer] {
      assert peer in d.sessions && d.sessions[peer].peer == c.sessions[peer].peer;
    }
  }

  lemma {:induction false} ApprovedAllAlong(c: ClientState, calls: seq<Call>, i: nat)
    requires AreSends(calls) && PerformAll(c, calls).Approved() && i <= |calls|
    ensures PerformAll(c, calls[..i]).Approved()
    decreases |calls| - i
  {
    if i == |calls| {
      assert calls[..i] == calls;
    } else {
      ApprovedAllAlong(c, calls, i + 1);
      PerformOneMore(c, calls, i);
      SendStaysUnapproved(PerformAll(c, calls[..i]), calls[i]);
    }
  }

  lemma SendsKeepApprovedIff(c: ClientState, calls: seq<Call>)
    requires c.Approved() && AreSends(calls)
    ensures PerformAll(c, calls).Approved() <==> AlwaysGuarded(c, calls)
  {
    RunsKeepApproved(c, calls);
    if PerformAll(c, calls).Approved() {
      forall i | 0 <= i <= |calls| ensures PerformAll(c, calls[..i]).Approved() {
        ApprovedAllAlong(c, calls, i);
      }
    } else {
      assert calls[..|calls|] == calls;
    }
  }

  lemma ApprovedButGroups(c: ClientState, d: ClientState)
    requires SameButGroups(c, d)
    ensures c.Approved() <==> d.Approved()
  {
  }

  /** Sealing keeps sessions on approved keys exactly when each of its packets is guarded where it is sent. */
  lemma SealKeepsApprovedIff(c: ClientState, conversation: Conversation, plaintext: Payload,
                             directories: seq<Directory>, supply: nat)
    requires c.Approved() && |directories| == |Others(conversation.members, c.principal)|
    ensures EncryptConversation(c, conversation, plaintext, directories, supply).0.Approved()
            <==> AlwaysGuarded(c, SealCalls(c, conversation, plaintext, directories, supply))
  {
    SealIsSends(c, conversation, plaintext, directories, supply);
    SendsKeepApprovedIff(c, SealCalls(c, conversation, plaintext, directories, supply));
    ApprovedButGroups(PerformAll(c, SealCalls(c, conversation, plaintext, directories, supply)),
                      EncryptConversation(c, conversation, plaintext, directories, supply).0);
  }

  lemma ReadKeepsApproved(c: ClientState, envelope: Envelope, sender: string, conversation: string,
                          known: Option<Conversation>, pair: nat)
    requires c.Approved()
    ensures DecryptEnvelope(c, envelope, sender, conversation, known, pair).0.Approved()
  {
    var packet := FirstFor(envelope.packets, c.principal, c.device.id);
    if packet.Some? {
      ReceiveKeepsApproved(c, sender, packet.value, conversation, pair);
    }
  }

  // ---------------------------------------------------------------------------
  // Whole runs

  /** No packet of the call starts a session with a key other than the approved one. */
  ghost predicate IsGuarded(c: ClientState, call: Exported) {
    call.Seal? && Answered(c, call)
    ==> AlwaysGuarded(c, SealCalls(c, call.conversation, call.plaintext, call.directories, call.supply))
  }

  lemma ExportedKeepsApproved(c: ClientState, call: Exported)
    requires c.Approved()
    ensures PerformExported(c, call).Approved() <==> IsGuarded(c, call)
  {
    if Answered(c, call) {
      match call
      case VerifyAll(principal, devices, approve) => VerifyKeepsApproved(c, principal, devices, approve);
      case Seal(conversation, plaintext, directories, supply) =>
        SealKeepsApprovedIff(c, conversation, plaintext, directories, supply);
      case Read(envelope, sender, id, known, pair) =>
        ReadKeepsApproved(c, envelope, sender, id, known, pair);
    }
  }

  ghost predicate AllApproved(c: ClientState, calls: seq<Exported>) {
    forall i :: 0 <= i <= |calls| ==> PerformAllExported(c, calls[..i]).Approved()
  }

  ghost predicate AllGuarded(c: ClientState, calls: seq<Exported>) {
    forall i :: 0 <= i < |calls| ==> IsGuarded(PerformAllExported(c, calls[..i]), calls[i])
  }

  lemma ExportedOneMore(c: ClientState, calls: seq<Exported>, i: nat)
    requires i < |calls|
    ensures PerformAllExported(c, calls[..i + 1]) == PerformExported(PerformAllExported(c, calls[..i]), calls[i])
  {
    assert calls[..i + 1][..i] == calls[..i];
  }

  lemma {:induction false} GuardedStaysApproved(c: ClientState, calls: seq<Exported>, i: nat)
    requires c.Approved() && AllGuarded(c, calls) && i <= |calls|
    ensures PerformAllExported(c, calls[..i]).Approved()
  {
    if i == 0 {
    } else {
      GuardedStaysApproved(c, calls, i - 1);
      ExportedOneMore(c, calls, i - 1);
      ExportedKeepsApproved(PerformAllExported(c, calls[..i - 1]), calls[i - 1]);
    }
  }

  /** At every point of a run of exported calls, also of calls that fail midway, stored sessions belong to approved
      keys, exactly when every packet of the run is guarded. */
  lemma ExportedRunsKeepApproved(c: ClientState, calls: seq<Exported>)
    requires c.Approved()
    ensures AllApproved(c, calls) <==> AllGuarded(c, calls)
  {
    if AllGuarded(c, calls) {
      forall i | 0 <= i <= |calls| ensures PerformAllExported(c, calls[..i]).Approved() {
        GuardedStaysApproved(c, calls, i);
      }
    } else {
      var i :| 0 <= i < |calls| && !IsGuarded(PerformAllExported(c, calls[..i]), calls[i]);
      ExportedOneMore(c, calls, i);
      if AllApproved(c, calls) {
        assert PerformAllExported(c, calls[..i]).Approved() && PerformAllExported(c, calls[..i + 1]).Approved();
        ExportedKeepsApproved(PerformAllExported(c, calls[..i]), calls[i]);
      }
    }
  }

  // ---------------------------------------------------------------------------
  // Servers that name whom they are asked for

  /** A bundle names the peer it is stored for, or goes to a stored session or an approved key anyway. */
  predicate IsSafe(c: ClientState, recipient: string, bundle: Bundle) {
    Names(bundle, recipient) || GoesToApproved(c, recipient, bundle)
  }

  predicate AllSafe(c: ClientState, recipient: string, bundles: seq<Bundle>) {
    forall i :: 0 <= i < |bundles| ==> IsSafe(c, recipient, bundles[i])
  }

  lemma {:induction false} ChosenIsSafe(c: ClientState, recipient: string, item: DirectoryDevice,
                                        handedOut: seq<Bundle>)
    requires AllSafe(c, recipient, handedOut)
    ensures IsSafe(c, recipient, Choose(recipient, item, handedOut))
    decreases |handedOut|
  {
    if handedOut == [] || handedOut[|handedOut| - 1].deviceId == item.id {
    } else {
      ChosenIsSafe(c, recipient, item, handedOut[..|handedOut| - 1]);
    }
  }

  lemma {:induction false} AllChosenAreSafe(c: ClientState, recipient: string, devices: seq<DirectoryDevice>,
                                            handedOut: seq<Bundle>)
    requires AllSafe(c, recipient, handedOut)
    ensures AllSafe(c, recipient, ChooseAll(recipient, devices, handedOut))
  {
    if devices == [] {
    } else {
      ChosenIsSafe(c, recipient, devices[0], handedOut);
      AllChosenAreSafe(c, recipient, devices[1..], handedOut);
    }
  }

  /** Every packet goes to a peer that its bundle names, or to a session or an approved key of `c`. */
  predicate AreSafe(c: ClientState, calls: seq<Call>) {
    forall i :: 0 <= i < |calls| ==> calls[i].Send? && IsSafe(c, calls[i].target, calls[i].bundle)
  }

  lemma SafeThen(c: ClientState, first: seq<Call>, one: Sending, second: seq<Call>)
    requires AreSafe(c, first) && AreSafe(c, second)
    ensures AreSafe(c, CallsThen(first, one, second))
  {
  }

  lemma SafeTail(c: ClientState, recipient: string, bundles: seq<Bundle>)
    requires bundles != [] && AllSafe(c, recipient, bundles)
    ensures IsSafe(c, recipient, bundles[0]) && AllSafe(c, recipient, bundles[1..])
  {
    forall i | 0 <= i < |bundles| - 1 ensures IsSafe(c, recipient, bundles[1..][i]) {
      assert bundles[1..][i] == bundles[i + 1];
    }
  }

  lemma {:induction false} SendAllIsSafe(start: ClientState, c: ClientState, recipient: string, bundles: seq<Bundle>,
                                         plaintext: Payload, conversation: string, supply: nat)
    requires AllSafe(start, recipient, bundles)
    ensures AreSafe(start, SendAllCalls(c, recipient, bundles, plaintext, conversation, supply))
    decreases |bundles|
  {
    if bundles == [] {
    } else {
      var one := OnePacket(c, EncryptPacket(c, recipient, bundles[0], plaintext, conversation, supply, supply + 1));
      SafeTail(start, recipient, bundles);
      SendAllIsSafe(start, one.0, recipient, bundles[1..], plaintext, conversation, supply + 2);
      SafeThen(start, [Send(recipient, bundles[0], plaintext, conversation, supply, supply + 1)], one,
               SendAllCalls(one.0, recipient, bundles[1..], plaintext, conversation, supply + 2));
    }
  }

  lemma SendToOneIsSafe(start: ClientState, c: ClientState, recipient: string, answer: Directory, plaintext: Payload,
                        conversation: string, supply: nat)
    requires AllSafe(start, recipient, answer.bundles)
    ensures AreSafe(start, SendToOneCalls(c, recipient, answer, plaintext, conversation, supply))
  {
    var bundles := BundlesFor(c, recipient, answer);
    if bundles.Ok? {
      AllChosenAreSafe(start, recipient, answer.devices,
                       if AllInSession(c, recipient, answer.devices) then [] else answer.bundles);
      SendAllIsSafe(start, c, recipient, bundles.value, plaintext, conversation, supply);
    }
  }

  predicate SafeAnswers(c: ClientState, recipients: seq<string>, directories: seq<Directory>)
    requires |directories| == |recipients|
  {
    forall i :: 0 <= i < |recipients| ==> AllSafe(c, recipients[i], directories[i].bundles)
  }

  ghost predicate SenderIsSafe(start: ClientState, sender: Sender) {
    forall c, recipient, answer: Directory, plaintext, conversation, supply ::
      AllSafe(start, recipient, answer.bundles) ==>
      AreSafe(start, sender(c, recipient, answer, plaintext, conversation, supply).calls)
  }

  lemma SafeAnswersTail(c: ClientState, recipients: seq<string>, directories: seq<Directory>)
    requires |directories| == |recipients| > 0 && SafeAnswers(c, recipients, directories)
    ensures AllSafe(c, recipients[0], directories[0].bundles) && SafeAnswers(c, recipients[1..], directories[1..])
  {
    forall i | 0 <= i < |recipients| - 1 ensures AllSafe(c, recipients[1..][i], directories[1..][i].bundles) {
      assert recipients[1..][i] == recipients[i + 1] && directories[1..][i] == directories[i + 1];
    }
  }

  lemma {:induction false} TraceIsSafe(start: ClientState, sender: Sender, c: ClientState, recipients: seq<string>,
                                       directories: seq<Directory>, plaintext: Payload, conversation: string,
                                       supply: nat)
    requires |directories| == |recipients| && SafeAnswers(start, recipients, directories)
    requires SenderIsSafe(start, sender)
    ensures AreSafe(start, TraceEach(sender, c, recipients, directories, plaintext, conversation, supply).calls)
    decreases |recipients|
  {
    if recipients == [] {
    } else {
      var one := sender(c, recipients[0], directories[0], plaintext, conversation, supply);
      var next := supply + 2 * |directories[0].devices|;
      SafeAnswersTail(start, recipients, directories);
      TraceIsSafe(start, sender, one.sending.0, recipients[1..], directories[1..], plaintext, conversation, next);
      SafeThen(start, one.calls, one.sending,
               TraceEach(sender, one.sending.0, recipients[1..], directories[1..], plaintext, conversation,
                         next).calls);
    }
  }

  lemma OneIsSafe(start: ClientState)
    ensures SenderIsSafe(start, TraceOne)
  {
    forall c: ClientState, recipient: string, answer: Directory, plaintext: Payload, conversation: string, supply: nat
      | AllSafe(start, recipient, answer.bundles)
      ensures AreSafe(start, TraceOne(c, recipient, answer, plaintext, conversation, supply).calls)
    {
      SendToOneIsSafe(start, c, recipient, answer, plaintext, conversation, supply);
    }
  }

  lemma SealIsSafe(c: ClientState, conversation: Conversation, plaintext: Payload, directories: seq<Directory>,
                   supply: nat)
    requires |directories| == |Others(conversation.members, c.principal)|
    requires SafeAnswers(c, Others(conversation.members, c.principal), directories)
    ensures AreSafe(c, SealCalls(c, conversation, plaintext, directories, supply))
  {
    OneIsSafe(c);
    TraceIsSafe(c, TraceOne, c, Others(conversation.members, c.principal), directories,
                Carried(c, conversation, plaintext, supply), conversation.id,
                if conversation.direct then supply else supply + 2);
  }

  /** What sends leave of a client: approvals stay, sessions are only added. */
  predicate Extends(c: ClientState, d: ClientState) {
    d.verified == c.verified && c.sessions.Keys <= d.sessions.Keys
  }

  lemma SendExtends(c: ClientState, call: Call)
    requires call.Send?
    ensures Extends(c, Perform(c, call))
  {
  }

  lemma {:induction false} SendsExtend(c: ClientState, calls: seq<Call>, i: nat)
    requires AreSends(calls) && i <= |calls|
    ensures Extends(c, PerformAll(c, calls[..i]))
  {
    if i == 0 {
    } else {
      SendsExtend(c, calls, i - 1);
      PerformOneMore(c, calls, i - 1);
      SendExtends(PerformAll(c, calls[..i - 1]), calls[i - 1]);
    }
  }

  lemma SafeSendIsGuarded(start: ClientState, c: ClientState, call: Call)
    requires call.Send? && IsSafe(start, call.target, call.bundle) && Extends(start, c)
    ensures Guarded(c, call)
  {
  }

  lemma SafeIsGuarded(c: ClientState, calls: seq<Call>)
    requires AreSafe(c, calls)
    ensures AlwaysGuarded(c, calls)
  {
    forall i | 0 <= i < |calls| ensures Guarded(PerformAll(c, calls[..i]), calls[i]) {
      SendsExtend(c, calls, i);
      SafeSendIsGuarded(c, PerformAll(c, calls[..i]), calls[i]);
    }
  }

  /** The server hands out only bundles that name the peer they are stored for, or that go to a session or an approved
      key anyway. */
  predicate IsSafeCall(c: ClientState, call: Exported) {
    call.Seal? && Answered(c, call)
    ==> SafeAnswers(c, Others(call.conversation.members, c.principal), call.directories)
  }

  ghost predicate AllSafeCalls(c: ClientState, calls: seq<Exported>) {
    forall i :: 0 <= i < |calls| ==> IsSafeCall(PerformAllExported(c, calls[..i]), calls[i])
  }

  lemma SafeCallIsGuarded(c: ClientState, call: Exported)
    requires IsSafeCall(c, call)
    ensures IsGuarded(c, call)
  {
    if call.Seal? && Answered(c, call) {
      SealIsSafe(c, call.conversation, call.plaintext, call.directories, call.supply);
      SafeIsGuarded(c, SealCalls(c, call.conversation, call.plaintext, call.directories, call.supply));
    }
  }

  /** With such a server, every run of exported calls keeps sessions on approved keys. */
  lemma SafeAnswersKeepApproved(c: ClientState, calls: seq<Exported>)
    requires c.Approved() && AllSafeCalls(c, calls)
    ensures AllApproved(c, calls)
  {
    forall i | 0 <= i < |calls| ensures IsGuarded(PerformAllExported(c, calls[..i]), calls[i]) {
      assert IsSafeCall(PerformAllExported(c, calls[..i]), calls[i]);
      SafeCallIsGuarded(PerformAllExported(c, calls[..i]), calls[i]);
    }
    ExportedRunsKeepApproved(c, calls);
  }
}
