/** What the user is asked when a principal is verified, and what becomes of the answers. */
module Approvals {
  import opened Wrappers
  import opened Keys
  import opened Ratchet
  import opened Transport

  function Stored(c: ClientState, peer: Peer): Option<Fingerprint> {
    if peer in c.verified then Some(c.verified[peer]) else None
  }

  /** What is approved for the device of entry `i` when its turn comes: what the directory showed for it earlier, as
      every earlier entry has passed, or what was approved before the call. */
  function Before(c: ClientState, principal: string, devices: seq<DirectoryDevice>, i: nat): Option<Fingerprint>
    requires i < |devices|
  {
    var earlier := Listed(devices[..i], devices[i].id);
    if earlier.Some? then earlier else Stored(c, Peer(principal, devices[i].id))
  }

  predicate IsNew(c: ClientState, principal: string, devices: seq<DirectoryDevice>, i: nat)
    requires i < |devices|
  {
    Before(c, principal, devices, i) != Some(devices[i].KeyFingerprint())
  }

  /** The user's answer to entry `i`, asked with its device id and fingerprint and whether it changes an approval. */
  predicate IsAccepted(c: ClientState, principal: string, devices: seq<DirectoryDevice>, approve: Approval, i: nat)
    requires i < |devices|
  {
    approve(principal, devices[i].id, devices[i].KeyFingerprint(), Before(c, principal, devices, i).Some?)
  }

  predicate Passes(c: ClientState, principal: string, devices: seq<DirectoryDevice>, approve: Approval, i: nat)
    requires i < |devices|
  {
    IsNew(c, principal, devices, i) ==> IsAccepted(c, principal, devices, approve, i)
  }

  predicate AllPass(c: ClientState, principal: string, devices: seq<DirectoryDevice>, approve: Approval) {
    forall i :: 0 <= i < |devices| ==> Passes(c, principal, devices, approve, i)
  }

  /** The client after a first entry that passed. */
  function Passed(c: ClientState, principal: string, entry: DirectoryDevice): ClientState {
    var peer := Peer(principal, entry.id);
    if Verified(c, peer, entry.KeyFingerprint()) then c else Approve(c, peer, entry.KeyFingerprint())
  }

  lemma ListedAfter(devices: seq<DirectoryDevice>, i: nat, id: string)
    requires i < |devices|
    ensures Listed(devices[..i + 1], id)
            == var later := Listed(devices[1..][..i], id);
               if later.Some? then later else if devices[0].id == id then Some(devices[0].KeyFingerprint()) else None
  {
    assert devices[..i + 1][1..] == devices[1..][..i];
  }

  /** Later entries find the same approvals from the state after the first one. */
  lemma BeforeStep(c: ClientState, principal: string, devices: seq<DirectoryDevice>, i: nat)
    requires i + 1 < |devices|
    ensures Before(Passed(c, principal, devices[0]), principal, devices[1..], i) == Before(c, principal, devices, i + 1)
  {
    ListedAfter(devices, i, devices[i + 1].id);
  }

  lemma PassesFirst(c: ClientState, principal: string, devices: seq<DirectoryDevice>, approve: Approval)
    requires devices != []
    ensures Passes(c, principal, devices, approve, 0)
            <==> (Verified(c, Peer(principal, devices[0].id), devices[0].KeyFingerprint())
                  || approve(principal, devices[0].id, devices[0].KeyFingerprint(),
                             Peer(principal, devices[0].id) in c.verified))
  {
    assert devices[..0] == [];
  }

  lemma PassesLater(c: ClientState, principal: string, devices: seq<DirectoryDevice>, approve: Approval, i: nat)
    requires i + 1 < |devices|
    ensures Passes(Passed(c, principal, devices[0]), principal, devices[1..], approve, i)
            <==> Passes(c, principal, devices, approve, i + 1)
  {
    BeforeStep(c, principal, devices, i);
  }

  lemma AllPassStep(c: ClientState, principal: string, devices: seq<DirectoryDevice>, approve: Approval)
    requires devices != []
    ensures AllPass(c, principal, devices, approve)
            <==> Passes(c, principal, devices, approve, 0)
                 && AllPass(Passed(c, principal, devices[0]), principal, devices[1..], approve)
  {
    var d := Passed(c, principal, devices[0]);
    forall i | 0 <= i < |devices| - 1
      ensures Passes(d, principal, devices[1..], approve, i) <==> Passes(c, principal, devices, approve, i + 1)
    {
      PassesLater(c, principal, devices, approve, i);
    }
    if !AllPass(c, principal, devices, approve) {
      var i :| 0 <= i < |devices| && !Passes(c, principal, devices, approve, i);
      assert i > 0 ==> !Passes(d, principal, devices[1..], approve, i - 1);
    }
  }

  lemma VerifyStep(c: ClientState, principal: string, devices: seq<DirectoryDevice>, approve: Approval)
    requires devices != []
    ensures VerifyDevices(c, principal, devices, approve)
            == if Passes(c, principal, devices, approve, 0)
               then VerifyDevices(Passed(c, principal, devices[0]), principal, devices[1..], approve)
               else (c, Err(ApprovalRefused))
  {
    PassesFirst(c, principal, devices, approve);
  }

  lemma {:induction false} DevicesPassIff(c: ClientState, principal: string, devices: seq<DirectoryDevice>,
                                          approve: Approval)
    ensures VerifyDevices(c, principal, devices, approve).1
            == if AllPass(c, principal, devices, approve) then Ok(()) else Err(ApprovalRefused)
    decreases |devices|
  {
    if devices == [] {
    } else {
      VerifyStep(c, principal, devices, approve);
      AllPassStep(c, principal, devices, approve);
      DevicesPassIff(Passed(c, principal, devices[0]), principal, devices[1..], approve);
    }
  }

  /** A verification counts the devices exactly when there are some and the user accepts every one that is new when its
      turn comes. */
  lemma VerifyIff(c: ClientState, principal: string, devices: seq<DirectoryDevice>, approve: Approval)
    ensures VerifyPrincipal(c, principal, devices, approve).1
            == if devices == [] then Err(NoDevices)
               else if AllPass(c, principal, devices, approve) then Ok(|devices|)
               else Err(ApprovalRefused)
  {
    DevicesPassIff(c, principal, devices, approve);
  }

  // ---------------------------------------------------------------------------
  // Effects

  /** Entry `r` is the first that does not pass, if there is one. */
  predicate StopsAt(c: ClientState, principal: string, devices: seq<DirectoryDevice>, approve: Approval, r: nat) {
    && r <= |devices| && (r < |devices| ==> !Passes(c, principal, devices, approve, r))
    && forall i :: 0 <= i < r ==> Passes(c, principal, devices, approve, i)
  }

  lemma {:induction false} StopExists(c: ClientState, principal: string, devices: seq<DirectoryDevice>,
                                      approve: Approval, from: nat) returns (r: nat)
    requires from <= |devices| && forall i :: 0 <= i < from ==> Passes(c, principal, devices, approve, i)
    ensures StopsAt(c, principal, devices, approve, r)
    decreases |devices| - from
  {
    if from == |devices| || !Passes(c, principal, devices, approve, from) {
      r := from;
    } else {
      r := StopExists(c, principal, devices, approve, from + 1);
    }
  }

  lemma StopsLater(c: ClientState, principal: string, devices: seq<DirectoryDevice>, approve: Approval, r: nat)
    requires devices != [] && StopsAt(c, principal, devices, approve, r) && r > 0
    ensures StopsAt(Passed(c, principal, devices[0]), principal, devices[1..], approve, r - 1)
  {
    forall i | 0 <= i < |devices| - 1
      ensures Passes(Passed(c, principal, devices[0]), principal, devices[1..], approve, i)
              <==> Passes(c, principal, devices, approve, i + 1)
    {
      PassesLater(c, principal, devices, approve, i);
    }
  }

  /** What the entries up to the first that does not pass make of a peer: the key listed last is approved, the session
      is dropped if a listed key was new, and whoever is not listed among them is left alone. */
  predicate Effect(c: ClientState, d: ClientState, principal: string, passed: seq<DirectoryDevice>, peer: Peer) {
    var listed := if peer.principal == principal then Listed(passed, peer.device) else None;
    if listed.None? then SameAt(d.verified, c.verified, peer) && SameAt(d.sessions, c.sessions, peer)
    else
      && Verified(d, peer, listed.value)
      && (peer in d.sessions <==> peer in c.sessions && NothingNew(c, passed, peer))
      && (peer in d.sessions ==> d.sessions[peer] == c.sessions[peer])
  }

  lemma {:induction false} OnlyThePassedCount(c: ClientState, principal: string, devices: seq<DirectoryDevice>,
                                              approve: Approval, r: nat)
    requires StopsAt(c, principal, devices, approve, r)
    ensures VerifyDevices(c, principal, devices[..r], approve)
            == (VerifyDevices(c, principal, devices, approve).0, Ok(()))
    decreases |devices|
  {
    if devices == [] {
    } else {
      VerifyStep(c, principal, devices, approve);
      if r > 0 {
        var d := Passed(c, principal, devices[0]);
        StopsLater(c, principal, devices, approve, r);
        OnlyThePassedCount(d, principal, devices[1..], approve, r - 1);
        assert devices[..r][0] == devices[0] && devices[..r][1..] == devices[1..][..r - 1];
        PassesFirst(c, principal, devices, approve);
        PassesFirst(c, principal, devices[..r], approve);
        VerifyStep(c, principal, devices[..r], approve);
      }
    }
  }

  /** A verification, finished or refused at entry `r`, has exactly the effect of the entries before `r`; the refused
      device and those behind it keep what they had. */
  lemma VerifyEffect(c: ClientState, principal: string, devices: seq<DirectoryDevice>, approve: Approval, r: nat,
                     peer: Peer)
    requires StopsAt(c, principal, devices, approve, r)
    ensures Effect(c, VerifyPrincipal(c, principal, devices, approve).0, principal, devices[..r], peer)
  {
    OnlyThePassedCount(c, principal, devices, approve, r);
    VerifyDropsChanged(c, principal, devices[..r], approve, peer);
    if devices == [] {
      assert devices[..r] == [];
    }
  }

  lemma {:induction false} UnlistedIsAbsent(devices: seq<DirectoryDevice>, id: string, i: nat)
    requires Listed(devices, id).None? && i < |devices|
    ensures devices[i].id != id
  {
    if i == 0 {
    } else {
      UnlistedIsAbsent(devices[1..], id, i - 1);
    }
  }

  lemma {:induction false} ListedIsEntry(devices: seq<DirectoryDevice>, id: string) returns (i: nat)
    requires Listed(devices, id).Some?
    ensures i < |devices| && devices[i].id == id && devices[i].KeyFingerprint() == Listed(devices, id).value
    ensures forall j :: i < j < |devices| ==> devices[j].id != id
  {
    if Listed(devices[1..], id).Some? {
      var later := ListedIsEntry(devices[1..], id);
      i := later + 1;
      forall j | i < j < |devices| ensures devices[j].id != id {
        assert devices[j] == devices[1..][j - 1];
      }
    } else {
      i := 0;
      forall j | 0 < j < |devices| ensures devices[j].id != id {
        UnlistedIsAbsent(devices[1..], id, j - 1);
      }
    }
  }

  /** The fingerprint was put to the user for this peer, and accepted. */
  predicate WasAccepted(c: ClientState, principal: string, devices: seq<DirectoryDevice>, approve: Approval,
                        peer: Peer, fingerprint: Fingerprint, i: nat)
    requires i < |devices|
  {
    && peer == Peer(principal, devices[i].id) && fingerprint == devices[i].KeyFingerprint()
    && IsNew(c, principal, devices, i) && IsAccepted(c, principal, devices, approve, i)
  }

  /** An entry with a key that was not approved before the call has a first entry of its kind, which is new. */
  lemma {:induction false} FirstShown(c: ClientState, principal: string, devices: seq<DirectoryDevice>, peer: Peer,
                                      fingerprint: Fingerprint, last: nat) returns (i: nat)
    requires last < |devices| && devices[last].id == peer.device && peer.principal == principal
    requires devices[last].KeyFingerprint() == fingerprint && !Verified(c, peer, fingerprint)
    ensures i < |devices| && devices[i].id == peer.device && devices[i].KeyFingerprint() == fingerprint
    ensures IsNew(c, principal, devices, i)
    decreases last
  {
    i := last;
    if !IsNew(c, principal, devices, last) {
      var earlier := ListedIsEntry(devices[..last], peer.device);
      assert devices[..last][earlier] == devices[earlier];
      i := FirstShown(c, principal, devices, peer, fingerprint, earlier);
    }
  }

  /** A fingerprint that is approved after the call and was not before was put to the user under this principal, device
      id and fingerprint, and accepted. */
  lemma ApprovalsAreAnswered(c: ClientState, principal: string, devices: seq<DirectoryDevice>, approve: Approval,
                             peer: Peer, fingerprint: Fingerprint) returns (i: nat)
    requires Verified(VerifyPrincipal(c, principal, devices, approve).0, peer, fingerprint)
    requires !Verified(c, peer, fingerprint)
    ensures i < |devices| && WasAccepted(c, principal, devices, approve, peer, fingerprint, i)
  {
    var r := StopExists(c, principal, devices, approve, 0);
    VerifyEffect(c, principal, devices, approve, r, peer);
    var last := ListedIsEntry(devices[..r], peer.device);
    i := FirstShown(c, principal, devices[..r], peer, fingerprint, last);
    assert devices[..r][i] == devices[i] && devices[..r][..i] == devices[..i];
    assert Passes(c, principal, devices, approve, i);
  }

  /** Nothing but approvals and sessions is touched. */
  lemma {:induction false} VerifyTouches(c: ClientState, principal: string, devices: seq<DirectoryDevice>,
                                         approve: Approval)
    ensures var d := VerifyDevices(c, principal, devices, approve).0;
            d.(verified := c.verified, sessions := c.sessions) == c
    decreases |devices|
  {
    if devices == [] {
    } else {
      VerifyStep(c, principal, devices, approve);
      VerifyTouches(Passed(c, principal, devices[0]), principal, devices[1..], approve);
    }
  }
}
