/** What a network that holds some private keys can derive, and that no session whose root it cannot derive ever opens
a ciphertext under a key that it can. */
module Secrecy {
  import opened Wrappers
  import opened Keys
  import opened Ratchet
  import opened RatchetHistory

  /** Keys that follow from these private keys and everything public. Random keys count as known: sender chains are
      handed to others. */
  predicate Derivable(network: set<nat>, key: Key) {
    match key
    case Random(_) => true
    case Dh(low, high) => low in network || high in network
    case Agreed(parts) => forall i :: 0 <= i < |parts| ==> Derivable(network, parts[i])
    case Root(root, output) => Derivable(network, root) && Derivable(network, output)
    case Chain(root, output) => Derivable(network, root) && Derivable(network, output)
    case Message(chain) => Derivable(network, chain)
    case Next(chain) => Derivable(network, chain)
    case SentCopy(shared) => Derivable(network, shared)
  }

  lemma {:induction false} AdvanceIsDerivable(network: set<nat>, chain: Key, steps: nat)
    ensures Derivable(network, Advance(chain, steps)) <==> Derivable(network, chain)
  {
    if steps == 0 {
    } else {
      AdvanceIsDerivable(network, chain, steps - 1);
    }
  }

  lemma SecretPart(network: set<nat>, parts: seq<Key>, i: nat)
    requires i < |parts| && !Derivable(network, parts[i])
    ensures !Derivable(network, Agreed(parts))
  {
  }

  lemma SharedIsSecret(network: set<nat>, a: nat, b: nat)
    ensures Derivable(network, SharedSecret(a, b)) <==> a in network || b in network
  {
  }

  // ---------------------------------------------------------------------------
  // Sessions

  predicate StoredAreSecret(network: set<nat>, skipped: map<SkippedId, Key>) {
    forall id :: id in skipped ==> !Derivable(network, skipped[id])
  }

  /** Nothing that the session opens with can be derived. */
  predicate IsSecret(network: set<nat>, x: Session) {
    && !Derivable(network, x.rk)
    && (x.ckr.Some? ==> !Derivable(network, x.ckr.value))
    && StoredAreSecret(network, x.skipped)
  }

  lemma SkippedIsSecret(network: set<nat>, dh: nat, chain: Key, from: nat, until: int)
    requires !Derivable(network, chain)
    ensures StoredAreSecret(network, SkippedRange(dh, chain, from, until))
  {
    var keys := SkippedRange(dh, chain, from, until);
    forall id | id in keys ensures !Derivable(network, keys[id]) {
      RangeContents(dh, chain, from, until, id);
      AdvanceIsDerivable(network, chain, id.n - from);
    }
  }

  lemma SkipKeepsSecret(network: set<nat>, x: Session, until: int)
    requires IsSecret(network, x) && x.SkipKeys(until).Ok?
    ensures IsSecret(network, x.SkipKeys(until).value)
  {
    if x.ckr.Some? && x.dhr.Some? && until > x.nr {
      SkippedIsSecret(network, x.dhr.value, x.ckr.value, x.nr, until);
      AdvanceIsDerivable(network, x.ckr.value, until - x.nr);
    }
  }

  lemma RatchetKeepsSecret(network: set<nat>, x: Session, header: Header, pair: nat)
    requires IsSecret(network, x) && x.DhRatchet(header, pair).Ok?
    ensures IsSecret(network, x.DhRatchet(header, pair).value)
  {
    SkipKeepsSecret(network, x, header.pn);
  }

  lemma CatchUpKeepsSecret(network: set<nat>, x: Session, header: Header, pair: nat)
    requires IsSecret(network, x) && x.CatchUp(header, pair).Ok?
    ensures IsSecret(network, x.CatchUp(header, pair).value)
  {
    if x.dhr == Some(header.dh) {
      SkipKeepsSecret(network, x, header.n);
    } else {
      RatchetKeepsSecret(network, x, header, pair);
      SkipKeepsSecret(network, x.DhRatchet(header, pair).value, header.n);
    }
  }

  /** A secret session opens only ciphertexts under keys that cannot be derived, whatever header they come with. */
  lemma OpenedIsSecret(network: set<nat>, x: Session, sealed: Sealed, base: Base, pair: nat)
    requires IsSecret(network, x) && x.Decrypt(sealed, base, pair).Ok?
    ensures !Derivable(network, sealed.cipher.key)
  {
    if SkippedId(sealed.header.dh, sealed.header.n) !in x.skipped {
      CatchUpKeepsSecret(network, x, sealed.header, pair);
    }
  }

  // ---------------------------------------------------------------------------
  // Histories

  lemma {:induction false} RootsAreSecret(network: set<nat>, h: History, k: nat)
    requires h.Linked() && !Derivable(network, h.roots[0]) && k < |h.roots|
    ensures !Derivable(network, h.roots[k])
  {
    if k == 0 {
    } else {
      RootsAreSecret(network, h, k - 1);
      assert h.roots[k] == Root(h.roots[k - 1], h.Output(k - 1));
    }
  }

  lemma PositionIsSecret(network: set<nat>, h: History, k: nat, n: nat)
    requires h.Linked() && !Derivable(network, h.roots[0]) && k < |h.dhs|
    ensures !Derivable(network, Advance(h.ChainAt(k), n)) && !Derivable(network, h.KeyAt(k, n))
  {
    RootsAreSecret(network, h, k);
    AdvanceIsDerivable(network, h.ChainAt(k), n);
  }

  /** Both ends of a history with a secret beginning stay secret. */
  lemma EndpointIsSecret(network: set<nat>, h: History, s: int, x: Session, accepted: set<SkippedId>)
    requires Endpoint(h, s, x, accepted) && h.Linked() && !Derivable(network, h.roots[0])
    ensures IsSecret(network, x)
  {
    RootsAreSecret(network, h, s + 1);
    if s > 0 {
      PositionIsSecret(network, h, s - 1, x.nr);
    }
    forall id | id in x.skipped ensures !Derivable(network, x.skipped[id]) {
      assert Passed(h, s, x.nr, id);
      var k: nat :| Reached(h, s, x.nr, id, k);
      PositionIsSecret(network, h, k, id.n);
    }
  }

  // ---------------------------------------------------------------------------
  // Own copies

  /** The key of an own copy follows from the ephemeral key alone: whoever makes that can seal one for the device. */
  lemma CopyKeyIsDerivable(network: set<nat>, identity: nat, ephemeral: nat)
    ensures Derivable(network, SentCopy(SharedSecret(identity, ephemeral)))
            <==> identity in network || ephemeral in network
  {
    SharedIsSecret(network, identity, ephemeral);
  }
}
