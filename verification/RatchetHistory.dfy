/** What both ends of a session agree about: the sequence of ratchet steps since the key agreement.

Epochs are numbered from 0; the initiator owns the even ones and the responder the odd ones. Epoch `k` is the
sending chain of its owner between two root-key steps, and its key pair answers the pair of epoch `k - 1`. The
responder's signed prekey plays the part of epoch -1. */
module RatchetHistory {
  import opened Wrappers
  import opened Keys
  import opened Ratchet

  /** `dhs[k]` is the key pair of epoch `k`, `counts[k]` how many messages its owner has sent in it, and `roots[k]`
      the root key from which its chain is derived. */
  datatype History = History(prekey: nat, dhs: seq<nat>, roots: seq<Key>, counts: seq<nat>) {
    ghost predicate Sized() {
      |roots| == |dhs| + 1 && |counts| == |dhs|
    }

    ghost function DhAt(k: int): nat
      requires -1 <= k < |dhs|
    {
      if k == -1 then prekey else dhs[k]
    }

    /** The Diffie-Hellman output that starts epoch `k`. */
    ghost function Output(k: nat): Key
      requires k < |dhs|
    {
      SharedSecret(DhAt(k - 1), DhAt(k))
    }

    ghost function ChainAt(k: nat): Key
      requires k < |dhs| && Sized()
    {
      Chain(roots[k], Output(k))
    }

    ghost function KeyAt(k: nat, n: nat): Key
      requires k < |dhs| && Sized()
    {
      Message(Advance(ChainAt(k), n))
    }

    /** The length of the owner's previous chain, as the headers of epoch `k` announce it. */
    ghost function Announced(k: nat): nat
      requires k < |dhs| && Sized()
    {
      if k < 2 then 0 else counts[k - 2]
    }

    ghost predicate Linked() {
      Sized() && forall k :: 0 <= k < |dhs| ==> roots[k + 1] == Root(roots[k], Output(k))
    }

    ghost predicate Deepening() {
      Sized() && forall k :: 0 <= k < |roots| ==> RootDepth(roots[k]) == k
    }

    ghost predicate Distinct(supply: nat) {
      (forall i, j :: 0 <= i < j < |dhs| ==> dhs[i] != dhs[j])
      && (forall i :: 0 <= i < |dhs| ==> dhs[i] != prekey && dhs[i] < supply)
    }

    ghost predicate Valid(supply: nat) {
      Linked() && Deepening() && Distinct(supply)
    }

    /** A new epoch answering the last one. */
    ghost function Extend(pair: nat): (h: History)
      requires Sized()
      ensures h.Sized()
    {
      var output := SharedSecret(if |dhs| == 0 then prekey else dhs[|dhs| - 1], pair);
      History(prekey, dhs + [pair], roots + [Root(roots[|dhs|], output)], counts + [0])
    }

    /** One more message in epoch `s`. */
    ghost function Count(s: nat): (h: History)
      requires Sized() && s < |dhs|
      ensures h.Sized()
    {
      this.(counts := counts[s := counts[s] + 1])
    }
  }

  lemma SharedSecretSymmetric(a: nat, b: nat)
    ensures SharedSecret(a, b) == SharedSecret(b, a)
  {
  }

  lemma ExtendKeepsValid(h: History, supply: nat, pair: nat)
    requires h.Valid(supply) && supply <= pair && h.prekey < supply
    ensures h.Extend(pair).Valid(pair + 1)
  {
    var e := h.Extend(pair);
    forall k | 0 <= k < |e.dhs| ensures e.roots[k + 1] == Root(e.roots[k], e.Output(k)) {
      if k < |h.dhs| {
        assert e.Output(k) == h.Output(k);
      }
    }
  }

  lemma ExtendKeepsChains(h: History, pair: nat, k: nat)
    requires h.Sized() && k < |h.dhs|
    ensures h.Extend(pair).ChainAt(k) == h.ChainAt(k)
    ensures h.Extend(pair).Announced(k) == h.Announced(k)
  {
  }

  /** The keys of two different positions are different. */
  lemma KeysAreDistinct(h: History, k: nat, n: nat, root: Key, output: Key, m: nat)
    requires h.Sized() && k < |h.dhs|
    requires h.KeyAt(k, n) == Message(Advance(Chain(root, output), m))
    ensures n == m && root == h.roots[k] && output == h.Output(k)
  {
    AdvanceInjective(h.ChainAt(k), n, Chain(root, output), m);
  }

  // ---------------------------------------------------------------------------
  // One endpoint

  /** The endpoint whose own latest epoch is `s` (-1: a responder that has not answered yet). */
  ghost predicate SendingSide(h: History, s: int, x: Session)
    requires h.Sized() && -1 <= s < |h.dhs|
  {
    && x.rk == h.roots[s + 1]
    && x.dhs == h.DhAt(s)
    && if s == -1 then x.cks == None && x.ns == 0 && x.pn == 0
       else x.cks == Some(Advance(h.ChainAt(s), h.counts[s])) && x.ns == h.counts[s] && x.pn == h.Announced(s)
  }

  ghost predicate ReceivingSide(h: History, s: int, x: Session)
    requires h.Sized() && -1 <= s < |h.dhs|
  {
    && x.dhr == (if s == -1 then None else Some(h.DhAt(s - 1)))
    && if s <= 0 then x.ckr == None && x.nr == 0
       else x.nr <= h.counts[s - 1] && x.ckr == Some(Advance(h.ChainAt(s - 1), x.nr))
  }

  /** Position `id` lies in the peer's epoch `k`, below the bound that the endpoint at `s` has reached in it. */
  ghost predicate Reached(h: History, s: int, nr: nat, id: SkippedId, k: nat)
    requires h.Sized() && -1 <= s < |h.dhs|
  {
    && k < s && (s - k) % 2 == 1
    && id.dh == h.dhs[k]
    && 0 <= id.n < (if k == s - 1 then nr else h.counts[k])
  }

  ghost predicate Passed(h: History, s: int, nr: nat, id: SkippedId)
    requires h.Sized() && -1 <= s < |h.dhs|
  {
    exists k: nat :: Reached(h, s, nr, id, k)
  }

  /** The positions passed so far are the disjoint union of the accepted ones and those with a stored key, and
      every stored key is the key of its position in the peer's chain. */
  ghost predicate Bookkept(h: History, s: int, x: Session, accepted: set<SkippedId>)
    requires h.Sized() && -1 <= s < |h.dhs|
  {
    && (forall id :: id in accepted || id in x.skipped <==> Passed(h, s, x.nr, id))
    && (forall id :: !(id in accepted && id in x.skipped))
    && (forall id, k: nat :: Reached(h, s, x.nr, id, k) && id in x.skipped ==> x.skipped[id] == h.KeyAt(k, id.n))
  }

  ghost predicate Endpoint(h: History, s: int, x: Session, accepted: set<SkippedId>) {
    h.Sized() && -1 <= s < |h.dhs| && SendingSide(h, s, x) && ReceivingSide(h, s, x) && Bookkept(h, s, x, accepted)
  }

  /** The endpoint at `s` may expect packets of epoch `k`. */
  predicate FromPeer(s: int, k: int) {
    0 <= k <= s + 1 && (s + 1 - k) % 2 == 0
  }

  // ---------------------------------------------------------------------------
  // Sending

  lemma CountKeepsReached(h: History, e: nat, s: int, nr: nat, id: SkippedId, k: nat)
    requires h.Sized() && e < |h.dhs| && -1 <= s < |h.dhs| && s - 1 <= e
    ensures Reached(h.Count(e), s, nr, id, k) <==> Reached(h, s, nr, id, k)
  {
  }

  lemma CountKeepsBooks(h: History, e: nat, s: int, x: Session, accepted: set<SkippedId>)
    requires h.Sized() && e < |h.dhs| && -1 <= s < |h.dhs| && s - 1 <= e
    requires Bookkept(h, s, x, accepted)
    ensures Bookkept(h.Count(e), s, x, accepted)
  {
    var g := h.Count(e);
    forall id, k: nat ensures Reached(g, s, x.nr, id, k) <==> Reached(h, s, x.nr, id, k) {
      CountKeepsReached(h, e, s, x.nr, id, k);
    }
    forall id ensures Passed(g, s, x.nr, id) <==> Passed(h, s, x.nr, id) {
    }
    forall id, k: nat | Reached(g, s, x.nr, id, k) && id in x.skipped ensures x.skipped[id] == g.KeyAt(k, id.n) {
      assert Reached(h, s, x.nr, id, k);
      assert g.KeyAt(k, id.n) == h.KeyAt(k, id.n);
    }
  }

  lemma EncryptStep(h: History, s: nat, x: Session, accepted: set<SkippedId>, plaintext: Payload, base: Base)
    requires Endpoint(h, s, x, accepted)
    ensures x.Encrypt(plaintext, base).Ok?
    ensures var (y, sealed) := x.Encrypt(plaintext, base).value;
            && Endpoint(h.Count(s), s, y, accepted)
            && sealed.header == Header(h.dhs[s], h.Announced(s), h.counts[s])
            && sealed.cipher == Cipher(h.KeyAt(s, h.counts[s]), PacketAad(base, sealed.header), plaintext)
  {
    var y := x.Encrypt(plaintext, base).value.0;
    CountKeepsBooks(h, s, s, x, accepted);
    assert Bookkept(h.Count(s), s, y, accepted);
  }

  /** A message sent by the peer leaves this endpoint in step. */
  lemma CountKeepsEndpoint(h: History, e: nat, s: int, x: Session, accepted: set<SkippedId>)
    requires Endpoint(h, s, x, accepted) && e < |h.dhs| && (e == s - 1 || e == s + 1)
    ensures Endpoint(h.Count(e), s, x, accepted)
  {
    CountKeepsBooks(h, e, s, x, accepted);
  }

  lemma ExtendKeepsBooks(h: History, pair: nat, s: int, x: Session, accepted: set<SkippedId>)
    requires h.Sized() && -1 <= s < |h.dhs| && Bookkept(h, s, x, accepted)
    ensures Bookkept(h.Extend(pair), s, x, accepted)
  {
    var g := h.Extend(pair);
    forall id, k: nat ensures Reached(g, s, x.nr, id, k) <==> Reached(h, s, x.nr, id, k) {
    }
    forall id ensures Passed(g, s, x.nr, id) <==> Passed(h, s, x.nr, id) {
    }
    forall id, k: nat | Reached(g, s, x.nr, id, k) && id in x.skipped ensures x.skipped[id] == g.KeyAt(k, id.n) {
      assert Reached(h, s, x.nr, id, k);
      ExtendKeepsChains(h, pair, k);
    }
  }

  /** A key pair generated by the peer leaves this endpoint in step. */
  lemma ExtendKeepsEndpoint(h: History, pair: nat, s: int, x: Session, accepted: set<SkippedId>)
    requires Endpoint(h, s, x, accepted)
    ensures Endpoint(h.Extend(pair), s, x, accepted)
  {
    ExtendKeepsBooks(h, pair, s, x, accepted);
    if s >= 0 {
      ExtendKeepsChains(h, pair, s);
    }
    if s > 0 {
      ExtendKeepsChains(h, pair, s - 1);
    }
  }

  // ---------------------------------------------------------------------------
  // Receiving

  /** The limits that the code checks before it derives a key that is not stored. */
  predicate WithinSkipLimits(x: Session, header: Header) {
    if x.dhr == Some(header.dh) then header.n - x.nr <= 100
    else header.pn - x.nr <= 100 && header.n <= 100
  }

  /** Why any session refuses a packet: without a stored key and beyond the limits, without a receiving chain, or under
      another key or for other data. */
  lemma RefusalIff(x: Session, sealed: Sealed, base: Base, pair: nat)
    ensures var result, header := x.Decrypt(sealed, base, pair), sealed.header;
            var stored := SkippedId(header.dh, header.n) in x.skipped;
            && (result == Err(SkipLimit) <==> !stored && !WithinSkipLimits(x, header))
            && (result == Err(NoReceivingChain)
                <==> !stored && WithinSkipLimits(x, header) && x.dhr == Some(header.dh) && x.ckr.None?)
            && (result.Err? ==> result.error in {SkipLimit, NoReceivingChain, NotOpened})
  {
  }

  /** `sealed` is message `n` of epoch `k`, bound to `base`. */
  ghost predicate Genuine(h: History, k: nat, n: nat, sealed: Sealed, base: Base) {
    && h.Sized() && k < |h.dhs| && n < h.counts[k]
    && sealed.header == Header(h.dhs[k], h.Announced(k), n)
    && sealed.cipher.key == h.KeyAt(k, n)
    && sealed.cipher.aad == PacketAad(base, sealed.header)
  }

  lemma EpochIsUnique(h: History, supply: nat, s: int, nr: nat, k: nat, n: int)
    requires h.Valid(supply) && -1 <= s < |h.dhs| && k < |h.dhs|
    ensures Passed(h, s, nr, SkippedId(h.dhs[k], n)) <==> Reached(h, s, nr, SkippedId(h.dhs[k], n), k)
  {
  }

  lemma PassedGrows(h: History, s: nat, nr: nat, until: nat, id: SkippedId)
    requires h.Sized() && 0 < s < |h.dhs| && nr <= until
    ensures Passed(h, s, until, id) <==>
            Passed(h, s, nr, id) || (id.dh == h.dhs[s - 1] && nr <= id.n < until)
  {
    if k: nat :| Reached(h, s, until, id, k) {
      assert k < s - 1 || id.n >= nr || Reached(h, s, nr, id, k);
      assert Reached(h, s, nr, id, k) || (id.dh == h.dhs[s - 1] && nr <= id.n < until);
    }
    if k: nat :| Reached(h, s, nr, id, k) {
      assert Reached(h, s, until, id, k);
    }
    if id.dh == h.dhs[s - 1] && nr <= id.n < until {
      assert Reached(h, s, until, id, s - 1);
    }
  }

  lemma SkippedMembership(h: History, supply: nat, s: nat, x: Session, accepted: set<SkippedId>, until: nat,
                          id: SkippedId)
    requires h.Valid(supply) && Endpoint(h, s, x, accepted)
    requires s > 0 && x.nr < until && until - x.nr <= MAX_SKIP
    ensures var y := x.SkipKeys(until).value;
            && (id in accepted || id in y.skipped <==> Passed(h, s, until, id))
            && !(id in accepted && id in y.skipped)
  {
    PassedGrows(h, s, x.nr, until, id);
    RangeContents(h.dhs[s - 1], x.ckr.value, x.nr, until, id);
    if id.dh == h.dhs[s - 1] {
      EpochIsUnique(h, supply, s, x.nr, s - 1, id.n);
    }
  }

  lemma SkippedKey(h: History, supply: nat, s: nat, x: Session, accepted: set<SkippedId>, until: nat, id: SkippedId,
                   k: nat)
    requires h.Valid(supply) && Endpoint(h, s, x, accepted)
    requires s > 0 && x.nr < until && until - x.nr <= MAX_SKIP
    requires Reached(h, s, until, id, k) && id in x.SkipKeys(until).value.skipped
    ensures x.SkipKeys(until).value.skipped[id] == h.KeyAt(k, id.n)
  {
    var added := SkippedRange(h.dhs[s - 1], x.ckr.value, x.nr, until);
    RangeContents(h.dhs[s - 1], x.ckr.value, x.nr, until, id);
    if id in added {
      assert k == s - 1;
      AdvanceAdds(h.ChainAt(k), x.nr, id.n - x.nr);
      assert added[id] == h.KeyAt(k, id.n);
    } else {
      assert id in x.skipped;
      assert Reached(h, s, x.nr, id, k);
    }
  }

  /** Catching up within the current receiving chain stores exactly the keys it passes. */
  lemma SkipStep(h: History, supply: nat, s: int, x: Session, accepted: set<SkippedId>, until: nat)
    requires h.Valid(supply) && Endpoint(h, s, x, accepted)
    requires s <= 0 ==> until == 0
    requires s > 0 ==> x.nr <= until <= h.counts[s - 1]
    requires until - x.nr <= MAX_SKIP
    ensures x.SkipKeys(until).Ok? && Endpoint(h, s, x.SkipKeys(until).value, accepted)
    ensures x.SkipKeys(until).value.nr == until
  {
    if s > 0 && until > x.nr {
      var y := x.SkipKeys(until).value;
      AdvanceAdds(h.ChainAt(s - 1), x.nr, until - x.nr);
      forall id ensures id in accepted || id in y.skipped <==> Passed(h, s, y.nr, id)
                ensures !(id in accepted && id in y.skipped) {
        SkippedMembership(h, supply, s, x, accepted, until, id);
      }
      forall id, k: nat | Reached(h, s, y.nr, id, k) && id in y.skipped ensures y.skipped[id] == h.KeyAt(k, id.n) {
        SkippedKey(h, supply, s, x, accepted, until, id, k);
      }
    }
  }

  /** Using the key at the head of the receiving chain. */
  ghost function UseHead(x: Session): Session
    requires x.ckr.Some?
  {
    x.(ckr := Some(Next(x.ckr.value)), nr := x.nr + 1)
  }

  lemma AcceptStep(h: History, supply: nat, s: nat, x: Session, accepted: set<SkippedId>)
    requires h.Valid(supply) && Endpoint(h, s, x, accepted)
    requires s > 0 && x.nr < h.counts[s - 1]
    ensures Endpoint(h, s, UseHead(x), accepted + {SkippedId(h.dhs[s - 1], x.nr)})
  {
    var y := UseHead(x);
    var used := SkippedId(h.dhs[s - 1], x.nr);
    EpochIsUnique(h, supply, s, x.nr, s - 1, x.nr);
    forall id ensures id in accepted + {used} || id in y.skipped <==> Passed(h, s, y.nr, id) {
      PassedGrows(h, s, x.nr, y.nr, id);
    }
    forall id, k: nat | Reached(h, s, y.nr, id, k) && id in y.skipped ensures y.skipped[id] == h.KeyAt(k, id.n) {
      assert id != used;
      EpochIsUnique(h, supply, s, y.nr, k, id.n);
      assert Reached(h, s, x.nr, id, k);
    }
  }

  lemma RatchetKeepsBooks(h: History, pair: nat, s: int, y: Session, z: Session, accepted: set<SkippedId>)
    requires h.Sized() && -1 <= s && s + 2 == |h.dhs| && Bookkept(h, s, y, accepted)
    requires s > 0 ==> y.nr == h.counts[s - 1]
    requires z.nr == 0 && z.skipped == y.skipped
    ensures Bookkept(h.Extend(pair), s + 2, z, accepted)
  {
    var g, e := h.Extend(pair), s + 2;
    forall id, k: nat ensures Reached(g, e, 0, id, k) <==> Reached(h, s, y.nr, id, k) {
    }
    forall id ensures Passed(g, e, 0, id) <==> Passed(h, s, y.nr, id) {
      if k: nat :| Reached(g, e, 0, id, k) {
        assert Reached(h, s, y.nr, id, k);
      }
    }
    forall id, k: nat | Reached(g, e, 0, id, k) && id in z.skipped ensures z.skipped[id] == g.KeyAt(k, id.n) {
      assert Reached(h, s, y.nr, id, k);
      ExtendKeepsChains(h, pair, k);
    }
  }

  /** The record after both root-key steps. */
  ghost function Turned(y: Session, dh: nat, pair: nat): Session {
    var received := SharedSecret(y.dhs, dh);
    var root := Root(y.rk, received);
    var sent := SharedSecret(pair, dh);
    y.(pn := y.ns, ns := 0, nr := 0, dhr := Some(dh), ckr := Some(Chain(y.rk, received)), rk := Root(root, sent),
       dhs := pair, cks := Some(Chain(root, sent)))
  }

  lemma TurnedSides(h: History, s: int, y: Session, pair: nat)
    requires h.Sized() && h.Linked() && -1 <= s && s + 2 == |h.dhs| && SendingSide(h, s, y)
    ensures var z := Turned(y, h.dhs[s + 1], pair);
            SendingSide(h.Extend(pair), s + 2, z) && ReceivingSide(h.Extend(pair), s + 2, z)
  {
    var g := h.Extend(pair);
    SharedSecretSymmetric(h.DhAt(s), h.dhs[s + 1]);
    SharedSecretSymmetric(h.dhs[s + 1], pair);
    ExtendKeepsChains(h, pair, s + 1);
    assert g.ChainAt(s + 2) == Chain(g.roots[s + 2], SharedSecret(pair, h.dhs[s + 1]));
    assert Advance(g.ChainAt(s + 2), 0) == g.ChainAt(s + 2);
    assert Advance(g.ChainAt(s + 1), 0) == g.ChainAt(s + 1);
  }

  /** Both root-key steps on the peer's new key bring the endpoint two epochs on. */
  lemma RatchetStep(h: History, supply: nat, s: int, x: Session, accepted: set<SkippedId>, n: int, pair: nat)
    requires h.Valid(supply) && Endpoint(h, s, x, accepted) && s + 2 == |h.dhs|
    requires h.Announced(s + 1) - x.nr <= MAX_SKIP
    ensures var header := Header(h.dhs[s + 1], h.Announced(s + 1), n);
            && x.DhRatchet(header, pair).Ok?
            && Endpoint(h.Extend(pair), s + 2, x.DhRatchet(header, pair).value, accepted)
            && x.DhRatchet(header, pair).value.nr == 0
  {
    var header := Header(h.dhs[s + 1], h.Announced(s + 1), n);
    SkipStep(h, supply, s, x, accepted, h.Announced(s + 1));
    var y := x.SkipKeys(header.pn).value;
    var z := x.DhRatchet(header, pair).value;
    assert z == Turned(y, header.dh, pair);
    TurnedSides(h, s, y, pair);
    RatchetKeepsBooks(h, pair, s, y, z, accepted);
  }

  /** A stored key opens its packet and is used up. */
  lemma DecryptSkipped(h: History, supply: nat, s: int, x: Session, accepted: set<SkippedId>, k: nat, n: nat,
                       sealed: Sealed, base: Base, pair: nat)
    requires h.Valid(supply) && Endpoint(h, s, x, accepted) && Genuine(h, k, n, sealed, base)
    requires SkippedId(h.dhs[k], n) in x.skipped
    ensures x.Decrypt(sealed, base, pair).Ok?
    ensures Endpoint(h, s, x.Decrypt(sealed, base, pair).value.0, accepted + {SkippedId(h.dhs[k], n)})
  {
    var id := SkippedId(h.dhs[k], n);
    EpochIsUnique(h, supply, s, x.nr, k, n);
    assert Reached(h, s, x.nr, id, k);
    var y := x.Decrypt(sealed, base, pair).value.0;
    assert y == x.(skipped := x.skipped - {id});
  }

  /** A packet of the current receiving chain opens exactly when it is ahead and within reach. */
  lemma DecryptCurrent(h: History, supply: nat, s: nat, x: Session, accepted: set<SkippedId>, n: nat,
                       sealed: Sealed, base: Base, pair: nat)
    requires h.Valid(supply) && Endpoint(h, s, x, accepted) && s > 0 && Genuine(h, s - 1, n, sealed, base)
    requires SkippedId(h.dhs[s - 1], n) !in x.skipped
    ensures x.Decrypt(sealed, base, pair).Ok? <==> x.nr <= n && n - x.nr <= MAX_SKIP
    ensures x.Decrypt(sealed, base, pair).Ok? ==>
              Endpoint(h, s, x.Decrypt(sealed, base, pair).value.0, accepted + {SkippedId(h.dhs[s - 1], n)})
  {
    if x.nr <= n {
      if n - x.nr <= MAX_SKIP {
        SkipStep(h, supply, s, x, accepted, n);
        AcceptStep(h, supply, s, x.SkipKeys(n).value, accepted);
      }
    } else if x.Decrypt(sealed, base, pair).Ok? {
      KeysAreDistinct(h, s - 1, n, h.roots[s - 1], h.Output(s - 1), x.nr);
      assert false;
    }
  }

  /** Both gaps of a new chain are tested, the second one from position 0. */
  lemma NewChain(x: Session, header: Header, pair: nat)
    requires x.dhr != Some(header.dh)
    ensures var turned, caught := x.DhRatchet(header, pair), x.CatchUp(header, pair);
            && (turned.Ok? <==> header.pn - x.nr <= MAX_SKIP) && (turned.Ok? ==> turned.value.nr == 0)
            && (caught.Ok? <==> turned.Ok? && header.n <= MAX_SKIP)
            && (caught.Ok? ==> caught == turned.value.SkipKeys(header.n))
  {
  }

  lemma SkipInNext(h: History, supply: nat, s: int, z: Session, accepted: set<SkippedId>, n: nat, pair: nat)
    requires h.Valid(supply) && -1 <= s && s + 2 == |h.dhs| && h.prekey < supply <= pair && n < h.counts[s + 1]
    requires Endpoint(h.Extend(pair), s + 2, z, accepted) && z.nr == 0 && n <= MAX_SKIP
    ensures z.SkipKeys(n).Ok? && Endpoint(h.Extend(pair), s + 2, z.SkipKeys(n).value, accepted)
    ensures z.SkipKeys(n).value.nr == n
  {
    ExtendKeepsValid(h, supply, pair);
    SkipStep(h.Extend(pair), pair + 1, s + 2, z, accepted, n);
  }

  lemma CatchUpNext(h: History, supply: nat, s: int, x: Session, accepted: set<SkippedId>, n: nat, pair: nat)
    requires h.Valid(supply) && Endpoint(h, s, x, accepted) && s + 2 == |h.dhs| && h.prekey < supply <= pair
    requires n < h.counts[s + 1]
    ensures var caught := x.CatchUp(Header(h.dhs[s + 1], h.Announced(s + 1), n), pair);
            && (caught.Ok? <==> h.Announced(s + 1) - x.nr <= MAX_SKIP && n <= MAX_SKIP)
            && (caught.Ok? ==> caught.value.nr == n && Endpoint(h.Extend(pair), s + 2, caught.value, accepted))
  {
    NewChain(x, Header(h.dhs[s + 1], h.Announced(s + 1), n), pair);
    if h.Announced(s + 1) - x.nr <= MAX_SKIP {
      RatchetStep(h, supply, s, x, accepted, n, pair);
      var z := x.DhRatchet(Header(h.dhs[s + 1], h.Announced(s + 1), n), pair).value;
      if n <= MAX_SKIP {
        SkipInNext(h, supply, s, z, accepted, n, pair);
      }
    }
  }

  lemma DecryptByHead(x: Session, sealed: Sealed, base: Base, pair: nat)
    requires SkippedId(sealed.header.dh, sealed.header.n) !in x.skipped
    requires sealed.cipher.aad == PacketAad(base, sealed.header)
    ensures var caught, plain := x.CatchUp(sealed.header, pair), x.Decrypt(sealed, base, pair);
            && (plain.Ok? <==> caught.Ok? && caught.value.ckr.Some? &&
                                sealed.cipher.key == Message(caught.value.ckr.value))
            && (plain.Ok? ==> plain.value.0 == UseHead(caught.value))
  {
  }

  /** Using the head of the peer's next chain, once the endpoint has caught up with it. */
  lemma AcceptNext(h: History, supply: nat, s: int, y: Session, accepted: set<SkippedId>, n: nat, pair: nat)
    requires h.Valid(supply) && -1 <= s && s + 2 == |h.dhs| && h.prekey < supply <= pair && n < h.counts[s + 1]
    requires Endpoint(h.Extend(pair), s + 2, y, accepted) && y.nr == n
    ensures y.ckr == Some(Advance(h.ChainAt(s + 1), n))
    ensures Endpoint(h.Extend(pair), s + 2, UseHead(y), accepted + {SkippedId(h.dhs[s + 1], n)})
  {
    ExtendKeepsValid(h, supply, pair);
    ExtendKeepsChains(h, pair, s + 1);
    AcceptStep(h.Extend(pair), pair + 1, s + 2, y, accepted);
  }

  /** A packet of the peer's next chain opens exactly when both gaps are within reach. */
  lemma DecryptNext(h: History, supply: nat, s: int, x: Session, accepted: set<SkippedId>, n: nat,
                    sealed: Sealed, base: Base, pair: nat)
    requires h.Valid(supply) && Endpoint(h, s, x, accepted) && s + 2 == |h.dhs| && h.prekey < supply <= pair
    requires Genuine(h, s + 1, n, sealed, base)
    requires SkippedId(h.dhs[s + 1], n) !in x.skipped
    ensures x.Decrypt(sealed, base, pair).Ok? <==> h.Announced(s + 1) - x.nr <= MAX_SKIP && n <= MAX_SKIP
    ensures x.Decrypt(sealed, base, pair).Ok? ==>
              Endpoint(h.Extend(pair), s + 2, x.Decrypt(sealed, base, pair).value.0,
                       accepted + {SkippedId(h.dhs[s + 1], n)})
  {
    CatchUpNext(h, supply, s, x, accepted, n, pair);
    DecryptByHead(x, sealed, base, pair);
    var caught := x.CatchUp(sealed.header, pair);
    if caught.Ok? {
      AcceptNext(h, supply, s, caught.value, accepted, n, pair);
    }
  }

  /** A packet of a retired chain whose key is not stored any more never opens. */
  lemma DecryptRetired(h: History, supply: nat, s: int, x: Session, accepted: set<SkippedId>, k: nat, n: nat,
                       sealed: Sealed, base: Base, pair: nat)
    requires h.Valid(supply) && Endpoint(h, s, x, accepted) && k < s - 1 && Genuine(h, k, n, sealed, base)
    requires SkippedId(h.dhs[k], n) !in x.skipped
    ensures x.Decrypt(sealed, base, pair).Err?
  {
    assert x.dhr != Some(h.dhs[k]);
    if x.Decrypt(sealed, base, pair).Ok? {
      var t := x.CatchUp(sealed.header, pair).value;
      var output := SharedSecret(x.dhs, h.dhs[k]);
      assert t.ckr == Some(Advance(Chain(x.rk, output), n));
      assert RootDepth(h.roots[k]) == k && RootDepth(h.roots[s + 1]) == s + 1;
      KeysAreDistinct(h, k, n, x.rk, output, n);
      assert false;
    }
  }

  /** A genuine packet of the peer is accepted exactly once, and exactly when its key is stored or within reach. */
  lemma DecryptGenuine(h: History, supply: nat, s: int, x: Session, accepted: set<SkippedId>, k: nat, n: nat,
                       sealed: Sealed, base: Base, pair: nat)
    requires h.Valid(supply) && Endpoint(h, s, x, accepted) && h.prekey < supply <= pair
    requires |h.dhs| - 2 <= s && FromPeer(s, k) && Genuine(h, k, n, sealed, base)
    ensures var id := SkippedId(h.dhs[k], n);
            x.Decrypt(sealed, base, pair).Ok? <==>
            id !in accepted && (id in x.skipped || WithinSkipLimits(x, sealed.header))
    ensures x.Decrypt(sealed, base, pair).Ok? ==>
              Endpoint(if k == s + 1 then h.Extend(pair) else h, if k == s + 1 then s + 2 else s,
                       x.Decrypt(sealed, base, pair).value.0, accepted + {SkippedId(h.dhs[k], n)})
  {
    EpochIsUnique(h, supply, s, x.nr, k, n);
    if SkippedId(h.dhs[k], n) in x.skipped {
      DecryptSkipped(h, supply, s, x, accepted, k, n, sealed, base, pair);
    } else if k == s + 1 {
      DecryptNext(h, supply, s, x, accepted, n, sealed, base, pair);
      assert x.dhr != Some(h.dhs[k]);
    } else if k == s - 1 {
      DecryptCurrent(h, supply, s, x, accepted, n, sealed, base, pair);
    } else {
      DecryptRetired(h, supply, s, x, accepted, k, n, sealed, base, pair);
    }
  }
}
