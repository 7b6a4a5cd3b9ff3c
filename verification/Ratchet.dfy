/** The per-session Double Ratchet: `Session` is one stored record, the functions say what each call makes of it,
and `RatchetState` is the mutable object the transport works on between loading and storing a record. */
module Ratchet {
  import opened Wrappers
  import opened Keys

  const MAX_SKIP := 100

  datatype Fingerprint = Fingerprint(signing: nat, identity: nat)

  datatype SkippedId = SkippedId(dh: nat, n: int)

  datatype Sealed = Sealed(header: Header, cipher: Cipher)

  /** The message keys of positions `from` to `until - 1` of a chain that now stands at `from`. */
  function SkippedRange(dh: nat, chain: Key, from: nat, until: int): (keys: map<SkippedId, Key>)
    decreases until - from
  {
    if until <= from then map[]
    else SkippedRange(dh, chain, from, until - 1)
         [SkippedId(dh, until - 1) := Message(Advance(chain, until - 1 - from))]
  }

  /** The range stores exactly its positions, each with its own message key. */
  lemma {:induction false} RangeContents(dh: nat, chain: Key, from: nat, until: int, id: SkippedId)
    ensures var keys := SkippedRange(dh, chain, from, until);
            && (id in keys <==> id.dh == dh && from <= id.n < until)
            && (id in keys ==> keys[id] == Message(Advance(chain, id.n - from)))
    decreases until - from
  {
    if until <= from {
    } else {
      RangeContents(dh, chain, from, until - 1, id);
    }
  }

  datatype Session = Session(rk: Key, cks: Option<Key>, ckr: Option<Key>, dhs: nat, dhr: Option<nat>,
                             ns: nat, nr: nat, pn: nat, skipped: map<SkippedId, Key>, peer: Fingerprint) {
    /** A receiving chain always belongs to a known remote ratchet key. */
    predicate Valid() {
      ckr.Some? ==> dhr.Some?
    }

    function Encrypt(plaintext: Payload, base: Base): Attempt<(Session, Sealed)> {
      if cks.None? then Err(NoSendingChain)
      else
        var header := Header(dhs, pn, ns);
        var sealed := Sealed(header, Cipher(Message(cks.value), PacketAad(base, header), plaintext));
        Ok((this.(cks := Some(Next(cks.value)), ns := ns + 1), sealed))
    }

    function SkipKeys(until: int): Attempt<Session> {
      if until - nr > MAX_SKIP then Err(SkipLimit)
      else if ckr.None? || dhr.None? || until <= nr then Ok(this)
      else Ok(this.(skipped := skipped + SkippedRange(dhr.value, ckr.value, nr, until),
                    ckr := Some(Advance(ckr.value, until - nr)), nr := until))
    }

    /** The two root-key steps of a new remote key: `pair` is the freshly generated private key. */
    function DhRatchet(header: Header, pair: nat): Attempt<Session> {
      var t :- SkipKeys(header.pn);
      var received := SharedSecret(t.dhs, header.dh);
      var root := Root(t.rk, received);
      var sent := SharedSecret(pair, header.dh);
      Ok(t.(pn := t.ns, ns := 0, nr := 0, dhr := Some(header.dh), ckr := Some(Chain(t.rk, received)),
            rk := Root(root, sent), dhs := pair, cks := Some(Chain(root, sent))))
    }

    /** The state in which the key of a packet that is not among the skipped ones is derived. */
    function CatchUp(header: Header, pair: nat): Attempt<Session> {
      var t :- if dhr == Some(header.dh) then Ok(this) else DhRatchet(header, pair);
      t.SkipKeys(header.n)
    }

    function Decrypt(sealed: Sealed, base: Base, pair: nat): Attempt<(Session, Payload)> {
      var header := sealed.header;
      var id := SkippedId(header.dh, header.n);
      var aad := PacketAad(base, header);
      if id in skipped then
        var plaintext :- Open(skipped[id], aad, sealed.cipher);
        Ok((this.(skipped := skipped - {id}), plaintext))
      else
        var t :- CatchUp(header, pair);
        if t.ckr.None? then Err(NoReceivingChain)
        else
          var plaintext :- Open(Message(t.ckr.value), aad, sealed.cipher);
          Ok((t.(ckr := Some(Next(t.ckr.value)), nr := t.nr + 1), plaintext))
    }
  }

  /** Whatever header or ciphertext arrives, an accepted one was sealed for this binding and this header. */
  lemma DecryptIsBound(s: Session, sealed: Sealed, base: Base, pair: nat)
    requires s.Decrypt(sealed, base, pair).Ok?
    ensures sealed.cipher.aad == PacketAad(base, sealed.header)
    ensures s.Decrypt(sealed, base, pair).value.1 == sealed.cipher.plaintext
  {
  }

  lemma AddedSize<K, V>(m: map<K, V>, key: K, value: V)
    requires key !in m
    ensures |m[key := value]| == |m| + 1
  {
    assert m[key := value].Keys == m.Keys + {key};
    assert |m.Keys| == |m| && |m[key := value].Keys| == |m[key := value]|;
  }

  lemma {:induction false} RangeSize(dh: nat, chain: Key, from: nat, until: int)
    requires from <= until
    ensures |SkippedRange(dh, chain, from, until)| == until - from
    decreases until - from
  {
    if until <= from {
    } else {
      RangeSize(dh, chain, from, until - 1);
      RangeContents(dh, chain, from, until - 1, SkippedId(dh, until - 1));
      AddedSize(SkippedRange(dh, chain, from, until - 1), SkippedId(dh, until - 1),
                Message(Advance(chain, until - 1 - from)));
    }
  }

  lemma {:induction false} SubsetSize<K>(small: set<K>, large: set<K>)
    requires small <= large
    ensures |small| <= |large|
  {
    assert large == small + (large - small);
  }

  lemma MergedSize<K, V>(left: map<K, V>, right: map<K, V>)
    ensures |left + right| <= |left| + |right|
  {
    assert (left + right).Keys == left.Keys + (right.Keys - left.Keys);
    assert |(left + right).Keys| == |left.Keys| + |right.Keys - left.Keys|;
    SubsetSize(right.Keys - left.Keys, right.Keys);
  }

  /** One skipping loop adds at most the gap it is allowed to jump. */
  lemma SkipKeysIsBounded(s: Session, until: int)
    requires s.SkipKeys(until).Ok?
    ensures |s.SkipKeys(until).value.skipped| <= |s.skipped| + MAX_SKIP
    ensures s.skipped.Keys <= s.SkipKeys(until).value.skipped.Keys
  {
    if s.ckr.Some? && s.dhr.Some? && until > s.nr {
      var added := SkippedRange(s.dhr.value, s.ckr.value, s.nr, until);
      RangeSize(s.dhr.value, s.ckr.value, s.nr, until);
      MergedSize(s.skipped, added);
    }
  }

  /** An accepted packet leaves at most two full gaps of new skipped keys, whatever its header claims. */
  lemma DecryptGrowth(s: Session, sealed: Sealed, base: Base, pair: nat)
    requires s.Decrypt(sealed, base, pair).Ok?
    ensures |s.Decrypt(sealed, base, pair).value.0.skipped| <= |s.skipped| + 2 * MAX_SKIP
  {
    var header := sealed.header;
    var id := SkippedId(header.dh, header.n);
    if id in s.skipped {
      SubsetSize((s.skipped - {id}).Keys, s.skipped.Keys);
    } else if s.dhr == Some(header.dh) {
      SkipKeysIsBounded(s, header.n);
    } else {
      SkipKeysIsBounded(s, header.pn);
      SkipKeysIsBounded(s.DhRatchet(header, pair).value, header.n);
    }
  }

  /** The working copy of a session: loaded from a record, changed by one call, and stored again or dropped. */
  class RatchetState {
    var rk: Key
    var cks: Option<Key>
    var ckr: Option<Key>
    var dhs: nat
    var dhr: Option<nat>
    var ns: nat
    var nr: nat
    var pn: nat
    var skipped: map<SkippedId, Key>
    const peer: Fingerprint

    function Record(): Session
      reads this
    {
      Session(rk, cks, ckr, dhs, dhr, ns, nr, pn, skipped, peer)
    }

    constructor (record: Session)
      ensures Record() == record
    {
      rk, cks, ckr := record.rk, record.cks, record.ckr;
      dhs, dhr := record.dhs, record.dhr;
      ns, nr, pn := record.ns, record.nr, record.pn;
      skipped, peer := record.skipped, record.peer;
    }

    method Encrypt(plaintext: Payload, base: Base) returns (result: Attempt<Sealed>)
      modifies this
      ensures match old(Record()).Encrypt(plaintext, base)
              case Ok((record, sealed)) => result == Ok(sealed) && Record() == record
              case Err(error) => result == Err(error) && Record() == old(Record())
    {
      if cks.None? {
        return Err(NoSendingChain);
      }
      var header := Header(dhs, pn, ns);
      var cipher := Cipher(Message(cks.value), PacketAad(base, header), plaintext);
      cks := Some(Next(cks.value));
      ns := ns + 1;
      return Ok(Sealed(header, cipher));
    }

    method SkipKeys(until: int) returns (result: Attempt<()>)
      requires Record().Valid()
      modifies this
      ensures match old(Record()).SkipKeys(until)
              case Ok(record) => result == Ok(()) && Record() == record
              case Err(error) => result == Err(error) && Record() == old(Record())
      ensures Record().Valid()
    {
      if until - nr > MAX_SKIP {
        return Err(SkipLimit);
      }
      ghost var chain, from := ckr, nr;
      while ckr.Some? && nr < until
        invariant from <= nr && (nr <= until || nr == from)
        invariant Record() == old(Record()).(ckr := ckr, nr := nr, skipped := skipped)
        invariant ckr.Some? == chain.Some?
        invariant chain.Some? ==> ckr == Some(Advance(chain.value, nr - from))
        invariant chain.None? ==> nr == from && skipped == old(skipped)
        invariant chain.Some? ==> skipped == old(skipped) + SkippedRange(dhr.value, chain.value, from, nr)
        decreases until - nr
      {
        skipped := skipped[SkippedId(dhr.value, nr) := Message(ckr.value)];
        ckr := Some(Next(ckr.value));
        nr := nr + 1;
      }
      return Ok(());
    }

    method DhRatchet(header: Header, pair: nat) returns (result: Attempt<()>)
      requires Record().Valid()
      modifies this
      ensures match old(Record()).DhRatchet(header, pair)
              case Ok(record) => result == Ok(()) && Record() == record
              case Err(error) => result == Err(error)
      ensures Record().Valid()
    {
      var skip := SkipKeys(header.pn);
      if skip.Err? {
        return skip;
      }
      pn := ns;
      ns := 0;
      nr := 0;
      dhr := Some(header.dh);
      var output := SharedSecret(dhs, header.dh);
      ckr := Some(Chain(rk, output));
      rk := Root(rk, output);
      dhs := pair;
      output := SharedSecret(dhs, header.dh);
      cks := Some(Chain(rk, output));
      rk := Root(rk, output);
      return Ok(());
    }

    method Decrypt(sealed: Sealed, base: Base, pair: nat) returns (result: Attempt<Payload>)
      requires Record().Valid()
      modifies this
      ensures match old(Record()).Decrypt(sealed, base, pair)
              case Ok((record, plaintext)) => result == Ok(plaintext) && Record() == record
              case Err(error) => result == Err(error)
    {
      var id := SkippedId(sealed.header.dh, sealed.header.n);
      var aad := PacketAad(base, sealed.header);
      if id in skipped {
        var key := skipped[id];
        skipped := skipped - {id};
        return Open(key, aad, sealed.cipher);
      }
      if dhr != Some(sealed.header.dh) {
        var ratcheted := DhRatchet(sealed.header, pair);
        if ratcheted.Err? {
          return Err(ratcheted.error);
        }
      }
      var caughtUp := SkipKeys(sealed.header.n);
      if caughtUp.Err? {
        return Err(caughtUp.error);
      }
      if ckr.None? {
        return Err(NoReceivingChain);
      }
      var key := Message(ckr.value);
      ckr := Some(Next(ckr.value));
      nr := nr + 1;
      return Open(key, aad, sealed.cipher);
    }
  }
}
