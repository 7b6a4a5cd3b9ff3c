/** Symbolic keys, ciphertexts and the failure type of the browser Signal transport.

A key is the term that derives it: X25519 is an unordered pair of private-key ids, and HKDF, HMAC and random
bytes are constructors. A ciphertext carries the key and the associated data it was sealed under, and opens
exactly under those two. */
module Keys {
  import opened Wrappers

  datatype SignalError =
    | NoSendingChain | NoReceivingChain | SkipLimit | NotOpened
    | NoSessionNoPrekey | DeviceUnverified | BadPrekeySignature | UnknownSignedPrekey | UnknownOneTimePrekey
    | NoDevices | ApprovalRefused
    | NoPacketForDevice | GroupBinding | EnvelopeBinding | MembershipUnknown | MembershipMismatch | NotADistribution

  type Attempt<+T> = Result<T, SignalError>

  datatype Key =
    | Random(id: nat)
    | Dh(low: nat, high: nat)
    | Agreed(parts: seq<Key>)
    | Root(root: Key, output: Key)
    | Chain(root: Key, output: Key)
    | Message(chain: Key)
    | Next(chain: Key)
    | SentCopy(shared: Key)

  /** X25519 between two private-key ids; either owner computes it from the other's public half. */
  function SharedSecret(mine: nat, theirs: nat): Key {
    if mine <= theirs then Dh(mine, theirs) else Dh(theirs, mine)
  }

  /** The chain key after `steps` uses of the symmetric ratchet. */
  function Advance(chain: Key, steps: nat): Key {
    if steps == 0 then chain else Next(Advance(chain, steps - 1))
  }

  /** How many root-key steps separate a key from the agreed secret. */
  function RootDepth(key: Key): nat {
    match key
    case Root(root, _) => 1 + RootDepth(root)
    case _ => 0
  }

  lemma {:induction false} AdvanceAdds(chain: Key, first: nat, second: nat)
    ensures Advance(Advance(chain, first), second) == Advance(chain, first + second)
  {
    if second == 0 {
    } else {
      AdvanceAdds(chain, first, second - 1);
    }
  }

  /** Two positions of two chains hold the same key only if chain and position are the same. */
  lemma {:induction false} AdvanceInjective(chain: Key, steps: nat, other: Key, otherSteps: nat)
    requires !chain.Next? && !other.Next?
    requires Advance(chain, steps) == Advance(other, otherSteps)
    ensures chain == other && steps == otherSteps
  {
    if steps == 0 || otherSteps == 0 {
    } else {
      AdvanceInjective(chain, steps - 1, other, otherSteps - 1);
    }
  }

  const PROTOCOL := "itonami-signal-v1"

  /** What a packet is bound to besides its ratchet header. */
  datatype Base = Base(conversation: string, sender: string, senderDevice: string,
                       recipient: string, recipientDevice: string)

  datatype Header = Header(dh: nat, pn: int, n: int)

  datatype GroupHeader = GroupHeader(sessionId: string, epoch: nat, membership: string,
                                     senderDevice: string, counter: nat)

  datatype SelfHeader = SelfHeader(conversation: string, sender: string, device: string, ephemeral: nat)

  /** The authenticated data of the three kinds of ciphertext; `Canonical` shows that the texts determine them. */
  datatype Aad = PacketAad(base: Base, header: Header) | GroupAad(group: GroupHeader) | SelfAad(self: SelfHeader)

  /** What travels inside a pairwise packet: a message, or a group chain handed to one device. */
  datatype Payload =
    | Text(text: string)
    | SenderKey(conversation: string, epoch: nat, membership: string, senderDevice: string, counter: nat, chain: Key)

  datatype Cipher = Cipher(key: Key, aad: Aad, plaintext: Payload)

  /** AES-GCM: the plaintext comes back exactly under the key and the associated data of the sealing. */
  function Open(key: Key, aad: Aad, cipher: Cipher): Attempt<Payload> {
    if cipher.key == key && cipher.aad == aad then Ok(cipher.plaintext) else Err(NotOpened)
  }
}
