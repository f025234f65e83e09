/** The parts of the Farcaster protocol messages (protobuf types of the hub
    API) that the program reads or builds. Getters on absent parts return
    zero values, as protobuf-generated Go getters do. */
module Farcaster {
  import opened Wrappers
  import opened Bytes

  /** Seconds between the Unix epoch and the Farcaster epoch,
      2021-01-01T00:00:00Z. */
  const FarcasterEpoch: int := 1609459200

  const TwoTo32: int := 0x1_0000_0000

  type uint32 = x: int | 0 <= x < 0x1_0000_0000

  /** Go's `uint32(x)` conversion of an int64: the low 32 bits. */
  function ToUint32(x: int): (r: uint32)
    ensures 0 <= x < TwoTo32 ==> r == x
  {
    x % TwoTo32
  }

  datatype Embed = UrlEmbed(url: string) | CastIdEmbed(castFid: nat, castHash: seq<byte>)

  /** Embed.GetUrl: the empty string for an embed that is not a URL. */
  function Url(e: Embed): string {
    if e.UrlEmbed? then e.url else ""
  }

  /** The URLs of a list of embeds, position by position. */
  function Urls(es: seq<Embed>): (us: seq<string>)
    ensures |us| == |es|
    ensures forall i :: 0 <= i < |es| ==> us[i] == Url(es[i])
  {
    if |es| == 0 then [] else [Url(es[0])] + Urls(es[1..])
  }

  datatype MessageType =
    | CastAdd | CastRemove | ReactionAdd | ReactionRemove | LinkAdd | LinkRemove
    | VerificationAdd | VerificationRemove | UserDataAdd | OtherType(code: nat)

  /** CastType(0) is a plain cast, CastType(1) a long cast. */
  datatype CastType = PlainCast | LongCast

  datatype CastAddBody = CastAddBody(
    text: string,
    mentions: seq<nat>,
    mentionsPositions: seq<nat>,
    embeds: seq<Embed>,
    castType: CastType)

  datatype Body =
    | AddBody(cast: CastAddBody)
    | LinkBody(linkType: string, targetFid: nat)
    | UserDataBody(value: string)
    | OtherBody

  datatype Network = Mainnet | Testnet | Devnet

  datatype MessageData = MessageData(
    msgType: MessageType,
    fid: nat,
    timestamp: uint32,
    network: Network,
    body: Body)

  datatype Message = Message(data: MessageData, hash: seq<byte>, signature: seq<byte>, signer: seq<byte>)

  const EmptyCastBody: CastAddBody := CastAddBody("", [], [], [], PlainCast)

  /** MessageData.GetCastAddBody, reading an absent body as the empty one. */
  function CastAddBodyOf(d: MessageData): CastAddBody {
    if d.body.AddBody? then d.body.cast else EmptyCastBody
  }

  /** MessageData.GetLinkBody().GetTargetFid() */
  function TargetFid(d: MessageData): nat {
    if d.body.LinkBody? then d.body.targetFid else 0
  }

  /** `fmt.Sprintf("0x%x", hash)`: the hash as the program prints and
      compares it. */
  function HashString(hash: seq<byte>): string {
    "0x" + HexEncode(hash)
  }

  datatype HubEventType = MergeMessage | PruneMessage | RevokeMessage | MergeOnChainEvent | OtherEvent

  /** One item of the hub's event stream; `message` is the merged message
      of a MERGE_MESSAGE event. */
  datatype HubEvent = HubEvent(eventType: HubEventType, message: Message)

  /** A BLAKE3 digest at its default length of 32 bytes. */
  type Digest = s: seq<byte> | |s| == 32 witness seq(32, _ => 0)

  /** The cryptography a message is built with, left uninterpreted:
      protobuf serialisation of the data, BLAKE3, Ed25519 public-key
      derivation from a 32-byte seed, and Ed25519 signing. */
  datatype Crypto = Crypto(
    serialize: MessageData -> seq<byte>,
    blake3: seq<byte> -> Digest,
    publicKey: seq<byte> -> seq<byte>,
    sign: (seq<byte>, seq<byte>) -> seq<byte>)

  /** The length of a Farcaster message hash. */
  const HashLength: nat := 20

  /** CreateMessage: the hash is the BLAKE3 digest of the serialised data
      cut to its first 20 bytes, signed with the private seed followed by
      the public key. */
  function CreateMessage(data: MessageData, seed: seq<byte>, crypto: Crypto): (m: Message)
    ensures m.data == data && |m.hash| == HashLength
    ensures m.hash == crypto.blake3(crypto.serialize(data))[..HashLength]
    ensures m.signer == crypto.publicKey(seed)
  {
    var hash := crypto.blake3(crypto.serialize(data))[..HashLength];
    var pub := crypto.publicKey(seed);
    Message(data, hash, crypto.sign(seed + pub, hash), pub)
  }

  /** The hub queries the program makes, as functions of their arguments. */
  datatype Hub = Hub(
    fidByUsername: string -> Result<nat>,
    submit: Message -> Result<Message>,
    getCast: (nat, seq<byte>) -> Result<Message>,
    castsByFid: (nat, nat, bool) -> Result<seq<Message>>,
    userData: (nat, string) -> Result<Message>,
    linksByFid: nat -> Result<seq<Message>>)
}
