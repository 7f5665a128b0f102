/** Values shared by the key store, the layer dispatcher and the start-up code of the
    sniffer: bytes and keys, the decoded headers and commands that the frame codec
    produces, and the interfaces of the two collaborators whose code is not part of
    this model (the frame codec of the psila_data crate and the AES-CCM* backend). */
module Types {

  type Byte = b: int | 0 <= b < 256

  datatype Option<T> = None | Some(value: T)

  /** A fallible result whose error carries nothing the callers look at. */
  datatype Result<T> = Ok(value: T) | Err

  /** A `[u8; 16]` array. */
  type Block = b: seq<Byte> | |b| == 16 witness seq(16, _ => 0)

  /** 128-bit symmetric key; equality is byte-wise. */
  datatype Key = Key(bytes: Block)

  /** The well-known default Trust Center link key of Zigbee, "ZigBeeAlliance09" in ASCII. */
  const DefaultLinkKey: Key :=
    Key([0x5A, 0x69, 0x67, 0x42, 0x65, 0x65, 0x41, 0x6C, 0x6C, 0x69, 0x61, 0x6E, 0x63, 0x65, 0x30, 0x39])

  // ---------------------------------------------------------------- security header

  datatype SecurityLevel =
    | NoProtection
    | Integrity32 | Integrity64 | Integrity128
    | Encrypted
    | EncryptedIntegrity32 | EncryptedIntegrity64 | EncryptedIntegrity128

  datatype KeyIdentifier = DataKey | NetworkKeyId | KeyTransport | KeyLoad

  /** The auxiliary security header in front of a protected payload. */
  datatype SecurityHeader = SecurityHeader(
    level: SecurityLevel,
    identifier: KeyIdentifier,
    source: Option<nat>,
    sequence: Option<nat>,
    counter: nat)

  // ---------------------------------------------------------------- IEEE 802.15.4 MAC

  /** The content kind of a decoded MAC frame; only Data carries a network-layer payload. */
  datatype MacContent =
    | Acknowledgement | Beacon | Data | Command | Multipurpose | FragOrFragAck | Extended

  datatype MacFrame = MacFrame(content: MacContent, payload: seq<Byte>)

  // ---------------------------------------------------------------- Zigbee NWK

  datatype NetworkFrameType = Data | Command | InterPan

  /** The network header fields the dispatcher decides on (the rest are only rendered). */
  datatype NetworkHeader = NetworkHeader(frameType: NetworkFrameType, security: bool)

  datatype NetworkCommand =
    | RouteRequest | RouteReply | NetworkStatus | Leave | RouteRecord
    | RejoinRequest | RejoinResponse | LinkStatus | NetworkReport | NetworkUpdate
    | EndDeviceTimeoutRequest | EndDeviceTimeoutResponse

  // ---------------------------------------------------------------- Zigbee APS

  datatype ApsFrameType = Data | Command | Acknowledgement | InterPan

  /** The APS header fields the dispatcher decides on (the rest are only rendered). */
  datatype ApsHeader = ApsHeader(frameType: ApsFrameType, security: bool)

  /** Payload of a transport-key command that carries a network key. */
  datatype NetworkKey = NetworkKey(key: Key, sequence: nat)

  datatype TransportKey =
    | TrustCenterMasterKey(key: Key)
    | StandardNetworkKey(network: NetworkKey)
    | ApplicationMasterKey(key: Key)
    | ApplicationLinkKey(key: Key)
    | UniqueTrustCenterLinkKey(key: Key)
    | HighSecurityNetworkKey(network: NetworkKey)

  datatype ApsCommand =
    | SymmetricKeyKeyEstablishment1 | SymmetricKeyKeyEstablishment2
    | SymmetricKeyKeyEstablishment3 | SymmetricKeyKeyEstablishment4
    | TransportKey(transport: TransportKey)
    | UpdateDevice | RemoveDevice | RequestKey | SwitchKey
    | EntityAuthenticationInitiatorChallenge | EntityAuthenticationResponderChallenge
    | EntityAuthenticationInitiatorMacAndData | EntityAuthenticationResponderMacAndData
    | Tunnel | VerifyKey | ConfirmKey

  // ---------------------------------------------------------------- collaborators

  /** The `unpack` functions of the frame codec: each yields the decoded value and the
      number of bytes it used, or fails. */
  datatype Codec = Codec(
    securityHeader: seq<Byte> -> Option<(SecurityHeader, nat)>,
    networkHeader: seq<Byte> -> Option<(NetworkHeader, nat)>,
    networkCommand: seq<Byte> -> Option<(NetworkCommand, nat)>,
    apsHeader: seq<Byte> -> Option<(ApsHeader, nat)>,
    apsCommand: seq<Byte> -> Option<(ApsCommand, nat)>)

  /** What the dispatcher relies on from the codec: a decoded header never claims more
      bytes than it was given (otherwise slicing the rest of the payload would panic), and
      an APS command cannot be decoded from no bytes at all. */
  ghost predicate CodecValid(codec: Codec) {
    (forall b :: codec.networkHeader(b).Some? ==> codec.networkHeader(b).value.1 <= |b|) &&
    (forall b :: codec.apsHeader(b).Some? ==> codec.apsHeader(b).value.1 <= |b|) &&
    codec.apsCommand([]).None?
  }

  /** The cipher backend's authenticated decryption: the key being tried, the protection
      level, the whole frame and the offset of the security header; the plaintext or an
      authentication failure. */
  type Cipher = (Key, SecurityLevel, seq<Byte>, nat) -> Result<seq<Byte>>

  /** The backend writes its plaintext into an output buffer of `n` bytes, so it never
      yields more than `n` bytes. */
  ghost predicate FitsBuffer(cipher: Cipher, n: nat) {
    forall k, l, p, o :: cipher(k, l, p, o).Ok? ==> |cipher(k, l, p, o).value| <= n
  }
}
