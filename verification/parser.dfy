/** The layer dispatcher of the sniffer (`Parser`): from a decoded IEEE 802.15.4 MAC
    frame down through the Zigbee network layer (NWK) and application support layer
    (APS), deciding at each layer whether to decrypt and which layer to decode next,
    and feeding transported standard network keys back into the key store.

    The functions below say what one frame does: the layers it reaches, in order, and
    the key store afterwards. Class `Parser` holds the key store and decodes a frame
    step by step through the same decisions; its methods are proved against the
    functions. */
module Parser {
  import opened Types
  import opened Security

  /** Size of the `[0u8; 256]` buffer each layer fills before handing it on. */
  const WorkBufferSize: nat := 256

  datatype Tier = NetworkTier | ApplicationTier

  /** What the dispatcher reaches while decoding a frame. */
  datatype Layer =
    | MacLayer(content: MacContent)
    | NetworkHeaderError
    | NetworkLayer(network: NetworkHeader)
    | Decryption(tier: Tier, size: nat)
    | NetworkCommandLayer(networkCommand: NetworkCommand)
    | NetworkCommandError
    | ApsHeaderError
    | ApsLayer(aps: ApsHeader)
    | ApsPayload(frameType: ApsFrameType, bytes: seq<Byte>)
    | ApsCommandLayer(apsCommand: ApsCommand)
    | ApsCommandError

  /** The layers a frame reached, and the key store after it. */
  datatype Step = Step(trace: seq<Layer>, keys: seq<Key>)

  /** The key an APS command hands to the key store: only a standard network key. */
  function TransportedKey(command: ApsCommand): Option<Key> {
    match command
    case TransportKey(StandardNetworkKey(network)) => Some(network.key)
    case _ => None
  }

  /** The bytes a layer hands on after its header of `used` bytes: the decrypted
      plaintext when the header's security flag is set, otherwise the rest of the
      payload as it is. */
  function Processed(keys: seq<Key>, codec: Codec, cipher: Cipher, payload: seq<Byte>, secured: bool, used: nat): seq<Byte>
    requires used <= |payload|
  {
    if secured then TrialDecrypt(keys, codec, cipher, payload, used).Bytes() else payload[used..]
  }

  /** The decryption a layer runs, with the size it produced, when its header is secured. */
  function DecryptionTrace(tier: Tier, secured: bool, work: seq<Byte>): seq<Layer> {
    if secured then [Decryption(tier, |work|)] else []
  }

  // ---------------------------------------------------------------- one frame, as functions

  /** `parse_network_command`: a network command is decoded and shown; nothing else. */
  function NetworkCommandTrace(codec: Codec, payload: seq<Byte>): seq<Layer> {
    match codec.networkCommand(payload)
    case None => [NetworkCommandError]
    case Some((command, _)) => [NetworkCommandLayer(command)]
  }

  /** `handle_application_service_command`. */
  function ApsCommandStep(keys: seq<Key>, codec: Codec, payload: seq<Byte>): Step {
    match codec.apsCommand(payload)
    case None => Step([ApsCommandError], keys)
    case Some((command, _)) =>
      Step([ApsCommandLayer(command)],
           match TransportedKey(command)
           case Some(key) => Learn(keys, key)
           case None => keys)
  }

  /** What an APS frame does after its header, by frame type: `raw` is the payload
      after the header, `work` the processed buffer. */
  function ApsDispatch(keys: seq<Key>, codec: Codec, frameType: ApsFrameType, raw: seq<Byte>, work: seq<Byte>): Step {
    match frameType
    case Data => Step([ApsPayload(ApsFrameType.Data, raw)], keys)
    case Command => ApsCommandStep(keys, codec, work)
    case Acknowledgement => Step(if raw == [] then [] else [ApsPayload(ApsFrameType.Acknowledgement, raw)], keys)
    case InterPan => Step([ApsPayload(ApsFrameType.InterPan, raw)], keys)
  }

  /** `parse_application_service_frame`. */
  function ApsStep(keys: seq<Key>, codec: Codec, cipher: Cipher, payload: seq<Byte>): Step
    requires CodecValid(codec)
  {
    match codec.apsHeader(payload)
    case None => Step([ApsHeaderError], keys)
    case Some((header, used)) =>
      var work := Processed(keys, codec, cipher, payload, header.security, used);
      var next := ApsDispatch(keys, codec, header.frameType, payload[used..], work);
      Step([ApsLayer(header)] + DecryptionTrace(ApplicationTier, header.security, work) + next.trace, next.keys)
  }

  /** What a network frame does with the processed buffer `work`: nothing when it is
      empty, otherwise a command goes to the network-command decoder, Data and
      Inter-PAN to the APS decoder. */
  function NetworkDispatch(keys: seq<Key>, codec: Codec, cipher: Cipher, frameType: NetworkFrameType, work: seq<Byte>): Step
    requires CodecValid(codec)
  {
    if |work| == 0 then Step([], keys)
    else
      match frameType
      case Command => Step(NetworkCommandTrace(codec, work), keys)
      case Data | InterPan => ApsStep(keys, codec, cipher, work)
  }

  /** `parse_network_frame`. */
  function NetworkStep(keys: seq<Key>, codec: Codec, cipher: Cipher, payload: seq<Byte>): Step
    requires CodecValid(codec)
  {
    match codec.networkHeader(payload)
    case None => Step([NetworkHeaderError], keys)
    case Some((header, used)) =>
      var work := Processed(keys, codec, cipher, payload, header.security, used);
      var next := NetworkDispatch(keys, codec, cipher, header.frameType, work);
      Step([NetworkLayer(header)] + DecryptionTrace(NetworkTier, header.security, work) + next.trace, next.keys)
  }

  /** `parse_802154_mac`. */
  function MacStep(keys: seq<Key>, codec: Codec, cipher: Cipher, frame: MacFrame): Step
    requires CodecValid(codec)
  {
    match frame.content
    case Data =>
      var network := NetworkStep(keys, codec, cipher, frame.payload);
      Step([MacLayer(frame.content)] + network.trace, network.keys)
    case _ => Step([MacLayer(frame.content)], keys)
  }

  // ---------------------------------------------------------------- backend calls of one frame

  /** The backend calls of a layer's work-buffer fill: a trial decryption when its
      header is secured, none otherwise. */
  ghost function LayerCalls(keys: seq<Key>, codec: Codec, cipher: Cipher, payload: seq<Byte>, secured: bool, used: nat): seq<CipherCall>
    requires used <= |payload|
  {
    if secured then TrialCalls(keys, codec, cipher, payload, used) else []
  }

  /** The backend calls an APS frame makes (the command handler makes none). */
  ghost function ApsCalls(keys: seq<Key>, codec: Codec, cipher: Cipher, payload: seq<Byte>): seq<CipherCall>
    requires CodecValid(codec)
  {
    match codec.apsHeader(payload)
    case None => []
    case Some((header, used)) => LayerCalls(keys, codec, cipher, payload, header.security, used)
  }

  /** The backend calls a network frame makes: its own, then those of the APS frame it
      hands on. The store is the same for both, since only an APS command changes it. */
  ghost function NetworkCalls(keys: seq<Key>, codec: Codec, cipher: Cipher, payload: seq<Byte>): seq<CipherCall>
    requires CodecValid(codec)
  {
    match codec.networkHeader(payload)
    case None => []
    case Some((header, used)) =>
      var work := Processed(keys, codec, cipher, payload, header.security, used);
      LayerCalls(keys, codec, cipher, payload, header.security, used) +
      (if work != [] && !header.frameType.Command? then ApsCalls(keys, codec, cipher, work) else [])
  }

  /** The backend calls a MAC frame makes. */
  ghost function MacCalls(keys: seq<Key>, codec: Codec, cipher: Cipher, frame: MacFrame): seq<CipherCall>
    requires CodecValid(codec)
  {
    if frame.content.Data? then NetworkCalls(keys, codec, cipher, frame.payload) else []
  }

  /** The unsecured path copies the rest of the payload into the work buffer, which
      must hold it (`copy_from_slice` panics otherwise). */
  predicate NetworkFits(codec: Codec, payload: seq<Byte>) {
    match codec.networkHeader(payload)
    case None => true
    case Some((header, used)) => header.security || |payload| - used <= WorkBufferSize
  }

  /** As `NetworkFits`, for the APS header. */
  predicate ApsFits(codec: Codec, payload: seq<Byte>) {
    match codec.apsHeader(payload)
    case None => true
    case Some((header, used)) => header.security || |payload| - used <= WorkBufferSize
  }

  // ---------------------------------------------------------------- key printing

  /** The lower-case ASCII hex digit of `d`. */
  function HexDigit(d: nat): Byte
    requires d < 16
  {
    if d < 10 then 0x30 + d else 0x61 + (d - 10)
  }

  /** `{:02x}` of one byte. */
  function HexByte(b: Byte): seq<Byte> {
    [HexDigit(b / 16), HexDigit(b % 16)]
  }

  /** The bytes printed as two lower-case hex digits each, in order. */
  function HexString(bytes: seq<Byte>): (text: seq<Byte>)
    ensures |text| == 2 * |bytes|
    ensures forall j :: 0 <= j < |text| ==> text[j] < 0x80
  {
    if bytes == [] then [] else HexByte(bytes[0]) + HexString(bytes[1..])
  }

  /** `print_key`: the 32 hex digits of a key. */
  function PrintKey(key: Key): seq<Byte> {
    HexString(key.bytes)
  }

  /** The two characters `print_key` writes for byte `i` are those of that byte. */
  lemma {:induction false} HexStringAt(bytes: seq<Byte>, i: nat)
    requires i < |bytes|
    ensures HexString(bytes)[2 * i..2 * i + 2] == HexByte(bytes[i])
  {
    if i > 0 {
      HexStringAt(bytes[1..], i - 1);
      assert HexString(bytes) == HexByte(bytes[0]) + HexString(bytes[1..]);
    }
  }

  // ---------------------------------------------------------------- the parser

  class Parser {
    const security: SecurityService
    const codec: Codec

    ghost predicate Valid()
      reads this, security
    {
      security.Valid() && security.codec == codec && CodecValid(codec) &&
      FitsBuffer(security.cipher, WorkBufferSize)
    }

    /** `Parser::new`: a parser whose key store holds the default link key only. */
    constructor (codec: Codec, cipher: Cipher)
      requires CodecValid(codec) && FitsBuffer(cipher, WorkBufferSize)
      ensures Valid() && fresh(security)
      ensures security.keys == [DefaultLinkKey] && security.cipher == cipher && this.codec == codec
    {
      this.codec := codec;
      security := new SecurityService(codec, cipher);
    }

    /** `parse_802154_mac`: only a Data frame goes on to the network layer. */
    method ParseMac(frame: MacFrame) returns (reached: seq<Layer>, ghost calls: seq<CipherCall>)
      requires Valid()
      requires frame.content.Data? ==> NetworkFits(codec, frame.payload)
      modifies security
      ensures Valid()
      ensures Step(reached, security.keys) == MacStep(old(security.keys), codec, security.cipher, frame)
      ensures calls == MacCalls(old(security.keys), codec, security.cipher, frame)
    {
      reached := [MacLayer(frame.content)];
      calls := [];
      match frame.content {
        case Data =>
          var network;
          network, calls := ParseNetworkFrame(frame.payload);
          reached := reached + network;
        case _ =>
      }
    }

    /** `parse_network_frame`. */
    method ParseNetworkFrame(payload: seq<Byte>) returns (reached: seq<Layer>, ghost calls: seq<CipherCall>)
      requires Valid() && NetworkFits(codec, payload)
      modifies security
      ensures Valid()
      ensures Step(reached, security.keys) == NetworkStep(old(security.keys), codec, security.cipher, payload)
      ensures calls == NetworkCalls(old(security.keys), codec, security.cipher, payload)
    {
      calls := [];
      match codec.networkHeader(payload) {
        case None =>
          reached := [NetworkHeaderError];
        case Some((header, used)) =>
          reached := [NetworkLayer(header)];
          var work;
          work, calls := FillWorkBuffer(payload, header.security, used);
          reached := reached + DecryptionTrace(NetworkTier, header.security, work);
          var next, nextCalls := DispatchNetwork(header.frameType, work);
          reached, calls := reached + next, calls + nextCalls;
      }
    }

    /** The tail of `parse_network_frame`: a non-empty work buffer goes to the command
        decoder or, for Data and Inter-PAN frames, to the APS decoder. */
    method DispatchNetwork(frameType: NetworkFrameType, work: seq<Byte>) returns (reached: seq<Layer>, ghost calls: seq<CipherCall>)
      requires Valid() && |work| <= WorkBufferSize
      modifies security
      ensures Valid()
      ensures Step(reached, security.keys) == NetworkDispatch(old(security.keys), codec, security.cipher, frameType, work)
      ensures calls == if work != [] && !frameType.Command? then ApsCalls(old(security.keys), codec, security.cipher, work) else []
    {
      reached, calls := [], [];
      if |work| > 0 {
        match frameType {
          case Command =>
            reached := ParseNetworkCommand(work);
          case Data =>
            reached, calls := ParseApsFrame(work);
          case InterPan =>
            reached, calls := ParseApsFrame(work);
        }
      }
    }

    /** `parse_application_service_frame`: the header's security flag decides whether to
        decrypt; only a Command frame hands the processed bytes on, the others show the
        raw bytes after the header. */
    method ParseApsFrame(payload: seq<Byte>) returns (reached: seq<Layer>, ghost calls: seq<CipherCall>)
      requires Valid() && ApsFits(codec, payload)
      modifies security
      ensures Valid()
      ensures Step(reached, security.keys) == ApsStep(old(security.keys), codec, security.cipher, payload)
      ensures calls == ApsCalls(old(security.keys), codec, security.cipher, payload)
    {
      calls := [];
      match codec.apsHeader(payload) {
        case None =>
          reached := [ApsHeaderError];
        case Some((header, used)) =>
          reached := [ApsLayer(header)];
          var work;
          work, calls := FillWorkBuffer(payload, header.security, used);
          reached := reached + DecryptionTrace(ApplicationTier, header.security, work);
          match header.frameType {
            case Data =>
              reached := reached + [ApsPayload(ApsFrameType.Data, payload[used..])];
            case Command =>
              var command := HandleApsCommand(work);
              reached := reached + command;
            case Acknowledgement =>
              if payload[used..] != [] {
                reached := reached + [ApsPayload(ApsFrameType.Acknowledgement, payload[used..])];
              }
            case InterPan =>
              reached := reached + [ApsPayload(ApsFrameType.InterPan, payload[used..])];
          }
      }
    }

    /** The work-buffer fill both layers share: a fresh `[0u8; 256]` buffer receives
        either the trial decryption of the frame from `used` on, or a copy of the payload
        after the header; the filled prefix is handed on. `calls` records the cipher
        backend calls: none unless the header is secured, and otherwise those of the
        trial decryption over the stored keys in order. */
    method FillWorkBuffer(payload: seq<Byte>, secured: bool, used: nat) returns (work: seq<Byte>, ghost calls: seq<CipherCall>)
      requires Valid() && used <= |payload|
      requires secured || |payload| - used <= WorkBufferSize
      ensures work == Processed(security.keys, codec, security.cipher, payload, secured, used)
      ensures |work| <= WorkBufferSize
      ensures !secured ==> calls == []
      ensures |calls| <= |security.keys|
      ensures secured ==> forall i :: 0 <= i < |calls| ==> calls[i] == CipherCall(security.keys[i], TrialLevel, used)
      ensures secured && TrialDecrypt(security.keys, codec, security.cipher, payload, used).NoValidKey? ==>
              |calls| == |security.keys|
      ensures secured && TrialDecrypt(security.keys, codec, security.cipher, payload, used).Decrypted? ==>
              |calls| == TrialDecrypt(security.keys, codec, security.cipher, payload, used).keyIndex + 1
      ensures secured && TrialDecrypt(security.keys, codec, security.cipher, payload, used).HeaderMalformed? ==>
              calls == []
      ensures calls == LayerCalls(security.keys, codec, security.cipher, payload, secured, used)
    {
      var processed := new Byte[WorkBufferSize](_ => 0);
      var length: nat;
      calls := [];
      if secured {
        length, calls := security.Decrypt(payload, used, processed);
      } else {
        length := |payload| - used;
        forall i | 0 <= i < length {
          processed[i] := payload[used + i];
        }
        assert processed[..length] == payload[used..];
      }
      work := processed[..length];
    }

    /** `handle_application_service_command`: only a standard network key reaches the
        key store. */
    method HandleApsCommand(payload: seq<Byte>) returns (reached: seq<Layer>)
      requires Valid()
      modifies security
      ensures Valid()
      ensures Step(reached, security.keys) == ApsCommandStep(old(security.keys), codec, payload)
    {
      match codec.apsCommand(payload) {
        case None =>
          reached := [ApsCommandError];
        case Some((command, _)) =>
          reached := [ApsCommandLayer(command)];
          match command {
            case TransportKey(StandardNetworkKey(network)) =>
              security.AddTransportKey(network);
            case _ =>
          }
      }
    }

    /** `parse_network_command`, which takes `&self`: it reads nothing and changes nothing. */
    method ParseNetworkCommand(payload: seq<Byte>) returns (reached: seq<Layer>)
      ensures reached == NetworkCommandTrace(codec, payload)
      ensures |reached| == 1 && !reached[0].ApsCommandLayer?
    {
      match codec.networkCommand(payload) {
        case None =>
          reached := [NetworkCommandError];
        case Some((command, _)) =>
          reached := [NetworkCommandLayer(command)];
      }
    }
  }
}
