/** Properties of the layer dispatcher, stated over the functions that say what one
    frame does (`MacStep`, `NetworkStep`, `ApsStep`, `ApsCommandStep`). */
module ParserProperties {
  import opened Types
  import opened Security
  import opened Parser

  /** How many decryptions at `tier` a trace records. */
  function Decryptions(trace: seq<Layer>, tier: Tier): nat {
    if trace == [] then 0
    else (if trace[0].Decryption? && trace[0].tier == tier then 1 else 0) + Decryptions(trace[1..], tier)
  }

  /** The standard network keys a trace shows being transported, in order. */
  function TransportedKeys(trace: seq<Layer>): seq<Key> {
    if trace == [] then []
    else
      (if trace[0].ApsCommandLayer? && TransportedKey(trace[0].apsCommand).Some?
       then [TransportedKey(trace[0].apsCommand).value] else []) + TransportedKeys(trace[1..])
  }

  lemma {:induction false} DecryptionsAppend(a: seq<Layer>, b: seq<Layer>, tier: Tier)
    ensures Decryptions(a + b, tier) == Decryptions(a, tier) + Decryptions(b, tier)
    decreases |a|
  {
    if a == [] {
      assert a + b == b;
    } else {
      assert (a + b)[1..] == a[1..] + b;
      DecryptionsAppend(a[1..], b, tier);
    }
  }

  lemma {:induction false} TransportedKeysAppend(a: seq<Layer>, b: seq<Layer>)
    ensures TransportedKeys(a + b) == TransportedKeys(a) + TransportedKeys(b)
    decreases |a|
  {
    if a == [] {
      assert a + b == b;
    } else {
      assert (a + b)[1..] == a[1..] + b;
      TransportedKeysAppend(a[1..], b);
    }
  }

  /** The layers a header contributes: itself and, when secured, its decryption. */
  function HeaderTrace(header: Layer, tier: Tier, secured: bool, work: seq<Byte>): seq<Layer> {
    [header] + DecryptionTrace(tier, secured, work)
  }

  lemma HeaderTraceFacts(header: Layer, tier: Tier, secured: bool, work: seq<Byte>)
    requires !header.ApsCommandLayer? && !header.Decryption?
    ensures TransportedKeys(HeaderTrace(header, tier, secured, work)) == []
    ensures Decryptions(HeaderTrace(header, tier, secured, work), tier) == if secured then 1 else 0
    ensures forall other :: other != tier ==> Decryptions(HeaderTrace(header, tier, secured, work), other) == 0
  {
    var rest := DecryptionTrace(tier, secured, work);
    SingleLayerFacts(header);
    TransportedKeysAppend([header], rest);
    forall other {
      DecryptionsAppend([header], rest, other);
    }
    if secured {
      SingleLayerFacts(rest[0]);
      assert rest == [rest[0]];
    }
  }

  /** A single layer shows at most one transported key and at most one decryption. */
  lemma SingleLayerFacts(layer: Layer)
    ensures |TransportedKeys([layer])| <= 1
    ensures TransportedKeys([layer]) == if layer.ApsCommandLayer? && TransportedKey(layer.apsCommand).Some?
                                        then [TransportedKey(layer.apsCommand).value] else []
    ensures forall tier :: Decryptions([layer], tier) == if layer.Decryption? && layer.tier == tier then 1 else 0
  {
    assert [layer][1..] == [];
  }

  // ---------------------------------------------------------------- where decoding stops

  /** Only a MAC Data frame is decoded further; every other content ends at the MAC
      layer and leaves the key store as it was. */
  lemma NetworkDecodedIffMacData(keys: seq<Key>, codec: Codec, cipher: Cipher, frame: MacFrame)
    requires CodecValid(codec)
    ensures MacStep(keys, codec, cipher, frame).trace[0] == MacLayer(frame.content)
    ensures |MacStep(keys, codec, cipher, frame).trace| > 1 <==> frame.content.Data?
    ensures !frame.content.Data? ==> MacStep(keys, codec, cipher, frame).keys == keys
  {
  }

  /** A network header that does not decode ends the frame there: no decryption, no
      deeper layer, the key store unchanged. */
  lemma NetworkHeaderFailureStops(keys: seq<Key>, codec: Codec, cipher: Cipher, payload: seq<Byte>)
    requires CodecValid(codec) && codec.networkHeader(payload).None?
    ensures NetworkStep(keys, codec, cipher, payload) == Step([NetworkHeaderError], keys)
  {
  }

  /** An unsecured network frame hands on exactly the payload after its header. */
  lemma UnsecuredPayloadPassesUnchanged(keys: seq<Key>, codec: Codec, cipher: Cipher, payload: seq<Byte>,
                                        header: NetworkHeader, used: nat)
    requires CodecValid(codec) && codec.networkHeader(payload) == Some((header, used)) && !header.security
    ensures used <= |payload|
    ensures var work := Processed(keys, codec, cipher, payload, header.security, used);
            work == payload[used..] && |work| == |payload| - used
    ensures used < |payload| && header.frameType.Command? ==>
            NetworkStep(keys, codec, cipher, payload).trace == [NetworkLayer(header)] + NetworkCommandTrace(codec, payload[used..])
  {
  }

  /** Nothing to hand on (failed decryption or an empty payload) ends the frame after
      the network layer, with the key store unchanged. */
  lemma EmptyWorkStops(keys: seq<Key>, codec: Codec, cipher: Cipher, payload: seq<Byte>,
                       header: NetworkHeader, used: nat)
    requires CodecValid(codec) && codec.networkHeader(payload) == Some((header, used))
    requires used <= |payload| && Processed(keys, codec, cipher, payload, header.security, used) == []
    ensures NetworkStep(keys, codec, cipher, payload) ==
            Step([NetworkLayer(header)] + DecryptionTrace(NetworkTier, header.security, []), keys)
  {
  }

  /** Fail closed at the network layer: when no key authenticates the frame, the trace
      ends with the failed decryption and no command or APS frame is decoded. */
  lemma NetworkDecryptionFailureStops(keys: seq<Key>, codec: Codec, cipher: Cipher, payload: seq<Byte>,
                                      header: NetworkHeader, used: nat)
    requires CodecValid(codec) && codec.networkHeader(payload) == Some((header, used)) && header.security
    requires used <= |payload| && !TrialDecrypt(keys, codec, cipher, payload, used).Decrypted?
    ensures NetworkStep(keys, codec, cipher, payload) ==
            Step([NetworkLayer(header), Decryption(NetworkTier, 0)], keys)
  {
  }

  /** Network commands go to the command decoder, which never touches the key store. */
  lemma NetworkCommandKeepsStore(keys: seq<Key>, codec: Codec, cipher: Cipher, payload: seq<Byte>,
                                 header: NetworkHeader, used: nat)
    requires CodecValid(codec) && codec.networkHeader(payload) == Some((header, used))
    requires header.frameType.Command?
    ensures NetworkStep(keys, codec, cipher, payload).keys == keys
    ensures TransportedKeys(NetworkStep(keys, codec, cipher, payload).trace) == []
  {
    var work := Processed(keys, codec, cipher, payload, header.security, used);
    var next := NetworkDispatch(keys, codec, cipher, header.frameType, work);
    HeaderTraceFacts(NetworkLayer(header), NetworkTier, header.security, work);
    if next.trace != [] {
      SingleLayerFacts(next.trace[0]);
      assert next.trace == [next.trace[0]];
    }
    TransportedKeysAppend(HeaderTrace(NetworkLayer(header), NetworkTier, header.security, work), next.trace);
  }

  /** Data and Inter-PAN network frames with something to hand on go to the APS decoder. */
  lemma NetworkDataGoesToAps(keys: seq<Key>, codec: Codec, cipher: Cipher, payload: seq<Byte>,
                             header: NetworkHeader, used: nat)
    requires CodecValid(codec) && codec.networkHeader(payload) == Some((header, used))
    requires !header.frameType.Command?
    requires used <= |payload| && Processed(keys, codec, cipher, payload, header.security, used) != []
    ensures var work := Processed(keys, codec, cipher, payload, header.security, used);
            NetworkStep(keys, codec, cipher, payload) ==
            Step([NetworkLayer(header)] + DecryptionTrace(NetworkTier, header.security, work) +
                 ApsStep(keys, codec, cipher, work).trace,
                 ApsStep(keys, codec, cipher, work).keys)
  {
  }

  // ---------------------------------------------------------------- the APS layer

  /** Data, Acknowledgement and Inter-PAN frames show the raw bytes after the APS
      header, even when those were decrypted, and never touch the key store. */
  lemma ApsNonCommandShowsRawBytes(keys: seq<Key>, codec: Codec, cipher: Cipher, payload: seq<Byte>,
                                   header: ApsHeader, used: nat)
    requires CodecValid(codec) && codec.apsHeader(payload) == Some((header, used))
    requires !header.frameType.Command?
    ensures used <= |payload|
    ensures ApsStep(keys, codec, cipher, payload).keys == keys
    ensures var trace := ApsStep(keys, codec, cipher, payload).trace;
            var work := Processed(keys, codec, cipher, payload, header.security, used);
            var head := [ApsLayer(header)] + DecryptionTrace(ApplicationTier, header.security, work);
            if header.frameType.Acknowledgement? && used == |payload| then trace == head
            else trace == head + [ApsPayload(header.frameType, payload[used..])]
  {
  }

  /** Fail closed at the APS layer: when a secured command frame does not decrypt, the
      command decoder is given no bytes at all. */
  lemma ApsDecryptionFailureExposesNothing(keys: seq<Key>, codec: Codec, cipher: Cipher, payload: seq<Byte>,
                                           header: ApsHeader, used: nat)
    requires CodecValid(codec) && codec.apsHeader(payload) == Some((header, used))
    requires header.security && header.frameType.Command?
    requires used <= |payload| && !TrialDecrypt(keys, codec, cipher, payload, used).Decrypted?
    ensures ApsStep(keys, codec, cipher, payload) ==
            Step([ApsLayer(header), Decryption(ApplicationTier, 0)] + ApsCommandStep(keys, codec, []).trace,
                 ApsCommandStep(keys, codec, []).keys)
  {
  }

  /** Of all APS commands, only a standard network key changes the store; the other
      five transport-key kinds are shown and dropped. */
  lemma OnlyStandardNetworkKeyLearned(keys: seq<Key>, codec: Codec, payload: seq<Byte>)
    ensures var step := ApsCommandStep(keys, codec, payload);
            step.keys == LearnAll(keys, TransportedKeys(step.trace))
    ensures var step := ApsCommandStep(keys, codec, payload);
            TransportedKeys(step.trace) != [] <==>
            codec.apsCommand(payload).Some? &&
            codec.apsCommand(payload).value.0.TransportKey? &&
            codec.apsCommand(payload).value.0.transport.StandardNetworkKey?
  {
    var step := ApsCommandStep(keys, codec, payload);
    assert step.trace[1..] == [];
    match codec.apsCommand(payload)
    case None =>
    case Some((command, _)) =>
      match TransportedKey(command)
      case None =>
      case Some(key) =>
        assert TransportedKeys(step.trace) == [key];
        assert [key][1..] == [];
  }

  // ---------------------------------------------------------------- whole frames

  lemma ApsDispatchLearning(keys: seq<Key>, codec: Codec, frameType: ApsFrameType, raw: seq<Byte>, work: seq<Byte>)
    ensures var next := ApsDispatch(keys, codec, frameType, raw, work);
            |next.trace| <= 1 && |TransportedKeys(next.trace)| <= 1 &&
            next.keys == LearnAll(keys, TransportedKeys(next.trace)) &&
            forall tier :: Decryptions(next.trace, tier) == 0
  {
    var next := ApsDispatch(keys, codec, frameType, raw, work);
    if frameType.Command? {
      OnlyStandardNetworkKeyLearned(keys, codec, work);
    }
    if next.trace != [] {
      SingleLayerFacts(next.trace[0]);
      assert next.trace == [next.trace[0]];
    }
  }

  lemma {:induction false} ApsStepLearning(keys: seq<Key>, codec: Codec, cipher: Cipher, payload: seq<Byte>)
    requires CodecValid(codec)
    ensures var step := ApsStep(keys, codec, cipher, payload);
            |TransportedKeys(step.trace)| <= 1 && step.keys == LearnAll(keys, TransportedKeys(step.trace))
  {
    match codec.apsHeader(payload)
    case None =>
      SingleLayerFacts(ApsHeaderError);
    case Some((header, used)) =>
      var work := Processed(keys, codec, cipher, payload, header.security, used);
      var next := ApsDispatch(keys, codec, header.frameType, payload[used..], work);
      HeaderTraceFacts(ApsLayer(header), ApplicationTier, header.security, work);
      ApsDispatchLearning(keys, codec, header.frameType, payload[used..], work);
      TransportedKeysAppend(HeaderTrace(ApsLayer(header), ApplicationTier, header.security, work), next.trace);
  }

  lemma {:induction false} NetworkStepLearning(keys: seq<Key>, codec: Codec, cipher: Cipher, payload: seq<Byte>)
    requires CodecValid(codec)
    ensures var step := NetworkStep(keys, codec, cipher, payload);
            |TransportedKeys(step.trace)| <= 1 && step.keys == LearnAll(keys, TransportedKeys(step.trace))
  {
    match codec.networkHeader(payload)
    case None =>
      SingleLayerFacts(NetworkHeaderError);
    case Some((header, used)) =>
      var work := Processed(keys, codec, cipher, payload, header.security, used);
      var next := NetworkDispatch(keys, codec, cipher, header.frameType, work);
      HeaderTraceFacts(NetworkLayer(header), NetworkTier, header.security, work);
      TransportedKeysAppend(HeaderTrace(NetworkLayer(header), NetworkTier, header.security, work), next.trace);
      if |work| == 0 {
        assert next == Step([], keys);
      } else if header.frameType.Command? {
        assert next == Step(NetworkCommandTrace(codec, work), keys);
        SingleLayerFacts(next.trace[0]);
        assert next.trace == [next.trace[0]];
      } else {
        assert next == ApsStep(keys, codec, cipher, work);
        ApsStepLearning(keys, codec, cipher, work);
      }
  }

  /** Over a whole frame, the key store changes only by learning the standard network
      keys the frame transported, and a frame transports at most one. */
  lemma {:induction false} StoreChangesOnlyByTransportedKeys(keys: seq<Key>, codec: Codec, cipher: Cipher, frame: MacFrame)
    requires CodecValid(codec)
    ensures var step := MacStep(keys, codec, cipher, frame);
            |TransportedKeys(step.trace)| <= 1 && step.keys == LearnAll(keys, TransportedKeys(step.trace))
  {
    SingleLayerFacts(MacLayer(frame.content));
    if frame.content.Data? {
      var network := NetworkStep(keys, codec, cipher, frame.payload);
      NetworkStepLearning(keys, codec, cipher, frame.payload);
      TransportedKeysAppend([MacLayer(frame.content)], network.trace);
    }
  }

  /** The frame runs the network-layer decryption when it reached a network header. */
  predicate NetworkSecured(codec: Codec, frame: MacFrame) {
    frame.content.Data? &&
    match codec.networkHeader(frame.payload)
    case None => false
    case Some((header, _)) => header.security
  }

  /** The frame reaches a secured APS header. */
  predicate ApsSecured(keys: seq<Key>, codec: Codec, cipher: Cipher, frame: MacFrame)
    requires CodecValid(codec)
  {
    frame.content.Data? &&
    match codec.networkHeader(frame.payload)
    case None => false
    case Some((header, used)) =>
      var work := Processed(keys, codec, cipher, frame.payload, header.security, used);
      work != [] && !header.frameType.Command? &&
      match codec.apsHeader(work)
      case None => false
      case Some((aps, _)) => aps.security
  }

  lemma {:induction false} ApsStepDecryptions(keys: seq<Key>, codec: Codec, cipher: Cipher, payload: seq<Byte>)
    requires CodecValid(codec)
    ensures var trace := ApsStep(keys, codec, cipher, payload).trace;
            Decryptions(trace, NetworkTier) == 0 &&
            Decryptions(trace, ApplicationTier) ==
              match codec.apsHeader(payload)
              case None => 0
              case Some((aps, _)) => if aps.security then 1 else 0
  {
    match codec.apsHeader(payload)
    case None =>
      SingleLayerFacts(ApsHeaderError);
    case Some((header, used)) =>
      var work := Processed(keys, codec, cipher, payload, header.security, used);
      var next := ApsDispatch(keys, codec, header.frameType, payload[used..], work);
      var head := HeaderTrace(ApsLayer(header), ApplicationTier, header.security, work);
      HeaderTraceFacts(ApsLayer(header), ApplicationTier, header.security, work);
      ApsDispatchLearning(keys, codec, header.frameType, payload[used..], work);
      DecryptionsAppend(head, next.trace, NetworkTier);
      DecryptionsAppend(head, next.trace, ApplicationTier);
  }

  lemma {:induction false} NetworkStepDecryptions(keys: seq<Key>, codec: Codec, cipher: Cipher, payload: seq<Byte>)
    requires CodecValid(codec)
    ensures var trace := NetworkStep(keys, codec, cipher, payload).trace;
            Decryptions(trace, NetworkTier) ==
              (match codec.networkHeader(payload)
               case None => 0
               case Some((header, _)) => if header.security then 1 else 0) &&
            Decryptions(trace, ApplicationTier) ==
              match codec.networkHeader(payload)
              case None => 0
              case Some((header, used)) =>
                var work := Processed(keys, codec, cipher, payload, header.security, used);
                if work != [] && !header.frameType.Command? && codec.apsHeader(work).Some? &&
                   codec.apsHeader(work).value.0.security
                then 1 else 0
  {
    match codec.networkHeader(payload)
    case None =>
      SingleLayerFacts(NetworkHeaderError);
    case Some((header, used)) =>
      var work := Processed(keys, codec, cipher, payload, header.security, used);
      var next := NetworkDispatch(keys, codec, cipher, header.frameType, work);
      var head := HeaderTrace(NetworkLayer(header), NetworkTier, header.security, work);
      HeaderTraceFacts(NetworkLayer(header), NetworkTier, header.security, work);
      DecryptionsAppend(head, next.trace, NetworkTier);
      DecryptionsAppend(head, next.trace, ApplicationTier);
      if |work| == 0 {
      } else if header.frameType.Command? {
        SingleLayerFacts(next.trace[0]);
        assert next.trace == [next.trace[0]];
      } else {
        ApsStepDecryptions(keys, codec, cipher, work);
      }
  }

  /** Each layer runs the trial decryption exactly when its own header is secured: at
      most once for the network layer and once for the APS layer, independently. */
  lemma {:induction false} DecryptionPerLayer(keys: seq<Key>, codec: Codec, cipher: Cipher, frame: MacFrame)
    requires CodecValid(codec)
    ensures Decryptions(MacStep(keys, codec, cipher, frame).trace, NetworkTier) ==
            if NetworkSecured(codec, frame) then 1 else 0
    ensures Decryptions(MacStep(keys, codec, cipher, frame).trace, ApplicationTier) ==
            if ApsSecured(keys, codec, cipher, frame) then 1 else 0
  {
    SingleLayerFacts(MacLayer(frame.content));
    if frame.content.Data? {
      var network := NetworkStep(keys, codec, cipher, frame.payload);
      NetworkStepDecryptions(keys, codec, cipher, frame.payload);
      DecryptionsAppend([MacLayer(frame.content)], network.trace, NetworkTier);
      DecryptionsAppend([MacLayer(frame.content)], network.trace, ApplicationTier);
    }
  }

  /** Fail closed for the key store: a secured APS frame that no key decrypts leaves
      the store as it was, whatever its frame type, since a command decoded from no
      bytes does not exist. */
  lemma ApsDecryptionFailureKeepsStore(keys: seq<Key>, codec: Codec, cipher: Cipher, payload: seq<Byte>,
                                       header: ApsHeader, used: nat)
    requires CodecValid(codec) && codec.apsHeader(payload) == Some((header, used)) && header.security
    requires used <= |payload| && !TrialDecrypt(keys, codec, cipher, payload, used).Decrypted?
    ensures ApsStep(keys, codec, cipher, payload).keys == keys
  {
  }

  // ---------------------------------------------------------------- backend calls

  lemma LayerCallsFacts(keys: seq<Key>, codec: Codec, cipher: Cipher, payload: seq<Byte>, secured: bool, used: nat)
    requires used <= |payload|
    ensures |LayerCalls(keys, codec, cipher, payload, secured, used)| <= if secured then |keys| else 0
    ensures forall c :: c in LayerCalls(keys, codec, cipher, payload, secured, used) ==>
              c.key in keys && c.level == TrialLevel
  {
  }

  /** The cipher backend is only ever tried with stored keys at the fixed trial level,
      and at most once per stored key for each layer whose own header is secured: an
      unsecured frame never reaches it. */
  lemma BackendCallsPerLayer(keys: seq<Key>, codec: Codec, cipher: Cipher, frame: MacFrame)
    requires CodecValid(codec)
    ensures forall c :: c in MacCalls(keys, codec, cipher, frame) ==> c.key in keys && c.level == TrialLevel
    ensures |MacCalls(keys, codec, cipher, frame)| <=
            (if NetworkSecured(codec, frame) then |keys| else 0) +
            (if ApsSecured(keys, codec, cipher, frame) then |keys| else 0)
  {
    if frame.content.Data? {
      match codec.networkHeader(frame.payload)
      case None =>
      case Some((header, used)) =>
        var work := Processed(keys, codec, cipher, frame.payload, header.security, used);
        var own := LayerCalls(keys, codec, cipher, frame.payload, header.security, used);
        LayerCallsFacts(keys, codec, cipher, frame.payload, header.security, used);
        if work != [] && !header.frameType.Command? {
          match codec.apsHeader(work)
          case None =>
            assert MacCalls(keys, codec, cipher, frame) == own + [];
          case Some((aps, apsUsed)) =>
            var inner := LayerCalls(keys, codec, cipher, work, aps.security, apsUsed);
            LayerCallsFacts(keys, codec, cipher, work, aps.security, apsUsed);
            assert MacCalls(keys, codec, cipher, frame) == own + inner;
        } else {
          assert MacCalls(keys, codec, cipher, frame) == own + [];
        }
    }
  }
}
