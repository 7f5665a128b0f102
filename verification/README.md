# Zigbee sniffer core: key store, trial decryption and layer dispatch

The sniffer listens to IEEE 802.15.4 frames, decodes them layer by layer
(MAC, Zigbee network layer NWK, application support layer APS) and decrypts
secured layers by trying every key it knows. Its key store starts with the
well-known default Trust Center link key. It can be seeded at start-up with a
configured network key given as 32 hex digits. It learns each new standard
network key carried in a decoded APS transport-key command, while the store
holds fewer than 16 keys.

The model has five modules:

- `Types`: bytes, keys, the decoded headers and commands, and the interfaces
  of the two collaborators whose code is not modelled. These are the frame
  codec (`Codec`, the `unpack` functions) and the AES-CCM* backend (`Cipher`).
- `Security` (`src/security.rs`): the key store as a sequence of at most 16
  keys. `Push`, `Learn` and `TrialDecrypt` say what the store and one
  decryption attempt are. The class `SecurityService` keeps the store in a
  field, and its methods are proved against those functions.
- `Parser` (`src/parser.rs`): what one frame does, as functions. `MacStep`,
  `NetworkStep`, `ApsStep` and `ApsCommandStep` give the layers the frame
  reaches, in dispatch order, and the key store afterwards. The class
  `Parser` decodes a frame step by step through the same decisions, with the
  256-byte work buffer of each layer, and is proved to produce exactly that
  step. `PrintKey` is the hex rendering of a key.
- `ParserProperties`: what the dispatcher guarantees over whole frames.
  - Only MAC Data frames go deeper.
  - A failed network-layer decryption ends the frame. A failed APS
    decryption gives the command decoder no bytes and leaves the key store
    unchanged, and non-command APS frames still show their raw bytes.
  - Non-command APS frames show the raw bytes.
  - The key store changes only by learning transported standard network keys.
  - Each layer decrypts exactly when its own header is secured.
- `Listener` (`examples/listener.rs`): `u8::from_str_radix` in base 16, and
  `key_from_str` in two forms. One is as written, including the panic of its
  string slicing. The other is the intended parse. The module also holds the
  imperative `KeyFromStr` and the start-up seeding.

Text is modelled as the bytes of its UTF-8 encoding, as Rust's `str::len` and
byte-range slicing see it.

## Model

| member | source | states |
|---|---|---|
| Security.Push | src/security.rs:93-95 | the store grows by exactly one key iff it held fewer than 16. The appended key is the one pushed. The old entries keep their positions, and the bound of 16 is kept |
| Security.Learn | src/security.rs:97-104 | after learning, the key is stored iff it already was or there was room. The store grows iff the key was new and there was room. Old entries and the bound are kept |
| Security.LearnIdempotent | src/security.rs:97-104 | learning the same key twice gives the store that learning it once gives |
| Security.LearnCopies | src/security.rs:97-104 | any positive number of repeats of one transported key gives the store that a single one gives |
| Security.LearnAllKeepsStore | src/security.rs:9 | whatever sequence of keys is learnt, the store stays within 16 entries and each earlier entry keeps its position |
| Security.FirstKey | src/security.rs:66-84 | the result is the lowest index from `from` whose key authenticates a non-empty plaintext. None iff no key from there does |
| Security.TrialDecrypt | src/security.rs:56-87 | malformed iff the security header does not parse. No valid key iff it parses and no stored key yields. On success: the key index, a non-empty plaintext equal to the backend's result at level EncryptedIntegrity32, and no earlier key yielding |
| Security.DecryptEmptyIff | src/security.rs:56-87 | the next layer gets nothing iff the header is malformed or no stored key authenticates a non-empty plaintext |
| Security.DecryptIgnoresDeclaredHeader | src/security.rs:57-70 | the outcome depends on the security header only through whether it parses. The declared level plays no part |
| Security.DecryptedIffSomeKeyYields | src/security.rs:66-86 | decryption succeeds iff the header parses and some stored key, at any position, yields a plaintext |
| Security.DecryptSuccessIgnoresOrder | src/security.rs:66-84 | two stores with the same keys in any order succeed on the same frames |
| Security.LearnedKeyDecrypts | src/security.rs:103 | a new key learnt with room to spare makes a frame that only it authenticates decrypt, at the index it was appended at |
| Security.LearnedKeyLostWhenFull | src/security.rs:103 | on a full store the new key is dropped and such a frame stays undecipherable |
| Security.TrialCalls | src/security.rs:66-84 | the backend calls of one trial decryption number at most the stored keys, and each uses a stored key, the level EncryptedIntegrity32 and the given offset |
| Security.SecurityService.constructor | src/security.rs:14-23 | the store holds the default link key only |
| Security.SecurityService.Decrypt | src/security.rs:56-87 | the returned size and the output prefix are the trial decryption's plaintext (0 and nothing on failure). The backend is called with the stored keys in order, at level EncryptedIntegrity32, up to the first that yields. It is called for every key when none yields, and never when the header is malformed. The calls are exactly `TrialCalls` |
| Security.SecurityService.AddKeyBytes | src/security.rs:89-91 | the store becomes `Push` of the key made of the 16 bytes |
| Security.SecurityService.AddKey | src/security.rs:93-95 | the store becomes `Push` of the key, with no duplicate check |
| Security.SecurityService.AddTransportKey | src/security.rs:97-104 | the store becomes `Learn` of the transported key. The scan returns early on an equal key |
| Parser.TransportedKey | src/parser.rs:94-104 | no contract of its own: ParserProperties.OnlyStandardNetworkKeyLearned states that only a standard network key is handed to the store |
| Parser.Processed | src/parser.rs:240-248 | no contract of its own: Parser.Parser.FillWorkBuffer is proved to fill the buffer with it, and ParserProperties.UnsecuredPayloadPassesUnchanged and ParserProperties.ApsDecryptionFailureExposesNothing state its two cases |
| Parser.NetworkCommandTrace | src/parser.rs:282-427 | no contract of its own: Parser.Parser.ParseNetworkCommand states that it reaches exactly one layer, never an APS command |
| Parser.ApsCommandStep | src/parser.rs:30-203 | no contract of its own: ParserProperties.OnlyStandardNetworkKeyLearned states that the store changes only by learning a transported standard network key |
| Parser.ApsDispatch | src/parser.rs:249-273 | no contract of its own: ParserProperties.ApsDispatchLearning and ParserProperties.ApsNonCommandShowsRawBytes state what each frame type does |
| Parser.ApsStep | src/parser.rs:204-280 | no contract of its own: ParserProperties.ApsStepLearning, ParserProperties.ApsStepDecryptions and ParserProperties.ApsDecryptionFailureExposesNothing state its properties |
| Parser.NetworkDispatch | src/parser.rs:490-499 | no contract of its own: ParserProperties.EmptyWorkStops, ParserProperties.NetworkCommandKeepsStore and ParserProperties.NetworkDataGoesToAps state its three branches |
| Parser.NetworkStep | src/parser.rs:429-505 | no contract of its own: ParserProperties.NetworkStepLearning, ParserProperties.NetworkStepDecryptions, ParserProperties.NetworkHeaderFailureStops and ParserProperties.NetworkDecryptionFailureStops state its properties |
| Parser.MacStep | src/parser.rs:507-652 | no contract of its own: ParserProperties.NetworkDecodedIffMacData, ParserProperties.StoreChangesOnlyByTransportedKeys and ParserProperties.DecryptionPerLayer state its properties |
| Parser.PrintKey | src/parser.rs:23-28 | no contract of its own: Listener.KeyTextRoundTrip states that its text parses back to the key |
| Parser.LayerCalls | src/parser.rs:240-248 | no contract of its own: a layer's backend calls, a trial decryption only when its header is secured; stated by ParserProperties.BackendCallsPerLayer |
| Parser.ApsCalls | src/parser.rs:204-280 | no contract of its own: the backend calls of an APS frame; stated by ParserProperties.BackendCallsPerLayer |
| Parser.NetworkCalls | src/parser.rs:429-505 | no contract of its own: the backend calls of a network frame, its own then those of the APS frame it hands on; stated by ParserProperties.BackendCallsPerLayer |
| Parser.MacCalls | src/parser.rs:507-652 | no contract of its own: the backend calls of a MAC frame; stated by ParserProperties.BackendCallsPerLayer |
| Parser.HexString | src/parser.rs:23-28 | two characters per byte, all ASCII |
| Parser.HexStringAt | src/parser.rs:23-28 | characters 2i and 2i+1 of the rendering are the two lower-case hex digits of byte i |
| Parser.Parser.constructor | src/parser.rs:17-21 | a parser over a fresh key store that holds the default link key only |
| Parser.Parser.ParseMac | src/parser.rs:507-652 | the layers reached and the new store are those of `MacStep` on the old store, and the backend calls made are `MacCalls` on the old store. The store invariant is kept |
| Parser.Parser.ParseNetworkFrame | src/parser.rs:429-505 | the layers reached and the new store are those of `NetworkStep` on the old store, and the backend calls made are `NetworkCalls` on the old store |
| Parser.Parser.DispatchNetwork | src/parser.rs:490-499 | the layers reached and the new store are those of `NetworkDispatch` on the old store. The backend is called only through the APS decoder of a non-empty Data or Inter-PAN buffer |
| Parser.Parser.ParseApsFrame | src/parser.rs:204-280 | the layers reached and the new store are those of `ApsStep` on the old store, and the backend calls made are `ApsCalls` on the old store |
| Parser.Parser.FillWorkBuffer | src/parser.rs:240-248 | the filled prefix of the 256-byte buffer is the decrypted plaintext when secured, otherwise the payload after the header. It never exceeds 256 bytes. The cipher backend is not called when the header is unsecured; when it is secured, it is called with the stored keys in order, up to the first that yields, or with all of them when none does, and not at all when the security header is malformed. The calls are exactly `LayerCalls` |
| Parser.Parser.HandleApsCommand | src/parser.rs:30-203 | the layers reached and the new store are those of `ApsCommandStep`, which learns only a standard network key |
| Parser.Parser.ParseNetworkCommand | src/parser.rs:282-427 | exactly one layer is reached, a network command or its error. It is never an APS command, so the store is not touched |
| ParserProperties.NetworkDecodedIffMacData | src/parser.rs:646-651 | the network layer is reached iff the MAC frame is Data. Other frames leave the store unchanged |
| ParserProperties.NetworkHeaderFailureStops | src/parser.rs:429-505 | a network header that does not decode ends the frame with the store unchanged |
| ParserProperties.UnsecuredPayloadPassesUnchanged | src/parser.rs:481-489 | an unsecured network frame hands on exactly the bytes after its header |
| ParserProperties.EmptyWorkStops | src/parser.rs:490-499 | when nothing is handed on, the frame ends after the network layer with the store unchanged |
| ParserProperties.NetworkDecryptionFailureStops | src/parser.rs:481-499 | a secured network frame that no key authenticates ends with its failed decryption |
| ParserProperties.NetworkCommandKeepsStore | src/parser.rs:495-497 | network command frames never change the store and transport no key |
| ParserProperties.NetworkDataGoesToAps | src/parser.rs:492-494 | Data and Inter-PAN frames with bytes to hand on reach the APS decoder with those bytes |
| ParserProperties.ApsNonCommandShowsRawBytes | src/parser.rs:249-273 | Data, Acknowledgement (when non-empty) and Inter-PAN frames show the raw bytes after the APS header, even when secured, and keep the store |
| ParserProperties.ApsDecryptionFailureExposesNothing | src/parser.rs:240-256 | a secured APS command that does not decrypt gives the command decoder no bytes |
| ParserProperties.ApsDecryptionFailureKeepsStore | src/parser.rs:240-257 | a secured APS frame that no key decrypts leaves the key store unchanged, whatever its frame type |
| ParserProperties.BackendCallsPerLayer | src/parser.rs:481-489 | over a MAC frame, the backend is tried only with stored keys at level EncryptedIntegrity32, and at most once per stored key for each layer whose own header is secured |
| ParserProperties.OnlyStandardNetworkKeyLearned | src/parser.rs:81-139 | an APS command changes the store only by learning the keys it transports. It transports one iff it is a transport-key command carrying a standard network key |
| ParserProperties.ApsDispatchLearning | src/parser.rs:249-273 | the APS frame-type dispatch changes the store only by learning what it transports, and decrypts nothing |
| ParserProperties.ApsStepLearning | src/parser.rs:204-280 | an APS frame changes the store only by learning what it transports, at most one key |
| ParserProperties.NetworkStepLearning | src/parser.rs:429-505 | a network frame changes the store only by learning what it transports, at most one key |
| ParserProperties.StoreChangesOnlyByTransportedKeys | src/parser.rs:507-652 | over a whole frame the new store is the old one after learning the transported standard network keys, of which there is at most one |
| ParserProperties.ApsStepDecryptions | src/parser.rs:240-248 | an APS frame runs exactly one application-tier decryption iff its header is secured, and no network-tier one |
| ParserProperties.NetworkStepDecryptions | src/parser.rs:481-489 | a network frame runs a network-tier decryption iff its header is secured. It runs an application-tier one iff the APS header it reaches is secured |
| ParserProperties.DecryptionPerLayer | src/parser.rs:481-489 | per MAC frame, each layer decrypts exactly when its own header is secured, independently of the other |
| Listener.Accumulate | examples/listener.rs:26 | no contract of its own: the checked base-16 accumulation of `u8::from_str_radix`, stated by Listener.TwoByteChunk |
| Listener.FromStrRadix16 | examples/listener.rs:26 | no contract of its own: `u8::from_str_radix(_, 16)` with its sign handling, stated by Listener.TwoByteChunk |
| Listener.KeyFromStrAsWritten | examples/listener.rs:19-33 | no contract of its own: `key_from_str` as written, related to the intended parse by Listener.KeyFromStrAsWrittenAgrees and shown to panic by Listener.MultibyteKeyTextPanics |
| Listener.ChunksAsWritten | examples/listener.rs:24-31 | no contract of its own: the chunk loop as written, related to the intended parse by Listener.ChunksAsWrittenAgree |
| Listener.DigitValue | examples/listener.rs:26 | a hex digit's value is below 16 |
| Listener.TwoByteChunk | examples/listener.rs:26-29 | a two-byte chunk parses iff it is two hex digits or `+` and one hex digit. Its value is their base-16 value |
| Listener.ParseKeyText | examples/listener.rs:19-33 | a key iff the text is 32 bytes and every two-byte chunk parses, with byte i the value of chunk i. Otherwise an error |
| Listener.KeyFromStr | examples/listener.rs:19-33 | the array filled chunk by chunk, with an early error return, gives exactly `ParseKeyText` |
| Listener.HexByteRoundTrip | examples/listener.rs:26 | the two hex digits `print_key` writes for a byte parse back to that byte |
| Listener.KeyTextRoundTrip | examples/listener.rs:19-33 | a key printed as hex parses back to the same key |
| Listener.ChunksAsWrittenAgree | examples/listener.rs:24-31 | the chunk loop as written either panics or agrees with `ParseKeyText`, and never panics on ASCII text |
| Listener.KeyFromStrAsWrittenAgrees | examples/listener.rs:19-33 | `key_from_str` as written either panics or agrees with `ParseKeyText`, and never panics on ASCII text |
| Listener.KeyTextRoundTripAsWritten | examples/listener.rs:19-33 | `key_from_str` as written parses a printed key back to the same key |
| Listener.MultibyteKeyTextPanics | examples/listener.rs:26 | the 32-byte text "0é" followed by 29 zeros makes `key_from_str` as written panic, where the intended parse gives an error |
| Listener.Start | examples/listener.rs:57-65 | a fresh parser whose store is the default link key followed by the configured key when its text parses, and the default link key alone otherwise |

## Left out

- Radio, executor, clocks and the receive loop of the listener are not modelled. Neither is the duplicate dispatcher in `src/main.rs`. The start-up key text is a parameter of `Start`.
- Log rendering is not modelled. This covers the header printers, `print_error`, the `defmt` lines and the line buffers. Header fields that are only rendered are dropped from the header datatypes.
- The frame codec is an abstract parameter standing for its `unpack` functions. `CodecValid` assumes that a decoded header never claims more bytes than it was given, and that no APS command decodes from zero bytes.
- The AES-CCM* backend is an abstract function of key, level, frame and offset. `FitsBuffer` assumes its plaintext fits the 256-byte output buffer. Nothing is claimed about what it writes to the buffer on a failed attempt.
- Parser.Parser.ParseNetworkFrame, Parser.Parser.ParseApsFrame: the precondition `NetworkFits` / `ApsFits` excludes an unsecured payload longer than 256 bytes after the header. There the copy into the work buffer panics, and that panic is not modelled.
- Parser.Parser.ParseMac and the step functions: the trace lists the layers in dispatch order. Log lines of an outer layer are sometimes emitted after those of an inner one, and that order is not kept.
- Parser.Parser.ParseNetworkCommand: the decoded command's fields are only rendered, so the trace records just the command kind.
- Listener.KeyFromStr, Listener.Start: these follow the intended parse `ParseKeyText`, not the code as written. On a 32-byte key text in which a two-byte slice ends inside a multi-byte character (such as `MultibyteKeyText`), the source panics at `examples/listener.rs:26`. There `KeyFromStr` returns an error and `Start` yields a store holding the default link key only. The panic is modelled only by `KeyFromStrAsWritten` (see Findings).
- The `Decryption` entries of a trace record that a layer called the trial decryption, and the size it returned. The cipher backend calls it made are ghost results of the parse methods (`MacCalls`, `NetworkCalls`, `ApsCalls`), not part of the trace.
- The value of the default link key is taken from its well-known definition ("ZigBeeAlliance09"). The crate that defines it is not part of this model.
- Key rendering is modelled as the byte text written (`PrintKey`), not as a `uWrite` writer.

## Findings

| source | as written | input that shows it | evidently intended | confidence | as-written member | corrected member |
|---|---|---|---|---|---|---|
| examples/listener.rs:26 | `&s[offset..offset + 2]` slices the key text by bytes, which panics when a slice end falls inside a multi-byte character | the 32-byte text "0é" followed by 29 '0' characters: byte 2 is inside "é" | a key text that is not 32 hex digits is rejected with `Err(())` | not executed | Listener.KeyFromStrAsWritten (shown by Listener.MultibyteKeyTextPanics) | Listener.ParseKeyText (used by Listener.KeyFromStr and Listener.Start) |
