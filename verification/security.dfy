/** The key store of the sniffer, its trial decryption and its learning of transported
    network keys (`SecurityService`). The pure functions say what the store and a
    decryption attempt are; the class holds the store as a field and its methods are
    proved against those functions. */
module Security {
  import opened Types

  /** The store is a `heapless::Vec<Key, 16>`. */
  const Capacity: nat := 16

  /** Every trial decryption uses this level, whatever the security header declares. */
  const TrialLevel: SecurityLevel := EncryptedIntegrity32

  // ---------------------------------------------------------------- the store

  /** `heapless::Vec::push` whose error is ignored: the key is appended while there is
      room and silently dropped once the store is full. */
  function Push(keys: seq<Key>, key: Key): (r: seq<Key>)
    ensures keys <= r && |r| <= |keys| + 1
    ensures |keys| <= Capacity ==> |r| <= Capacity
    ensures |r| == |keys| + 1 <==> |keys| < Capacity
    ensures |r| == |keys| + 1 ==> r[|keys|] == key
  {
    if |keys| < Capacity then keys + [key] else keys
  }

  /** The store after a standard network key `key` was transported: an equal key
      already stored leaves it as it is, otherwise `key` is pushed. */
  function Learn(keys: seq<Key>, key: Key): (r: seq<Key>)
    ensures keys <= r && |r| <= |keys| + 1
    ensures |keys| <= Capacity ==> |r| <= Capacity
    ensures key in r <==> key in keys || |keys| < Capacity
    ensures |r| == |keys| + 1 <==> key !in keys && |keys| < Capacity
  {
    if key in keys then keys else Push(keys, key)
  }

  /** The store after a run of observed transported keys, in order. */
  function LearnAll(keys: seq<Key>, observed: seq<Key>): seq<Key>
    decreases |observed|
  {
    if observed == [] then keys else LearnAll(Learn(keys, observed[0]), observed[1..])
  }

  /** `n` observations of the same key. */
  function Copies(key: Key, n: nat): seq<Key> {
    if n == 0 then [] else [key] + Copies(key, n - 1)
  }

  /** Learning one key twice gives the store learning it once gives. */
  lemma LearnIdempotent(keys: seq<Key>, key: Key)
    ensures Learn(Learn(keys, key), key) == Learn(keys, key)
  {
  }

  /** Any positive number of observations of the same key gives the store a single
      observation gives. */
  lemma {:induction false} LearnCopies(keys: seq<Key>, key: Key, n: nat)
    requires n >= 1
    ensures LearnAll(keys, Copies(key, n)) == Learn(keys, key)
    decreases n
  {
    if n == 1 {
      assert Copies(key, 1)[1..] == [];
    } else {
      assert Copies(key, n)[1..] == Copies(key, n - 1);
      LearnCopies(Learn(keys, key), key, n - 1);
      LearnIdempotent(keys, key);
    }
  }

  /** However many keys are observed, the store stays within its capacity and every
      entry it held keeps its position. */
  lemma {:induction false} LearnAllKeepsStore(keys: seq<Key>, observed: seq<Key>)
    requires |keys| <= Capacity
    ensures |LearnAll(keys, observed)| <= Capacity
    ensures keys <= LearnAll(keys, observed)
    decreases |observed|
  {
    if observed != [] {
      LearnAllKeepsStore(Learn(keys, observed[0]), observed[1..]);
    }
  }

  // ---------------------------------------------------------------- trial decryption

  /** True when trying `key` authenticates a non-empty plaintext. */
  predicate Yields(cipher: Cipher, key: Key, payload: seq<Byte>, offset: nat) {
    var result := cipher(key, TrialLevel, payload, offset);
    result.Ok? && |result.value| > 0
  }

  /** The lowest index at or after `from` whose key yields a plaintext. */
  function FirstKey(keys: seq<Key>, cipher: Cipher, payload: seq<Byte>, offset: nat, from: nat): (r: Option<nat>)
    ensures r.Some? ==> from <= r.value < |keys| && Yields(cipher, keys[r.value], payload, offset)
    ensures r.Some? ==> forall i :: from <= i < r.value ==> !Yields(cipher, keys[i], payload, offset)
    ensures r.None? <==> forall i :: from <= i < |keys| ==> !Yields(cipher, keys[i], payload, offset)
    decreases |keys| - from
  {
    if from >= |keys| then None
    else if Yields(cipher, keys[from], payload, offset) then Some(from)
    else FirstKey(keys, cipher, payload, offset, from + 1)
  }

  datatype DecryptOutcome =
    | HeaderMalformed
    | NoValidKey
    | Decrypted(keyIndex: nat, plaintext: seq<Byte>)
  {
    /** The bytes handed to the next layer: nothing unless a key authenticated. */
    function Bytes(): seq<Byte> {
      if Decrypted? then plaintext else []
    }
  }

  /** One decryption attempt of the frame `payload` whose security header starts at
      `offset`, against the store `keys`. */
  function TrialDecrypt(keys: seq<Key>, codec: Codec, cipher: Cipher, payload: seq<Byte>, offset: nat): (r: DecryptOutcome)
    requires offset <= |payload|
    ensures r.HeaderMalformed? <==> codec.securityHeader(payload[offset..]).None?
    ensures r.NoValidKey? <==> codec.securityHeader(payload[offset..]).Some? &&
                               forall i :: 0 <= i < |keys| ==> !Yields(cipher, keys[i], payload, offset)
    ensures r.Decrypted? ==> r.keyIndex < |keys| && |r.plaintext| > 0 &&
                             cipher(keys[r.keyIndex], TrialLevel, payload, offset) == Ok(r.plaintext)
    ensures r.Decrypted? ==> forall i :: 0 <= i < r.keyIndex ==> !Yields(cipher, keys[i], payload, offset)
  {
    match codec.securityHeader(payload[offset..])
    case None => HeaderMalformed
    case Some(_) =>
      match FirstKey(keys, cipher, payload, offset, 0)
      case None => NoValidKey
      case Some(j) => Decrypted(j, cipher(keys[j], TrialLevel, payload, offset).value)
  }

  /** Nothing reaches the next layer exactly when the security header is malformed or
      no stored key authenticates a non-empty plaintext. */
  lemma DecryptEmptyIff(keys: seq<Key>, codec: Codec, cipher: Cipher, payload: seq<Byte>, offset: nat)
    requires offset <= |payload|
    ensures TrialDecrypt(keys, codec, cipher, payload, offset).Bytes() == [] <==>
            codec.securityHeader(payload[offset..]).None? ||
            forall i :: 0 <= i < |keys| ==> !Yields(cipher, keys[i], payload, offset)
  {
  }

  /** The outcome depends on the security header only through whether it parses: the
      level it declares (or any other field) changes nothing. */
  lemma DecryptIgnoresDeclaredHeader(keys: seq<Key>, codec1: Codec, codec2: Codec, cipher: Cipher,
                                     payload: seq<Byte>, offset: nat)
    requires offset <= |payload|
    requires codec1.securityHeader(payload[offset..]).Some? == codec2.securityHeader(payload[offset..]).Some?
    ensures TrialDecrypt(keys, codec1, cipher, payload, offset) == TrialDecrypt(keys, codec2, cipher, payload, offset)
  {
  }

  /** Decryption succeeds exactly when the security header parses and some stored key,
      wherever it sits, authenticates a non-empty plaintext. */
  lemma DecryptedIffSomeKeyYields(keys: seq<Key>, codec: Codec, cipher: Cipher, payload: seq<Byte>, offset: nat)
    requires offset <= |payload|
    ensures TrialDecrypt(keys, codec, cipher, payload, offset).Decrypted? <==>
            codec.securityHeader(payload[offset..]).Some? &&
            exists k :: k in keys && Yields(cipher, k, payload, offset)
  {
    var r := TrialDecrypt(keys, codec, cipher, payload, offset);
    if r.Decrypted? {
      assert keys[r.keyIndex] in keys;
    } else if codec.securityHeader(payload[offset..]).Some? {
      forall k | k in keys
        ensures !Yields(cipher, k, payload, offset)
      {
        var i :| 0 <= i < |keys| && keys[i] == k;
      }
    }
  }

  /** Whether decryption succeeds depends only on which keys are stored, not on their
      order; the order only decides which index is reported. */
  lemma DecryptSuccessIgnoresOrder(keys1: seq<Key>, keys2: seq<Key>, codec: Codec, cipher: Cipher,
                                   payload: seq<Byte>, offset: nat)
    requires offset <= |payload|
    requires forall k :: k in keys1 <==> k in keys2
    ensures TrialDecrypt(keys1, codec, cipher, payload, offset).Decrypted? <==>
            TrialDecrypt(keys2, codec, cipher, payload, offset).Decrypted?
  {
    DecryptedIffSomeKeyYields(keys1, codec, cipher, payload, offset);
    DecryptedIffSomeKeyYields(keys2, codec, cipher, payload, offset);
  }

  /** A transported key that is new, and the only one that authenticates a frame, makes
      that frame decrypt at the index it was appended at, provided there was room. */
  lemma LearnedKeyDecrypts(keys: seq<Key>, key: Key, codec: Codec, cipher: Cipher, payload: seq<Byte>, offset: nat)
    requires offset <= |payload| && codec.securityHeader(payload[offset..]).Some?
    requires |keys| < Capacity && key !in keys
    requires forall i :: 0 <= i < |keys| ==> !Yields(cipher, keys[i], payload, offset)
    requires Yields(cipher, key, payload, offset)
    ensures TrialDecrypt(Learn(keys, key), codec, cipher, payload, offset) ==
            Decrypted(|keys|, cipher(key, TrialLevel, payload, offset).value)
  {
    var learnt := Learn(keys, key);
    assert learnt == keys + [key];
    var r := TrialDecrypt(learnt, codec, cipher, payload, offset);
    assert !r.NoValidKey? by {
      assert learnt[|keys|] == key;
    }
  }

  /** On a full store the same key is dropped, and the frame stays undecipherable. */
  lemma LearnedKeyLostWhenFull(keys: seq<Key>, key: Key, codec: Codec, cipher: Cipher, payload: seq<Byte>, offset: nat)
    requires offset <= |payload| && codec.securityHeader(payload[offset..]).Some?
    requires |keys| == Capacity && key !in keys
    requires forall i :: 0 <= i < |keys| ==> !Yields(cipher, keys[i], payload, offset)
    ensures TrialDecrypt(Learn(keys, key), codec, cipher, payload, offset) == NoValidKey
  {
  }

  /** One call of the cipher backend, as recorded by `Decrypt`. */
  datatype CipherCall = CipherCall(key: Key, level: SecurityLevel, offset: nat)

  /** The backend calls one trial decryption makes: none on a malformed security header,
      otherwise the stored keys in order at `TrialLevel`, up to the first that yields. */
  ghost function TrialCalls(keys: seq<Key>, codec: Codec, cipher: Cipher, payload: seq<Byte>, offset: nat): (r: seq<CipherCall>)
    requires offset <= |payload|
    ensures |r| <= |keys|
    ensures forall c :: c in r ==> c.key in keys && c.level == TrialLevel && c.offset == offset
  {
    var n := match TrialDecrypt(keys, codec, cipher, payload, offset)
             case HeaderMalformed => 0
             case NoValidKey => |keys|
             case Decrypted(j, _) => j + 1;
    seq(n, i requires 0 <= i < n && i < |keys| => CipherCall(keys[i], TrialLevel, offset))
  }

  // ---------------------------------------------------------------- the service

  class SecurityService {
    var keys: seq<Key>
    const codec: Codec
    const cipher: Cipher

    ghost predicate Valid()
      reads this
    {
      |keys| <= Capacity
    }

    /** A store holding the default link key only. */
    constructor (codec: Codec, cipher: Cipher)
      ensures Valid() && keys == [DefaultLinkKey]
      ensures this.codec == codec && this.cipher == cipher
    {
      keys := [DefaultLinkKey];
      this.codec := codec;
      this.cipher := cipher;
    }

    /** Trial decryption of the frame `payload` whose security header starts at
        `offset`: the plaintext of the first key that authenticates one is written to
        `output` and its length returned; 0 means nothing was decrypted. `calls`
        records the backend calls made. */
    method Decrypt(payload: seq<Byte>, offset: nat, output: array<Byte>) returns (size: nat, ghost calls: seq<CipherCall>)
      requires offset <= |payload|
      requires FitsBuffer(cipher, output.Length)
      modifies output
      ensures size == |TrialDecrypt(keys, codec, cipher, payload, offset).Bytes()|
      ensures size <= output.Length
      ensures output[..size] == TrialDecrypt(keys, codec, cipher, payload, offset).Bytes()
      ensures codec.securityHeader(payload[offset..]).None? ==> calls == []
      ensures |calls| <= |keys|
      ensures forall i :: 0 <= i < |calls| ==> calls[i] == CipherCall(keys[i], TrialLevel, offset)
      ensures TrialDecrypt(keys, codec, cipher, payload, offset).NoValidKey? ==> |calls| == |keys|
      ensures TrialDecrypt(keys, codec, cipher, payload, offset).Decrypted? ==>
              |calls| == TrialDecrypt(keys, codec, cipher, payload, offset).keyIndex + 1
      ensures calls == TrialCalls(keys, codec, cipher, payload, offset)
    {
      calls := [];
      if codec.securityHeader(payload[offset..]).None? {
        return 0, calls;
      }
      for keyIndex := 0 to |keys|
        invariant FirstKey(keys, cipher, payload, offset, 0) == FirstKey(keys, cipher, payload, offset, keyIndex)
        invariant |calls| == keyIndex
        invariant forall i :: 0 <= i < keyIndex ==> calls[i] == CipherCall(keys[i], TrialLevel, offset)
      {
        var result := cipher(keys[keyIndex], TrialLevel, payload, offset);
        calls := calls + [CipherCall(keys[keyIndex], TrialLevel, offset)];
        if result.Ok? && |result.value| > 0 {
          var plaintext := result.value;
          forall i | 0 <= i < |plaintext| {
            output[i] := plaintext[i];
          }
          return |plaintext|, calls;
        }
      }
      return 0, calls;
    }

    /** `add_key_bytes`: push the key made of `key`. */
    method AddKeyBytes(key: Block)
      requires Valid()
      modifies this
      ensures Valid()
      ensures keys == Push(old(keys), Key(key))
    {
      keys := Push(keys, Key(key));
    }

    /** `add_key`: push `key`, with no check for duplicates. */
    method AddKey(key: Key)
      requires Valid()
      modifies this
      ensures Valid()
      ensures keys == Push(old(keys), key)
    {
      keys := Push(keys, key);
    }

    /** `add_transport_key`: scan the store for the transported key and push it only
        when no equal key is stored. */
    method AddTransportKey(newKey: NetworkKey)
      requires Valid()
      modifies this
      ensures Valid()
      ensures keys == Learn(old(keys), newKey.key)
    {
      for i := 0 to |keys|
        invariant newKey.key !in keys[..i]
      {
        if keys[i] == newKey.key {
          return;
        }
      }
      assert keys[..|keys|] == keys;
      keys := Push(keys, newKey.key);
    }
  }
}
