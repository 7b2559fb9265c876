/** The token pipeline of package `encoder`:

      Encode: value -> JSON -> AES encrypt -> [gzip, best compression] -> base64url
      Decode: base64url -> [gunzip] -> AES decrypt -> JSON

    The JSON serializer, the AES cipher and the gzip compressor belong to
    other packages; the model receives them as a `Primitives` record of
    function values, and the round-trip laws they are expected to obey are
    the predicate `Lawful`. */
module Encoder {
  import opened Prelude
  import Base64Url

  /** `gzip.BestCompression`. */
  const BestCompression: int := 9

  /** The external collaborators of `Encode` and `Decode`, for values of type V.
      - marshal / unmarshal: `json.Marshal` / `json.Unmarshal`, which may fail;
      - encrypt: `aes.Encrypt(data, key)`, whose empty output means failure;
      - decrypt: `aes.Decrypt(data, key)`, which has no failure signal at all;
      - compress: a gzip writer at the given level, written, flushed and
        closed, whose errors are discarded by the caller;
      - decompress: `gzip.NewReader` followed by `ioutil.ReadAll`. */
  datatype Primitives<!V> = Primitives(
    marshal: V -> Result<seq<byte>, string>,
    unmarshal: seq<byte> -> Result<V, string>,
    encrypt: (seq<byte>, seq<byte>) -> seq<byte>,
    decrypt: (seq<byte>, seq<byte>) -> seq<byte>,
    compress: (seq<byte>, int) -> seq<byte>,
    decompress: seq<byte> -> Result<seq<byte>, string>)

  /** The round-trip laws of the collaborators: unmarshal inverts marshal,
      decryption with the same key inverts a successful encryption, and
      decompression inverts best-level compression. */
  ghost predicate Lawful<V(!new)>(p: Primitives<V>) {
    && (forall v :: p.marshal(v).Ok? ==> p.unmarshal(p.marshal(v).value) == Ok(v))
    && (forall x, k :: |p.encrypt(x, k)| > 0 ==> p.decrypt(p.encrypt(x, k), k) == x)
    && (forall x :: p.decompress(p.compress(x, BestCompression)) == Ok(x))
  }

  /** The errors `Encode` and `Decode` return. */
  datatype Error =
    | EncoderIsNil                                // errors.New("encoder is nil")
    | EncodeFail                                  // errors.New("encode fail")
    | Json(msg: string)                           // from json.Marshal / json.Unmarshal
    | Transport(e: Base64Url.CorruptInputError)   // from base64 decoding
    | Gzip(msg: string)                           // from the gzip reader
  {
    function Message(): string {
      match this
      case EncoderIsNil => "encoder is nil"
      case EncodeFail => "encode fail"
      case Json(m) => m
      // Go appends " at input byte N"; the offset is not modelled.
      case Transport(_) => "illegal base64 data"
      case Gzip(m) => m
    }
  }

  /** A construction option: the closure `WithGzip(gzip)` returns. */
  datatype Option = WithGzip(gzip: bool)

  /** The value of the `Gzip` field once the options have been applied in
      order to a field that started out as `gzip`: the last option wins. */
  function GzipAfter(gzip: bool, opts: seq<Option>): (r: bool)
    ensures opts == [] ==> r == gzip
    ensures opts != [] ==> r == opts[|opts| - 1].gzip
    decreases |opts|
  {
    if opts == [] then gzip else GzipAfter(opts[0].gzip, opts[1..])
  }

  class Config {
    /** Exported field `Gzip`, set by the options. */
    var gzip: bool
    /** Unexported field `salt`, the AES key; nothing assigns it after construction. */
    const salt: seq<byte>

    /** The struct literal `&Config{Gzip: false, salt: key}`. */
    constructor (key: seq<byte>)
      ensures gzip == false && salt == key
    {
      gzip := false;
      salt := key;
    }

    /** Calls an option closure on this configuration. */
    method Apply(opt: Option)
      modifies this
      ensures gzip == opt.gzip
    {
      match opt
      case WithGzip(g) => gzip := g;
    }

    /** `Encode`. A nil value is rejected before anything else; a JSON error
        and an empty ciphertext are the only other failures. Gzip errors are
        discarded by the source, so compression never fails here. */
    function Encode<V>(p: Primitives<V>, t: Nullable<V>): (r: Result<string, Error>)
      reads this
      ensures r.Ok? ==> Base64Url.IsToken(r.value)
      ensures r.Err? ==> r.error.EncoderIsNil? || r.error.Json? || r.error.EncodeFail?
    {
      if t.Nil? then Err(EncoderIsNil)
      else
        match p.marshal(t.value)
        case Err(m) => Err(Json(m))
        case Ok(data) =>
          var encrypted := p.encrypt(data, salt);
          if |encrypted| == 0 then Err(EncodeFail)
          else Ok(Base64Url.EncodeToString(Payload(p, encrypted)))
    }

    /** The bytes that are base64-encoded: the ciphertext, compressed at
        the best level when the configuration says so. */
    function Payload<V>(p: Primitives<V>, encrypted: seq<byte>): seq<byte>
      reads this
    {
      if gzip then p.compress(encrypted, BestCompression) else encrypted
    }

    /** `Decode`. The stages run in reverse order and the first error is
        returned. Decryption cannot fail, so every error comes from the
        transport, the gzip reader or JSON. */
    function Decode<V>(p: Primitives<V>, str: string): (r: Result<V, Error>)
      reads this
      ensures r.Err? ==> r.error.Transport? || r.error.Gzip? || r.error.Json?
    {
      match Base64Url.DecodeString(str)
      case Err(e) => Err(Transport(e))
      case Ok(data) =>
        match (if gzip then p.decompress(data) else Ok(data))
        case Err(m) => Err(Gzip(m))
        case Ok(plain) =>
          match p.unmarshal(p.decrypt(plain, salt))
          case Err(m) => Err(Json(m))
          case Ok(v) => Ok(v)
    }
  }

  /** `New`: a configuration holding the key, with the options applied in call order. */
  method New(key: seq<byte>, opts: seq<Option>) returns (conf: Config)
    ensures fresh(conf)
    ensures conf.salt == key && conf.gzip == GzipAfter(false, opts)
  {
    conf := new Config(key);
    for i := 0 to |opts|
      invariant conf.salt == key
      invariant conf.gzip == GzipAfter(false, opts[..i])
    {
      conf.Apply(opts[i]);
    }
    assert opts[..|opts|] == opts;
  }

  // ---------------------------------------------------------------------
  // Properties

  /** With no options, compression is off; otherwise the last `WithGzip` wins. */
  lemma NewDefaults(opts: seq<Option>)
    ensures GzipAfter(false, []) == false
    ensures GzipAfter(false, opts + [WithGzip(true)]) == true
    ensures GzipAfter(false, opts + [WithGzip(false)]) == false
  {
  }

  /** `Encode(nil)` fails with "encoder is nil" whatever the collaborators do. */
  lemma EncodeNil<V>(conf: Config, p: Primitives<V>)
    ensures conf.Encode(p, Nil) == Err(EncoderIsNil)
    ensures conf.Encode(p, Nil).error.Message() == "encoder is nil"
  {
  }

  /** Once marshalling succeeds, `Encode` fails exactly when the cipher
      returns an empty slice, and then with "encode fail"; compression never
      adds a failure. */
  lemma EncodeFailsOnlyOnEmptyCiphertext<V>(conf: Config, p: Primitives<V>, v: V)
    requires p.marshal(v).Ok?
    ensures conf.Encode(p, NonNil(v)).Err? <==> |p.encrypt(p.marshal(v).value, conf.salt)| == 0
    ensures conf.Encode(p, NonNil(v)).Err? ==> conf.Encode(p, NonNil(v)) == Err(EncodeFail)
  {
  }

  /** Every token is URL-safe (no `+`, `/` or `=`) and has ceil(4n/3)
      characters for a payload of n bytes. */
  lemma EncodeTokenShape<V>(conf: Config, p: Primitives<V>, v: V)
    requires conf.Encode(p, NonNil(v)).Ok?
    ensures p.marshal(v).Ok?
    ensures |conf.Encode(p, NonNil(v)).value| == (4 * |conf.Payload(p, p.encrypt(p.marshal(v).value, conf.salt))| + 2) / 3
    ensures forall i :: 0 <= i < |conf.Encode(p, NonNil(v)).value| ==>
      var c := conf.Encode(p, NonNil(v)).value[i]; c != '+' && c != '/' && c != '='
  {
    var tok := conf.Encode(p, NonNil(v)).value;
    forall i | 0 <= i < |tok| ensures tok[i] != '+' && tok[i] != '/' && tok[i] != '=' {
      assert Base64Url.InAlphabet(tok[i]);
    }
  }

  /** A token that fails base64 decoding is rejected with the transport
      error before the decompressor, the cipher or JSON is consulted. */
  lemma DecodeTransportFirst<V>(conf: Config, p: Primitives<V>, q: Primitives<V>, str: string)
    requires Base64Url.DecodeString(str).Err?
    ensures conf.Decode(p, str) == conf.Decode(q, str) == Err(Transport(Base64Url.CorruptInput))
  {
    assert Base64Url.DecodeString(str).error.CorruptInput?;
  }

  /** In particular a string holding `+`, `/` or `=` never decodes. */
  lemma DecodeRejectsStandardAlphabet<V>(conf: Config, p: Primitives<V>, str: string, i: nat)
    requires i < |str| && (str[i] == '+' || str[i] == '/' || str[i] == '=')
    ensures conf.Decode(p, str) == Err(Transport(Base64Url.CorruptInput))
  {
    Base64Url.DecodeStringRejects(str);
    DecodeTransportFirst(conf, p, p, str);
  }

  /** With compression off, the decompressor is never consulted: two
      collaborator sets that differ only in it decode alike. */
  lemma DecodePlainIgnoresDecompressor<V>(conf: Config, p: Primitives<V>, q: Primitives<V>, str: string)
    requires !conf.gzip
    requires q == p.(decompress := q.decompress)
    ensures conf.Decode(p, str) == conf.Decode(q, str)
  {
  }

  /** With compression on, a gzip error is returned and decryption and JSON
      are never reached. */
  lemma DecodeGzipErrorFirst<V>(conf: Config, p: Primitives<V>, q: Primitives<V>, str: string)
    requires conf.gzip
    requires Base64Url.DecodeString(str).Ok?
    requires p.decompress(Base64Url.DecodeString(str).value).Err?
    requires q.decompress == p.decompress
    ensures conf.Decode(p, str) == conf.Decode(q, str)
            == Err(Gzip(p.decompress(Base64Url.DecodeString(str).value).error))
  {
  }

  /** The end-to-end round trip: a token encoded under one configuration
      decodes to the original value under any configuration with the same
      key and the same `Gzip` flag. */
  lemma RoundTrip<V(!new)>(enc: Config, dec: Config, p: Primitives<V>, v: V)
    requires Lawful(p)
    requires enc.salt == dec.salt && enc.gzip == dec.gzip
    requires enc.Encode(p, NonNil(v)).Ok?
    ensures dec.Decode(p, enc.Encode(p, NonNil(v)).value) == Ok(v)
  {
    var data := p.marshal(v).value;
    var encrypted := p.encrypt(data, enc.salt);
    Base64Url.DecodeEncode(enc.Payload(p, encrypted));
  }
}
