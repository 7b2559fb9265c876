# user-sso token pipeline and client helpers, in Dafny

This project models the core of the `user-sso` Go module.

- **Package `encoder`.** It turns a value into an opaque, URL-safe token and back:
  JSON → AES encrypt → optional gzip at best compression → unpadded base64url.
  `Decode` runs the stages in reverse and stops at the first error.
  `New` builds a `Config` from a key and functional options.
- **The transport codec.** Go's `base64.RawURLEncoding` is modelled concretely.
  It uses the URL-safe alphabet of section 5 of RFC 4648, with padding omitted as section 3.2 of RFC 4648 allows.
  The decoder is Go's non-strict one: it skips CR and LF, and it ignores the unused low bits of a final partial quantum.
- **The deterministic parts of `client.go`.** These are the endpoint trimming and URL derivation of `NewClient`, `LogoutUrl`, the lazily allocated metadata map of `UserInfo`, and the guard and response-code check of `Authentication`.

Files:

- `prelude.dfy` — module `Prelude`: Go's `byte`, a `Result` for `(value, error)` pairs, and `Nullable` for nil-able values.
- `base64url.dfy` — module `Base64Url`: the alphabet, `EncodeToString`, `DecodeString` and their properties.
- `encoder.dfy` — module `Encoder`: the options, class `Config` (its `Gzip` field is set in place by the option closures), `New`, `Encode`, `Decode` and the pipeline lemmas.
- `usersso.dfy` — module `UserSso`: `TrimRight`, `NewClient`, `LogoutUrl`, class `UserInfo` with `Get`/`Set`, and `Authentication`.

Three collaborators are not modelled; the record `Encoder.Primitives` passes them in as function values:

- AES, from `neptune/crypto/aes`;
- gzip, from `compress/gzip`;
- `encoding/json`.

Their round-trip laws form the predicate `Encoder.Lawful`, which the end-to-end lemma `Encoder.RoundTrip` requires:

- unmarshal inverts a successful marshal;
- `Decrypt` with the same key inverts a non-empty `Encrypt`;
- decompression inverts best-level compression.

`url.QueryEscape` is a function parameter of `LogoutUrl`.
The HTTP exchange of `Authentication` is the function parameter `exchange`.

On two points the model follows the Go code where a reader might expect otherwise:

- The gzip writer's errors are discarded (`encoder/encoder.go:53-56`). Compression therefore never fails in `Encode`, and there is no compression error.
- `New` accepts any key, including an empty one.

## Model

| member | source | states |
|---|---|---|
| `Base64Url.Char` | encoder/encoder.go:57 | every 6-bit value maps to a character of the URL-safe alphabet, never `+`, `/` or `=` |
| `Base64Url.DecodeMap` | encoder/encoder.go:63 | a character has a value 0..63 exactly when it is in the alphabet; otherwise it is marked invalid |
| `Base64Url.CharDecodeMap` | encoder/encoder.go:63 | decoding the character of a 6-bit value gives that value back |
| `Base64Url.DecodeMapChar` | encoder/encoder.go:63 | every alphabet character is the character of its own value, so the two maps are inverse bijections |
| `Base64Url.EncodeToString` | encoder/encoder.go:59 | a token of n bytes has ceil(4n/3) characters, all in the URL-safe alphabet, with no padding |
| `Base64Url.RemoveNewlines` | encoder/encoder.go:63 | the decoder skips CR and LF: what remains has no line break and is no longer |
| `Base64Url.DecodeQuanta` | encoder/encoder.go:63 | a successful decode of t line-break-free characters yields floor(3t/4) bytes |
| `Base64Url.DecodeString` | encoder/encoder.go:63 | a successful decode yields three bytes per four significant characters (Go's `DecodedLen` is only the bound it computes from the raw length, line breaks included) |
| `Base64Url.DecodeQuantaEncode` | encoder/encoder.go:57-59 | decoding the characters of an encoding gives back the bytes, for every byte sequence |
| `Base64Url.DecodeEncode` | encoder/encoder.go:59-63 | `DecodeString(EncodeToString(b)) == b` for every byte sequence b |
| `Base64Url.DecodeQuantaAccepts` | encoder/encoder.go:63-66 | a line-break-free string decodes if and only if all its characters are in the alphabet and its length is not 1 mod 4 |
| `Base64Url.DecodeStringAccepts` | encoder/encoder.go:63-66 | a string decodes if and only if it holds only alphabet characters and line breaks and its significant length is not 1 mod 4 |
| `Base64Url.DecodeStringRejects` | encoder/encoder.go:63-66 | a character outside the alphabet, or a significant length of 1 mod 4, is a decode error |
| `Base64Url.DecodeNotInjective` | encoder/encoder.go:63 | the non-strict decoder maps "AA", "AB" and "A\nA" to the same byte, so only decode-after-encode is an identity |
| `Base64Url.SkipNewline` | encoder/encoder.go:63 | a line break, CR or LF, between two parts of the input does not change what it decodes to |
| `Base64Url.RemoveNewlinesAppend` | encoder/encoder.go:63 | skipping line breaks works piece by piece: it distributes over concatenation |
| `Base64Url.DecodeQuantaPrefix` | encoder/encoder.go:63 | a decodable input of four or more characters decodes to bytes that begin with the three bytes of its first quantum |
| `Base64Url.GzipMagic` | encoder/encoder_test.go:61 | "H4sI" and the bytes 0x1F 0x8B 0x08 (gzip ID1, ID2, CM = deflate) encode to each other |
| `Base64Url.GzipTokenPrefix` | encoder/encoder_test.go:61 | any decodable token starting with "H4sI", such as the compressed fixture, decodes to bytes that start with the gzip magic number and deflate method |
| `Encoder.GzipAfter` | encoder/encoder.go:19-21 | applying options in order leaves the initial flag when there are none, and otherwise the flag of the last `WithGzip` |
| `Encoder.Config.constructor` | encoder/encoder.go:15-18 | a new configuration holds the key as salt, with `Gzip` false |
| `Encoder.Config.Apply` | encoder/encoder.go:27-31 | calling a `WithGzip(g)` closure sets `Gzip` to g |
| `Encoder.New` | encoder/encoder.go:14-23 | the configuration is fresh, holds the key, and its flag is the options applied in call order |
| `Encoder.NewDefaults` | encoder/encoder.go:14-31 | with no options `Gzip` is false; an appended `WithGzip` decides the flag whatever came before |
| `Encoder.Config.Encode` | encoder/encoder.go:38-60 | every token is URL-safe, and the only errors are nil value, JSON and "encode fail" (never compression) |
| `Encoder.Config.Decode` | encoder/encoder.go:62-80 | the only errors come from base64, the gzip reader or JSON; decryption never signals an error |
| `Encoder.EncodeNil` | encoder/encoder.go:39-41 | `Encode(nil)` returns the error "encoder is nil" whatever the serializer and cipher would do |
| `Encoder.EncodeFailsOnlyOnEmptyCiphertext` | encoder/encoder.go:46-59 | once marshalling succeeds, `Encode` fails exactly when the cipher returns an empty slice, and then with `EncodeFail` |
| `Encoder.EncodeTokenShape` | encoder/encoder.go:50-59 | a token has ceil(4n/3) characters for its n-byte payload (ciphertext, compressed if `Gzip`) and holds no `+`, `/` or `=` |
| `Encoder.DecodeTransportFirst` | encoder/encoder.go:63-66 | a base64 error is returned before any decompressor, cipher or JSON call: their behaviour does not matter |
| `Encoder.DecodeRejectsStandardAlphabet` | encoder/encoder.go:63-66 | a token holding `+`, `/` or `=` fails with the transport error |
| `Encoder.DecodePlainIgnoresDecompressor` | encoder/encoder.go:67-78 | with `Gzip` false the decompressor is never used |
| `Encoder.DecodeGzipErrorFirst` | encoder/encoder.go:67-77 | with `Gzip` true a gzip error is returned, and decryption and JSON are never reached |
| `Encoder.RoundTrip` | encoder/encoder.go:38-80 | under the collaborators' round-trip laws, a token decodes to the encoded value under any configuration with the same key and `Gzip` flag |
| `UserSso.TrimRight` | client.go:34 | the result is the input with its longest suffix of cutset characters removed: a prefix, the rest all cutset, and not ending in a cutset character |
| `UserSso.CutsetTrimUnique` | client.go:34 | those three conditions determine the trimmed string uniquely |
| `UserSso.TrimRightIdempotent` | client.go:34 | trimming a trimmed endpoint changes nothing |
| `UserSso.NewClient` | client.go:33-52 | each of the five URLs is the trimmed endpoint followed by its fixed path; credentials, redirect URL and scopes pass through; the auth style is in-params |
| `UserSso.NewClientIgnoresTrailingCutset` | client.go:34-49 | endpoints that differ only in trailing `/` and `?` characters give the same client |
| `UserSso.LogoutUrl` | client.go:95-100 | the result starts with the logout endpoint; it equals it exactly when the return URL is empty; otherwise it continues with `?return_url=` and the escaped return URL |
| `UserSso.Stored` | client.go:71-76 | after storing, the key reads back its value, every other key reads as before, and the key set gains exactly that key |
| `UserSso.UserInfo.constructor` | client.go:54-60 | a new record carries its fields and a nil metadata map |
| `UserSso.UserInfo.Get` | client.go:63-68 | the map becomes non-nil (empty if it was nil), and the result is the stored value or "" for an absent key |
| `UserSso.UserInfo.Set` | client.go:71-76 | the map becomes non-nil and holds the new value under the key, with every other entry unchanged |
| `UserSso.SetThenGet` | client.go:63-76 | `Get` after `Set(k, v)` returns v, and other keys keep their previous values |
| `UserSso.Authentication` | client.go:171-202 | an empty item list fails with `ErrorNilAccessItems`; exchange errors propagate; a reply yields its data exactly when its code is 200, otherwise an error with its code and message |
| `UserSso.AuthenticationUsesAccessEndpoint` | client.go:172-182 | the outcome depends only on the exchange at the client's access endpoint, and with no items on no exchange at all |

## Left out

- AES (`neptune/crypto/aes`), gzip/DEFLATE and `encoding/json` are not part of this model. They are function parameters, and the end-to-end lemma assumes their round-trip laws. Byte-exact fixture tokens depend on them, so only the alphabet, length and "H4sI" prefix are stated.
- `Encoder.RoundTrip`: JSON round-trip equality holds in Go only up to `omitempty`: a nil and an empty `Metadata` map marshal to the same bytes. `Encoder.Lawful` asks `marshal` to be one-to-one on the values it accepts, so `RoundTrip` applies to a value type in which the values that `omitempty` merges are one value (V taken up to `omitempty`). It says nothing about a type such as `userInfo` taken as it is.
- Flag and key sensitivity (decoding with the wrong `Gzip` flag or key does not give the value back) depend on the unseen cipher and compressor, and are not stated.
- `Encoder.Config.Encode`: the nil check models an untyped `nil` only. A typed nil pointer passes Go's `t == nil` test and is marshalled as `null`; that case falls to `marshal`.
- `Encoder.Config.Decode`: `gzip.NewReader` errors and `ioutil.ReadAll` errors are folded into the one error of the abstract `decompress`. JSON decoding into the caller's destination is modelled as returning the value.
- `Base64Url.DecodeString`: the byte offset carried by Go's `CorruptInputError` is not modelled. The decode map covers Unicode characters as single units, where Go reads UTF-8 bytes; every non-ASCII character is rejected either way.
- The gzip writer is a private `bytes.Buffer` filled in place. It is modelled as the value `compress` returns.
- `Encoder.New`: a Go `Option` is any `func(*Config)`; the model's `Option` has `WithGzip` as its only case. A caller's own option function, and a nil option (which panics when `New` applies it), are not modelled.
- `Encoder.Config`: `New` keeps a reference to the caller's key slice, so writing into that slice after `New` changes the key `Encode` and `Decode` use. The model's `salt` is an immutable copy and does not capture that aliasing.
- `UserSso.UserInfo.Set`: a Go map is a reference, so a write is visible through every alias of the same map. The model reassigns a map value and does not capture aliasing.
- The `Token *oauth2.Token` field of `UserInfo` is not modelled. Only left-out functions use it: `fetchUser` sets it, `RefreshToken` replaces it and `ExpirationSoon` reads its expiry. It is serialised under the JSON key `encoder` without `omitempty`, so in Go it is part of any `UserInfo` given to `Encode`.
- `PasswordCredentials`, `AuthUrl`, `Exchange`, `RefreshToken`, `fetchUser` and the HTTP request/response part of `Authentication` are left out, because they are network and OAuth2 library calls.
- `ExpirationSoon` is left out, because it reads the wall clock and compares float64 seconds.
- `url.QueryEscape` is an opaque parameter of `LogoutUrl`.
- `UserSso.Authentication`: a nil slice and an empty slice are one case (both have length 0). The items are values rather than pointers. The `Code` field is an unbounded integer rather than `int64`. The formatted error text is not built.
- `helper/helper.go` is left out. It holds thin wrappers over `gin.Context` and `context.Context`.
