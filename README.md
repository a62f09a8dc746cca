# Verified model of the SermoDigital crypto helpers

This project models the byte-level core of a small Go package of secret-handling helpers, and proves properties of the model in Dafny:

- **timebox**: time-boxed secrets. `SealWith` writes a length byte, the binary-encoded expiry, a 24-byte nonce, and the NaCl secretbox (XSalsa20-Poly1305) of the payload. `OpenAt` parses that layout, rejects unless the given instant is strictly before the expiry, and opens the box (`timebox.dfy`, module `Timebox`).
- **secure.go**: in-place zeroing of secret buffers (`ClearSlice`), the sequential effect of `Clearer.Clear`, and `EqualString`, which compares two byte strings by ORing the XOR of every byte pair into one accumulator (`secure.dfy`, module `Secure`).
- **tokens**: the fixed-size serialisers of the 88-byte `AuthToken` and `SessionID`. These are raw `Marshal`/`MarshalTo`/`Unmarshal` and a JSON form that puts the token between quotes (`authtoken.dfy`, module `AuthTokens`; `sessionid.dfy`, module `SessionIDs`).
- **xsrf**: `FromHeader` reads an `AuthToken` from the `X-XSRF-TOKEN` header after a length check (`xsrf.dfy`, module `Xsrf`).
- **rng**: the little-endian decode of 8 random bytes into a `uint64`, and `Int`, which clears the top bit with `x << 1 >> 1` (`rng.dfy`, module `Rng`).

The three shared modules are `ByteSlices` (`byteslices.dfy`), `Bits` (`bits.dfy`) and `Wrappers` (`wrappers.dfy`):

- `ByteSlices` holds the byte type and Go's built-in `copy`: a `Copy` method over an array, specified by the `Copied` function.
- `Bits` defines Go's `^` and `|` bit by bit on unbounded naturals, with their zero and width laws.
- `Wrappers` holds `Option`, `Result` and `Outcome`. `Outcome` stands for a Go `error`: `Pass` is nil.

A Go `[]byte`, `[N]byte` or `string` is a `seq<byte>` when it is only read. A buffer the code writes into is an `array<byte>`:

- `copy` into `out`, `nonce`, `buf` and the caller's `data`;
- the pointer receivers `*AuthToken` and `*SessionID`;
- the slices given to `ClearSlice` and `NewClearer`.

Each method that writes a buffer is proved against a specification function, for example `Unmarshalled` or `OpenedAt`. The lemmas state their properties about those functions.

The cryptographic and time collaborators are inputs, not definitions:

- `TimeCodec` carries `MarshalBinary` and `UnmarshalBinary`. Its `Valid()` says that an encoding is at most 255 bytes long and decodes back to the same instant.
- `SecretBox` carries secretbox `Seal` and `Open`. Its `Valid()` says three things. A sealed message is `Overhead` (16) bytes longer than the plaintext. It opens with the same nonce and key. Anything that opens is `Overhead` bytes longer than what it opens to.
- Only the lemmas that need these facts require `Valid()`. `TimeCodecSatisfiable` and `SecretBoxSatisfiable` exhibit an instance of each, so those requirements can be met.
- A `time.Time` is an integer instant, and `Before` is `<`.
- The clock reading, the random nonce and the random bytes are all parameters.

Where the code's behaviour differs from what a reader of the package's design would expect, the model follows the code:

- `OpenAt` does not check bounds. An input with no length byte, or with a length byte that runs past the end, makes Go panic. `Framed` is therefore a precondition, and there is no failure result for those inputs.
- When fewer than 24 bytes follow the stamp, `OpenAt` has no check of its own. It zero-pads the nonce and hands secretbox an empty box (`ShortTail`). Secretbox rejects that box because it is shorter than a tag, so `OpenAt` returns `(nil, false)` (`TruncatedRejected`).
- The expiry is not covered by the authentication tag. A box whose header is swapped for another valid expiry still opens (`ExpiryNotAuthenticated`).
- `Clearer.cleared` is never set, so every `Clear` zeroes the buffers again. The repeated clears are harmless, because zeroing is idempotent.
- The doc comment of `Int` gives the range as `[0, 1 << INT_BITS - 1)`. The model reads it as `[0, 1 << (INT_BITS - 1))`, which for a 64-bit `int` is [0, 2^63 - 1]. The code meets that range exactly, and `IntReachesMax` shows the top value is reached. Under Go's operator precedence the comment would instead read `[0, 2^64 - 1)`, which the code also stays within.
- A lone `"` given to `UnmarshalJSON` makes Go slice `data[1:0]` and panic. `JSONSliceable` excludes exactly that input.

## Model

| member | source | states |
|---|---|---|
| Timebox.SealWith | timebox/timebox.go:12-38 | fails with the marshalling error exactly when the expiry cannot be marshalled; otherwise returns `[byte(len(tb))] ++ tb ++ nonce ++ Seal(data, nonce, key)` |
| Timebox.Seal | timebox/timebox.go:41-48 | a failed nonce draw is returned as the error; otherwise the result is that of SealWith under the drawn nonce |
| Timebox.SealedLength | timebox/timebox.go:26-37 | a sealed box is `1 + len(tb) + 24 + len(data) + Overhead` bytes long |
| Timebox.LengthByteExact | timebox/timebox.go:33 | the length byte equals the stamp length if and only if that length is at most 255 |
| Timebox.Sealed | timebox/timebox.go:12-37 | an error if and only if marshalling fails, carrying its message; otherwise the length byte `byte(len(tb))`, then `tb`, then the 24 nonce bytes, then the sealed payload |
| Timebox.Parse | timebox/timebox.go:58-68 | the stamp is `data[1:end]` with `end = data[0] + 1`; with at least 24 bytes after it the nonce is the next 24 bytes and the box is the rest |
| Timebox.ParseFrame | timebox/timebox.go:58-68 | parsing a framed box returns exactly the stamp, nonce and sealed bytes that were written |
| Timebox.ShortTail | timebox/timebox.go:67-69 | with fewer than 24 bytes after the stamp, the nonce is those bytes zero-padded and the box handed to Open is empty |
| Timebox.TruncatedRejected | timebox/timebox.go:67-69 | with fewer than 24 bytes after the stamp the envelope never opens: the result is `(nil, false)` at every instant |
| Timebox.OpenedAt | timebox/timebox.go:57-70 | succeeds if and only if the stamp unmarshals, the instant is strictly before it and the box opens; on success the payload is what Open returned, on failure the output is empty |
| Timebox.OpenAt | timebox/timebox.go:57-70 | the method's output and flag are exactly those OpenedAt specifies |
| Timebox.Open | timebox/timebox.go:51-53 | opening at the clock's reading is OpenAt at that instant |
| Timebox.OpenSealed | timebox/timebox.go:12-70 | a box sealed with any payload, empty included, opens to that payload at any instant strictly before its expiry |
| Timebox.ExpiredRejected | timebox/timebox.go:61-64 | at the expiry instant and at every later instant a sealed box is rejected with empty output |
| Timebox.SealedOpensIffBefore | timebox/timebox_test.go:19-39 | a sealed box opens to its payload if and only if it is opened strictly before its expiry, and otherwise yields `(nil, false)` |
| Timebox.ExpiryOutsideBox | timebox/timebox.go:33-37 | the bytes after the stamp are `nonce ++ Seal(data)` for every expiry, so changing the expiry leaves them unchanged |
| Timebox.ExpiryNotAuthenticated | timebox/timebox.go:61-69 | replacing the header of a sealed box with another expiry's encoding yields a box that opens to the same payload before the new expiry |
| Timebox.OpenableEarlier | timebox/timebox.go:62 | the expiry guard is monotonic: a box that opens at some instant opens the same way at every earlier instant |
| Timebox.TimeCodecSatisfiable | timebox/timebox.go:13 | some time codec meets the round-trip and 255-byte contract assumed of MarshalBinary/UnmarshalBinary |
| Timebox.SecretBoxSatisfiable | timebox/timebox.go:37 | some seal/open pair meets the length, round-trip and open-length laws assumed of secretbox |
| Secure.ClearSlice | secure.go:40-48 | every byte of every given buffer is zero afterwards, lengths are kept, and nothing outside the buffers is written |
| Secure.WipedIdempotent | secure.go:40-48 | clearing a cleared buffer changes nothing |
| Secure.WipedTimesOnce | secure.go:29-35 | any positive number of clears leaves the state a single clear leaves |
| Secure.Clearer.constructor | secure.go:22-24 | a new clearer holds exactly the given buffers and is not marked cleared |
| Secure.Clearer.Clear | secure.go:29-37 | the guard always passes: every registered buffer is zeroed, and the flag and the buffer list are unchanged |
| Secure.XorByte | secure.go:64 | the XOR of two bytes is a byte, and it is zero if and only if the bytes are equal |
| Secure.OrByte | secure.go:64 | the OR of two bytes is a byte, and it is zero if and only if both bytes are zero |
| Secure.ConstantTimeByteEq | secure.go:66 | returns 1 if the bytes are equal and 0 otherwise |
| Secure.EqualString | secure.go:56-67 | returns true if and only if the two strings are equal byte for byte, which includes false on different lengths |
| AuthTokens.Equal | tokens/authtoken_protobuf.go:8-10 | tokens are equal if and only if they agree at every byte |
| AuthTokens.Size | tokens/authtoken_protobuf.go:12-14 | the size is always `(64 + 2) / 3 * 4` = 88 |
| AuthTokens.Marshal | tokens/authtoken_protobuf.go:16-18 | returns Size bytes, the token's own bytes in order |
| AuthTokens.MarshalTo | tokens/authtoken_protobuf.go:20-22 | writes the first `min(len(data), 88)` token bytes to the front of data, returns that count and leaves the rest of data unchanged |
| AuthTokens.Unmarshalled | tokens/authtoken_protobuf.go:24-29 | errors if and only if the input is shorter than 88 bytes; on success the token is the first 88 input bytes; on error the input has already overwritten the front of the token |
| AuthTokens.Unmarshal | tokens/authtoken_protobuf.go:24-29 | the receiver's new contents and the error are those Unmarshalled specifies |
| AuthTokens.UnmarshalMarshal | tokens/authtoken_protobuf.go:16-29 | unmarshalling the output of Marshal restores the token, whatever the receiver held |
| AuthTokens.MarshalledJSON | tokens/authtoken_protobuf.go:33-42 | nil for the zero token; otherwise 90 bytes, a quote, then the token, then a quote |
| AuthTokens.MarshalJSON | tokens/authtoken_protobuf.go:33-42 | the filled buffer is exactly the output MarshalledJSON specifies |
| AuthTokens.UnmarshalledJSON | tokens/authtoken_protobuf.go:44-52 | empty input is a no-op success; the result is an error if and only if the input is non-empty and is unquoted or shorter than 90 bytes; otherwise the token is the 88 bytes after the opening quote; unquoted input leaves the receiver unchanged; quoted input that is too short copies its inside over the front of the receiver |
| AuthTokens.UnmarshalJSON | tokens/authtoken_protobuf.go:44-52 | the receiver's new contents and the error are those UnmarshalledJSON specifies |
| AuthTokens.JSONRoundTrip | tokens/authtoken_protobuf.go:33-52 | unmarshalling the JSON of a non-zero token sets the receiver to that token without error |
| AuthTokens.NilJSONKeepsReceiver | tokens/authtoken_protobuf.go:33-47 | the JSON of the zero token is nil, which leaves any receiver unchanged |
| SessionIDs.Equal | tokens/sessionid_protobuf.go:10-12 | identifiers are equal if and only if they agree at every byte |
| SessionIDs.Size | tokens/sessionid_protobuf.go:14-16 | the size is always `(64 + 2) / 3 * 4` = 88 |
| SessionIDs.Marshal | tokens/sessionid_protobuf.go:18-20 | returns Size bytes, the identifier's own bytes in order |
| SessionIDs.MarshalTo | tokens/sessionid_protobuf.go:22-24 | writes the first `min(len(data), 88)` bytes to the front of data, returns that count and leaves the rest of data unchanged |
| SessionIDs.Unmarshalled | tokens/sessionid_protobuf.go:26-31 | errors if and only if the input is shorter than 88 bytes; on success the identifier is the first 88 input bytes; on error the front is already overwritten |
| SessionIDs.Unmarshal | tokens/sessionid_protobuf.go:26-31 | the receiver's new contents and the error are those Unmarshalled specifies |
| SessionIDs.UnmarshalString | tokens/sessionid_protobuf.go:33-38 | unmarshalling from a string behaves exactly as Unmarshal does on the string's bytes |
| SessionIDs.UnmarshalMarshal | tokens/sessionid_protobuf.go:18-31 | unmarshalling the output of Marshal restores the identifier |
| SessionIDs.MarshalledJSON | tokens/sessionid_protobuf.go:42-51 | nil for the zero identifier; otherwise 90 bytes, a quote, then the identifier, then a quote |
| SessionIDs.MarshalJSON | tokens/sessionid_protobuf.go:42-51 | the filled buffer is exactly the output MarshalledJSON specifies |
| SessionIDs.UnmarshalledJSON | tokens/sessionid_protobuf.go:53-61 | empty input is a no-op; the result is an error if and only if the input is non-empty and is unquoted or shorter than 90 bytes; otherwise the identifier is the 88 inner bytes; unquoted input leaves the receiver unchanged; quoted input that is too short copies its inside over the front of the receiver |
| SessionIDs.UnmarshalJSON | tokens/sessionid_protobuf.go:53-61 | the receiver's new contents and the error are those UnmarshalledJSON specifies |
| SessionIDs.JSONRoundTrip | tokens/sessionid_protobuf.go:42-61 | unmarshalling the JSON of a non-zero identifier restores it without error |
| SessionIDs.NilJSONKeepsReceiver | tokens/sessionid_protobuf.go:42-56 | the JSON of the zero identifier is nil, which leaves any receiver unchanged |
| Xsrf.Get | xsrf/xsrf.go:36 | the first value under the key, or the empty string when there is none |
| Xsrf.HeaderToken | xsrf/xsrf.go:35-42 | errors if and only if the header value is not 88 bytes long; on error the token is the zero token; otherwise the token is the header value |
| Xsrf.FromHeader | xsrf/xsrf.go:35-42 | the method's token and error are exactly those HeaderToken specifies |
| Xsrf.Cookie | xsrf/xsrf.go:25-27 | the cookie is named `XSRF-TOKEN` and its value is the token's 88 bytes |
| Xsrf.CookieRoundTrip | xsrf/xsrf.go:25-42 | a header echoing the cookie's value yields the original token with no error |
| Xsrf.MissingHeaderRejected | xsrf/xsrf.go:36-39 | an absent or empty header reads as "" and is rejected with the zero token |
| Rng.Uint64 | rng/rng.go:18-25 | the OR of byte i shifted left by 8i, for i from 0 to 7, is a uint64 equal to the little-endian value in which byte i weighs 256^i |
| Rng.OrFoldLittleEndian | rng/rng.go:24 | ORing in the first i shifted bytes, left to right, gives the little-endian value of those i bytes |
| Bits.OrShifted | rng/rng.go:24 | `a \| b << k` with `a < 1 << k` equals `a + b * 2^k`: the shifted bytes never overlap |
| Rng.LittleEndianBound | rng/rng.go:24 | an n-byte little-endian value is below 256^n |
| Rng.DecodeEncode | rng/rng.go:16-17 | every value below 256^n is the decode of its own n-byte encoding |
| Rng.EncodeDecode | rng/rng.go:24 | encoding a decoded byte string gives the bytes back |
| Rng.Uint64Bijective | rng/rng.go:16-24 | every uint64 is the decode of exactly one 8-byte string, so the whole range [0, 2^64 - 1] is covered |
| Rng.ClearTopBit | rng/rng.go:13 | `x << 1 >> 1` on a uint64 equals `x mod 2^63` |
| Rng.Int | rng/rng.go:9-14 | the result lies in [0, 2^63 - 1] and keeps the low 63 bits of the decoded value |
| Rng.IntReachesMax | rng/rng.go:9-13 | eight 0xFF bytes give 2^63 - 1, so the upper end of the range is reached |

## Left out

- The `Clearer` concurrency: `Add` and `Done` as read-lock and read-unlock, the `RWMutex`, and the goroutine that `Clear` starts. Only the sequential effect of the locked body is modelled.
- `Equal` in secure.go: it is a call to `subtle.ConstantTimeCompare`, and constant-time behaviour cannot be stated in the model.
- The internals of secretbox (XSalsa20-Poly1305) and of `time.Time` binary marshalling. They are parameters with the contracts described above.
- Tamper detection and nonce uniqueness. They are cryptographic and probabilistic properties of those internals.
- The reads of the wall clock in `Open` and of `crypto/rand` in `Seal` and in `rng`. The clock reading and the random bytes are inputs.
- `rand.Read` failing in `rng` and in `tokens`, and the panics that follow.
- tokens/tokens.go: random generation and base64url encoding. Its one modelled fact is the token length, 88.
- tokens/baseXX.go, scrypt.go and sha256.go: thin calls into the base64, scrypt and SHAKE-256 libraries.
- `xsrf.Hash` (a SHAKE-256 call), `FromRequest` (a field access on `http.Request`), and every `http.Cookie` field except the name and the value.
- `NewPopulatedAuthToken` and `NewPopulatedSessionID`: they only draw randomness.
- Xsrf.Get: does not model header-key canonicalisation from net/textproto. The key is written in its canonical form, `X-Xsrf-Token`.
- Secure.ClearSlice: each Go slice is its own array. Two different slices that overlap in one backing array are not modelled. The same array passed twice is modelled.
- AuthTokens.Marshal, AuthTokens.MarshalTo, SessionIDs.Marshal and SessionIDs.MarshalTo: do not model the error result, because it is always nil.
- AuthTokens.MarshalledJSON and SessionIDs.MarshalledJSON: the nil slice is modelled as the empty sequence.
- Rng.Int: assumes a 64-bit Go `int`. On a 32-bit platform `int(x << 1 >> 1)` keeps only the low 32 bits and can be negative, which the model does not capture.
