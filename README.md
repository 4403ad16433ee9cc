# Gyazo-style image gateway: a Dafny model

This project models the core of `main.ts`, a small image-hosting gateway on Deno Deploy.
`GET /` serves an informational page. `GET /<key>` serves an object from an S3 bucket, or
gives a plain-text 404. An authorised `POST` stores the first uploaded file under a
content-derived name: the first 16 hex digits of its SHA-1 digest, followed by `.png`. The
reply to the upload is the request URL followed by that name.

The model has seven modules, one file each:

- `Basics` (basics.dfy): `Option`, `Result` and the `byte` type.
- `Strings` (strings.dfy): the JavaScript string operations the parser uses, which are
  `indexOf`, `split` with a one-character separator, and the control-character test.
  `Join` is defined as the reference that `Split` inverts.
- `Base64` (base64.dfy): base64 encoding as in section 4 of RFC 4648, and `atob`. `atob` is
  modelled as the WHATWG "forgiving-base64 decode": it strips whitespace and up to two `=`
  of padding, rejects any other character outside the alphabet, and drops leftover bits.
  `btoa` is also here, because the round-trip property needs it.
- `BasicAuth` (basic_auth.dfy): `basicAuthentication`, the parser for the HTTP Basic scheme
  (RFC 7617, section 2).
- `Streams` (streams.dfy): `readerToBytes`. A reader hands out chunks and a growable buffer
  collects them, all inside a `while true` loop.
- `Storage` (storage.dfy): the bucket, modelled as a class that holds a map from key to
  object.
- `Gateway` (gateway.dfy): the middleware.
  - `Dispatch` specifies one request as a value: the response fields set, the store
    afterwards, and any error that escapes.
    `Dispatch` is built from `Get` and `Post`. `Post` first asks `Admit` for the verdict of
    the authorization checks and the form read, and only then touches the store.
  - `Handle` carries the request out step by step on a `Response` object and a `Bucket`.
    `ServeGet` and `ServePost` do the two branches. Each is proved to do exactly what its
    specification function says.

Where the stated goals of the gateway and its code differ, the model follows the code. The one exception is
the unterminated challenge value, which is listed under Findings:

- A POST whose `Authorization` value is malformed does not get the 401. The stated goal is
  that every authentication failure looks the same. In the code, `basicAuthentication`
  throws at main.ts:111 and the error escapes the handler. `Dispatch` returns that error as
  `thrown`, with no response field set.
- The scheme must be exactly `Basic`. The comparison is case-sensitive, although section 2.1
  of RFC 7235 makes scheme names case-insensitive.
- Nothing checks at startup that `GYAZO_USERNAME` and `GYAZO_PASSWORD` are set. If either is
  unset, the `!==` comparison is true for every string, so every well-formed POST gets the
  401. `Config` holds them as `Option`s.
- When a stored object has no content type, `obj.contentType!` passes `undefined` to
  `Headers.set`, which stores the string `"undefined"`.

## Model

| member | source | states |
|---|---|---|
| `Strings.IndexOf` | main.ts:66 | The result is the position of the first occurrence of the character. None means the character does not occur. |
| `Strings.IndexOfFirst` | main.ts:66 | Conversely, a position that holds the character, with no earlier occurrence, is the position `indexOf` returns. |
| `Strings.Split` | main.ts:61 | There is always at least one field, and no field contains the separator. |
| `Strings.JoinSplit` | main.ts:61 | Joining the fields of a split with the separator gives back the original text. |
| `Strings.SplitJoin` | main.ts:61 | Splitting a join of separator-free fields gives back exactly those fields. |
| `Strings.HasControl` | main.ts:67 | The regular-expression test fails iff every character is at least 0x20 and none is 0x7F. It can only succeed on non-empty text. |
| `Strings.HasControlConcat` | main.ts:67 | A concatenation has a control character iff one of its parts has one. |
| `Strings.SplitAppend` | main.ts:61 | Splitting `s + sep + t` gives the fields of `s` followed by the fields of `t`. |
| `Base64.SextetValue` | main.ts:65 | Decoding an alphabet character gives the 6-bit value that the alphabet maps back to that character. |
| `Base64.EncodeUnpadded` | main.ts:65 | The unpadded encoding uses only alphabet characters. Its length is `(4n+2)/3` for `n` bytes. |
| `Base64.Encode` | main.ts:65 | The padded encoding is `4*ceil(n/3)` characters long, and every character is an alphabet character or `=`. |
| `Base64.DecodeUnpadded` | main.ts:65 | Decoding `m` alphabet characters, where `m mod 4 != 1`, gives `3m/4` bytes. |
| `Base64.StripWhitespace` | main.ts:65 | The result has no ASCII whitespace and contains every other character of the input. Text without whitespace is returned unchanged. |
| `Base64.StripWhitespaceCounts` | main.ts:65 | Only whitespace is removed: every other character occurs in the result exactly as often as in the input. |
| `Base64.StripWhitespaceAppend` | main.ts:65 | Stripping distributes over concatenation, so the kept characters stay in their original order. |
| `Base64.StripPadding` | main.ts:65 | The result is a prefix of the input and only `=` characters are removed. Exactly two are removed when the input ends in two `=`, exactly one when it ends in a single `=`, and none when it does not end in `=`. |
| `Base64.Atob` | main.ts:65 | Decoding fails whenever the input has a character that is not in the alphabet, not whitespace and not `=`. |
| `Base64.AtobEncode` | main.ts:65 | `atob` inverts base64 encoding: `Atob(Encode(b)) == Some(b)` for all bytes `b`. |
| `Base64.BinaryString` | main.ts:65 | The string `atob` returns has one character per byte, each with that byte as its code point, so all code points are below U+0100. |
| `Base64.BinaryBytes` | main.ts:65 | Turning a Latin-1 string into bytes is inverted by `BinaryString`. |
| `Base64.Btoa` | main.ts:65 | `btoa` succeeds exactly on strings with no code point above U+00FF, and returns `4*ceil(n/3)` characters. |
| `BasicAuth.BasicAuthentication` | main.ts:59-74 | 1. The parser fails with the malformed-header error iff the value does not start with `Basic`, one space and a non-space character. 2. An undecodable payload fails with the `atob` error. 3. A decoded text is accepted iff it has a `:` and no character in 0x00–0x1F or 0x7F, and is rejected otherwise. 4. On success, `username + ":" + password` equals the decoded text, the username has no `:`, and neither part has a control character or a code point above U+00FF. |
| `BasicAuth.DecodeToken` | main.ts:65-73 | For the token after `Basic `: an undecodable token fails with the `atob` error. A decoded text is accepted iff it has a `:` and no control character, and on success `username + ":" + password` is that text. The username has no `:`, and neither part has a control character or a code point above U+00FF. It never reports a malformed header. |
| `BasicAuth.SchemeFields` | main.ts:61-64 | The check on the split fields (at least two, the second non-empty, the first exactly `Basic`) is equivalent to the header prefix test. When the check passes, the second field is the payload. |
| `BasicAuth.SplitAtColon` | main.ts:66-73 | Splitting at the first colon rebuilds the text and gives a colon-free user-id. Neither half has a control character or a code point above U+00FF unless the whole did. |
| `BasicAuth.UserPassText` | main.ts:66-73 | For a colon-free user-id, the first colon of `u + ":" + p` is at position `|u|`, and the joined text keeps the Latin-1 and control-free properties of its parts. |
| `BasicAuth.EncodedHeader` | main.ts:61-64 | `"Basic " + base64(b)`, with `b` non-empty, passes the scheme check, and its payload is the encoding. |
| `BasicAuth.RoundTrip` | main.ts:59-74 | Take a colon-free user-id `u` and any password `p`, both Latin-1 and free of control characters. Parsing `"Basic " + btoa(u + ":" + p)` returns `(u, p)`. |
| `BasicAuth.TrailingFieldsIgnored` | main.ts:61 | Appending a space and any text to a header that already has two fields does not change the outcome. |
| `BasicAuth.SchemeIsCaseSensitive` | main.ts:62 | A header that starts with `basic ` is rejected as malformed. |
| `Streams.ConcatAppend` | main.ts:48-52 | Concatenating chunks respects their order: `Concat(a + b) == Concat(a) + Concat(b)`. |
| `Streams.ByteBuffer.Write` | main.ts:51 | Writing appends the chunk to the buffer's contents. |
| `Streams.ChunkReader.Read` | main.ts:49-50 | `done` iff no chunk is left. Otherwise it returns the next chunk and removes it. |
| `Streams.ReaderToBytes` | main.ts:42-57 | The result is the in-order concatenation of every chunk read before `done`, and the stream is left exhausted. |
| `Storage.Bucket.GetObject` | main.ts:95 | Returns None iff the key is absent. Otherwise it returns a fresh stream whose chunks concatenate to the stored content, with the stored ETag and content type. |
| `Storage.Bucket.PutObject` | main.ts:124-126 | Stores the content under the key with the given content type, replacing any earlier object. Every other key is unchanged. |
| `Gateway.DeniedAsWritten` | main.ts:76-84 | The 401 response as written: status 401, the plain-text type, the body "Not Authenticated", and the unterminated challenge as the `www-authenticate` value. Every other header is kept. |
| `Gateway.NotAuthenticated` | main.ts:76-84 | Sets status 401, the plain-text type, the `www-authenticate` challenge and the body "Not Authenticated". Every other header is kept. |
| `Gateway.KeyOf` | main.ts:95 | The key is the path without its first character. The empty path gives the empty key. |
| `Gateway.HeaderString` | main.ts:104 | A present value is set as it is. An absent content type is set as the string `undefined`. |
| `Gateway.Authorised` | main.ts:107-117 | Holds only when both credentials are configured, the `Authorization` value is present and parses, and the parsed username and password equal the configured ones. |
| `Gateway.ReadUpload` | main.ts:118-121 | Succeeds iff the body is within 1,000,000 bytes, parses, and has a first file with content. The result is that content. An oversized body fails with `BodyTooLarge`. |
| `Gateway.ObjectName` | main.ts:122-123 | The name has 20 characters: the first 16 lower-case hex digits of the digest, then `.png`. |
| `Gateway.ObjectNameCollisions` | main.ts:123 | Two digests give the same name iff their first 16 hex digits agree. Identical content therefore always gets the same name. |
| `Gateway.Admit` | main.ts:107-121 | The checks of a POST accept exactly when the request is authorised and the form read succeeds, and then carry the first file's content. A refusal implies the request is not authorised. |
| `Gateway.Get` | main.ts:87-104 | A GET changes no store and throws nothing. It gives 404 iff the path is not `/` and its key is absent. |
| `Gateway.Post` | main.ts:106-128 | A POST lets an error escape iff the checks threw, and gives 401 iff they refused. When accepted, it stores the content as `image/png` under its name and leaves every other key unchanged. Otherwise the store is unchanged. |
| `Gateway.Dispatch` | main.ts:87-129 | 1. An escaped error sets no response field and leaves the store unchanged. 2. Only an authorised POST changes the store. 3. Nothing is ever deleted from the store. 4. Methods other than GET and POST get no response and no store change. |
| `Gateway.Handle` | main.ts:87-129 | The step-by-step handler leaves the response, the bucket and the escaped error exactly as `Dispatch` specifies. |
| `Gateway.ServeGet` | main.ts:87-104 | The GET branch sets exactly the response fields that `Get` specifies, reading the stored object's stream to the end. |
| `Gateway.ServePost` | main.ts:106-128 | The POST branch leaves the response, the bucket and the escaped error exactly as `Post` specifies. |
| `Gateway.RootPage` | main.ts:88-94 | `GET /` serves the HTML page with the HTML type, whatever the store holds, and changes nothing. |
| `Gateway.GetMissingObject` | main.ts:95-101 | `GET` of a path whose key (the path without its leading `/`) is absent gives 404 with plain text "Not Found". |
| `Gateway.GetStoredObject` | main.ts:95-105 | `GET` of a stored key serves its bytes with exactly the `etag` and `content-type` headers of the stored object. |
| `Gateway.UnauthenticatedPostsIndistinguishable` | main.ts:107-117 | A POST without an authorization header and a POST with well-formed wrong credentials give the identical outcome: 401, the same challenge header, the body "Not Authenticated", and the store unchanged. |
| `Gateway.MalformedHeaderEscapes` | main.ts:111 | A POST whose header fails to parse gets the parser's error as an escaped exception. It gets no 401 and the store is unchanged. |
| `Gateway.UnsetCredentialsDenyUploads` | main.ts:112-117 | If either configured credential is unset, no request changes the store. |
| `Gateway.AuthorisedUpload` | main.ts:118-128 | An authorised POST stores the first file's content as `image/png` under `ObjectName(sha1(content))`, which is 20 characters and ends in `.png`. It replies with the request URL followed by the name and changes no other key. |
| `Gateway.UploadIdempotent` | main.ts:121-126 | Repeating a POST on the store it produced gives the identical outcome: the same reply, the same escaped error if any, and that store unchanged. |
| `Gateway.UploadThenGet` | main.ts:95-126 | After an authorised upload, `GET /<name>` serves the uploaded bytes with content type `image/png` and the store's ETag. |
| `Gateway.OversizedUploadNotStored` | main.ts:118-120 | A POST whose body exceeds 1,000,000 bytes writes nothing. When it is authorised, it fails with `BodyTooLarge`. |
| `Gateway.DeniedAsWrittenMalformed` | main.ts:76-84 | The 401 response as main.ts builds it carries a `www-authenticate` value that is not a well-formed Basic challenge. The corrected response carries a well-formed one and differs from it only in that header value. |
| `Gateway.ChallengeAsWrittenUnterminated` | main.ts:79-82 | The challenge text as written is not a well-formed Basic challenge: its realm's quoted-string is never closed. |
| `Gateway.Quoted` | main.ts:81 | Wrapping a text in double quotes gives a quoted-string iff the text has no double-quote character and no backslash. |
| `Gateway.ChallengeWellFormed` | main.ts:79-82 | The corrected challenge is `Basic realm=` followed by a closed quoted-string. |

## Findings

| source | as written | input that shows it | evidently intended | confidence | as-written member | corrected member |
|---|---|---|---|---|---|---|
| main.ts:79-82 | The `www-authenticate` value is `Basic realm=`, an opening double quote, and the realm text `Enter username and password.` with no closing double quote. The quoted-string is never closed, so the challenge does not match the grammar of section 2.1 of RFC 7235. | Every 401 response, for example a POST with no `Authorization` header. | The same value with a closing double quote after the realm text. | high; not executed | `Gateway.DeniedAsWrittenMalformed` | `Gateway.ChallengeWellFormed` |

`Gateway.DeniedAsWritten` is the 401 response exactly as main.ts:76-84 builds it.
`Gateway.Denied` is the corrected response, and `NotAuthenticated`, `Post`, `Dispatch`,
`ServePost` and `Handle` send it. `Gateway.DeniedAsWrittenMalformed` proves that the two
responses differ only in the `www-authenticate` value. So every property proved about
`Dispatch` holds for the code as written, apart from that one header value.

## Left out

- The Oak `Application`, `listen`, the `Context` plumbing and async scheduling are left out. The handler is one synchronous step over explicit inputs and outputs.
- The framework's defaults for fields the handler leaves unset are not modelled. For example, the status becomes 200 when a body is set and 404 when nothing is set. Each response field is an `Option` that records only what the handler assigns.
- The S3 client, its configuration from environment variables, and the network calls are replaced by an in-memory map. A failing `getObject` or `putObject` is therefore not modelled, and neither is the server error it would cause.
- `GYAZO_USERNAME` and `GYAZO_PASSWORD` are read once per request in the source. They are passed in as an immutable `Config`.
- SHA-1 is not computed. It is the parameter `sha1`, whose type promises 40 lower-case hex digits. The ETag is produced by `Storage.Bucket.PutObject` through the function `etagOf` of the stored content.
- Multipart form-data parsing and the enforcement of `maxSize` happen inside the framework, whose code is not part of this model. A request carries the body's size and its parsed file fields. The model treats `maxSize` as a bound on the whole body: `ReadUpload` fails with `BodyTooLarge` for a body over 1,000,000 bytes. main.ts:118-120 only passes the number. If the framework instead applies the bound to each file, the two readings differ. A body over 1,000,000 bytes whose first file is small keeps that file's `content`, and main.ts:121-126 stores it, while the model rejects the body. A first file over the bound is kept out of memory, so `content` is absent and main.ts:121-123 throws; only in that case do both readings let an error escape with nothing stored.
- `getObject` streams are modelled as one chunk. `ReaderToBytes` is proved for any chunking. `getReader` and `releaseLock` are not modelled.
- The text of the HTML page is not modelled. `Page` is a constant with no given value.
- `normalize()` is not modelled as a separate step. It is the identity on what `atob` returns, because every code point below U+0100 is already in normalization form C.
- `Headers.get` and `has` match header names case-insensitively and trim the value. The model receives the `Authorization` value as already extracted.
- JavaScript strings are UTF-16 code units, while Dafny characters are Unicode scalar values. The two agree on every string the parser can produce, since those are all below U+0100.
- `Gateway.UploadIdempotent` and `Gateway.UploadThenGet` assume that the store's ETag is a function of the content alone (`etagOf`). S3 gives such an ETag, the MD5 digest of the body, for a single-part PUT without KMS encryption, which is what main.ts:124-126 issues. A store whose ETag is opaque could give the second upload a different ETag. Then the store after a repeated upload would differ in that ETag, and the ETag served after an upload would be whatever the store chose. The name, the reply, the content and the content type do not depend on this assumption.
- `Gateway.NotAuthenticated` sends the challenge with the realm's closing quote, not the text of main.ts:81 (see Findings).
