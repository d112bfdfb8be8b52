# mixfile_weibo upload core in Dafny

The service accepts an image in the body of an HTTP PUT and re-uploads it to Weibo's picture upload endpoint. It answers with the public URL of the stored picture. Two parts of `main.go` carry real logic, and this project models and verifies both.

- **`crc32`**: the table-free, bit-by-bit reflected CRC-32 the upload endpoint demands in its `cs` query parameter. It uses polynomial 0xEDB88320, a register preset to all ones, and a complemented result. Module `Crc32` models it as a left fold of a per-byte update over `seq<bv8>`, with the register as a `bv32`. That makes the 32-bit wrap-around of Go's `uint32` exact, including the wrap of `-(crc & 1)`. `ComputeChecksum` is the nested loop of the source, proved equal to the fold.
- **The reference CRC**: module `Rfc1952` is the table-driven CRC-32 of section 8 of RFC 1952 (`make_crc_table`, `update_crc`, `crc`). It is proved equal to the source's checksum on every input. The proof goes through the identity that one table lookup does the work of eight bit steps.
- **`fmt.Sprintf("%d", …)`**: module `Decimal` renders the checksum in decimal and reads it back.
- **The PUT handler** (module `Upload`) is a pure decision function. Its inputs are:
  - whether the inbound body was read;
  - whether the request could be built;
  - whether the send succeeded;
  - whether the reply was read;
  - a `Decoder` standing for the JSON library, which maps the reply bytes to the decoded `pic.pid`.

  The output is a `Reply`: the status, the text, and the request handed to the HTTP client, if any.

## Model

| member | source | states |
|---|---|---|
| Crc32.Step | main.go:43 | The branch-free step equals the branching one on every register. With the low bit set it is the shift XOR 0xEDB88320; otherwise it is the plain shift. |
| Crc32.Steps | main.go:42-44 | The inner loop: `n` applications of the step. It is a definition with no contract of its own; `ComputeChecksum`'s inner-loop invariant and the table lemmas are proved against it. |
| Crc32.UpdateByte | main.go:41-44 | One pass of the outer loop: XOR the byte in, then eight steps. It is a definition with no contract of its own; `UpdateByteSplit` and `Rfc1952.TableStepAgrees` state what it computes. |
| Crc32.Register | main.go:40-45 | The outer loop as a left fold of `UpdateByte`. It is a definition with no contract of its own; `Checksum` and `ComputeChecksum` are proved against it, and `RegisterAppend` states its fold property. |
| Crc32.Checksum | main.go:39-46 | The checksum of the empty buffer is 0: the preset all-ones register is complemented straight back. |
| Crc32.ComputeChecksum | main.go:38-47 | The nested loops of the source, with the inner step written as in the source, compute the left fold of the per-byte update started from 0xFFFFFFFF and complemented. |
| Crc32.RegisterAppend | main.go:39-45 | The register after `a + b` is the register after `b` started from where `a` left it. |
| Crc32.RegisterSnoc | main.go:40-45 | Appending one byte costs exactly one more per-byte update. |
| Crc32.StepXorEven | main.go:43 | XORing a value with a clear low bit into the register commutes with a step; the value is shifted right along with the register. |
| Crc32.EightStepSplit | main.go:42-44 | Eight steps of a register equal eight steps of its low byte, XOR the register shifted right by eight. |
| Crc32.UpdateByteSplit | main.go:41-44 | Absorbing a byte equals eight steps of the low byte of (register XOR byte), XOR the register shifted right by eight. This is the identity behind table-driven CRC-32. |
| Crc32.CheckValue | main.go:38-47 | The ASCII digits "123456789" give the standard check value 0xCBF43926. |
| Rfc1952.StepIsBranchStep | main.go:43 | The source's branch-free step equals the branching step of RFC 1952's `make_crc_table` on every register. |
| Rfc1952.StepsAgree | main.go:42-44 | Any number of branch-free steps equals as many branching steps. |
| Rfc1952.TableEntryIsEightSteps | main.go:42-44 | Every entry of the RFC 1952 table equals eight of the source's steps applied to the entry's index. |
| Rfc1952.TableStepAgrees | main.go:41-44 | One table lookup of `update_crc` equals the source's XOR-in-the-byte plus eight steps, for every register and byte. |
| Rfc1952.TableRegisterAgrees | main.go:40-45 | The table-driven loop and the source's loop leave the same register for every starting register and buffer. |
| Rfc1952.ChecksumIsRfc1952Crc | main.go:38-47 | The source's checksum is the CRC-32 of RFC 1952 on every input. |
| Rfc1952.ChecksumContinues | main.go:38-47 | Continuing the source's checksum of `a` over `b` with `update_crc` gives the source's checksum of `a + b`. |
| Rfc1952.CrcCheckValue | main.go:38-47 | The reference CRC of "123456789" is 0xCBF43926, the same value the source's checksum gives. |
| Decimal.Show | main.go:86 | The `%d` rendering is a nonempty digit string with no leading zero. It is "0" exactly for zero. |
| Decimal.ValueShow | main.go:86 | Reading a rendering back as a decimal number gives the number. |
| Decimal.ShowValue | main.go:86 | Every canonical digit string is the rendering of its own value, so each number has exactly one rendering. |
| Decimal.ShowInjective | main.go:86 | Two numbers render alike if and only if they are equal. |
| Decimal.ShowLength | main.go:86 | A rendering has at most `k` digits exactly when the number is below 10^k. |
| Decimal.ShowUint32 | main.go:86 | A 32-bit checksum renders in at most ten digits. |
| Upload.Param | main.go:85-88 | Looking up a query parameter finds a value exactly when the key is present. The value found is the one bound to the key's first occurrence. |
| Upload.BuildRequest | main.go:77-92 | The outbound request has these fields: <br>• a POST to the upload endpoint; <br>• the inbound body unchanged; <br>• `cs` set to the decimal CRC-32 of that body; <br>• `ent` set to "miniblog"; <br>• content type "image/gif"; <br>• the configured cookie. <br>The query holds no key other than `cs` and `ent`, and no key twice, as the two `Add` calls on an empty query make it. |
| Upload.ImageUrl | main.go:123 | The success URL is the fixed `https://wx3.sinaimg.cn/large/` prefix followed by exactly the picture id. |
| Upload.PidOf | main.go:123 | A URL yields a picture id exactly when it starts with the image URL prefix. |
| Upload.HandlePut | main.go:68-126 | The reply is always 200, 403 or 500. <br>• 500, with the internal-error text, iff a local step failed (body read, request construction, send, reply read). <br>• 403, with the upload-failed text, iff no local step failed and decoding failed or gave an empty picture id. <br>• 200, with the image URL of the decoded id, otherwise. <br>A request reaches the client iff the body was read and the request was built, and that request is `BuildRequest` of the inbound body. |
| Upload.StatusOfFirstFailure | main.go:70-120 | The status is determined by the first failing step: 500 for the four local steps, 403 for decoding, 200 when none fails. A request reaches the client unless the first failure is the body read or request construction. |
| Upload.FailureIsFinal | main.go:70-120 | Once a step fails, changing the outcomes of later steps changes neither the first failure nor the reply. |
| Upload.ChecksumCoversForwardedBytes | main.go:78-87 | The request handed to the client carries the inbound body unchanged. Its `cs` parameter reads back as the CRC-32 of exactly those bytes. |
| Upload.PidOfImageUrl | main.go:123 | The picture id is recovered from the image URL built from it. |
| Upload.ImageUrlOfPid | main.go:123 | Every URL carrying the prefix is the image URL of its remainder. |
| Upload.ImageUrlInjective | main.go:123-125 | Distinct picture ids give distinct success texts. |
| Upload.SuccessNamesPid | main.go:117-125 | A 200 reply names a nonempty decoded picture id through the image URL. Its text is never one of the failure texts. |

## Left out

- `loadConfig` (main.go:25-36) opens a file and decodes JSON; it has no logic of its own. `Config` is kept as the record the handler reads its cookie from.
- The GET handler (main.go:129-137) joins a path and serves a file from disk, which is all I/O.
- The `main` wiring (main.go:49-65, main.go:139-145) is also left out: the `runtime.Caller` directory lookup, router and middleware setup, port binding and process termination.
- The HTTP client call, the two body reads and request construction appear only as success or failure outcomes, because they are library calls.
- JSON decoding is the `Decoder` parameter, for the same reason. A reply that decodes but lacks `pic.pid` is modelled as decoding to the empty id, which is what unmarshalling into the source's struct yields.
- Upload.BuildRequest: the query is modelled as its list of key/value pairs in the order the encoded query string carries them. The percent-encoding of `q.Encode()` is a library call. No character of a decimal number or of "miniblog" needs escaping, so the encoded string is not modelled.
- Logging (main.go:98, main.go:124) is a side effect with no bearing on the reply, and is left out.
- Closing the reply body, and any concurrency from the HTTP server, are left out for the same reason.
- Upload.HandlePut: the reply text is modelled as the string handed to the response writer. Headers the router adds and the byte encoding of the text are not modelled.
