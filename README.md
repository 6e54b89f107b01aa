# gopher-b2: large-file upload bookkeeping, in Dafny

This project models the bookkeeping of the gopher-b2 Backblaze B2 client around
large (multi-part) uploads, and proves properties of that model:

- **Splitting a file into pieces** (`createTempFiles`):
  - the file is cut into 100 MiB chunks;
  - each piece gets a temp-file name;
  - each piece gets its own hex SHA1;
  - each piece's part-upload URL is requested.
- **Per-piece status lifecycle** (`B2UploadPart`, `uploadParts`, `removeTempFiles`):
  - "Not Started" at creation;
  - "Success" or "Failed" after the part upload;
  - "Success - Deleted" after cleanup.
- **The large-file pipeline** (`B2LargeFileUpload`): start, split, upload the
  parts, finish, and clean up only when finish returned a nil error.
- **The older `UpToB2File` revision** (up.go):
  - piece planning;
  - the cached total size;
  - the sequential piece hashing;
  - the choice between a single request and the large-file path.
- **Request texts and small checks:**
  - the start-large-file body, the finish-large-file body with its
    `partSha1Array`, and the create-bucket body;
  - the HTTP Basic credential `"Basic " + base64(AcctID + ":" + AppID)`, using
    the padded base64 of section 4 of RFC 4648 under the scheme of section 2 of
    RFC 7617;
  - the account and application ID checks, the bucket-name length check, the
    bucket type, and the bucket listing.

The model's inputs stand in for the outside world:

- **Server answers:** every answer is an input. `Reply<T>` is either
  `NoResponse`, a transport error, or a status line plus a body that may not
  decode.
- **Hash functions:** SHA-1 and BLAKE2b are function parameters returning 20-
  and 64-byte digests.
- **Local files:** a local file is `FileRead` (util.go, upload.go) or `OsFile`
  (up.go).
- **The file system:** a `Disk` object holding a map from path to contents.

A Go `logger.Fatal`, `log.Fatal` or the nil-pointer panic on a missing response
ends the process. The model writes that as a `Stop` result.

Go passes `LargeFile` by value, but its `Temp` slice shares one backing array. The
status writes of `B2UploadPart` and `removeTempFiles` are therefore seen by the
caller, so `LargeFile` is a class whose `temp` field the methods reassign.
`UpToB2File` is a class for the same reason: its methods change its fields.

Modules, one per file:

| module | file | contents |
|---|---|---|
| `Base` | base.dfy | bytes, `Option`, `Result`, Go's truncating division |
| `Encoding` | encoding.dfy | decimal, hex, UTF-8 and base64 texts, and JSON templates filled by concatenation, each with its read-back |
| `Types` | types.dfy | the records, replies, statuses, `LargeFile` and `Disk` |
| `Auth` | auth.dfy | auth.go |
| `Util` | util.dfy | util.go |
| `Upload` | upload.dfy | upload.go |
| `Up` | up.dfy | up.go |
| `Buckets` | buckets.dfy | buckets.go |

Sizes are unbounded integers. Go's `float64` `math.Ceil` and `math.Min` become
integer ceiling division and `min`, which agree with them on every size below 2^53.

## Model

| member | source | states |
|---|---|---|
| Base.GoDiv | up.go:58 | Go's `/` truncates toward zero: for a non-negative dividend the quotient is the floor, for a negative one it is the ceiling |
| Encoding.Decimal | util.go:63 | `strconv.FormatUint(i, 10)` is a non-empty string of digits with no leading zero |
| Encoding.DecimalRoundTrip | util.go:63 | the decimal text reads back as the same number |
| Encoding.DecimalInjective | util.go:63 | different indices print as different texts |
| Encoding.FormatIntRoundTrip | upload.go:216 | `fmt.Sprintf("%d", x)` reads back as `x`, negative values included |
| Encoding.HexEncode | util.go:147 | `hex.EncodeToString` gives two lowercase hex digits per byte |
| Encoding.HexRoundTrip | util.go:147 | the hex text decodes back to the digest bytes |
| Encoding.Utf8Append | auth.go:60 | `[]byte` of a concatenation is the concatenation of the byte sequences |
| Encoding.Utf8AsciiOccurs | auth.go:60 | the ':' character occurs in the text exactly when byte 0x3A occurs in its UTF-8 bytes |
| Encoding.Base64Encode | auth.go:60 | `base64.StdEncoding` output is four characters per started group of three bytes |
| Encoding.Base64IndexOfChar | auth.go:60 | each base64 alphabet letter maps back to its own index |
| Encoding.Base64RoundTrip | auth.go:60 | padded standard base64 decodes back to the original bytes for every input |
| Encoding.UnfillFill | upload.go:216 | a body built by concatenating literals and quote-free values determines those values |
| Types.StatusTextInjective | util.go:98 | the four status strings "Not Started", "Success", "Failed" and "Success - Deleted" are pairwise different |
| Types.LargeFile.constructor | upload.go:151 | `var largeFile LargeFile` starts with every field at its zero value and no pieces |
| Auth.Lookup | auth.go:37-50 | the value is non-empty exactly when the key is present with a non-empty value, and a non-empty value is the stored one; an absent key reads as "" |
| Auth.LoadConfig | auth.go:32-58 | the account ID (and likewise the application ID and API URL) is non-empty exactly when the chosen source has its key with a non-empty value: `Account1.*` in the settings when the settings read succeeds, the `B2AcctID`/`B2AppID`/`B2APIURL` variable otherwise; this is when the checks of auth.go:54-58 let authorization go on |
| Auth.ConfigSourceExclusive | auth.go:32-53 | the config comes from the `Account1.*` settings keys when the settings read succeeds and from `B2AcctID`/`B2AppID`/`B2APIURL` when it fails; the two sources never mix; an absent key gives "" |
| Auth.BasicCredential | auth.go:60 | the header starts with "Basic " followed by the padded base64 of `AcctID:AppID` |
| Auth.BasicCredentialRoundTrip | auth.go:78 | when the account ID has no ':', a server splitting the decoded credential at the first ':' recovers exactly the account and application IDs |
| Auth.AuthorizeAcct | auth.go:54-119 | an empty AcctID stops first; otherwise an empty AppID stops; success holds iff both IDs are set, the reply is "200 OK" and decodes, and its accountId equals the configured AcctID; the result is the decoded reply |
| Auth.MissingIdsStopBeforeRequest | auth.go:54-58 | with an ID missing the outcome does not depend on the server reply: the checks come before any request |
| Auth.UploadPartUrlBodyRoundTrip | auth.go:232 | the get-upload-part-URL body gives back the file ID |
| Auth.GetUploadPartURL | auth.go:241-266 | succeeds iff the status is "200 OK" and the body decodes, and then returns the decoded URL, token and file ID; anything else stops the process |
| Auth.QuotedListSnoc | auth.go:177-184 | appending a piece adds a comma and its quoted hash at the end, so there is no trailing comma |
| Auth.BuildPartSha1Array | auth.go:174-185 | the buffer loop produces each piece's SHA1 in double quotes, comma-separated, in piece order ("" for no pieces) |
| Auth.ParseItemsOfQuotedList | auth.go:174-185 | a non-empty list of quote-free hashes parses back item by item |
| Auth.QuotedListRoundTrip | auth.go:174-185 | the `partSha1Array` text parses back to the same ordered list of hashes |
| Auth.FinishBodyRoundTrip | auth.go:190 | the finish body gives back the file ID and the ordered list of piece hashes |
| Auth.FinishLargeFile | auth.go:200-223 | a transport error panics on the nil response; any status, "200 OK" or not, yields a nil error |
| Util.FileSHA1 | util.go:126-148 | the result fails iff the file cannot be opened or read, and then the text is "fail"; otherwise the text is 40 lowercase hex digits decoding to the SHA1 of the contents |
| Util.FileBlake2b | util.go:150-170 | the same shape over the full 64-byte BLAKE2b-512 digest (128 hex digits) |
| Util.FailTextMeansFailure | upload.go:209 | comparing the SHA1 text with "fail" detects exactly a failed read, because hex never spells "fail" |
| Util.ExtStartMeaning | util.go:45 | `filepath.Ext` scans back to the last '.' after the last '/' |
| Util.ExtShape | util.go:45 | the extension is empty or a suffix of the path that starts with its only '.' and has no '/' |
| Util.Ext | util.go:45 | the extension is empty or starts with '.' and ends the path |
| Util.TrimSuffix | util.go:63 | `strings.TrimSuffix` removes the suffix exactly when it is present, otherwise leaves the text as it is |
| Util.TempNameShape | util.go:63 | a temp name starts with the temp directory as given and ends with "_", the decimal piece index and the original extension |
| Util.TempNamesDistinct | util.go:63 | two pieces of the same file never get the same temp name |
| Util.TempNameIgnoresDirectory | util.go:63 | the temp name depends on the original's directory only through the extension, so files with the same base name in different directories collide |
| Util.ExtOfJoin | util.go:45 | the extension of `dir/base` is the extension of `base` |
| Util.PartCountIsCeiling | util.go:49 | the piece count is the least number of 100 MiB chunks that hold the file, and 0 only for an empty file |
| Util.PartCount | util.go:49 | there are no pieces exactly when the file is empty |
| Util.PartSize | util.go:59 | every piece size lies in (0, 100 MiB] |
| Util.PartSizes | util.go:59 | every piece but the last is exactly 100 MiB; the last holds the remainder |
| Util.PieceBytes | util.go:58-61 | piece `i` holds exactly its planned size in bytes |
| Util.JoinedIsPrefix | util.go:58-61 | the first `k` pieces concatenated are the file's prefix up to their end; all the pieces together are the file |
| Util.PiecesEndAll | util.go:58-59 | the pieces end exactly at the end of the file |
| Util.FirstRefused | util.go:81 | the first piece whose part-URL request is refused: all before it are granted |
| Util.FirstRefusedAt | util.go:81 | pins the first refusal to the index where the split loop stopped |
| Util.Plan | util.go:88-100 | the split appends exactly one record per granted piece, in index order |
| Util.PlanStep | util.go:100 | each loop pass appends the record of piece `i` after those of the earlier pieces |
| Util.PlanAt | util.go:88-100 | record `i` of the plan is the record built for piece `i` from its own part-URL reply |
| Util.PlannedPiece | util.go:88-99 | the record for piece `i` is numbered `i` and has that piece's size and status "Not Started" |
| Util.PlannedPieceFields | util.go:88-99 | record `i` has PieceNum `i`, its piece's size, its temp path, status "Not Started", the 40-digit hex SHA1 of the piece's bytes, and the part URL, token and file ID of its reply; a file-ID mismatch is not checked |
| Util.SumSizesOfPartSizes | util.go:59 | records carrying the first piece sizes add up to where those pieces end |
| Util.PlanSizesSum | util.go:58-59 | the planned sizes sum to the end of the planned pieces, and to the file size once every piece is planned |
| Util.WrittenFilesHold | util.go:71 | after `k` writes the temp file of each earlier piece holds that piece's bytes |
| Util.WrittenFilesKeep | util.go:71 | files other than the temp paths are untouched by the split |
| Util.PartLimitBoundary | util.go:54 | a file of exactly 10000 chunks passes the part limit, and one byte more exceeds it |
| Util.QuarterGigabyteExample | util.go:47-59 | a 250 MiB file splits into pieces of 100, 100 and 50 MiB |
| Util.WritePiece | util.go:58-100 | one loop pass writes piece `i` to its temp file, then either stops on a refused part URL with no record appended, or appends the planned record |
| Util.WritePieces | util.go:57-101 | the loop writes the temp files and appends the records of the pieces up to the first refused part URL; it stops there with that refusal, or runs through every piece |
| Util.CreateTempFiles | util.go:19-103 | an unopenable file stops first; a file under 104857600 bytes stops with nothing changed; the piece count is stored; more than 10000 pieces stop before any file is written; otherwise it runs the piece loop |
| Util.CleanedUp | util.go:107-122 | after cleanup no piece is "Success": each "Success" piece becomes "Success - Deleted", and every other field and status stays as it was |
| Util.RemoveTempFiles | util.go:105-124 | relabels exactly the "Success" pieces "Success - Deleted", leaves the others as they are, and deletes exactly their temp paths |
| Util.CleanupIdempotent | util.go:105-124 | a second cleanup changes nothing and deletes nothing |
| Util.UnfinishedPieceKeepsFile | util.go:114-115 | with distinct paths, a piece not marked "Success" keeps its temp file |
| Util.PlanPathsDistinct | util.go:63 | the records of a plan have pairwise distinct temp paths |
| Upload.RouteMatchesSplitLimit | upload.go:61-65 | files of 104857600 bytes or more go the large way, exactly the split's lower limit, so they always give at least one piece |
| Upload.UploadRoute | upload.go:61-65 | the large path is taken exactly from the split's own lower limit of 104857600 bytes |
| Upload.StartLargeFileBodyRoundTrip | upload.go:216 | the start body gives back the SHA1 text, the millisecond time (a quoted decimal), the bucket ID and the file name, in that order |
| Upload.StartLargeFile | upload.go:195-251 | an unopenable file or a "fail" SHA1 stops; a transport error panics; "200 OK" with an undecodable body stops; "200 OK" returns the decoded `B2File`; any other status returns the zero `B2File`; the body sent carries the file SHA1 and the time truncated to milliseconds |
| Upload.StartBodyCarriesFileFacts | upload.go:206-216 | the body sent for a readable file carries its 40-digit SHA1, decoding to the digest, and its modification time in whole milliseconds |
| Upload.GoRuneString | upload.go:281 | Go's `string(int)` is a single character |
| Upload.ContentLengthAsWrittenIsNotTheSize | upload.go:281 | the Content-Length written for a 100 MiB part is U+FFFD: not the decimal size and not a number |
| Upload.ContentLengthReadsBack | upload.go:281 | the corrected header reads back as the part size |
| Upload.ContentLengthAsWrittenRefused | upload.go:281-294 | as written, a part of 1–8, 10–31 or 127 bytes gets a one-character control header, which net/http's header check refuses, so `client.Do` fails and upload.go:294 reads a nil response |
| Upload.SmallLastPieceRefused | upload.go:281-294 | a file of 104857605 bytes has a 5-byte last piece whose as-written header is refused, while the corrected decimal header is accepted |
| Upload.PartRequestOf | upload.go:276-284 | the request goes to the piece's URL with its token and SHA1 and the temp file's bytes; its Content-Length reads back as the piece size and its part number as `pieceNum + 1` |
| Upload.PartStatus | upload.go:300-317 | a part is "Success" exactly on a "200 OK" response and "Failed" otherwise |
| Upload.PartNumbers | upload.go:282 | the part number is `pieceNum + 1`, and different pieces send different part numbers |
| Upload.UploadPart | upload.go:253-320 | a missing temp file stops; otherwise the request carries the piece's URL, 1-based part number, token, SHA1 and bytes; a transport error panics; any status sets only piece `pieceNum`: "Success" on "200 OK", "Failed" otherwise |
| Upload.FirstPartStop | upload.go:326-330 | the first piece whose upload stops the process: all earlier ones go through |
| Upload.UploadParts | upload.go:321-333 | every index `0..len(Temp)-1` is uploaded once, in order, each setting only its own status, until one stops the process |
| Upload.UploadedStatuses | upload.go:300-317 | afterwards every piece is "Success" or "Failed", "Success" exactly on its own "200 OK", with nothing else changed |
| Upload.UploadInOrderAt | upload.go:326-329 | after uploads in any order, a piece is updated by its own reply iff its index ran |
| Upload.UploadOrderIrrelevant | upload.go:326-330 | the result does not depend on the completion order of the goroutines, as long as every index runs |
| Upload.StatusLifecycle | util.go:98 | a "Not Started" piece ends "Success - Deleted" if its upload got "200 OK" and "Failed" otherwise, and stays so under a further cleanup |
| Upload.LeftoverTempFiles | upload.go:162-189 | after a full run, piece `i`'s temp file is left, with its bytes, exactly when its upload failed |
| Upload.FinishAndCleanUp | upload.go:180-189 | the finish body lists the piece hashes in order; cleanup runs exactly when finish returns a nil error |
| Upload.PlannedPartsGoThrough | upload.go:321-333 | once every temp file is written, the part uploads stop the process exactly when some part gets no response |
| Upload.FinishListsPieceHashes | auth.go:174-190 | the finish body's hash list holds, in piece order, the hex SHA1 of each piece's bytes |
| Upload.SplitAndUpload | upload.go:162-179 | the run goes on iff the file is within the size and part limits, every part URL is granted and every part upload gets a response; it then holds the planned records with their upload statuses, and every temp file written |
| Upload.SplitUploadFinish | upload.go:162-189 | the finish request is made iff the split and the part uploads go through, with the piece hashes in order; the run goes on iff the finish call also gets a response, and then ends with the records uploaded and cleaned and the temp files of the successful pieces deleted |
| Upload.UploadStarted | upload.go:151-189 | the `LargeFile` is filled in from the start reply and the file; the finish request and the outcome are as for the split, upload and finish stages, with the same if-and-only-if conditions |
| Upload.LargeFileUpload | upload.go:136-192 | a stopping start call ends the run with the disk unchanged and no finish request; a non-"200 OK" start only warns and the pipeline goes on with the zero `B2File`; the run completes iff the start call goes on, the split and part uploads go through and the finish call gets a response; a completed run leaves every piece uploaded, then cleaned, and exactly the successful temp files deleted |
| Up.ReadCount | up.go:284 | one `Read` copies what is left of the file, at most the buffer size and at most 1 GiB; it copies something whenever bytes are left, and fills a buffer of at most 1 GiB that fits in the file |
| Up.ReadBuffer | up.go:283-284 | the buffer keeps its allocated size whatever was read |
| Up.FullRead | up.go:284 | a read of at most 1 GiB that fits in the file is exactly those bytes and does not hit EOF |
| Up.WholeFileRead | up.go:309-310 | the single whole-file read sees the whole file up to 1 GiB; for a larger file the buffer holds the first 1 GiB followed by zeros |
| Up.ReadPos | up.go:281-284 | the position after the reads for the first pieces never passes the end of the file |
| Up.ReadPosIsClampedSum | up.go:281-284 | while no piece is over 1 GiB, the position after `i` reads is the sum of their sizes, stopped at the end of the file |
| Up.PlannedReadPos | up.go:281-284 | over a freshly planned file, piece `i` is read from `i` times 100 MiB |
| Up.LoopSizeIsPartSize | up.go:79-91 | `min(PieceSize, remaining)` of the decrementing loop is util.go's part size for each index |
| Up.SizesBeforePlanned | up.go:75-94 | piece `i` of the plan starts at `i` chunks |
| Up.PlannedSizesSum | up.go:75-94 | the planned sizes sum to `TotalSize` |
| Up.PlannedSizes | up.go:75-94 | piece `i` is numbered `i`, "Unprocessed" and unhashed; all planned pieces but the last hold `PieceSize` bytes and the last holds the remainder; no part limit applies |
| Up.FirstEof | up.go:284-287 | the first piece whose read meets the end of the file, where the hashing walk stops |
| Up.FirstEofClear | up.go:284-287 | no piece before that one meets the end of the file |
| Up.FirstEofNone | up.go:284-287 | when no read from a point on meets the end of the file, the walk reaches the last piece |
| Up.PlannedReadsNeverEof | up.go:281-296 | no read over a freshly planned file meets the end of the file |
| Up.PlannedReadsAreFull | up.go:281-296 | over the plan, piece `i` is hashed over exactly util.go's piece `i` bytes |
| Up.PlannedReadsAllFull | up.go:95 | neither the piece hashing nor the whole-file read of a freshly planned file meets the end of the file |
| Up.HashPieces | up.go:281-296 | consecutive reads in index order, each starting where the previous one stopped, each piece getting the hex SHA1 of its buffer; the first `io.EOF` read stops the walk |
| Up.UpToB2File.constructor | up.go:44-45 | a zero-valued object holding the path |
| Up.UpToB2File.GetTotalSize | up.go:262-273 | returns the cached `TotalSize` when non-zero; otherwise returns and stores the sum of piece sizes |
| Up.UpToB2File.TotalSizeCached | up.go:262-273 | two `getTotalSize` calls in a row return the same value |
| Up.UpToB2File.GetPieceSHA1s | up.go:274-300 | an open failure changes nothing; otherwise the pieces are hashed from consecutive reads up to the first `io.EOF` |
| Up.UpToB2File.GetSHA1 | up.go:301-328 | one read of `TotalSize` bytes is hashed; an EOF read is returned; a short read is not checked |
| Up.UpToB2File.GetBlakeb2 | up.go:329-349 | the read error is ignored, and the result is the hex of the first 32 bytes of BLAKE2b-512 (64 hex digits) |
| Up.UpToB2File.Process | up.go:104-122 | piece hashes, then the SHA1, then the BLAKE2b, then the total: an open failure changes nothing; an EOF in the piece reads leaves the pieces hashed up to it and the other fields unchanged; an EOF in the whole-file read leaves every piece hashed and the other fields unchanged; otherwise every field gets its hash |
| Up.UpToB2File.UploadStandard | up.go:127-193 | on "200 OK" with a matching SHA1, piece 0 becomes "Upload Success"; a mismatch stops; any other status returns an error and changes nothing |
| Up.UpToB2File.Upload | up.go:125-261 | with exactly one piece, the outcomes of the one-request path: no response stops, "200 OK" with a matching SHA1 marks the piece "Upload Success", a mismatch stops, another status returns an error; otherwise the pieces are untouched, an open failure is returned, and a start failure stops |
| Up.StartLargeFile | up.go:350-388 | the same body as upload.go:216 from the object's fields; "200 OK" returns the decoded file, another status the zero `B2File`, and a transport error panics |
| Up.PlanPieces | up.go:62-94 | `PieceSize` is `min(100 MiB, TotalSize)`, and the loop appends the planned "Unprocessed" pieces in order |
| Up.PlannedB2File | up.go:43-94 | the object holds the path, the file's name, its time in milliseconds, its size, `min(100 MiB, size)` as `PieceSize`, and the planned unhashed pieces |
| Up.NewB2File | up.go:43-101 | a missing file returns its error; otherwise the time is nanoseconds `/` 1000000, the total size is cached, the pieces are planned and hashed, and the file hashes are taken over the single whole-file read |
| Up.UpRoute | up.go:127 | the one-request path exactly when the plan has one piece |
| Up.OneRequestSizes | up.go:127 | a planned file goes up in one request exactly when it holds 1 byte to 100 MiB |
| Up.RevisionsDisagree | up.go:127 | the two revisions choose the one-request path differently exactly for an empty file and a file of exactly 100 MiB |
| Buckets.NameLengthBounds | buckets.go:32 | `len` counts bytes: six characters always pass and at most one character never does |
| Buckets.NameTooShort | buckets.go:32 | the name is too short exactly when its UTF-8 bytes number under six, which needs fewer than six characters |
| Buckets.BucketType | buckets.go:39-42 | "allPublic" exactly when the flag is set, "allPrivate" exactly when it is not |
| Buckets.CreateBucketBodyRoundTrip | buckets.go:49 | the create body gives back the account ID, the name and the type, in that order |
| Buckets.CreateBucket | buckets.go:29-96 | a short name stops first; then authorization; then the request, which must come back "200 OK"; the request carries the authorization's URL, token and account ID |
| Buckets.ShortNameStopsFirst | buckets.go:32-45 | a short name stops the same way whatever the configuration and the replies |
| Buckets.BucketRowCells | buckets.go:159 | each row splits at tabs into the ID, the name and the type, then an empty cell |
| Buckets.BucketRow | buckets.go:159 | a row starts with the bucket ID, ends with a tab, and adds five separator characters to the three texts |
| Buckets.PrintBuckets | buckets.go:151-166 | a nil list returns "No Buckets to print" and prints nothing; otherwise it prints the title, the header, one row per bucket in order and a blank line, and returns nil |

## Left out

- HTTP, JSON and networking:
  - HTTP requests, JSON decoding and the network are server replies given as inputs;
  - `http.NewRequest` errors are not modelled;
  - the request URLs and headers are modelled only where a property is stated about them.
- The goroutines and `sync.WaitGroup` of `uploadParts` run sequentially in index
  order. `UploadOrderIrrelevant` shows that any completion order gives the same
  statuses. The up.go worker pool only sleeps and prints, so it has no effect.
- The SHA-1 and BLAKE2b algorithms are uninterpreted functions with fixed digest
  lengths.
- The `float64` `math.Ceil`/`math.Min` in util.go and up.go are integer arithmetic.
  This is exact for sizes below 2^53.
- `int64` widths are unbounded, and no size in the model comes near 2^63.
- OS calls:
  - `os.TempDir()` is a parameter;
  - in `createTempFiles`, stat failure is merged with open failure, every read
    fills its buffer, and every `os.Create`/`ioutil.WriteFile` succeeds;
  - `os.Remove` always succeeds;
  - `OpenFailedMessage` stands for the `os` error text.
- Logging (zap, logrus), the progress bars, and the alignment done by `tabwriter`
  are output side effects with no effect on control flow. PrintBuckets returns the
  lines before alignment.
- The account authorization calls made inside other requests are taken as
  succeeded:
  - `B2FinishLargeFile` (auth.go:172) and `B2GetUploadPartURL` (auth.go:227) each
    call `AuthorizeAcct`, modelled as `Auth.AuthorizeAcct`; during the split that
    is one call per piece;
  - `B2StartLargeFile` and up.go's `startB2LargeFile` call `B2AuthorizeAccount`,
    which is not part of this model.
- checkError is not part of this model. On a failed open in `B2StartLargeFile` it
  is taken to stop the process.
- The bodies of `B2UploadFile`, `B2GetUploadURL`, `GetBuckets` and `encodeFilename`
  (network and printing only) are not modelled. Only the size dispatch of
  `UploadFile` is.
- `viper`'s case-insensitive keys are not modelled. Settings are a plain map read
  by exact key.
- The `httputil` dump failures of up.go:178-187 are not modelled. A non-"200 OK"
  single upload returns the error.
- cmd/main.go, localdb.go, files.go, b2auth.go and gopherb2.go's logger setup are
  not part of this model.
- Upload.FinishAndCleanUp: its branch for a non-nil finish error cannot be reached
  through `FinishLargeFile`, which never returns one, but the branch is kept as
  upload.go:182-186 has it.
- Up.UpToB2File.Upload: states only the stop/error outcome of the multi-part path.
  That path uploads nothing.
- Upload.UploadPart: the request carries the corrected decimal Content-Length
  (`Upload.ContentLength`), not the one-character text upload.go:281 writes
  (`Upload.ContentLengthAsWritten`, see Findings). net/http never sends a
  Content-Length from the header map: it writes the body length that
  `http.NewRequest` took from the buffer (upload.go:278), so the server always
  sees the true length. What the model does not capture is the one observable
  effect of the as-written text: for a last piece of 1–8, 10–31 or 127 bytes the
  header holds a control character, the transport refuses it, `client.Do`
  fails and upload.go:294 panics on the nil response. `UploadPart` does not
  force that outcome for such pieces; `Upload.ContentLengthAsWrittenRefused`
  states it apart.

Where the code and its documentation differ, the model follows the code:

- `B2FinishLargeFile` returns nil on a non-"200 OK" status, so cleanup still runs.
- `B2UploadPart` stops the process (`logger.Fatal`) when the temp file cannot be
  read, instead of marking the piece "Failed".
- The short-read check of `getSHA1` (up.go:314-316) has an empty body.
- The over-10000-parts branch of up.go:72-74 has an empty body, so up.go has no
  part limit.

## Findings

| source | as written | input that shows it | evidently intended | confidence | as-written member | corrected member |
|---|---|---|---|---|---|---|
| upload.go:281 | `string(largeFile.Temp[pieceNum].Size)` converts the integer to the one character with that code point | a file of 104857605 bytes: its 5-byte last piece gets the header text "\u0005", a control character that net/http refuses, so `client.Do` fails and upload.go:294 panics on the nil response (a 100 MiB part gets "\U{FFFD}", which net/http drops in favour of the body length) | the decimal size, as `fmt.Sprintf("%d", ...)` writes it elsewhere | not executed | Upload.SmallLastPieceRefused | Upload.ContentLengthReadsBack |
