/** upload.go: the choice between standard and large upload, the start-large-file
    request, the per-part upload that sets each piece's status, and the large-file
    pipeline that ties split, part uploads, finish and cleanup together. */
module Upload {
  import opened Base
  import opened Encoding
  import opened Types
  import opened Auth
  import opened Util

  // ------------------------------------------------------------- dispatch

  datatype Route = Standard | Large

  /** `UploadFile` (upload.go:61-65): below 104857600 bytes the single-request
      upload, otherwise the large-file pipeline. */
  function UploadRoute(size: nat): (r: Route)
    ensures r == Large <==> size >= MinLargeFileSize
  {
    if size < 104857600 then Standard else Large
  }

  /** The dispatch threshold is the split's own lower limit, so a file sent down
      the large path is never refused as too small, and always yields at least
      one piece; every smaller file goes the standard way. */
  lemma RouteMatchesSplitLimit(size: nat)
    ensures UploadRoute(size) == Large <==> size >= MinLargeFileSize
    ensures UploadRoute(size) == Large ==> 1 <= PartCount(size)
    ensures UploadRoute(size) == Large && size <= ChunkSize ==> PartCount(size) == 1
  {
  }

  // ------------------------------------------------- start large file

  /** The literal pieces of the start-large-file body (upload.go:216). */
  const StartLargeFileTemplate: seq<string> := [
    "{\"fileInfo\": {\"large_file_sha1\": \"",
    "\",\"src_last_modified_millis\": \"",
    "\"},\"bucketId\": \"",
    "\",\"fileName\": \"",
    "\",\"contentType\": \"b2/x-auto\"}"]

  /** The start-large-file body: the file's SHA1 text, its modification time in
      milliseconds as a quoted decimal, the bucket ID and the file name. */
  function StartLargeFileBody(sha1Text: string, millis: int, bucketId: string, fileName: string): string
  {
    Fill(StartLargeFileTemplate, [sha1Text, FormatInt(millis), bucketId, fileName])
  }

  lemma FormatIntQuoteFree(x: int)
    ensures QuoteFree(FormatInt(x))
  {
    var d := if x < 0 then Decimal(-x) else Decimal(x);
    assert forall k :: 0 <= k < |d| ==> IsDigit(d[k]);
    if x < 0 {
      assert FormatInt(x) == "-" + d;
      assert forall k :: 0 <= k < |FormatInt(x)| ==> FormatInt(x)[k] == '-' || IsDigit(FormatInt(x)[k]);
    }
  }

  /** The body determines its four fields, in order, when none of the texts holds
      a double quote; the millisecond field reads back as the same number. */
  lemma StartLargeFileBodyRoundTrip(sha1Text: string, millis: int, bucketId: string, fileName: string)
    requires QuoteFree(sha1Text) && QuoteFree(bucketId) && QuoteFree(fileName)
    ensures var fields := Unfill(StartLargeFileTemplate, StartLargeFileBody(sha1Text, millis, bucketId, fileName));
      && fields.Some? && |fields.value| == 4
      && fields.value[0] == sha1Text
      && ParseInt(fields.value[1]) == Some(millis)
      && fields.value[2] == bucketId
      && fields.value[3] == fileName
  {
    var t := StartLargeFileTemplate;
    assert Delimited(t) by {
      assert t[1][0] == '"' && t[2][0] == '"' && t[3][0] == '"' && t[4][0] == '"';
    }
    var vals := [sha1Text, FormatInt(millis), bucketId, fileName];
    FormatIntQuoteFree(millis);
    UnfillFill(t, vals);
    FormatIntRoundTrip(millis);
  }

  /** A lowercase hex digest never holds a double quote. */
  lemma HexQuoteFree(s: string)
    requires IsLowerHex(s)
    ensures QuoteFree(s)
  {
    assert forall k :: 0 <= k < |s| ==> IsLowerHexChar(s[k]);
  }

  /** What `B2StartLargeFile` hands back: the body it sent, the response status,
      and the decoded `B2File` (its zero value unless the status is "200 OK"). */
  datatype Started = Started(requestBody: string, status: string, file: B2File)

  /** Stands for `checkError`, which is not part of this model; it is taken to
      stop the process on a non-nil error. */
  const ErrorCheckMessage := "checkError"
  const StartSha1Message := "Cannot parse API Auth Response JSON."
  const FileParseMessage := "File JSON Parse Failed"

  /** `B2StartLargeFile` (upload.go:195-251). `modNanos` is the modification time
      in nanoseconds since the epoch; `reply` is the server's answer. */
  function StartLargeFile(bucketId: string, fileName: string, source: FileRead, modNanos: int,
                          sha1: seq<byte> -> Sha1Digest, reply: Reply<B2File>): (r: Result<Started, Stop>)
    ensures source.CannotOpen? ==> r == Err(Fatal(ErrorCheckMessage))
    ensures source.ReadFails? ==> r == Err(Fatal(StartSha1Message))
    ensures source.Readable? && reply.NoResponse? ==> r.Err? && r.error.Panic?
    ensures source.Readable? && reply.Response? ==>
              (r.Err? <==> reply.status == StatusOK && reply.body.None?)
    ensures r.Err? && source.Readable? && reply.Response? ==> r.error == Fatal(FileParseMessage)
    ensures r.Ok? ==> && source.Readable? && reply.Response?
                      && r.value.status == reply.status
                      && (reply.status == StatusOK ==> r.value.file == reply.body.value)
                      && (reply.status != StatusOK ==> r.value.file == ZeroB2File)
    ensures r.Ok? ==>
              r.value.requestBody == StartLargeFileBody(FileSHA1(source, sha1).text, GoDiv(modNanos, 1000000), bucketId, fileName)
  {
    if source.CannotOpen? then Err(Fatal(ErrorCheckMessage))
    else
      var largeFileSha1 := FileSHA1(source, sha1).text;
      if largeFileSha1 == "fail" then Err(Fatal(StartSha1Message))
      else
        var body := StartLargeFileBody(largeFileSha1, GoDiv(modNanos, 1000000), bucketId, fileName);
        match reply
        case NoResponse => Err(Panic(NilResponseMessage))
        case Response(status, decoded) =>
          if status == StatusOK then
            if decoded.None? then Err(Fatal(FileParseMessage))
            else Ok(Started(body, status, decoded.value))
          else Ok(Started(body, status, ZeroB2File))
  }

  /** The body sent for a readable file carries its 40-digit SHA1 and its
      modification time truncated to milliseconds, and both read back. */
  lemma StartBodyCarriesFileFacts(bucketId: string, fileName: string, contents: seq<byte>, modNanos: int,
                                  sha1: seq<byte> -> Sha1Digest)
    requires QuoteFree(bucketId) && QuoteFree(fileName)
    ensures var h := FileSHA1(Readable(contents), sha1).text;
      var body := StartLargeFileBody(h, GoDiv(modNanos, 1000000), bucketId, fileName);
      var fields := Unfill(StartLargeFileTemplate, body);
      && fields.Some? && |fields.value| == 4
      && fields.value[0] == h && |h| == 40 && HexDecode(h) == sha1(contents)
      && ParseInt(fields.value[1]) == Some(GoDiv(modNanos, 1000000))
  {
    var h := FileSHA1(Readable(contents), sha1).text;
    HexQuoteFree(h);
    StartLargeFileBodyRoundTrip(h, GoDiv(modNanos, 1000000), bucketId, fileName);
  }

  // --------------------------------------------------------- part upload

  /** What `B2UploadPart` sends (upload.go:278-284). */
  datatype PartRequest = PartRequest(
    url: string,
    contentLength: string,
    partNumber: string,
    authorization: string,
    contentSha1: string,
    body: seq<byte>)

  /** Go's `string(n)` on an integer: the one character with that code point,
      or U+FFFD when `n` is not a Unicode scalar value. */
  function GoRuneString(n: int): (s: string)
    ensures |s| == 1
  {
    if 0 <= n < 0xD800 || 0xE000 <= n <= 0x10FFFF then [n as char] else "\U{FFFD}"
  }

  /** The Content-Length text upload.go:281 writes, as written. */
  function ContentLengthAsWritten(size: nat): string
  {
    GoRuneString(size)
  }

  /** As written, the header of a 100 MiB part is one replacement character: it
      is not the decimal size, and does not read back as a number. */
  lemma ContentLengthAsWrittenIsNotTheSize()
    ensures ContentLengthAsWritten(ChunkSize) == "\U{FFFD}"
    ensures ContentLengthAsWritten(ChunkSize) != Decimal(ChunkSize)
    ensures ParseInt(ContentLengthAsWritten(ChunkSize)) == None
  {
    assert !IsDigit('\U{FFFD}');
  }

  /** net/http's check of a header value before it is sent: a control character
      other than a tab makes the request fail in `client.Do`. */
  predicate HeaderValueRefused(v: string)
  {
    exists k :: 0 <= k < |v| && ((v[k] < ' ' && v[k] != '\t') || v[k] == 127 as char)
  }

  /** As written, a part of 1-8, 10-31 or 127 bytes gets a header holding one
      control character, which the transport refuses; upload.go:294 then reads
      the nil response. */
  lemma ContentLengthAsWrittenRefused(n: nat)
    requires (1 <= n < 32 && n != 9) || n == 127
    ensures ContentLengthAsWritten(n) == [n as char]
    ensures HeaderValueRefused(ContentLengthAsWritten(n))
  {
    assert ContentLengthAsWritten(n)[0] == n as char;
  }

  /** A file of 100 MiB and 5 bytes: its second and last piece holds 5 bytes, and
      the as-written header of that piece is refused, while the corrected one is
      accepted. */
  lemma SmallLastPieceRefused()
    ensures PartCount(ChunkSize + 5) == 2
    ensures PartSize(ChunkSize + 5, 1) == 5
    ensures HeaderValueRefused(ContentLengthAsWritten(PartSize(ChunkSize + 5, 1)))
    ensures !HeaderValueRefused(ContentLength(PartSize(ChunkSize + 5, 1)))
  {
    ContentLengthAsWrittenRefused(5);
    assert ContentLength(5) == "5";
  }

  /** The evidently intended header: the size in decimal. */
  function ContentLength(size: nat): string
  {
    Decimal(size)
  }

  lemma ContentLengthReadsBack(size: nat)
    ensures ParseInt(ContentLength(size)) == Some(size)
  {
    FormatIntRoundTrip(size);
  }

  /** The request for piece `pieceNum`, whose temp file holds `body`. */
  function PartRequestOf(p: TempPiece, pieceNum: nat, body: seq<byte>): (r: PartRequest)
    ensures ParseInt(r.contentLength) == Some(p.size)
    ensures ParseInt(r.partNumber) == Some(pieceNum + 1)
    ensures r.url == p.url && r.authorization == p.authorizationToken
    ensures r.contentSha1 == p.sha1 && r.body == body
  {
    FormatIntRoundTrip(p.size);
    FormatIntRoundTrip(pieceNum + 1);
    PartRequest(p.url, ContentLength(p.size), Decimal(pieceNum + 1), p.authorizationToken, p.sha1, body)
  }

  /** Part numbers are 1-based (B2 counts parts from 1) and tell the pieces apart. */
  lemma PartNumbers(p: TempPiece, q: TempPiece, i: nat, j: nat, b: seq<byte>, c: seq<byte>)
    ensures ParseInt(PartRequestOf(p, i, b).partNumber) == Some(i + 1)
    ensures i != j ==> PartRequestOf(p, i, b).partNumber != PartRequestOf(q, j, c).partNumber
  {
    FormatIntRoundTrip(i + 1);
    if i != j {
      DecimalInjective(i + 1, j + 1);
    }
  }

  /** The status a part's response gives it (upload.go:300-317). */
  function PartStatus(reply: Reply<()>): (s: UploadStatus)
    ensures s == Success <==> reply.Response? && reply.status == StatusOK
    ensures s != Success ==> s == Failed
  {
    if reply.Response? && reply.status == StatusOK then Success else Failed
  }

  const PartBufferMessage := "Could not create part upload buffer"

  /** `B2UploadPart` (upload.go:253-320): reads piece `pieceNum`'s temp file,
      posts it, and marks that piece "Success" on "200 OK" and "Failed" on any
      other status. A missing temp file stops the process (the copy from the
      unopened file fails); so does a transport error (the nil response is read). */
  method UploadPart(lf: LargeFile, disk: Disk, pieceNum: nat, reply: Reply<()>)
    returns (request: Option<PartRequest>, stop: Option<Stop>)
    requires pieceNum < |lf.temp|
    modifies lf`temp
    ensures var p := old(lf.temp[pieceNum]);
      && (p.path !in disk.files ==>
            request.None? && stop == Some(Fatal(PartBufferMessage)) && lf.temp == old(lf.temp))
      && (p.path in disk.files ==> request == Some(PartRequestOf(p, pieceNum, disk.files[p.path])))
      && (p.path in disk.files && reply.NoResponse? ==> stop == Some(Panic(NilResponseMessage)) && lf.temp == old(lf.temp))
      && (p.path in disk.files && reply.Response? ==>
            stop.None? && lf.temp == old(lf.temp)[pieceNum := p.(uploadStatus := PartStatus(reply))])
  {
    var piece := lf.temp[pieceNum];
    if piece.path !in disk.files {
      return None, Some(Fatal(PartBufferMessage));
    }
    var buffer := disk.files[piece.path];
    request := Some(PartRequest(piece.url, ContentLength(piece.size), Decimal(pieceNum + 1),
                                piece.authorizationToken, piece.sha1, buffer));
    if reply.NoResponse? {
      return request, Some(Panic(NilResponseMessage));
    }
    if reply.status == StatusOK {
      lf.temp := lf.temp[pieceNum := piece.(uploadStatus := Success)];
    }
    if reply.status != StatusOK {
      lf.temp := lf.temp[pieceNum := piece.(uploadStatus := Failed)];
    }
    stop := None;
  }

  /** Whether uploading a piece stops the process. */
  predicate PartStops(p: TempPiece, files: map<string, seq<byte>>, reply: Reply<()>)
  {
    p.path !in files || reply.NoResponse?
  }

  /** The stop it causes. */
  function PartStop(p: TempPiece, files: map<string, seq<byte>>, reply: Reply<()>): Stop
  {
    if p.path !in files then Fatal(PartBufferMessage) else Panic(NilResponseMessage)
  }

  /** The first piece from `from` on whose upload stops the process, or `|ps|`. */
  function FirstPartStop(ps: seq<TempPiece>, files: map<string, seq<byte>>, replies: nat -> Reply<()>, from: nat): (k: nat)
    ensures from <= |ps| ==> from <= k <= |ps|
    ensures forall i :: from <= i < k && i < |ps| ==> !PartStops(ps[i], files, replies(i))
    ensures k < |ps| ==> PartStops(ps[k], files, replies(k))
    decreases |ps| - from
  {
    if from >= |ps| then |ps|
    else if PartStops(ps[from], files, replies(from)) then from
    else FirstPartStop(ps, files, replies, from + 1)
  }

  /** The pieces after the uploads of the first `k` finished. */
  function UploadedUpTo(ps: seq<TempPiece>, replies: nat -> Reply<()>, k: nat): (r: seq<TempPiece>)
    ensures |r| == |ps|
  {
    seq(|ps|, i requires 0 <= i < |ps| =>
      if i < k then ps[i].(uploadStatus := PartStatus(replies(i))) else ps[i])
  }

  /** The pieces after every upload finished. */
  function Uploaded(ps: seq<TempPiece>, replies: nat -> Reply<()>): seq<TempPiece>
  {
    UploadedUpTo(ps, replies, |ps|)
  }

  /** `uploadParts` (upload.go:321-333) with its goroutines run one after the
      other in index order: every index from 0 to `|temp| - 1` is uploaded once. */
  method UploadParts(lf: LargeFile, disk: Disk, replies: nat -> Reply<()>) returns (stop: Option<Stop>)
    modifies lf`temp
    ensures var ps := old(lf.temp);
      var k := FirstPartStop(ps, disk.files, replies, 0);
      && lf.temp == UploadedUpTo(ps, replies, k)
      && (stop.None? <==> k == |ps|)
      && (k < |ps| ==> stop == Some(PartStop(ps[k], disk.files, replies(k))))
  {
    ghost var ps := lf.temp;
    var i := 0;
    while i < |lf.temp|
      invariant |lf.temp| == |ps| && 0 <= i <= |ps|
      invariant lf.temp == UploadedUpTo(ps, replies, i)
      invariant FirstPartStop(ps, disk.files, replies, 0) == FirstPartStop(ps, disk.files, replies, i)
    {
      var request;
      assert lf.temp[i] == ps[i];
      request, stop := UploadPart(lf, disk, i, replies(i));
      if stop.Some? {
        assert FirstPartStop(ps, disk.files, replies, i) == i;
        return;
      }
      assert lf.temp == UploadedUpTo(ps, replies, i + 1);
      i := i + 1;
    }
    return None;
  }

  /** After every upload, each piece is "Success" or "Failed", and "Success"
      exactly when its own response was "200 OK". */
  lemma UploadedStatuses(ps: seq<TempPiece>, replies: nat -> Reply<()>, i: nat)
    requires i < |ps|
    ensures Uploaded(ps, replies)[i].uploadStatus in {Success, Failed}
    ensures Uploaded(ps, replies)[i].uploadStatus == Success <==>
              replies(i).Response? && replies(i).status == StatusOK
    ensures Uploaded(ps, replies)[i].(uploadStatus := ps[i].uploadStatus) == ps[i]
  {
    assert Uploaded(ps, replies)[i] == ps[i].(uploadStatus := PartStatus(replies(i)));
  }

  /** The pieces after uploads run in the order `order` (each entry the index of
      one goroutine's piece), each setting only its own piece. */
  function UploadInOrder(ps: seq<TempPiece>, replies: nat -> Reply<()>, order: seq<nat>): (r: seq<TempPiece>)
    requires forall k :: 0 <= k < |order| ==> order[k] < |ps|
    ensures |r| == |ps|
  {
    if order == [] then ps
    else
      var i := order[|order| - 1];
      var before := UploadInOrder(ps, replies, order[..|order| - 1]);
      before[i := before[i].(uploadStatus := PartStatus(replies(i)))]
  }

  lemma {:induction false} UploadInOrderAt(ps: seq<TempPiece>, replies: nat -> Reply<()>, order: seq<nat>, i: nat)
    requires forall k :: 0 <= k < |order| ==> order[k] < |ps|
    requires i < |ps|
    ensures UploadInOrder(ps, replies, order)[i] ==
              if i in order then ps[i].(uploadStatus := PartStatus(replies(i))) else ps[i]
  {
    if order != [] {
      var init := order[..|order| - 1];
      UploadInOrderAt(ps, replies, init, i);
      assert order == init + [order[|order| - 1]];
      assert (i in order) == (i in init || i == order[|order| - 1]);
    }
  }

  /** The statuses do not depend on the order in which the goroutines finish:
      any order that reaches every index gives the same pieces as index order. */
  lemma UploadOrderIrrelevant(ps: seq<TempPiece>, replies: nat -> Reply<()>, order: seq<nat>)
    requires forall k :: 0 <= k < |order| ==> order[k] < |ps|
    requires forall i :: 0 <= i < |ps| ==> i in order
    ensures UploadInOrder(ps, replies, order) == Uploaded(ps, replies)
  {
    forall i | 0 <= i < |ps|
      ensures UploadInOrder(ps, replies, order)[i] == Uploaded(ps, replies)[i]
    {
      UploadInOrderAt(ps, replies, order, i);
    }
  }

  // ----------------------------------------------------- large-file pipeline

  /** The status lifecycle of one piece: "Not Started" when planned, then
      "Success" or "Failed" by its own upload response, then "Success - Deleted"
      for the uploaded ones once cleanup ran; a failed piece stays "Failed". */
  lemma StatusLifecycle(ps: seq<TempPiece>, replies: nat -> Reply<()>, i: nat)
    requires i < |ps| && ps[i].uploadStatus == NotStarted
    ensures CleanedUp(Uploaded(ps, replies))[i].uploadStatus ==
              if replies(i).Response? && replies(i).status == StatusOK then SuccessDeleted else Failed
    ensures CleanedUp(CleanedUp(Uploaded(ps, replies))) == CleanedUp(Uploaded(ps, replies))
  {
    CleanupIdempotent(Uploaded(ps, replies));
  }

  /** The temp files left behind by a run that got through: every piece's file
      is written, then those of the pieces uploaded with "200 OK" are deleted.
      Piece `i`'s file is left exactly when its upload was not accepted. */
  lemma {:induction false} LeftoverTempFiles(files: map<string, seq<byte>>, src: SplitSource,
                                             sha1: seq<byte> -> Sha1Digest,
                                             partUrl: nat -> Reply<UploadPartResponse>,
                                             replies: nat -> Reply<()>, i: nat)
    requires forall j :: 0 <= j < PartCount(|src.contents|) ==> Granted(partUrl, j)
    requires i < PartCount(|src.contents|)
    ensures var n := PartCount(|src.contents|);
      var left := WrittenFiles(files, src, n) - SuccessPaths(Uploaded(Plan(src, sha1, partUrl, n), replies));
      && (TempPathOf(src, i) in left <==> PartStatus(replies(i)) == Failed)
      && (TempPathOf(src, i) in left ==> left[TempPathOf(src, i)] == PieceBytes(src.contents, i))
  {
    var n := PartCount(|src.contents|);
    var plan := Plan(src, sha1, partUrl, n);
    var up := Uploaded(plan, replies);
    WrittenFilesHold(files, src, n, i);
    PlanAt(src, sha1, partUrl, n, i);
    PlanPathsDistinct(src, sha1, partUrl, n);
    assert up[i].path == TempPathOf(src, i);
    if PartStatus(replies(i)) == Success {
      assert up[i].uploadStatus == Success;
      assert TempPathOf(src, i) in SuccessPaths(up);
    } else {
      forall k | 0 <= k < n && up[k].uploadStatus == Success
        ensures up[k].path != TempPathOf(src, i)
      {
        assert k != i;
      }
    }
  }

  /** What the split and the part uploads need in order to get through: a file
      of at least 100 MiB in at most 10000 pieces, a granted part URL for every
      piece, and an answer, of any status, to every part upload. */
  predicate SplitGoesThrough(size: nat, partUrl: nat -> Reply<UploadPartResponse>, partReplies: nat -> Reply<()>)
  {
    && MinLargeFileSize <= size && PartCount(size) <= MaxParts
    && (forall i :: 0 <= i < PartCount(size) ==> Granted(partUrl, i))
    && (forall i :: 0 <= i < PartCount(size) ==> partReplies(i).Response?)
  }

  /** Once every piece's temp file is written, uploading the planned pieces
      stops the process exactly when some part upload gets no answer. */
  lemma PlannedPartsGoThrough(files: map<string, seq<byte>>, src: SplitSource, sha1: seq<byte> -> Sha1Digest,
                              partUrl: nat -> Reply<UploadPartResponse>, replies: nat -> Reply<()>)
    requires forall i :: 0 <= i < PartCount(|src.contents|) ==> Granted(partUrl, i)
    ensures var n := PartCount(|src.contents|);
      FirstPartStop(Plan(src, sha1, partUrl, n), WrittenFiles(files, src, n), replies, 0) == n
      <==> forall i :: 0 <= i < n ==> replies(i).Response?
  {
    var n := PartCount(|src.contents|);
    var ps := Plan(src, sha1, partUrl, n);
    var written := WrittenFiles(files, src, n);
    forall i | 0 <= i < n
      ensures PartStops(ps[i], written, replies(i)) <==> replies(i).NoResponse?
    {
      PlanAt(src, sha1, partUrl, n, i);
      WrittenFilesHold(files, src, n, i);
    }
  }

  /** The finish body lists, in piece order, the hex SHA1 of each piece's bytes,
      whatever the upload statuses came to. */
  lemma FinishListsPieceHashes(src: SplitSource, sha1: seq<byte> -> Sha1Digest,
                               partUrl: nat -> Reply<UploadPartResponse>, replies: nat -> Reply<()>, i: nat)
    requires forall j :: 0 <= j < PartCount(|src.contents|) ==> Granted(partUrl, j)
    requires i < PartCount(|src.contents|)
    ensures var hs := PieceSha1s(Uploaded(Plan(src, sha1, partUrl, PartCount(|src.contents|)), replies));
      |hs| == PartCount(|src.contents|) && hs[i] == HexEncode(sha1(PieceBytes(src.contents, i)))
  {
    PlanAt(src, sha1, partUrl, PartCount(|src.contents|), i);
    PlannedPieceFields(src, sha1, partUrl(i), i);
  }

  /** upload.go:180-189: finish the large file, and remove the temp files only
      when that returned a nil error. */
  method FinishAndCleanUp(lf: LargeFile, disk: Disk, finishReply: Reply<()>) returns (finishBody: string, stop: Option<Stop>)
    modifies lf`temp, disk
    ensures finishBody == FinishBody(lf.fileId, QuotedList(PieceSha1s(old(lf.temp))))
    ensures FinishLargeFile(finishReply).Err? ==>
              stop == Some(FinishLargeFile(finishReply).error) && lf.temp == old(lf.temp) && disk.files == old(disk.files)
    ensures FinishLargeFile(finishReply).Ok? && FinishLargeFile(finishReply).value.Some? ==>
              stop.None? && lf.temp == old(lf.temp) && disk.files == old(disk.files)
    ensures FinishLargeFile(finishReply).Ok? && FinishLargeFile(finishReply).value.None? ==>
              stop.None? && lf.temp == CleanedUp(old(lf.temp)) && disk.files == old(disk.files) - SuccessPaths(old(lf.temp))
  {
    var partSha1Array := BuildPartSha1Array(lf.temp);
    finishBody := FinishBody(lf.fileId, partSha1Array);
    var finish := FinishLargeFile(finishReply);
    if finish.Err? {
      return finishBody, Some(finish.error);
    }
    if finish.value.None? {
      RemoveTempFiles(lf, disk);
    }
    return finishBody, None;
  }

  /** upload.go:162-179: split the file, then upload every part. */
  method SplitAndUpload(lf: LargeFile, disk: Disk, contents: seq<byte>, tempDir: string,
                        sha1: seq<byte> -> Sha1Digest, partUrl: nat -> Reply<UploadPartResponse>,
                        partReplies: nat -> Reply<()>)
    returns (stop: Option<Stop>)
    requires lf.temp == []
    modifies lf`pieces, lf`temp, disk
    ensures stop.None? <==> SplitGoesThrough(|contents|, partUrl, partReplies)
    ensures stop.None? ==>
      var src := SplitSource(lf.origPath, lf.name, tempDir, contents);
      var n := PartCount(|contents|);
      && lf.pieces == n
      && lf.temp == Uploaded(Plan(src, sha1, partUrl, n), partReplies)
      && disk.files == WrittenFiles(old(disk.files), src, n)
  {
    stop := CreateTempFiles(lf, disk, Some(contents), tempDir, sha1, partUrl);
    if stop.Some? {
      return;
    }
    ghost var n := PartCount(|contents|);
    ghost var src := SplitSource(lf.origPath, lf.name, tempDir, contents);
    assert FirstRefused(partUrl, 0, n) == n;
    assert lf.temp == Plan(src, sha1, partUrl, n);
    PlannedPartsGoThrough(old(disk.files), src, sha1, partUrl, partReplies);
    stop := UploadParts(lf, disk, partReplies);
  }

  /** upload.go:162-189, once the `LargeFile` is filled in from the start reply:
      split, upload every part, finish, and clean up when finishing returned a
      nil error. */
  method SplitUploadFinish(lf: LargeFile, disk: Disk, contents: seq<byte>, tempDir: string,
                           sha1: seq<byte> -> Sha1Digest, partUrl: nat -> Reply<UploadPartResponse>,
                           partReplies: nat -> Reply<()>, finishReply: Reply<()>)
    returns (finishBody: Option<string>, stop: Option<Stop>)
    requires lf.temp == []
    modifies lf`pieces, lf`temp, disk
    ensures stop.None? <==> SplitGoesThrough(|contents|, partUrl, partReplies) && finishReply.Response?
    ensures finishBody.Some? <==> SplitGoesThrough(|contents|, partUrl, partReplies)
    ensures finishBody.Some? ==>
      var src := SplitSource(lf.origPath, lf.name, tempDir, contents);
      finishBody.value == FinishBody(lf.fileId, QuotedList(PieceSha1s(
                            Uploaded(Plan(src, sha1, partUrl, PartCount(|contents|)), partReplies))))
    ensures stop.None? ==>
      var src := SplitSource(lf.origPath, lf.name, tempDir, contents);
      var n := PartCount(|contents|);
      && lf.pieces == n
      && lf.temp == CleanedUp(Uploaded(Plan(src, sha1, partUrl, n), partReplies))
      && disk.files == WrittenFiles(old(disk.files), src, n)
                       - SuccessPaths(Uploaded(Plan(src, sha1, partUrl, n), partReplies))
  {
    ghost var src := SplitSource(lf.origPath, lf.name, tempDir, contents);
    ghost var n := PartCount(|contents|);
    stop := SplitAndUpload(lf, disk, contents, tempDir, sha1, partUrl, partReplies);
    if stop.Some? {
      return None, stop;
    }
    ghost var uploaded := Uploaded(Plan(src, sha1, partUrl, n), partReplies);
    ghost var written := WrittenFiles(old(disk.files), src, n);
    assert lf.temp == uploaded && disk.files == written;
    var body;
    body, stop := FinishAndCleanUp(lf, disk, finishReply);
    finishBody := Some(body);
    assert body == FinishBody(lf.fileId, QuotedList(PieceSha1s(uploaded)));
  }

  /** The stages of `B2LargeFileUpload` after the start call (upload.go:151-189):
      the large file's record is filled from the start answer, then the file is
      split, its parts uploaded, the upload finished and the temp files cleaned. */
  method UploadStarted(disk: Disk, filePath: string, fileName: string, contents: seq<byte>,
                       fileId: string, millis: int, sha1Text: string, tempDir: string,
                       sha1: seq<byte> -> Sha1Digest, partUrl: nat -> Reply<UploadPartResponse>,
                       partReplies: nat -> Reply<()>, finishReply: Reply<()>)
    returns (lf: LargeFile, finishBody: Option<string>, stop: Option<Stop>)
    modifies disk
    ensures fresh(lf)
    ensures && lf.name == fileName && lf.origPath == filePath && lf.fileId == fileId
            && lf.lastModificationMillis == millis && lf.size == |contents| && lf.sha1 == sha1Text
    ensures stop.None? <==> SplitGoesThrough(|contents|, partUrl, partReplies) && finishReply.Response?
    ensures finishBody.Some? <==> SplitGoesThrough(|contents|, partUrl, partReplies)
    ensures finishBody.Some? ==>
      var src := SplitSource(filePath, fileName, tempDir, contents);
      finishBody.value == FinishBody(fileId, QuotedList(PieceSha1s(
                            Uploaded(Plan(src, sha1, partUrl, PartCount(|contents|)), partReplies))))
    ensures stop.None? ==>
      var src := SplitSource(filePath, fileName, tempDir, contents);
      var n := PartCount(|contents|);
      && lf.pieces == n
      && lf.temp == CleanedUp(Uploaded(Plan(src, sha1, partUrl, n), partReplies))
      && disk.files == WrittenFiles(old(disk.files), src, n)
                       - SuccessPaths(Uploaded(Plan(src, sha1, partUrl, n), partReplies))
  {
    lf := new LargeFile();
    lf.name := fileName;
    lf.origPath := filePath;
    lf.lastModificationMillis := millis;
    lf.fileId := fileId;
    lf.size := |contents|;
    lf.sha1 := sha1Text;
    finishBody, stop := SplitUploadFinish(lf, disk, contents, tempDir, sha1, partUrl, partReplies, finishReply);
  }

  /** `B2LargeFileUpload` (upload.go:136-192) with every external answer given:
      the start reply, the part-URL reply and upload reply of each piece, and the
      finish reply. A start status other than "200 OK" is only warned about: the
      pipeline goes on with the zero `B2File`. The temp files are removed only
      when the finish call returns a nil error. `finishBody` is the body of the
      finish request, when one is made. */
  method LargeFileUpload(disk: Disk, bucketId: string, filePath: string, fileName: string,
                         source: FileRead, modNanos: int, tempDir: string,
                         sha1: seq<byte> -> Sha1Digest, startReply: Reply<B2File>,
                         partUrl: nat -> Reply<UploadPartResponse>, partReplies: nat -> Reply<()>,
                         finishReply: Reply<()>)
    returns (lf: LargeFile, finishBody: Option<string>, stop: Option<Stop>)
    modifies disk
    ensures fresh(lf)
    ensures var start := StartLargeFile(bucketId, fileName, source, modNanos, sha1, startReply);
      start.Err? ==> stop == Some(start.error) && finishBody.None? && disk.files == old(disk.files)
    ensures var start := StartLargeFile(bucketId, fileName, source, modNanos, sha1, startReply);
      start.Ok? ==> && lf.name == fileName && lf.origPath == filePath
                    && lf.fileId == start.value.file.fileId
                    && lf.lastModificationMillis == start.value.file.fileInfo.lastModificationMillis
                    && lf.size == |source.contents|
                    && lf.sha1 == FileSHA1(source, sha1).text
    ensures var start := StartLargeFile(bucketId, fileName, source, modNanos, sha1, startReply);
      stop.None? <==> && start.Ok?
                      && SplitGoesThrough(|source.contents|, partUrl, partReplies)
                      && finishReply.Response?
    ensures var start := StartLargeFile(bucketId, fileName, source, modNanos, sha1, startReply);
      finishBody.Some? <==> start.Ok? && SplitGoesThrough(|source.contents|, partUrl, partReplies)
    ensures finishBody.Some? ==>
      var src := SplitSource(filePath, fileName, tempDir, source.contents);
      finishBody.value == FinishBody(lf.fileId, QuotedList(PieceSha1s(
                            Uploaded(Plan(src, sha1, partUrl, PartCount(|source.contents|)), partReplies))))
    ensures stop.None? ==>
      && source.Readable?
      && var src := SplitSource(filePath, fileName, tempDir, source.contents);
         var n := PartCount(|source.contents|);
         && lf.pieces == n
         && lf.temp == CleanedUp(Uploaded(Plan(src, sha1, partUrl, n), partReplies))
         && disk.files == WrittenFiles(old(disk.files), src, n)
                          - SuccessPaths(Uploaded(Plan(src, sha1, partUrl, n), partReplies))
  {
    var start := StartLargeFile(bucketId, fileName, source, modNanos, sha1, startReply);
    if start.Err? {
      lf := new LargeFile();
      return lf, None, Some(start.error);
    }
    var file := start.value.file;
    lf, finishBody, stop := UploadStarted(disk, filePath, fileName, source.contents, file.fileId,
                                          file.fileInfo.lastModificationMillis, FileSHA1(source, sha1).text,
                                          tempDir, sha1, partUrl, partReplies, finishReply);
  }
}
