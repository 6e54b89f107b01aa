/** up.go: the older upload path built around `UpToB2File`, which plans the
    pieces of a file, hashes them, and uploads either in one request (one piece)
    or by starting a large file (any other count). */
module Up {
  import opened Base
  import opened Encoding
  import opened Types
  import opened Util
  import Upload

  /** `B2FilePiece` (up.go:36-41). */
  datatype B2FilePiece = B2FilePiece(pieceNum: int, sha1: string, size: nat, status: string)

  /** The local file at `Filepath` as the `os` calls see it: absent (open or
      stat fails), or present with its base name, modification time in
      nanoseconds, and contents. */
  datatype OsFile = Missing | Present(name: string, modNanos: int, contents: seq<byte>)

  /** The `os` errors the methods of up.go hand back. */
  datatype IoError = OpenError | EofError

  const UnprocessedStatus := "Unprocessed"
  const UploadSuccessStatus := "Upload Success"

  // ------------------------------------------------------------ file reads

  /** Go's `(*os.File).Read` passes at most 1 GiB (`maxRW`, 1 << 30 bytes) to
      the system in one call, so no single call returns more. */
  const MaxReadBytes: nat := 1073741824

  /** How many bytes `(*os.File).Read` copies into a fresh `want`-byte buffer
      when the file position is `pos`: what is left, up to `want` and up to
      1 GiB. */
  function ReadCount(size: nat, pos: nat, want: nat): (n: nat)
    ensures n <= want && n <= MaxReadBytes && (pos <= size ==> pos + n <= size)
    ensures pos < size && want > 0 ==> n > 0
    ensures pos + want <= size && want <= MaxReadBytes ==> n == want
  {
    if pos >= size then 0 else Min(Min(want, MaxReadBytes), size - pos)
  }

  /** A non-empty read at the end of the file fails with `io.EOF`. */
  predicate ReadHitsEof(size: nat, pos: nat, want: nat)
  {
    want > 0 && pos >= size
  }

  /** The buffer after such a read: the bytes read, then the zeros `make` put there. */
  function ReadBuffer(contents: seq<byte>, pos: nat, want: nat): (b: seq<byte>)
    requires pos <= |contents|
    ensures |b| == want
  {
    var n := ReadCount(|contents|, pos, want);
    contents[pos .. pos + n] + seq(want - n, _ => 0)
  }

  /** A read of at most 1 GiB that fits in what is left of the file is exactly
      those bytes. */
  lemma FullRead(contents: seq<byte>, pos: nat, want: nat)
    requires pos + want <= |contents| && want <= MaxReadBytes
    ensures ReadBuffer(contents, pos, want) == contents[pos .. pos + want]
    ensures !ReadHitsEof(|contents|, pos, want) || want == 0
  {
  }

  /** The single whole-file reads of up.go:310 and up.go:337 see the whole file
      when it is at most 1 GiB; a larger file leaves the buffer holding its first
      1 GiB followed by zeros, and those zeros are what gets hashed. */
  lemma WholeFileRead(contents: seq<byte>)
    ensures |contents| <= MaxReadBytes ==> ReadBuffer(contents, 0, |contents|) == contents
    ensures |contents| > MaxReadBytes ==>
              ReadBuffer(contents, 0, |contents|)
              == contents[..MaxReadBytes] + seq(|contents| - MaxReadBytes, _ => 0)
  {
    assert contents[0..|contents|] == contents;
  }

  // ---------------------------------------------------------------- pieces

  /** The total of the sizes of the pieces before piece `i`. */
  function SizesBefore(ps: seq<B2FilePiece>, i: nat): nat
    requires i <= |ps|
  {
    if i == 0 then 0 else SizesBefore(ps, i - 1) + ps[i - 1].size
  }

  /** The sum of every piece's size, as `getTotalSize` adds it up. */
  function SumPieceSizes(ps: seq<B2FilePiece>): nat
  {
    SizesBefore(ps, |ps|)
  }

  /** The pieces `NewB2File` plans for a file of `total` bytes (up.go:75-94):
      piece `i` numbered `i`, "Unprocessed", no hash yet. */
  function UnprocessedPieces(total: nat, n: nat): (ps: seq<B2FilePiece>)
    requires n <= PartCount(total)
    ensures |ps| == n
  {
    seq(n, i requires 0 <= i < n => B2FilePiece(i, "", PartSize(total, i), UnprocessedStatus))
  }

  lemma UnprocessedSnoc(total: nat, i: nat)
    requires i < PartCount(total)
    ensures UnprocessedPieces(total, i + 1)
            == UnprocessedPieces(total, i) + [B2FilePiece(i, "", PartSize(total, i), UnprocessedStatus)]
  {
  }

  /** The size rule of up.go:79-91, with `remaining` the size left after `i`
      whole `pieceSize` steps, is the newer revision's `PartSize`. */
  lemma {:induction false} LoopSizeIsPartSize(total: nat, i: nat)
    requires i < PartCount(total)
    ensures var pieceSize := if ChunkSize > total then total else ChunkSize;
            var remaining := total - i * pieceSize;
            (if remaining > pieceSize then pieceSize else remaining) == PartSize(total, i)
  {
    PartCountIsCeiling(total);
    if ChunkSize > total {
      assert PartCount(total) == 1;
    }
  }

  /** The planned pieces start at multiples of 100 MiB: piece `i` begins where
      the newer revision's piece `i` begins. */
  lemma {:induction false} SizesBeforePlanned(total: nat, n: nat, i: nat)
    requires n <= PartCount(total) && i <= n
    ensures SizesBefore(UnprocessedPieces(total, n), i) == PiecesEnd(total, i)
  {
    PartCountIsCeiling(total);
    if i > 0 {
      SizesBeforePlanned(total, n, i - 1);
      PiecesEndStep(total, i - 1);
    }
  }

  /** The planned sizes add up to the file size, so `getTotalSize` on them gives
      it back. */
  lemma PlannedSizesSum(total: nat)
    ensures SumPieceSizes(UnprocessedPieces(total, PartCount(total))) == total
  {
    SizesBeforePlanned(total, PartCount(total), PartCount(total));
    PartCountIsCeiling(total);
  }

  /** The pieces of the older plan: piece `i` is numbered `i`, "Unprocessed" and
      not yet hashed; all but the last hold `PieceSize` bytes, the last holds the
      rest, and there is no part limit (up.go:72-74 is empty). */
  lemma PlannedSizes(total: nat, i: nat)
    requires i < PartCount(total)
    ensures i + 1 < PartCount(total) ==>
              UnprocessedPieces(total, PartCount(total))[i].size == Min(ChunkSize, total)
    ensures i + 1 == PartCount(total) ==>
              0 < UnprocessedPieces(total, PartCount(total))[i].size == total - i * ChunkSize <= Min(ChunkSize, total)
    ensures var p := UnprocessedPieces(total, PartCount(total))[i];
            p.pieceNum == i && p.status == UnprocessedStatus && p.sha1 == ""
  {
    PartSizes(total, i);
    PartCountIsCeiling(total);
  }

  /** Where the file position stands after the reads for the first `i` pieces:
      each read moves it on by what it returned. */
  function ReadPos(ps: seq<B2FilePiece>, size: nat, i: nat): (pos: nat)
    requires i <= |ps|
    ensures pos <= size
  {
    if i == 0 then 0
    else
      var p := ReadPos(ps, size, i - 1);
      p + ReadCount(size, p, ps[i - 1].size)
  }

  /** While no piece is over 1 GiB, the position after `i` reads is the sum of
      their sizes, stopped at the end of the file. */
  lemma {:induction false} ReadPosIsClampedSum(ps: seq<B2FilePiece>, size: nat, i: nat)
    requires i <= |ps|
    requires forall j :: 0 <= j < i ==> ps[j].size <= MaxReadBytes
    ensures ReadPos(ps, size, i) == Min(SizesBefore(ps, i), size)
  {
    if i > 0 {
      ReadPosIsClampedSum(ps, size, i - 1);
    }
  }

  /** The pieces after `getPieceSHA1s` hashed the first `k` of them. */
  function HashedUpTo(ps: seq<B2FilePiece>, contents: seq<byte>, sha1: seq<byte> -> Sha1Digest, k: nat): (r: seq<B2FilePiece>)
    ensures |r| == |ps|
  {
    seq(|ps|, i requires 0 <= i < |ps| =>
      if i < k then
        ps[i].(sha1 := HexEncode(sha1(ReadBuffer(contents, ReadPos(ps, |contents|, i), ps[i].size))))
      else ps[i])
  }

  /** The first piece whose read starts at the end of the file, or `|ps|`. */
  function FirstEof(ps: seq<B2FilePiece>, size: nat, from: nat): (k: nat)
    requires from <= |ps|
    ensures from <= k <= |ps|
    ensures k < |ps| ==> ReadHitsEof(size, ReadPos(ps, size, k), ps[k].size)
    decreases |ps| - from
  {
    if from == |ps| then from
    else if ReadHitsEof(size, ReadPos(ps, size, from), ps[from].size) then from
    else FirstEof(ps, size, from + 1)
  }

  /** No piece before the first one that meets the end of the file does; and
      when none from `from` on does, there is no such piece. */
  lemma {:induction false} FirstEofClear(ps: seq<B2FilePiece>, size: nat, from: nat, i: nat)
    requires from <= i < |ps|
    ensures i < FirstEof(ps, size, from) ==> !ReadHitsEof(size, ReadPos(ps, size, i), ps[i].size)
    decreases i - from
  {
    if from < i && !ReadHitsEof(size, ReadPos(ps, size, from), ps[from].size) {
      FirstEofClear(ps, size, from + 1, i);
    }
  }

  lemma {:induction false} FirstEofNone(ps: seq<B2FilePiece>, size: nat, from: nat)
    requires from <= |ps|
    requires forall j :: from <= j < |ps| ==> !ReadHitsEof(size, ReadPos(ps, size, j), ps[j].size)
    ensures FirstEof(ps, size, from) == |ps|
    decreases |ps| - from
  {
    if from < |ps| {
      FirstEofNone(ps, size, from + 1);
    }
  }

  /** For the planned pieces the reads go exactly where util.go's pieces start:
      piece `i` is read from `i` times 100 MiB. */
  lemma PlannedReadPos(total: nat, i: nat)
    requires i <= PartCount(total)
    ensures ReadPos(UnprocessedPieces(total, PartCount(total)), total, i) == PiecesEnd(total, i)
  {
    var ps := UnprocessedPieces(total, PartCount(total));
    forall j | 0 <= j < i
      ensures ps[j].size <= MaxReadBytes
    {
      assert ps[j].size == PartSize(total, j);
    }
    ReadPosIsClampedSum(ps, total, i);
    SizesBeforePlanned(total, PartCount(total), i);
  }

  /** For the planned pieces no read meets the end of the file: piece `j`
      starts at `j` times 100 MiB, inside the file. */
  lemma PlannedReadsNeverEof(total: nat)
    ensures var ps := UnprocessedPieces(total, PartCount(total));
            FirstEof(ps, total, 0) == |ps|
  {
    var n := PartCount(total);
    var ps := UnprocessedPieces(total, n);
    PartCountIsCeiling(total);
    forall j | 0 <= j < n
      ensures !ReadHitsEof(total, ReadPos(ps, total, j), ps[j].size)
    {
      PlannedReadPos(total, j);
    }
    FirstEofNone(ps, total, 0);
  }

  /** For the planned pieces, piece `i` is hashed over exactly util.go's piece
      `i`. */
  lemma PlannedReadsAreFull(contents: seq<byte>, sha1: seq<byte> -> Sha1Digest, i: nat)
    requires i < PartCount(|contents|)
    ensures var ps := UnprocessedPieces(|contents|, PartCount(|contents|));
            HashedUpTo(ps, contents, sha1, |ps|)[i].sha1 == HexEncode(sha1(PieceBytes(contents, i)))
  {
    var total := |contents|;
    PartCountIsCeiling(total);
    PlannedReadPos(total, i);
    PiecesEndStep(total, i);
    FullRead(contents, i * ChunkSize, PartSize(total, i));
  }

  /** The reads `Process` makes on a freshly planned file all succeed: no piece
      read meets the end of the file, and neither does the whole-file read. */
  lemma PlannedReadsAllFull(contents: seq<byte>)
    ensures var ps := UnprocessedPieces(|contents|, PartCount(|contents|));
      && FirstEof(ps, |contents|, 0) == |ps|
      && !ReadHitsEof(|contents|, 0, |contents|)
  {
    PlannedReadsNeverEof(|contents|);
  }

  /** The loop of `getPieceSHA1s` (up.go:281-296): piece `i` is read from where
      piece `i - 1` stopped, into a buffer of its own size, and gets the hex SHA1
      of that buffer; the first read that finds the file exhausted ends the walk
      with `io.EOF`, leaving the pieces from there on unhashed. */
  method HashPieces(ps: seq<B2FilePiece>, contents: seq<byte>, hash: seq<byte> -> Sha1Digest)
    returns (pieces: seq<B2FilePiece>, err: Option<IoError>)
    ensures var k := FirstEof(ps, |contents|, 0);
      && (err.None? <==> k == |ps|)
      && (err.Some? ==> err == Some(EofError))
      && pieces == HashedUpTo(ps, contents, hash, k)
  {
    pieces := ps;
    var pos := 0;
    var i := 0;
    while i < |pieces|
      invariant |pieces| == |ps| && 0 <= i <= |ps|
      invariant pos == ReadPos(ps, |contents|, i)
      invariant FirstEof(ps, |contents|, 0) == FirstEof(ps, |contents|, i)
      invariant pieces == HashedUpTo(ps, contents, hash, i)
    {
      assert pieces[i] == ps[i];
      var want := pieces[i].size;
      if ReadHitsEof(|contents|, pos, want) {
        return pieces, Some(EofError);
      }
      var partBuffer := ReadBuffer(contents, pos, want);
      var n := ReadCount(|contents|, pos, want);
      HashStep(ps, contents, hash, i);
      pieces := pieces[i := pieces[i].(sha1 := HexEncode(hash(partBuffer)))];
      pos := pos + n;
      i := i + 1;
    }
    return pieces, None;
  }

  // ------------------------------------------------------------ the object

  /** `UpToB2File` (up.go:26-35). */
  class UpToB2File {
    var filepath: string
    var filename: string
    var lastModMillis: int
    var pieceSize: nat
    var totalSize: nat
    var blake2b: string
    var sha1: string
    var piece: seq<B2FilePiece>

    /** `var b2F UpToB2File`, with the path set (up.go:44-45). */
    constructor (path: string)
      ensures filepath == path && filename == "" && lastModMillis == 0
      ensures pieceSize == 0 && totalSize == 0 && blake2b == "" && sha1 == "" && piece == []
    {
      filepath, filename, lastModMillis := path, "", 0;
      pieceSize, totalSize, blake2b, sha1, piece := 0, 0, "", "", [];
    }

    /** `getTotalSize` (up.go:262-273): the cached total when it is non-zero,
        otherwise the sum of the piece sizes, which it stores. */
    method GetTotalSize() returns (t: nat)
      modifies this`totalSize
      ensures old(totalSize) != 0 ==> t == old(totalSize)
      ensures old(totalSize) == 0 ==> t == SumPieceSizes(piece)
      ensures totalSize == t
    {
      if totalSize != 0 {
        return totalSize;
      }
      var tSz := 0;
      var i := 0;
      while i < |piece|
        invariant 0 <= i <= |piece|
        invariant tSz == SizesBefore(piece, i)
      {
        tSz := tSz + piece[i].size;
        i := i + 1;
      }
      totalSize := tSz;
      return tSz;
    }

    /** Two `getTotalSize` calls in a row agree: the first stores the total the
        second hands back. */
    method TotalSizeCached() returns (first: nat, second: nat)
      modifies this`totalSize
      ensures second == first
      ensures first == (if old(totalSize) != 0 then old(totalSize) else SumPieceSizes(piece))
    {
      first := GetTotalSize();
      second := GetTotalSize();
    }

    /** `getPieceSHA1s` (up.go:274-300): reads the pieces one after the other,
        each into a buffer of its own size, and stores the hex SHA1 of each
        buffer; the first read that finds the file exhausted returns `io.EOF`. */
    method GetPieceSHA1s(file: OsFile, hash: seq<byte> -> Sha1Digest) returns (err: Option<IoError>)
      modifies this`piece
      ensures file.Missing? ==> err == Some(OpenError) && piece == old(piece)
      ensures file.Present? ==>
        var k := FirstEof(old(piece), |file.contents|, 0);
        && (err.None? <==> k == |old(piece)|)
        && (err.Some? ==> err == Some(EofError))
        && piece == HashedUpTo(old(piece), file.contents, hash, k)
    {
      if file.Missing? {
        return Some(OpenError);
      }
      var pieces;
      pieces, err := HashPieces(piece, file.contents, hash);
      piece := pieces;
    }

    /** `getSHA1` (up.go:301-328): one read of `TotalSize` bytes, hashed. A read
        that finds the file exhausted returns its error; a short read is not
        checked (up.go:314-316 is empty), so the hash then covers trailing zeros. */
    method GetSHA1(file: OsFile, hash: seq<byte> -> Sha1Digest) returns (err: Option<IoError>)
      modifies this`sha1
      ensures file.Missing? ==> err == Some(OpenError) && sha1 == old(sha1)
      ensures file.Present? && ReadHitsEof(|file.contents|, 0, totalSize) ==>
                err == Some(EofError) && sha1 == old(sha1)
      ensures file.Present? && !ReadHitsEof(|file.contents|, 0, totalSize) ==>
                err.None? && sha1 == HexEncode(hash(ReadBuffer(file.contents, 0, totalSize)))
    {
      if file.Missing? {
        return Some(OpenError);
      }
      if ReadHitsEof(|file.contents|, 0, totalSize) {
        return Some(EofError);
      }
      var partBuffer := ReadBuffer(file.contents, 0, totalSize);
      sha1 := HexEncode(hash(partBuffer));
      return None;
    }

    /** `getBlakeb2` (up.go:329-349): one read of `TotalSize` bytes whose error is
        ignored, then the hex of the first 32 of the 64 BLAKE2b-512 bytes. */
    method GetBlakeb2(file: OsFile, hash: seq<byte> -> Blake2bDigest) returns (err: Option<IoError>)
      modifies this`blake2b
      ensures file.Missing? ==> err == Some(OpenError) && blake2b == old(blake2b)
      ensures file.Present? ==>
                err.None? && blake2b == HexEncode(hash(ReadBuffer(file.contents, 0, totalSize))[..32])
      ensures file.Present? ==> |blake2b| == 64 && IsLowerHex(blake2b)
    {
      if file.Missing? {
        return Some(OpenError);
      }
      var partBuffer := ReadBuffer(file.contents, 0, totalSize);
      blake2b := HexEncode(hash(partBuffer)[..32]);
      return None;
    }

    /** `Process` (up.go:104-122): the piece hashes, then the whole-file SHA1,
        then the BLAKE2b text, stopping at the first error; then the total size. */
    method Process(file: OsFile, sha1Of: seq<byte> -> Sha1Digest, blake2bOf: seq<byte> -> Blake2bDigest)
      returns (err: Option<IoError>)
      modifies this`piece, this`sha1, this`blake2b, this`totalSize
      ensures file.Missing? ==>
        && err == Some(OpenError)
        && piece == old(piece) && sha1 == old(sha1) && blake2b == old(blake2b) && totalSize == old(totalSize)
      ensures file.Present? && FirstEof(old(piece), |file.contents|, 0) < |old(piece)| ==>
        && err == Some(EofError)
        && piece == HashedUpTo(old(piece), file.contents, sha1Of, FirstEof(old(piece), |file.contents|, 0))
        && sha1 == old(sha1) && blake2b == old(blake2b) && totalSize == old(totalSize)
      ensures file.Present? && FirstEof(old(piece), |file.contents|, 0) == |old(piece)|
              && ReadHitsEof(|file.contents|, 0, old(totalSize)) ==>
        && err == Some(EofError)
        && piece == HashedUpTo(old(piece), file.contents, sha1Of, |old(piece)|)
        && sha1 == old(sha1) && blake2b == old(blake2b) && totalSize == old(totalSize)
      ensures file.Present? && FirstEof(old(piece), |file.contents|, 0) == |old(piece)|
              && !ReadHitsEof(|file.contents|, 0, old(totalSize)) ==>
        && err.None?
        && piece == HashedUpTo(old(piece), file.contents, sha1Of, |old(piece)|)
        && sha1 == HexEncode(sha1Of(ReadBuffer(file.contents, 0, old(totalSize))))
        && blake2b == HexEncode(blake2bOf(ReadBuffer(file.contents, 0, old(totalSize)))[..32])
        && (old(totalSize) != 0 ==> totalSize == old(totalSize))
        && (old(totalSize) == 0 ==> totalSize == SumPieceSizes(old(piece)))
    {
      err := GetPieceSHA1s(file, sha1Of);
      if err.Some? {
        return;
      }
      err := GetSHA1(file, sha1Of);
      if err.Some? {
        return;
      }
      err := GetBlakeb2(file, blake2bOf);
      if err.Some? {
        return;
      }
      ghost var pieces := piece;
      assert SumPieceSizes(piece) == SumPieceSizes(old(piece)) by {
        SizesUnchangedByHashing(old(piece), file.contents, sha1Of, |old(piece)|, |old(piece)|);
      }
      var t := GetTotalSize();
      return None;
    }

    /** `Upload`'s one-piece path (up.go:127-193): on "200 OK", the SHA1 the
        server reports must equal the file's (a body that does not decode
        reports none), and then piece 0 becomes "Upload Success"; any other
        status returns an error and changes nothing. */
    method UploadStandard(reply: Reply<Option<string>>) returns (err: Option<string>, stop: Option<Stop>)
      requires |piece| == 1
      modifies this`piece
      ensures reply.NoResponse? ==> stop == Some(Fatal(ResponseFailMessage)) && piece == old(piece)
      ensures reply.Response? && reply.status == StatusOK ==>
        var reported := if reply.body.Some? && reply.body.value.Some? then reply.body.value.value else "";
        && (reported != sha1 ==> stop == Some(Fatal(Sha1MismatchMessage)) && piece == old(piece))
        && (reported == sha1 ==> stop.None? && err.None? && piece == [old(piece)[0].(status := UploadSuccessStatus)])
      ensures reply.Response? && reply.status != StatusOK ==>
        stop.None? && err == Some(StandardUploadFailedMessage) && piece == old(piece)
    {
      if reply.NoResponse? {
        return None, Some(Fatal(ResponseFailMessage));
      }
      if reply.status == StatusOK {
        var contentSha1 := if reply.body.Some? && reply.body.value.Some? then reply.body.value.value else "";
        if contentSha1 != sha1 {
          return None, Some(Fatal(Sha1MismatchMessage));
        }
        piece := piece[0 := piece[0].(status := UploadSuccessStatus)];
        return None, None;
      }
      return Some(StandardUploadFailedMessage), None;
    }

    /** `Upload` (up.go:125-261): the one-request path iff there is exactly one
        piece. Otherwise the file must open, the start-large-file call must not
        stop the process, and the worker pool only sleeps and prints, so the
        pieces are left as they were and the result is nil. `reply` answers the
        one-request upload, `startReply` the start-large-file request. */
    method Upload(file: OsFile, bucketId: string, reply: Reply<Option<string>>, startReply: Reply<B2File>)
      returns (err: Option<string>, stop: Option<Stop>)
      modifies this`piece
      ensures |old(piece)| != 1 ==> piece == old(piece)
      ensures |old(piece)| != 1 && file.Missing? ==> err == Some(OpenFailedMessage) && stop.None?
      ensures |old(piece)| != 1 && file.Present? ==>
                var start := StartLargeFile(sha1, lastModMillis, bucketId, filename, startReply);
                && (start.Err? ==> stop == Some(start.error))
                && (start.Ok? ==> stop.None? && err.None?)
      ensures |piece| == |old(piece)|
      ensures |old(piece)| == 1 && reply.NoResponse? ==>
                stop == Some(Fatal(ResponseFailMessage)) && piece == old(piece)
      ensures |old(piece)| == 1 && reply.Response? && reply.status == StatusOK ==>
        var reported := if reply.body.Some? && reply.body.value.Some? then reply.body.value.value else "";
        && (reported != sha1 ==> stop == Some(Fatal(Sha1MismatchMessage)) && piece == old(piece))
        && (reported == sha1 ==> stop.None? && err.None? && piece == [old(piece)[0].(status := UploadSuccessStatus)])
      ensures |old(piece)| == 1 && reply.Response? && reply.status != StatusOK ==>
                stop.None? && err == Some(StandardUploadFailedMessage) && piece == old(piece)
    {
      if |piece| == 1 {
        err, stop := UploadStandard(reply);
        return;
      }
      if file.Missing? {
        return Some(OpenFailedMessage), None;
      }
      var start := StartLargeFile(sha1, lastModMillis, bucketId, filename, startReply);
      if start.Err? {
        return None, Some(start.error);
      }
      return None, None;
    }
  }

  /** One more read: one more piece carries the hash of what it read. */
  lemma HashStep(ps: seq<B2FilePiece>, contents: seq<byte>, hash: seq<byte> -> Sha1Digest, i: nat)
    requires i < |ps|
    ensures var pos := ReadPos(ps, |contents|, i);
      HashedUpTo(ps, contents, hash, i)[i := ps[i].(sha1 := HexEncode(hash(ReadBuffer(contents, pos, ps[i].size))))]
         == HashedUpTo(ps, contents, hash, i + 1)
  {
  }

  lemma {:induction false} SizesUnchangedByHashing(ps: seq<B2FilePiece>, contents: seq<byte>,
                                                   sha1: seq<byte> -> Sha1Digest, k: nat, i: nat)
    requires i <= |ps|
    ensures SizesBefore(HashedUpTo(ps, contents, sha1, k), i) == SizesBefore(ps, i)
  {
    if i > 0 {
      SizesUnchangedByHashing(ps, contents, sha1, k, i - 1);
    }
  }

  const ResponseFailMessage := "Response read fail."
  const Sha1MismatchMessage := "API Response SHA1 Hash Mismatch."
  const StandardUploadFailedMessage := "could not complete upload, please see log and retry"
  const OpenFailedMessage := "open failed"
  const StartParseMessage := "File JSON parse failed."

  /** `startB2LargeFile` (up.go:350-388): the same body as upload.go:216, built
      from the object's fields; a "200 OK" whose body does not decode stops the
      process, a transport error panics on the nil response, and any other
      status gives the zero `B2File` and a nil error. */
  function StartLargeFile(sha1: string, lastModMillis: int, bucketId: string, filename: string,
                          reply: Reply<B2File>): (r: Result<(string, B2File), Stop>)
    ensures r.Err? <==> reply.NoResponse? || (reply.status == StatusOK && reply.body.None?)
    ensures r.Ok? ==> r.value.0 == Upload.StartLargeFileBody(sha1, lastModMillis, bucketId, filename)
    ensures r.Ok? && reply.status == StatusOK ==> r.value.1 == reply.body.value
    ensures r.Ok? && reply.status != StatusOK ==> r.value.1 == ZeroB2File
  {
    var body := Upload.StartLargeFileBody(sha1, lastModMillis, bucketId, filename);
    match reply
    case NoResponse => Err(Panic(NilResponseMessage))
    case Response(status, decoded) =>
      if status == StatusOK then
        if decoded.None? then Err(Fatal(StartParseMessage)) else Ok((body, decoded.value))
      else Ok((body, ZeroB2File))
  }

  /** The planning loop of `NewB2File` (up.go:62-94): the piece size is the
      file size capped at 100 MiB, and each round appends a piece of
      `min(pieceSize, remaining)` bytes and takes `pieceSize` off what remains. */
  method PlanPieces(total: nat) returns (chunk: nat, pieces: seq<B2FilePiece>)
    ensures chunk == Min(ChunkSize, total)
    ensures pieces == UnprocessedPieces(total, PartCount(total))
  {
    if ChunkSize > total {
      chunk := total;
    } else {
      chunk := ChunkSize;
    }
    var totalPartsNum := PartCount(total);
    var totalSize: int := total;
    pieces := [];
    var i := 0;
    while i < totalPartsNum
      invariant 0 <= i <= totalPartsNum
      invariant totalSize == total - i * chunk
      invariant pieces == UnprocessedPieces(total, i)
    {
      LoopSizeIsPartSize(total, i);
      var pieceSize: nat;
      if totalSize > chunk {
        pieceSize := chunk;
      } else {
        pieceSize := totalSize;
      }
      UnprocessedSnoc(total, i);
      pieces := pieces + [B2FilePiece(i, "", pieceSize, UnprocessedStatus)];
      totalSize := totalSize - chunk;
      i := i + 1;
    }
  }

  /** The first part of `NewB2File` (up.go:43-94): the object holds the path,
      the file's name, its modification time in milliseconds, its size, and the
      planned pieces, not yet hashed. */
  method PlannedB2File(path: string, file: OsFile) returns (b: UpToB2File)
    requires file.Present?
    ensures fresh(b) && b.filepath == path && b.filename == file.name
    ensures b.lastModMillis == GoDiv(file.modNanos, 1000000)
    ensures b.totalSize == |file.contents| && b.pieceSize == Min(ChunkSize, |file.contents|)
    ensures b.piece == UnprocessedPieces(|file.contents|, PartCount(|file.contents|))
    ensures b.sha1 == "" && b.blake2b == ""
  {
    b := new UpToB2File(path);
    b.lastModMillis := GoDiv(file.modNanos, 1000000);
    b.totalSize := |file.contents|;
    b.filename := file.name;
    var chunk, pieces := PlanPieces(|file.contents|);
    b.pieceSize := chunk;
    b.piece := pieces;
  }

  /** `NewB2File` (up.go:43-101): reads the file's name, size and modification
      time, plans its pieces, and runs `Process`. */
  method NewB2File(path: string, file: OsFile, sha1Of: seq<byte> -> Sha1Digest, blake2bOf: seq<byte> -> Blake2bDigest)
    returns (b: UpToB2File, err: Option<IoError>)
    ensures fresh(b) && b.filepath == path
    ensures file.Missing? ==> err == Some(OpenError) && b.piece == [] && b.totalSize == 0
    ensures file.Present? ==>
      var contents := file.contents;
      var n := PartCount(|contents|);
      && err.None?
      && b.filename == file.name
      && b.lastModMillis == GoDiv(file.modNanos, 1000000)
      && b.totalSize == |contents|
      && b.pieceSize == Min(ChunkSize, |contents|)
      && b.piece == HashedUpTo(UnprocessedPieces(|contents|, n), contents, sha1Of, n)
      && b.sha1 == HexEncode(sha1Of(ReadBuffer(contents, 0, |contents|)))
      && b.blake2b == HexEncode(blake2bOf(ReadBuffer(contents, 0, |contents|))[..32])
  {
    if file.Missing? {
      b := new UpToB2File(path);
      return b, Some(OpenError);
    }
    b := PlannedB2File(path, file);
    PlannedReadsAllFull(file.contents);
    err := b.Process(file, sha1Of, blake2bOf);
  }

  datatype UploadWay = OneRequest | LargeFile

  /** up.go:127: one request iff the plan has exactly one piece. */
  function UpRoute(pieces: nat): (w: UploadWay)
    ensures w == OneRequest <==> pieces == 1
  {
    if pieces == 1 then OneRequest else LargeFile
  }

  /** A planned file goes up in one request iff it holds 1 byte to 100 MiB. */
  lemma OneRequestSizes(size: nat)
    ensures UpRoute(PartCount(size)) == OneRequest <==> 0 < size <= ChunkSize
  {
    PartCountIsCeiling(size);
  }

  /** The two revisions choose differently for exactly two sizes: an empty file
      (no pieces, so up.go starts a large file) and a file of exactly 100 MiB
      (one piece here, the large path in upload.go). */
  lemma RevisionsDisagree(size: nat)
    ensures ((UpRoute(PartCount(size)) == OneRequest) != (Upload.UploadRoute(size) == Upload.Standard))
              <==> (size == 0 || size == ChunkSize)
  {
    PartCountIsCeiling(size);
  }
}
