/** util.go: splitting a large file into 100 MiB temp files (`createTempFiles`),
    deleting the uploaded ones (`removeTempFiles`), and the hex digests of a file
    (`fileSHA1`, `fileBlake2b`). */
module Util {
  import opened Base
  import opened Encoding
  import opened Types
  import opened Auth

  /** `fileChunk = 100 * (1 << 20)` (util.go:47, up.go:62). */
  const ChunkSize: nat := 100 * 1048576
  /** Smallest file the large path accepts (util.go:40). */
  const MinLargeFileSize: nat := 104857600
  /** Most parts the split accepts (util.go:54). */
  const MaxParts: nat := 10000

  // ------------------------------------------------------------- digests

  /** The two results of `fileSHA1`/`fileBlake2b`: the text and whether an error
      came with it. */
  datatype Hashed = Hashed(text: string, failed: bool)

  /** `fileSHA1` (util.go:126-148): "fail" when the file cannot be opened or read,
      otherwise the lowercase hex of the 20-byte digest. */
  function FileSHA1(f: FileRead, sha1: seq<byte> -> Sha1Digest): (r: Hashed)
    ensures r.failed <==> !f.Readable?
    ensures r.failed ==> r.text == "fail"
    ensures !r.failed ==> |r.text| == 40 && IsLowerHex(r.text) && HexDecode(r.text) == sha1(f.contents)
  {
    match f
    case Readable(c) => HexRoundTrip(sha1(c)); Hashed(HexEncode(sha1(c)), false)
    case _ => Hashed("fail", true)
  }

  /** `fileBlake2b` (util.go:150-170): the same shape over the full 64-byte digest. */
  function FileBlake2b(f: FileRead, blake2b: seq<byte> -> Blake2bDigest): (r: Hashed)
    ensures r.failed <==> !f.Readable?
    ensures r.failed ==> r.text == "fail"
    ensures !r.failed ==> |r.text| == 128 && IsLowerHex(r.text) && HexDecode(r.text) == blake2b(f.contents)
  {
    match f
    case Readable(c) => HexRoundTrip(blake2b(c)); Hashed(HexEncode(blake2b(c)), false)
    case _ => Hashed("fail", true)
  }

  /** Comparing the text with "fail", as upload.go:209 does, detects exactly the
      failures: a real digest is 40 hex digits. */
  lemma FailTextMeansFailure(f: FileRead, sha1: seq<byte> -> Sha1Digest)
    ensures FileSHA1(f, sha1).text == "fail" <==> FileSHA1(f, sha1).failed
  {
  }

  // ------------------------------------------------------------ temp names

  /** The index where `filepath.Ext` starts looking back from `i`: the last '.'
      of `path[..i]` after its last '/', or -1. */
  function ExtStart(path: string, i: nat): (k: int)
    requires i <= |path|
    ensures -1 <= k < i
    ensures k >= 0 ==> path[k] == '.'
  {
    if i == 0 then -1
    else if path[i - 1] == '/' then -1
    else if path[i - 1] == '.' then i - 1
    else ExtStart(path, i - 1)
  }

  /** The '.' found is the last one after the last '/'; when none is found, every
      '.' lies before some '/'. */
  lemma {:induction false} ExtStartMeaning(path: string, i: nat)
    requires i <= |path|
    ensures var k := ExtStart(path, i);
      && (k >= 0 ==> path[k] == '.' && forall j :: k < j < i ==> path[j] != '.' && path[j] != '/')
      && (k < 0 ==> forall j :: 0 <= j < i && path[j] == '.' ==> exists m :: j < m < i && path[m] == '/')
  {
    if i > 0 && path[i - 1] != '/' && path[i - 1] != '.' {
      ExtStartMeaning(path, i - 1);
    }
  }

  /** `filepath.Ext`: the suffix from the last '.' of the final path element, or "". */
  function Ext(path: string): (e: string)
    ensures |e| <= |path|
    ensures e == [] || (e[0] == '.' && path[|path| - |e|..] == e)
  {
    var k := ExtStart(path, |path|);
    if k < 0 then "" else path[k..]
  }

  /** The extension is empty or a suffix of the path that starts with its only
      '.' and holds no '/'. */
  lemma ExtShape(path: string)
    ensures var e := Ext(path);
      |e| == 0 || (e[0] == '.' && '.' !in e[1..] && '/' !in e && path[|path| - |e|..] == e)
  {
    ExtStartMeaning(path, |path|);
  }

  /** `strings.TrimSuffix`. */
  function TrimSuffix(s: string, suffix: string): (r: string)
    ensures (|suffix| <= |s| && s[|s| - |suffix|..] == suffix) ==> r + suffix == s
    ensures !(|suffix| <= |s| && s[|s| - |suffix|..] == suffix) ==> r == s
  {
    if |suffix| <= |s| && s[|s| - |suffix|..] == suffix then s[..|s| - |suffix|] else s
  }

  /** The temp-file name of util.go:63: the directory prefix, the file name without
      the original path's extension, "_", the piece index in decimal, and the
      extension again. The prefix is used as given. */
  function TempName(tempDir: string, name: string, ext: string, i: nat): string
  {
    tempDir + TrimSuffix(name, ext) + "_" + Decimal(i) + ext
  }

  /** A temp name starts with the temp directory as given and ends with "_", the
      piece index in decimal, and the extension. */
  lemma TempNameShape(tempDir: string, name: string, ext: string, i: nat)
    ensures var t := TempName(tempDir, name, ext, i);
      && |t| == |tempDir| + |TrimSuffix(name, ext)| + 1 + |Decimal(i)| + |ext|
      && t[..|tempDir|] == tempDir
      && t[|t| - |ext| - |Decimal(i)| - 1] == '_'
      && t[|t| - |ext| - |Decimal(i)| .. |t| - |ext|] == Decimal(i)
      && t[|t| - |ext|..] == ext
  {
  }

  /** The pieces of one file never share a temp file. */
  lemma TempNamesDistinct(tempDir: string, name: string, ext: string, i: nat, j: nat)
    requires i != j
    ensures TempName(tempDir, name, ext, i) != TempName(tempDir, name, ext, j)
  {
    var p := tempDir + TrimSuffix(name, ext) + "_";
    var a, b := Decimal(i), Decimal(j);
    DecimalInjective(i, j);
    var s, t := p + a + ext, p + b + ext;
    assert TempName(tempDir, name, ext, i) == s && TempName(tempDir, name, ext, j) == t;
    if |a| == |b| {
      assert s[|p|..|p| + |a|] == a;
      assert t[|p|..|p| + |b|] == b;
    }
  }

  lemma {:induction false} ExtStartInBase(dir: string, base: string, i: nat)
    requires '/' !in base && i <= |base|
    ensures ExtStart(dir + "/" + base, |dir| + 1 + i) ==
              if ExtStart(base, i) < 0 then -1 else |dir| + 1 + ExtStart(base, i)
  {
    var path := dir + "/" + base;
    if i == 0 {
      assert path[|dir|] == '/';
    } else {
      assert path[|dir| + i] == base[i - 1];
      ExtStartInBase(dir, base, i - 1);
    }
  }

  /** The name depends on the directory of the original only through the
      extension, which is that of the base name: two files with the same base
      name in different directories get the same temp names. */
  lemma TempNameIgnoresDirectory(tempDir: string, base: string, dir1: string, dir2: string, i: nat)
    requires '/' !in base
    ensures Ext(dir1 + "/" + base) == Ext(base) == Ext(dir2 + "/" + base)
    ensures TempName(tempDir, base, Ext(dir1 + "/" + base), i) == TempName(tempDir, base, Ext(dir2 + "/" + base), i)
  {
    ExtOfJoin(dir1, base);
    ExtOfJoin(dir2, base);
  }

  lemma ExtOfJoin(dir: string, base: string)
    requires '/' !in base
    ensures Ext(dir + "/" + base) == Ext(base)
  {
    var path := dir + "/" + base;
    ExtStartInBase(dir, base, |base|);
    assert |path| == |dir| + 1 + |base|;
    var kb := ExtStart(base, |base|);
    if kb >= 0 {
      assert path[|dir| + 1 + kb..] == base[kb..];
    }
  }

  // --------------------------------------------------------- piece planning

  /** `math.Ceil(fileSize / fileChunk)` as integer ceiling division. */
  function PartCount(size: nat): (n: nat)
    ensures n == 0 <==> size == 0
  {
    (size + ChunkSize - 1) / ChunkSize
  }

  /** The piece count is the smallest number of 100 MiB chunks that holds the file. */
  lemma PartCountIsCeiling(size: nat)
    ensures PartCount(size) * ChunkSize >= size
    ensures PartCount(size) > 0 ==> (PartCount(size) - 1) * ChunkSize < size
    ensures PartCount(size) == 0 <==> size == 0
  {
  }

  /** `math.Min(fileChunk, fileSize - i*fileChunk)` (util.go:59). */
  function PartSize(size: nat, i: nat): (s: nat)
    requires i < PartCount(size)
    ensures 0 < s <= ChunkSize
  {
    PartCountIsCeiling(size);
    Min(ChunkSize, size - i * ChunkSize)
  }

  /** Every piece but the last is a full chunk; the last holds the remainder. */
  lemma PartSizes(size: nat, i: nat)
    requires i < PartCount(size)
    ensures i + 1 < PartCount(size) ==> PartSize(size, i) == ChunkSize
    ensures i + 1 == PartCount(size) ==> PartSize(size, i) == size - i * ChunkSize
  {
    PartCountIsCeiling(size);
  }

  /** The bytes of piece `i`: what the i-th sequential read of util.go:61 fills. */
  function PieceBytes(contents: seq<byte>, i: nat): (b: seq<byte>)
    requires i < PartCount(|contents|)
    ensures |b| == PartSize(|contents|, i)
  {
    PartCountIsCeiling(|contents|);
    contents[i * ChunkSize .. i * ChunkSize + PartSize(|contents|, i)]
  }

  /** Where the first `k` pieces end. */
  function PiecesEnd(size: nat, k: nat): nat
  {
    Min(k * ChunkSize, size)
  }

  /** The first `k` pieces, concatenated in order. */
  function Joined(contents: seq<byte>, k: nat): seq<byte>
    requires k <= PartCount(|contents|)
  {
    if k == 0 then [] else Joined(contents, k - 1) + PieceBytes(contents, k - 1)
  }

  /** The pieces are consecutive: the first `k` of them are the file's first
      bytes, and all of them together are the whole file. */
  lemma {:induction false} JoinedIsPrefix(contents: seq<byte>, k: nat)
    requires k <= PartCount(|contents|)
    ensures Joined(contents, k) == contents[..PiecesEnd(|contents|, k)]
    ensures k == PartCount(|contents|) ==> Joined(contents, k) == contents
  {
    if k > 0 {
      JoinedIsPrefix(contents, k - 1);
      PrefixStep(contents, k - 1);
    }
    if k == PartCount(|contents|) {
      PiecesEndAll(|contents|);
      assert contents[..|contents|] == contents;
    }
  }

  /** The file up to the end of piece `i` is the file up to its start, then
      piece `i`. */
  lemma PrefixStep(contents: seq<byte>, i: nat)
    requires i < PartCount(|contents|)
    ensures contents[..PiecesEnd(|contents|, i + 1)]
            == contents[..PiecesEnd(|contents|, i)] + PieceBytes(contents, i)
  {
    PartCountIsCeiling(|contents|);
    PiecesEndStep(|contents|, i);
    var a := i * ChunkSize;
    var b := PiecesEnd(|contents|, i + 1);
    assert PiecesEnd(|contents|, i) == a;
    assert contents[..b] == contents[..a] + contents[a..b];
  }

  /** All the pieces together end at the end of the file. */
  lemma PiecesEndAll(size: nat)
    ensures PiecesEnd(size, PartCount(size)) == size
  {
    PartCountIsCeiling(size);
  }

  /** What the split reads from the `LargeFile` and its environment. */
  datatype SplitSource = SplitSource(origPath: string, name: string, tempDir: string, contents: seq<byte>)

  function TempPathOf(src: SplitSource, i: nat): string
  {
    TempName(src.tempDir, src.name, Ext(src.origPath), i)
  }

  /** The record util.go:88-99 appends for piece `i`, given the part-URL reply. */
  function PlannedPiece(src: SplitSource, sha1: seq<byte> -> Sha1Digest, urls: UploadPartResponse, i: nat): (p: TempPiece)
    requires i < PartCount(|src.contents|)
    ensures p.pieceNum == i && p.size == PartSize(|src.contents|, i) && p.uploadStatus == NotStarted
  {
    var part := PieceBytes(src.contents, i);
    TempPiece(src.origPath, src.name, i, HexEncode(sha1(part)), |part|,
              TempPathOf(src, i), urls.uploadUrl, urls.authorizationToken, urls.fileId, NotStarted)
  }

  /** Whether the part-URL request for piece `i` gets through. */
  predicate Granted(partUrl: nat -> Reply<UploadPartResponse>, i: nat)
  {
    GetUploadPartURL(partUrl(i)).Ok?
  }

  /** The first of pieces `from..n` whose part-URL request is refused, or `n`. */
  function FirstRefused(partUrl: nat -> Reply<UploadPartResponse>, from: nat, n: nat): (k: nat)
    ensures from <= n ==> from <= k <= n
    ensures forall i :: from <= i < k ==> Granted(partUrl, i)
    ensures k < n ==> !Granted(partUrl, k)
    decreases n - from
  {
    if from >= n then n
    else if !Granted(partUrl, from) then from
    else FirstRefused(partUrl, from + 1, n)
  }

  /** When every request before `k` is granted and the one at `k` (if any) is
      not, `k` is the first refusal. */
  lemma FirstRefusedAt(partUrl: nat -> Reply<UploadPartResponse>, n: nat, k: nat)
    requires k <= n
    requires forall j :: 0 <= j < k ==> Granted(partUrl, j)
    requires k < n ==> !Granted(partUrl, k)
    ensures FirstRefused(partUrl, 0, n) == k
  {
  }

  /** A granted request before the first refusal moves the refusal no earlier
      than the next index. */
  lemma FirstRefusedPast(partUrl: nat -> Reply<UploadPartResponse>, n: nat, i: nat)
    requires i < n && i <= FirstRefused(partUrl, 0, n) && Granted(partUrl, i)
    ensures i + 1 <= FirstRefused(partUrl, 0, n)
  {
  }

  /** The first `k` records the split appends. */
  function Plan(src: SplitSource, sha1: seq<byte> -> Sha1Digest, partUrl: nat -> Reply<UploadPartResponse>, k: nat): (ps: seq<TempPiece>)
    requires k <= PartCount(|src.contents|)
    requires forall i :: 0 <= i < k ==> Granted(partUrl, i)
    ensures |ps| == k
  {
    seq(k, i requires 0 <= i < k && Granted(partUrl, i) => PlannedPiece(src, sha1, GetUploadPartURL(partUrl(i)).value, i))
  }

  /** Granting piece `i` adds its record after those of the pieces before it. */
  lemma PlanStep(base: seq<TempPiece>, src: SplitSource, sha1: seq<byte> -> Sha1Digest,
                 partUrl: nat -> Reply<UploadPartResponse>, i: nat)
    requires i < PartCount(|src.contents|)
    requires forall j :: 0 <= j < i ==> Granted(partUrl, j)
    requires Granted(partUrl, i)
    ensures base + Plan(src, sha1, partUrl, i + 1)
            == (base + Plan(src, sha1, partUrl, i)) + [PlannedPiece(src, sha1, GetUploadPartURL(partUrl(i)).value, i)]
  {
    var p := PlannedPiece(src, sha1, GetUploadPartURL(partUrl(i)).value, i);
    assert Plan(src, sha1, partUrl, i + 1) == Plan(src, sha1, partUrl, i) + [p];
    assert base + (Plan(src, sha1, partUrl, i) + [p]) == (base + Plan(src, sha1, partUrl, i)) + [p];
  }

  /** Piece `i` of the first `k` planned records is the one made for piece `i`
      from its own reply. */
  lemma PlanAt(src: SplitSource, sha1: seq<byte> -> Sha1Digest,
                                  partUrl: nat -> Reply<UploadPartResponse>, k: nat, i: nat)
    requires k <= PartCount(|src.contents|)
    requires forall j :: 0 <= j < k ==> Granted(partUrl, j)
    requires i < k
    ensures Granted(partUrl, i)
    ensures Plan(src, sha1, partUrl, k)[i] == PlannedPiece(src, sha1, GetUploadPartURL(partUrl(i)).value, i)
  {
  }

  /** A planned record: its index, its size, its temp path, the digest of its
      bytes, "Not Started", and the URL fields of its own reply, even when the
      echoed file ID is not the large file's (util.go:82-87 only logs that). */
  lemma PlannedPieceFields(src: SplitSource, sha1: seq<byte> -> Sha1Digest, reply: Reply<UploadPartResponse>, i: nat)
    requires i < PartCount(|src.contents|) && GetUploadPartURL(reply).Ok?
    ensures var p := PlannedPiece(src, sha1, GetUploadPartURL(reply).value, i);
      && p.pieceNum == i
      && p.size == PartSize(|src.contents|, i)
      && p.path == TempPathOf(src, i)
      && p.uploadStatus == NotStarted
      && p.sha1 == FileSHA1(Readable(PieceBytes(src.contents, i)), sha1).text
      && |p.sha1| == 40 && HexDecode(p.sha1) == sha1(PieceBytes(src.contents, i))
      && p.fileId == reply.body.value.fileId
      && p.url == reply.body.value.uploadUrl
      && p.authorizationToken == reply.body.value.authorizationToken
  {
    HexRoundTrip(sha1(PieceBytes(src.contents, i)));
  }

  function SumSizes(ps: seq<TempPiece>): nat
  {
    if ps == [] then 0 else SumSizes(ps[..|ps| - 1]) + ps[|ps| - 1].size
  }

  /** One more piece moves the end of the pieces by that piece's size. */
  lemma PiecesEndStep(size: nat, k: nat)
    requires k < PartCount(size)
    ensures PiecesEnd(size, k) + PartSize(size, k) == PiecesEnd(size, k + 1)
  {
    PartCountIsCeiling(size);
  }

  /** Records whose sizes are those of the first pieces add up to where those
      pieces end. */
  lemma {:induction false} SumSizesOfPartSizes(ps: seq<TempPiece>, size: nat)
    requires |ps| <= PartCount(size)
    requires forall i :: 0 <= i < |ps| ==> ps[i].size == PartSize(size, i)
    ensures SumSizes(ps) == PiecesEnd(size, |ps|)
  {
    if ps != [] {
      SumSizesOfPartSizes(ps[..|ps| - 1], size);
      PiecesEndStep(size, |ps| - 1);
    }
  }

  /** The planned sizes add up to the file size. */
  lemma PlanSizesSum(src: SplitSource, sha1: seq<byte> -> Sha1Digest,
                     partUrl: nat -> Reply<UploadPartResponse>, k: nat)
    requires k <= PartCount(|src.contents|)
    requires forall i :: 0 <= i < k ==> Granted(partUrl, i)
    ensures SumSizes(Plan(src, sha1, partUrl, k)) == PiecesEnd(|src.contents|, k)
    ensures k == PartCount(|src.contents|) ==> SumSizes(Plan(src, sha1, partUrl, k)) == |src.contents|
  {
    var ps := Plan(src, sha1, partUrl, k);
    forall i | 0 <= i < k
      ensures ps[i].size == PartSize(|src.contents|, i)
    {
      PlanAt(src, sha1, partUrl, k, i);
    }
    SumSizesOfPartSizes(ps, |src.contents|);
    if k == PartCount(|src.contents|) {
      PiecesEndAll(|src.contents|);
    }
  }

  /** The file system after the first `k` temp files are written. */
  function WrittenFiles(files: map<string, seq<byte>>, src: SplitSource, k: nat): map<string, seq<byte>>
    requires k <= PartCount(|src.contents|)
  {
    if k == 0 then files
    else WrittenFiles(files, src, k - 1)[TempPathOf(src, k - 1) := PieceBytes(src.contents, k - 1)]
  }

  /** Writing piece `k` adds its file to those of the pieces before it. */
  lemma WrittenFilesStep(files: map<string, seq<byte>>, src: SplitSource, k: nat)
    requires k < PartCount(|src.contents|)
    ensures WrittenFiles(files, src, k + 1)
            == WrittenFiles(files, src, k)[TempPathOf(src, k) := PieceBytes(src.contents, k)]
  {
  }

  /** After writing `k` temp files, the i-th holds piece `i` and every other
      existing file is untouched. */
  lemma {:induction false} WrittenFilesHold(files: map<string, seq<byte>>, src: SplitSource, k: nat, i: nat)
    requires k <= PartCount(|src.contents|) && i < k
    ensures TempPathOf(src, i) in WrittenFiles(files, src, k)
    ensures WrittenFiles(files, src, k)[TempPathOf(src, i)] == PieceBytes(src.contents, i)
    decreases k
  {
    if i < k - 1 {
      WrittenFilesHold(files, src, k - 1, i);
      TempNamesDistinct(src.tempDir, src.name, Ext(src.origPath), i, k - 1);
    }
  }

  lemma {:induction false} WrittenFilesKeep(files: map<string, seq<byte>>, src: SplitSource, k: nat, p: string)
    requires k <= PartCount(|src.contents|)
    requires forall i :: 0 <= i < k ==> TempPathOf(src, i) != p
    ensures (p in WrittenFiles(files, src, k)) == (p in files)
    ensures p in files ==> WrittenFiles(files, src, k)[p] == files[p]
  {
    if k > 0 {
      WrittenFilesKeep(files, src, k - 1, p);
    }
  }

  /** Boundary of the part limit: a file of exactly 10000 chunks passes, one byte
      more needs 10001 parts. */
  lemma PartLimitBoundary()
    ensures PartCount(MaxParts * ChunkSize) == MaxParts
    ensures PartCount(MaxParts * ChunkSize + 1) == MaxParts + 1
  {
  }

  /** A 250 MiB file: three pieces of 100, 100 and 50 MiB. */
  lemma QuarterGigabyteExample(contents: seq<byte>)
    requires |contents| == 250 * 1048576
    ensures PartCount(|contents|) == 3
    ensures PartSize(|contents|, 0) == PartSize(|contents|, 1) == 100 * 1048576
    ensures PartSize(|contents|, 2) == 50 * 1048576
  {
  }

  const CannotOpenMessage := "Cannot open undivided large file to create temp files."
  const TooSmallMessage := "Large File is less than 100MB, use standard upload"
  const TooManyPartsMessage := "File cannot be split into more than 10000 pieces"

  /** One pass of the loop of util.go:57-101: write piece `i` to its temp file,
      hash it back from disk, ask for its part URL and, when granted, append its
      record. */
  method WritePiece(lf: LargeFile, disk: Disk, src: SplitSource, sha1: seq<byte> -> Sha1Digest,
                    partUrl: nat -> Reply<UploadPartResponse>, i: nat)
    returns (stop: Option<Stop>)
    requires src.origPath == lf.origPath && src.name == lf.name
    requires i < PartCount(|src.contents|)
    modifies lf`temp, disk
    ensures disk.files == old(disk.files)[TempPathOf(src, i) := PieceBytes(src.contents, i)]
    ensures stop.None? <==> Granted(partUrl, i)
    ensures stop.Some? ==> stop == Some(GetUploadPartURL(partUrl(i)).error) && lf.temp == old(lf.temp)
    ensures stop.None? ==> lf.temp == old(lf.temp) + [PlannedPiece(src, sha1, GetUploadPartURL(partUrl(i)).value, i)]
  {
    var fileSize := |src.contents|;
    PartCountIsCeiling(fileSize);
    var offset: nat := i * ChunkSize;
    var partSize := Min(ChunkSize, fileSize - offset);
    assert partSize == PartSize(fileSize, i);
    var partBuffer := src.contents[offset .. offset + partSize];
    var tempFileName := TempName(src.tempDir, lf.name, Ext(lf.origPath), i);
    disk.files := disk.files[tempFileName := partBuffer];
    var fileHash := FileSHA1(Readable(disk.files[tempFileName]), sha1);
    var uploadPartResponse := GetUploadPartURL(partUrl(i));
    if uploadPartResponse.Err? {
      return Some(uploadPartResponse.error);
    }
    var urls := uploadPartResponse.value;
    var tempPiece := TempPiece(lf.origPath, lf.name, i, fileHash.text, partSize, tempFileName,
                               urls.uploadUrl, urls.authorizationToken, urls.fileId, NotStarted);
    lf.temp := lf.temp + [tempPiece];
    return None;
  }

  /** The loop of util.go:57-101 over a file already accepted for splitting; it
      stops at the first refused part-URL request, after that piece's file is
      written. */
  method WritePieces(lf: LargeFile, disk: Disk, src: SplitSource,
                     sha1: seq<byte> -> Sha1Digest, partUrl: nat -> Reply<UploadPartResponse>)
    returns (stop: Option<Stop>)
    requires src.origPath == lf.origPath && src.name == lf.name
    modifies lf`temp, disk
    ensures var n := PartCount(|src.contents|);
            var k := FirstRefused(partUrl, 0, n);
            && lf.temp == old(lf.temp) + Plan(src, sha1, partUrl, k)
            && disk.files == WrittenFiles(old(disk.files), src, if k < n then k + 1 else n)
            && (stop.None? <==> k == n)
            && (k < n ==> stop == Some(GetUploadPartURL(partUrl(k)).error))
  {
    var totalPartsNum := PartCount(|src.contents|);
    var i := 0;
    while i < totalPartsNum
      invariant 0 <= i <= totalPartsNum
      invariant forall j :: 0 <= j < i ==> Granted(partUrl, j)
      invariant lf.temp == old(lf.temp) + Plan(src, sha1, partUrl, i)
      invariant disk.files == WrittenFiles(old(disk.files), src, i)
    {
      stop := WritePiece(lf, disk, src, sha1, partUrl, i);
      if stop.Some? {
        FirstRefusedAt(partUrl, totalPartsNum, i);
        WrittenFilesStep(old(disk.files), src, i);
        return;
      }
      assert Granted(partUrl, i);
      PlanStep(old(lf.temp), src, sha1, partUrl, i);
      WrittenFilesStep(old(disk.files), src, i);
      i := i + 1;
    }
    FirstRefusedAt(partUrl, totalPartsNum, totalPartsNum);
    return None;
  }

  /** `createTempFiles` (util.go:19-103). `source` is the original file's bytes, or
      `None` when it cannot be opened or stat'ed; every read fills its buffer and
      every temp-file write succeeds. `partUrl(i)` is the reply to the part-URL
      request made for piece `i`. */
  method CreateTempFiles(lf: LargeFile, disk: Disk, source: Option<seq<byte>>, tempDir: string,
                         sha1: seq<byte> -> Sha1Digest, partUrl: nat -> Reply<UploadPartResponse>)
    returns (stop: Option<Stop>)
    modifies lf`pieces, lf`temp, disk
    ensures source.None? ==> stop == Some(Fatal(CannotOpenMessage)) && unchanged(lf) && unchanged(disk)
    ensures source.Some? && |source.value| < MinLargeFileSize ==>
              stop == Some(Fatal(TooSmallMessage)) && unchanged(lf) && unchanged(disk)
    ensures source.Some? && |source.value| >= MinLargeFileSize && PartCount(|source.value|) > MaxParts ==>
              && stop == Some(Fatal(TooManyPartsMessage))
              && lf.pieces == PartCount(|source.value|)
              && lf.temp == old(lf.temp) && unchanged(disk)
    ensures source.Some? && |source.value| >= MinLargeFileSize && PartCount(|source.value|) <= MaxParts ==>
              var src := SplitSource(lf.origPath, lf.name, tempDir, source.value);
              var n := PartCount(|source.value|);
              var k := FirstRefused(partUrl, 0, n);
              && lf.pieces == n
              && lf.temp == old(lf.temp) + Plan(src, sha1, partUrl, k)
              && disk.files == WrittenFiles(old(disk.files), src, if k < n then k + 1 else n)
              && (stop.None? <==> k == n)
              && (k < n ==> stop == Some(GetUploadPartURL(partUrl(k)).error))
  {
    if source.None? {
      return Some(Fatal(CannotOpenMessage));
    }
    var contents := source.value;
    if |contents| < MinLargeFileSize {
      return Some(Fatal(TooSmallMessage));
    }
    lf.pieces := PartCount(|contents|);
    if lf.pieces > MaxParts {
      return Some(Fatal(TooManyPartsMessage));
    }
    stop := WritePieces(lf, disk, SplitSource(lf.origPath, lf.name, tempDir, contents), sha1, partUrl);
  }

  // ---------------------------------------------------------------- cleanup

  /** What cleanup does to one piece: an uploaded piece is relabelled. */
  function Cleaned(p: TempPiece): TempPiece
  {
    if p.uploadStatus == Success then p.(uploadStatus := SuccessDeleted) else p
  }

  function CleanedUp(ps: seq<TempPiece>): (r: seq<TempPiece>)
    ensures |r| == |ps| && forall k :: 0 <= k < |ps| ==> r[k] == Cleaned(ps[k])
    ensures forall k :: 0 <= k < |r| ==> r[k].uploadStatus != Success
    ensures forall k :: 0 <= k < |r| ==>
              r[k].(uploadStatus := ps[k].uploadStatus) == ps[k]
              && (r[k].uploadStatus == SuccessDeleted <==> ps[k].uploadStatus in {Success, SuccessDeleted})
  {
    seq(|ps|, k requires 0 <= k < |ps| => Cleaned(ps[k]))
  }

  /** The temp paths of the pieces marked "Success". */
  function SuccessPaths(ps: seq<TempPiece>): set<string>
  {
    set k | 0 <= k < |ps| && ps[k].uploadStatus == Success :: ps[k].path
  }

  /** `removeTempFiles` (util.go:105-124): deletes the temp file of every piece
      marked "Success" and relabels it "Success - Deleted"; other pieces, and their
      files, are left as they are. */
  method RemoveTempFiles(lf: LargeFile, disk: Disk)
    modifies lf`temp, disk
    ensures lf.temp == CleanedUp(old(lf.temp))
    ensures disk.files == old(disk.files) - SuccessPaths(old(lf.temp))
  {
    ghost var temp0 := lf.temp;
    var i := 0;
    while i < |lf.temp|
      invariant 0 <= i <= |lf.temp| == |temp0|
      invariant forall k :: 0 <= k < i ==> lf.temp[k] == Cleaned(temp0[k])
      invariant forall k :: i <= k < |temp0| ==> lf.temp[k] == temp0[k]
      invariant disk.files == old(disk.files) - SuccessPaths(temp0[..i])
    {
      assert SuccessPaths(temp0[..i + 1]) ==
             SuccessPaths(temp0[..i]) + (if temp0[i].uploadStatus == Success then {temp0[i].path} else {});
      if lf.temp[i].uploadStatus == Success {
        disk.files := disk.files - {lf.temp[i].path};
        lf.temp := lf.temp[i := lf.temp[i].(uploadStatus := SuccessDeleted)];
      }
      i := i + 1;
    }
    assert temp0[..|temp0|] == temp0;
  }

  /** A second cleanup deletes nothing more and changes nothing. */
  lemma CleanupIdempotent(ps: seq<TempPiece>)
    ensures CleanedUp(CleanedUp(ps)) == CleanedUp(ps)
    ensures SuccessPaths(CleanedUp(ps)) == {}
  {
  }

  /** With distinct temp paths (as the split gives), a piece not marked
      "Success" keeps its temp file. */
  lemma UnfinishedPieceKeepsFile(ps: seq<TempPiece>, j: nat)
    requires j < |ps| && ps[j].uploadStatus != Success
    requires forall a, b :: 0 <= a < b < |ps| ==> ps[a].path != ps[b].path
    ensures ps[j].path !in SuccessPaths(ps)
  {
  }

  /** The temp paths of a plan are pairwise distinct. */
  lemma PlanPathsDistinct(src: SplitSource, sha1: seq<byte> -> Sha1Digest,
                          partUrl: nat -> Reply<UploadPartResponse>, k: nat)
    requires k <= PartCount(|src.contents|)
    requires forall i :: 0 <= i < k ==> Granted(partUrl, i)
    ensures forall a, b :: 0 <= a < b < k ==>
              Plan(src, sha1, partUrl, k)[a].path != Plan(src, sha1, partUrl, k)[b].path
  {
    forall a, b | 0 <= a < b < k
      ensures Plan(src, sha1, partUrl, k)[a].path != Plan(src, sha1, partUrl, k)[b].path
    {
      PlanAt(src, sha1, partUrl, k, a);
      PlanAt(src, sha1, partUrl, k, b);
      TempNamesDistinct(src.tempDir, src.name, Ext(src.origPath), a, b);
    }
  }
}
