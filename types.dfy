/** The records the upload code passes around (upload.go:16-42, gopherb2.go:35-62),
    the outcome of a call that ends the process, server replies as inputs, and the
    local file system. */
module Types {
  import opened Base

  /** A SHA-1 digest: 20 bytes (`hash.Sum(nil)[:20]`). */
  type Sha1Digest = d: seq<byte> | |d| == 20 witness seq(20, k => 0)

  /** A BLAKE2b-512 digest: 64 bytes (`blake2b.New512`). */
  type Blake2bDigest = d: seq<byte> | |d| == 64 witness seq(64, k => 0)

  /** A call that never returns to its caller: `logger.Fatal`, `log.Fatal` and
      `os.Exit` end the process, and so does the nil-pointer panic of reading the
      body of a response that never came. */
  datatype Stop = Fatal(message: string) | Panic(message: string)

  /** The panic raised by reading the body of the nil response that a failed
      `client.Do` leaves. */
  const NilResponseMessage := "nil response body"

  /** What an HTTP exchange gives back: no response at all (transport error), or a
      status line and a body that may or may not decode as the JSON record `T`. */
  datatype Reply<T> = NoResponse | Response(status: string, body: Option<T>)

  /** A local file as the client meets it: it cannot be opened, it opens but reading
      it fails, or it can be read in full. */
  datatype FileRead = CannotOpen | ReadFails | Readable(contents: seq<byte>)

  /** Upload states a large-file piece goes through (the strings of util.go:98,
      upload.go:307 and upload.go:316, util.go:116). */
  datatype UploadStatus = NotStarted | Success | Failed | SuccessDeleted
  {
    function Text(): (t: string)
      ensures |t| > 0
    {
      match this
      case NotStarted => "Not Started"
      case Success => "Success"
      case Failed => "Failed"
      case SuccessDeleted => "Success - Deleted"
    }
  }

  /** The four statuses are written as four different strings. */
  lemma StatusTextInjective(a: UploadStatus, b: UploadStatus)
    requires a != b
    ensures a.Text() != b.Text()
  {
    var na := "Not Started";
    var s := "Success";
    var f := "Failed";
    var sd := "Success - Deleted";
    assert na[0] != s[0] && na[0] != f[0] && s[0] != f[0];
    assert |s| != |sd|;
  }

  /** `TempPiece` (upload.go:26-37). */
  datatype TempPiece = TempPiece(
    origFilePath: string,
    origFileName: string,
    pieceNum: nat,
    sha1: string,
    size: nat,
    path: string,
    url: string,
    authorizationToken: string,
    fileId: string,
    uploadStatus: UploadStatus)

  /** `UploadPartResponse` (gopherb2.go:46-50). */
  datatype UploadPartResponse = UploadPartResponse(authorizationToken: string, fileId: string, uploadUrl: string)

  /** The `fileInfo` object of a `B2File` (gopherb2.go:56-59). */
  datatype FileInfo = FileInfo(largeFileSha1: string, lastModificationMillis: int)

  /** `B2File` (gopherb2.go:51-62), the reply to start-large-file. */
  datatype B2File = B2File(
    accountId: string,
    bucketId: string,
    contentType: string,
    fileId: string,
    fileInfo: FileInfo,
    fileName: string,
    uploadTimestamp: int)

  /** Go's zero value of `B2File`. */
  const ZeroB2File := B2File("", "", "", "", FileInfo("", 0), "", 0)

  /** `APIAuthorization` (auth.go:17-25). */
  datatype APIAuthorization = APIAuthorization(
    accountId: string,
    apiUrl: string,
    authorizationToken: string,
    downloadUrl: string,
    minimumPartSize: int,
    recommendedPartSize: int,
    absoluteMinPartSize: int)

  /** `LargeFile` (upload.go:16-25). Go passes it by value, but its `Temp` slice
      shares one backing array, so the status writes of upload.go:307,316 and
      util.go:116 are seen by the caller: the model keeps one object and changes it
      in place. */
  class LargeFile {
    var name: string
    var sha1: string
    var pieces: int
    var origPath: string
    var temp: seq<TempPiece>
    var lastModificationMillis: int
    var fileId: string
    var size: int

    /** `var largeFile LargeFile`: every field at its zero value. */
    constructor ()
      ensures name == "" && sha1 == "" && pieces == 0 && origPath == "" && temp == []
      ensures lastModificationMillis == 0 && fileId == "" && size == 0
    {
      name, sha1, pieces, origPath := "", "", 0, "";
      temp, lastModificationMillis, fileId, size := [], 0, "", 0;
    }
  }

  /** The local file system: each existing path and its contents. */
  class Disk {
    var files: map<string, seq<byte>>

    constructor (initial: map<string, seq<byte>>)
      ensures files == initial
    {
      files := initial;
    }
  }
}
