/** buckets.go: creating a bucket (name check, bucket type, request body) and
    printing the bucket list. */
module Buckets {
  import opened Base
  import opened Encoding
  import opened Types
  import opened Auth

  /** `Bucket` (buckets.go:19-26). */
  datatype Bucket = Bucket(
    accountId: string,
    bucketId: string,
    bucketName: string,
    bucketType: string,
    lifecycleRules: seq<string>,
    revision: int)

  // -------------------------------------------------------- create bucket

  /** buckets.go:32: `len` counts the UTF-8 bytes of the name. */
  function NameTooShort(bucketName: string): (short: bool)
    ensures short <==> |Utf8(bucketName)| < 6
    ensures short ==> |bucketName| < 6
  {
    |Utf8(bucketName)| < 6
  }

  /** Six ASCII characters always pass; fewer than two characters never do. */
  lemma NameLengthBounds(bucketName: string)
    ensures |bucketName| >= 6 ==> !NameTooShort(bucketName)
    ensures |bucketName| <= 1 ==> NameTooShort(bucketName)
  {
    if |bucketName| == 1 {
      assert |Utf8Char(bucketName[0])| <= 4;
      assert Utf8(bucketName) == Utf8Char(bucketName[0]) by {
        assert bucketName == [] + [bucketName[0]];
        Utf8Append([], [bucketName[0]]);
      }
    }
  }

  /** buckets.go:39-42. */
  function BucketType(bucketPublic: bool): (t: string)
    ensures t == "allPublic" <==> bucketPublic
    ensures t == "allPrivate" <==> !bucketPublic
  {
    if bucketPublic then "allPublic" else "allPrivate"
  }

  /** The literal pieces of the create-bucket body (buckets.go:49). */
  const CreateBucketTemplate: seq<string> := [
    "{\"accountId\": \"",
    "\", \"bucketName\":\"",
    "\", \"bucketType\":\"",
    "\" }"]

  function CreateBucketBody(accountId: string, bucketName: string, bucketType: string): string
  {
    Fill(CreateBucketTemplate, [accountId, bucketName, bucketType])
  }

  /** The body gives back the account ID, the name and the type, in that order,
      when none of them holds a double quote. */
  lemma CreateBucketBodyRoundTrip(accountId: string, bucketName: string, bucketType: string)
    requires QuoteFree(accountId) && QuoteFree(bucketName) && QuoteFree(bucketType)
    ensures Unfill(CreateBucketTemplate, CreateBucketBody(accountId, bucketName, bucketType))
            == Some([accountId, bucketName, bucketType])
  {
    var t := CreateBucketTemplate;
    assert Delimited(t) by {
      assert t[1][0] == '"' && t[2][0] == '"' && t[3][0] == '"';
    }
    UnfillFill(t, [accountId, bucketName, bucketType]);
  }

  /** The create-bucket request (buckets.go:49-60). */
  datatype CreateBucketRequest = CreateBucketRequest(url: string, authorization: string, body: string)

  const NameTooShortMessage := "Bucket Name must be at least 6 chars"
  const CreateFailedMessage := "Could not create new Bucket"

  /** `B2CreateBucket` (buckets.go:29-96): the name check, then authorization
      (`authReply` answers it), then the request, which must come back "200 OK".
      A response body that does not decode is only printed. */
  function CreateBucket(bucketName: string, bucketPublic: bool, c: Configuration,
                        authReply: Reply<APIAuthorization>, reply: Reply<()>): (r: Result<CreateBucketRequest, Stop>)
    ensures NameTooShort(bucketName) ==> r == Err(Fatal(NameTooShortMessage))
    ensures !NameTooShort(bucketName) && AuthorizeAcct(c, authReply).Err? ==> r == Err(AuthorizeAcct(c, authReply).error)
    ensures r.Ok? <==> && !NameTooShort(bucketName) && AuthorizeAcct(c, authReply).Ok?
                       && reply.Response? && reply.status == StatusOK
    ensures r.Ok? ==>
      var auth := AuthorizeAcct(c, authReply).value;
      && r.value.url == auth.apiUrl + "/b2api/v1/b2_create_bucket"
      && r.value.authorization == auth.authorizationToken
      && r.value.body == CreateBucketBody(auth.accountId, bucketName, BucketType(bucketPublic))
  {
    if NameTooShort(bucketName) then Err(Fatal(NameTooShortMessage))
    else
      var bucketType := BucketType(bucketPublic);
      var authorization := AuthorizeAcct(c, authReply);
      if authorization.Err? then Err(authorization.error)
      else
        var auth := authorization.value;
        var request := CreateBucketRequest(auth.apiUrl + "/b2api/v1/b2_create_bucket", auth.authorizationToken,
                                           CreateBucketBody(auth.accountId, bucketName, bucketType));
        match reply
        case NoResponse => Err(Panic(NilResponseMessage))
        case Response(status, _) =>
          if status == StatusOK then Ok(request) else Err(Panic(CreateFailedMessage))
  }

  /** A short name stops the process the same way whatever the configuration and
      the server would have said: the check comes before authorization. */
  lemma ShortNameStopsFirst(bucketName: string, bucketPublic: bool, c: Configuration, c': Configuration,
                            authReply: Reply<APIAuthorization>, authReply': Reply<APIAuthorization>,
                            reply: Reply<()>, reply': Reply<()>)
    requires NameTooShort(bucketName)
    ensures CreateBucket(bucketName, bucketPublic, c, authReply, reply)
            == CreateBucket(bucketName, bucketPublic, c', authReply', reply')
  {
  }

  // -------------------------------------------------------- print buckets

  const BucketsTitle := "B2 Buckets"
  const BucketsHeader := "-ID-\t -NAME-\t -TYPE-"
  const NoBucketsMessage := "No Buckets to print"

  /** One row of buckets.go:159: `Fprintln` puts a space between its three
      operands, each already ending in a tab. */
  function BucketRow(b: Bucket): (r: string)
    ensures |r| == |b.bucketId| + |b.bucketName| + |b.bucketType| + 5
    ensures r[..|b.bucketId|] == b.bucketId && r[|r| - 1] == '\t'
  {
    b.bucketId + "\t" + " " + b.bucketName + "\t" + " " + b.bucketType + "\t"
  }

  /** The cells a tab writer sees in a line: the text between tabs. */
  function Cells(s: string): (r: seq<string>)
    ensures |r| >= 1
  {
    if s == [] then [""]
    else
      var rest := Cells(s[1..]);
      if s[0] == '\t' then [""] + rest else [[s[0]] + rest[0]] + rest[1..]
  }

  lemma {:induction false} CellsAfter(a: string, t: string)
    requires '\t' !in a
    ensures Cells(a + "\t" + t) == [a] + Cells(t)
  {
    if a != [] {
      assert (a + "\t" + t)[1..] == a[1..] + "\t" + t;
      CellsAfter(a[1..], t);
      assert [a[0]] + a[1..] == a;
    } else {
      assert a + "\t" + t == "\t" + t;
    }
  }

  /** A row is four cells: the ID, the name and the type (the last two after the
      separating space), then the empty cell after the final tab. */
  lemma BucketRowCells(b: Bucket)
    requires '\t' !in b.bucketId && '\t' !in b.bucketName && '\t' !in b.bucketType
    ensures Cells(BucketRow(b)) == [b.bucketId, " " + b.bucketName, " " + b.bucketType, ""]
  {
    var n := " " + b.bucketName;
    var t := " " + b.bucketType;
    assert BucketRow(b) == b.bucketId + "\t" + (n + "\t" + (t + "\t" + ""));
    assert '\t' !in n && '\t' !in t;
    CellsAfter(t, "");
    CellsAfter(n, t + "\t" + "");
    CellsAfter(b.bucketId, n + "\t" + (t + "\t" + ""));
  }

  /** `PrintBuckets` (buckets.go:151-166). `buckets` is `None` for a nil list.
      The lines are what goes to the console, before the tab writer aligns the
      columns. */
  method PrintBuckets(buckets: Option<seq<Bucket>>) returns (lines: seq<string>, err: Option<string>)
    ensures buckets.None? <==> err == Some(NoBucketsMessage)
    ensures buckets.None? ==> lines == []
    ensures buckets.Some? ==>
      && err.None?
      && |lines| == |buckets.value| + 3
      && lines[0] == BucketsTitle && lines[1] == BucketsHeader && lines[|lines| - 1] == ""
      && forall i :: 0 <= i < |buckets.value| ==> lines[i + 2] == BucketRow(buckets.value[i])
  {
    if buckets.Some? {
      var bs := buckets.value;
      lines := [BucketsTitle, BucketsHeader];
      var i := 0;
      while i < |bs|
        invariant 0 <= i <= |bs|
        invariant |lines| == i + 2 && lines[0] == BucketsTitle && lines[1] == BucketsHeader
        invariant forall j :: 0 <= j < i ==> lines[j + 2] == BucketRow(bs[j])
      {
        lines := lines + [BucketRow(bs[i])];
        i := i + 1;
      }
      lines := lines + [""];
      return lines, None;
    }
    return [], Some(NoBucketsMessage);
  }
}
