/** auth.go: where the credentials come from, the checks made before the
    authorization request, the HTTP Basic credential, the reply rules of the
    authorize, get-upload-part-URL and finish-large-file calls, and the text of the
    finish-large-file request. */
module Auth {
  import opened Base
  import opened Encoding
  import opened Types

  /** `Configuration` (gopherb2.go:35-39). */
  datatype Configuration = Configuration(acctId: string, appId: string, apiUrl: string)

  /** The key is present with a non-empty value. */
  predicate Provides(m: map<string, string>, key: string)
  {
    key in m && m[key] != ""
  }

  /** `viper.GetString` and `os.Getenv`: the empty string for an absent key. */
  function Lookup(m: map<string, string>, key: string): (v: string)
    ensures v != "" <==> Provides(m, key)
    ensures v != "" ==> v == m[key]
  {
    if key in m then m[key] else ""
  }

  /** auth.go:32-53: the `Account1.*` keys of the settings file when the (second)
      read of the settings file succeeds, the `B2AcctID`, `B2AppID` and `B2APIURL`
      environment variables when it fails. */
  function LoadConfig(settingsFound: bool, settings: map<string, string>, env: map<string, string>): (c: Configuration)
    ensures c.acctId != "" <==> if settingsFound then Provides(settings, "Account1.AcctID") else Provides(env, "B2AcctID")
    ensures c.appId != "" <==> if settingsFound then Provides(settings, "Account1.AppID") else Provides(env, "B2AppID")
    ensures c.apiUrl != "" <==> if settingsFound then Provides(settings, "Account1.APIURL") else Provides(env, "B2APIURL")
  {
    if settingsFound then
      Configuration(Lookup(settings, "Account1.AcctID"), Lookup(settings, "Account1.AppID"),
                    Lookup(settings, "Account1.APIURL"))
    else
      Configuration(Lookup(env, "B2AcctID"), Lookup(env, "B2AppID"), Lookup(env, "B2APIURL"))
  }

  /** The two sources never mix: with a settings file the environment is ignored,
      without one the settings are ignored. */
  lemma ConfigSourceExclusive(settings: map<string, string>, settings': map<string, string>,
                              env: map<string, string>, env': map<string, string>)
    ensures LoadConfig(true, settings, env) == LoadConfig(true, settings, env')
    ensures LoadConfig(false, settings, env) == LoadConfig(false, settings', env)
    ensures "B2AcctID" in env ==> LoadConfig(false, settings, env).acctId == env["B2AcctID"]
    ensures "Account1.AcctID" !in settings ==> LoadConfig(true, settings, env).acctId == ""
  {
  }

  const AccountIdMissing := "Account ID set to default. Update with your Account Id from Backblaze Settings."
  const AppIdMissing := "Application ID set to default. Update with your Application Id from Backblaze Settings."

  /** `"Basic " + base64(AcctID + ":" + AppID)` (auth.go:60,78): the Basic scheme of
      section 2 of RFC 7617 over the padded standard base64 of section 4 of RFC 4648. */
  function BasicCredential(acctId: string, appId: string): (h: string)
    ensures |h| == 6 + 4 * ((|Utf8(acctId + ":" + appId)| + 2) / 3)
    ensures h[..6] == "Basic "
  {
    "Basic " + Base64Encode(Utf8(acctId + ":" + appId))
  }

  /** Splits `b` at the first occurrence of `sep`. */
  function SplitAtFirst(b: seq<byte>, sep: byte): Option<(seq<byte>, seq<byte>)>
  {
    if b == [] then None
    else if b[0] == sep then Some(([], b[1..]))
    else match SplitAtFirst(b[1..], sep)
      case None => None
      case Some(parts) => Some(([b[0]] + parts.0, parts.1))
  }

  lemma {:induction false} SplitAtFirstOf(x: seq<byte>, sep: byte, y: seq<byte>)
    requires sep !in x
    ensures SplitAtFirst(x + [sep] + y, sep) == Some((x, y))
  {
    if x == [] {
      assert x + [sep] + y == [sep] + y;
    } else {
      var b := x + [sep] + y;
      assert b[0] == x[0] && b[0] != sep;
      assert b[1..] == x[1..] + [sep] + y;
      SplitAtFirstOf(x[1..], sep, y);
      assert [x[0]] + x[1..] == x;
    }
  }

  /** How a server reads a Basic credential: the user-id and password bytes. */
  function DecodeBasic(h: string): Option<(seq<byte>, seq<byte>)>
  {
    if |h| < 6 || h[..6] != "Basic " then None
    else match Base64Decode(h[6..])
      case None => None
      case Some(b) => SplitAtFirst(b, ':' as int)
  }

  /** The credential carries exactly the account and application IDs, provided the
      account ID has no colon (section 2 of RFC 7617 forbids one in a user-id). */
  lemma Utf8Credentials(acctId: string, appId: string)
    ensures Utf8(acctId + ":" + appId) == Utf8(acctId) + [':' as int] + Utf8(appId)
  {
    assert acctId + ":" + appId == acctId + (":" + appId);
    Utf8Append(acctId, ":" + appId);
    Utf8Append(":", appId);
    assert Utf8(":") == [':' as int];
  }

  lemma BasicCredentialRoundTrip(acctId: string, appId: string)
    requires ':' !in acctId
    ensures DecodeBasic(BasicCredential(acctId, appId)) == Some((Utf8(acctId), Utf8(appId)))
  {
    var b := Utf8(acctId + ":" + appId);
    var h := BasicCredential(acctId, appId);
    assert h[6..] == Base64Encode(b);
    Base64RoundTrip(b);
    Utf8Credentials(acctId, appId);
    Utf8AsciiOccurs(acctId, ':');
    SplitAtFirstOf(Utf8(acctId), ':' as int, Utf8(appId));
  }

  /** The authorization request: its URL and its `Authorization` header. */
  datatype AuthRequest = AuthRequest(url: string, authorization: string)

  function AuthorizeRequest(c: Configuration): AuthRequest
  {
    AuthRequest(c.apiUrl + "b2_authorize_account", BasicCredential(c.acctId, c.appId))
  }

  /** `AuthorizeAcct` (auth.go:54-119) once the configuration is loaded, given the
      server's reply to `AuthorizeRequest(c)`. */
  function AuthorizeAcct(c: Configuration, reply: Reply<APIAuthorization>): (r: Result<APIAuthorization, Stop>)
    ensures c.acctId == "" ==> r == Err(Fatal(AccountIdMissing))
    ensures c.acctId != "" && c.appId == "" ==> r == Err(Fatal(AppIdMissing))
    ensures r.Ok? <==> c.acctId != "" && c.appId != "" && reply.Response? && reply.status == StatusOK
                       && reply.body.Some? && reply.body.value.accountId == c.acctId
    ensures r.Ok? ==> r.value == reply.body.value
  {
    if c.acctId == "" then Err(Fatal(AccountIdMissing))
    else if c.appId == "" then Err(Fatal(AppIdMissing))
    else match reply
      case NoResponse => Err(Fatal("API Auth Request Failed."))
      case Response(status, body) =>
        if body.None? then Err(Fatal("Cannot parse API Auth Response JSON."))
        else if status != StatusOK then Err(Fatal("Authorization with Backblaze B2 API Failed"))
        else if body.value.accountId != c.acctId then
          Err(Fatal("API Account ID Response does not match Account ID in Config."))
        else Ok(body.value)
  }

  /** With an ID missing, authorization stops the same way whatever the server
      would have said: the checks come before the request. */
  lemma MissingIdsStopBeforeRequest(c: Configuration, reply: Reply<APIAuthorization>, reply': Reply<APIAuthorization>)
    requires c.acctId == "" || c.appId == ""
    ensures AuthorizeAcct(c, reply) == AuthorizeAcct(c, reply') && AuthorizeAcct(c, reply).Err?
  {
  }

  // ------------------------------------------------ get upload part URL

  const UploadPartUrlTemplate: seq<string> := ["{\"fileId\": \"", "\"}"]

  /** The body of the get-upload-part-URL request (auth.go:232). */
  function UploadPartUrlBody(fileId: string): string
  {
    Fill(UploadPartUrlTemplate, [fileId])
  }

  lemma UploadPartUrlBodyRoundTrip(fileId: string)
    requires QuoteFree(fileId)
    ensures Unfill(UploadPartUrlTemplate, UploadPartUrlBody(fileId)) == Some([fileId])
  {
    assert Delimited(UploadPartUrlTemplate) by {
      assert UploadPartUrlTemplate[1][0] == '"';
    }
    UnfillFill(UploadPartUrlTemplate, [fileId]);
  }

  /** `B2GetUploadPartURL` (auth.go:241-266): any status other than "200 OK" stops
      the process; otherwise the decoded URL, token and file ID come back. */
  function GetUploadPartURL(reply: Reply<UploadPartResponse>): (r: Result<UploadPartResponse, Stop>)
    ensures r.Ok? <==> reply.Response? && reply.status == StatusOK && reply.body.Some?
    ensures r.Ok? ==> r.value == reply.body.value
  {
    match reply
    case NoResponse => Err(Fatal("Error requesting Part Upload URL"))
    case Response(status, body) =>
      if status != StatusOK then Err(Fatal("Could not obtain Part Upload URL"))
      else if body.None? then Err(Fatal("Upload Part Response JSON Parse Failed"))
      else Ok(body.value)
  }

  // ------------------------------------------------ finish large file

  /** The SHA1 of every piece, in piece order. */
  function PieceSha1s(temp: seq<TempPiece>): (hs: seq<string>)
    ensures |hs| == |temp| && forall k :: 0 <= k < |temp| ==> hs[k] == temp[k].sha1
  {
    seq(|temp|, k requires 0 <= k < |temp| => temp[k].sha1)
  }

  function Quote(h: string): string
  {
    "\"" + h + "\""
  }

  /** `"h0","h1",...,"hn"`: each hash in double quotes, commas between, none after
      the last; empty for no hashes. */
  function QuotedList(hs: seq<string>): string
  {
    if hs == [] then ""
    else if |hs| == 1 then Quote(hs[0])
    else Quote(hs[0]) + "," + QuotedList(hs[1..])
  }

  lemma {:induction false} QuotedListSnoc(hs: seq<string>, h: string)
    requires hs != []
    ensures QuotedList(hs + [h]) == QuotedList(hs) + "," + Quote(h)
  {
    var hs' := hs + [h];
    assert hs'[0] == hs[0] && hs'[1..] == hs[1..] + [h];
    if |hs| == 1 {
      assert hs'[1..] == [h];
    } else {
      QuotedListSnoc(hs[1..], h);
      calc {
        QuotedList(hs');
        Quote(hs[0]) + "," + QuotedList(hs[1..] + [h]);
        Quote(hs[0]) + "," + (QuotedList(hs[1..]) + "," + Quote(h));
        (Quote(hs[0]) + "," + QuotedList(hs[1..])) + "," + Quote(h);
      }
    }
  }

  /** The `partSha1Array` loop of auth.go:175-185 writing into a buffer. */
  method BuildPartSha1Array(temp: seq<TempPiece>) returns (s: string)
    ensures s == QuotedList(PieceSha1s(temp))
  {
    ghost var hs := PieceSha1s(temp);
    s := "";
    var i := 0;
    while i < |temp|
      invariant 0 <= i <= |temp|
      invariant s == QuotedList(hs[..i]) + (if 0 < i < |temp| then "," else "")
    {
      ghost var old_s := s;
      if i > 0 {
        QuotedListSnoc(hs[..i], hs[i]);
        assert hs[..i + 1] == hs[..i] + [hs[i]];
      } else {
        assert hs[..1] == [hs[0]];
      }
      s := s + "\"" + temp[i].sha1 + "\"";
      assert s == old_s + Quote(hs[i]);
      if i != |temp| - 1 {
        s := s + ",";
      }
      i := i + 1;
    }
    assert hs[..|temp|] == hs;
  }

  /** Reads a list written by `QuotedList` back into its items. */
  function ParseQuotedList(s: string): Option<seq<string>>
  {
    if s == "" then Some([]) else ParseItems(s)
  }

  function ParseItems(s: string): Option<seq<string>>
    decreases |s|
  {
    if |s| < 2 || s[0] != '"' then None
    else
      var h := UntilQuote(s[1..]);
      var after := s[1 + |h|..];
      if |after| == 0 then None
      else if |after| == 1 then Some([h])
      else if after[1] != ',' then None
      else match ParseItems(after[2..])
        case None => None
        case Some(t) => Some([h] + t)
  }

  /** Reading a quoted item: the text up to the closing quote is the item. */
  lemma QuotedItem(h: string, r: string)
    requires QuoteFree(h) && |r| > 0 && r[0] == '"'
    ensures ("\"" + h + r)[1..] == h + r
    ensures UntilQuote(("\"" + h + r)[1..]) == h
    ensures ("\"" + h + r)[1 + |h|..] == r
  {
    UntilQuoteOf(h, r);
  }

  /** One step of `ParseItems` over a quoted item followed by `r`. */
  lemma ParseItemsStep(h: string, r: string)
    requires QuoteFree(h) && |r| > 0 && r[0] == '"'
    ensures |r| == 1 ==> ParseItems("\"" + h + r) == Some([h])
    ensures |r| > 1 && r[1] == ',' && ParseItems(r[2..]).Some? ==>
              ParseItems("\"" + h + r) == Some([h] + ParseItems(r[2..]).value)
  {
    QuotedItem(h, r);
  }

  /** A list of two or more starts with its first item, quoted, then a comma. */
  lemma QuotedListCons(hs: seq<string>)
    requires |hs| > 1
    ensures var r := "\"," + QuotedList(hs[1..]);
            QuotedList(hs) == "\"" + hs[0] + r && r[2..] == QuotedList(hs[1..])
  {
    var r := "\"," + QuotedList(hs[1..]);
    assert Quote(hs[0]) + "," + QuotedList(hs[1..]) == "\"" + hs[0] + r;
  }

  lemma {:induction false} ParseItemsOfQuotedList(hs: seq<string>)
    requires hs != [] && forall k :: 0 <= k < |hs| ==> QuoteFree(hs[k])
    ensures ParseItems(QuotedList(hs)) == Some(hs)
  {
    if |hs| == 1 {
      ParseItemsStep(hs[0], "\"");
      assert hs == [hs[0]];
    } else {
      var r := "\"," + QuotedList(hs[1..]);
      QuotedListCons(hs);
      ParseItemsOfQuotedList(hs[1..]);
      ParseItemsStep(hs[0], r);
      assert [hs[0]] + hs[1..] == hs;
    }
  }

  /** The array text determines the hashes and their order. */
  lemma QuotedListRoundTrip(hs: seq<string>)
    requires forall k :: 0 <= k < |hs| ==> QuoteFree(hs[k])
    ensures ParseQuotedList(QuotedList(hs)) == Some(hs)
  {
    if hs != [] {
      ParseItemsOfQuotedList(hs);
    }
  }

  const FinishPrefix := "{\"fileId\": \""
  const FinishMiddle := "\", \"partSha1Array\":["
  const FinishSuffix := "]}"

  /** The finish-large-file body (auth.go:190). */
  function FinishBody(fileId: string, partSha1Array: string): string
  {
    FinishPrefix + fileId + FinishMiddle + partSha1Array + FinishSuffix
  }

  /** Reads the file ID and the hash list back out of a finish body. */
  function ParseFinishBody(s: string): Option<(string, seq<string>)>
  {
    if !(FinishPrefix <= s) then None
    else
      var rest := s[|FinishPrefix|..];
      var fileId := UntilQuote(rest);
      match ParseFinishTail(rest[|fileId|..])
      case None => None
      case Some(hs) => Some((fileId, hs))
  }

  /** The part of a finish body after the file ID. */
  function ParseFinishTail(s: string): Option<seq<string>>
  {
    if !(FinishMiddle <= s) then None
    else
      var list := s[|FinishMiddle|..];
      if |list| < 2 || list[|list| - 2..] != FinishSuffix then None
      else ParseQuotedList(list[..|list| - 2])
  }

  lemma ParseFinishTailOf(a: string)
    ensures ParseFinishTail(FinishMiddle + a + FinishSuffix) == ParseQuotedList(a)
  {
    var s := FinishMiddle + a + FinishSuffix;
    assert FinishMiddle <= s;
    var list := s[|FinishMiddle|..];
    assert list == a + FinishSuffix;
    assert list[|list| - 2..] == FinishSuffix;
    assert list[..|list| - 2] == a;
  }

  /** Reading a quoted field that follows the literal `p`. */
  lemma FieldAfter(p: string, v: string, t: string)
    requires QuoteFree(v) && |t| > 0 && t[0] == '"'
    ensures p <= p + v + t
    ensures (p + v + t)[|p|..] == v + t
    ensures UntilQuote(v + t) == v && (v + t)[|v|..] == t
  {
    UntilQuoteOf(v, t);
  }

  lemma ParseFinishBodyOf(fileId: string, a: string)
    requires QuoteFree(fileId)
    ensures ParseFinishBody(FinishBody(fileId, a)) ==
              if ParseQuotedList(a).Some? then Some((fileId, ParseQuotedList(a).value)) else None
  {
    var tail := FinishMiddle + a + FinishSuffix;
    assert FinishBody(fileId, a) == FinishPrefix + fileId + tail;
    FieldAfter(FinishPrefix, fileId, tail);
    ParseFinishTailOf(a);
  }

  /** The finish body names the large file and lists the piece hashes in piece
      order, and nothing else. */
  lemma FinishBodyRoundTrip(fileId: string, hs: seq<string>)
    requires QuoteFree(fileId) && forall k :: 0 <= k < |hs| ==> QuoteFree(hs[k])
    ensures ParseFinishBody(FinishBody(fileId, QuotedList(hs))) == Some((fileId, hs))
  {
    ParseFinishBodyOf(fileId, QuotedList(hs));
    QuotedListRoundTrip(hs);
  }

  /** `B2FinishLargeFile` (auth.go:200-223) returns only the transport error, but a
      transport error leaves `resp` nil and reading its body panics first; any
      status, "200 OK" or not, returns a nil error. */
  function FinishLargeFile(reply: Reply<()>): (r: Result<Option<string>, Stop>)
    ensures r.Err? <==> reply.NoResponse?
    ensures r.Ok? ==> r.value == None
  {
    match reply
    case NoResponse => Err(Panic(NilResponseMessage))
    case Response(_, _) => Ok(None)
  }
}
