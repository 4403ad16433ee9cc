/** The request handler of the gateway: `GET /` serves a static page, `GET /<key>` serves a
    stored object, and an authorised `POST` stores the uploaded file under a name derived from
    its SHA-1 digest. `Dispatch` specifies one request as a value; `Handle` performs it step by
    step on a response object and a bucket, as the middleware does. */
module Gateway {
  import opened Basics
  import opened BasicAuth
  import opened Streams
  import opened Storage

  const HtmlType := "text/html; charset=utf-8"
  const PlainType := "text/plain; charset=utf-8"
  const PngType := "image/png"

  /** The body-size bound passed to the form-data reader. */
  const MaxFormSize := 1000000

  /** The informational HTML page served at `/`; its text is not modelled. */
  const Page: string

  // ---------------------------------------------------------------- responses

  datatype Body = Text(text: string) | Bytes(bytes: seq<byte>)

  /** The response fields the handler sets; None where it leaves a field unset. Header names are
      kept in lower case, as `Headers` stores them. */
  datatype ResponseState = ResponseState(
    status: Option<nat>,
    contentType: Option<string>,
    headers: map<string, string>,
    body: Option<Body>)

  /** The response as the framework hands it to the handler: nothing set. */
  const Unset := ResponseState(None, None, map[], None)

  class Response {
    var status: Option<nat>
    var contentType: Option<string>
    var headers: map<string, string>
    var body: Option<Body>

    constructor ()
      ensures State() == Unset
    {
      status, contentType, headers, body := None, None, map[], None;
    }

    function State(): ResponseState
      reads this
    {
      ResponseState(status, contentType, headers, body)
    }
  }

  // ---------------------------------------------------------------- the 401 challenge

  /** The realm text of the challenge. */
  const Realm := "Enter username and password."

  /** The `www-authenticate` value as main.ts writes it: the quoted realm is never closed. */
  const ChallengeAsWritten := "Basic realm=\"" + Realm

  /** The value with its closing quote, which the model sends. */
  const Challenge := "Basic realm=" + Quoted(Realm)

  /** A quoted-string (RFC 7230, section 3.2.6) made of plain characters only, without
      backslash escapes. */
  predicate IsQuotedString(s: string) {
    |s| >= 2 && s[0] == '"' && s[|s| - 1] == '"' &&
    forall i :: 0 < i < |s| - 1 ==> s[i] != '"' && s[i] != '\\'
  }

  /** A Basic challenge with one `realm` parameter (RFC 7617, section 2). */
  predicate IsBasicChallenge(v: string) {
    |v| >= 12 && v[..12] == "Basic realm=" && IsQuotedString(v[12..])
  }

  /** `t` between double quotes, with no escaping. */
  function Quoted(t: string): (q: string)
    ensures IsQuotedString(q) <==> '"' !in t && '\\' !in t
  {
    var q := "\"" + t + "\"";
    assert forall i :: 0 < i < |q| - 1 ==> q[i] == t[i - 1];
    assert forall k :: 0 <= k < |t| ==> t[k] == q[k + 1];
    q
  }

  lemma ChallengeAsWrittenUnterminated()
    ensures !IsBasicChallenge(ChallengeAsWritten)
  {
    var v := ChallengeAsWritten;
    assert v[|v| - 1] == Realm[|Realm| - 1] == '.';
  }

  lemma ChallengeWellFormed()
    ensures IsBasicChallenge(Challenge)
  {
    var q := Quoted(Realm);
    assert '"' !in Realm && '\\' !in Realm;
    assert Challenge[..12] == "Basic realm=" && Challenge[12..] == q;
  }

  /** The fields `notAuthenticated` sets on a response. */
  function Denied(r: ResponseState): ResponseState {
    r.(status := Some(401), contentType := Some(PlainType),
       headers := r.headers["www-authenticate" := Challenge],
       body := Some(Text("Not Authenticated")))
  }

  /** The fields `notAuthenticated` sets as main.ts writes them, with the unterminated realm. */
  function DeniedAsWritten(r: ResponseState): (d: ResponseState)
    ensures d.status == Some(401) && d.contentType == Some(PlainType)
    ensures d.body == Some(Text("Not Authenticated"))
    ensures d.headers.Keys == r.headers.Keys + {"www-authenticate"}
    ensures d.headers["www-authenticate"] == ChallengeAsWritten
    ensures forall k :: k in r.headers && k != "www-authenticate" ==> d.headers[k] == r.headers[k]
  {
    r.(status := Some(401), contentType := Some(PlainType),
       headers := r.headers["www-authenticate" := ChallengeAsWritten],
       body := Some(Text("Not Authenticated")))
  }

  /** Every 401 that main.ts sends carries a malformed challenge. The corrected response has a
      well-formed one and differs from it in that header value only. */
  lemma DeniedAsWrittenMalformed(r: ResponseState)
    ensures !IsBasicChallenge(DeniedAsWritten(r).headers["www-authenticate"])
    ensures IsBasicChallenge(Denied(r).headers["www-authenticate"])
    ensures DeniedAsWritten(r) == Denied(r).(headers := Denied(r).headers["www-authenticate" := ChallengeAsWritten])
  {
    ChallengeAsWrittenUnterminated();
    ChallengeWellFormed();
    var k := "www-authenticate";
    assert r.headers[k := Challenge][k := ChallengeAsWritten] == r.headers[k := ChallengeAsWritten];
  }

  /** `notAuthenticated(ctx)`: status 401, a plain-text type, the challenge header and the body
      "Not Authenticated"; every other header is kept. */
  method NotAuthenticated(res: Response)
    modifies res
    ensures res.State() == Denied(old(res.State()))
    ensures res.status == Some(401) && res.body == Some(Text("Not Authenticated"))
    ensures res.headers.Keys == old(res.headers).Keys + {"www-authenticate"}
  {
    res.status := Some(401);
    res.contentType := Some(PlainType);
    res.headers := res.headers["www-authenticate" := Challenge];
    res.body := Some(Text("Not Authenticated"));
  }

  // ---------------------------------------------------------------- requests

  /** One file field of a multipart form; its content is absent when the reader did not keep
      it in memory. */
  datatype FormFile = FormFile(content: Option<seq<byte>>)

  /** A form-data body: its size in bytes and, when it parses, its file fields in order. */
  datatype FormBody = FormBody(size: nat, files: Option<seq<FormFile>>)

  datatype Request = Request(
    verb: string,           // the HTTP method
    url: string,            // the full request URL, serialized
    pathname: string,       // the URL's path, starting with `/`
    authorization: Option<string>,
    form: FormBody)

  /** GYAZO_USERNAME and GYAZO_PASSWORD, None when unset. */
  datatype Config = Config(username: Option<string>, password: Option<string>)

  /** What escapes the handler instead of a response. */
  datatype Thrown =
    | AuthorizationThrew(error: AuthError)  // basicAuthentication threw
    | BodyTooLarge                          // the form reader's size bound was exceeded
    | BodyUnreadable                        // the body is not multipart form data
    | NoFileContent                         // no first file, or no content for it

  /** The content of the first file of the form, or what the reader or the property accesses
      throw. */
  function ReadUpload(form: FormBody): (r: Result<seq<byte>, Thrown>)
    ensures r.Success? <==> form.size <= MaxFormSize && form.files.Some? && |form.files.value| > 0
                            && form.files.value[0].content.Some?
    ensures r.Success? ==> r.value == form.files.value[0].content.value
    ensures form.size > MaxFormSize ==> r == Failure(BodyTooLarge)
  {
    if form.size > MaxFormSize then Failure(BodyTooLarge)
    else if form.files.None? then Failure(BodyUnreadable)
    else if form.files.value == [] || form.files.value[0].content.None? then Failure(NoFileContent)
    else Success(form.files.value[0].content.value)
  }

  // ---------------------------------------------------------------- naming

  predicate IsLowerHex(c: char) {
    '0' <= c <= '9' || 'a' <= c <= 'f'
  }

  /** What `new Sha1().update(content).hex()` returns: 40 lower-case hexadecimal digits. */
  type HexDigest = s: string | |s| == 40 && forall i :: 0 <= i < |s| ==> IsLowerHex(s[i])
    witness "0000000000000000000000000000000000000000"

  /** The SHA-1 digest, which this model leaves uninterpreted. */
  type Sha1 = seq<byte> -> HexDigest

  /** The storage name: the first 16 hex digits of the digest, then `.png`. */
  function ObjectName(digest: HexDigest): (name: string)
    ensures |name| == 20 && name[16..] == ".png"
    ensures forall i :: 0 <= i < 16 ==> IsLowerHex(name[i]) && name[i] == digest[i]
  {
    digest[..16] + ".png"
  }

  /** Two digests give the same name exactly when their first 16 digits agree. */
  lemma ObjectNameCollisions(d1: HexDigest, d2: HexDigest)
    ensures ObjectName(d1) == ObjectName(d2) <==> d1[..16] == d2[..16]
  {
    if ObjectName(d1) == ObjectName(d2) {
      assert d1[..16] == ObjectName(d1)[..16];
      assert d2[..16] == ObjectName(d2)[..16];
    }
  }

  // ---------------------------------------------------------------- dispatch

  /** `name.slice(1)`: the path without its first character. */
  function KeyOf(pathname: string): (key: string)
    ensures pathname != "" ==> [pathname[0]] + key == pathname
    ensures pathname == "" ==> key == ""
  {
    if pathname == "" then "" else pathname[1..]
  }

  /** The string `Headers.set` stores for a value that may be `undefined`. */
  function HeaderString(v: Option<string>): (h: string)
    ensures v.Some? ==> h == v.value
    ensures v.None? ==> h == "undefined"
  {
    if v.Some? then v.value else "undefined"
  }

  /** The request carries Basic credentials equal to the configured pair. */
  predicate Authorised(req: Request, cfg: Config): (ok: bool)
    ensures ok ==> cfg.username.Some? && cfg.password.Some?
    ensures ok ==> req.authorization.Some? && BasicAuthentication(req.authorization.value).Success?
  {
    && req.authorization.Some?
    && var r := BasicAuthentication(req.authorization.value);
    && r.Success?
    && Some(r.value.username) == cfg.username
    && Some(r.value.password) == cfg.password
  }

  /** The response, the store afterwards, and the error that escaped, if any. */
  datatype Outcome = Outcome(response: ResponseState, store: Store, thrown: Option<Thrown>)

  /** What the checks of a POST decide before the store is touched. */
  datatype Admission =
    | Refused                        // no header, or credentials other than the configured pair
    | Escaped(thrown: Thrown)        // the parser or the form reader threw
    | Accepted(content: seq<byte>)   // authorised, with the first file's content

  /** The checks of a POST, in the order the handler makes them. */
  function Admit(req: Request, cfg: Config): (a: Admission)
    ensures a.Accepted? <==> Authorised(req, cfg) && ReadUpload(req.form).Success?
    ensures a.Accepted? ==> a.content == ReadUpload(req.form).value
    ensures a == Refused ==> !Authorised(req, cfg)
  {
    if req.authorization.None? then Refused
    else match BasicAuthentication(req.authorization.value)
      case Failure(e) => Escaped(AuthorizationThrew(e))
      case Success(c) =>
        if Some(c.username) != cfg.username || Some(c.password) != cfg.password then Refused
        else match ReadUpload(req.form)
          case Failure(t) => Escaped(t)
          case Success(content) => Accepted(content)
  }

  /** A GET: the page at `/`, otherwise the stored object named by the path without its
      leading `/`, or a 404. */
  function Get(req: Request, store: Store): (o: Outcome)
    ensures o.store == store && o.thrown == None
    ensures o.response.status == Some(404) <==> req.pathname != "/" && KeyOf(req.pathname) !in store
  {
    if req.pathname == "/" then
      Outcome(Unset.(contentType := Some(HtmlType), body := Some(Text(Page))), store, None)
    else if KeyOf(req.pathname) !in store then
      Outcome(Unset.(status := Some(404), contentType := Some(PlainType), body := Some(Text("Not Found"))),
              store, None)
    else
      var obj := store[KeyOf(req.pathname)];
      Outcome(Unset.(headers := map["etag" := obj.etag, "content-type" := HeaderString(obj.contentType)],
                     body := Some(Bytes(obj.content))),
              store, None)
  }

  /** A POST: a 401 when refused, the escaped error, or the upload stored under its name. */
  function Post(req: Request, store: Store, cfg: Config, sha1: Sha1, etagOf: seq<byte> -> string)
    : (o: Outcome)
    ensures o.thrown.Some? <==> Admit(req, cfg).Escaped?
    ensures o.response.status == Some(401) <==> Admit(req, cfg) == Refused
    ensures Admit(req, cfg).Accepted? ==>
              var content := Admit(req, cfg).content;
              o.store == store[ObjectName(sha1(content)) := StoredObject(content, Some(PngType), etagOf(content))]
    ensures !Admit(req, cfg).Accepted? ==> o.store == store
  {
    match Admit(req, cfg)
    case Refused => Outcome(Denied(Unset), store, None)
    case Escaped(t) => Outcome(Unset, store, Some(t))
    case Accepted(content) =>
      var name := ObjectName(sha1(content));
      Outcome(Unset.(contentType := Some(PlainType), body := Some(Text(req.url + name))),
              store[name := StoredObject(content, Some(PngType), etagOf(content))], None)
  }

  /** One request, from a fresh response and the store before it. */
  function Dispatch(req: Request, store: Store, cfg: Config, sha1: Sha1, etagOf: seq<byte> -> string)
    : (o: Outcome)
    ensures o.thrown.Some? ==> o.response == Unset && o.store == store
    ensures o.store != store ==> req.verb == "POST" && Authorised(req, cfg)
    ensures store.Keys <= o.store.Keys
    ensures req.verb != "GET" && req.verb != "POST" ==> o == Outcome(Unset, store, None)
  {
    if req.verb == "GET" then Get(req, store)
    else if req.verb == "POST" then Post(req, store, cfg, sha1, etagOf)
    else Outcome(Unset, store, None)
  }

  /** The middleware: inspects the method and hands the request to the GET or the POST branch;
      what it does is what `Dispatch` specifies. */
  method Handle(req: Request, res: Response, bucket: Bucket, cfg: Config, sha1: Sha1)
    returns (thrown: Option<Thrown>)
    requires res.State() == Unset
    modifies res, bucket
    ensures var o := Dispatch(req, old(bucket.objects), cfg, sha1, bucket.etagOf);
            res.State() == o.response && bucket.objects == o.store && thrown == o.thrown
  {
    thrown := None;
    if req.verb == "GET" {
      ServeGet(req, res, bucket);
    }
    if req.verb == "POST" {
      thrown := ServePost(req, res, bucket, cfg, sha1);
    }
  }

  /** The GET branch: sets the response fields from the page or the stored object, reading the
      object's body to the end. */
  method ServeGet(req: Request, res: Response, bucket: Bucket)
    requires res.State() == Unset
    modifies res
    ensures var o := Get(req, bucket.objects);
            res.State() == o.response
  {
    var name := req.pathname;
    if name == "/" {
      res.contentType := Some(HtmlType);
      res.body := Some(Text(Page));
      return;
    }
    var obj := bucket.GetObject(KeyOf(name));
    if obj.None? {
      res.status := Some(404);
      res.contentType := Some(PlainType);
      res.body := Some(Text("Not Found"));
      return;
    }
    var bytes := ReaderToBytes(obj.value.body);
    res.headers := res.headers["etag" := obj.value.etag];
    res.headers := res.headers["content-type" := HeaderString(obj.value.contentType)];
    res.body := Some(Bytes(bytes));
  }

  /** The POST branch: the authorization checks, the form read, and the upload. */
  method ServePost(req: Request, res: Response, bucket: Bucket, cfg: Config, sha1: Sha1)
    returns (thrown: Option<Thrown>)
    requires res.State() == Unset
    modifies res, bucket
    ensures var o := Post(req, old(bucket.objects), cfg, sha1, bucket.etagOf);
            res.State() == o.response && bucket.objects == o.store && thrown == o.thrown
  {
    thrown := None;
    if req.authorization.None? {
      assert Admit(req, cfg) == Refused;
      NotAuthenticated(res);
      return;
    }
    var credentials := BasicAuthentication(req.authorization.value);
    if credentials.Failure? {
      assert Admit(req, cfg) == Escaped(AuthorizationThrew(credentials.error));
      return Some(AuthorizationThrew(credentials.error));
    }
    if Some(credentials.value.username) != cfg.username || Some(credentials.value.password) != cfg.password {
      assert Admit(req, cfg) == Refused;
      NotAuthenticated(res);
      return;
    }
    var upload := ReadUpload(req.form);
    if upload.Failure? {
      assert Admit(req, cfg) == Escaped(upload.error);
      return Some(upload.error);
    }
    var content := upload.value;
    assert Admit(req, cfg) == Accepted(content);
    var name := ObjectName(sha1(content));
    bucket.PutObject(name, content, PngType);
    res.contentType := Some(PlainType);
    res.body := Some(Text(req.url + name));
  }

  // ---------------------------------------------------------------- properties

  /** `GET /` serves the page whatever the store holds, and changes nothing. */
  lemma RootPage(req: Request, s1: Store, s2: Store, cfg: Config, sha1: Sha1, etagOf: seq<byte> -> string)
    requires req.verb == "GET" && req.pathname == "/"
    ensures Dispatch(req, s1, cfg, sha1, etagOf).response == Dispatch(req, s2, cfg, sha1, etagOf).response
    ensures Dispatch(req, s1, cfg, sha1, etagOf) ==
            Outcome(ResponseState(None, Some(HtmlType), map[], Some(Text(Page))), s1, None)
  {
  }

  /** `GET` of a key the store lacks is a plain-text 404 "Not Found". */
  lemma GetMissingObject(req: Request, store: Store, cfg: Config, sha1: Sha1, etagOf: seq<byte> -> string)
    requires req.verb == "GET" && req.pathname != "/" && KeyOf(req.pathname) !in store
    ensures Dispatch(req, store, cfg, sha1, etagOf) ==
            Outcome(ResponseState(Some(404), Some(PlainType), map[], Some(Text("Not Found"))), store, None)
  {
  }

  /** `GET` of a stored key serves its bytes with its ETag and content type. */
  lemma GetStoredObject(req: Request, store: Store, cfg: Config, sha1: Sha1, etagOf: seq<byte> -> string)
    requires req.verb == "GET" && req.pathname != "/" && KeyOf(req.pathname) in store
    ensures var o := Dispatch(req, store, cfg, sha1, etagOf);
            var obj := store[KeyOf(req.pathname)];
            && o.store == store && o.thrown == None && o.response.status == None
            && o.response.body == Some(Bytes(obj.content))
            && o.response.headers == map["etag" := obj.etag, "content-type" := HeaderString(obj.contentType)]
  {
  }

  /** A POST without an authorization header and a POST whose well-formed credentials differ
      from the configured pair get the same 401 response, and neither touches the store. */
  lemma UnauthenticatedPostsIndistinguishable(
    missing: Request, wrong: Request, store: Store, cfg: Config, sha1: Sha1, etagOf: seq<byte> -> string)
    requires missing.verb == "POST" && missing.authorization.None?
    requires wrong.verb == "POST" && wrong.authorization.Some?
    requires BasicAuthentication(wrong.authorization.value).Success?
    requires !Authorised(wrong, cfg)
    ensures Dispatch(missing, store, cfg, sha1, etagOf) == Dispatch(wrong, store, cfg, sha1, etagOf)
    ensures Dispatch(missing, store, cfg, sha1, etagOf) == Outcome(Denied(Unset), store, None)
    ensures Denied(Unset).status == Some(401) && Denied(Unset).body == Some(Text("Not Authenticated"))
    ensures Denied(Unset).headers == map["www-authenticate" := Challenge]
  {
  }

  /** A POST whose authorization header does not parse gets no 401: the parser's error escapes
      the handler with no response field set and the store unchanged. */
  lemma MalformedHeaderEscapes(req: Request, store: Store, cfg: Config, sha1: Sha1, etagOf: seq<byte> -> string)
    requires req.verb == "POST" && req.authorization.Some?
    requires BasicAuthentication(req.authorization.value).Failure?
    ensures Dispatch(req, store, cfg, sha1, etagOf) ==
            Outcome(Unset, store, Some(AuthorizationThrew(BasicAuthentication(req.authorization.value).error)))
    ensures Dispatch(req, store, cfg, sha1, etagOf).response.status != Some(401)
  {
  }

  /** While either configured credential is unset, no request changes the store. */
  lemma UnsetCredentialsDenyUploads(req: Request, store: Store, cfg: Config, sha1: Sha1, etagOf: seq<byte> -> string)
    requires cfg.username.None? || cfg.password.None?
    ensures Dispatch(req, store, cfg, sha1, etagOf).store == store
  {
  }

  /** An authorised POST stores the first file's content as `image/png` under the name derived
      from its digest, replies with the request URL followed by that name, and changes no other
      key. */
  lemma AuthorisedUpload(
    req: Request, content: seq<byte>, store: Store, cfg: Config, sha1: Sha1, etagOf: seq<byte> -> string)
    requires req.verb == "POST" && Authorised(req, cfg)
    requires ReadUpload(req.form) == Success(content)
    ensures var name := ObjectName(sha1(content));
            var o := Dispatch(req, store, cfg, sha1, etagOf);
            && |name| == 20 && name[16..] == ".png"
            && o.thrown == None
            && o.store == store[name := StoredObject(content, Some(PngType), etagOf(content))]
            && o.response.body == Some(Text(req.url + name))
            && o.response.contentType == Some(PlainType)
            && o.response.status == None
  {
  }

  /** Storing a key a second time with the value it already holds changes nothing. */
  lemma UpdateAgain<K, V>(m: map<K, V>, k: K, v: V)
    ensures m[k := v][k := v] == m[k := v]
  {
  }

  /** Uploading the same request twice is the same as uploading it once: the second upload
      gets the same reply and leaves the store as the first left it. */
  lemma UploadIdempotent(req: Request, store: Store, cfg: Config, sha1: Sha1, etagOf: seq<byte> -> string)
    requires req.verb == "POST"
    ensures var first := Dispatch(req, store, cfg, sha1, etagOf);
            Dispatch(req, first.store, cfg, sha1, etagOf) == first
  {
    var first := Post(req, store, cfg, sha1, etagOf);
    match Admit(req, cfg)
    case Refused =>
    case Escaped(_) =>
    case Accepted(content) =>
      var name := ObjectName(sha1(content));
      var entry := StoredObject(content, Some(PngType), etagOf(content));
      var reply := Unset.(contentType := Some(PlainType), body := Some(Text(req.url + name)));
      assert first == Outcome(reply, store[name := entry], None);
      UpdateAgain(store, name, entry);
      assert Post(req, first.store, cfg, sha1, etagOf) == Outcome(reply, first.store[name := entry], None);
  }

  /** After an authorised upload, `GET` of the path `/` + name serves the uploaded bytes with
      content type `image/png`. */
  lemma UploadThenGet(
    post: Request, get: Request, content: seq<byte>, store: Store, cfg: Config, sha1: Sha1,
    etagOf: seq<byte> -> string)
    requires post.verb == "POST" && Authorised(post, cfg)
    requires ReadUpload(post.form) == Success(content)
    requires get.verb == "GET" && get.pathname == "/" + ObjectName(sha1(content))
    ensures var stored := Dispatch(post, store, cfg, sha1, etagOf).store;
            var o := Dispatch(get, stored, cfg, sha1, etagOf);
            && o.response.body == Some(Bytes(content))
            && o.response.headers["content-type"] == PngType
            && o.response.headers["etag"] == etagOf(content)
  {
    var name := ObjectName(sha1(content));
    assert KeyOf(get.pathname) == name;
  }

  /** A POST whose body exceeds the size bound writes nothing. */
  lemma OversizedUploadNotStored(req: Request, store: Store, cfg: Config, sha1: Sha1, etagOf: seq<byte> -> string)
    requires req.verb == "POST" && req.form.size > MaxFormSize
    ensures Dispatch(req, store, cfg, sha1, etagOf).store == store
    ensures Authorised(req, cfg) ==> Dispatch(req, store, cfg, sha1, etagOf).thrown == Some(BodyTooLarge)
  {
  }
}
