/**
  Per-item request shaping: the image record, the MIME table, the payload choice and the
  URL, path and header strings of the PUT, share POST and DELETE requests.
*/
module Requests {
  import opened Wrappers
  import opened Uri
  import opened Config
  import opened Seqs

  /** The name the uploader registers under, and the type tag of the items it owns. */
  const UPLOADER_NAME := "nextcloud"

  const OCTET_STREAM := "application/octet-stream"

  /** NextCloud's share type for a public link. */
  const PUBLIC_LINK_SHARE := 3

  const MIME_TYPES: map<string, string> := map[
    ".gif" := "image/gif",
    ".ico" := "image/x-icon",
    ".jpeg" := "image/jpeg",
    ".jpg" := "image/jpeg",
    ".pdf" := "application/pdf",
    ".png" := "image/png",
    ".svg" := "image/svg+xml",
    ".tiff" := "image/tiff"
  ]

  /** One item of the host's list. An absent field is None; `tag` is the item's `type`
      (an absent type is a tag other than UPLOADER_NAME). */
  datatype Image = Image(
    fileName: string,
    extname: string,
    buffer: Option<seq<Byte>>,
    base64Image: Option<string>,
    imgUrl: Option<string>,
    tag: string)

  /** What a request sends: the buffer's bytes, the bytes of Buffer.from(text, 'base64'),
      nothing at all, or the JSON body of a share request. */
  datatype Body = NoBody | Bytes(data: seq<Byte>) | Base64Decoded(text: string) | ShareBody(path: string, shareType: int)

  /** Uploads ask for TLS 1.2 at least; deletes switch certificate checking off. */
  datatype Tls = MinTls12 | NoCertificateCheck

  /** A request the plugin issues, named by what it is for: the PUT of an item, the share
      POST of an item, or deleteFile's DELETE of a file name. */
  datatype Request = PutItem(img: Image) | PostShare(img: Image) | DeleteItem(fileName: string)

  datatype Verb = PUT | POST | DELETE

  /** A request as it goes on the wire. The PUT and the POST carry no credentials of their
      own (they use the library-wide default); the DELETE carries the auth record. */
  datatype Wire = Wire(verb: Verb, url: string, headers: map<string, string>, body: Body, tls: Tls, auth: Option<Auth>)

  /** getPubHeaders: the same three headers whatever it is given. */
  function PubHeaders(): (h: map<string, string>)
    ensures h.Keys == {"OCS-APIREQUEST", "User-Agent", "Accept"}
    ensures h["OCS-APIREQUEST"] == "true" && h["User-Agent"] == "PicGo" && h["Accept"] == "application/json"
  {
    map["OCS-APIREQUEST" := "true", "User-Agent" := "PicGo", "Accept" := "application/json"]
  }

  /** The table lists eight extensions, each with a type that is neither empty (so the
      fallback of `||` never replaces it) nor the default. */
  lemma MimeTable()
    ensures MIME_TYPES.Keys == {".gif", ".ico", ".jpeg", ".jpg", ".pdf", ".png", ".svg", ".tiff"}
    ensures forall ext :: ext in MIME_TYPES ==> MIME_TYPES[ext] != "" && MIME_TYPES[ext] != OCTET_STREAM
    ensures MIME_TYPES[".jpeg"] == MIME_TYPES[".jpg"] == "image/jpeg" && MIME_TYPES[".pdf"] == "application/pdf"
  {
  }

  /** The table's type for a listed extension, octet-stream for any other: the lookup gives
      undefined for an unlisted extension, and `||` replaces it, as it would an empty type. */
  function ContentType(ext: string): (t: string)
    ensures ext in MIME_TYPES ==> t == MIME_TYPES[ext]
    ensures ext !in MIME_TYPES ==> t == OCTET_STREAM
  {
    var listed := if ext in MIME_TYPES then MIME_TYPES[ext] else "";
    if listed != "" then listed else OCTET_STREAM
  }

  /** The default is given exactly to the extensions the table does not list; the lookup
      is by exact string, so ".PNG" is not ".png". */
  lemma ContentTypeDefaultIffUnlisted(ext: string)
    ensures ContentType(ext) == OCTET_STREAM <==> ext !in MIME_TYPES
    ensures ContentType(".PNG") == OCTET_STREAM && ContentType(".png") == "image/png"
  {
    MimeTable();
  }

  /** The bytes an item uploads: a present buffer wins; otherwise a non-empty base64Image
      is decoded; otherwise nothing is sent. */
  function Payload(img: Image): (b: Body)
    ensures img.buffer.Some? ==> b == Bytes(img.buffer.value)
    ensures img.buffer.None? && img.base64Image.Some? && img.base64Image.value != "" ==> b == Base64Decoded(img.base64Image.value)
    ensures img.buffer.None? && (img.base64Image.None? || img.base64Image.value == "") ==> b == NoBody
  {
    if img.buffer.Some? then Bytes(img.buffer.value)
    else if img.base64Image.Some? && img.base64Image.value != "" then Base64Decoded(img.base64Image.value)
    else NoBody
  }

  /** buffer takes precedence: whatever base64Image holds does not change the payload of
      an item that has a buffer. */
  lemma PayloadPrefersBuffer(img: Image, other: Option<string>)
    requires img.buffer.Some?
    ensures Payload(img.(base64Image := other)) == Payload(img)
  {
  }

  /** The URL of the PUT for one file: baseUrl, a slash, then the encoded name, which
      decodes back to the name. */
  function PutUrl(cfg: UserConfig, fileName: string): (u: string)
    ensures cfg.derived.baseUrl + "/" <= u
    ensures PercentDecode(u[|cfg.derived.baseUrl| + 1..]) == Some(fileName)
  {
    DecodeEncode(fileName);
    var u := cfg.derived.baseUrl + "/" + EncodeUri(fileName);
    assert u[|cfg.derived.baseUrl| + 1..] == EncodeUri(fileName);
    u
  }

  /** The URL deleteFile removes: built the same way, so it is the URL the PUT wrote. */
  function DeleteUrl(cfg: UserConfig, fileName: string): (u: string)
    ensures u == PutUrl(cfg, fileName)
  {
    cfg.derived.baseUrl + "/" + EncodeUri(fileName)
  }

  /** The path the share request names: not encoded. Encoding it would give the encoded
      directory, the separator and the encoded name. */
  function SharePath(path: string, fileName: string): (p: string)
    ensures path + "/" <= p && |p| == |path| + 1 + |fileName|
    ensures EncodeUri(p) == EncodeUri(path) + "/" + EncodeUri(fileName)
  {
    EncodeUriKeeps('/');
    EncodeUriAppend(path, "/");
    EncodeUriAppend(path + "/", fileName);
    path + "/" + fileName
  }

  /** The Content-Disposition value: the encoded file name between the quotes of
      `attachment; filename="..."`. */
  function ContentDisposition(fileName: string): (v: string)
    ensures var pre := "attachment; filename=\"";
      && |v| == |pre| + |EncodeUri(fileName)| + 1
      && pre <= v && v[|v| - 1] == '"' && v[|pre|..|v| - 1] == EncodeUri(fileName)
  {
    "attachment; filename=\"" + EncodeUri(fileName) + "\""
  }

  /** The headers of the PUT: the common ones, then Content-Disposition and Content-Type. */
  function PutHeaders(fileName: string, contentType: string): (h: map<string, string>)
    ensures h.Keys == PubHeaders().Keys + {"Content-Disposition", "Content-Type"}
    ensures forall k :: k in PubHeaders() ==> h[k] == PubHeaders()[k]
    ensures h["Content-Disposition"] == ContentDisposition(fileName) && h["Content-Type"] == contentType
  {
    PubHeaders()["Content-Disposition" := ContentDisposition(fileName)]["Content-Type" := contentType]
  }

  /** The wire form of each request, under the resolved configuration. Every request carries
      the three common headers. Only the PUT adds headers of its own and sends the item's
      bytes; only the POST sends a share body and goes to shareUrl; only the DELETE carries the
      auth record and switches certificate checking off, while the PUT and POST ask for TLS
      1.2 at least. */
  function ToWire(cfg: UserConfig, r: Request): (w: Wire)
    ensures (w.verb == PUT <==> r.PutItem?) && (w.verb == POST <==> r.PostShare?) && (w.verb == DELETE <==> r.DeleteItem?)
    ensures forall k :: k in PubHeaders() ==> k in w.headers && w.headers[k] == PubHeaders()[k]
    ensures w.headers == PubHeaders() <==> !r.PutItem?
    ensures (w.body.Bytes? || w.body.Base64Decoded?) ==> r.PutItem?
    ensures w.body.ShareBody? <==> r.PostShare?
    ensures w.auth.Some? <==> r.DeleteItem?
    ensures w.tls == MinTls12 <==> !r.DeleteItem?
    ensures r.PutItem? ==>
      && w.url == PutUrl(cfg, r.img.fileName) && w.body == Payload(r.img)
      && w.headers == PutHeaders(r.img.fileName, ContentType(r.img.extname))
    ensures r.PostShare? ==>
      && w.url == cfg.derived.shareUrl
      && w.body == ShareBody(SharePath(cfg.settings.path, r.img.fileName), PUBLIC_LINK_SHARE)
    ensures r.DeleteItem? ==> w.url == DeleteUrl(cfg, r.fileName) && w.body == NoBody && w.auth == Some(cfg.derived.auth)
  {
    match r
    case PutItem(img) =>
      var h := PutHeaders(img.fileName, ContentType(img.extname));
      assert "Content-Type" in h && "Content-Type" !in PubHeaders();
      Wire(PUT, PutUrl(cfg, img.fileName), h, Payload(img), MinTls12, None)
    case PostShare(img) =>
      Wire(POST, cfg.derived.shareUrl, PubHeaders(), ShareBody(SharePath(cfg.settings.path, img.fileName), PUBLIC_LINK_SHARE),
           MinTls12, None)
    case DeleteItem(fileName) =>
      Wire(DELETE, DeleteUrl(cfg, fileName), PubHeaders(), NoBody, NoCertificateCheck, Some(cfg.derived.auth))
  }

  /** As strings, the file the PUT writes is the one the share request names and the one a
      delete removes: both URLs are the WebDAV root followed by the encoded share path, and
      decoding that part gives the share path back. (How a server splits the URL is another
      matter: see DelimiterReachesUrl.) */
  lemma FileUrlIsSharePath(s: Settings, fileName: string)
    ensures var cfg := UserConfig(s, Derive(s));
      var put := PutUrl(cfg, fileName);
      && put == DeleteUrl(cfg, fileName)
      && put == DavRoot(s) + EncodeUri(SharePath(s.path, fileName))
      && PercentDecode(put[|DavRoot(s)|..]) == Some(SharePath(s.path, fileName))
  {
    var cfg := UserConfig(s, Derive(s));
    var ep, ef := EncodeUri(s.path), EncodeUri(fileName);
    assert EncodeUri(SharePath(s.path, fileName)) == ep + "/" + ef;
    AppendAssoc(DavRoot(s), ep, "/");
    AppendAssoc(DavRoot(s), ep + "/", ef);
    assert PutUrl(cfg, fileName) == DavRoot(s) + (ep + "/" + ef);
    DropAppend(DavRoot(s), ep + "/" + ef);
    DecodeEncode(SharePath(s.path, fileName));
  }

  /** encodeURI leaves '#' and '?' alone, so a file name holding one puts it into the PUT
      and DELETE URLs as it is, where an HTTP client reads it as the start of a fragment or
      a query: the server then sees a shorter path than the one the share request names. */
  lemma DelimiterReachesUrl(cfg: UserConfig, a: string, c: char, b: string)
    requires c == '#' || c == '?'
    ensures PutUrl(cfg, a + [c] + b) == cfg.derived.baseUrl + "/" + EncodeUri(a) + [c] + EncodeUri(b)
  {
    EncodeUriKeeps(c);
    EncodeUriAppend(a + [c], b);
    EncodeUriAppend(a, [c]);
  }

  /** The file name in Content-Disposition is a well-formed quoted string: every character
      of it is in encodeURI's unescaped set or a '%', so it holds no quotation mark, no
      backslash, no space and no control character; and it decodes back to the file name. */
  lemma ContentDispositionQuoted(fileName: string)
    ensures var v := ContentDisposition(fileName);
      var pre := "attachment; filename=\"";
      && pre <= v && v[|v| - 1] == '"'
      && (forall i :: |pre| <= i < |v| - 1 ==> (Unescaped(v[i]) || v[i] == '%') && v[i] != '"')
      && PercentDecode(v[|pre|..|v| - 1]) == Some(fileName)
  {
    var v := ContentDisposition(fileName);
    var pre := "attachment; filename=\"";
    var e := EncodeUri(fileName);
    EncodeUriSafe(fileName);
    assert v[|pre|..|v| - 1] == e;
    forall i | |pre| <= i < |v| - 1
      ensures (Unescaped(v[i]) || v[i] == '%') && v[i] != '"'
    {
      assert v[i] == e[i - |pre|];
    }
    DecodeEncode(fileName);
  }
}
