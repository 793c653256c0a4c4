/**
  Configuration resolution (getUserConfig): the stored picBed.nextcloud settings and the
  URLs and credentials derived from them.
*/
module Config {
  import opened Wrappers
  import opened Uri

  /** The message getUserConfig throws when nothing is stored ("configure the nextcloud
      upload settings first"). */
  const NOT_CONFIGURED := "请先配置nextcloud上传参数"

  const DAV_FILES := "/remote.php/dav/files/"
  const SHARE_API := "/ocs/v2.php/apps/files_sharing/api/v1/shares"

  /** The stored settings: the server, the remote directory, the account and the public
      base URL for direct links. */
  datatype Settings = Settings(host: string, path: string, user: string, cdn: string, password: string)

  /** The credential record getAuth builds. */
  datatype Auth = Auth(user: string, password: string, sendImmediately: bool)

  /** The fields getUserConfig writes into the configuration object. */
  datatype Derived = Derived(directUrl: string, baseUrl: string, shareUrl: string, auth: Auth)

  /** What getUserConfig returns: the stored settings with the derived fields beside them. */
  datatype UserConfig = UserConfig(settings: Settings, derived: Derived)

  function GetAuth(user: string, password: string): (a: Auth)
    ensures a.user == user && a.password == password && a.sendImmediately
  {
    Auth(user, password, true)
  }

  /** The fields getUserConfig derives: directUrl ends with a slash, baseUrl lies under the
      user's WebDAV root, shareUrl is the host's share API, and the auth record carries the
      stored credentials. */
  function Derive(s: Settings): (d: Derived)
    ensures |d.directUrl| > 0 && d.directUrl[|d.directUrl| - 1] == '/'
    ensures DavRoot(s) <= d.baseUrl
    ensures d.shareUrl == s.host + SHARE_API
    ensures d.auth == GetAuth(s.user, s.password)
  {
    Derived(
      s.cdn + "/" + s.user + EncodeUri(s.path) + "/",
      s.host + DAV_FILES + s.user + "/" + EncodeUri(s.path),
      s.host + SHARE_API,
      GetAuth(s.user, s.password))
  }

  /** The WebDAV collection of the user's files, before the configured path. */
  function DavRoot(s: Settings): string {
    s.host + DAV_FILES + s.user + "/"
  }

  /** getUserConfig on values: it fails when nothing is stored, and otherwise returns the
      settings with their derived fields. */
  function Resolve(stored: Option<Settings>): (r: Result<UserConfig>)
    ensures stored.None? <==> r.Failure?
    ensures r.Failure? ==> r.error == NOT_CONFIGURED
    ensures r.Success? ==> r.value.settings == stored.value && r.value.derived == Derive(stored.value)
    ensures r.Success? ==> r.value.derived.auth == Auth(stored.value.user, stored.value.password, true)
  {
    match stored
    case None => Failure(NOT_CONFIGURED)
    case Some(s) => Success(UserConfig(s, Derive(s)))
  }

  /** The derived URLs are the configured templates, with the path percent-encoded exactly
      once: decoding the path part of directUrl and of baseUrl gives the stored path back. */
  lemma DerivedUrls(s: Settings)
    ensures Derive(s).directUrl == s.cdn + "/" + s.user + EncodeUri(s.path) + "/"
    ensures Derive(s).baseUrl == DavRoot(s) + EncodeUri(s.path)
    ensures Derive(s).shareUrl == s.host + SHARE_API
    ensures PercentDecode(Derive(s).baseUrl[|DavRoot(s)|..]) == Some(s.path)
    ensures var pre := s.cdn + "/" + s.user;
      var u := Derive(s).directUrl;
      && pre <= u && u[|u| - 1] == '/'
      && PercentDecode(u[|pre|..|u| - 1]) == Some(s.path)
  {
    var d := Derive(s);
    assert d.baseUrl[|DavRoot(s)|..] == EncodeUri(s.path);
    var pre := s.cdn + "/" + s.user;
    assert d.directUrl[|pre|..|d.directUrl| - 1] == EncodeUri(s.path);
    DecodeEncode(s.path);
  }

  /** shareUrl depends on the host alone, not on the user or the path. */
  lemma ShareUrlDependsOnHostOnly(s: Settings, t: Settings)
    requires s.host == t.host
    ensures Derive(s).shareUrl == Derive(t).shareUrl
  {
  }

  /** The object the host returns for picBed.nextcloud; getUserConfig writes the derived
      fields into it. */
  class ConfigObject {
    const settings: Settings
    var derived: Option<Derived>

    constructor (settings: Settings)
      ensures this.settings == settings && derived == None
    {
      this.settings := settings;
      derived := None;
    }
  }

  function StoredSettings(stored: ConfigObject?): Option<Settings> {
    if stored == null then None else Some(stored.settings)
  }

  /** getUserConfig: throws when nothing is stored; otherwise writes the derived fields into
      the stored object and returns it. */
  method GetUserConfig(stored: ConfigObject?) returns (r: Result<UserConfig>)
    modifies stored
    ensures r == Resolve(StoredSettings(stored))
    ensures stored != null ==> stored.derived == Some(Derive(stored.settings))
  {
    if stored == null {
      return Failure(NOT_CONFIGURED);
    }
    stored.derived := Some(Derive(stored.settings));
    r := Success(UserConfig(stored.settings, stored.derived.value));
  }
}
