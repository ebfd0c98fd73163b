/**
 * Where location reports come from (`HaystackApp/Model/APISource.swift`): the Mail plug-in or a
 * reports server with an optional URL and authorization header, stored as a '|'-separated string.
 * `URL(string:)` is the parameter `isUrl` (whether the text parses as a URL), and a parsed URL's
 * `absoluteString` is the text it was parsed from.
 */
module APISourceModel {
  import opened Common
  import Strings

  datatype ServerOptions = ServerOptions(url: Option<string>, authorizationHeader: Option<string>)
  {
    /** `isProtected`: an authorization header is set. */
    predicate IsProtected()
    {
      authorizationHeader.Some?
    }
  }

  datatype APISource = MailPlugin | ReportsServer(options: ServerOptions)

  const SEPARATOR: char := '|'
  const MAIL_PLUGIN_IDENTIFIER: string := "mailPlugin"
  const REPORTS_SERVER_IDENTIFIER: string := "reportsServer"

  /** `URL(string:)`: the text when it parses as a URL, nothing otherwise. */
  function ToUrl(s: string, isUrl: string -> bool): Option<string>
  {
    if isUrl(s) then Some(s) else None
  }

  /**
   * `init?(rawValue:)`: the components between separators (empty ones dropped) select the case by
   * the first; a reports server takes an optional URL and an optional header from the next two, and
   * any more components, an unknown first component or no component at all give nothing.
   */
  function Parse(rawValue: string, isUrl: string -> bool): (r: Option<APISource>)
    ensures r == Some(MailPlugin) <==>
      |Strings.Split(rawValue, SEPARATOR)| > 0 && Strings.Split(rawValue, SEPARATOR)[0] == MAIL_PLUGIN_IDENTIFIER
    ensures r.Some? && r.value.ReportsServer? <==>
      1 <= |Strings.Split(rawValue, SEPARATOR)| <= 3 && Strings.Split(rawValue, SEPARATOR)[0] == REPORTS_SERVER_IDENTIFIER
    ensures r.None? <==>
      (|Strings.Split(rawValue, SEPARATOR)| == 0 ||
       (Strings.Split(rawValue, SEPARATOR)[0] != MAIL_PLUGIN_IDENTIFIER &&
        (Strings.Split(rawValue, SEPARATOR)[0] != REPORTS_SERVER_IDENTIFIER || |Strings.Split(rawValue, SEPARATOR)| > 3)))
  {
    var components := Strings.Split(rawValue, SEPARATOR);
    if |components| == 0 then None
    else if components[0] == MAIL_PLUGIN_IDENTIFIER then Some(MailPlugin)
    else if components[0] == REPORTS_SERVER_IDENTIFIER && |components| == 1 then
      Some(ReportsServer(ServerOptions(None, None)))
    else if components[0] == REPORTS_SERVER_IDENTIFIER && |components| == 2 then
      Some(ReportsServer(ServerOptions(ToUrl(components[1], isUrl), None)))
    else if components[0] == REPORTS_SERVER_IDENTIFIER && |components| == 3 then
      Some(ReportsServer(ServerOptions(ToUrl(components[1], isUrl), Some(components[2]))))
    else None
  }

  /** The components `rawValue` joins: the tag, then the URL and the header, the header only after a URL. */
  function Components(source: APISource): (c: seq<string>)
    ensures |c| >= 1
  {
    match source
    case MailPlugin => [MAIL_PLUGIN_IDENTIFIER]
    case ReportsServer(options) =>
      match options.url
      case None => [REPORTS_SERVER_IDENTIFIER]
      case Some(url) =>
        [REPORTS_SERVER_IDENTIFIER, url] + (if options.authorizationHeader.Some? then [options.authorizationHeader.value] else [])
  }

  /** `rawValue`. */
  function RawValue(source: APISource): string
  {
    Strings.Join(Components(source), SEPARATOR)
  }

  /** `==`: only the case is compared; the server options are not. */
  predicate Equal(a: APISource, b: APISource)
  {
    a.MailPlugin? == b.MailPlugin?
  }

  /** `hash(into:)`: what is fed to the hasher, one marker per case. */
  function HashMarker(source: APISource): nat
  {
    if source.MailPlugin? then 0 else 1
  }

  /** Equality is an equivalence, any two reports servers are equal, and equal sources hash alike. */
  lemma EqualityAndHash(a: APISource, b: APISource, c: APISource)
    ensures Equal(a, a)
    ensures Equal(a, b) ==> Equal(b, a)
    ensures Equal(a, b) && Equal(b, c) ==> Equal(a, c)
    ensures a.ReportsServer? && b.ReportsServer? ==> Equal(a, b)
    ensures Equal(a, b) <==> HashMarker(a) == HashMarker(b)
  {
  }

  /** A field of the stored text: non-empty and free of the separator. */
  predicate Storable(s: string)
  {
    s != [] && SEPARATOR !in s
  }

  /** The Mail plug-in is stored as its tag and read back from it. */
  lemma MailPluginRoundTrip(isUrl: string -> bool)
    ensures RawValue(MailPlugin) == MAIL_PLUGIN_IDENTIFIER
    ensures Parse(RawValue(MailPlugin), isUrl) == Some(MailPlugin)
  {
    Strings.SplitJoin([MAIL_PLUGIN_IDENTIFIER], SEPARATOR);
  }

  /**
   * Whatever follows a leading "mailPlugin" component is ignored.
   */
  lemma MailPluginIgnoresRest(rest: seq<string>, isUrl: string -> bool)
    requires Strings.SplitSafe(rest, SEPARATOR)
    ensures Parse(Strings.Join([MAIL_PLUGIN_IDENTIFIER] + rest, SEPARATOR), isUrl) == Some(MailPlugin)
  {
    Strings.SplitJoin([MAIL_PLUGIN_IDENTIFIER] + rest, SEPARATOR);
  }

  /**
   * Server options survive being stored and read back when the URL parses and both fields are
   * storable; without a URL the header is not stored, so it is lost.
   */
  lemma ReportsServerRoundTrip(options: ServerOptions, isUrl: string -> bool)
    requires options.url.Some? ==> Storable(options.url.value) && isUrl(options.url.value)
    requires options.url.Some? && options.authorizationHeader.Some? ==> Storable(options.authorizationHeader.value)
    ensures options.url.Some? ==> Parse(RawValue(ReportsServer(options)), isUrl) == Some(ReportsServer(options))
    ensures options.url.None? ==>
      Parse(RawValue(ReportsServer(options)), isUrl) == Some(ReportsServer(ServerOptions(None, None)))
  {
    var c := Components(ReportsServer(options));
    assert Strings.SplitSafe(c, SEPARATOR);
    Strings.SplitJoin(c, SEPARATOR);
  }

  /** An empty header is dropped with the empty component it leaves, so it reads back as no header. */
  lemma EmptyHeaderIsLost(url: string, isUrl: string -> bool)
    requires Storable(url) && isUrl(url)
    ensures RawValue(ReportsServer(ServerOptions(Some(url), Some("")))) ==
      Strings.Join([REPORTS_SERVER_IDENTIFIER, url], SEPARATOR) + [SEPARATOR]
    ensures Parse(RawValue(ReportsServer(ServerOptions(Some(url), Some("")))), isUrl) ==
      Some(ReportsServer(ServerOptions(Some(url), None)))
  {
    var joined := Strings.Join([REPORTS_SERVER_IDENTIFIER, url], SEPARATOR);
    var c := [REPORTS_SERVER_IDENTIFIER, url, ""];
    assert Components(ReportsServer(ServerOptions(Some(url), Some("")))) == c;
    assert Strings.Join(c[2..], SEPARATOR) == "";
    assert Strings.Join(c[1..], SEPARATOR) == url + [SEPARATOR];
    assert Strings.Join([REPORTS_SERVER_IDENTIFIER, url][1..], SEPARATOR) == url;
    assert RawValue(ReportsServer(ServerOptions(Some(url), Some("")))) == joined + [SEPARATOR];
    SplitTrailingSeparator(joined);
    Strings.SplitJoin([REPORTS_SERVER_IDENTIFIER, url], SEPARATOR);
  }

  /** A separator at the end of the text adds no component. */
  lemma {:induction false} SplitTrailingSeparator(s: string)
    ensures Strings.Split(s + [SEPARATOR], SEPARATOR) == Strings.Split(s, SEPARATOR)
    decreases |s|
  {
    if s == [] {
      assert Strings.Split([SEPARATOR], SEPARATOR) == Strings.Split([], SEPARATOR);
    } else if s[0] == SEPARATOR {
      assert (s + [SEPARATOR])[1..] == s[1..] + [SEPARATOR];
      SplitTrailingSeparator(s[1..]);
    } else {
      var k := Strings.FirstIndexOf(s, SEPARATOR);
      var k' := Strings.FirstIndexOf(s + [SEPARATOR], SEPARATOR);
      FirstIndexOfAppend(s);
      assert k' == k;
      assert (s + [SEPARATOR])[..k] == s[..k];
      if k < |s| {
        assert (s + [SEPARATOR])[k..] == s[k..] + [SEPARATOR];
        SplitTrailingSeparator(s[k..]);
      } else {
        assert (s + [SEPARATOR])[k..] == [SEPARATOR];
        assert s[k..] == [];
        assert Strings.Split([SEPARATOR], SEPARATOR) == [];
      }
    }
  }

  /** Appending a separator does not move the first separator, when there is one; otherwise it is found at the end. */
  lemma {:induction false} FirstIndexOfAppend(s: string)
    ensures Strings.FirstIndexOf(s + [SEPARATOR], SEPARATOR) == Strings.FirstIndexOf(s, SEPARATOR)
    decreases |s|
  {
    if s != [] && s[0] != SEPARATOR {
      assert (s + [SEPARATOR])[1..] == s[1..] + [SEPARATOR];
      FirstIndexOfAppend(s[1..]);
    }
  }

  /** Empty fields vanish when read: "reportsServer||x" reads x as the URL. */
  lemma EmptyFieldsDropped(url: string, isUrl: string -> bool)
    requires Storable(url)
    ensures Parse(REPORTS_SERVER_IDENTIFIER + [SEPARATOR, SEPARATOR] + url, isUrl) ==
      Some(ReportsServer(ServerOptions(ToUrl(url, isUrl), None)))
  {
    var s := REPORTS_SERVER_IDENTIFIER + [SEPARATOR, SEPARATOR] + url;
    var joined := Strings.Join([REPORTS_SERVER_IDENTIFIER, url], SEPARATOR);
    Strings.SplitJoin([REPORTS_SERVER_IDENTIFIER, url], SEPARATOR);
    Strings.FirstIndexOfPrefix(REPORTS_SERVER_IDENTIFIER, [SEPARATOR, SEPARATOR] + url, SEPARATOR);
    Strings.FirstIndexOfPrefix(REPORTS_SERVER_IDENTIFIER, [SEPARATOR] + url, SEPARATOR);
    assert s == REPORTS_SERVER_IDENTIFIER + ([SEPARATOR, SEPARATOR] + url);
    assert joined == REPORTS_SERVER_IDENTIFIER + ([SEPARATOR] + url);
    var n := |REPORTS_SERVER_IDENTIFIER|;
    assert s[..n] == joined[..n];
    assert s[n..] == [SEPARATOR] + joined[n..];
    Strings.SplitOfLeadingSep(joined[n..], SEPARATOR);
  }
}
