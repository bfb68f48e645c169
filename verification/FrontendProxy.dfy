/** The public frontend's proxy: host redirects by route segment, ahead of the locale middleware. */
module FrontendProxy {
  import opened Prelude
  import opened LocaleRouting

  const ADMIN_PRIMARY_HOST := "admin.cyber-vpn.net"
  const ADMIN_REDIRECT_ONLY_HOST := "admin.cyber-vpn.org"
  const PUBLIC_PRIMARY_HOST := "cyber-vpn.net"
  const PUBLIC_WWW_HOST := "www.cyber-vpn.net"
  const CABINET_PRIMARY_HOST := "my.cyber-vpn.net"

  predicate IsCabinet(s: string) {
    s in {"analytics", "dashboard", "monitoring", "partner", "payment-history", "referral", "servers", "settings",
          "subscriptions", "users", "wallet"}
  }

  predicate IsAuth(s: string) {
    s in {"forgot-password", "login", "magic-link", "oauth", "register", "reset-password", "telegram-link", "verify"}
  }

  predicate IsPublic(s: string) {
    s in {"acceptable-use", "api", "audits", "compare", "contact", "cookie-policy", "delete-account", "devices",
          "docs", "download", "features", "guides", "help", "network", "pricing", "privacy", "privacy-policy",
          "refund-policy", "security", "status", "telegram-widget", "terms", "trust"}
  }

  predicate IsPublicOnly(s: string) {
    IsPublic(s) && !IsAuth(s) && !IsCabinet(s)
  }

  function LowerChar(c: char): char {
    if 'A' <= c <= 'Z' then c + 32 as char else c
  }

  function Lower(s: string): string {
    seq(|s|, i requires 0 <= i < |s| => LowerChar(s[i]))
  }

  /** `getRouteSegment`: the first segment that is not a leading locale, or the empty string. */
  function RouteSegment(c: Locales, path: string): string {
    var s := Segments(path);
    if s != [] && s[0] in c.listed then (if |s| > 1 then s[1] else "")
    else if s != [] then s[0] else ""
  }

  /** The proxy's redirect, or None when it hands the request to the locale middleware. */
  function HostHop(c: Locales, u: Url): Option<Url> {
    var host, segment := Lower(u.hostname), RouteSegment(c, u.pathname);
    if host == ADMIN_REDIRECT_ONLY_HOST then
      Some(u.(protocol := "https:", hostname := ADMIN_PRIMARY_HOST))
    else if (host == PUBLIC_PRIMARY_HOST || host == PUBLIC_WWW_HOST) && IsCabinet(segment) then
      Some(u.(protocol := "https:", hostname := CABINET_PRIMARY_HOST))
    else if host == CABINET_PRIMARY_HOST && segment == "" then
      Some(u.(protocol := "https:", pathname := "/" + c.default_ + "/dashboard"))
    else if host == CABINET_PRIMARY_HOST && IsPublicOnly(segment) then
      Some(u.(protocol := "https:", hostname := PUBLIC_PRIMARY_HOST))
    else None
  }

  method Proxy(c: Locales, url: NextUrl) returns (answer: Option<NextUrl>)
    ensures answer.None? <==> HostHop(c, url.Value()).None?
    ensures answer.Some? ==> fresh(answer.value) && answer.value.Value() == HostHop(c, url.Value()).value
  {
    var hostname := Lower(url.hostname);
    if hostname == ADMIN_REDIRECT_ONLY_HOST {
      var redirectUrl := url.Clone();
      redirectUrl.protocol := "https:";
      redirectUrl.hostname := ADMIN_PRIMARY_HOST;
      return Some(redirectUrl);
    }
    var routeSegment := RouteSegment(c, url.pathname);
    if (hostname == PUBLIC_PRIMARY_HOST || hostname == PUBLIC_WWW_HOST) && IsCabinet(routeSegment) {
      var redirectUrl := url.Clone();
      redirectUrl.protocol := "https:";
      redirectUrl.hostname := CABINET_PRIMARY_HOST;
      return Some(redirectUrl);
    }
    if hostname == CABINET_PRIMARY_HOST {
      if routeSegment == "" {
        var redirectUrl := url.Clone();
        redirectUrl.protocol := "https:";
        redirectUrl.pathname := "/" + c.default_ + "/dashboard";
        return Some(redirectUrl);
      }
      if IsPublic(routeSegment) && !IsAuth(routeSegment) && !IsCabinet(routeSegment) {
        var redirectUrl := url.Clone();
        redirectUrl.protocol := "https:";
        redirectUrl.hostname := PUBLIC_PRIMARY_HOST;
        return Some(redirectUrl);
      }
    }
    return None;
  }

  // ------------------------------------------------------------------------------------------
  // What the proxy looks at.

  lemma CabinetRoutes(s: string)
    ensures IsCabinet(s) <==>
            || s == "analytics" || s == "dashboard" || s == "monitoring" || s == "partner" || s == "payment-history"
            || s == "referral" || s == "servers" || s == "settings" || s == "subscriptions" || s == "users"
            || s == "wallet"
  {
  }

  lemma PublicRoutes(s: string)
    ensures IsPublic(s) <==>
            || s == "acceptable-use" || s == "api" || s == "audits" || s == "compare" || s == "contact"
            || s == "cookie-policy" || s == "delete-account" || s == "devices" || s == "docs" || s == "download"
            || s == "features" || s == "guides" || s == "help" || s == "network" || s == "pricing" || s == "privacy"
            || s == "privacy-policy" || s == "refund-policy" || s == "security" || s == "status"
            || s == "telegram-widget" || s == "terms" || s == "trust"
  {
  }

  /** No route is in two of the lists. */
  lemma RoutesApart(s: string)
    ensures !(IsCabinet(s) && IsAuth(s)) && !(IsPublic(s) && (IsAuth(s) || IsCabinet(s)))
    ensures IsPublicOnly(s) <==> IsPublic(s)
  {
  }

  /** Two characters that are the same, or one letter in two cases. */
  predicate SameLetter(a: char, b: char) {
    a == b || ('A' <= a <= 'Z' && b as int == a as int + 32) || ('A' <= b <= 'Z' && a as int == b as int + 32)
  }

  /** Hosts are the same to the proxy exactly when they are the same but for case. */
  lemma LowerIff(s: string, t: string)
    ensures Lower(s) == Lower(t) <==> |s| == |t| && forall i :: 0 <= i < |s| ==> SameLetter(s[i], t[i])
  {
    if Lower(s) == Lower(t) {
      forall i | 0 <= i < |s| ensures SameLetter(s[i], t[i]) {
        assert Lower(s)[i] == LowerChar(s[i]) && Lower(t)[i] == LowerChar(t[i]);
      }
    }
    if |s| == |t| && forall i :: 0 <= i < |s| ==> SameLetter(s[i], t[i]) {
      forall i | 0 <= i < |s| ensures Lower(s)[i] == Lower(t)[i] { }
    }
  }

  /** The route is the first segment, or the one after a listed locale. */
  lemma RouteOfPath(c: Locales, name: string, rest: string)
    requires name != "" && '/' !in name && (rest == "" || rest[0] == '/')
    ensures name !in c.listed ==> RouteSegment(c, "/" + name + rest) == name
    ensures name in c.listed && (rest == "" || rest == "/") ==> RouteSegment(c, "/" + name + rest) == ""
  {
    SegmentsAfterPrefix(name, rest);
    if rest == "" || rest == "/" {
      RootHasNoSegments();
    }
  }

  lemma RootHasNoSegments()
    ensures Segments("") == [] && Segments("/") == []
  {
    SegmentsAfterSlash("");
    assert "/" + "" == "/";
  }

  /** Empty segments do not count. */
  lemma RouteBehindSlash(c: Locales, path: string)
    ensures RouteSegment(c, "/" + path) == RouteSegment(c, path) && RouteSegment(c, "/") == ""
  {
    SegmentsAfterSlash(path);
    RootHasNoSegments();
  }

  lemma RouteBehindLocale(c: Locales, locale: string, name: string, rest: string)
    requires locale in c.listed && locale != "" && '/' !in locale
    requires name != "" && '/' !in name && (rest == "" || rest[0] == '/')
    ensures RouteSegment(c, "/" + locale + "/" + name + rest) == name
  {
    SegmentsAfterPrefix(name, rest);
    SegmentsAfterPrefix(locale, "/" + name + rest);
    assert "/" + locale + ("/" + name + rest) == "/" + locale + "/" + name + rest;
  }

  // ------------------------------------------------------------------------------------------
  // Hosts are compared in lower case; the proxy's own host names are in lower case and differ.

  lemma OwnHostsLower()
    ensures Lower(ADMIN_PRIMARY_HOST) == ADMIN_PRIMARY_HOST && Lower(PUBLIC_PRIMARY_HOST) == PUBLIC_PRIMARY_HOST
    ensures Lower(CABINET_PRIMARY_HOST) == CABINET_PRIMARY_HOST
  {
  }

  lemma DashboardIsCabinet()
    ensures IsCabinet("dashboard") && "dashboard" != "" && '/' !in "dashboard"
  {
  }

  /** A path of a listed locale and one more segment has that as its route segment. */
  lemma RouteAfterLocale(c: Locales, locale: string, tail: string)
    requires locale in c.listed && locale != "" && '/' !in locale
    requires |tail| > 1 && tail[0] == '/' && '/' !in tail[1..]
    ensures RouteSegment(c, "/" + locale + tail) == tail[1..]
  {
    SegmentsAfterPrefix(locale, tail);
    SegmentsAfterPrefix(tail[1..], "");
    assert "/" + tail[1..] + "" == tail;
    assert Segments("") == [];
  }

  lemma DashboardPath()
    ensures var tail := "/dashboard"; |tail| > 1 && tail[0] == '/' && tail[1..] == "dashboard"
  {
  }

  /** The path of the cabinet's dashboard has the dashboard as its route segment, if the default locale is listed. */
  lemma DashboardSegment(c: Locales)
    requires NamesAreSegments(c) && c.default_ in c.listed
    ensures RouteSegment(c, "/" + c.default_ + "/dashboard") == "dashboard"
  {
    DashboardIsCabinet();
    DashboardPath();
    RouteAfterLocale(c, c.default_, "/dashboard");
  }

  /** Whatever the host and path, a redirect of the proxy leads to a URL it does not redirect again. */
  lemma OneHostHop(c: Locales, u: Url)
    requires NamesAreSegments(c) && c.default_ in c.listed && HostHop(c, u).Some?
    ensures HostHop(c, HostHop(c, u).value).None?
  {
    OwnHostsLower();
    DashboardIsCabinet();
    DashboardSegment(c);
  }

  // ------------------------------------------------------------------------------------------
  // Together with the locale middleware.

  /** The first segment is a listed locale. */
  predicate LeadsWithLocale(c: Locales, path: string) {
    Segments(path) != [] && Segments(path)[0] in c.listed
  }

  /**
   Putting a listed locale in front keeps the route segment if and only if the path did not lead with a
   locale already, or led with the same segment twice.
   */
  lemma SegmentKeptIff(c: Locales, locale: string, path: string)
    requires locale in c.listed && locale != "" && '/' !in locale && path != "" && path[0] == '/'
    ensures RouteSegment(c, WithPrefix(locale, path)) == RouteSegment(c, path) <==>
            !LeadsWithLocale(c, path) || (|Segments(path)| > 1 && Segments(path)[0] == Segments(path)[1])
  {
    PrefixAdds(c, locale, path);
  }

  /** One redirect, by the proxy or by the middleware behind it. */
  ghost predicate Hop(c: Locales, u: Url, v: Url) {
    if HostHop(c, u).Some? then v == HostHop(c, u).value else LocaleHop(c, u, v)
  }

  ghost predicate Chain(c: Locales, urls: seq<Url>) {
    (forall i :: 0 <= i < |urls| ==> urls[i].pathname != "" && urls[i].pathname[0] == '/')
    && forall i :: 0 <= i < |urls| - 1 ==> Hop(c, urls[i], urls[i + 1])
  }

  predicate LocalesAreNoRoutes(c: Locales) {
    forall i :: 0 <= i < |c.listed| ==> !IsCabinet(c.listed[i]) && !IsPublic(c.listed[i])
  }

  /** A URL that differs from a settled one in its path is settled if its segment is the same or no route at all. */
  lemma SettledBySegment(c: Locales, u: Url, v: Url)
    requires HostHop(c, u).None? && u.hostname == v.hostname
    requires var segment := RouteSegment(c, v.pathname);
             segment == RouteSegment(c, u.pathname) || (segment != "" && !IsCabinet(segment) && !IsPublic(segment))
    ensures HostHop(c, v).None?
  {
  }

  /** After the middleware has put a locale in front, nothing redirects any more. */
  lemma SettledAfterLocale(c: Locales, u: Url, v: Url)
    requires NamesAreSegments(c) && LocalesAreNoRoutes(c) && u.pathname != "" && u.pathname[0] == '/'
    requires HostHop(c, u).None? && LocaleHop(c, u, v)
    ensures HostHop(c, v).None? && Prefixed(c, v.pathname)
  {
    var i :| 0 <= i < |c.listed| && v == u.(pathname := WithPrefix(c.listed[i], u.pathname));
    PrefixAdds(c, c.listed[i], u.pathname);
    SegmentKeptIff(c, c.listed[i], u.pathname);
    if LeadsWithLocale(c, u.pathname) {
      var first := Segments(u.pathname)[0];
      assert RouteSegment(c, v.pathname) == first;
      assert !IsCabinet(first) && !IsPublic(first) by {
        var j :| 0 <= j < |c.listed| && c.listed[j] == first;
        assert !IsCabinet(c.listed[j]) && !IsPublic(c.listed[j]);
      }
    }
    SettledBySegment(c, u, v);
  }

  /** No chain of redirects is longer than two hops, whichever locales the middleware picks. */
  lemma AtMostTwoHops(c: Locales, urls: seq<Url>)
    requires NamesAreSegments(c) && c.default_ in c.listed && LocalesAreNoRoutes(c)
    requires Chain(c, urls)
    ensures |urls| <= 3
  {
    if |urls| > 3 {
      var a, b, d := urls[0], urls[1], urls[2];
      assert Hop(c, urls[0], urls[0 + 1]) && Hop(c, urls[1], urls[1 + 1]) && Hop(c, urls[2], urls[2 + 1]);
      if HostHop(c, a).Some? {
        OneHostHop(c, a);
        SettledAfterLocale(c, b, d);
      } else {
        SettledAfterLocale(c, a, b);
      }
      assert false;
    }
  }

  /** Two hops are needed: the mirror of the admin host, without a locale in the path. */
  lemma TwoHopsOccur(c: Locales, port: string, search: string)
    requires c.listed != [] && "" !in c.listed
    ensures var u := Url("http:", ADMIN_REDIRECT_ONLY_HOST, port, "/", search);
            var v := u.(protocol := "https:", hostname := ADMIN_PRIMARY_HOST);
            Chain(c, [u, v, v.(pathname := WithPrefix(c.listed[0], "/"))])
  {
    var u := Url("http:", ADMIN_REDIRECT_ONLY_HOST, port, "/", search);
    var v := u.(protocol := "https:", hostname := ADMIN_PRIMARY_HOST);
    MirrorHostLower();
    AdminHostIsPlain(c, v);
    assert "/"[1..] == "" && Head("/") == "";
    assert LocaleHop(c, v, v.(pathname := WithPrefix(c.listed[0], "/")));
  }

  lemma MirrorHostLower()
    ensures Lower(ADMIN_REDIRECT_ONLY_HOST) == ADMIN_REDIRECT_ONLY_HOST
  {
  }

  lemma AdminHostIsPlain(c: Locales, u: Url)
    requires u.hostname == ADMIN_PRIMARY_HOST
    ensures HostHop(c, u).None?
  {
    OwnHostsLower();
    var h := ADMIN_PRIMARY_HOST;
    assert h != ADMIN_REDIRECT_ONLY_HOST && h != PUBLIC_PRIMARY_HOST && h != PUBLIC_WWW_HOST
           && h != CABINET_PRIMARY_HOST;
  }

  // ------------------------------------------------------------------------------------------
  // Where redirects lead.

  /** The host a route belongs to, for a visitor who asked for it at the given host. */
  function Home(host: string, segment: string): string {
    if host == "admin.cyber-vpn.org" then "admin.cyber-vpn.net"
    else if (host == "cyber-vpn.net" || host == "www.cyber-vpn.net") && IsCabinet(segment) then "my.cyber-vpn.net"
    else if host == "my.cyber-vpn.net" && IsPublicOnly(segment) then "cyber-vpn.net"
    else host
  }

  /** The proxy redirects exactly what is not at home and the cabinet's root. */
  lemma RedirectedIff(c: Locales, u: Url)
    ensures var host, segment := Lower(u.hostname), RouteSegment(c, u.pathname);
            HostHop(c, u).Some? <==> Home(host, segment) != host || (host == "my.cyber-vpn.net" && segment == "")
  {
    HostsDiffer();
    DashboardIsCabinet();
  }

  /** The path does not start with empty segments and a locale after them. */
  predicate PlainPath(c: Locales, path: string) {
    Prefixed(c, path) || !LeadsWithLocale(c, path)
  }

  /**
   The route a visitor ends at. The cabinet's root is its dashboard; a path with empty segments in front of its
   locale gets a second locale in front, after which its own stands where the route should.
   */
  function FinalRoute(c: Locales, host: string, path: string): string {
    var segment := RouteSegment(c, path);
    if host == CABINET_PRIMARY_HOST && segment == "" then "dashboard"
    else if PlainPath(c, path) then segment
    else Segments(path)[0]
  }

  datatype Goal = Goal(host: string, route: string, port: string, search: string)

  /** Where a visitor who asks for u is to end: the route's home, the route, port and query as they are. */
  function GoalOf(c: Locales, u: Url): Goal {
    var host := Lower(u.hostname);
    Goal(Home(host, RouteSegment(c, u.pathname)), FinalRoute(c, host, u.pathname), u.port, u.search)
  }

  /** A home is its own home, and the dashboard's home is the cabinet. */
  lemma HomeOfHome(host: string, segment: string)
    ensures Home(Home(host, segment), segment) == Home(host, segment)
    ensures Home(CABINET_PRIMARY_HOST, "") == CABINET_PRIMARY_HOST == Home(CABINET_PRIMARY_HOST, "dashboard")
    ensures segment == "" && Home(host, segment) == CABINET_PRIMARY_HOST ==> host == CABINET_PRIMARY_HOST
  {
    HostsDiffer();
    DashboardIsCabinet();
  }

  lemma HostsDiffer()
    ensures ADMIN_PRIMARY_HOST != ADMIN_REDIRECT_ONLY_HOST && ADMIN_PRIMARY_HOST != CABINET_PRIMARY_HOST
    ensures CABINET_PRIMARY_HOST != PUBLIC_PRIMARY_HOST && CABINET_PRIMARY_HOST != PUBLIC_WWW_HOST
    ensures ADMIN_REDIRECT_ONLY_HOST != CABINET_PRIMARY_HOST && ADMIN_REDIRECT_ONLY_HOST != PUBLIC_PRIMARY_HOST
  {
  }

  lemma DashboardPlain(c: Locales)
    requires NamesAreSegments(c) && c.default_ in c.listed
    ensures PlainPath(c, "/" + c.default_ + "/dashboard")
  {
    var path := "/" + c.default_ + "/dashboard";
    assert path[1..] == c.default_ + "/dashboard";
    SlashAfter(c.default_, "/dashboard");
    assert (c.default_ + "/dashboard")[..|c.default_|] == c.default_;
    assert Head(path) == c.default_;
  }

  /** A redirect of the proxy keeps the goal, whatever the path. */
  lemma HostHopKeepsGoal(c: Locales, u: Url)
    requires NamesAreSegments(c) && c.default_ in c.listed && HostHop(c, u).Some?
    ensures GoalOf(c, HostHop(c, u).value) == GoalOf(c, u)
  {
    var host, segment := Lower(u.hostname), RouteSegment(c, u.pathname);
    OwnHostsLower();
    HomeOfHome(host, segment);
    HostsDiffer();
    DashboardIsCabinet();
    if host == CABINET_PRIMARY_HOST && segment == "" {
      DashboardSegment(c);
      DashboardPlain(c);
    }
  }

  /** A URL the proxy leaves alone is at home. */
  lemma SettledAtHome(c: Locales, u: Url, segment: string)
    requires HostHop(c, u).None? && segment == RouteSegment(c, u.pathname)
    ensures Home(Lower(u.hostname), segment) == Lower(u.hostname)
  {
  }

  /** What a listed locale in front does to the route segment. */
  lemma SegmentAfterLocale(c: Locales, u: Url, v: Url)
    requires NamesAreSegments(c) && u.pathname != "" && u.pathname[0] == '/' && LocaleHop(c, u, v)
    ensures PlainPath(c, u.pathname) <==> !LeadsWithLocale(c, u.pathname)
    ensures PlainPath(c, v.pathname) && v.hostname == u.hostname && v.port == u.port && v.search == u.search
    ensures RouteSegment(c, v.pathname) ==
            if LeadsWithLocale(c, u.pathname) then Segments(u.pathname)[0] else RouteSegment(c, u.pathname)
  {
    var i :| 0 <= i < |c.listed| && v == u.(pathname := WithPrefix(c.listed[i], u.pathname));
    PrefixAdds(c, c.listed[i], u.pathname);
  }

  /** Where the proxy does nothing, the final route is the segment, or the locale that will stand in its place. */
  lemma SettledRoute(c: Locales, u: Url)
    requires HostHop(c, u).None?
    ensures FinalRoute(c, Lower(u.hostname), u.pathname) ==
            if PlainPath(c, u.pathname) then RouteSegment(c, u.pathname) else Segments(u.pathname)[0]
  {
  }

  /** A redirect of the locale middleware keeps the goal. */
  lemma LocaleHopKeepsGoal(c: Locales, u: Url, v: Url)
    requires NamesAreSegments(c) && LocalesAreNoRoutes(c) && u.pathname != "" && u.pathname[0] == '/'
    requires HostHop(c, u).None? && LocaleHop(c, u, v)
    ensures GoalOf(c, v) == GoalOf(c, u)
  {
    SegmentAfterLocale(c, u, v);
    SettledAfterLocale(c, u, v);
    SettledRoute(c, u);
    SettledRoute(c, v);
    SettledAtHome(c, u, RouteSegment(c, u.pathname));
    SettledAtHome(c, v, RouteSegment(c, v.pathname));
  }

  lemma {:induction false} ChainKeepsGoal(c: Locales, urls: seq<Url>, n: nat)
    requires NamesAreSegments(c) && c.default_ in c.listed && LocalesAreNoRoutes(c)
    requires Chain(c, urls) && n < |urls|
    ensures GoalOf(c, urls[n]) == GoalOf(c, urls[0])
    decreases n
  {
    if n > 0 {
      ChainKeepsGoal(c, urls, n - 1);
      var u, v := urls[n - 1], urls[n - 1 + 1];
      assert Hop(c, u, v);
      if HostHop(c, u).Some? {
        HostHopKeepsGoal(c, u);
      } else {
        LocaleHopKeepsGoal(c, u, v);
      }
    }
  }

  /** Only the first hop can be the proxy's, and it sets the protocol. */
  lemma ChainProtocol(c: Locales, urls: seq<Url>)
    requires NamesAreSegments(c) && c.default_ in c.listed && LocalesAreNoRoutes(c)
    requires urls != [] && Chain(c, urls)
    ensures urls[|urls| - 1].protocol == if |urls| > 1 && HostHop(c, urls[0]).Some? then "https:" else urls[0].protocol
  {
    AtMostTwoHops(c, urls);
    if |urls| > 1 {
      assert Hop(c, urls[0], urls[0 + 1]);
      if HostHop(c, urls[0]).Some? { OneHostHop(c, urls[0]); } else { SettledAfterLocale(c, urls[0], urls[1]); }
      if |urls| > 2 { assert Hop(c, urls[1], urls[1 + 1]); }
    }
  }

  /**
   From every host and path: a chain that has come to rest ends at the home of the route first asked for, with
   the port and query first given and the route as `FinalRoute` has it. The protocol is https if the first request
   was not at home or was for the cabinet's root, and else the one first given.
   */
  lemma EndsAtHome(c: Locales, urls: seq<Url>)
    requires NamesAreSegments(c) && c.default_ in c.listed && LocalesAreNoRoutes(c)
    requires urls != [] && Chain(c, urls)
    requires HostHop(c, urls[|urls| - 1]).None? && PlainPath(c, urls[|urls| - 1].pathname)
    ensures var last := urls[|urls| - 1];
            GoalOf(c, urls[0]) == Goal(Lower(last.hostname), RouteSegment(c, last.pathname), last.port, last.search)
    ensures var host, segment := Lower(urls[0].hostname), RouteSegment(c, urls[0].pathname);
            urls[|urls| - 1].protocol ==
              if Home(host, segment) != host || (host == "my.cyber-vpn.net" && segment == "") then "https:"
              else urls[0].protocol
  {
    var last := urls[|urls| - 1];
    RedirectedIff(c, urls[0]);
    ChainProtocol(c, urls);
    ChainKeepsGoal(c, urls, |urls| - 1);
    SettledAtHome(c, last, RouteSegment(c, last.pathname));
  }

  /**
   The route first asked for is the one shown, or the cabinet's dashboard for its root, unless the path is not
   plain.
   */
  lemma RouteShownIff(c: Locales, u: Url)
    ensures GoalOf(c, u).route == RouteSegment(c, u.pathname) <==>
            var host, segments := Lower(u.hostname), Segments(u.pathname);
            && !(host == CABINET_PRIMARY_HOST && RouteSegment(c, u.pathname) == "")
            && (PlainPath(c, u.pathname) || (|segments| > 1 && segments[0] == segments[1]))
  {
    DashboardIsCabinet();
  }

  // ------------------------------------------------------------------------------------------
  // The shipped configuration.

  const HIGH_PRIORITY := ["en-EN", "ru-RU", "zh-CN", "hi-IN", "id-ID", "vi-VN", "th-TH", "ja-JP", "ko-KR"]
  const MEDIUM_PRIORITY := ["ar-SA", "fa-IR", "tr-TR", "ur-PK"]
  const LOW_PRIORITY := ["bn-BD", "ms-MY", "es-ES", "kk-KZ", "be-BY", "my-MM", "uz-UZ"]
  const REQUIRED_FALLBACK := ["ha-NG", "yo-NG", "ku-IQ", "am-ET", "fr-FR", "tk-TM"]
  const ADDITIONAL := ["zh-Hant", "he-IL", "de-DE", "pt-PT", "it-IT", "nl-NL", "pl-PL", "fil-PH", "uk-UA", "cs-CZ",
                       "ro-RO", "hu-HU", "sv-SE"]

  const SHIPPED := Locales(HIGH_PRIORITY + MEDIUM_PRIORITY + LOW_PRIORITY + REQUIRED_FALLBACK + ADDITIONAL, "en-EN")

  /** A name without a slash that has a dash at the place where only locale names have one. */
  predicate LooksLikeLocale(s: string) {
    |s| > 3 && (s[2] == '-' || s[3] == '-') && '/' !in s
  }

  predicate AllLookLikeLocales(group: seq<string>) {
    forall i :: 0 <= i < |group| ==> LooksLikeLocale(group[i])
  }

  lemma RoutesDoNotLookLikeLocales(s: string)
    requires IsCabinet(s) || IsPublic(s)
    ensures !LooksLikeLocale(s)
  {
  }

  lemma FirstGroupLooks()
    ensures AllLookLikeLocales(HIGH_PRIORITY) && HIGH_PRIORITY[0] == SHIPPED.default_
  {
  }

  lemma MiddleGroupsLook()
    ensures AllLookLikeLocales(MEDIUM_PRIORITY) && AllLookLikeLocales(LOW_PRIORITY)
    ensures AllLookLikeLocales(REQUIRED_FALLBACK)
  {
  }

  lemma LastGroupLooks()
    ensures AllLookLikeLocales(ADDITIONAL)
  {
  }

  lemma GroupsTogether(a: seq<string>, b: seq<string>)
    requires AllLookLikeLocales(a) && AllLookLikeLocales(b)
    ensures AllLookLikeLocales(a + b)
  {
  }

  lemma LookingIsEnough(c: Locales)
    requires AllLookLikeLocales(c.listed) && LooksLikeLocale(c.default_)
    ensures NamesAreSegments(c) && LocalesAreNoRoutes(c)
  {
    forall i | 0 <= i < |c.listed| ensures !IsCabinet(c.listed[i]) && !IsPublic(c.listed[i]) {
      if IsCabinet(c.listed[i]) || IsPublic(c.listed[i]) {
        RoutesDoNotLookLikeLocales(c.listed[i]);
      }
    }
  }

  lemma InFirst(a: seq<string>, b: seq<string>)
    requires a != []
    ensures a[0] in a + b
  {
    assert (a + b)[0] == a[0];
  }

  /** The shipped locales meet what the bounds above ask for. */
  lemma ShippedIsSound()
    ensures NamesAreSegments(SHIPPED) && SHIPPED.default_ in SHIPPED.listed && LocalesAreNoRoutes(SHIPPED)
  {
    FirstGroupLooks();
    MiddleGroupsLook();
    LastGroupLooks();
    GroupsTogether(HIGH_PRIORITY, MEDIUM_PRIORITY);
    GroupsTogether(HIGH_PRIORITY + MEDIUM_PRIORITY, LOW_PRIORITY);
    GroupsTogether(HIGH_PRIORITY + MEDIUM_PRIORITY + LOW_PRIORITY, REQUIRED_FALLBACK);
    GroupsTogether(HIGH_PRIORITY + MEDIUM_PRIORITY + LOW_PRIORITY + REQUIRED_FALLBACK, ADDITIONAL);
    InFirst(HIGH_PRIORITY, MEDIUM_PRIORITY);
    assert SHIPPED.default_ in SHIPPED.listed;
    LookingIsEnough(SHIPPED);
  }
}
