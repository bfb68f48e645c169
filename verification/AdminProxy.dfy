/** The admin panel's proxy: unknown locales are replaced by the default one, locale roots go to the login page. */
module AdminProxy {
  import opened Prelude
  import opened LocaleRouting

  predicate IsLower(c: char) { 'a' <= c <= 'z' }

  predicate IsUpper(c: char) { 'A' <= c <= 'Z' }

  /** `[a-z]{2,3}-[A-Z]{2}` */
  predicate LocaleLike(s: string) {
    (|s| == 5 || |s| == 6)
    && (forall i :: 0 <= i < |s| - 3 ==> IsLower(s[i]))
    && s[|s| - 3] == '-' && IsUpper(s[|s| - 2]) && IsUpper(s[|s| - 1])
  }

  /** A character that `.` does not match. */
  predicate IsTerminator(c: char) {
    c == '\n' || c == '\r' || c as int == 0x2028 || c as int == 0x2029
  }

  datatype Match = Match(locale: string, remainder: string)

  /** `^/([a-z]{2,3}-[A-Z]{2})(/.*)?$`, a missing second group being the empty string. */
  function MatchLocaleLike(path: string): Option<Match> {
    if path == "" || path[0] != '/' then None
    else
      var locale, remainder := Head(path), path[1 + SlashAt(path[1..])..];
      if LocaleLike(locale) && (forall i :: 0 <= i < |remainder| ==> !IsTerminator(remainder[i]))
      then Some(Match(locale, remainder))
      else None
  }

  /** `^/([a-z]{2,3}-[A-Z]{2})/?$` */
  function MatchRoot(path: string): Option<string> {
    if path == "" || path[0] != '/' then None
    else
      var locale, remainder := Head(path), path[1 + SlashAt(path[1..])..];
      if LocaleLike(locale) && (remainder == "" || remainder == "/") then Some(locale) else None
  }

  const LOGIN := "/login"

  /** The proxy's redirect, or None when it hands the request to the locale middleware. */
  function AdminHop(c: Locales, u: Url): Option<Url> {
    var like, root := MatchLocaleLike(u.pathname), MatchRoot(u.pathname);
    if like.Some? && like.value.locale !in c.listed then
      var remainder := like.value.remainder;
      Some(u.(pathname := "/" + c.default_ + if remainder == "" then LOGIN else remainder))
    else if root.Some? && root.value in c.listed then
      Some(u.(pathname := "/" + root.value + LOGIN, search := ""))
    else None
  }

  method Proxy(c: Locales, url: NextUrl) returns (answer: Option<NextUrl>)
    ensures answer.None? <==> AdminHop(c, url.Value()).None?
    ensures answer.Some? ==> fresh(answer.value) && answer.value.Value() == AdminHop(c, url.Value()).value
  {
    var like := MatchLocaleLike(url.pathname);
    if like.Some? && like.value.locale !in c.listed {
      var normalizedUrl := url.Clone();
      var remainder := like.value.remainder;
      normalizedUrl.pathname := "/" + c.default_ + if remainder == "" then LOGIN else remainder;
      return Some(normalizedUrl);
    }
    var root := MatchRoot(url.pathname);
    if root.Some? && root.value in c.listed {
      var loginUrl := url.Clone();
      loginUrl.pathname := "/" + root.value + LOGIN;
      loginUrl.search := "";
      return Some(loginUrl);
    }
    return None;
  }

  // ------------------------------------------------------------------------------------------
  // The two patterns, read the other way round.

  lemma PathSplits(locale: string, rest: string)
    requires '/' !in locale && (rest == "" || rest[0] == '/')
    ensures var path := "/" + locale + rest;
            path[0] == '/' && Head(path) == locale && path[1 + SlashAt(path[1..])..] == rest
  {
    var path := "/" + locale + rest;
    assert path[1..] == locale + rest;
    SlashAfter(locale, rest);
    assert (locale + rest)[..|locale|] == locale;
  }

  predicate NoTerminators(s: string) {
    '\n' !in s && '\r' !in s && '\U{2028}' !in s && '\U{2029}' !in s
  }

  lemma NoTerminatorsIff(s: string)
    ensures NoTerminators(s) <==> forall i :: 0 <= i < |s| ==> !IsTerminator(s[i])
  {
    if NoTerminators(s) {
      forall i | 0 <= i < |s| ensures !IsTerminator(s[i]) { assert s[i] in s; }
    }
  }

  /** A locale-like name has no slash. */
  lemma LikeHasNoSlash(s: string)
    requires LocaleLike(s)
    ensures '/' !in s
  {
  }

  /** A language of two or three lower-case letters, a dash, and a region of two capitals. */
  ghost predicate NamesLocale(s: string, language: string, region: string) {
    && s == language + "-" + region && 2 <= |language| <= 3 && |region| == 2
    && (forall i :: 0 <= i < |language| ==> 'a' <= language[i] <= 'z')
    && (forall i :: 0 <= i < |region| ==> 'A' <= region[i] <= 'Z')
  }

  lemma LocaleLikeIff(s: string)
    ensures LocaleLike(s) <==> exists language, region :: NamesLocale(s, language, region)
  {
    if LocaleLike(s) {
      var language, region := s[..|s| - 3], s[|s| - 2..];
      assert s == language + "-" + region;
      assert region[0] == s[|s| - 2] && region[1] == s[|s| - 1];
      assert NamesLocale(s, language, region);
    }
    if language, region :| NamesLocale(s, language, region) {
      assert forall i :: 0 <= i < |language| ==> s[i] == language[i];
      assert s[|s| - 3] == '-' && s[|s| - 2] == region[0] && s[|s| - 1] == region[1];
    }
  }

  /** The first pattern matches exactly the paths made of a locale-like name and a remainder. */
  lemma MatchLocaleLikeIff(path: string, locale: string, remainder: string)
    ensures MatchLocaleLike(path) == Some(Match(locale, remainder)) <==>
            && path == "/" + locale + remainder && LocaleLike(locale)
            && (remainder == "" || remainder[0] == '/') && NoTerminators(remainder)
  {
    NoTerminatorsIff(remainder);
    if path == "/" + locale + remainder && LocaleLike(locale) && (remainder == "" || remainder[0] == '/') {
      LikeHasNoSlash(locale);
      PathSplits(locale, remainder);
    }
    if path != "" && path[0] == '/' {
      assert path == "/" + Head(path) + path[1 + SlashAt(path[1..])..];
    }
  }

  /** The second pattern matches exactly the roots of locale-like names, with or without a final slash. */
  lemma MatchRootIff(path: string, locale: string)
    ensures MatchRoot(path) == Some(locale) <==>
            LocaleLike(locale) && (path == "/" + locale || path == "/" + locale + "/")
  {
    if LocaleLike(locale) {
      LikeHasNoSlash(locale);
      PathSplits(locale, "");
      PathSplits(locale, "/");
      assert "/" + locale + "" == "/" + locale;
    }
    if path != "" && path[0] == '/' {
      assert path == "/" + Head(path) + path[1 + SlashAt(path[1..])..];
    }
  }

  lemma LoginIsPlain()
    ensures LOGIN != "" && LOGIN != "/" && LOGIN[0] == '/' && NoTerminators(LOGIN)
  {
  }

  // ------------------------------------------------------------------------------------------
  // Chains of redirects of the proxy alone.

  /** The request after n redirects, or None if the chain has stopped before. */
  function After(c: Locales, u: Url, n: nat): Option<Url> {
    if n == 0 then Some(u)
    else
      var v := After(c, u, n - 1);
      if v.Some? then AdminHop(c, v.value) else None
  }

  /** A path below a listed locale, or below a segment that is no locale, is not redirected unless it is a root. */
  lemma Rests(c: Locales, u: Url, name: string, rest: string)
    requires '/' !in name && (rest == "" || rest[0] == '/') && u.pathname == "/" + name + rest
    ensures LocaleLike(name) && name in c.listed ==>
              AdminHop(c, u) ==
              if rest == "" || rest == "/" then Some(u.(pathname := "/" + name + LOGIN, search := "")) else None
    ensures !LocaleLike(name) ==> AdminHop(c, u).None?
  {
    PathSplits(name, rest);
  }

  /** With a listed default, or one that does not look like a locale, no request is redirected more than twice. */
  lemma AtMostTwoHops(c: Locales, u: Url)
    requires '/' !in c.default_ && (c.default_ in c.listed || !LocaleLike(c.default_))
    ensures After(c, u, 3).None?
  {
    LoginIsPlain();
    var like, root := MatchLocaleLike(u.pathname), MatchRoot(u.pathname);
    if like.Some? && like.value.locale !in c.listed {
      var rest := if like.value.remainder == "" then LOGIN else like.value.remainder;
      MatchLocaleLikeIff(u.pathname, like.value.locale, like.value.remainder);
      var v := AdminHop(c, u).value;
      Rests(c, v, c.default_, rest);
      if AdminHop(c, v).Some? {
        Rests(c, AdminHop(c, v).value, c.default_, LOGIN);
      }
      ThreeHops(c, u);
    } else if root.Some? && root.value in c.listed {
      MatchRootIff(u.pathname, root.value);
      LikeHasNoSlash(root.value);
      Rests(c, AdminHop(c, u).value, root.value, LOGIN);
      ThreeHops(c, u);
    } else {
      ThreeHops(c, u);
    }
  }

  /**
   Where a request under an unlisted locale ends: at the same remainder under the default locale, a bare locale
   at its login page. With a final slash that takes two hops and loses the query, without it one hop keeps it.
   */
  lemma UnlistedEnds(c: Locales, u: Url, locale: string, remainder: string)
    requires c.default_ in c.listed && LocaleLike(c.default_)
    requires MatchLocaleLike(u.pathname) == Some(Match(locale, remainder)) && locale !in c.listed
    ensures remainder == "/" ==>
              After(c, u, 2) == Some(u.(pathname := "/" + c.default_ + "/login", search := "")) && After(c, u, 3).None?
    ensures remainder != "/" ==>
              && After(c, u, 1) ==
                 Some(u.(pathname := "/" + c.default_ + if remainder == "" then "/login" else remainder))
              && After(c, u, 2).None?
  {
    LoginIsPlain();
    LikeHasNoSlash(c.default_);
    ThreeHops(c, u);
    MatchLocaleLikeIff(u.pathname, locale, remainder);
    var rest := if remainder == "" then LOGIN else remainder;
    var v := AdminHop(c, u).value;
    Rests(c, v, c.default_, rest);
    if AdminHop(c, v).Some? {
      Rests(c, AdminHop(c, v).value, c.default_, LOGIN);
    }
  }

  /** The root of a listed locale leads to its login page without the query; any other path below it stays. */
  lemma ListedEnds(c: Locales, u: Url, locale: string, remainder: string)
    requires LocaleLike(locale) && locale in c.listed && (remainder == "" || remainder[0] == '/')
    requires u.pathname == "/" + locale + remainder
    ensures remainder == "" || remainder == "/" ==>
              After(c, u, 1) == Some(u.(pathname := "/" + locale + "/login", search := "")) && After(c, u, 2).None?
    ensures remainder != "" && remainder != "/" ==> After(c, u, 1).None?
  {
    LoginIsPlain();
    LikeHasNoSlash(locale);
    ThreeHops(c, u);
    Rests(c, u, locale, remainder);
    if AdminHop(c, u).Some? {
      Rests(c, AdminHop(c, u).value, locale, LOGIN);
    }
  }

  lemma ThreeHops(c: Locales, u: Url)
    ensures After(c, u, 1) == AdminHop(c, u)
    ensures After(c, u, 2) == if AdminHop(c, u).Some? then AdminHop(c, AdminHop(c, u).value) else None
    ensures After(c, u, 3) == if After(c, u, 2).Some? then AdminHop(c, After(c, u, 2).value) else None
  {
    assert After(c, u, 0) == Some(u);
  }

  /** With a default that looks like a locale and is not listed, an unlisted locale is redirected for ever. */
  lemma {:induction false} UnlistedDefaultLoops(c: Locales, u: Url, n: nat)
    requires LocaleLike(c.default_) && c.default_ !in c.listed
    requires MatchLocaleLike(u.pathname).Some? && MatchLocaleLike(u.pathname).value.locale !in c.listed
    ensures After(c, u, n).Some?
    ensures var like := MatchLocaleLike(After(c, u, n).value.pathname);
            like.Some? && like.value.locale !in c.listed
    decreases n
  {
    if n > 0 {
      UnlistedDefaultLoops(c, u, n - 1);
      LoginIsPlain();
      var v := After(c, u, n - 1).value;
      var like := MatchLocaleLike(v.pathname).value;
      MatchLocaleLikeIff(v.pathname, like.locale, like.remainder);
      var rest := if like.remainder == "" then LOGIN else like.remainder;
      MatchLocaleLikeIff("/" + c.default_ + rest, c.default_, rest);
    }
  }

  ghost predicate Stops(c: Locales, u: Url) {
    exists n: nat :: After(c, u, n).None?
  }

  /** A chain stops exactly when the default is usable or the request does not lead with an unlisted locale. */
  lemma StopsIff(c: Locales, u: Url)
    requires '/' !in c.default_
    ensures Stops(c, u) <==>
            || c.default_ in c.listed || !LocaleLike(c.default_)
            || MatchLocaleLike(u.pathname).None? || MatchLocaleLike(u.pathname).value.locale in c.listed
  {
    if c.default_ in c.listed || !LocaleLike(c.default_) {
      AtMostTwoHops(c, u);
    } else if MatchLocaleLike(u.pathname).Some? && MatchLocaleLike(u.pathname).value.locale !in c.listed {
      forall n: nat ensures After(c, u, n).Some? { UnlistedDefaultLoops(c, u, n); }
    } else {
      LoginIsPlain();
      ThreeHops(c, u);
      var root := MatchRoot(u.pathname);
      if root.Some? && root.value in c.listed {
        MatchRootIff(u.pathname, root.value);
        LikeHasNoSlash(root.value);
        Rests(c, AdminHop(c, u).value, root.value, LOGIN);
      }
      assert After(c, u, 2).None?;
    }
  }

  /** Every request comes to rest if and only if the default locale is listed or does not look like a locale. */
  lemma AllStopIff(c: Locales)
    requires '/' !in c.default_
    ensures (forall u :: Stops(c, u)) <==> c.default_ in c.listed || !LocaleLike(c.default_)
  {
    if c.default_ in c.listed || !LocaleLike(c.default_) {
      forall u ensures Stops(c, u) { StopsIff(c, u); }
    } else {
      var u := Url("https:", "", "", "/" + c.default_ + "", "");
      MatchLocaleLikeIff(u.pathname, c.default_, "");
      StopsIff(c, u);
    }
  }

  // ------------------------------------------------------------------------------------------
  // Together with the locale middleware.

  ghost predicate Hop(c: Locales, u: Url, v: Url) {
    if AdminHop(c, u).Some? then v == AdminHop(c, u).value else LocaleHop(c, u, v)
  }

  ghost predicate Chain(c: Locales, urls: seq<Url>) {
    (forall i :: 0 <= i < |urls| ==> urls[i].pathname != "" && urls[i].pathname[0] == '/')
    && forall i :: 0 <= i < |urls| - 1 ==> Hop(c, urls[i], urls[i + 1])
  }

  /** A path of the listed locale and a remainder that is no root rests with both. */
  lemma RestsWithBoth(c: Locales, u: Url, name: string, rest: string)
    requires name in c.listed && '/' !in name && rest != "" && rest != "/" && rest[0] == '/'
    requires u.pathname == "/" + name + rest
    ensures AdminHop(c, u).None? && Prefixed(c, u.pathname)
  {
    Rests(c, u, name, rest);
    PathSplits(name, rest);
  }

  /** From a path that leads with a listed locale, one hop at most. */
  lemma OneHopFromListed(c: Locales, u: Url, v: Url, w: Url, name: string, rest: string)
    requires name in c.listed && '/' !in name && (rest == "" || rest[0] == '/')
    requires u.pathname == "/" + name + rest
    requires Hop(c, u, v)
    ensures !Hop(c, v, w)
  {
    LoginIsPlain();
    Rests(c, u, name, rest);
    PathSplits(name, rest);
    assert Prefixed(c, u.pathname);
    RestsWithBoth(c, v, name, LOGIN);
  }

  /** With a listed default, redirects of proxy and middleware together stop after two hops. */
  lemma AtMostTwoHopsTogether(c: Locales, urls: seq<Url>)
    requires NamesAreSegments(c) && c.default_ in c.listed
    requires Chain(c, urls)
    ensures |urls| <= 3
  {
    if |urls| > 3 {
      var u, v := urls[0], urls[1];
      assert Hop(c, urls[0], urls[0 + 1]) && Hop(c, urls[1], urls[1 + 1]) && Hop(c, urls[2], urls[2 + 1]);
      LoginIsPlain();
      var like := MatchLocaleLike(u.pathname);
      if like.Some? && like.value.locale !in c.listed {
        MatchLocaleLikeIff(u.pathname, like.value.locale, like.value.remainder);
        var rest := if like.value.remainder == "" then LOGIN else like.value.remainder;
        OneHopFromListed(c, v, urls[2], urls[3], c.default_, rest);
      } else if AdminHop(c, u).Some? {
        var name := MatchRoot(u.pathname).value;
        MatchRootIff(u.pathname, name);
        LikeHasNoSlash(name);
        OneHopFromListed(c, v, urls[2], urls[3], name, LOGIN);
      } else {
        var i :| 0 <= i < |c.listed| && v == u.(pathname := WithPrefix(c.listed[i], u.pathname));
        OneHopFromListed(c, v, urls[2], urls[3], c.listed[i], if u.pathname == "/" then "" else u.pathname);
      }
      assert false;
    }
  }

  const SHIPPED := Locales(["ru-RU", "en-EN"], "ru-RU")

  /** The shipped configuration meets what the bounds above ask for. */
  lemma ShippedIsSound()
    ensures NamesAreSegments(SHIPPED) && SHIPPED.default_ in SHIPPED.listed
  {
    assert SHIPPED.listed[0] == SHIPPED.default_;
  }
}
