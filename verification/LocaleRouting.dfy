/**
 What the two self-contained proxies share: the request URL, its path segments, and the locale middleware
 behind them.
 */
module LocaleRouting {
  import opened Prelude

  datatype Url = Url(protocol: string, hostname: string, port: string, pathname: string, search: string)

  /** The mutable URL object of a request. */
  class NextUrl {
    var protocol: string
    var hostname: string
    var port: string
    var pathname: string
    var search: string

    constructor (u: Url)
      ensures Value() == u
    {
      protocol, hostname, port, pathname, search := u.protocol, u.hostname, u.port, u.pathname, u.search;
    }

    ghost function Value(): Url
      reads this
    {
      Url(protocol, hostname, port, pathname, search)
    }

    method Clone() returns (copy: NextUrl)
      ensures fresh(copy) && copy.Value() == Value()
    {
      copy := new NextUrl(Url(protocol, hostname, port, pathname, search));
    }
  }

  datatype Locales = Locales(listed: seq<string>, default_: string)

  /** Locale names are path segments. */
  predicate NamesAreSegments(c: Locales) {
    (forall i :: 0 <= i < |c.listed| ==> c.listed[i] != "" && '/' !in c.listed[i])
    && c.default_ != "" && '/' !in c.default_
  }

  // ------------------------------------------------------------------------------------------
  // Path segments.

  /** The position of the first slash, or the length. */
  function SlashAt(s: string): (n: nat)
    ensures n <= |s| && '/' !in s[..n] && (n < |s| ==> s[n] == '/')
  {
    if s == "" || s[0] == '/' then 0
    else
      var n := SlashAt(s[1..]);
      assert s[..1 + n] == [s[0]] + s[1..][..n];
      1 + n
  }

  /** `pathname.split('/').filter(Boolean)`. */
  function Segments(path: string): (r: seq<string>)
    ensures forall i :: 0 <= i < |r| ==> r[i] != "" && '/' !in r[i]
    decreases |path|
  {
    var n := SlashAt(path);
    var first := if n == 0 then [] else [path[..n]];
    if n == |path| then first else first + Segments(path[n + 1..])
  }

  lemma {:induction false} SlashAfter(name: string, rest: string)
    requires '/' !in name && (rest == "" || rest[0] == '/')
    ensures SlashAt(name + rest) == |name|
    decreases |name|
  {
    if name == "" {
      assert name + rest == rest;
    } else {
      assert (name + rest)[1..] == name[1..] + rest;
      assert (name + rest)[0] == name[0];
      SlashAfter(name[1..], rest);
    }
  }

  /** An empty segment in front is dropped. */
  lemma SegmentsAfterSlash(path: string)
    ensures Segments("/" + path) == Segments(path)
  {
    var whole := "/" + path;
    assert SlashAt(whole) == 0 && whole[1..] == path;
    assert Segments(whole) == [] + Segments(path);
  }

  lemma SegmentsAfterName(name: string, rest: string)
    requires name != "" && '/' !in name && (rest == "" || rest[0] == '/')
    ensures Segments(name + rest) == [name] + Segments(rest)
  {
    SlashAfter(name, rest);
    assert (name + rest)[..|name|] == name;
    if rest == "" {
      assert Segments(rest) == [];
    } else {
      assert (name + rest)[|name| + 1..] == rest[1..];
      assert rest == "/" + rest[1..];
      SegmentsAfterSlash(rest[1..]);
    }
  }

  /** One more segment in front of a path. */
  lemma SegmentsAfterPrefix(name: string, rest: string)
    requires name != "" && '/' !in name && (rest == "" || rest[0] == '/')
    ensures Segments("/" + name + rest) == [name] + Segments(rest)
  {
    assert "/" + name + rest == "/" + (name + rest);
    SegmentsAfterSlash(name + rest);
    SegmentsAfterName(name, rest);
  }

  // ------------------------------------------------------------------------------------------
  // The locale middleware: a path without a listed locale in front is sent to one that has it.

  /** The part of a path between its first slash and the next. */
  function Head(path: string): string
    requires path != ""
  {
    path[1..1 + SlashAt(path[1..])]
  }

  predicate Prefixed(c: Locales, path: string) {
    path != "" && path[0] == '/' && Head(path) in c.listed
  }

  function WithPrefix(locale: string, path: string): string {
    "/" + locale + (if path == "/" then "" else path)
  }

  /** The middleware redirects u to v; which locale it puts in front is its own choice. */
  predicate LocaleHop(c: Locales, u: Url, v: Url) {
    !Prefixed(c, u.pathname)
    && exists i :: 0 <= i < |c.listed| && v == u.(pathname := WithPrefix(c.listed[i], u.pathname))
  }

  /** Prefixing adds the locale as the first segment, and the middleware leaves the result alone. */
  lemma PrefixAdds(c: Locales, locale: string, path: string)
    requires locale != "" && '/' !in locale && path != "" && path[0] == '/'
    ensures var longer := WithPrefix(locale, path);
            && longer[0] == '/' && Head(longer) == locale
            && Segments(longer) == [locale] + Segments(path)
            && (locale in c.listed ==> Prefixed(c, longer))
  {
    var rest := if path == "/" then "" else path;
    var longer := WithPrefix(locale, path);
    SegmentsAfterPrefix(locale, rest);
    assert longer[1..] == locale + rest;
    SlashAfter(locale, rest);
    assert (locale + rest)[..|locale|] == locale;
    if path == "/" {
      assert path[1..] == "" && SlashAt(path) == 0 && Segments("") == [];
      assert Segments(path) == [] + Segments("");
    }
  }
}
