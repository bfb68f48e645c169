/**
 The locations of the two nginx configurations written for PostHog: public capture paths in front of a
 protected catch-all, chosen by nginx as exact match first, then longest prefix.
 */
module CaptureLocations {
  import opened Prelude

  const PUBLIC_CAPTURE_PATHS: seq<string> := [
    "/batch", "/batch/", "/batch/*",
    "/flags", "/flags/", "/flags/*",
    "/decide", "/decide/", "/decide/*",
    "/i/v0/e", "/i/v0/e/", "/i/v0/e/*",
    "/capture", "/capture/", "/capture/*",
    "/engage", "/engage/", "/engage/*",
    "/s", "/s/", "/s/*",
    "/track", "/track/", "/track/*",
    "/static/array.js", "/static/recorder-v2.js", "/static/recorder.js", "/static/surveys.js"
  ]

  const ACME := "/.well-known/acme-challenge/"

  /** `=`, `^~` or no modifier. */
  datatype Kind = Exact | Preferred | Plain

  datatype Answer = Challenge | Forward(port: nat, proto: string) | Protected | ToHttps

  datatype Location = Location(kind: Kind, uri: string, answer: Answer)

  // ------------------------------------------------------------------------------------------
  // What is rendered.

  /** The port a listed path is forwarded to. */
  function Upstream(path: string): nat {
    if StartsWith(path, "/flags") || StartsWith(path, "/decide") then 3001
    else if StartsWith(path, "/s") then 3002
    else if StartsWith(path, "/batch") || StartsWith(path, "/i/v0/e") || StartsWith(path, "/capture")
         || StartsWith(path, "/engage") || StartsWith(path, "/track") then 3000
    else 8000
  }

  /** The location written for a listed path. */
  function LocationFor(path: string, proto: string): Location {
    Location(
      if EndsWith(path, "/*") then Preferred else Exact,
      if EndsWith(path, "*") then path[..|path| - 1] else path,
      Forward(Upstream(path), proto))
  }

  function PublicLocations(paths: seq<string>, proto: string): seq<Location> {
    seq(|paths|, i requires 0 <= i < |paths| => LocationFor(paths[i], proto))
  }

  lemma LocationsAppend(paths: seq<string>, i: nat, proto: string)
    requires i < |paths|
    ensures PublicLocations(paths[..i + 1], proto) ==
              PublicLocations(paths[..i], proto) + [LocationFor(paths[i], proto)]
  {
    var longer, shorter := PublicLocations(paths[..i + 1], proto), PublicLocations(paths[..i], proto);
    forall k | 0 <= k < i ensures longer[k] == shorter[k] {
      assert paths[..i + 1][k] == paths[..i][k];
    }
    assert longer == longer[..i] + [longer[i]];
  }

  /** The upstream of one turn of the loop. */
  method ChooseUpstream(path: string) returns (upstream: nat)
    ensures upstream == Upstream(path)
  {
    upstream := 8000;
    if StartsWith(path, "/flags") || StartsWith(path, "/decide") {
      upstream := 3001;
    } else if StartsWith(path, "/s") {
      upstream := 3002;
    } else if StartsWith(path, "/batch") || StartsWith(path, "/i/v0/e") || StartsWith(path, "/capture")
           || StartsWith(path, "/engage") || StartsWith(path, "/track") {
      upstream := 3000;
    }
  }

  method RenderPublicLocations(paths: seq<string>, proto: string) returns (rendered: seq<Location>)
    ensures rendered == PublicLocations(paths, proto)
  {
    rendered := [];
    for i := 0 to |paths|
      invariant rendered == PublicLocations(paths[..i], proto)
    {
      var path := paths[i];
      var upstream := ChooseUpstream(path);
      LocationsAppend(paths, i, proto);
      var kind := if EndsWith(path, "/*") then Preferred else Exact;
      var uri := if EndsWith(path, "*") then path[..|path| - 1] else path;
      rendered := rendered + [Location(kind, uri, Forward(upstream, proto))];
    }
    assert paths[..|paths|] == paths;
  }

  /** The only server of the HTTP configuration. */
  function HttpServer(paths: seq<string>): seq<Location> {
    [Location(Plain, ACME, Challenge)] + PublicLocations(paths, "http") + [Location(Plain, "/", Protected)]
  }

  /** The server on port 443 of the HTTPS configuration. */
  function HttpsServer(paths: seq<string>): seq<Location> {
    PublicLocations(paths, "https") + [Location(Plain, "/", Protected)]
  }

  /** The server on port 80 of the HTTPS configuration. */
  const REDIRECT_SERVER := [Location(Plain, ACME, Challenge), Location(Plain, "/", ToHttps)]

  // ------------------------------------------------------------------------------------------
  // How nginx picks a location when there are no regular expressions.

  predicate Matches(l: Location, uri: string) {
    if l.kind.Exact? then l.uri == uri else StartsWith(uri, l.uri)
  }

  function FirstExact(locations: seq<Location>, uri: string): Option<Location> {
    if locations == [] then None
    else if locations[0].kind.Exact? && Matches(locations[0], uri) then Some(locations[0])
    else FirstExact(locations[1..], uri)
  }

  function LongestPrefix(locations: seq<Location>, uri: string): Option<Location> {
    if locations == [] then None
    else
      var l, best := locations[0], LongestPrefix(locations[1..], uri);
      if !l.kind.Exact? && Matches(l, uri) && (best.None? || |best.value.uri| <= |l.uri|) then Some(l) else best
  }

  function Pick(locations: seq<Location>, uri: string): Option<Location> {
    var exact := FirstExact(locations, uri);
    if exact.Some? then exact else LongestPrefix(locations, uri)
  }

  lemma {:induction false} FirstExactMeans(locations: seq<Location>, uri: string)
    ensures var r := FirstExact(locations, uri);
            && (r.Some? ==> r.value in locations && r.value.kind.Exact? && Matches(r.value, uri))
            && (r.None? ==> forall l :: l in locations && l.kind.Exact? ==> !Matches(l, uri))
  {
    if locations != [] {
      FirstExactMeans(locations[1..], uri);
    }
  }

  lemma {:induction false} LongestPrefixMeans(locations: seq<Location>, uri: string)
    ensures var r := LongestPrefix(locations, uri);
            && (r.Some? ==> r.value in locations && !r.value.kind.Exact? && Matches(r.value, uri))
            && (forall l :: l in locations && !l.kind.Exact? && Matches(l, uri) ==> r.Some? && |l.uri| <= |r.value.uri|)
  {
    if locations != [] {
      LongestPrefixMeans(locations[1..], uri);
      assert locations == [locations[0]] + locations[1..];
    }
  }

  /** The picked location matches; an exact match beats every prefix, a longer prefix a shorter one. */
  lemma PickMeans(locations: seq<Location>, uri: string)
    ensures var r := Pick(locations, uri);
            && (r.Some? ==> r.value in locations && Matches(r.value, uri))
            && (forall l :: l in locations && Matches(l, uri) ==>
                  r.Some? && (l.kind.Exact? ==> r.value.kind.Exact?)
                  && (!r.value.kind.Exact? ==> |l.uri| <= |r.value.uri|))
  {
    FirstExactMeans(locations, uri);
    LongestPrefixMeans(locations, uri);
  }

  // ------------------------------------------------------------------------------------------
  // What any list of paths opens.

  /** A listed path opens itself, or with a final star everything that starts as it does. */
  predicate Opens(path: string, uri: string) {
    Matches(LocationFor(path, ""), uri)
  }

  /** Listed paths start with a slash and a character that ends neither path nor ACME prefix. */
  predicate WellListed(paths: seq<string>) {
    forall i :: 0 <= i < |paths| ==>
      |paths[i]| >= 2 && paths[i][0] == '/' && paths[i][1] != '*' && paths[i][1] != '.'
  }

  predicate IsOpen(locations: seq<Location>, uri: string) {
    var l := Pick(locations, uri);
    l.Some? && l.value.answer.Forward?
  }

  lemma AcmeSecond()
    ensures |ACME| >= 2 && ACME[0] == '/' && ACME[1] == '.'
  {
  }

  /** A capture location names at least two characters, the second of which is no dot. */
  lemma CaptureShape(path: string, proto: string)
    requires |path| >= 2 && path[0] == '/' && path[1] != '*' && path[1] != '.'
    ensures var l := LocationFor(path, proto);
            && |l.uri| >= 2 && l.uri[0] == '/' && l.uri[1] == path[1] && l.answer.Forward? && !l.kind.Plain?
            && forall uri :: Matches(l, uri) <==> Opens(path, uri)
  {
  }

  lemma InPublic(paths: seq<string>, proto: string, l: Location)
    ensures l in PublicLocations(paths, proto) <==> exists i :: 0 <= i < |paths| && l == LocationFor(paths[i], proto)
  {
    if exists i :: 0 <= i < |paths| && l == LocationFor(paths[i], proto) {
      var i :| 0 <= i < |paths| && l == LocationFor(paths[i], proto);
      assert PublicLocations(paths, proto)[i] == l;
    }
  }

  lemma SecondCharacter(l: Location, uri: string)
    ensures |l.uri| >= 2 && Matches(l, uri) ==> |uri| >= 2 && uri[1] == l.uri[1]
  {
    if |l.uri| >= 2 && Matches(l, uri) {
      assert uri[..|l.uri|][1] == l.uri[1];
    }
  }

  predicate SomeOpens(paths: seq<string>, uri: string) {
    exists i :: 0 <= i < |paths| && Opens(paths[i], uri)
  }

  /** One reading for both servers: capture locations, a catch-all, and perhaps the ACME location. */
  lemma OpenIffListed(paths: seq<string>, proto: string, locations: seq<Location>, uri: string)
    requires WellListed(paths) && |uri| > 0 && uri[0] == '/'
    requires forall l :: l in locations <==>
               || l in PublicLocations(paths, proto) || l == Location(Plain, "/", Protected)
               || (l == Location(Plain, ACME, Challenge) && l in locations)
    ensures IsOpen(locations, uri) <==> SomeOpens(paths, uri)
    ensures !IsOpen(locations, uri) ==>
              Pick(locations, uri) == Some(if Location(Plain, ACME, Challenge) in locations && StartsWith(uri, ACME)
                                           then Location(Plain, ACME, Challenge) else Location(Plain, "/", Protected))
  {
    PickMeans(locations, uri);
    AcmeSecond();
    var root := Location(Plain, "/", Protected);
    assert Matches(root, uri) && root in locations;
    var l := Pick(locations, uri).value;
    if l in PublicLocations(paths, proto) {
      InPublic(paths, proto, l);
      var i :| 0 <= i < |paths| && l == LocationFor(paths[i], proto);
      CaptureShape(paths[i], proto);
      assert SomeOpens(paths, uri);
    }
    if SomeOpens(paths, uri) {
      var i :| 0 <= i < |paths| && Opens(paths[i], uri);
      var m := LocationFor(paths[i], proto);
      CaptureShape(paths[i], proto);
      InPublic(paths, proto, m);
      assert Matches(m, uri) && |m.uri| >= 2;
      SecondCharacter(m, uri);
      SecondCharacter(Location(Plain, ACME, Challenge), uri);
    }
  }

  // ------------------------------------------------------------------------------------------
  // Lists made of bases, each in three forms, and of files.

  /** The three entries of one base. */
  ghost predicate Listed(paths: seq<string>, i: nat, base: string) {
    3 * i + 2 < |paths| && paths[3 * i] == base && paths[3 * i + 1] == base + "/" && paths[3 * i + 2] == base + "/*"
  }

  ghost predicate MadeOf(paths: seq<string>, bases: seq<string>, files: seq<string>) {
    && |paths| == 3 * |bases| + |files|
    && (forall i :: 0 <= i < |bases| ==> Listed(paths, i, bases[i]))
    && (forall j :: 0 <= j < |files| ==> paths[3 * |bases| + j] == files[j])
  }

  /** What the proofs use of a base or file: its first two characters and its last. */
  predicate Shaped(path: string) {
    |path| >= 2 && path[0] == '/' && path[1] != '*' && path[1] != '.' && path[|path| - 1] != '*'
  }

  predicate AllShaped(bases: seq<string>, files: seq<string>) {
    && (forall i :: 0 <= i < |bases| ==> Shaped(bases[i]))
    && (forall j :: 0 <= j < |files| ==> Shaped(files[j]))
  }

  predicate IsFormOf(path: string, base: string) {
    path == base || path == base + "/" || path == base + "/*"
  }

  lemma ListedPath(paths: seq<string>, bases: seq<string>, files: seq<string>, k: nat)
    requires MadeOf(paths, bases, files) && k < |paths|
    ensures k < 3 * |bases| ==> k / 3 < |bases| && IsFormOf(paths[k], bases[k / 3])
    ensures k >= 3 * |bases| ==> paths[k] == files[k - 3 * |bases|]
  {
    if k < 3 * |bases| {
      assert Listed(paths, k / 3, bases[k / 3]);
      assert k == 3 * (k / 3) || k == 3 * (k / 3) + 1 || k == 3 * (k / 3) + 2;
    } else {
      assert paths[3 * |bases| + (k - 3 * |bases|)] == files[k - 3 * |bases|];
    }
  }

  lemma ShapedIsWellListed(paths: seq<string>, bases: seq<string>, files: seq<string>)
    requires MadeOf(paths, bases, files) && AllShaped(bases, files)
    ensures WellListed(paths)
  {
    forall k | 0 <= k < |paths|
      ensures var p := paths[k]; |p| >= 2 && p[0] == '/' && p[1] != '*' && p[1] != '.'
    {
      ListedPath(paths, bases, files, k);
      if k < 3 * |bases| { assert Shaped(bases[k / 3]); } else { assert Shaped(files[k - 3 * |bases|]); }
    }
  }

  /** A base and everything below it. */
  predicate Under(base: string, uri: string) {
    uri == base || StartsWith(uri, base + "/")
  }

  /** Each base, the base with a slash, what is below it, and the files. */
  predicate Covered(bases: seq<string>, files: seq<string>, uri: string) {
    (exists i :: 0 <= i < |bases| && Under(bases[i], uri)) || uri in files
  }

  lemma LastCharacter(s: string, p: string)
    requires p != ""
    ensures EndsWith(s, p) ==> s != "" && s[|s| - 1] == p[|p| - 1]
  {
    if EndsWith(s, p) {
      assert s[|s| - |p|..][|p| - 1] == p[|p| - 1];
    }
  }

  lemma NoStar(s: string)
    requires s != "" && s[|s| - 1] != '*'
    ensures !EndsWith(s, "*") && !EndsWith(s, "/*")
  {
    LastCharacter(s, "*");
    LastCharacter(s, "/*");
  }

  lemma StarForm(base: string)
    ensures EndsWith(base + "/*", "*") && EndsWith(base + "/*", "/*")
    ensures (base + "/*")[..|base + "/*"| - 1] == base + "/"
  {
    var c := base + "/*";
    assert c[|c| - 1..] == "*" && c[|c| - 2..] == "/*";
  }

  lemma FormsOpen(base: string, uri: string)
    requires Shaped(base)
    ensures Opens(base, uri) <==> uri == base
    ensures Opens(base + "/", uri) <==> uri == base + "/"
    ensures Opens(base + "/*", uri) <==> StartsWith(uri, base + "/")
  {
    StarForm(base);
    NoStar(base);
    var b := base + "/";
    assert b[|b| - 1] == '/';
    NoStar(b);
  }

  /** The list opens exactly what its bases and files cover. */
  lemma ListOpens(paths: seq<string>, bases: seq<string>, files: seq<string>, uri: string)
    requires MadeOf(paths, bases, files) && AllShaped(bases, files)
    ensures SomeOpens(paths, uri) <==> Covered(bases, files, uri)
  {
    if SomeOpens(paths, uri) {
      var k :| 0 <= k < |paths| && Opens(paths[k], uri);
      ListedPath(paths, bases, files, k);
      if k < 3 * |bases| {
        var base := bases[k / 3];
        FormsOpen(base, uri);
        assert uri == base + "/" ==> uri[..|base + "/"|] == base + "/";
        assert Under(base, uri);
      } else {
        FormsOpen(files[k - 3 * |bases|], uri);
      }
    }
    if Covered(bases, files, uri) {
      if i :| 0 <= i < |bases| && Under(bases[i], uri) {
        FormsOpen(bases[i], uri);
        assert Listed(paths, i, bases[i]);
        assert Opens(paths[3 * i], uri) || Opens(paths[3 * i + 2], uri);
      } else {
        var j :| 0 <= j < |files| && uri == files[j];
        FormsOpen(files[j], uri);
        assert Opens(paths[3 * |bases| + j], uri);
      }
    }
  }

  /** Only the starred form is written with a preferred prefix. */
  lemma KindOfForms(base: string, proto: string)
    requires Shaped(base)
    ensures LocationFor(base, proto).kind.Exact? && LocationFor(base + "/", proto).kind.Exact?
    ensures LocationFor(base + "/*", proto).uri == base + "/"
  {
    StarForm(base);
    NoStar(base);
    var b := base + "/";
    assert b[|b| - 1] == '/';
    NoStar(b);
  }

  /** The base a preferred location was made from. */
  lemma PreferredFrom(paths: seq<string>, bases: seq<string>, files: seq<string>, proto: string, k: nat)
    requires MadeOf(paths, bases, files) && AllShaped(bases, files)
    requires k < |paths| && LocationFor(paths[k], proto).kind.Preferred?
    ensures k / 3 < |bases| && Shaped(bases[k / 3]) && paths[k] == bases[k / 3] + "/*"
  {
    ListedPath(paths, bases, files, k);
    if k < 3 * |bases| {
      assert Shaped(bases[k / 3]);
      KindOfForms(bases[k / 3], proto);
    } else {
      KindOfForms(files[k - 3 * |bases|], proto);
    }
  }

  predicate DifferEarly(bases: seq<string>) {
    forall i, j :: 0 <= i < j < |bases| && |bases[i]| >= 2 && |bases[j]| >= 2 ==> bases[i][1] != bases[j][1]
  }

  /** If the bases differ in their second character, no URI matches two preferred prefixes. */
  lemma PreferredDisjoint(paths: seq<string>, bases: seq<string>, files: seq<string>, proto: string, uri: string,
                          l: Location, m: Location)
    requires MadeOf(paths, bases, files) && AllShaped(bases, files) && DifferEarly(bases)
    requires l in PublicLocations(paths, proto) && m in PublicLocations(paths, proto)
    requires l.kind.Preferred? && m.kind.Preferred? && Matches(l, uri) && Matches(m, uri)
    ensures l == m
  {
    InPublic(paths, proto, l);
    InPublic(paths, proto, m);
    var k :| 0 <= k < |paths| && l == LocationFor(paths[k], proto);
    var n :| 0 <= n < |paths| && m == LocationFor(paths[n], proto);
    PreferredFrom(paths, bases, files, proto, k);
    PreferredFrom(paths, bases, files, proto, n);
    KindOfForms(bases[k / 3], proto);
    KindOfForms(bases[n / 3], proto);
    SecondCharacter(l, uri);
    SecondCharacter(m, uri);
    assert k / 3 == n / 3;
  }

  // ------------------------------------------------------------------------------------------
  // Ports.

  /** Everything under a base goes where the base goes, and a location under it goes there too. */
  ghost predicate PortSettled(base: string) {
    forall tail: string :: Upstream(base + tail) == Upstream(base)
  }

  lemma PickedFromList(paths: seq<string>, proto: string, locations: seq<Location>, uri: string)
    requires forall l :: l in locations && l.answer.Forward? ==> l in PublicLocations(paths, proto)
    requires IsOpen(locations, uri)
    ensures exists k :: 0 <= k < |paths| && Pick(locations, uri).value == LocationFor(paths[k], proto)
                        && Opens(paths[k], uri)
  {
    PickMeans(locations, uri);
    var l := Pick(locations, uri).value;
    InPublic(paths, proto, l);
    var k :| 0 <= k < |paths| && l == LocationFor(paths[k], proto);
    assert Opens(paths[k], uri);
  }

  lemma UnderSplits(base: string, uri: string)
    requires Under(base, uri)
    ensures |uri| >= |base| && uri == base + uri[|base|..]
  {
    if StartsWith(uri, base + "/") {
      assert uri == (base + "/") + uri[|base| + 1..];
    }
  }

  lemma PortOfForms(base: string, path: string, uri: string)
    requires PortSettled(base) && IsFormOf(path, base) && Under(base, uri)
    ensures Upstream(path) == Upstream(uri) == Upstream(base)
  {
    UnderSplits(base, uri);
    assert Upstream(base + uri[|base|..]) == Upstream(base);
    assert Upstream(base + "/") == Upstream(base) && Upstream(base + "/*") == Upstream(base);
  }

  lemma OpensUnder(base: string, path: string, uri: string)
    requires Shaped(base) && IsFormOf(path, base) && Opens(path, uri)
    ensures Under(base, uri)
  {
    FormsOpen(base, uri);
    assert uri == base + "/" ==> uri[..|base + "/"|] == base + "/";
  }

  /** An open URI is forwarded to the port the prefix test gives for the URI itself. */
  lemma PortOfOpen(paths: seq<string>, bases: seq<string>, files: seq<string>, proto: string,
                   locations: seq<Location>, uri: string)
    requires MadeOf(paths, bases, files) && AllShaped(bases, files)
    requires forall i :: 0 <= i < |bases| ==> PortSettled(bases[i])
    requires forall l :: l in locations && l.answer.Forward? ==> l in PublicLocations(paths, proto)
    requires IsOpen(locations, uri)
    ensures Pick(locations, uri).value.answer == Forward(Upstream(uri), proto)
  {
    PickedFromList(paths, proto, locations, uri);
    var k :| 0 <= k < |paths| && Pick(locations, uri).value == LocationFor(paths[k], proto) && Opens(paths[k], uri);
    assert Pick(locations, uri).value.answer == Forward(Upstream(paths[k]), proto);
    ListedPath(paths, bases, files, k);
    if k < 3 * |bases| {
      var base := bases[k / 3];
      assert PortSettled(base);
      OpensUnder(base, paths[k], uri);
      PortOfForms(base, paths[k], uri);
    } else {
      FormsOpen(files[k - 3 * |bases|], uri);
    }
  }

  // ------------------------------------------------------------------------------------------
  // The list as it is.

  const BASES: seq<string> := ["/batch", "/flags", "/decide", "/i/v0/e", "/capture", "/engage", "/s", "/track"]
  const STATIC_FILES: seq<string> :=
    ["/static/array.js", "/static/recorder-v2.js", "/static/recorder.js", "/static/surveys.js"]

  lemma FirstTwoListed()
    ensures Listed(PUBLIC_CAPTURE_PATHS, 0, BASES[0])
    ensures Listed(PUBLIC_CAPTURE_PATHS, 1, BASES[1])
  {
    assert "/batch" + "/" == "/batch/" && "/batch" + "/*" == "/batch/*";
    assert "/flags" + "/" == "/flags/" && "/flags" + "/*" == "/flags/*";
  }

  lemma NextTwoListed()
    ensures Listed(PUBLIC_CAPTURE_PATHS, 2, BASES[2])
    ensures Listed(PUBLIC_CAPTURE_PATHS, 3, BASES[3])
  {
    assert "/decide" + "/" == "/decide/" && "/decide" + "/*" == "/decide/*";
    assert "/i/v0/e" + "/" == "/i/v0/e/" && "/i/v0/e" + "/*" == "/i/v0/e/*";
  }

  lemma MoreTwoListed()
    ensures Listed(PUBLIC_CAPTURE_PATHS, 4, BASES[4])
    ensures Listed(PUBLIC_CAPTURE_PATHS, 5, BASES[5])
  {
    assert "/capture" + "/" == "/capture/" && "/capture" + "/*" == "/capture/*";
    assert "/engage" + "/" == "/engage/" && "/engage" + "/*" == "/engage/*";
  }

  lemma LastTwoListed()
    ensures Listed(PUBLIC_CAPTURE_PATHS, 6, BASES[6])
    ensures Listed(PUBLIC_CAPTURE_PATHS, 7, BASES[7])
  {
    assert "/s" + "/" == "/s/" && "/s" + "/*" == "/s/*";
    assert "/track" + "/" == "/track/" && "/track" + "/*" == "/track/*";
  }

  lemma FilesListed()
    ensures |PUBLIC_CAPTURE_PATHS| == 28 && |BASES| == 8 && |STATIC_FILES| == 4
    ensures forall j :: 0 <= j < 4 ==> PUBLIC_CAPTURE_PATHS[24 + j] == STATIC_FILES[j]
  {
  }

  lemma ListMade()
    ensures MadeOf(PUBLIC_CAPTURE_PATHS, BASES, STATIC_FILES)
  {
    FirstTwoListed();
    NextTwoListed();
    MoreTwoListed();
    LastTwoListed();
    FilesListed();
  }

  lemma BasesShaped()
    ensures forall i :: 0 <= i < |BASES| ==> Shaped(BASES[i])
    ensures DifferEarly(BASES)
  {
  }

  lemma FilesShaped()
    ensures forall j :: 0 <= j < |STATIC_FILES| ==> Shaped(STATIC_FILES[j])
  {
  }

  /** Whether a longer path starts with p is decided by its base. */
  predicate Decided(base: string, p: string) {
    |base| >= 2 && |p| >= 2 && (StartsWith(base, p) || base[1] != p[1])
  }

  lemma StartOfLonger(base: string, tail: string, p: string)
    requires Decided(base, p)
    ensures StartsWith(base + tail, p) <==> StartsWith(base, p)
  {
    if StartsWith(base + tail, p) {
      assert (base + tail)[..|p|][1] == p[1];
    }
    if StartsWith(base, p) {
      assert (base + tail)[..|p|] == base[..|p|];
    }
  }

  predicate DecidedForAll(base: string) {
    && Decided(base, "/flags") && Decided(base, "/decide") && Decided(base, "/s") && Decided(base, "/batch")
    && Decided(base, "/i/v0/e") && Decided(base, "/capture") && Decided(base, "/engage") && Decided(base, "/track")
  }

  lemma PortOfBase(base: string)
    requires DecidedForAll(base)
    ensures PortSettled(base)
  {
    forall tail: string ensures Upstream(base + tail) == Upstream(base) {
      StartOfLonger(base, tail, "/flags");
      StartOfLonger(base, tail, "/decide");
      StartOfLonger(base, tail, "/s");
      StartOfLonger(base, tail, "/batch");
      StartOfLonger(base, tail, "/i/v0/e");
      StartOfLonger(base, tail, "/capture");
      StartOfLonger(base, tail, "/engage");
      StartOfLonger(base, tail, "/track");
    }
  }

  lemma FirstDecided()
    ensures DecidedForAll(BASES[0]) && DecidedForAll(BASES[1])
  {
  }

  lemma NextDecided()
    ensures DecidedForAll(BASES[2]) && DecidedForAll(BASES[3])
  {
  }

  lemma MoreDecided()
    ensures DecidedForAll(BASES[4]) && DecidedForAll(BASES[5])
  {
  }

  lemma LastDecided()
    ensures DecidedForAll(BASES[6]) && DecidedForAll(BASES[7])
  {
  }

  /** The URIs that are to be public. */
  predicate PublicUri(uri: string) {
    || Under("/batch", uri) || Under("/flags", uri) || Under("/decide", uri) || Under("/i/v0/e", uri)
    || Under("/capture", uri) || Under("/engage", uri) || Under("/s", uri) || Under("/track", uri)
    || uri == "/static/array.js" || uri == "/static/recorder-v2.js" || uri == "/static/recorder.js"
    || uri == "/static/surveys.js"
  }

  /** The port a public URI is for: feature flags, session recordings and scripts, or events. */
  function PortFor(uri: string): nat {
    if Under("/flags", uri) || Under("/decide", uri) then 3001
    else if Under("/s", uri) || StartsWith(uri, "/static/") then 3002
    else 3000
  }

  lemma CoveredIsPublic(uri: string)
    requires Covered(BASES, STATIC_FILES, uri)
    ensures PublicUri(uri)
  {
    assert |BASES| == 8 && |STATIC_FILES| == 4;
    if i :| 0 <= i < |BASES| && Under(BASES[i], uri) {
      assert i == 0 || i == 1 || i == 2 || i == 3 || i == 4 || i == 5 || i == 6 || i == 7;
    }
  }

  lemma UnderIsCovered(base: string, uri: string)
    requires base in BASES && Under(base, uri)
    ensures Covered(BASES, STATIC_FILES, uri)
  {
    var i :| 0 <= i < |BASES| && BASES[i] == base;
    assert Under(BASES[i], uri);
  }

  lemma PublicIsCovered(uri: string)
    requires PublicUri(uri)
    ensures Covered(BASES, STATIC_FILES, uri)
  {
    BasesInList();
    FilesInList();
    if Under("/batch", uri) { UnderIsCovered("/batch", uri); }
    if Under("/flags", uri) { UnderIsCovered("/flags", uri); }
    if Under("/decide", uri) { UnderIsCovered("/decide", uri); }
    if Under("/i/v0/e", uri) { UnderIsCovered("/i/v0/e", uri); }
    if Under("/capture", uri) { UnderIsCovered("/capture", uri); }
    if Under("/engage", uri) { UnderIsCovered("/engage", uri); }
    if Under("/s", uri) { UnderIsCovered("/s", uri); }
    if Under("/track", uri) { UnderIsCovered("/track", uri); }
  }

  /** Spelled out, these are the URIs covered by the bases and the files. */
  lemma PublicIffCovered(uri: string)
    ensures PublicUri(uri) <==> Covered(BASES, STATIC_FILES, uri)
  {
    if PublicUri(uri) { PublicIsCovered(uri); }
    if Covered(BASES, STATIC_FILES, uri) { CoveredIsPublic(uri); }
  }

  /** What is under a base starts as the base does. */
  lemma UnderPort(base: string, uri: string)
    requires PortSettled(base) && Under(base, uri)
    ensures Upstream(uri) == Upstream(base) && |uri| >= |base| && uri[..|base|] == base
  {
    PortOfForms(base, base, uri);
    UnderSplits(base, uri);
  }

  lemma ListFacts()
    ensures MadeOf(PUBLIC_CAPTURE_PATHS, BASES, STATIC_FILES) && AllShaped(BASES, STATIC_FILES) && DifferEarly(BASES)
    ensures WellListed(PUBLIC_CAPTURE_PATHS)
    ensures forall i :: 0 <= i < |BASES| ==> PortSettled(BASES[i])
  {
    ListMade();
    BasesShaped();
    FilesShaped();
    ShapedIsWellListed(PUBLIC_CAPTURE_PATHS, BASES, STATIC_FILES);
    FirstDecided();
    NextDecided();
    MoreDecided();
    LastDecided();
    forall i | 0 <= i < |BASES| ensures PortSettled(BASES[i]) { PortOfBase(BASES[i]); }
  }

  /** The second character also decides the prefix test for the first three ports. */
  lemma NoSpecialStart(p: string)
    requires |p| >= 2 && p[1] != 'f' && p[1] != 'd' && p[1] != 's'
    ensures !StartsWith(p, "/flags") && !StartsWith(p, "/decide") && !StartsWith(p, "/s")
  {
    SecondOfStart(p, "/flags");
    SecondOfStart(p, "/decide");
    SecondOfStart(p, "/s");
  }

  lemma SpecialPorts()
    ensures Upstream("/flags") == Upstream("/decide") == 3001 && Upstream("/s") == 3002
  {
    assert "/flags"[..6] == "/flags" && "/decide"[..7] == "/decide" && "/s"[..2] == "/s";
  }

  lemma SomeEventPorts()
    ensures Upstream("/batch") == Upstream("/i/v0/e") == Upstream("/capture") == 3000
  {
    NoSpecialStart("/batch");
    NoSpecialStart("/i/v0/e");
    NoSpecialStart("/capture");
    assert "/batch"[..6] == "/batch" && "/i/v0/e"[..7] == "/i/v0/e" && "/capture"[..8] == "/capture";
  }

  lemma OtherEventPorts()
    ensures Upstream("/engage") == Upstream("/track") == 3000
  {
    NoSpecialStart("/engage");
    NoSpecialStart("/track");
    assert "/engage"[..7] == "/engage" && "/track"[..6] == "/track";
  }

  /** The second character tells the kinds of URI apart. */
  lemma PortBySecond(uri: string)
    requires |uri| >= 2
    ensures uri[1] != 'f' ==> !Under("/flags", uri)
    ensures uri[1] != 'd' ==> !Under("/decide", uri)
    ensures uri[1] != 's' ==> !Under("/s", uri) && !StartsWith(uri, "/static/")
  {
    SecondOfStart(uri, "/flags/");
    SecondOfStart(uri, "/decide/");
    SecondOfStart(uri, "/s/");
    SecondOfStart(uri, "/static/");
    assert "/flags" + "/" == "/flags/" && "/decide" + "/" == "/decide/" && "/s" + "/" == "/s/";
  }

  lemma SecondOfStart(uri: string, p: string)
    requires |uri| >= 2 && |p| >= 2
    ensures StartsWith(uri, p) ==> uri[1] == p[1]
  {
    if StartsWith(uri, p) { assert uri[..|p|][1] == p[1]; }
  }

  lemma BaseSettled(base: string)
    requires base in BASES
    ensures PortSettled(base) && |base| >= 2
  {
    ListFacts();
    var i :| 0 <= i < |BASES| && BASES[i] == base;
    assert Shaped(BASES[i]);
  }

  lemma BasesInList()
    ensures "/flags" in BASES && "/decide" in BASES && "/s" in BASES && "/batch" in BASES
    ensures "/i/v0/e" in BASES && "/capture" in BASES && "/engage" in BASES && "/track" in BASES
  {
    assert BASES[0] == "/batch" && BASES[1] == "/flags" && BASES[2] == "/decide" && BASES[3] == "/i/v0/e";
    assert BASES[4] == "/capture" && BASES[5] == "/engage" && BASES[6] == "/s" && BASES[7] == "/track";
  }

  lemma PortUnder(base: string, uri: string)
    requires base in BASES && Under(base, uri)
    ensures Upstream(uri) == Upstream(base) && |uri| >= 2 && uri[1] == base[1]
  {
    BaseSettled(base);
    UnderPort(base, uri);
    assert uri[..|base|][1] == base[1];
  }

  lemma FilesStart()
    ensures StartsWith("/static/array.js", "/static/") && StartsWith("/static/recorder-v2.js", "/static/")
    ensures StartsWith("/static/recorder.js", "/static/") && StartsWith("/static/surveys.js", "/static/")
  {
  }

  lemma FilePort(uri: string)
    requires StartsWith(uri, "/static/")
    ensures |uri| >= 2 && Upstream(uri) == PortFor(uri) == 3002
  {
    SecondOfStart(uri, "/static/");
    SecondOfStart(uri, "/flags");
    SecondOfStart(uri, "/decide");
    PortBySecond(uri);
    assert uri[..2] == uri[..8][..2] == "/static/"[..2] == "/s";
  }

  lemma BasePort(base: string, uri: string)
    requires base in BASES && Under(base, uri)
    requires base == "/flags" || base == "/decide" || base == "/s"
    ensures Upstream(uri) == PortFor(uri)
  {
    SpecialPorts();
    PortUnder(base, uri);
    PortBySecond(uri);
  }

  lemma OtherPort(base: string, uri: string)
    requires base in BASES && Under(base, uri) && Upstream(base) == 3000 && |base| >= 2
    requires base[1] != 'f' && base[1] != 'd' && base[1] != 's'
    ensures Upstream(uri) == PortFor(uri)
  {
    PortUnder(base, uri);
    PortBySecond(uri);
  }

  /** The prefix test gives every public URI the port it is for. */
  lemma PublicPort(uri: string)
    requires PublicUri(uri)
    ensures Upstream(uri) == PortFor(uri)
  {
    BasesInList();
    if Under("/flags", uri) {
      BasePort("/flags", uri);
    } else if Under("/decide", uri) {
      BasePort("/decide", uri);
    } else if Under("/s", uri) {
      BasePort("/s", uri);
    } else {
      OtherPublicPort(uri);
    }
  }

  lemma OtherPublicPort(uri: string)
    requires PublicUri(uri) && !Under("/flags", uri) && !Under("/decide", uri) && !Under("/s", uri)
    ensures Upstream(uri) == PortFor(uri)
  {
    BasesInList();
    SomeEventPorts();
    OtherEventPorts();
    if Under("/batch", uri) {
      OtherPort("/batch", uri);
    } else if Under("/i/v0/e", uri) {
      OtherPort("/i/v0/e", uri);
    } else if Under("/capture", uri) {
      OtherPort("/capture", uri);
    } else if Under("/engage", uri) {
      OtherPort("/engage", uri);
    } else if Under("/track", uri) {
      OtherPort("/track", uri);
    } else {
      FilesStart();
      FilePort(uri);
    }
  }

  lemma FilesInList()
    ensures "/static/array.js" in STATIC_FILES && "/static/recorder-v2.js" in STATIC_FILES
    ensures "/static/recorder.js" in STATIC_FILES && "/static/surveys.js" in STATIC_FILES
  {
    assert STATIC_FILES[0] == "/static/array.js" && STATIC_FILES[1] == "/static/recorder-v2.js";
    assert STATIC_FILES[2] == "/static/recorder.js" && STATIC_FILES[3] == "/static/surveys.js";
  }

  lemma HttpShape(paths: seq<string>)
    ensures forall l :: l in HttpServer(paths) <==>
              || l in PublicLocations(paths, "http") || l == Location(Plain, "/", Protected)
              || l == Location(Plain, ACME, Challenge)
  {
  }

  lemma HttpsShape(paths: seq<string>)
    ensures forall l :: l in HttpsServer(paths) <==>
              l in PublicLocations(paths, "https") || l == Location(Plain, "/", Protected)
    ensures Location(Plain, ACME, Challenge) !in HttpsServer(paths)
  {
  }

  /** On the HTTP server a URI is open if and only if it is to be public; the rest is ACME's or protected. */
  lemma HttpOpensExactly(uri: string)
    requires uri != "" && uri[0] == '/'
    ensures Pick(HttpServer(PUBLIC_CAPTURE_PATHS), uri).Some?
    ensures Pick(HttpServer(PUBLIC_CAPTURE_PATHS), uri).value.answer ==
            if PublicUri(uri) then Forward(PortFor(uri), "http")
            else if StartsWith(uri, "/.well-known/acme-challenge/") then Challenge else Protected
  {
    var paths := PUBLIC_CAPTURE_PATHS;
    ListFacts();
    PublicIffCovered(uri);
    if PublicUri(uri) { PublicPort(uri); }
    HttpShape(paths);
    ListOpens(paths, BASES, STATIC_FILES, uri);
    OpenIffListed(paths, "http", HttpServer(paths), uri);
    if IsOpen(HttpServer(paths), uri) {
      PortOfOpen(paths, BASES, STATIC_FILES, "http", HttpServer(paths), uri);
    }
  }

  /** The HTTPS server opens the same URIs, on the same ports, and protects every other one. */
  lemma HttpsOpensExactly(uri: string)
    requires uri != "" && uri[0] == '/'
    ensures Pick(HttpsServer(PUBLIC_CAPTURE_PATHS), uri).Some?
    ensures Pick(HttpsServer(PUBLIC_CAPTURE_PATHS), uri).value.answer ==
            if PublicUri(uri) then Forward(PortFor(uri), "https") else Protected
  {
    var paths := PUBLIC_CAPTURE_PATHS;
    ListFacts();
    PublicIffCovered(uri);
    if PublicUri(uri) { PublicPort(uri); }
    HttpsShape(paths);
    ListOpens(paths, BASES, STATIC_FILES, uri);
    OpenIffListed(paths, "https", HttpsServer(paths), uri);
    if IsOpen(HttpsServer(paths), uri) {
      PortOfOpen(paths, BASES, STATIC_FILES, "https", HttpsServer(paths), uri);
    }
  }

  /** Port 80 of the HTTPS configuration forwards nothing. */
  lemma RedirectServerForwardsNothing(uri: string)
    requires uri != "" && uri[0] == '/'
    ensures Pick(REDIRECT_SERVER, uri).Some?
    ensures Pick(REDIRECT_SERVER, uri).value.answer ==
            if StartsWith(uri, "/.well-known/acme-challenge/") then Challenge else ToHttps
  {
    PickMeans(REDIRECT_SERVER, uri);
    AcmeSecond();
    assert REDIRECT_SERVER[0] in REDIRECT_SERVER && REDIRECT_SERVER[1] in REDIRECT_SERVER;
    assert Matches(REDIRECT_SERVER[1], uri);
  }

  /** No URI matches two `^~` locations of either configuration. */
  lemma NoTwoPreferred(proto: string, uri: string, l: Location, m: Location)
    requires l in PublicLocations(PUBLIC_CAPTURE_PATHS, proto) && m in PublicLocations(PUBLIC_CAPTURE_PATHS, proto)
    requires l.kind.Preferred? && m.kind.Preferred? && Matches(l, uri) && Matches(m, uri)
    ensures l == m
  {
    ListFacts();
    PreferredDisjoint(PUBLIC_CAPTURE_PATHS, BASES, STATIC_FILES, proto, uri, l, m);
  }
}
