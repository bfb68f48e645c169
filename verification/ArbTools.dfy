/**
 The three tools over the mobile app's ARB files: backfilling missing keys with marked English text,
 listing missing keys, and the release gate that measures coverage.
 */
module ArbTools {
  import opened Prelude
  import opened Json

  type Arb = map<string, Json>

  const EN_FILE := "app_en.arb"
  const MARK := "[EN] "

  // ------------------------------------------------------------------------------------------
  // One English file and one locale file.

  predicate IsMeta(key: string) {
    key != "" && key[0] == '@'
  }

  function TranslatableKeys(arb: Arb): set<string> {
    set k | k in arb && !IsMeta(k)
  }

  function Missing(en: Arb, locale: Arb): set<string> {
    TranslatableKeys(en) - TranslatableKeys(locale)
  }

  function PrefixValue(v: Json): Json {
    if v.Str? then Str(MARK + v.s) else v
  }

  /** The metadata keys copied along with the given keys. */
  function Metas(en: Arb, locale: Arb, keys: set<string>): set<string> {
    set m | m in en && IsMeta(m) && m[1..] in keys && m !in locale
  }

  /** The locale file with entries added for the given keys. */
  function FilledWith(en: Arb, locale: Arb, keys: set<string>): Arb
    requires keys <= Missing(en, locale)
  {
    map k | k in locale.Keys + keys + Metas(en, locale, keys) ::
      if k in locale then locale[k] else if k in keys then PrefixValue(en[k]) else en[k]
  }

  function Filled(en: Arb, locale: Arb): Arb {
    FilledWith(en, locale, Missing(en, locale))
  }

  lemma MetaKey(k: string)
    ensures IsMeta("@" + k) && ("@" + k)[1..] == k
    ensures forall m :: IsMeta(m) && m[1..] == k ==> m == "@" + k
  {
    forall m | IsMeta(m) && m[1..] == k ensures m == "@" + k { assert m == ['@'] + m[1..]; }
  }

  lemma MetasOfOneMore(en: Arb, locale: Arb, keys: set<string>, key: string)
    ensures var m := "@" + key;
            Metas(en, locale, keys + {key}) == Metas(en, locale, keys) + if m in en && m !in locale then {m} else {}
  {
    MetaKey(key);
  }

  /** A key on its own, then its metadata. */
  function AddEntry(en: Arb, localeArb: Arb, key: string): Arb
    requires key in en
  {
    var added := localeArb[key := PrefixValue(en[key])];
    var metaKey := "@" + key;
    if metaKey in en && metaKey !in added then added[metaKey := en[metaKey]] else added
  }

  /** One turn of the loop; which key comes next makes no difference. */
  lemma FillOneMore(en: Arb, locale: Arb, keys: set<string>, key: string)
    requires keys <= Missing(en, locale) && key in Missing(en, locale) && key !in keys
    ensures FilledWith(en, locale, keys + {key}) == AddEntry(en, FilledWith(en, locale, keys), key)
  {
    var before, after, metaKey := FilledWith(en, locale, keys), FilledWith(en, locale, keys + {key}), "@" + key;
    MetaKey(key);
    MetasOfOneMore(en, locale, keys, key);
    assert metaKey in before[key := PrefixValue(en[key])] <==> metaKey in locale;
    assert after.Keys == AddEntry(en, before, key).Keys;
    forall k | k in after ensures after[k] == AddEntry(en, before, key)[k] {
    }
  }

  lemma FillNext(en: Arb, locale: Arb, todo: set<string>, key: string)
    requires todo <= Missing(en, locale) && key in todo
    ensures key in en
    ensures FilledWith(en, locale, Missing(en, locale) - (todo - {key}))
         == AddEntry(en, FilledWith(en, locale, Missing(en, locale) - todo), key)
  {
    FillOneMore(en, locale, Missing(en, locale) - todo, key);
    assert Missing(en, locale) - (todo - {key}) == Missing(en, locale) - todo + {key};
  }

  /** The entry of one key and its metadata, added in place. */
  method Add(en: Arb, localeArb: Arb, key: string) returns (added: Arb)
    requires key in en
    ensures added == AddEntry(en, localeArb, key)
  {
    added := localeArb[key := PrefixValue(en[key])];
    var metaKey := "@" + key;
    if metaKey in en && metaKey !in added {
      added := added[metaKey := en[metaKey]];
    }
  }

  method Fill(en: Arb, locale: Arb) returns (localeArb: Arb)
    ensures localeArb == Filled(en, locale)
  {
    localeArb := locale;
    var missing := Missing(en, locale);
    var todo := missing;
    FillNone(en, locale);
    NoneLess(missing);
    while todo != {}
      invariant todo <= missing
      invariant localeArb == FilledWith(en, locale, missing - todo)
      decreases todo
    {
      var key :| key in todo;
      FillNext(en, locale, todo, key);
      localeArb := Add(en, localeArb, key);
      todo := todo - {key};
    }
    assert missing - {} == missing;
  }

  lemma NoneLess(s: set<string>)
    ensures s - s == {}
  {
  }

  lemma FillNone(en: Arb, locale: Arb)
    ensures FilledWith(en, locale, {}) == locale
  {
  }

  /** Existing entries stay; what is added is exactly the marked English text of missing keys and their metadata. */
  lemma FillAddsOnly(en: Arb, locale: Arb, k: string)
    ensures var filled := Filled(en, locale);
            && (k in locale ==> k in filled && filled[k] == locale[k])
            && (k !in locale && (k == "" || k[0] != '@') ==>
                  (k in filled <==> k in en)
                  && (k in en ==> filled[k] == if en[k].Str? then Str("[EN] " + en[k].s) else en[k]))
            && (k !in locale && k != "" && k[0] == '@' ==>
                  (k in filled <==>
                    k in en && k[1..] in en && k[1..] !in locale && (k[1..] == "" || k[1..][0] != '@'))
                  && (k in filled ==> filled[k] == en[k]))
  {
  }

  lemma NothingMissingAfterFill(en: Arb, locale: Arb)
    ensures Missing(en, Filled(en, locale)) == {}
  {
  }

  lemma FillOfComplete(en: Arb, locale: Arb)
    requires Missing(en, locale) == {}
    ensures Filled(en, locale) == locale
  {
    FillNone(en, locale);
  }

  // ------------------------------------------------------------------------------------------
  // What the coverage tool sees: only string values.

  function Strings(arb: Arb): map<string, string> {
    map k | k in arb && !IsMeta(k) && arb[k].Str? :: arb[k].s
  }

  function MissingStrings(en: Arb, locale: Arb): set<string> {
    Strings(en).Keys - Strings(locale).Keys
  }

  predicate VerbatimCopy(en: Arb, locale: Arb, k: string) {
    k in Strings(en) && k in Strings(locale) && Strings(en)[k] == Strings(locale)[k]
    && ' ' in Strings(en)[k] && |Strings(en)[k]| > 10
  }

  function Untranslated(en: Arb, locale: Arb): set<string> {
    set k | k in Strings(en) && VerbatimCopy(en, locale, k)
  }

  /** Backfilling neither adds nor removes verbatim copies. */
  lemma UntranslatedUnchanged(en: Arb, locale: Arb)
    ensures Untranslated(en, Filled(en, locale)) == Untranslated(en, locale)
  {
    forall k | k in Strings(en) ensures VerbatimCopy(en, Filled(en, locale), k) <==> VerbatimCopy(en, locale, k) {
      FillAddsOnly(en, locale, k);
      if k !in locale {
        assert |Strings(Filled(en, locale))[k]| > |Strings(en)[k]|;
      }
    }
  }

  /** Values the locale already has under English string keys are strings. */
  predicate StringsWhereEnglishHas(en: Arb, locale: Arb) {
    forall k :: k in Strings(en) && k in locale ==> locale[k].Str?
  }

  /** After backfilling the coverage tool misses exactly the keys whose existing values are no strings. */
  lemma StillMissing(en: Arb, locale: Arb)
    ensures MissingStrings(en, Filled(en, locale)) == set k | k in Strings(en) && k in locale && !locale[k].Str?
  {
    forall k | k in Strings(en)
      ensures k in Strings(Filled(en, locale)) <==> !(k in locale && !locale[k].Str?)
    {
      FillAddsOnly(en, locale, k);
    }
  }

  lemma CoveredIff(en: Arb, locale: Arb)
    ensures MissingStrings(en, Filled(en, locale)) == {} <==> StringsWhereEnglishHas(en, locale)
  {
    StillMissing(en, locale);
    if !StringsWhereEnglishHas(en, locale) {
      var k :| k in Strings(en) && k in locale && !locale[k].Str?;
      assert k in MissingStrings(en, Filled(en, locale));
    }
  }

  // ------------------------------------------------------------------------------------------
  // Directories.

  /** `s.replace(needle, "")` */
  function RemoveAll(s: string, needle: string): string
    requires needle != ""
  {
    if s == "" then ""
    else if StartsWith(s, needle) then RemoveAll(s[|needle|..], needle)
    else [s[0]] + RemoveAll(s[1..], needle)
  }

  predicate IsLocaleFile(name: string) {
    EndsWith(name, ".arb") && name != EN_FILE
  }

  function LocaleOf(name: string): string {
    RemoveAll(RemoveAll(name, "app_"), ".arb")
  }

  /** A listing names every file once. */
  ghost predicate Lists(names: seq<string>, files: map<string, Arb>) {
    && (forall i, j :: 0 <= i < j < |names| ==> names[i] != names[j])
    && (forall i :: 0 <= i < |names| ==> names[i] in files)
    && (forall n :: n in files ==> n in names)
  }

  /** Every locale file with its missing entries filled in. */
  function Backfilled(files: map<string, Arb>): map<string, Arb>
    requires EN_FILE in files
  {
    map n | n in files :: FileAfter(files, n)
  }

  /** A file after the backfill. */
  function FileAfter(files: map<string, Arb>, name: string): Arb
    requires EN_FILE in files && name in files
  {
    if IsLocaleFile(name) then Filled(files[EN_FILE], files[name]) else files[name]
  }

  /** The state after the first n files of a listing. */
  ghost function BackfilledUpTo(files: map<string, Arb>, names: seq<string>, n: nat): map<string, Arb>
    requires EN_FILE in files && n <= |names|
  {
    map f | f in files :: if f in names[..n] then FileAfter(files, f) else files[f]
  }

  function MissingIn(files: map<string, Arb>, name: string): set<string>
    requires EN_FILE in files && name in files
  {
    Lacking(name, files[EN_FILE], files[name])
  }

  /** What a file of this name and content lacks; files that are no locale's lack nothing. */
  function Lacking(name: string, en: Arb, arb: Arb): set<string> {
    if IsLocaleFile(name) then Missing(en, arb) else {}
  }

  /** The number of missing keys over the first n files of a listing. */
  ghost function TotalMissing(files: map<string, Arb>, names: seq<string>, n: nat): nat
    requires EN_FILE in files && n <= |names| && forall i :: 0 <= i < |names| ==> names[i] in files
  {
    if n == 0 then 0 else TotalMissing(files, names, n - 1) + |MissingIn(files, names[n - 1])|
  }

  function MissingEntries(files: map<string, Arb>, name: string): Arb
    requires EN_FILE in files && name in files
  {
    Entries(files[EN_FILE], MissingIn(files, name))
  }

  function Entries(en: Arb, keys: set<string>): Arb
    requires keys <= en.Keys
  {
    map k | k in keys :: en[k]
  }

  /** The report of missing entries over the first n files of a listing. */
  ghost function Report(files: map<string, Arb>, names: seq<string>, n: nat): map<string, Arb>
    requires EN_FILE in files && n <= |names| && forall i :: 0 <= i < |names| ==> names[i] in files
  {
    if n == 0 then map[]
    else
      var before := Report(files, names, n - 1);
      if MissingIn(files, names[n - 1]) != {}
      then before[LocaleOf(names[n - 1]) := MissingEntries(files, names[n - 1])]
      else before
  }

  datatype Row = Row(locale: string, reviewed: bool, covered: int, missing: nat, untranslated: nat)

  function FileOf(locale: string): string {
    "app_" + locale + ".arb"
  }

  /** The row the coverage tool writes for a locale other than English. */
  function RowFor(files: map<string, Arb>, locale: string, selectable: set<string>): Row
    requires EN_FILE in files
  {
    var total := |Strings(files[EN_FILE])|;
    if FileOf(locale) !in files then Row(locale, locale in selectable, 0, total, 0)
    else
      var missing := |MissingStrings(files[EN_FILE], files[FileOf(locale)])|;
      Row(locale, locale in selectable, total - missing, missing, |Untranslated(files[EN_FILE], files[FileOf(locale)])|)
  }

  ghost function Rows(files: map<string, Arb>, active: seq<string>, selectable: set<string>, n: nat): seq<Row>
    requires EN_FILE in files && n <= |active|
  {
    if n == 0 then []
    else
      Rows(files, active, selectable, n - 1)
      + if active[n - 1] == "en" then [] else [RowFor(files, active[n - 1], selectable)]
  }

  predicate PolicyAccepted(active: seq<string>, selectable: set<string>) {
    && (forall i, j :: 0 <= i < j < |active| ==> active[i] != active[j])
    && "en" in active && selectable != {} && forall l :: l in selectable ==> l in active
  }

  /** A file whose name the coverage tool takes for a locale's. */
  predicate IsInventoryFile(name: string) {
    |name| >= 8 && StartsWith(name, "app_") && EndsWith(name, ".arb") && name != EN_FILE
  }

  function InventoryLocale(name: string): string
    requires IsInventoryFile(name)
  {
    RemoveAll(name[..|name| - 4], "app_")
  }

  /** Every inventory file belongs to an active locale and every active locale has its file. */
  predicate InventoryMatches(files: map<string, Arb>, active: seq<string>) {
    && (forall n :: n in files && IsInventoryFile(n) ==> InventoryLocale(n) in active)
    && (forall i :: 0 <= i < |active| ==> active[i] == "en" || FileOf(active[i]) in files)
  }

  predicate ReviewedComplete(files: map<string, Arb>, active: seq<string>, selectable: set<string>)
    requires EN_FILE in files
  {
    forall i :: 0 <= i < |active| ==>
      (active[i] != "en" && active[i] in selectable && FileOf(active[i]) in files ==>
        MissingStrings(files[EN_FILE], files[FileOf(active[i])]) == {})
  }

  lemma FirstFile(files: map<string, Arb>, names: seq<string>)
    requires EN_FILE in files
    ensures BackfilledUpTo(files, names, 0) == files
  {
  }

  /** A file that lacks nothing is left as it is. */
  lemma CompleteFile(files: map<string, Arb>, name: string)
    requires EN_FILE in files && name in files && MissingIn(files, name) == {}
    ensures FileAfter(files, name) == files[name]
  {
    if IsLocaleFile(name) {
      FillOfComplete(files[EN_FILE], files[name]);
    }
  }

  /** What the loop over the listing does to the file at position i. */
  lemma NextFile(files: map<string, Arb>, names: seq<string>, i: nat)
    requires EN_FILE in files && Lists(names, files) && i < |names|
    ensures var f, before := names[i], BackfilledUpTo(files, names, i);
            && f in before && before[f] == files[f]
            && BackfilledUpTo(files, names, i + 1) ==
               if MissingIn(files, f) == {} then before else before[f := FileAfter(files, f)]
  {
    var f, before, after := names[i], BackfilledUpTo(files, names, i), BackfilledUpTo(files, names, i + 1);
    assert f !in names[..i] && names[..i + 1] == names[..i] + [f];
    assert after == before[f := FileAfter(files, f)];
    if MissingIn(files, f) == {} {
      CompleteFile(files, f);
    }
  }

  lemma LackingIsLocale(files: map<string, Arb>, name: string)
    requires EN_FILE in files && name in files && MissingIn(files, name) != {}
    ensures FileAfter(files, name) == Filled(files[EN_FILE], files[name])
  {
  }

  lemma LastFile(files: map<string, Arb>, names: seq<string>)
    requires EN_FILE in files && Lists(names, files)
    ensures BackfilledUpTo(files, names, |names|) == Backfilled(files)
  {
    assert names[..|names|] == names;
  }

  /** What the diff tool's loop does for the file at position i. */
  lemma ReportNext(files: map<string, Arb>, names: seq<string>, i: nat)
    requires EN_FILE in files && Lists(names, files) && i < |names|
    ensures var f, before := names[i], Report(files, names, i);
            && MissingIn(files, f) <= files[EN_FILE].Keys
            && Report(files, names, i + 1) ==
               (if MissingIn(files, f) == {} then before
                else before[LocaleOf(f) := Entries(files[EN_FILE], MissingIn(files, f))])
  {
  }

  lemma TotalNext(files: map<string, Arb>, names: seq<string>, i: nat)
    requires EN_FILE in files && Lists(names, files) && i < |names|
    ensures TotalMissing(files, names, i + 1) == TotalMissing(files, names, i) + |MissingIn(files, names[i])|
    ensures MissingIn(files, names[i]) == {} ==> TotalMissing(files, names, i + 1) == TotalMissing(files, names, i)
  {
    NoneLess(MissingIn(files, names[i]));
  }

  /** The diff tool's report and total after the first i files of a listing. */
  ghost predicate Counted(files: map<string, Arb>, names: seq<string>, i: nat, result: map<string, Arb>, total: nat)
    requires EN_FILE in files && Lists(names, files) && i <= |names|
  {
    result == Report(files, names, i) && total == TotalMissing(files, names, i)
  }

  lemma CountedNext(files: map<string, Arb>, names: seq<string>, i: nat, result: map<string, Arb>, total: nat)
    requires EN_FILE in files && Lists(names, files) && i < |names| && Counted(files, names, i, result, total)
    ensures var en, missing := files[EN_FILE], Lacking(names[i], files[EN_FILE], files[names[i]]);
            && missing <= en.Keys
            && (missing == {} ==> Counted(files, names, i + 1, result, total))
            && (missing != {} ==> Counted(files, names, i + 1, result[LocaleOf(names[i]) := Entries(en, missing)],
                                          total + |missing|))
  {
    ReportNext(files, names, i);
    TotalNext(files, names, i);
  }

  /** A locale that makes the gate fail. */
  predicate Fails(files: map<string, Arb>, locale: string, selectable: set<string>)
    requires EN_FILE in files
  {
    locale != "en" &&
    (FileOf(locale) !in files || (locale in selectable && MissingStrings(files[EN_FILE], files[FileOf(locale)]) != {}))
  }

  ghost predicate SomeFails(files: map<string, Arb>, active: seq<string>, selectable: set<string>, n: nat)
    requires EN_FILE in files && n <= |active|
  {
    n > 0 && (SomeFails(files, active, selectable, n - 1) || Fails(files, active[n - 1], selectable))
  }

  lemma {:induction false} SomeFailsMeans(files: map<string, Arb>, active: seq<string>, selectable: set<string>, n: nat)
    requires EN_FILE in files && n <= |active|
    ensures SomeFails(files, active, selectable, n) <==> exists i :: 0 <= i < n && Fails(files, active[i], selectable)
  {
    if n > 0 { SomeFailsMeans(files, active, selectable, n - 1); }
  }

  predicate UnexpectedFile(files: map<string, Arb>, active: seq<string>) {
    exists n :: n in files && IsInventoryFile(n) && InventoryLocale(n) !in active
  }

  lemma GateByLocales(files: map<string, Arb>, active: seq<string>, selectable: set<string>)
    requires EN_FILE in files
    ensures InventoryMatches(files, active) && ReviewedComplete(files, active, selectable) <==>
            !UnexpectedFile(files, active) && !SomeFails(files, active, selectable, |active|)
  {
    SomeFailsMeans(files, active, selectable, |active|);
  }

  lemma UnexpectedLocales(files: map<string, Arb>, active: seq<string>, locales: set<string>)
    requires locales == set n | n in files && IsInventoryFile(n) :: InventoryLocale(n)
    ensures (exists l :: l in locales && l !in active) <==> UnexpectedFile(files, active)
  {
    if UnexpectedFile(files, active) {
      var n :| n in files && IsInventoryFile(n) && InventoryLocale(n) !in active;
      assert InventoryLocale(n) in locales;
    }
  }

  // ------------------------------------------------------------------------------------------
  // The tools.

  class ArbDirectory {
    var files: map<string, Arb>

    constructor (initial: map<string, Arb>)
      ensures files == initial
    {
      files := initial;
    }

    method Backfill(apply: bool, names: seq<string>) returns (ok: bool, totalAdded: nat)
      requires Lists(names, files)
      modifies this
      ensures ok <==> EN_FILE in old(files)
      ensures files == if ok && apply then Backfilled(old(files)) else old(files)
      ensures totalAdded == if ok then TotalMissing(old(files), names, |names|) else 0
    {
      totalAdded := 0;
      if EN_FILE !in files { return false, 0; }
      var enArb := files[EN_FILE];
      ghost var was := files;
      FirstFile(was, names);
      for i := 0 to |names|
        invariant files == if apply then BackfilledUpTo(was, names, i) else was
        invariant totalAdded == TotalMissing(was, names, i)
      {
        var filename := names[i];
        NextFile(was, names, i);
        TotalNext(was, names, i);
        var localeArb := files[filename];
        assert localeArb == was[filename];
        var missing := Lacking(filename, enArb, localeArb);
        assert missing == MissingIn(was, filename);
        assert TotalMissing(was, names, i + 1) == totalAdded + |missing|;
        if missing != {} {
          totalAdded := totalAdded + |missing|;
          if apply {
            LackingIsLocale(was, filename);
            var filled := Fill(enArb, localeArb);
            files := files[filename := filled];
          }
        }
      }
      LastFile(was, names);
      return true, totalAdded;
    }

    method Diff(names: seq<string>) returns (ok: bool, result: map<string, Arb>, totalMissing: nat)
      requires Lists(names, files)
      ensures ok <==> EN_FILE in files
      ensures result == if ok then Report(files, names, |names|) else map[]
      ensures totalMissing == if ok then TotalMissing(files, names, |names|) else 0
    {
      result, totalMissing := map[], 0;
      if EN_FILE !in files { return false, result, 0; }
      ghost var all := files;
      var enArb := files[EN_FILE];
      for i := 0 to |names|
        invariant Counted(all, names, i, result, totalMissing)
      {
        CountedNext(all, names, i, result, totalMissing);
        var missing := Lacking(names[i], enArb, files[names[i]]);
        if missing != {} {
          result := result[LocaleOf(names[i]) := Entries(enArb, missing)];
          totalMissing := totalMissing + |missing|;
        }
      }
      ok := true;
    }

    /** `code` is the exit status. */
    method CheckCoverage(active: seq<string>, selectable: set<string>) returns (code: int, results: seq<Row>)
      ensures code == 0 || code == 1
      ensures code == 0 <==>
              && PolicyAccepted(active, selectable) && EN_FILE in files
              && InventoryMatches(files, active) && ReviewedComplete(files, active, selectable)
      ensures results == if PolicyAccepted(active, selectable) && EN_FILE in files
                         then Rows(files, active, selectable, |active|) else []
    {
      results := [];
      if !PolicyAccepted(active, selectable) || EN_FILE !in files { return 1, []; }
      ghost var all := files;
      var arbLocales := set n | n in files && IsInventoryFile(n) :: InventoryLocale(n);
      var hasErrors := exists l :: l in arbLocales && l !in active;
      UnexpectedLocales(all, active, arbLocales);
      for i := 0 to |active|
        invariant results == Rows(all, active, selectable, i)
        invariant hasErrors <==> UnexpectedFile(all, active) || SomeFails(all, active, selectable, i)
      {
        var locale := active[i];
        if locale != "en" {
          var row, fails := MeasureLocale(files, locale, selectable);
          results := results + [row];
          if fails { hasErrors := true; }
        }
      }
      GateByLocales(all, active, selectable);
      code := if hasErrors then 1 else 0;
    }
  }

  /** One turn of the coverage loop: the row, and whether it makes the gate fail. */
  method MeasureLocale(files: map<string, Arb>, locale: string, selectable: set<string>) returns (row: Row, fails: bool)
    requires EN_FILE in files && locale != "en"
    ensures row == RowFor(files, locale, selectable)
    ensures fails == Fails(files, locale, selectable)
  {
    var enKeys := Strings(files[EN_FILE]);
    var reviewed := locale in selectable;
    if FileOf(locale) !in files {
      return Row(locale, reviewed, 0, |enKeys|, 0), true;
    }
    var localeArb := files[FileOf(locale)];
    var missing := enKeys.Keys - Strings(localeArb).Keys;
    var untranslated := CountUntranslated(files[EN_FILE], localeArb);
    row := Row(locale, reviewed, |enKeys| - |missing|, |missing|, untranslated);
    fails := reviewed && missing != {};
  }

  method CountUntranslated(en: Arb, locale: Arb) returns (untranslated: nat)
    ensures untranslated == |Untranslated(en, locale)|
  {
    var enKeys, localeKeys := Strings(en), Strings(locale);
    untranslated := 0;
    var todo := enKeys.Keys * localeKeys.Keys;
    ghost var counted: set<string> := {};
    while todo != {}
      invariant todo <= enKeys.Keys * localeKeys.Keys
      invariant counted == (set k | k in Untranslated(en, locale) && k !in todo)
      invariant untranslated == |counted|
      decreases |todo|
    {
      var key :| key in todo;
      if enKeys[key] == localeKeys[key] && ' ' in enKeys[key] && |enKeys[key]| > 10 {
        untranslated := untranslated + 1;
        counted := counted + {key};
      }
      todo := todo - {key};
    }
    assert counted == Untranslated(en, locale);
  }

  // ------------------------------------------------------------------------------------------
  // The tools together.

  /** The total does not depend on the order of the listing: it counts the missing (file, key) pairs. */
  ghost function MissingPairs(files: map<string, Arb>, names: seq<string>, n: nat): set<(string, string)>
    requires EN_FILE in files && n <= |names| && forall i :: 0 <= i < |names| ==> names[i] in files
  {
    set f, k | f in names[..n] && k in MissingIn(files, f) :: (f, k)
  }

  lemma {:induction false} PairsOfOneFile(name: string, keys: set<string>)
    ensures |PairsOf(name, keys)| == |keys|
    decreases |keys|
  {
    if keys == {} {
      assert PairsOf(name, keys) == {};
    } else {
      var key :| key in keys;
      PairsOfOneFile(name, keys - {key});
      assert PairsOf(name, keys) == PairsOf(name, keys - {key}) + {(name, key)};
    }
  }

  lemma PairsOfOneMore(files: map<string, Arb>, names: seq<string>, n: nat)
    requires EN_FILE in files && Lists(names, files) && 0 < n <= |names|
    ensures var before := MissingPairs(files, names, n - 1);
            var added := PairsOf(names[n - 1], MissingIn(files, names[n - 1]));
            MissingPairs(files, names, n) == before + added && before !! added
  {
    var f := names[n - 1];
    assert names[..n] == names[..n - 1] + [f] && f !in names[..n - 1];
  }

  function PairsOf(name: string, keys: set<string>): set<(string, string)> {
    set k | k in keys :: (name, k)
  }

  lemma {:induction false} TotalCountsPairs(files: map<string, Arb>, names: seq<string>, n: nat)
    requires EN_FILE in files && Lists(names, files) && n <= |names|
    ensures TotalMissing(files, names, n) == |MissingPairs(files, names, n)|
    decreases n
  {
    if n == 0 {
      assert MissingPairs(files, names, 0) == {};
    } else {
      var before, added := MissingPairs(files, names, n - 1), PairsOf(names[n - 1], MissingIn(files, names[n - 1]));
      TotalCountsPairs(files, names, n - 1);
      PairsOfOneMore(files, names, n);
      PairsOfOneFile(names[n - 1], MissingIn(files, names[n - 1]));
      assert |before + added| == |before| + |added|;
    }
  }

  /** The listing's total is zero exactly when no locale file lacks a key. */
  lemma {:induction false} NothingMissingIff(files: map<string, Arb>, names: seq<string>, n: nat)
    requires EN_FILE in files && n <= |names| && forall i :: 0 <= i < |names| ==> names[i] in files
    ensures TotalMissing(files, names, n) == 0 <==> forall i :: 0 <= i < n ==> MissingIn(files, names[i]) == {}
    decreases n
  {
    if n > 0 {
      NothingMissingIff(files, names, n - 1);
      var last := MissingIn(files, names[n - 1]);
      assert |last| == 0 <==> last == {};
    }
  }

  /** The report is empty exactly when the total is zero. */
  lemma {:induction false} ReportEmptyIff(files: map<string, Arb>, names: seq<string>, n: nat)
    requires EN_FILE in files && n <= |names| && forall i :: 0 <= i < |names| ==> names[i] in files
    ensures Report(files, names, n) == map[] <==> TotalMissing(files, names, n) == 0
    decreases n
  {
    if n > 0 {
      ReportEmptyIff(files, names, n - 1);
      var last := MissingIn(files, names[n - 1]);
      if last == {} {
        assert Report(files, names, n) == Report(files, names, n - 1);
      } else {
        assert |last| > 0;
        assert LocaleOf(names[n - 1]) in Report(files, names, n);
      }
    }
  }

  /** A locale's entry in the report belongs to the last incomplete file of that locale. */
  lemma {:induction false} ReportMeans(files: map<string, Arb>, names: seq<string>, n: nat, i: nat)
    requires EN_FILE in files && n <= |names| && forall j :: 0 <= j < |names| ==> names[j] in files
    requires i < n && MissingIn(files, names[i]) != {}
    requires forall j :: i < j < n && LocaleOf(names[j]) == LocaleOf(names[i]) ==> MissingIn(files, names[j]) == {}
    ensures LocaleOf(names[i]) in Report(files, names, n)
    ensures Report(files, names, n)[LocaleOf(names[i])] == MissingEntries(files, names[i])
    decreases n
  {
    if i < n - 1 {
      ReportMeans(files, names, n - 1, i);
    }
  }

  /** After an applied backfill the diff tool reports nothing. */
  lemma DiffEmptyAfterBackfill(files: map<string, Arb>, names: seq<string>)
    requires EN_FILE in files && Lists(names, files)
    ensures var after := Backfilled(files);
            EN_FILE in after && Lists(names, after)
            && Report(after, names, |names|) == map[] && TotalMissing(after, names, |names|) == 0
  {
    var after := Backfilled(files);
    assert after.Keys == files.Keys && after[EN_FILE] == files[EN_FILE];
    forall i | 0 <= i < |names| ensures MissingIn(after, names[i]) == {} {
      NothingMissingAfterFill(files[EN_FILE], files[names[i]]);
    }
    NothingMissingIff(after, names, |names|);
    ReportEmptyIff(after, names, |names|);
  }

  /** Backfilling once is enough. */
  lemma BackfillIdempotent(files: map<string, Arb>)
    requires EN_FILE in files
    ensures EN_FILE in Backfilled(files) && Backfilled(Backfilled(files)) == Backfilled(files)
  {
    var after := Backfilled(files);
    assert after[EN_FILE] == files[EN_FILE];
    forall n | n in files ensures Backfilled(after)[n] == after[n] {
      NothingMissingAfterFill(files[EN_FILE], files[n]);
      FillOfComplete(files[EN_FILE], Filled(files[EN_FILE], files[n]));
    }
  }

  /** A locale other than English has a locale file of its own. */
  lemma FileOfLocale(locale: string)
    ensures EndsWith(FileOf(locale), ".arb")
    ensures FileOf(locale) == EN_FILE ==> locale == "en"
  {
    var f := FileOf(locale);
    assert f[4..|f| - 4] == locale;
    assert EN_FILE[4..|EN_FILE| - 4] == "en";
  }

  /**
   What backfilling does to the coverage table: no untranslated count moves, and a locale with a file is
   left with exactly its existing non-string values missing.
   */
  lemma RowAfterBackfill(files: map<string, Arb>, locale: string, selectable: set<string>)
    requires EN_FILE in files && locale != "en"
    ensures EN_FILE in Backfilled(files)
    ensures var before, after := RowFor(files, locale, selectable), RowFor(Backfilled(files), locale, selectable);
            && after.untranslated == before.untranslated && after.covered >= before.covered
            && (FileOf(locale) in files ==>
                  (after.missing == 0 <==> StringsWhereEnglishHas(files[EN_FILE], files[FileOf(locale)])))
  {
    FileOfLocale(locale);
    if FileOf(locale) in files {
      var en, loc := files[EN_FILE], files[FileOf(locale)];
      UntranslatedUnchanged(en, loc);
      CoveredIff(en, loc);
      StillMissing(en, loc);
      assert MissingStrings(en, Filled(en, loc)) <= MissingStrings(en, loc);
      SubsetSize(MissingStrings(en, Filled(en, loc)), MissingStrings(en, loc));
    }
  }

  /**
   The release gate after a backfill: it passes if and only if the policy and the inventory are in order and
   every reviewed locale's existing values under English string keys are strings.
   */
  lemma GateAfterBackfillIff(files: map<string, Arb>, active: seq<string>, selectable: set<string>)
    requires EN_FILE in files && InventoryMatches(files, active)
    ensures EN_FILE in Backfilled(files) && InventoryMatches(Backfilled(files), active)
    ensures ReviewedComplete(Backfilled(files), active, selectable) <==>
            forall l :: l in active && l in selectable && l != "en" ==>
              StringsWhereEnglishHas(files[EN_FILE], files[FileOf(l)])
  {
    var after := Backfilled(files);
    assert after.Keys == files.Keys && after[EN_FILE] == files[EN_FILE];
    forall l | l in active && l != "en"
      ensures MissingStrings(after[EN_FILE], after[FileOf(l)]) == {} <==>
                StringsWhereEnglishHas(files[EN_FILE], files[FileOf(l)])
    {
      FileOfLocale(l);
      CoveredIff(files[EN_FILE], files[FileOf(l)]);
    }
  }
}
