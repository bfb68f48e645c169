/** What the tools over the ARB files look at, in terms of file names, keys and values. */
module ArbMeaning {
  import opened Prelude
  import opened Json
  import opened ArbTools

  // ------------------------------------------------------------------------------------------
  // File names.

  lemma {:induction false} RemoveNone(s: string, needle: string)
    requires needle != ""
    ensures |RemoveAll(s, needle)| <= |s|
    ensures RemoveAll(s, needle) == s <==> !Occurs(needle, s)
    ensures Occurs(needle, s) ==> |RemoveAll(s, needle)| < |s|
    decreases |s|
  {
    if s == "" {
    } else if StartsWith(s, needle) {
      RemoveNone(s[|needle|..], needle);
      assert OccursAt(needle, s, 0);
    } else {
      RemoveNone(s[1..], needle);
      assert s == [s[0]] + s[1..];
      OccursLater(s, needle);
    }
  }

  lemma OccursLater(s: string, needle: string)
    requires s != "" && needle != "" && !StartsWith(s, needle)
    ensures Occurs(needle, s) <==> Occurs(needle, s[1..])
  {
    assert OccursAt(needle, s, 0) <==> StartsWith(s, needle);
    if Occurs(needle, s) {
      var i :| 0 <= i <= |s| && OccursAt(needle, s, i);
      assert s[1..][i - 1..i - 1 + |needle|] == s[i..i + |needle|];
      assert OccursAt(needle, s[1..], i - 1);
    }
    if Occurs(needle, s[1..]) {
      var i :| 0 <= i <= |s[1..]| && OccursAt(needle, s[1..], i);
      assert s[i + 1..i + 1 + |needle|] == s[1..][i..i + |needle|];
      assert OccursAt(needle, s, i + 1);
    }
  }

  /** A needle with no character of the rest's first in it is removed before the rest and in it, apart. */
  lemma {:induction false} RemoveApart(s: string, rest: string, needle: string)
    requires needle != "" && rest != "" && rest[0] !in needle[1..]
    ensures RemoveAll(s + rest, needle) == RemoveAll(s, needle) + RemoveAll(rest, needle)
    decreases |s|
  {
    if s == "" {
      assert s + rest == rest;
    } else {
      StartApart(s, rest, needle);
      if StartsWith(s, needle) {
        assert (s + rest)[|needle|..] == s[|needle|..] + rest;
        RemoveApart(s[|needle|..], rest, needle);
      } else {
        assert (s + rest)[1..] == s[1..] + rest;
        RemoveApart(s[1..], rest, needle);
      }
    }
  }

  lemma NeedleAcross(s: string, rest: string, needle: string)
    requires s != "" && rest != "" && |needle| > |s| && StartsWith(s + rest, needle)
    ensures rest[0] in needle[1..]
  {
    assert needle[1..][|s| - 1] == needle[|s|] == (s + rest)[..|needle|][|s|] == rest[0];
  }

  lemma StartApart(s: string, rest: string, needle: string)
    requires s != "" && needle != "" && rest != "" && rest[0] !in needle[1..]
    ensures StartsWith(s + rest, needle) <==> StartsWith(s, needle)
  {
    if StartsWith(s, needle) {
      assert (s + rest)[..|needle|] == s[..|needle|];
    }
    if StartsWith(s + rest, needle) {
      if |needle| > |s| { NeedleAcross(s, rest, needle); }
      assert (s + rest)[..|needle|] == s[..|needle|];
    }
  }

  lemma Suffix()
    ensures RemoveAll(".arb", "app_") == ".arb" && RemoveAll(".arb", ".arb") == ""
  {
    var s := ".arb";
    assert s[1..] == "arb" && s[1..][1..] == "rb" && s[1..][1..][1..] == "b" && s[1..][1..][1..][1..] == "";
    assert s[..4] == ".arb" && s[4..] == "";
  }

  lemma AfterPrefix(s: string)
    ensures RemoveAll("app_" + s, "app_") == RemoveAll(s, "app_")
  {
    assert ("app_" + s)[..4] == "app_" && ("app_" + s)[4..] == s;
  }

  /** The locale the diff tool reads off a file name is the one in it, unless that has prefix or suffix in it. */
  lemma LocaleOfIff(locale: string)
    ensures LocaleOf("app_" + locale + ".arb") == locale <==> !Occurs("app_", locale) && !Occurs(".arb", locale)
  {
    assert "app_" + locale + ".arb" == "app_" + (locale + ".arb");
    AfterPrefix(locale + ".arb");
    RemoveApart(locale, ".arb", "app_");
    var once := RemoveAll(locale, "app_");
    RemoveApart(once, ".arb", ".arb");
    Suffix();
    assert RemoveAll(once, ".arb") + "" == RemoveAll(once, ".arb");
    RemoveNone(locale, "app_");
    RemoveNone(once, ".arb");
  }

  /** The one the coverage tool reads off it, unless that has the prefix in it. */
  lemma InventoryLocaleIff(locale: string)
    requires locale != "en"
    ensures IsInventoryFile("app_" + locale + ".arb")
    ensures InventoryLocale("app_" + locale + ".arb") == locale <==> !Occurs("app_", locale)
  {
    FileOfLocale(locale);
    var name := "app_" + locale + ".arb";
    assert name == FileOf(locale) && name[..4] == "app_" && name[|name| - 4..] == ".arb";
    assert name[..|name| - 4] == "app_" + locale;
    AfterPrefix(locale);
    RemoveNone(locale, "app_");
  }

  // ------------------------------------------------------------------------------------------
  // Keys.

  /** What a file lacks: translatable English keys it has not, if it is some other locale's file. */
  lemma MissingMeans(files: map<string, Arb>, name: string, k: string)
    requires "app_en.arb" in files && name in files
    ensures k in MissingIn(files, name) <==>
            && EndsWith(name, ".arb") && name != "app_en.arb"
            && k in files["app_en.arb"] && k !in files[name] && (k == "" || k[0] != '@')
  {
  }

  /** The entry the diff tool reports for a file: its missing keys with their English values. */
  lemma EntriesMean(files: map<string, Arb>, name: string, k: string)
    requires "app_en.arb" in files && name in files
    ensures var entries := MissingEntries(files, name);
            && (k in entries <==> k in MissingIn(files, name))
            && (k in entries ==> k in files["app_en.arb"] && entries[k] == files["app_en.arb"][k])
  {
  }

  /** After a backfill every other locale's file is filled from the English one, any other file is as it was. */
  lemma BackfillMeans(files: map<string, Arb>, name: string)
    requires "app_en.arb" in files
    ensures var after := Backfilled(files);
            && (name in after <==> name in files)
            && (name in files ==>
                  after[name] == if EndsWith(name, ".arb") && name != "app_en.arb"
                                 then Filled(files["app_en.arb"], files[name]) else files[name])
  {
  }

  predicate HasString(arb: Arb, k: string) {
    k in arb && arb[k].Str? && (k == "" || k[0] != '@')
  }

  /** What the coverage tool counts: the English keys with strings, and those among them without one elsewhere. */
  lemma StringsMean(en: Arb, locale: Arb)
    ensures Strings(en).Keys == set k | k in en && HasString(en, k)
    ensures MissingStrings(en, locale) == set k | k in en && HasString(en, k) && !HasString(locale, k)
  {
  }

  /** Every English key with a string has one in the locale file. */
  ghost predicate Covers(en: Arb, locale: Arb) {
    forall k :: HasString(en, k) ==> HasString(locale, k)
  }

  lemma CoversIff(en: Arb, locale: Arb)
    ensures MissingStrings(en, locale) == {} <==> Covers(en, locale)
  {
    StringsMean(en, locale);
    if MissingStrings(en, locale) == {} {
      forall k | HasString(en, k) ensures HasString(locale, k) {
        assert k !in MissingStrings(en, locale);
      }
    }
  }

  /** An untranslated text is an English one of more than ten characters, a space among them, taken over as it is. */
  lemma UntranslatedMeans(en: Arb, locale: Arb, k: string)
    ensures k in Untranslated(en, locale) <==>
            HasString(en, k) && HasString(locale, k) && en[k].s == locale[k].s && ' ' in en[k].s && |en[k].s| > 10
  {
  }

  // ------------------------------------------------------------------------------------------
  // The release gate.

  /** The policy lists distinct locales, English among them, and reviews some of these. */
  ghost predicate PolicyInOrder(active: seq<string>, selectable: set<string>) {
    && (forall i, j :: 0 <= i < |active| && 0 <= j < |active| && active[i] == active[j] ==> i == j)
    && (exists i :: 0 <= i < |active| && active[i] == "en")
    && (exists l :: l in selectable) && (forall l :: l in selectable ==> l in active)
  }

  /** Every locale file is an active locale's. */
  ghost predicate NoStrayFile(files: map<string, Arb>, active: seq<string>) {
    forall n :: n in files && |n| >= 8 && StartsWith(n, "app_") && EndsWith(n, ".arb") && n != "app_en.arb" ==>
      RemoveAll(n[..|n| - 4], "app_") in active
  }

  /** Every active locale but English has its file, and a reviewed one lacks no string. */
  ghost predicate LocalesInOrder(files: map<string, Arb>, active: seq<string>, selectable: set<string>)
    requires "app_en.arb" in files
  {
    forall l :: l in active && l != "en" ==>
      var f := "app_" + l + ".arb";
      f in files && (l in selectable ==> Covers(files["app_en.arb"], files[f]))
  }

  /** The gate passes if and only if the policy, the files and the reviewed translations are in order. */
  lemma GateMeans(files: map<string, Arb>, active: seq<string>, selectable: set<string>)
    requires "app_en.arb" in files
    ensures (PolicyAccepted(active, selectable) && InventoryMatches(files, active)
             && ReviewedComplete(files, active, selectable)) <==>
            PolicyInOrder(active, selectable) && NoStrayFile(files, active) && LocalesInOrder(files, active, selectable)
  {
    PolicyIff(active, selectable);
    LocalesIff(files, active, selectable);
  }

  lemma PolicyIff(active: seq<string>, selectable: set<string>)
    ensures PolicyAccepted(active, selectable) <==> PolicyInOrder(active, selectable)
  {
  }

  lemma LocalesIff(files: map<string, Arb>, active: seq<string>, selectable: set<string>)
    requires "app_en.arb" in files
    ensures InventoryMatches(files, active) && ReviewedComplete(files, active, selectable) <==>
            NoStrayFile(files, active) && LocalesInOrder(files, active, selectable)
  {
    forall l | l in active && l != "en" && FileOf(l) in files
      ensures MissingStrings(files["app_en.arb"], files[FileOf(l)]) == {} <==>
              Covers(files["app_en.arb"], files["app_" + l + ".arb"])
    {
      CoversIff(files["app_en.arb"], files[FileOf(l)]);
    }
  }
}
