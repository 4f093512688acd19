/**
 * Stage 1.1: recognising quarterly filings by file name, choosing which
 * year folders to crawl and which quarters to download.
 */
module Discovery {
  import opened Outcomes
  import opened Strings
  import opened Sorting

  /** A reporting period: `(ano, trimestre)`. */
  datatype Period = Period(year: nat, quarter: nat)

  // ------------------------------------------------------ file-name parsing

  /** Number of consecutive digits from position `j`, at most `cap` (a greedy `\d{..cap}`). */
  function DigitRun(s: string, j: nat, cap: nat): (n: nat)
    requires j <= |s|
    ensures n <= cap && j + n <= |s|
    ensures forall k | j <= k < j + n :: IsDigit(s[k])
    ensures n < cap ==> j + n == |s| || !IsDigit(s[j + n])
    decreases cap
  {
    if cap == 0 || j == |s| || !IsDigit(s[j]) then 0 else 1 + DigitRun(s, j + 1, cap - 1)
  }

  /** The compact pattern `(\d)t(\d{2,4})` matches at position `i`. */
  predicate CompactAt(s: string, i: nat)
  {
    i + 3 < |s| && IsDigit(s[i]) && s[i + 1] == 't' && IsDigit(s[i + 2]) && IsDigit(s[i + 3])
  }

  /** The year group of a compact match: two to four digits, as many as there are. */
  function CompactYearText(s: string, i: nat): (raw: string)
    requires CompactAt(s, i)
    ensures 2 <= |raw| <= 4 && AllDigits(raw)
  {
    s[i + 2..i + 2 + DigitRun(s, i + 2, 4)]
  }

  /** A four-digit year is taken as is; a shorter one is written after "20". */
  function CompactPeriod(s: string, i: nat): Period
    requires CompactAt(s, i)
  {
    var raw := CompactYearText(s, i);
    var year := if |raw| == 4 then DigitsValue(raw) else DigitsValue("20" + raw);
    Period(year, DigitValue(s[i]))
  }

  /** The verbose pattern `(\d{4})_(\d)_trim` matches at position `i`. */
  predicate VerboseAt(s: string, i: nat)
  {
    i + 11 <= |s| && AllDigits(s[i..i + 4]) && s[i + 4] == '_' && IsDigit(s[i + 5])
    && s[i + 6..i + 11] == "_trim"
  }

  function VerbosePeriod(s: string, i: nat): Period
    requires VerboseAt(s, i)
  {
    Period(DigitsValue(s[i..i + 4]), DigitValue(s[i + 5]))
  }

  /**
   * `parse_quarter_from_filename`: the leftmost compact match on the
   * lower-cased name, else the leftmost verbose match, else nothing.
   */
  function ParseQuarter(filename: string): (r: Option<Period>)
    ensures r.Some? ==> r.value.quarter <= 9
    ensures r.None? <==> forall i | 0 <= i < |filename| ::
              !CompactAt(Lower(filename), i) && !VerboseAt(Lower(filename), i)
  {
    var s := Lower(filename);
    match FirstMatch(s, 0, CompactAt)
    case Some(i) => Some(CompactPeriod(s, i))
    case None =>
      match FirstMatch(s, 0, VerboseAt)
      case Some(i) => Some(VerbosePeriod(s, i))
      case None => None
  }

  /** Upper and lower case in the name make no difference. */
  lemma ParseIgnoresCase(filename: string)
    ensures ParseQuarter(Lower(filename)) == ParseQuarter(filename)
  {
    LowerIdempotent(filename);
  }

  /** The leftmost compact match decides, whatever else the name holds. */
  lemma CompactWins(filename: string, i: nat)
    requires CompactAt(Lower(filename), i)
    requires forall j | 0 <= j < i :: !CompactAt(Lower(filename), j)
    ensures ParseQuarter(filename) == Some(CompactPeriod(Lower(filename), i))
  {
    var s := Lower(filename);
    var m := FirstMatch(s, 0, CompactAt);
    assert m.Some? && m.value == i by {
      assert m.Some? ==> m.value >= i;
    }
  }

  /** Without any compact match, the leftmost verbose match decides. */
  lemma VerboseFallback(filename: string, i: nat)
    requires forall j | 0 <= j < |filename| :: !CompactAt(Lower(filename), j)
    requires VerboseAt(Lower(filename), i)
    requires forall j | 0 <= j < i :: !VerboseAt(Lower(filename), j)
    ensures ParseQuarter(filename) == Some(VerbosePeriod(Lower(filename), i))
  {
    var s := Lower(filename);
    var m := FirstMatch(s, 0, VerboseAt);
    assert m.Some? && m.value == i by {
      assert m.Some? ==> m.value >= i;
    }
  }

  /**
   * The year rule: four digits are the year, two digits are a year of the
   * 2000s and three digits a five-digit year starting with 20.
   */
  lemma {:induction false} CompactYearRule(s: string, i: nat)
    requires CompactAt(s, i)
    ensures var raw := CompactYearText(s, i); var y := CompactPeriod(s, i).year;
            && (|raw| == 4 ==> y == DigitsValue(raw))
            && (|raw| == 3 ==> y == 20000 + DigitsValue(raw) && 20000 <= y <= 20999)
            && (|raw| == 2 ==> y == 2000 + DigitsValue(raw) && 2000 <= y <= 2099)
  {
    var raw := CompactYearText(s, i);
    if |raw| < 4 {
      DigitsValueAppend("20", raw);
      assert DigitsValue("20") == 20 by { assert "20"[..1] == "2"; }
      DigitsBound(raw);
    }
  }

  lemma {:induction false} DigitsBound(t: string)
    requires AllDigits(t)
    ensures DigitsValue(t) < Pow10(|t|)
  {
    if t != [] {
      DigitsBound(t[..|t| - 1]);
    }
  }

  // ------------------------------------------------- names that round-trip

  lemma {:induction false} NatTextFourDigits(n: nat)
    requires 1000 <= n <= 9999
    ensures |NatText(n)| == 4
  {
    assert |NatText(n / 1000)| == 1;
    assert |NatText(n / 100)| == 2;
    assert |NatText(n / 10)| == 3;
  }

  /** The concise name of a period, e.g. `1T2025.zip`. */
  function CompactName(p: Period): string
    requires p.quarter <= 9
  {
    [DigitChar(p.quarter)] + "T" + NatText(p.year) + ".zip"
  }

  /** Every concise name of a four-digit year parses back to its period. */
  lemma CompactNameRoundTrip(p: Period)
    requires p.quarter <= 9 && 1000 <= p.year <= 9999
    ensures ParseQuarter(CompactName(p)) == Some(p)
  {
    var name := CompactName(p);
    CompactNameShape(p);
    CompactYearOfName(Lower(name));
    CompactWins(name, 0);
  }

  /** The quarter digit, `t`, four year digits, then `.zip`, once lower-cased. */
  lemma CompactNameShape(p: Period)
    requires p.quarter <= 9 && 1000 <= p.year <= 9999
    ensures var s := Lower(CompactName(p));
            |s| == 10 && s[0] == DigitChar(p.quarter) && s[1] == 't'
            && AllDigits(s[2..6]) && DigitsValue(s[2..6]) == p.year && s[6] == '.'
  {
    var y := NatText(p.year);
    NatTextFourDigits(p.year);
    NatTextValue(p.year);
    var name := CompactName(p);
    assert name == [DigitChar(p.quarter)] + "T" + y + ".zip";
    assert name[2..6] == y;
    var s := Lower(name);
    assert s[2..6] == y by {
      assert forall i | 2 <= i < 6 :: s[i] == LowerChar(name[i]) && name[i] == y[i - 2];
    }
  }

  lemma CompactYearOfName(s: string)
    requires |s| == 10 && IsDigit(s[0]) && s[1] == 't' && AllDigits(s[2..6]) && s[6] == '.'
    ensures CompactAt(s, 0) && CompactYearText(s, 0) == s[2..6]
  {
    assert IsDigit(s[2]) && IsDigit(s[3]) by { assert s[2] == s[2..6][0] && s[3] == s[2..6][1]; }
    assert DigitRun(s, 2, 4) == 4 by {
      assert forall k | 2 <= k < 6 :: s[k] == s[2..6][k - 2];
      assert DigitRun(s, 6, 0) == 0;
    }
  }

  /** The verbose name of a period, e.g. `2008_1_trimestre.zip`. */
  function VerboseName(p: Period): string
    requires p.quarter <= 9
  {
    NatText(p.year) + "_" + [DigitChar(p.quarter)] + "_trimestre.zip"
  }

  /** Every verbose name of a four-digit year parses back to its period. */
  lemma VerboseNameRoundTrip(p: Period)
    requires p.quarter <= 9 && 1000 <= p.year <= 9999
    ensures ParseQuarter(VerboseName(p)) == Some(p)
  {
    var name := VerboseName(p);
    VerboseNameShape(p);
    VerboseNameLower(name);
    NoCompactInVerbose(name);
    VerboseFallback(name, 0);
  }

  /** Four digits, `_`, the quarter digit, then `_trimestre.zip`. */
  lemma VerboseNameShape(p: Period)
    requires p.quarter <= 9 && 1000 <= p.year <= 9999
    ensures var s := VerboseName(p);
            |s| == 20 && AllDigits(s[..4]) && DigitsValue(s[..4]) == p.year
            && s[4] == '_' && s[5] == DigitChar(p.quarter) && s[6..] == "_trimestre.zip"
  {
    var y := NatText(p.year);
    NatTextFourDigits(p.year);
    NatTextValue(p.year);
    var s := VerboseName(p);
    assert s == y + "_" + [DigitChar(p.quarter)] + "_trimestre.zip";
    assert s[..4] == y;
  }

  lemma VerboseNameLower(s: string)
    requires |s| == 20 && AllDigits(s[..4]) && s[4] == '_' && IsDigit(s[5]) && s[6..] == "_trimestre.zip"
    ensures Lower(s) == s
  {
    forall i | 0 <= i < |s| ensures LowerChar(s[i]) == s[i] {
      if i >= 6 {
        assert s[i] == s[6..][i - 6];
      } else if i < 4 {
        assert s[i] == s[..4][i];
      }
    }
  }

  lemma NoCompactInVerbose(s: string)
    requires |s| == 20 && AllDigits(s[..4]) && s[4] == '_' && IsDigit(s[5]) && s[6..] == "_trimestre.zip"
    requires Lower(s) == s
    ensures forall j | 0 <= j < |s| :: !CompactAt(Lower(s), j)
    ensures VerboseAt(Lower(s), 0)
  {
    forall j | 0 <= j < |s| ensures !CompactAt(s, j) {
      if j < 4 {
        assert s[j + 1] == '_' || IsDigit(s[j + 1]) by {
          if j < 3 { assert s[j + 1] == s[..4][j + 1]; }
        }
      } else if j >= 6 {
        assert s[j] == s[6..][j - 6];
      }
    }
    assert s[6..11] == "_trim";
  }

  lemma NatText2025()
    ensures NatText(2025) == "2025"
  {
    assert NatText(2) == "2";
    assert NatText(20) == "20";
    assert NatText(202) == "202";
  }

  lemma NatText2008()
    ensures NatText(2008) == "2008"
  {
    assert DigitChar(0) == '0' && DigitChar(2) == '2' && DigitChar(8) == '8';
    assert NatText(2) == "2";
    assert NatText(20) == NatText(2) + "0";
    assert NatText(200) == NatText(20) + "0";
    assert NatText(2008) == NatText(200) + "8";
  }

  lemma ExampleConcise()
    ensures ParseQuarter("1T2025.zip") == Some(Period(2025, 1))
    ensures ParseQuarter("1t2025.zip") == Some(Period(2025, 1))
  {
    CompactNameRoundTrip(Period(2025, 1));
    ConciseName1();
    LowerConciseExample();
    ParseIgnoresCase("1T2025.zip");
  }

  lemma ConciseName1()
    ensures CompactName(Period(2025, 1)) == "1T2025.zip"
  {
    NatText2025();
  }

  lemma ConciseName0()
    ensures CompactName(Period(2025, 0)) == "0T2025.zip"
  {
    NatText2025();
  }

  lemma LowerConciseExample()
    ensures Lower("1T2025.zip") == "1t2025.zip"
  {
  }

  lemma VerboseExampleName()
    ensures VerboseName(Period(2008, 1)) == "2008_1_trimestre.zip"
  {
    NatText2008();
    assert DigitChar(1) == '1';
    assert VerboseName(Period(2008, 1)) == "2008" + "_" + "1" + "_trimestre.zip";
  }

  lemma ExampleVerbose()
    ensures ParseQuarter("2008_1_trimestre.zip") == Some(Period(2008, 1))
  {
    VerboseNameRoundTrip(Period(2008, 1));
    VerboseExampleName();
  }

  /** A lower-case name that starts with a compact match. */
  lemma CompactAtStart(s: string)
    requires Lower(s) == s && CompactAt(s, 0)
    ensures ParseQuarter(s) == Some(CompactPeriod(s, 0))
  {
    CompactWins(s, 0);
  }

  lemma PeriodOf24()
    ensures CompactAt("1t24.zip", 0)
    ensures CompactPeriod("1t24.zip", 0) == Period(2024, 1)
  {
    var a := "1t24.zip";
    assert CompactAt(a, 0);
    assert DigitRun(a, 2, 4) == 2 by { assert DigitRun(a, 4, 2) == 0; }
    CompactYearRule(a, 0);
    assert CompactYearText(a, 0) == "24";
    assert DigitsValue("24") == 24 by { assert "24"[..1] == "2"; }
  }

  lemma PeriodOf202()
    ensures CompactAt("1t202.zip", 0)
    ensures CompactPeriod("1t202.zip", 0) == Period(20202, 1)
  {
    var b := "1t202.zip";
    assert CompactAt(b, 0);
    assert DigitRun(b, 2, 4) == 3 by { assert DigitRun(b, 5, 1) == 0; }
    CompactYearRule(b, 0);
    assert CompactYearText(b, 0) == "202";
    assert DigitsValue("202") == 202 by {
      assert "202"[..2] == "20";
      assert "20"[..1] == "2";
    }
  }

  /** Two- and three-digit years: `1t24` is 2024, `1t202` is 20202. */
  lemma ExampleShortYears()
    ensures ParseQuarter("1t24.zip") == Some(Period(2024, 1))
    ensures ParseQuarter("1t202.zip") == Some(Period(20202, 1))
  {
    assert Lower("1t24.zip") == "1t24.zip";
    PeriodOf24();
    CompactAtStart("1t24.zip");
    assert Lower("1t202.zip") == "1t202.zip";
    PeriodOf202();
    CompactAtStart("1t202.zip");
  }

  /** The short form with an underscore, `3t_24.zip`, matches neither pattern. */
  lemma ExampleUnderscoreNotRecognised()
    ensures ParseQuarter("3t_24.zip") == None
  {
    var a := "3t_24.zip";
    assert Lower(a) == a;
    forall i | 0 <= i < |a| ensures !CompactAt(a, i) && !VerboseAt(a, i) {
      if i + 11 <= |a| { assert false; }
    }
  }

  /** The quarter digit is not range-checked: quarter 0 is accepted. */
  lemma ExampleQuarterZero()
    ensures ParseQuarter("0T2025.zip") == Some(Period(2025, 0))
  {
    CompactNameRoundTrip(Period(2025, 0));
    ConciseName0();
  }

  // ---------------------------------------------------------- page links

  /** A quarterly archive found on a listing page. */
  datatype Candidate = Candidate(period: Period, filename: string, href: string)

  /** How one link of a listing page is treated. */
  datatype Link = Skipped | Archive(filename: string) | Subfolder(href: string) | Ignored

  /** Links to the parent, the page itself, a query or the site root are never followed. */
  predicate SkipHref(href: string)
  {
    href == "../" || href == "./" || StartsWith(href, "?") || StartsWith(href, "/")
  }

  function ClassifyHref(href: string): (k: Link)
    ensures k.Skipped? <==> SkipHref(href)
    ensures k.Archive? <==> !SkipHref(href) && EndsWith(Lower(href), ".zip")
    ensures k.Archive? ==> k.filename == StripChar(href, '/')
    ensures k.Subfolder? ==> EndsWith(href, "/") && href != "../" && href != "./"
  {
    if SkipHref(href) then Skipped
    else if EndsWith(Lower(href), ".zip") then Archive(StripChar(href, '/'))
    else if EndsWith(href, "/") then Subfolder(href)
    else Ignored
  }

  /** The archives a page lists that carry a recognisable period, in page order. */
  function PageArchives(hrefs: seq<string>): seq<Candidate>
  {
    if hrefs == [] then []
    else
      var href := hrefs[|hrefs| - 1];
      var more := match ClassifyHref(href)
        case Archive(name) =>
          (match ParseQuarter(name) case Some(p) => [Candidate(p, name, href)] case None => [])
        case _ => [];
      PageArchives(hrefs[..|hrefs| - 1]) + more
  }

  /** The sub-folders a page lists, in page order. */
  function PageFolders(hrefs: seq<string>): seq<string>
  {
    if hrefs == [] then []
    else
      var href := hrefs[|hrefs| - 1];
      PageFolders(hrefs[..|hrefs| - 1]) + (if ClassifyHref(href).Subfolder? then [href] else [])
  }

  /**
   * The link loop of `crawl_for_zips` over one listing page: archives with a
   * period are collected, sub-folders are set aside to be crawled.
   */
  method ScanPage(hrefs: seq<string>) returns (found: seq<Candidate>, folders: seq<string>)
    ensures found == PageArchives(hrefs) && folders == PageFolders(hrefs)
    ensures forall c | c in found :: ParseQuarter(c.filename) == Some(c.period) && c.href in hrefs
    ensures forall f | f in folders :: f in hrefs && !SkipHref(f)
  {
    found, folders := [], [];
    for i := 0 to |hrefs|
      invariant found == PageArchives(hrefs[..i]) && folders == PageFolders(hrefs[..i])
    {
      assert hrefs[..i + 1][..i] == hrefs[..i];
      var href := hrefs[i];
      match ClassifyHref(href) {
        case Archive(name) =>
          var meta := ParseQuarter(name);
          if meta.Some? {
            found := found + [Candidate(meta.value, name, href)];
          }
        case Subfolder(_) =>
          folders := folders + [href];
        case _ =>
      }
    }
    assert hrefs[..|hrefs|] == hrefs;
    PageArchivesSound(hrefs);
    PageFoldersSound(hrefs);
  }

  lemma {:induction false} PageArchivesSound(hrefs: seq<string>)
    ensures forall c | c in PageArchives(hrefs) :: ParseQuarter(c.filename) == Some(c.period) && c.href in hrefs
  {
    if hrefs != [] {
      PageArchivesSound(hrefs[..|hrefs| - 1]);
    }
  }

  lemma {:induction false} PageFoldersSound(hrefs: seq<string>)
    ensures forall f | f in PageFolders(hrefs) :: f in hrefs && !SkipHref(f)
  {
    if hrefs != [] {
      PageFoldersSound(hrefs[..|hrefs| - 1]);
    }
  }

  // ----------------------------------------------------------- year folders

  /** A root link names a year folder when, without its slashes, it matches `^\d{4}$`. */
  function YearOfFolder(href: string): (r: Option<nat>)
    ensures r.Some? ==> r.value <= 9999
  {
    var c := StripChar(href, '/');
    if |c| >= 4 && AllDigits(c[..4]) && (|c| == 4 || (|c| == 5 && c[4] == '\n')) then
      DigitsBound(c[..4]);
      Some(DigitsValue(c[..4]))
    else None
  }

  /** The folder link of a four-digit year, `yyyy/`, names that year. */
  lemma YearFolderRoundTrip(y: nat)
    requires 1000 <= y <= 9999
    ensures YearOfFolder(NatText(y) + "/") == Some(y)
  {
    var t := NatText(y);
    NatTextFourDigits(y);
    NatTextValue(y);
    StripOneTrailing(t, '/');
    assert t[..4] == t;
  }

  datatype YearFolder = YearFolder(year: nat, href: string)

  function YearFolders(hrefs: seq<string>): seq<YearFolder>
  {
    if hrefs == [] then []
    else
      var href := hrefs[|hrefs| - 1];
      var more := match YearOfFolder(href) case Some(y) => [YearFolder(y, href)] case None => [];
      YearFolders(hrefs[..|hrefs| - 1]) + more
  }

  function NegYear(f: YearFolder): int { -(f.year as int) }

  /**
   * The year-folder part of `main`: collect the year links, sort them by year
   * descending and keep the first three, the newest years.
   */
  method YearsToScan(hrefs: seq<string>) returns (scan: seq<YearFolder>)
    ensures scan == First(SortBy(YearFolders(hrefs), NegYear), 3)
    ensures |scan| == if |YearFolders(hrefs)| < 3 then |YearFolders(hrefs)| else 3
    ensures forall i, j | 0 <= i < j < |scan| :: scan[i].year >= scan[j].year
    ensures forall f | f in scan :: YearOfFolder(f.href) == Some(f.year) && f.href in hrefs
    ensures forall f, g | f in YearFolders(hrefs) && g in scan && f !in scan :: f.year <= g.year
  {
    var yearsFound: seq<YearFolder> := [];
    for i := 0 to |hrefs|
      invariant yearsFound == YearFolders(hrefs[..i])
    {
      var y := YearOfFolder(hrefs[i]);
      assert hrefs[..i + 1][..i] == hrefs[..i];
      assert YearFolders(hrefs[..i + 1]) == YearFolders(hrefs[..i])
        + (match y case Some(v) => [YearFolder(v, hrefs[i])] case None => []);
      if y.Some? {
        yearsFound := yearsFound + [YearFolder(y.value, hrefs[i])];
      }
    }
    assert hrefs[..|hrefs|] == hrefs;
    scan := First(SortBy(yearsFound, NegYear), 3);
    NewestYears(hrefs);
  }

  /** The three years kept: newest first, each a year link of the page, none newer left out. */
  lemma NewestYears(hrefs: seq<string>)
    ensures var found := YearFolders(hrefs);
            var scan := First(SortBy(found, NegYear), 3);
            && |scan| == (if |found| < 3 then |found| else 3)
            && (forall i, j | 0 <= i < j < |scan| :: scan[i].year >= scan[j].year)
            && (forall f | f in scan :: YearOfFolder(f.href) == Some(f.year) && f.href in hrefs)
            && (forall f, g | f in found && g in scan && f !in scan :: f.year <= g.year)
  {
    var found := YearFolders(hrefs);
    NewestFirst(found);
    NewestKept(found);
    YearFoldersSound(hrefs);
  }

  /** Sorting by year descending and keeping three keeps the three newest years. */
  lemma NewestFirst(found: seq<YearFolder>)
    ensures var scan := First(SortBy(found, NegYear), 3);
            && (forall i, j | 0 <= i < j < |scan| :: scan[i].year >= scan[j].year)
            && (forall f | f in scan :: f in found)
  {
    var sorted := SortBy(found, NegYear);
    var scan := First(sorted, 3);
    FirstAreSmallest(sorted, 3, NegYear);
    forall i, j | 0 <= i < j < |scan| ensures scan[i].year >= scan[j].year {
      assert NegYear(scan[i]) <= NegYear(scan[j]);
    }
    forall f | f in scan ensures f in found {
      assert f in multiset(scan);
      assert f in multiset(sorted);
    }
  }

  /** No year left out is newer than a year kept. */
  lemma NewestKept(found: seq<YearFolder>)
    ensures var scan := First(SortBy(found, NegYear), 3);
            forall f, g | f in found && g in scan && f !in scan :: f.year <= g.year
  {
    var sorted := SortBy(found, NegYear);
    forall f, g | f in found && g in First(sorted, 3) && f !in First(sorted, 3) ensures f.year <= g.year {
      assert f in multiset(sorted) by { assert f in multiset(found); }
      FirstDominates(sorted, 3, NegYear, f, g);
    }
  }

  lemma {:induction false} YearFoldersSound(hrefs: seq<string>)
    ensures forall f | f in YearFolders(hrefs) :: YearOfFolder(f.href) == Some(f.year) && f.href in hrefs
  {
    if hrefs != [] {
      YearFoldersSound(hrefs[..|hrefs| - 1]);
    }
  }

  // ------------------------------------------------------ quarter selection

  /** `(year, quarter)` as one number ordered the same way (quarters are single digits). */
  function PeriodKey(c: Candidate): int { c.period.year * 10 + c.period.quarter }

  /** With single-digit quarters, `PeriodKey` orders periods as tuples are ordered. */
  lemma PeriodKeyIsLexicographic(a: Period, b: Period)
    requires a.quarter <= 9 && b.quarter <= 9
    ensures a.year * 10 + a.quarter < b.year * 10 + b.quarter
            <==> a.year < b.year || (a.year == b.year && a.quarter < b.quarter)
  {
  }

  /** `(a.year, a.quarter) < (b.year, b.quarter)`, as Python compares tuples. */
  predicate Before(a: Period, b: Period)
  {
    a.year < b.year || (a.year == b.year && a.quarter < b.quarter)
  }

  /** Every archive the crawl records has a one-digit quarter, the `(\d)` of both patterns. */
  lemma PageQuartersOneDigit(hrefs: seq<string>)
    ensures forall c | c in PageArchives(hrefs) :: c.period.quarter <= 9
  {
    PageArchivesSound(hrefs);
  }

  function Concat<T>(parts: seq<seq<T>>): seq<T>
  {
    if parts == [] then [] else Concat(parts[..|parts| - 1]) + parts[|parts| - 1]
  }

  /**
   * The selection in `main`: the archives crawled in each scanned year are
   * pooled, sorted by period and the last three kept.
   */
  method SelectLatest(perYear: seq<seq<Candidate>>) returns (last3: seq<Candidate>)
    requires forall c | c in Concat(perYear) :: c.period.quarter <= 9
    ensures last3 == Last(SortBy(Concat(perYear), PeriodKey), 3)
    ensures |last3| == if |Concat(perYear)| < 3 then |Concat(perYear)| else 3
    ensures multiset(last3) <= multiset(Concat(perYear))
    ensures forall i, j | 0 <= i < j < |last3| :: !Before(last3[j].period, last3[i].period)
    ensures forall c, d | c in Concat(perYear) && d in last3 && c !in last3 :: !Before(d.period, c.period)
  {
    var allCandidates: seq<Candidate> := [];
    for i := 0 to |perYear|
      invariant allCandidates == Concat(perYear[..i])
    {
      assert perYear[..i + 1][..i] == perYear[..i];
      allCandidates := allCandidates + perYear[i];
    }
    assert perYear[..|perYear|] == perYear;
    var sorted := SortBy(allCandidates, PeriodKey);
    last3 := Last(sorted, 3);
    LatestInPeriodOrder(allCandidates);
  }

  /** The last three, read as `(year, quarter)` tuples: ascending, and none left out is later. */
  lemma LatestInPeriodOrder(all: seq<Candidate>)
    requires forall c | c in all :: c.period.quarter <= 9
    ensures var last3 := Last(SortBy(all, PeriodKey), 3);
      (forall i, j | 0 <= i < j < |last3| :: !Before(last3[j].period, last3[i].period))
      && forall c, d | c in all && d in last3 && c !in last3 :: !Before(d.period, c.period)
  {
    var last3 := Last(SortBy(all, PeriodKey), 3);
    LastAreLargest(SortBy(all, PeriodKey), 3, PeriodKey);
    LatestKept(all);
    forall d | d in last3 ensures d in all {
      assert d in multiset(last3);
    }
    forall i, j | 0 <= i < j < |last3| ensures !Before(last3[j].period, last3[i].period) {
      assert last3[i] in last3 && last3[j] in last3;
      KeyOrderIsPeriodOrder(last3[i], last3[j]);
    }
    forall c, d | c in all && d in last3 && c !in last3 ensures !Before(d.period, c.period) {
      KeyOrderIsPeriodOrder(c, d);
    }
  }

  lemma KeyOrderIsPeriodOrder(c: Candidate, d: Candidate)
    requires c.period.quarter <= 9 && d.period.quarter <= 9 && PeriodKey(c) <= PeriodKey(d)
    ensures !Before(d.period, c.period)
  {
    PeriodKeyIsLexicographic(d.period, c.period);
  }

  /** No archive left out is more recent than one kept. */
  lemma LatestKept(all: seq<Candidate>)
    ensures var last3 := Last(SortBy(all, PeriodKey), 3);
            forall c, d | c in all && d in last3 && c !in last3 :: PeriodKey(c) <= PeriodKey(d)
  {
    var sorted := SortBy(all, PeriodKey);
    forall c, d | c in all && d in Last(sorted, 3) && c !in Last(sorted, 3) ensures PeriodKey(c) <= PeriodKey(d) {
      assert c in multiset(sorted) by { assert c in multiset(all); }
      LastDominates(sorted, 3, PeriodKey, c, d);
    }
  }
}
