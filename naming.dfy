/** The naming rules: pure functions from a folder or file name to its
    normalized form, or from a file's location to the tags it should carry. */
module Naming {
  import opened Wrappers
  import opened Text
  import opened Paths
  import opened Patterns

  // ---------------------------------------------------------------------
  // Output templates
  // ---------------------------------------------------------------------

  /** One piece of an `--album-format` template: literal text, `{album}` or `{year}`. */
  datatype AlbumPiece = AlbumText(text: string) | AlbumField | YearField

  /** One piece of a `--track-format` template: literal text, `{track}` padded
      with zeros to `width` (`{track:02d}` has width 2, plain `{track}` width 0),
      or `{title}`. */
  datatype TrackPiece = TrackText(text: string) | TrackField(width: nat) | TitleField

  type AlbumFormat = seq<AlbumPiece>
  type TrackFormat = seq<TrackPiece>

  /** "{album} ({year})" */
  const DefaultAlbumFormat: AlbumFormat := [AlbumField, AlbumText(" ("), YearField, AlbumText(")")]

  /** "{track:02d} {title}" */
  const DefaultTrackFormat: TrackFormat := [TrackField(2), TrackText(" "), TitleField]

  /** `album_format.format(album=album, year=year)` */
  function RenderAlbum(fmt: AlbumFormat, album: string, year: string): string {
    if fmt == [] then ""
    else
      var head := match fmt[0]
        case AlbumText(t) => t
        case AlbumField => album
        case YearField => year;
      head + RenderAlbum(fmt[1..], album, year)
  }

  /** `track_format.format(track=number, title=title)` */
  function RenderTrack(fmt: TrackFormat, number: nat, title: string): string {
    if fmt == [] then ""
    else
      var head := match fmt[0]
        case TrackText(t) => t
        case TrackField(w) => ZeroPad(DecimalString(number), w)
        case TitleField => title;
      head + RenderTrack(fmt[1..], number, title)
  }

  lemma DefaultAlbumRendering(album: string, year: string)
    ensures RenderAlbum(DefaultAlbumFormat, album, year) == album + " (" + year + ")"
  {
    var f := DefaultAlbumFormat;
    assert f[1..] == [AlbumText(" ("), YearField, AlbumText(")")];
    assert f[1..][1..] == [YearField, AlbumText(")")];
    assert f[1..][1..][1..] == [AlbumText(")")];
    assert RenderAlbum(f[1..][1..][1..], album, year) == ")";
    assert RenderAlbum(f[1..][1..], album, year) == year + ")";
    assert RenderAlbum(f[1..], album, year) == " (" + year + ")";
  }

  lemma DefaultTrackRendering(number: nat, title: string)
    ensures RenderTrack(DefaultTrackFormat, number, title) == ZeroPad(DecimalString(number), 2) + " " + title
  {
    var f := DefaultTrackFormat;
    assert f[1..] == [TrackText(" "), TitleField];
    assert f[1..][1..] == [TitleField];
    assert RenderTrack(f[1..][1..], number, title) == title;
    assert RenderTrack(f[1..], number, title) == " " + title;
  }

  // ---------------------------------------------------------------------
  // Rename rules
  // ---------------------------------------------------------------------

  /** `normalized_album_name`: the rendered name for a folder named like
      "YYYY - Album", or None when the name does not fit the pattern or is
      already in normalized form. */
  function NormalizedAlbumName(name: string, fmt: AlbumFormat): (r: Option<string>)
    ensures forall m :: AlbumDirSpec(name, m) ==>
      r == (var out := RenderAlbum(fmt, m.album, m.year); if out == name then None else Some(out))
    ensures r.Some? ==>
      r.value != name &&
      exists m :: AlbumDirSpec(name, m) && r.value == RenderAlbum(fmt, m.album, m.year)
  {
    AlbumDirFieldsExact(name);
    match AlbumDirFields(name)
    case None => None
    case Some(m) =>
      var out := RenderAlbum(fmt, m.album, m.year);
      if out != name then Some(out) else None
  }

  /** `normalized_track_name`: the rendered stem for a file stem named like
      "N - Title" (N of one to three digits, read as an integer), or None
      when the stem does not fit the pattern or is already in normalized form. */
  function NormalizedTrackName(stem: string, fmt: TrackFormat): (r: Option<string>)
    ensures forall m :: TrackFileSpec(stem, m) ==>
      r == (var out := RenderTrack(fmt, m.number, m.title); if out == stem then None else Some(out))
    ensures r.Some? ==>
      r.value != stem &&
      exists m :: TrackFileSpec(stem, m) && r.value == RenderTrack(fmt, m.number, m.title)
  {
    TrackFileFieldsExact(stem);
    match TrackFileFields(stem)
    case None => None
    case Some(m) =>
      var out := RenderTrack(fmt, m.number, m.title);
      if out != stem then Some(out) else None
  }

  /** The album rule on a folder whose fields are known. */
  lemma AlbumRuleOn(name: string, year: string, album: string, out: string)
    requires AlbumDirFields(name) == Some(YearAlbum(year, album))
    requires out == album + " (" + year + ")"
    ensures NormalizedAlbumName(name, DefaultAlbumFormat) == if out == name then None else Some(out)
  {
    DefaultAlbumRendering(album, year);
    var r := NormalizedAlbumName(name, DefaultAlbumFormat);
    assert r == if out == name then None else Some(out);
  }

  /** The track rule on a stem whose fields are known. */
  lemma TrackRuleOn(stem: string, number: nat, title: string, out: string)
    requires TrackFileFields(stem) == Some(NumberTitle(number, title))
    requires out == ZeroPad(DecimalString(number), 2) + " " + title
    ensures NormalizedTrackName(stem, DefaultTrackFormat) == if out == stem then None else Some(out)
  {
    DefaultTrackRendering(number, title);
    var r := NormalizedTrackName(stem, DefaultTrackFormat);
    assert r == if out == stem then None else Some(out);
  }

  /** What the album rule makes of a folder in the "YYYY - Album" layout,
      whatever the blanks around the dash: "2001 - Discovery" becomes
      "Discovery (2001)". */
  lemma AlbumRuleRenames(year: string, pre: string, post: string, album: string)
    requires |year| == 4 && AllDigits(year) && AllSpace(pre) && AllSpace(post)
    requires CleanField(album)
    ensures NormalizedAlbumName(year + pre + "-" + post + album, DefaultAlbumFormat)
      == Some(album + " (" + year + ")")
  {
    var name := year + pre + "-" + post + album;
    var out := album + " (" + year + ")";
    AlbumDirOfParts(year, pre, post, album);
    AlbumRenameDiffers(year, pre, post, album);
    AlbumRuleOn(name, year, album, out);
  }

  /** The "Album (YYYY)" form never spells the "YYYY - Album" name it comes from. */
  lemma AlbumRenameDiffers(year: string, pre: string, post: string, album: string)
    requires AllDigits(year) && AllSpace(pre) && AllSpace(post)
    ensures album + " (" + year + ")" != year + pre + "-" + post + album
  {
    var after := " (" + year + ")";
    NoDash(year);
    NoDash(pre);
    NoDash(post);
    assert multiset(after)['-'] == 0;
    DashedNameDiffers(year, pre, post, album, "", after);
    assert album + " (" + year + ")" == "" + album + after;
  }

  /** What the track rule makes of a stem in the "N - Title" layout: the
      number is read as an integer, so "1 - One More Time" and
      "01 - One More Time" both become "01 One More Time". */
  lemma TrackRuleRenames(digits: string, pre: string, post: string, title: string)
    requires 1 <= |digits| <= 3 && AllDigits(digits) && AllSpace(pre) && AllSpace(post)
    requires CleanField(title)
    ensures NormalizedTrackName(digits + pre + "-" + post + title, DefaultTrackFormat)
      == Some(ZeroPad(DecimalString(DigitsValue(digits)), 2) + " " + title)
  {
    var stem := digits + pre + "-" + post + title;
    var number := DigitsValue(digits);
    var pad := ZeroPad(DecimalString(number), 2);
    var out := pad + " " + title;
    TrackFileOfParts(digits, pre, post, title);
    NoDash(digits);
    NoDash(pre);
    NoDash(post);
    NoDash(pad);
    NoDash(" ");
    DashedNameDiffers(digits, pre, post, title, pad + " ", "");
    assert out == pad + " " + title + "";
    TrackRuleOn(stem, number, title, out);
  }

  /** Digits and blanks hold no dash. */
  lemma NoDash(s: string)
    requires AllDigits(s) || AllSpace(s)
    ensures multiset(s)['-'] == 0
  {
    assert forall i | 0 <= i < |s| :: s[i] != '-';
    assert '-' !in s;
  }

  /** A name laid out as lead, blanks, dash, blanks, field holds one dash
      more than the field does, so it differs from the field wrapped in
      text without dashes. */
  lemma DashedNameDiffers(lead: string, pre: string, post: string, field: string, before: string, after: string)
    requires multiset(lead)['-'] == 0 && multiset(pre)['-'] == 0 && multiset(post)['-'] == 0
    requires multiset(before)['-'] == 0 && multiset(after)['-'] == 0
    ensures lead + pre + "-" + post + field != before + field + after
  {
    assert multiset("-")['-'] == 1;
    assert multiset(lead + pre + "-" + post + field)['-'] == multiset(field)['-'] + 1;
    assert multiset(before + field + after)['-'] == multiset(field)['-'];
  }

  /** Different digit runs before the same separator spell different stems. */
  lemma DigitRunsDiffer(d1: string, d2: string, pre: string, post: string, title: string)
    requires AllDigits(d1) && AllDigits(d2) && d1 != d2 && AllSpace(pre)
    ensures d1 + pre + "-" + post + title != d2 + pre + "-" + post + title
  {
    var tail := pre + "-" + post + title;
    assert d1 + pre + "-" + post + title == d1 + tail && d2 + pre + "-" + post + title == d2 + tail;
    assert tail[0] == (if pre != [] then pre[0] else '-');
    var s1, s2 := d1 + tail, d2 + tail;
    if |d1| == |d2| {
      assert s1[..|d1|] == d1 && s2[..|d2|] == d2;
    } else if |d1| < |d2| {
      assert s1[|d1|] == tail[0] && s2[|d1|] == d2[|d1|];
    } else {
      assert s2[|d2|] == tail[0] && s1[|d2|] == d1[|d2|];
    }
  }

  /** Two differently spelled numbers of the same value, such as "1" and
      "01", give two different stems the same new name. */
  lemma TrackRuleCollides(d1: string, d2: string, pre: string, post: string, title: string)
    requires 1 <= |d1| <= 3 && AllDigits(d1) && 1 <= |d2| <= 3 && AllDigits(d2)
    requires AllSpace(pre) && AllSpace(post) && CleanField(title)
    requires d1 != d2 && DigitsValue(d1) == DigitsValue(d2)
    ensures d1 + pre + "-" + post + title != d2 + pre + "-" + post + title
    ensures NormalizedTrackName(d1 + pre + "-" + post + title, DefaultTrackFormat)
         == NormalizedTrackName(d2 + pre + "-" + post + title, DefaultTrackFormat)
  {
    DigitRunsDiffer(d1, d2, pre, post, title);
    TrackRuleRenames(d1, pre, post, title);
    TrackRuleRenames(d2, pre, post, title);
  }

  lemma NumberBelow1000(digits: string)
    requires 1 <= |digits| <= 3 && AllDigits(digits)
    ensures DigitsValue(digits) < 1000
  {
    DigitsValueBound(digits);
    assert Pow10(1) == 10 && Pow10(2) == 100 && Pow10(3) == 1000;
  }

  /** A stem with four or more leading digits never matches `\d{1,3}\s*-`. */
  lemma TrackRuleRejectsLongNumbers(stem: string, fmt: TrackFormat)
    requires |stem| >= 4 && AllDigits(stem[..4])
    ensures NormalizedTrackName(stem, fmt) == None
  {
    assert forall i | 0 <= i < 4 :: IsDigit(stem[i]) by {
      forall i | 0 <= i < 4 ensures IsDigit(stem[i]) { assert stem[i] == stem[..4][i]; }
    }
    assert SkipDigits(stem, 0) >= 4;
  }

  // ---------------------------------------------------------------------
  // Running a rename rule on its own output
  // ---------------------------------------------------------------------

  /** The first non-blank character of `t` is a dash. */
  predicate LeadsWithDash(t: string) {
    var i := SkipSpace(t, 0);
    i < |t| && t[i] == '-'
  }

  /** `s` starts like an un-normalized album folder: four digits, optional blanks, '-'. */
  predicate StartsWithYearDash(s: string) {
    |s| >= 4 && AllDigits(s[..4]) && LeadsWithDash(s[4..])
  }

  lemma LeadsWithDashAppend(a: string, b: string)
    ensures LeadsWithDash(a + b) == if AllSpace(a) then LeadsWithDash(b) else LeadsWithDash(a)
  {
    var i := SkipSpace(a, 0);
    if i < |a| {
      assert (a + b)[0..i] == a[0..i];
      assert !IsSpace(a[i]);
      SkipSpaceUnique(a + b, 0, i);
    } else {
      var j := SkipSpace(b, 0);
      assert AllSpace(a) by { assert a == a[0..i]; }
      assert (a + b)[0..i + j] == a + b[0..j];
      assert AllSpace(a + b[0..j]) by {
        forall n | 0 <= n < i + j ensures IsSpace((a + b[0..j])[n]) {
          if n < i { assert (a + b[0..j])[n] == a[n]; } else { assert (a + b[0..j])[n] == b[0..j][n - i]; }
        }
      }
      if i + j < |a + b| { assert (a + b)[i + j] == b[j]; }
      SkipSpaceUnique(a + b, 0, i + j);
    }
  }

  /** The default album output does not match the folder pattern, unless
      the album part itself starts like "YYYY -". */
  lemma AlbumOutputNoMatch(album: string, year: string)
    requires !StartsWithYearDash(album)
    ensures AlbumDirFields(album + " (" + year + ")") == None
  {
    var tail := " (" + year + ")";
    var out := album + tail;
    assert album + " (" + year + ")" == out;
    if |album| < 4 {
      if |out| >= 4 { assert out[..4][|album|] == ' '; }
    } else if !AllDigits(album[..4]) {
      assert out[..4] == album[..4];
      assert !AllDigits(out[..4]);
    } else {
      assert out[4..] == album[4..] + tail;
      LeadsWithDashAppend(album[4..], tail);
      assert SkipSpace(tail, 0) == 1 by {
        assert tail[0..1] == " ";
        SkipSpaceUnique(tail, 0, 1);
      }
      assert !LeadsWithDash(out[4..]);
    }
  }

  /** The default track output does not match the file pattern, unless the
      title itself starts with '-' or with whitespace. */
  lemma TrackOutputNoMatch(number: nat, title: string)
    requires title == [] || (!IsSpace(title[0]) && title[0] != '-')
    ensures TrackFileFields(ZeroPad(DecimalString(number), 2) + " " + title) == None
  {
    var digits := ZeroPad(DecimalString(number), 2);
    var out := digits + " " + title;
    var n := |digits|;
    if number >= 1000 {
      var d := DecimalString(number);
      DigitsValueBound(d);
      assert |d| >= 4 by {
        assert Pow10(1) == 10 && Pow10(2) == 100 && Pow10(3) == 1000;
      }
      assert forall i | 0 <= i < 4 :: IsDigit(out[i]) by {
        forall i | 0 <= i < 4 ensures IsDigit(out[i]) { assert out[i] == digits[i]; }
      }
      assert SkipDigits(out, 0) >= 4;
    } else {
      assert Pow10(3) == 1000;
      DecimalStringLength(number, 3);
      assert SkipDigits(out, 0) == n by {
        assert out[0..n] == digits;
        assert out[n] == ' ';
        SkipDigitsUnique(out, 0, n);
      }
      var rest := out[n..];
      assert rest == " " + title;
      assert SkipSpace(rest, 0) == 1 by {
        assert rest[0..1] == " ";
        if title != [] { assert rest[1] == title[0]; }
        SkipSpaceUnique(rest, 0, 1);
      }
    }
  }

  /** With the default template, renaming an album folder a second time
      changes nothing, provided the album part does not itself start like
      "YYYY -". */
  lemma AlbumRuleIdempotent(name: string, year: string, album: string)
    requires AlbumDirFields(name) == Some(YearAlbum(year, album))
    requires !StartsWithYearDash(album)
    ensures NormalizedAlbumName(name, DefaultAlbumFormat) in {None, Some(album + " (" + year + ")")}
    ensures NormalizedAlbumName(album + " (" + year + ")", DefaultAlbumFormat) == None
  {
    DefaultAlbumRendering(album, year);
    AlbumOutputNoMatch(album, year);
  }

  /** With the default template, renaming a track file a second time
      changes nothing, provided the title does not itself start with '-'. */
  lemma TrackRuleIdempotent(stem: string, number: nat, title: string)
    requires TrackFileFields(stem) == Some(NumberTitle(number, title))
    requires title == [] || title[0] != '-'
    ensures var out := ZeroPad(DecimalString(number), 2) + " " + title;
      NormalizedTrackName(stem, DefaultTrackFormat) in {None, Some(out)} &&
      NormalizedTrackName(out, DefaultTrackFormat) == None
  {
    var k := SkipDigits(stem, 0);
    assert stem[..k] == stem[0..k];
    NumberBelow1000(stem[..k]);
    DashRestTrimmed(stem[k..]);
    DefaultTrackRendering(number, title);
    TrackOutputNoMatch(number, title);
  }

  lemma CleanDashField(y: string)
    requires CleanField(y)
    ensures CleanField("-" + y)
  {
    assert forall i | 1 <= i < |"-" + y| :: ("-" + y)[i] == y[i - 1];
  }

  lemma DashTitleShapes(digits: string, d: string, y: string)
    ensures digits + " - -" + y == digits + " " + "-" + " " + ("-" + y)
    ensures d + " -" + y == d + " " + "-" + "" + y == d + " " + ("-" + y)
  {
  }

  /** The title condition above cannot be dropped: "1 - -x" becomes "01 -x",
      which the rule renames again to "01 x". */
  lemma TrackRuleDashTitleCounterexample(digits: string, y: string)
    requires 1 <= |digits| <= 3 && AllDigits(digits) && CleanField(y)
    ensures var d := ZeroPad(DecimalString(DigitsValue(digits)), 2);
      NormalizedTrackName(digits + " - -" + y, DefaultTrackFormat) == Some(d + " -" + y) &&
      NormalizedTrackName(d + " -" + y, DefaultTrackFormat) == Some(d + " " + y)
  {
    var number := DigitsValue(digits);
    var d := ZeroPad(DecimalString(number), 2);
    var stem := digits + " - -" + y;
    var out1, out2 := d + " -" + y, d + " " + y;
    CleanDashField(y);
    DashTitleShapes(digits, d, y);
    TrackFileOfParts(digits, " ", " ", "-" + y);
    NumberBelow1000(digits);
    DecimalStringLength(number, 3);
    assert Pow10(3) == 1000;
    TrackFileOfParts(d, " ", "", y);
    assert TrackFileFields(out1) != TrackFileFields(stem) by { assert |"-" + y| != |y|; }
    TrackRuleOn(stem, number, "-" + y, out1);
    assert |out2| != |out1|;
    TrackRuleOn(out1, number, y, out2);
  }

  lemma CleanYearDashField(year: string, x: string)
    requires |year| == 4 && AllDigits(year) && CleanField(x)
    ensures CleanField(year + " - " + x)
  {
    var a := year + " - " + x;
    forall i | 0 <= i < |a| ensures a[i] != '\n' {
      if i < 4 { assert a[i] == year[i]; }
      else if i >= 7 { assert a[i] == x[i - 7]; }
    }
    assert a[0] == year[0];
    assert a[|a| - 1] == x[|x| - 1];
  }

  lemma CleanYearSuffixField(x: string, year: string)
    requires |year| == 4 && AllDigits(year) && CleanField(x)
    ensures CleanField(x + " (" + year + ")")
  {
    var a := x + " (" + year + ")";
    forall i | 0 <= i < |a| ensures a[i] != '\n' {
      if i < |x| { assert a[i] == x[i]; }
      else if |x| + 2 <= i < |x| + 6 { assert a[i] == year[i - |x| - 2]; }
    }
    assert a[0] == x[0];
  }

  /** A folder name written "year - album". */
  function DashName(year: string, album: string): string {
    year + " - " + album
  }

  /** A folder name written "album (year)". */
  function SuffixName(album: string, year: string): string {
    album + " (" + year + ")"
  }

  /** The default album rule on a name written "year - album". */
  lemma DashRuleStep(year: string, album: string)
    requires |year| == 4 && AllDigits(year) && CleanField(album)
    requires SuffixName(album, year) != DashName(year, album)
    ensures NormalizedAlbumName(DashName(year, album), DefaultAlbumFormat) == Some(SuffixName(album, year))
  {
    assert DashName(year, album) == year + " " + "-" + " " + album;
    AlbumDirOfParts(year, " ", " ", album);
    AlbumRuleOn(DashName(year, album), year, album, SuffixName(album, year));
  }

  /** The album condition above cannot be dropped: "2001 - 1999 - X" becomes
      "1999 - X (2001)", which the rule renames again to "X (2001) (1999)". */
  lemma AlbumRuleYearAlbumCounterexample(year1: string, year2: string, x: string)
    requires |year1| == 4 && AllDigits(year1) && |year2| == 4 && AllDigits(year2)
    requires year1 != year2 && CleanField(x)
    ensures NormalizedAlbumName(DashName(year1, DashName(year2, x)), DefaultAlbumFormat)
      == Some(DashName(year2, SuffixName(x, year1)))
    ensures NormalizedAlbumName(DashName(year2, SuffixName(x, year1)), DefaultAlbumFormat)
      == Some(SuffixName(SuffixName(x, year1), year2))
  {
    var a1 := DashName(year2, x);
    var a2 := SuffixName(x, year1);
    assert SuffixName(a1, year1) == DashName(year2, a2);
    CleanYearDashField(year2, x);
    CleanYearSuffixField(x, year1);
    DashStartsWithYear(year1, a1);
    DashStartsWithYear(year2, a2);
    DashRuleStep(year1, a1);
    SuffixEndsWithYear(a2, year2);
    SuffixEndsWithYear(a1, year1);
    DashRuleStep(year2, a2);
  }

  /** "year - album" starts with the year. */
  lemma DashStartsWithYear(year: string, album: string)
    requires |year| == 4
    ensures DashName(year, album)[..4] == year
  {
  }

  /** "album (year)" ends with the year and a closing parenthesis. */
  lemma SuffixEndsWithYear(album: string, year: string)
    requires |year| == 4
    ensures var n := SuffixName(album, year); n[|n| - 5..|n| - 1] == year
  {
  }
}
