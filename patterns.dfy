/** The four regular expressions of prep_files.py, written out over characters.

    Each pattern has two definitions: a ghost predicate saying which ways of
    cutting the input the regex accepts (the pattern read literally), and a
    matcher that computes the captured fields; the lemmas show they agree.
    Python's `$` matches at the very end or just before one final line feed,
    and `.` never consumes a line feed; both are modelled. A captured group
    is always passed through `str.strip()` by the caller, so the matchers
    return the stripped group; `Strip` gives the same result however the
    regex engine distributes surrounding whitespace between `\s*` and the group. */
module Patterns {
  import opened Wrappers
  import opened Text

  /** Where `$` can match: the end of `s`, or just before one final line feed. */
  function LineEnd(s: string): (e: nat)
    ensures e <= |s| && (s[e..] == "" || s[e..] == "\n")
    ensures e == |s| || e == |s| - 1
  {
    if |s| > 0 && s[|s| - 1] == '\n' then |s| - 1 else |s|
  }

  /** The index just past the last line feed in `s[lo..hi]`, or `lo` when there is none. */
  function AfterLastNewline(s: string, lo: nat, hi: nat): (k: nat)
    requires lo <= hi <= |s|
    ensures lo <= k <= hi && NoNewline(s[k..hi])
    ensures k > lo ==> s[k - 1] == '\n'
    decreases hi
  {
    if hi == lo then lo
    else if s[hi - 1] == '\n' then hi
    else
      var k := AfterLastNewline(s, lo, hi - 1);
      assert s[k..hi] == s[k..hi - 1] + [s[hi - 1]];
      k
  }

  /** The index of the first line feed in `s[..hi]`, or `hi` when there is none. */
  function FirstNewline(s: string, hi: nat): (j: nat)
    requires hi <= |s|
    ensures j <= hi && NoNewline(s[..j])
    ensures j < hi ==> s[j] == '\n'
    decreases hi
  {
    if hi == 0 then 0
    else
      var j := FirstNewline(s, hi - 1);
      if j < hi - 1 then j
      else if s[hi - 1] == '\n' then hi - 1
      else
        assert s[..hi] == s[..hi - 1] + [s[hi - 1]];
        hi
  }

  // ---------------------------------------------------------------------
  // The tail shared by the two rename patterns: `\s*-\s*(?P<g>.+)$`
  // ---------------------------------------------------------------------

  /** `t` splits as whitespace, '-', whitespace, a group `t[q..e]` of at
      least one character other than line feed, then the end or one final
      line feed. */
  ghost predicate DashTailAt(t: string, p: int, q: int, e: int) {
    && 0 <= p < q < e <= |t|
    && AllSpace(t[0..p]) && t[p] == '-' && AllSpace(t[p + 1..q])
    && NoNewline(t[q..e]) && (t[e..] == "" || t[e..] == "\n")
  }

  /** The tail pattern accepts `t` with a group that strips to `v`. */
  ghost predicate DashTail(t: string, v: string) {
    exists p, q, e :: DashTailAt(t, p, q, e) && v == Strip(t[q..e])
  }

  /** Matcher for the tail pattern: the stripped group, or None. The group
      is cut after the last line feed, the only place a line feed may sit
      (inside the whitespace after the dash). */
  function DashRest(t: string): Option<string> {
    var i := SkipSpace(t, 0);
    if i == |t| || t[i] != '-' then None
    else
      var e := LineEnd(t);
      var k := AfterLastNewline(t, i + 1, e);
      if k < e && AllSpace(t[i + 1..k]) then Some(Strip(t[k..e])) else None
  }

  lemma DashRestSound(t: string)
    requires DashRest(t).Some?
    ensures DashTail(t, DashRest(t).value)
  {
    var i := SkipSpace(t, 0);
    assert DashTailAt(t, i, AfterLastNewline(t, i + 1, LineEnd(t)), LineEnd(t));
  }

  lemma DashRestComplete(t: string, p: int, q: int, e: int)
    requires DashTailAt(t, p, q, e)
    ensures DashRest(t) == Some(Strip(t[q..e]))
  {
    SkipSpaceUnique(t, 0, p);
    assert LineEnd(t) == e by {
      if t[e..] == "" { assert t[e - 1] == t[q..e][e - 1 - q]; }
    }
    var k := AfterLastNewline(t, p + 1, e);
    assert k <= q by {
      assert forall n | q <= n < e :: t[n] != '\n' by {
        forall n | q <= n < e ensures t[n] != '\n' { assert t[n] == t[q..e][n - q]; }
      }
    }
    assert AllSpace(t[p + 1..k]) by {
      assert t[p + 1..k] == t[p + 1..q][..k - p - 1];
    }
    assert Strip(t[k..e]) == Strip(t[q..e]) by {
      assert t[k..e] == t[k..q] + t[q..e];
      assert t[k..q] == t[p + 1..q][k - p - 1..];
      StripSpacePrefix(t[k..q], t[q..e]);
    }
  }

  /** A field that survives a match unchanged: not empty, no line feed,
      no whitespace at either end. */
  predicate CleanField(g: string) {
    g != [] && !IsSpace(g[0]) && !IsSpace(g[|g| - 1]) && NoNewline(g)
  }

  /** The tail pattern reads back a clean field after a dash, whatever the
      blanks around the dash. */
  lemma DashRestOfParts(pre: string, post: string, g: string)
    requires AllSpace(pre) && AllSpace(post) && CleanField(g)
    ensures DashRest(pre + "-" + post + g) == Some(g)
  {
    var t := pre + "-" + post + g;
    var p, q := |pre|, |pre| + 1 + |post|;
    assert t[0..p] == pre && t[p] == '-' && t[p + 1..q] == post && t[q..|t|] == g && t[|t|..] == "";
    DashRestComplete(t, p, q, |t|);
    StripUnchanged(g);
  }

  // ---------------------------------------------------------------------
  // ALBUM_DIR_PATTERN  `^(?P<year>\d{4})\s*-\s*(?P<album>.+)$`
  // ---------------------------------------------------------------------

  datatype YearAlbum = YearAlbum(year: string, album: string)

  ghost predicate AlbumDirSpec(name: string, m: YearAlbum) {
    |name| >= 4 && AllDigits(name[..4]) && m.year == name[..4] && DashTail(name[4..], m.album)
  }

  /** `ALBUM_DIR_PATTERN.match(name)`, giving the year and the stripped album. */
  function AlbumDirFields(name: string): Option<YearAlbum> {
    if |name| >= 4 && AllDigits(name[..4]) then
      match DashRest(name[4..])
      case None => None
      case Some(album) => Some(YearAlbum(name[..4], album))
    else None
  }

  /** The matcher finds exactly what the pattern accepts. */
  lemma AlbumDirFieldsExact(name: string)
    ensures AlbumDirFields(name).Some? ==> AlbumDirSpec(name, AlbumDirFields(name).value)
    ensures forall m :: AlbumDirSpec(name, m) ==> AlbumDirFields(name) == Some(m)
  {
    if AlbumDirFields(name).Some? { DashRestSound(name[4..]); }
    forall m | AlbumDirSpec(name, m) ensures AlbumDirFields(name) == Some(m) {
      var p, q, e :| DashTailAt(name[4..], p, q, e) && m.album == Strip(name[4..][q..e]);
      DashRestComplete(name[4..], p, q, e);
    }
  }

  /** A folder name built as year, dash, album reads back as that year and album. */
  lemma AlbumDirOfParts(year: string, pre: string, post: string, album: string)
    requires |year| == 4 && AllDigits(year)
    requires AllSpace(pre) && AllSpace(post) && CleanField(album)
    ensures AlbumDirFields(year + pre + "-" + post + album) == Some(YearAlbum(year, album))
  {
    var name := year + pre + "-" + post + album;
    assert name[..4] == year;
    assert name[4..] == pre + "-" + post + album;
    DashRestOfParts(pre, post, album);
  }

  // ---------------------------------------------------------------------
  // TRACK_FILE_PATTERN  `^(?P<num>\d{1,3})\s*-\s*(?P<title>.+)$`
  // ---------------------------------------------------------------------

  datatype NumberTitle = NumberTitle(number: nat, title: string)

  ghost predicate TrackFileSpec(stem: string, m: NumberTitle) {
    exists k :: 1 <= k <= 3 && k <= |stem| && AllDigits(stem[..k])
      && m.number == DigitsValue(stem[..k]) && DashTail(stem[k..], m.title)
  }

  /** `TRACK_FILE_PATTERN.match(stem)`, giving `int(num)` and the stripped title.
      `\d{1,3}` is greedy and backtracks, but a shorter digit run is always
      followed by a digit, which `\s*-` cannot consume: only the full run of
      leading digits can succeed, and only when it has 1 to 3 digits. */
  function TrackFileFields(stem: string): Option<NumberTitle> {
    var k := SkipDigits(stem, 0);
    if 1 <= k <= 3 then
      assert stem[..k] == stem[0..k];
      match DashRest(stem[k..])
      case None => None
      case Some(title) => Some(NumberTitle(DigitsValue(stem[..k]), title))
    else None
  }

  lemma DashTailStart(t: string, v: string)
    requires DashTail(t, v)
    ensures |t| > 0 && (IsSpace(t[0]) || t[0] == '-')
  {
    var p, q, e :| DashTailAt(t, p, q, e) && v == Strip(t[q..e]);
    if p > 0 { assert IsSpace(t[..p][0]); }
  }

  /** The matcher finds exactly what the pattern accepts. */
  lemma TrackFileFieldsExact(stem: string)
    ensures TrackFileFields(stem).Some? ==> TrackFileSpec(stem, TrackFileFields(stem).value)
    ensures forall m :: TrackFileSpec(stem, m) ==> TrackFileFields(stem) == Some(m)
  {
    var k := SkipDigits(stem, 0);
    if TrackFileFields(stem).Some? {
      DashRestSound(stem[k..]);
      assert stem[..k] == stem[0..k];
    }
    forall m | TrackFileSpec(stem, m) ensures TrackFileFields(stem) == Some(m) {
      var k' :| 1 <= k' <= 3 && k' <= |stem| && AllDigits(stem[..k'])
        && m.number == DigitsValue(stem[..k']) && DashTail(stem[k'..], m.title);
      TrackFileComplete(stem, k', m.title);
    }
  }

  lemma TrackFileComplete(stem: string, k: nat, title: string)
    requires 1 <= k <= 3 && k <= |stem| && AllDigits(stem[..k]) && DashTail(stem[k..], title)
    ensures TrackFileFields(stem) == Some(NumberTitle(DigitsValue(stem[..k]), title))
  {
    var p, q, e :| DashTailAt(stem[k..], p, q, e) && title == Strip(stem[k..][q..e]);
    DashTailStart(stem[k..], title);
    assert stem[k] == stem[k..][0];
    assert stem[..k] == stem[0..k];
    SkipDigitsUnique(stem, 0, k);
    DashRestComplete(stem[k..], p, q, e);
  }

  /** A stem built as one to three digits, dash, title reads back as the
      digits' value and that title. */
  lemma TrackFileOfParts(digits: string, pre: string, post: string, title: string)
    requires 1 <= |digits| <= 3 && AllDigits(digits)
    requires AllSpace(pre) && AllSpace(post) && CleanField(title)
    ensures TrackFileFields(digits + pre + "-" + post + title) == Some(NumberTitle(DigitsValue(digits), title))
  {
    var stem := digits + pre + "-" + post + title;
    var k := |digits|;
    assert stem[..k] == digits;
    assert stem[k..] == pre + "-" + post + title;
    DashRestOfParts(pre, post, title);
    DashRestSound(stem[k..]);
    TrackFileComplete(stem, k, title);
  }

  // ---------------------------------------------------------------------
  // ALBUM_PATTERN  `^(?P<album>.+?)\s*\((?P<year>\d{4})\)$`
  // ---------------------------------------------------------------------

  /** `n` splits as a group `n[..L]` of at least one character other than
      line feed, whitespace, '(' four digits ')', then the end or one final
      line feed. */
  ghost predicate AlbumYearAt(n: string, L: int, m: int) {
    && 1 <= L <= m && m + 6 <= |n|
    && NoNewline(n[..L]) && AllSpace(n[L..m])
    && n[m] == '(' && AllDigits(n[m + 1..m + 5]) && n[m + 5] == ')'
    && (n[m + 6..] == "" || n[m + 6..] == "\n")
  }

  ghost predicate AlbumYearSpec(n: string, r: YearAlbum) {
    exists L, m :: AlbumYearAt(n, L, m) && r.year == n[m + 1..m + 5] && r.album == Strip(n[..L])
  }

  /** `ALBUM_PATTERN.match(name)`, giving the year and the stripped album.
      The lazy group takes the shortest prefix after which only whitespace
      precedes "(DDDD)"; every such prefix strips to the same album, so the
      matcher strips the longest candidate, everything before the first line feed. */
  function AlbumYearFields(n: string): Option<YearAlbum> {
    var e := LineEnd(n);
    if e >= 6 && n[e - 6] == '(' && AllDigits(n[e - 5..e - 1]) && n[e - 1] == ')' then
      var j := FirstNewline(n, e - 6);
      if j >= 1 && AllSpace(n[j..e - 6]) then Some(YearAlbum(n[e - 5..e - 1], Strip(n[..j])))
      else None
    else None
  }

  /** The matcher finds exactly what the pattern accepts. */
  lemma AlbumYearFieldsExact(n: string)
    ensures AlbumYearFields(n).Some? ==> AlbumYearSpec(n, AlbumYearFields(n).value)
    ensures forall r :: AlbumYearSpec(n, r) ==> AlbumYearFields(n) == Some(r)
  {
    var e := LineEnd(n);
    if AlbumYearFields(n).Some? {
      assert AlbumYearAt(n, FirstNewline(n, e - 6), e - 6);
    }
    forall r | AlbumYearSpec(n, r) ensures AlbumYearFields(n) == Some(r) {
      var L, m :| AlbumYearAt(n, L, m) && r.year == n[m + 1..m + 5] && r.album == Strip(n[..L]);
      AlbumYearComplete(n, L, m);
    }
  }

  lemma AlbumYearComplete(n: string, L: int, m: int)
    requires AlbumYearAt(n, L, m)
    ensures AlbumYearFields(n) == Some(YearAlbum(n[m + 1..m + 5], Strip(n[..L])))
  {
    AlbumYearLineEnd(n, L, m);
    AlbumYearFirstNewline(n, L, m);
    AlbumYearFieldsAt(n, m);
  }

  /** The matcher's own tests, once the "(DDDD)" group sits at `m`. */
  lemma AlbumYearFieldsAt(n: string, m: nat)
    requires m + 6 == LineEnd(n) && n[m] == '(' && AllDigits(n[m + 1..m + 5]) && n[m + 5] == ')'
    requires 1 <= FirstNewline(n, m) && AllSpace(n[FirstNewline(n, m)..m])
    ensures AlbumYearFields(n) == Some(YearAlbum(n[m + 1..m + 5], Strip(n[..FirstNewline(n, m)])))
  {
    var e := LineEnd(n);
    assert e - 6 == m && e - 5 == m + 1 && e - 1 == m + 5;
  }

  lemma AlbumYearLineEnd(n: string, L: int, m: int)
    requires AlbumYearAt(n, L, m)
    ensures LineEnd(n) == m + 6
  {
    assert n[m + 5] == ')';
  }

  /** The matcher's album candidate, the text before the first line feed,
      strips to the same album as any other accepted prefix. */
  lemma AlbumYearFirstNewline(n: string, L: int, m: int)
    requires AlbumYearAt(n, L, m)
    ensures var j := FirstNewline(n, m);
      L <= j && AllSpace(n[j..m]) && Strip(n[..j]) == Strip(n[..L])
  {
    var j := FirstNewline(n, m);
    assert L <= j by {
      assert forall x | 0 <= x < L :: n[x] != '\n' by {
        forall x | 0 <= x < L ensures n[x] != '\n' { assert n[x] == n[..L][x]; }
      }
    }
    assert AllSpace(n[j..m]) by {
      assert n[j..m] == n[L..m][j - L..];
    }
    assert Strip(n[..j]) == Strip(n[..L]) by {
      assert n[..j] == n[..L] + n[L..j];
      assert n[L..j] == n[L..m][..j - L];
      StripSpaceSuffix(n[..L], n[L..j]);
    }
  }

  /** A folder name built as album, blanks, "(YYYY)" reads back as that album and year. */
  lemma AlbumYearOfParts(album: string, sep: string, year: string)
    requires CleanField(album) && AllSpace(sep) && |year| == 4 && AllDigits(year)
    ensures AlbumYearFields(album + sep + "(" + year + ")") == Some(YearAlbum(year, album))
  {
    var n := album + sep + "(" + year + ")";
    var L, m := |album|, |album| + |sep|;
    assert n[..L] == album && n[L..m] == sep && n[m] == '(' && n[m + 1..m + 5] == year;
    assert n[m + 5] == ')' && n[m + 6..] == "";
    AlbumYearComplete(n, L, m);
    StripUnchanged(album);
  }

  /** A matched tail field is empty or clean. */
  lemma DashRestTrimmed(t: string)
    requires DashRest(t).Some?
    ensures DashRest(t).value == [] || CleanField(DashRest(t).value)
  {
    var i := SkipSpace(t, 0);
    var e := LineEnd(t);
    var k := AfterLastNewline(t, i + 1, e);
    var g := t[k..e];
    StripSpec(g);
    StripNoNewline(g);
  }

  /** A matched tail field holds no character the tail lacks. */
  lemma DashRestChars(t: string, c: char)
    requires c !in t && DashRest(t).Some?
    ensures c !in DashRest(t).value
  {
    var i := SkipSpace(t, 0);
    var e := LineEnd(t);
    var k := AfterLastNewline(t, i + 1, e);
    NotInSlice(t, c, k, e);
    StripChars(t[k..e], c);
  }

  /** The album field of a folder name holds no character the name lacks. */
  lemma AlbumDirFieldsChars(name: string, c: char)
    requires c !in name && AlbumDirFields(name).Some?
    ensures c !in AlbumDirFields(name).value.album
  {
    NotInSlice(name, c, 4, |name|);
    assert name[4..] == name[4..|name|];
    DashRestChars(name[4..], c);
  }

  /** The title field of a file stem holds no character the stem lacks. */
  lemma TrackFileFieldsChars(stem: string, c: char)
    requires c !in stem && TrackFileFields(stem).Some?
    ensures c !in TrackFileFields(stem).value.title
  {
    var k := SkipDigits(stem, 0);
    NotInSlice(stem, c, k, |stem|);
    assert stem[k..] == stem[k..|stem|];
    DashRestChars(stem[k..], c);
  }

  // ---------------------------------------------------------------------
  // TRACK_PATTERN  `^(?P<track>\d{2})\b`
  // ---------------------------------------------------------------------

  /** `\b` at position `i` of `s`: a word character on exactly one side. */
  predicate WordBoundary(s: string, i: nat)
    requires i <= |s|
  {
    (i > 0 && IsWordChar(s[i - 1])) != (i < |s| && IsWordChar(s[i]))
  }

  /** `TRACK_PATTERN.match(stem)`: the two leading digits, kept as text. */
  function TrackPrefix(stem: string): (r: Option<string>)
    ensures r.Some? <==> |stem| >= 2 && AllDigits(stem[..2]) && WordBoundary(stem, 2)
    ensures r.Some? ==> r.value == stem[..2]
  {
    if |stem| >= 2 && IsDigit(stem[0]) && IsDigit(stem[1]) && (|stem| == 2 || !IsWordChar(stem[2]))
    then Some(stem[..2])
    else None
  }
}
