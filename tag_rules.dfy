/** The metadata rules: which files are audio files, and which tags a file's
    place in the `Artist/Album (YYYY)/NN Title.ext` layout asks for. */
module TagRules {
  import opened Wrappers
  import opened Text
  import opened Paths
  import opened Patterns

  /** `AUDIO_EXTENSIONS`, all in lower case. */
  const AudioExtensions: set<string> :=
    {".aac", ".aiff", ".alac", ".ape", ".flac", ".m4a", ".mp3", ".mp4",
     ".ogg", ".oga", ".opus", ".wav", ".wma"}

  /** `is_audio_file`: a regular file whose suffix is on the list, in any letter case. */
  function IsAudioFile(e: Entry): (b: bool)
    ensures b <==> (e.kind == RegularFile &&
      exists x :: x in AudioExtensions && EqualIgnoringCase(Suffix(Name(e.path)), x))
  {
    var suffix := Suffix(Name(e.path));
    assert forall x | x in AudioExtensions :: LowerCase(x);
    forall x | x in AudioExtensions ensures Lower(suffix) == x <==> EqualIgnoringCase(suffix, x) {
      LowerMatches(suffix, x);
    }
    e.kind == RegularFile && Lower(suffix) in AudioExtensions
  }

  /** The seven keys `derive_metadata_for_file` fills. */
  const TagKeys: set<string> := {"album", "date", "year", "tracknumber", "artist", "albumartist", "author"}

  /** The dict `derive_metadata_for_file` returns. */
  function TagMap(album: string, year: string, track: string, author: string): map<string, string> {
    map["album" := album, "date" := year, "year" := year, "tracknumber" := track,
        "artist" := author, "albumartist" := author, "author" := author]
  }

  /** The seven keys, each holding its field: the year under both "date"
      and "year", the author under "artist", "albumartist" and "author". */
  lemma TagMapFields(album: string, year: string, track: string, author: string)
    ensures var m := TagMap(album, year, track, author);
      && m.Keys == TagKeys
      && m["album"] == album && m["date"] == year && m["year"] == year && m["tracknumber"] == track
      && m["artist"] == author && m["albumartist"] == author && m["author"] == author
    ensures album != "" && year != "" && track != "" && author != "" ==>
      forall k | k in TagMap(album, year, track, author) :: TagMap(album, year, track, author)[k] != ""
  {
  }

  /** `derive_metadata_for_file` on the file's full path: the album and year
      from the parent folder, the two-digit track number from the stem, and
      the artist from the grandparent folder. */
  function DeriveMetadata(path: Path): (r: Option<map<string, string>>)
    ensures r.Some? <==>
      && (exists ya :: AlbumYearSpec(Name(Parent(path)), ya) && ya.album != "")
      && TrackPrefix(Stem(Name(path))).Some?
      && Strip(Name(Parent(Parent(path)))) != ""
  {
    var albumDir := Name(Parent(path));
    var author := Strip(Name(Parent(Parent(path))));
    AlbumYearFieldsExact(albumDir);
    match AlbumYearFields(albumDir)
    case None => None
    case Some(ya) =>
      match TrackPrefix(Stem(Name(path)))
      case None => None
      case Some(track) =>
        if ya.album == "" || author == "" then None
        else Some(TagMap(ya.album, ya.year, track, author))
  }

  /** The tags derived for a file hold all seven keys, none of them empty. */
  lemma DeriveMetadataKeys(path: Path)
    requires DeriveMetadata(path).Some?
    ensures DeriveMetadata(path).value.Keys == TagKeys
    ensures forall k | k in DeriveMetadata(path).value :: DeriveMetadata(path).value[k] != ""
  {
    DeriveMetadataTags(path);
  }

  /** The tags derived for a file: all seven keys, none empty, album and
      year as the folder pattern reads them, date equal to year, the stem's
      first two digits as track number, and the stripped grandparent name
      as artist, album artist and author. */
  lemma DeriveMetadataTags(path: Path)
    requires DeriveMetadata(path).Some?
    ensures var tags := DeriveMetadata(path).value;
      && tags.Keys == TagKeys
      && (forall k | k in tags :: tags[k] != "")
      && AlbumYearSpec(Name(Parent(path)), YearAlbum(tags["year"], tags["album"]))
      && |tags["year"]| == 4 && AllDigits(tags["year"]) && tags["date"] == tags["year"]
      && tags["tracknumber"] == Stem(Name(path))[..2] && AllDigits(tags["tracknumber"])
      && tags["artist"] == Strip(Name(Parent(Parent(path))))
      && tags["albumartist"] == tags["artist"] && tags["author"] == tags["artist"]
  {
    var albumDir := Name(Parent(path));
    AlbumYearFieldsExact(albumDir);
    var ya := AlbumYearFields(albumDir).value;
    var L, m :| AlbumYearAt(albumDir, L, m) && ya.year == albumDir[m + 1..m + 5] && ya.album == Strip(albumDir[..L]);
    assert AllDigits(ya.year) by {
      forall x | 0 <= x < 4 ensures IsDigit(ya.year[x]) { assert ya.year[x] == albumDir[m + 1..m + 5][x]; }
    }
    var track := TrackPrefix(Stem(Name(path))).value;
    var author := Strip(Name(Parent(Parent(path))));
    assert DeriveMetadata(path).value == TagMap(ya.album, ya.year, track, author);
    TagMapFields(ya.album, ya.year, track, author);
  }

  /** A file laid out as `Artist/Album (YYYY)/NN…` gets exactly those tags:
      `Daft Punk/Discovery (2001)/01 One More Time.flac` is tagged album
      "Discovery", date and year "2001", track "01" and artist "Daft Punk". */
  lemma DeriveFromLayout(prefix: Path, artist: string, album: string, year: string, file: string)
    requires Strip(artist) != "" && CleanField(album) && |year| == 4 && AllDigits(year)
    requires TrackPrefix(Stem(file)).Some?
    ensures DeriveMetadata(prefix + [artist, album + " (" + year + ")", file])
      == Some(TagMap(album, year, Stem(file)[..2], Strip(artist)))
  {
    var dir := album + " (" + year + ")";
    LayoutNames(prefix, artist, dir, file);
    FolderParts(album, year);
    AlbumYearOfParts(album, " ", year);
  }

  lemma LayoutNames(prefix: Path, artist: string, dir: string, file: string)
    ensures var path := prefix + [artist, dir, file];
      Name(path) == file && Name(Parent(path)) == dir && Name(Parent(Parent(path))) == artist
  {
    var path := prefix + [artist, dir, file];
    assert Parent(path) == prefix + [artist, dir];
    assert Parent(Parent(path)) == prefix + [artist];
  }

  lemma FolderParts(album: string, year: string)
    ensures album + " (" + year + ")" == album + " " + "(" + year + ")"
  {
  }
}
