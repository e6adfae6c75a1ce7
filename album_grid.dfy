/**
 * The album grid: the catalogue's albums cut to an optional limit, each drawn
 * as a link to its portfolio page, with a smaller cover thumbnail or, for an
 * album without cover, a placeholder.
 */
module AlbumGrid {
  import opened Wrappers
  import opened Text
  import opened Seqs
  import FetchNames
  import DriveLink
  import opened FetchCatalogue

  /** `limit ? albums.slice(0, limit) : albums`: a limit of 0 is falsy and shows
      every album. */
  function ShownAlbums(albums: seq<AlbumEntry>, limit: Option<nat>): (r: seq<AlbumEntry>)
    ensures |r| <= |albums| && r == albums[..|r|]
    ensures limit.None? || limit == Some(0) ==> r == albums
    ensures limit.Some? && limit.value > 0 ==>
      |r| == if limit.value < |albums| then limit.value else |albums|
  {
    if limit.Some? && limit.value != 0 then Take(albums, limit) else albums
  }

  const LargeMark: string := "sz=w800"
  const SmallMark: string := "sz=w400"

  /** `getSmallThumb`: `url?.replace('sz=w800', 'sz=w400')`. */
  function SmallThumb(url: Option<string>): (r: Option<string>)
    ensures r.None? <==> url.None?
  {
    match url
    case None => None
    case Some(u) => Some(ReplaceFirst(u, LargeMark, SmallMark))
  }

  /** A URL without the large-size mark is kept; otherwise only its leftmost
      mark is replaced. */
  lemma SmallThumbCases(u: string)
    ensures (forall k: nat :: !OccursAt(u, LargeMark, k)) ==> SmallThumb(Some(u)) == Some(u)
    ensures forall k: nat :: OccursAt(u, LargeMark, k) && (forall j: nat :: j < k ==> !OccursAt(u, LargeMark, j)) ==>
      SmallThumb(Some(u)) == Some(u[..k] + SmallMark + u[k + |LargeMark|..])
  {
    if forall k: nat :: !OccursAt(u, LargeMark, k) {
      ReplaceFirstAbsent(u, LargeMark, SmallMark);
    }
    forall k: nat | OccursAt(u, LargeMark, k) && (forall j: nat :: j < k ==> !OccursAt(u, LargeMark, j))
      ensures SmallThumb(Some(u)) == Some(u[..k] + SmallMark + u[k + |LargeMark|..])
    {
      ReplaceFirstLeftmost(u, LargeMark, SmallMark, k);
    }
  }

  predicate NoEquals(s: string) { forall i :: 0 <= i < |s| ==> s[i] != '=' }

  /** The mark contains `=` at its third character, so in a string whose only `=`
      is at `e` it can occur only two characters before `e`. */
  lemma MarkBeforeEquals(s: string, e: nat)
    requires e < |s| && forall i :: 0 <= i < |s| && i != e ==> s[i] != '='
    ensures forall j: nat :: OccursAt(s, LargeMark, j) ==> j + 2 == e && s[j] == 's' && s[j + 1] == 'z'
  {
    forall j: nat | OccursAt(s, LargeMark, j) ensures j + 2 == e && s[j] == 's' && s[j + 1] == 'z' {
      var m := s[j..j + |LargeMark|];
      assert s[j] == m[0] && s[j + 1] == m[1] && s[j + 2] == m[2];
    }
  }

  lemma ContentPrefixNoEquals()
    ensures NoEquals(FetchNames.ContentPrefix)
  {
  }

  lemma ContentPrefixEnd()
    ensures FetchNames.ContentPrefix[|FetchNames.ContentPrefix| - 1] == '/'
  {
  }

  lemma CoverSizeDigits()
    ensures NatToString(800) == "800" && NatToString(400) == "400"
  {
    assert NatToString(8) == "8";
    assert NatToString(80) == "8" + "0";
    DriveLink.DefaultSizeDigits();
  }

  /** A mark right after a text without `=` is the leftmost one. */
  lemma ThumbOfMarked(w: string)
    requires NoEquals(w)
    ensures ReplaceFirst(w + LargeMark, LargeMark, SmallMark) == w + SmallMark
  {
    var u := w + LargeMark;
    var e := |w| + 2;
    forall i | 0 <= i < |u| && i != e ensures u[i] != '=' {
      if i < |w| {
        assert u[i] == w[i];
      } else {
        assert u[i] == LargeMark[i - |w|];
      }
    }
    MarkBeforeEquals(u, e);
    assert u[|w|..|w| + |LargeMark|] == LargeMark;
    ReplaceFirstLeftmost(u, LargeMark, SmallMark, |w|);
    assert u[|w| + |LargeMark|..] == [];
  }

  /** Without `sz` in front of the width the mark does not occur. */
  lemma ThumbOfUnmarked(p: string, id: string)
    requires |p| > 0 && NoEquals(p) && p[|p| - 1] == '/'
    requires NoEquals(id) && !EndsInSz(id)
    ensures ReplaceFirst(p + id + "=w800", LargeMark, SmallMark) == p + id + "=w800"
  {
    var u := p + id + "=w800";
    var e := |p| + |id|;
    forall i | 0 <= i < |u| && i != e ensures u[i] != '=' {
      if i < |p| {
        assert u[i] == p[i];
      } else if i < e {
        assert u[i] == id[i - |p|];
      }
    }
    MarkBeforeEquals(u, e);
    assert |id| == 0 ==> u[e - 1] == p[|p| - 1];
    assert |id| == 1 ==> u[e - 2] == p[|p| - 1];
    assert |id| >= 2 ==> u[e - 2] == id[|id| - 2] && u[e - 1] == id[|id| - 1];
    ReplaceFirstAbsent(u, LargeMark, SmallMark);
  }

  predicate EndsInSz(id: string) { |id| >= 2 && id[|id| - 2] == 's' && id[|id| - 1] == 'z' }

  /** The helper on `p + id + "=w800"`, for a prefix `p` like the fetcher's. */
  lemma ThumbOfCover(p: string, id: string)
    requires |p| > 0 && NoEquals(p) && p[|p| - 1] == '/'
    requires NoEquals(id)
    ensures ReplaceFirst(p + id + "=w800", LargeMark, SmallMark) ==
      p + id + if EndsInSz(id) then "=w400" else "=w800"
  {
    if EndsInSz(id) {
      var w := p + id[..|id| - 2];
      assert id == id[..|id| - 2] + "sz";
      assert p + id + "=w800" == w + LargeMark;
      forall i | 0 <= i < |w| ensures w[i] != '=' {
        if i >= |p| {
          assert w[i] == id[i - |p|];
        }
      }
      ThumbOfMarked(w);
      assert w + SmallMark == p + id + "=w400";
    } else {
      ThumbOfUnmarked(p, id);
    }
  }

  /** On a cover URL written by the photo fetcher the thumbnail helper changes
      nothing, except when the file id ends in `sz`: then the mark straddles the
      id and the width, and the URL becomes the 400-wide one. */
  lemma CoverThumb(id: string)
    requires NoEquals(id)
    ensures SmallThumb(Some(FetchNames.ImageUrl(id, true, 800))) ==
      Some(FetchNames.ImageUrl(id, true, if EndsInSz(id) then 400 else 800))
  {
    var p := FetchNames.ContentPrefix;
    CoverSizeDigits();
    ContentPrefixNoEquals();
    ContentPrefixEnd();
    assert FetchNames.ImageUrl(id, true, 800) == p + id + "=w800";
    assert FetchNames.ImageUrl(id, true, 400) == p + id + "=w400";
    ThumbOfCover(p, id);
  }

  // ---------------------------------------------------------------------------
  // The tiles

  const PortfolioLink: string := "/portfolio?album="

  /** `/portfolio?album=${album.id}`. */
  function AlbumLink(a: AlbumEntry): (r: string)
    ensures |r| == |PortfolioLink| + |a.id| && r[..|PortfolioLink|] == PortfolioLink
    ensures r[|PortfolioLink|..] == a.id
  {
    PortfolioLink + a.id
  }

  /** Different album ids link to different pages. */
  lemma AlbumLinkInjective(a: AlbumEntry, b: AlbumEntry)
    requires AlbumLink(a) == AlbumLink(b)
    ensures a.id == b.id
  {
    assert a.id == AlbumLink(a)[|PortfolioLink|..];
    assert b.id == AlbumLink(b)[|PortfolioLink|..];
  }

  /** What a tile shows above its title. */
  datatype Cover = Placeholder | CoverImage(src: string)

  /** `album.coverPhoto ? <ProtectedImage src={getSmallThumb(...)}> : "No cover"`;
      an empty string is falsy too. */
  function CoverOf(a: AlbumEntry): (c: Cover)
    ensures c.Placeholder? <==> a.coverPhoto.None? || a.coverPhoto == Some("")
    ensures c.CoverImage? ==> SmallThumb(a.coverPhoto) == Some(c.src)
  {
    match a.coverPhoto
    case None => Placeholder
    case Some(u) => if u == "" then Placeholder else CoverImage(SmallThumb(a.coverPhoto).value)
  }

  /** One linked tile of the grid. */
  datatype Tile = Tile(link: string, title: string, cover: Cover)

  function TileOf(a: AlbumEntry): Tile {
    Tile(AlbumLink(a), a.title, CoverOf(a))
  }

  /** The grid: one tile per shown album, in catalogue order. */
  function Tiles(albums: seq<AlbumEntry>, limit: Option<nat>): (r: seq<Tile>)
    ensures var shown := ShownAlbums(albums, limit);
      |r| == |shown| && forall i :: 0 <= i < |r| ==> r[i] == TileOf(albums[i])
  {
    MapSeq(TileOf, ShownAlbums(albums, limit))
  }

  /** An album whose folder lists no files is drawn with the placeholder. */
  lemma EmptyAlbumPlaceholder(folders: seq<DriveFolder>, filesOf: string -> seq<DriveFile>, k: nat)
    requires k < |CatalogueOf(folders, filesOf).albums|
    requires filesOf(AlbumsOf(folders)[k].folderId) == []
    ensures CoverOf(CatalogueOf(folders, filesOf).albums[k]) == Placeholder
  {
    AlbumEntryOf(folders, filesOf, k);
  }

  /** Any other album shows its first sorted image at the fetcher's width, or at
      400 when that file's id ends in `sz`. */
  lemma AlbumCoverThumb(folders: seq<DriveFolder>, filesOf: string -> seq<DriveFile>, k: nat)
    requires k < |CatalogueOf(folders, filesOf).albums|
    requires var files := filesOf(AlbumsOf(folders)[k].folderId);
      files != [] && forall f :: 0 <= f < |files| ==> NoEquals(files[f].id)
    ensures var files := filesOf(AlbumsOf(folders)[k].folderId);
      var id := ImagesOf(files)[0].id;
      CoverOf(CatalogueOf(folders, filesOf).albums[k]) ==
        CoverImage(FetchNames.ImageUrl(id, true, if EndsInSz(id) then 400 else 800))
  {
    var files := filesOf(AlbumsOf(folders)[k].folderId);
    AlbumEntryOf(folders, filesOf, k);
    ImagesCount(files);
    ImageRecord(files, 0);
    var f :| 0 <= f < |files| && ImagesOf(files)[0] ==
      Image(files[f].id, FetchNames.ImageUrl(files[f].id), FetchNames.ImageUrl(files[f].id), ContainsCover(files[f].name));
    var id := files[f].id;
    FetchNames.ImageUrlIgnoresThumbnail(id, 800);
    CoverThumb(id);
  }
}
