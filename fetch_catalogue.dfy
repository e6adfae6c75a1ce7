/**
 * The record-building parts of the photo fetcher: album records from the
 * listed sub-folders (`get_subfolders`), image records from the listed files of
 * one folder (`get_images_from_folder`), and the catalogue that joins them
 * (`fetch_all_photos`). The Drive listings are inputs: `folders` is the
 * sub-folder listing of the parent folder and `filesOf(folderId)` the image
 * listing of one folder (empty when the listing failed).
 */
module FetchCatalogue {
  import opened Wrappers
  import opened Text
  import opened StableSort
  import opened FetchNames
  import opened Seqs

  /** A folder as the listing returns it (`files(id, name)`). */
  datatype DriveFolder = DriveFolder(id: string, name: string)

  /** An image file as the listing returns it; its mime type plays no part. */
  datatype DriveFile = DriveFile(id: string, name: string)

  datatype Album = Album(id: string, title: string, folderId: string)

  /** An album record while it still carries its `_order` key. */
  datatype AlbumDraft = AlbumDraft(album: Album, order: OrderKey)

  datatype Image = Image(id: string, src: string, thumbSrc: string, isCover: bool)

  /** An image record while it still carries its `_order` key. */
  datatype ImageDraft = ImageDraft(image: Image, order: OrderKey)

  /** An image record tagged with the id of its album. */
  datatype Photo = Photo(id: string, src: string, thumbSrc: string, isCover: bool, albumId: string)

  datatype AlbumEntry = AlbumEntry(id: string, title: string, folderId: string, coverPhoto: Option<string>, photoCount: nat)

  /** The written catalogue, without its `lastUpdated` time stamp. */
  datatype Catalogue = Catalogue(albums: seq<AlbumEntry>, photos: seq<Photo>, totalPhotos: nat)

  // ---------------------------------------------------------------------------
  // get_subfolders

  function AlbumDraftOf(f: DriveFolder): AlbumDraft {
    var (order, title) := ExtractOrderPrefix(f.name);
    AlbumDraft(Album(Slugify(f.name), title, f.id), order)
  }

  /** `key=lambda x: x["_order"]`. */
  predicate AlbumDraftLe(a: AlbumDraft, b: AlbumDraft) {
    OrderLe(a.order, b.order)
  }

  lemma AlbumDraftLePreorder()
    ensures TotalPreorder(AlbumDraftLe)
  {
    forall a: AlbumDraft, b: AlbumDraft ensures AlbumDraftLe(a, b) || AlbumDraftLe(b, a) {
      OrderLeTotalPreorder(a.order, b.order, b.order);
    }
    forall a: AlbumDraft, b: AlbumDraft, c: AlbumDraft | AlbumDraftLe(a, b) && AlbumDraftLe(b, c)
      ensures AlbumDraftLe(a, c)
    {
      OrderLeTotalPreorder(a.order, b.order, c.order);
    }
  }

  /** The records appended by the first loop, in listing order. */
  function AlbumDrafts(fs: seq<DriveFolder>): (r: seq<AlbumDraft>)
    ensures |r| == |fs| && forall i :: 0 <= i < |fs| ==> r[i] == AlbumDraftOf(fs[i])
  {
    MapSeq(AlbumDraftOf, fs)
  }

  /** `del album["_order"]` on every record. */
  function DraftAlbum(d: AlbumDraft): Album { d.album }

  function AlbumsOfDrafts(ds: seq<AlbumDraft>): (r: seq<Album>)
    ensures |r| == |ds| && forall i :: 0 <= i < |ds| ==> r[i] == ds[i].album
  {
    MapSeq(DraftAlbum, ds)
  }

  function SortedAlbumDrafts(fs: seq<DriveFolder>): seq<AlbumDraft> {
    SortBy(AlbumDrafts(fs), AlbumDraftLe)
  }

  /** The album list `get_subfolders` returns. */
  function AlbumsOf(fs: seq<DriveFolder>): seq<Album> {
    AlbumsOfDrafts(SortedAlbumDrafts(fs))
  }

  method Subfolders(folders: seq<DriveFolder>) returns (albums: seq<Album>)
    ensures albums == AlbumsOf(folders)
  {
    var drafts: seq<AlbumDraft> := [];
    for i := 0 to |folders|
      invariant drafts == MapSeq(AlbumDraftOf, folders[..i])
    {
      MapSeqStep(AlbumDraftOf, folders, i);
      drafts := drafts + [AlbumDraftOf(folders[i])];
    }
    assert folders[..|folders|] == folders;
    drafts := SortBy(drafts, AlbumDraftLe);
    albums := [];
    for i := 0 to |drafts|
      invariant albums == MapSeq(DraftAlbum, drafts[..i])
    {
      MapSeqStep(DraftAlbum, drafts, i);
      albums := albums + [drafts[i].album];
    }
    assert drafts[..|drafts|] == drafts;
  }

  /** One album per listed folder. */
  lemma AlbumsCount(fs: seq<DriveFolder>)
    ensures |AlbumsOf(fs)| == |fs|
  {
    SortByLength(AlbumDrafts(fs), AlbumDraftLe);
  }

  /** Albums come in ascending prefix order: numbered ones first, by number,
      and the unnumbered ones last. */
  lemma AlbumsOrdered(fs: seq<DriveFolder>, i: nat, j: nat)
    requires i < j < |SortedAlbumDrafts(fs)|
    ensures var s := SortedAlbumDrafts(fs);
      AlbumsOf(fs)[i] == s[i].album && AlbumsOf(fs)[j] == s[j].album &&
      (s[j].order.Numbered? ==> s[i].order.Numbered? && s[i].order.n <= s[j].order.n) &&
      (s[i].order.Unnumbered? ==> s[j].order.Unnumbered?)
  {
    AlbumDraftLePreorder();
    SortBySorted(AlbumDrafts(fs), AlbumDraftLe);
  }

  /** The albums are the folders' records, each exactly once. */
  lemma AlbumsPermutation(fs: seq<DriveFolder>)
    ensures multiset(SortedAlbumDrafts(fs)) == multiset(AlbumDrafts(fs))
  {
  }

  /** Folders with the same prefix number keep their listing order. */
  lemma AlbumsStable(fs: seq<DriveFolder>, x: AlbumDraft)
    ensures Ties(SortedAlbumDrafts(fs), AlbumDraftLe, x) == Ties(AlbumDrafts(fs), AlbumDraftLe, x)
  {
    AlbumDraftLePreorder();
    SortByStable(AlbumDrafts(fs), AlbumDraftLe, x);
  }

  /** Each album record is exactly the slug, clean title and id of a listed folder. */
  lemma AlbumRecord(fs: seq<DriveFolder>, i: nat)
    requires i < |AlbumsOf(fs)|
    ensures exists k ::
      0 <= k < |fs| && AlbumsOf(fs)[i] == Album(Slugify(fs[k].name), ExtractOrderPrefix(fs[k].name).1, fs[k].id)
  {
    var s := SortedAlbumDrafts(fs);
    var ds := AlbumDrafts(fs);
    assert s[i] in multiset(ds);
    var k :| 0 <= k < |ds| && ds[k] == s[i];
    var f := fs[k];
    assert ds[k] == AlbumDraftOf(f);
    assert AlbumDraftOf(f).album == Album(Slugify(f.name), ExtractOrderPrefix(f.name).1, f.id);
    assert AlbumsOf(fs)[i] == ds[k].album;
  }

  // ---------------------------------------------------------------------------
  // get_images_from_folder

  /** `'cover' in filename.lower()`. */
  predicate ContainsCover(name: string) {
    Find(Lower(name), "cover", 0).Some?
  }

  lemma ContainsCoverIff(name: string)
    ensures ContainsCover(name) <==> exists k: nat :: OccursAt(Lower(name), "cover", k)
  {
    var r := Find(Lower(name), "cover", 0);
    if r.Some? {
      assert OccursAt(Lower(name), "cover", r.value);
    }
  }

  function ImageDraftOf(f: DriveFile): ImageDraft {
    ImageDraft(Image(f.id, ImageUrl(f.id), ImageUrl(f.id, true, 800), ContainsCover(f.name)),
               ExtractOrderPrefix(f.name).0)
  }

  /** `key=lambda x: (not x["isCover"], x["_order"], x["id"])`, compared as a
      tuple: `False` before `True`, then the order key, then the id. */
  predicate ImageDraftLe(a: ImageDraft, b: ImageDraft) {
    if a.image.isCover != b.image.isCover then a.image.isCover
    else if a.order != b.order then OrderLe(a.order, b.order)
    else StringLe(a.image.id, b.image.id)
  }

  lemma ImageDraftLePreorder()
    ensures TotalPreorder(ImageDraftLe)
  {
    forall a: ImageDraft, b: ImageDraft ensures ImageDraftLe(a, b) || ImageDraftLe(b, a) {
      OrderLeTotalPreorder(a.order, b.order, b.order);
      StringLeTotal(a.image.id, b.image.id);
    }
    forall a: ImageDraft, b: ImageDraft, c: ImageDraft | ImageDraftLe(a, b) && ImageDraftLe(b, c)
      ensures ImageDraftLe(a, c)
    {
      OrderLeTotalPreorder(a.order, b.order, c.order);
      OrderLeTotalPreorder(b.order, c.order, a.order);
      OrderLeTotalPreorder(c.order, a.order, b.order);
      if a.image.isCover == b.image.isCover == c.image.isCover && a.order == b.order == c.order {
        StringLeTransitive(a.image.id, b.image.id, c.image.id);
      }
    }
  }

  function ImageDrafts(fs: seq<DriveFile>): (r: seq<ImageDraft>)
    ensures |r| == |fs| && forall i :: 0 <= i < |fs| ==> r[i] == ImageDraftOf(fs[i])
  {
    MapSeq(ImageDraftOf, fs)
  }

  function DraftImage(d: ImageDraft): Image { d.image }

  function ImagesOfDrafts(ds: seq<ImageDraft>): (r: seq<Image>)
    ensures |r| == |ds| && forall i :: 0 <= i < |ds| ==> r[i] == ds[i].image
  {
    MapSeq(DraftImage, ds)
  }

  function SortedImageDrafts(fs: seq<DriveFile>): seq<ImageDraft> {
    SortBy(ImageDrafts(fs), ImageDraftLe)
  }

  /** The image list `get_images_from_folder` returns. */
  function ImagesOf(fs: seq<DriveFile>): seq<Image> {
    ImagesOfDrafts(SortedImageDrafts(fs))
  }

  method ImagesFromFolder(files: seq<DriveFile>) returns (images: seq<Image>)
    ensures images == ImagesOf(files)
  {
    var drafts: seq<ImageDraft> := [];
    for i := 0 to |files|
      invariant drafts == MapSeq(ImageDraftOf, files[..i])
    {
      MapSeqStep(ImageDraftOf, files, i);
      drafts := drafts + [ImageDraftOf(files[i])];
    }
    assert files[..|files|] == files;
    drafts := SortBy(drafts, ImageDraftLe);
    images := [];
    for i := 0 to |drafts|
      invariant images == MapSeq(DraftImage, drafts[..i])
    {
      MapSeqStep(DraftImage, drafts, i);
      images := images + [drafts[i].image];
    }
    assert drafts[..|drafts|] == drafts;
  }

  /** One image per listed file. */
  lemma ImagesCount(fs: seq<DriveFile>)
    ensures |ImagesOf(fs)| == |fs|
  {
    SortByLength(ImageDrafts(fs), ImageDraftLe);
  }

  /** Images are in tuple order: covers first; then by prefix; then by id. */
  lemma ImagesOrdered(fs: seq<DriveFile>, i: nat, j: nat)
    requires i < j < |SortedImageDrafts(fs)|
    ensures var s := SortedImageDrafts(fs);
      var a := s[i];
      var b := s[j];
      ImagesOf(fs)[i] == a.image && ImagesOf(fs)[j] == b.image &&
      (b.image.isCover ==> a.image.isCover) &&
      (a.image.isCover == b.image.isCover ==> OrderLe(a.order, b.order)) &&
      (a.image.isCover == b.image.isCover && a.order == b.order ==> StringLe(a.image.id, b.image.id))
  {
    ImageDraftLePreorder();
    SortBySorted(ImageDrafts(fs), ImageDraftLe);
  }

  /** Cover images come before all others. */
  lemma CoversFirst(fs: seq<DriveFile>, i: nat, j: nat)
    requires i < j < |ImagesOf(fs)| && ImagesOf(fs)[j].isCover
    ensures ImagesOf(fs)[i].isCover
  {
    SortByLength(ImageDrafts(fs), ImageDraftLe);
    ImagesOrdered(fs, i, j);
  }

  lemma ImagesPermutation(fs: seq<DriveFile>)
    ensures multiset(SortedImageDrafts(fs)) == multiset(ImageDrafts(fs))
  {
  }

  /** Each image record is built from one listed file; its two URLs are equal. */
  lemma ImageRecord(fs: seq<DriveFile>, i: nat)
    requires i < |ImagesOf(fs)|
    ensures ImagesOf(fs)[i].src == ImagesOf(fs)[i].thumbSrc
    ensures exists k ::
      0 <= k < |fs| && ImagesOf(fs)[i] == Image(fs[k].id, ImageUrl(fs[k].id), ImageUrl(fs[k].id), ContainsCover(fs[k].name))
  {
    var s := SortedImageDrafts(fs);
    var ds := ImageDrafts(fs);
    assert s[i] in multiset(ds);
    var k :| 0 <= k < |ds| && ds[k] == s[i];
    assert ImagesOf(fs)[i] == ds[k].image;
  }

  /** When some listed file is a cover, the first image is one. */
  lemma FirstImageIsCover(fs: seq<DriveFile>, k: nat)
    requires k < |fs| && ContainsCover(fs[k].name)
    ensures |ImagesOf(fs)| > 0 && ImagesOf(fs)[0].isCover
  {
    var s := SortedImageDrafts(fs);
    var ds := ImageDrafts(fs);
    assert ds[k] in multiset(s);
    var i :| 0 <= i < |s| && s[i] == ds[k];
    ImagesCount(fs);
    if i > 0 {
      CoversFirst(fs, 0, i);
    }
  }

  // ---------------------------------------------------------------------------
  // fetch_all_photos

  function PhotoOf(img: Image, albumId: string): Photo {
    Photo(img.id, img.src, img.thumbSrc, img.isCover, albumId)
  }

  /** `img["albumId"] = album["id"]` on every image of one album. */
  function Tag(images: seq<Image>, albumId: string): (r: seq<Photo>)
    ensures |r| == |images| && forall i :: 0 <= i < |images| ==> r[i] == PhotoOf(images[i], albumId)
  {
    if images == [] then [] else Tag(images[..|images| - 1], albumId) + [PhotoOf(images[|images| - 1], albumId)]
  }

  lemma TagStep(images: seq<Image>, j: nat, albumId: string)
    requires j < |images|
    ensures Tag(images[..j + 1], albumId) == Tag(images[..j], albumId) + [PhotoOf(images[j], albumId)]
  {
    assert images[..j + 1][..j] == images[..j];
  }

  /** The inner loop of `fetch_all_photos`: every image of one album is tagged
      and appended to the photo list. */
  method AppendTagged(photos: seq<Photo>, images: seq<Image>, albumId: string) returns (r: seq<Photo>)
    ensures r == photos + Tag(images, albumId)
  {
    r := photos;
    for j := 0 to |images|
      invariant r == photos + Tag(images[..j], albumId)
    {
      TagStep(images, j, albumId);
      r := r + [PhotoOf(images[j], albumId)];
    }
    assert images[..|images|] == images;
  }

  /** The album entry: the first sorted image's thumbnail as cover, and the count. */
  function EntryOf(a: Album, images: seq<Image>): AlbumEntry {
    AlbumEntry(a.id, a.title, a.folderId, if images != [] then Some(images[0].thumbSrc) else None, |images|)
  }

  /** The album entries, given the sorted image list of every folder. */
  function EntriesOf(albums: seq<Album>, imagesOf: string -> seq<Image>): (r: seq<AlbumEntry>)
    ensures |r| == |albums|
    ensures forall i :: 0 <= i < |albums| ==> r[i] == EntryOf(albums[i], imagesOf(albums[i].folderId))
  {
    if albums == [] then []
    else
      var a := albums[|albums| - 1];
      EntriesOf(albums[..|albums| - 1], imagesOf) + [EntryOf(a, imagesOf(a.folderId))]
  }

  /** The tagged photos of all albums, in album order. */
  function PhotosOf(albums: seq<Album>, imagesOf: string -> seq<Image>): seq<Photo> {
    if albums == [] then []
    else
      var a := albums[|albums| - 1];
      PhotosOf(albums[..|albums| - 1], imagesOf) + Tag(imagesOf(a.folderId), a.id)
  }

  /** One more album adds its entry and its tagged photos at the end. */
  lemma CatalogueStep(albums: seq<Album>, imagesOf: string -> seq<Image>, i: nat)
    requires i < |albums|
    ensures var a := albums[i];
      EntriesOf(albums[..i + 1], imagesOf) == EntriesOf(albums[..i], imagesOf) + [EntryOf(a, imagesOf(a.folderId))] &&
      PhotosOf(albums[..i + 1], imagesOf) == PhotosOf(albums[..i], imagesOf) + Tag(imagesOf(a.folderId), a.id)
  {
    assert albums[..i + 1][..i] == albums[..i];
  }

  /** The sorted image list of every folder. */
  function ImageLists(filesOf: string -> seq<DriveFile>): string -> seq<Image> {
    folderId => ImagesOf(filesOf(folderId))
  }

  /** The catalogue `fetch_all_photos` returns. */
  function CatalogueOf(folders: seq<DriveFolder>, filesOf: string -> seq<DriveFile>): Catalogue {
    var albums := AlbumsOf(folders);
    var photos := PhotosOf(albums, ImageLists(filesOf));
    Catalogue(EntriesOf(albums, ImageLists(filesOf)), photos, |photos|)
  }

  method FetchAllPhotos(folders: seq<DriveFolder>, filesOf: string -> seq<DriveFile>) returns (c: Catalogue)
    ensures c == CatalogueOf(folders, filesOf)
  {
    var discovered := Subfolders(folders);
    if |discovered| == 0 {
      return Catalogue([], [], 0);
    }
    ghost var lists := ImageLists(filesOf);
    var albums: seq<AlbumEntry> := [];
    var allPhotos: seq<Photo> := [];
    for i := 0 to |discovered|
      invariant albums == EntriesOf(discovered[..i], lists)
      invariant allPhotos == PhotosOf(discovered[..i], lists)
    {
      var album := discovered[i];
      CatalogueStep(discovered, lists, i);
      var images := ImagesFromFolder(filesOf(album.folderId));
      assert images == lists(album.folderId);
      allPhotos := AppendTagged(allPhotos, images, album.id);
      var cover := if images != [] then Some(images[0].thumbSrc) else None;
      var entry := AlbumEntry(album.id, album.title, album.folderId, cover, |images|);
      assert entry == EntryOf(album, images);
      albums := albums + [entry];
    }
    assert discovered[..|discovered|] == discovered;
    c := Catalogue(albums, allPhotos, |allPhotos|);
  }

  /** The sum of the albums' photo counts. */
  function SumCounts(es: seq<AlbumEntry>): nat {
    if es == [] then 0 else SumCounts(es[..|es| - 1]) + es[|es| - 1].photoCount
  }

  lemma {:induction false} PhotosLength(albums: seq<Album>, imagesOf: string -> seq<Image>)
    ensures |PhotosOf(albums, imagesOf)| == SumCounts(EntriesOf(albums, imagesOf))
  {
    if albums != [] {
      var es := EntriesOf(albums, imagesOf);
      PhotosLength(albums[..|albums| - 1], imagesOf);
      assert es[..|es| - 1] == EntriesOf(albums[..|albums| - 1], imagesOf);
    }
  }

  /** `totalPhotos` is the number of photos and the sum of the albums' counts. */
  lemma TotalPhotos(folders: seq<DriveFolder>, filesOf: string -> seq<DriveFile>)
    ensures var c := CatalogueOf(folders, filesOf);
      c.totalPhotos == |c.photos| == SumCounts(c.albums)
  {
    PhotosLength(AlbumsOf(folders), ImageLists(filesOf));
  }

  /** The photos of the first `j` albums start the photo list. */
  lemma {:induction false} PhotosPrefix(albums: seq<Album>, imagesOf: string -> seq<Image>, j: nat)
    requires j <= |albums|
    ensures var p := PhotosOf(albums[..j], imagesOf);
      |p| <= |PhotosOf(albums, imagesOf)| && PhotosOf(albums, imagesOf)[..|p|] == p
  {
    if j < |albums| {
      var n := |albums| - 1;
      assert albums[..n][..j] == albums[..j];
      PhotosPrefix(albums[..n], imagesOf, j);
    } else {
      assert albums[..j] == albums;
    }
  }

  /** The photos are the albums' image lists, concatenated in album order, each
      tagged with its album's id: album `k`'s block starts after the photos of
      the albums before it. */
  lemma PhotosBlock(albums: seq<Album>, imagesOf: string -> seq<Image>, k: nat)
    requires k < |albums|
    ensures var before := SumCounts(EntriesOf(albums[..k], imagesOf));
      var images := imagesOf(albums[k].folderId);
      before + |images| <= |PhotosOf(albums, imagesOf)| &&
      PhotosOf(albums, imagesOf)[before..before + |images|] == Tag(images, albums[k].id)
  {
    var images := imagesOf(albums[k].folderId);
    var all := PhotosOf(albums, imagesOf);
    var q := PhotosOf(albums[..k], imagesOf);
    var t := Tag(images, albums[k].id);
    assert albums[..k + 1][..k] == albums[..k];
    assert PhotosOf(albums[..k + 1], imagesOf) == q + t;
    PhotosLength(albums[..k], imagesOf);
    PhotosPrefix(albums, imagesOf, k + 1);
    assert all[..|q| + |t|] == q + t;
    assert all[|q|..|q| + |t|] == (q + t)[|q|..] == t;
  }

  /** Album `k`'s entry: its count is the number of files listed in its folder,
      and its cover the first sorted image's thumbnail, or nothing when empty. */
  lemma AlbumEntryOf(folders: seq<DriveFolder>, filesOf: string -> seq<DriveFile>, k: nat)
    requires k < |CatalogueOf(folders, filesOf).albums|
    ensures var albums := AlbumsOf(folders);
      var files := filesOf(albums[k].folderId);
      var e := CatalogueOf(folders, filesOf).albums[k];
      e.id == albums[k].id && e.title == albums[k].title && e.folderId == albums[k].folderId &&
      e.photoCount == |files| &&
      (files == [] <==> e.coverPhoto.None?) &&
      (files != [] ==> e.coverPhoto == Some(ImagesOf(files)[0].thumbSrc))
  {
    var albums := AlbumsOf(folders);
    ImagesCount(filesOf(albums[k].folderId));
  }

  /** An album whose folder lists a cover file shows a cover image as its cover. */
  lemma CoverPhotoIsCover(folders: seq<DriveFolder>, filesOf: string -> seq<DriveFile>, k: nat, f: nat)
    requires k < |CatalogueOf(folders, filesOf).albums|
    requires var files := filesOf(AlbumsOf(folders)[k].folderId);
      f < |files| && ContainsCover(files[f].name)
    ensures var files := filesOf(AlbumsOf(folders)[k].folderId);
      CatalogueOf(folders, filesOf).albums[k].coverPhoto == Some(ImagesOf(files)[0].thumbSrc) &&
      ImagesOf(files)[0].isCover
  {
    var files := filesOf(AlbumsOf(folders)[k].folderId);
    FirstImageIsCover(files, f);
  }

  /** Without sub-folders the catalogue is empty. */
  lemma EmptyCatalogue(filesOf: string -> seq<DriveFile>)
    ensures CatalogueOf([], filesOf) == Catalogue([], [], 0)
  {
    AlbumsCount([]);
  }
}
