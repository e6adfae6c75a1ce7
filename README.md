# Gallery soul studio: a verified model of the gallery's logic

This project models the deterministic parts of a photography portfolio site.
They form one chain, from a Drive share link or file id to a photo in the
viewer.

- **Share-link resolver** (`DriveLink`). It finds the file id in a Google
  Drive share link with three patterns tried in order. It then builds the
  direct-view and thumbnail URLs from that id.
- **Catalogue builder** (`FetchNames`, `FetchConfig`, `FetchCatalogue`). This
  is the fetcher script that turns the listed sub-folders and image files of a
  parent folder into the site's catalogue. It covers:
  - the order prefix of names, the slug of folder names and the image URL;
  - the sorted album and image records;
  - the albums with their cover and count;
  - the flat photo list tagged with album ids;
  - the lookup of the parent folder id in the environment or in a `.env` file.
- **Gallery grid and viewer** (`PhotoGrid`, `Lightbox`).
  - The grid filters photos by category and cuts them to a limit.
  - The filter bar's categories and labels, and the image source lookup.
  - The viewer's state is the active category, the selected photo and its
    position. Its handlers open, move, close and re-filter.
  - The viewer turns key presses and clicks into close and prev/next requests.
- **Hero carousel** (`HeroSlider`). A current-slide counter over three slides,
  advanced with wrap-around by a tick and set directly by an indicator.
- **Album grid** (`AlbumGrid`). The shown albums under an optional limit. Each
  album's link, its smaller cover thumbnail or its placeholder.

The supporting modules are:

- `Text`: ASCII character classes, strip, decimal numerals, Python string
  order, and leftmost search and replace.
- `StableSort`: a stable insertion sort used as the specification of Python's
  `list.sort`.
- `Seqs`: map and slice.
- `Wrappers`: `Option`.

The pure code is modelled as functions. The fetcher's list-building loops are
methods proved equal to the functions. The grid and the carousel are classes
whose fields the handlers update.

## Model

| member | source | states |
|---|---|---|
| DriveLink.IdRun | src/lib/googleDrive.ts:25-27 | the greedy `[a-zA-Z0-9_-]+` run is a prefix of the text, made of id characters, and followed by a non-id character or the end |
| DriveLink.Search | src/lib/googleDrive.ts:31 | the leftmost position where the literal is followed by an id character, or none when there is no such position |
| DriveLink.ExtractedIdIsMaximalRun | src/lib/googleDrive.ts:25-33 | a returned id is non-empty, made of `[A-Za-z0-9_-]` only, and stands in the input as a maximal run |
| DriveLink.ExtractCases | src/lib/googleDrive.ts:24-37 | the result is the `/file/d/` capture if there is one, else the `id=` capture, else the `/open?id=` capture |
| DriveLink.FilePatternTakesPrecedence | src/lib/googleDrive.ts:24-35 | the leftmost `/file/d/<id>` decides the id even when `id=` occurs earlier |
| DriveLink.QueryPatternDecidesOtherwise | src/lib/googleDrive.ts:26-35 | without `/file/d/<id>`, the leftmost `id=<id>` decides |
| DriveLink.OpenMatchContainsQueryMatch | src/lib/googleDrive.ts:26-27 | every `/open?id=<id>` match contains an `id=<id>` match six characters later |
| DriveLink.OpenPatternNeverDecides | src/lib/googleDrive.ts:24-35 | the result equals the result of the first two patterns alone |
| DriveLink.ExtractNoneIff | src/lib/googleDrive.ts:37 | `null` exactly when neither `/file/d/<idchar>` nor `id=<idchar>` occurs anywhere |
| DriveLink.ConvertersKeepUnresolvedLinks | src/lib/googleDrive.ts:43-46 | without an id both converters return their input |
| DriveLink.ConvertersOfResolved | src/lib/googleDrive.ts:49 | with an id, the direct URL is `https://drive.google.com/uc?export=view&id=` + id, and the thumbnail URL is `https://drive.google.com/thumbnail?id=` + id + `&sz=w` + size |
| DriveLink.ThumbnailCarriesSize | src/lib/googleDrive.ts:60 | the thumbnail URL ends in `sz=w` followed by the decimal size supplied |
| DriveLink.ExtractFromImageUrl | src/lib/googleDrive.ts:49 | the id is read back from a direct-view URL |
| DriveLink.ExtractFromThumbnailUrl | src/lib/googleDrive.ts:60 | the id is read back from a thumbnail URL of any size |
| DriveLink.ConvertersPreserveId | src/lib/googleDrive.ts:22-61 | extracting from either generated URL gives back the id of the original link |
| DriveLink.ImageUrlIdempotent | src/lib/googleDrive.ts:40-50 | converting a direct-view result again changes nothing |
| DriveLink.ThumbnailUrlIdempotent | src/lib/googleDrive.ts:52-61 | converting a thumbnail result again at the same size changes nothing |
| DriveLink.ExampleLinkId | src/lib/googleDrive.ts:12 | the documented share link yields the id `1ABC123xyz` |
| DriveLink.ExampleImageUrl | src/lib/googleDrive.ts:11-14 | the documented link converts to `https://drive.google.com/uc?export=view&id=1ABC123xyz` |
| DriveLink.ExampleThumbnailUrl | src/lib/googleDrive.ts:52 | at the default size 400 the documented link gives `https://drive.google.com/thumbnail?id=1ABC123xyz&sz=w400` |
| DriveLink.UnresolvableLinkKept | src/lib/googleDrive.ts:43-46 | a string with no id pattern gives `null` and is returned unchanged |
| FetchNames.OrderLeTotalPreorder | scripts/fetch-photos.py:81-84 | the order key compares numbers by value and puts every number before infinity; the order is total, transitive and antisymmetric |
| FetchNames.Backtrack | scripts/fetch-photos.py:87 | giving back separators from the right finds the largest start where `(.+)$` matches, or none |
| FetchNames.PrefixMatch | scripts/fetch-photos.py:87 | on a match, group 1 is the whole leading digit run; only separators lie between it and group 2; group 2 starts at the largest position inside the separator run from which `(.+)$` matches; there is no match exactly when the name has no leading digit or no such position exists |
| FetchNames.ExtractOrderPrefix | scripts/fetch-photos.py:92 | an unnumbered result keeps the name unchanged |
| FetchNames.ExtractOrderPrefixAt | scripts/fetch-photos.py:87-91 | for the maximal digit run and the largest separator position from which `(.+)$` matches, the result is the digits' value and the rest up to the end, stripped |
| FetchNames.ExtractOrderPrefixShape | scripts/fetch-photos.py:87-92 | a name without a line feed is numbered exactly when it is digits, then at least one separator, then at least one more character |
| FetchNames.ExtractOrderPrefixSplit | scripts/fetch-photos.py:87-91 | digits, separators and a rest that starts with a non-separator give the digits' value and the stripped rest |
| FetchNames.ExtractOrderPrefixSeparatorsOnly | scripts/fetch-photos.py:87-91 | digits followed by two or more separators only leave the last separator, stripped, as the name |
| FetchNames.ExtractOrderPrefixBareSeparator | scripts/fetch-photos.py:87-92 | digits followed by a single separator do not match and are kept unnumbered |
| FetchNames.NoLeadingDigit | scripts/fetch-photos.py:92 | a name that does not start with a digit is unnumbered and kept |
| FetchNames.DocExampleWeddings | scripts/fetch-photos.py:78 | `01-Weddings` gives `(1, Weddings)` |
| FetchNames.DocExamplePortraits | scripts/fetch-photos.py:79 | `02 - Portraits` gives `(2, Portraits)` |
| FetchNames.DocExampleClassicalDance | scripts/fetch-photos.py:80 | `10_Classical Dance` gives `(10, Classical Dance)` |
| FetchNames.DocExampleCandids | scripts/fetch-photos.py:81 | `Candids` gives `(inf, Candids)` |
| FetchNames.RemoveUnsafe | scripts/fetch-photos.py:102 | the result is exactly the word characters, dashes and white space of the input, in their order, and lower case is kept |
| FetchNames.Collapse | scripts/fetch-photos.py:103 | no `--` remains; the result starts with a dash exactly when the input starts with a dash or space; slug characters stay slug characters |
| FetchNames.CollapseRuns | scripts/fetch-photos.py:103 | every character other than a dash or white space is kept in order, each maximal dash/space run leaves exactly one dash, and no white space remains |
| FetchNames.StripDashesKeepsShape | scripts/fetch-photos.py:104 | stripping dashes keeps slug characters and single dashes, and leaves no dash at either end |
| FetchNames.Slugify | scripts/fetch-photos.py:95-104 | a slug is made of `[a-z0-9_-]`, has no `--` and no dash at either end |
| FetchNames.SlugOfWord | scripts/fetch-photos.py:99-104 | a clean name of word characters only is just lower-cased |
| FetchNames.RemoveUnsafeKeepsWordChars | scripts/fetch-photos.py:102 | dropping unsafe characters loses no word character |
| FetchNames.CollapseKeepsWordChars | scripts/fetch-photos.py:103 | collapsing runs loses no word character |
| FetchNames.SlugOfKeepsWordChars | scripts/fetch-photos.py:99-104 | the slug's word characters are exactly those of the lower-cased clean name, in order |
| FetchNames.SlugifyKeepsWordChars | scripts/fetch-photos.py:95-104 | `slugify` keeps exactly the word characters of the lower-cased name without its order prefix, in order |
| FetchNames.SlugifyWeddings | scripts/fetch-photos.py:97-104 | the prefix is stripped first: `slugify('01-Weddings') == 'weddings'` |
| FetchNames.ImageUrlIgnoresThumbnail | scripts/fetch-photos.py:107-114 | the thumbnail flag does not change the URL |
| FetchNames.ImageUrlLayout | scripts/fetch-photos.py:114 | the URL is `https://lh3.googleusercontent.com/d/`, the id, `=w` and the size in decimal, in that order |
| FetchNames.ImageUrlInjective | scripts/fetch-photos.py:114 | for ids without `=`, the URL determines the id and the size |
| FetchConfig.AfterFirstEquals | scripts/fetch-photos.py:63 | the text after the first `=`, or none when the line has no `=` |
| FetchConfig.SplitAfterKey | scripts/fetch-photos.py:62-63 | on a line starting with the key, the split happens right after the key |
| FetchConfig.DropEnds | scripts/fetch-photos.py:66 | `s[1:-1]` drops the first and last character; the result is empty for fewer than two |
| FetchConfig.EnvValueAfterKey | scripts/fetch-photos.py:62-67 | the value is the text after the key, stripped and then unquoted |
| FetchConfig.EnvValuePlain | scripts/fetch-photos.py:63 | an unquoted value is read as written, without the line's trailing white space |
| FetchConfig.EnvValueQuoted | scripts/fetch-photos.py:65-66 | a value in quotes loses them |
| FetchConfig.EnvValueUnclosedQuote | scripts/fetch-photos.py:65-66 | the closing quote is not checked: an opening quote alone costs the value its last character |
| FetchConfig.ParentFolderId | scripts/fetch-photos.py:51-71 | a non-empty environment value wins; otherwise the first `.env` line with the key decides; with no such line or no file the result is `None` |
| StableSort.SortBy | scripts/fetch-photos.py:244 | the sorted list is a permutation of the input |
| StableSort.SortBySorted | scripts/fetch-photos.py:244 | under a total preorder the result is sorted |
| StableSort.SortByStable | scripts/fetch-photos.py:244 | elements with equal keys keep their input order |
| FetchCatalogue.AlbumDraftLePreorder | scripts/fetch-photos.py:244 | sorting by `_order` is a total preorder |
| FetchCatalogue.Subfolders | scripts/fetch-photos.py:231-250 | the loop, the sort and the `_order` removal give exactly the sorted album records' albums |
| FetchCatalogue.AlbumsCount | scripts/fetch-photos.py:231-250 | one album per listed folder |
| FetchCatalogue.AlbumsOrdered | scripts/fetch-photos.py:243-244 | numbered albums come first in ascending number, and unnumbered ones last |
| FetchCatalogue.AlbumsPermutation | scripts/fetch-photos.py:244 | the sorted records are a permutation of the folders' records |
| FetchCatalogue.AlbumsStable | scripts/fetch-photos.py:244 | albums with equal order keys keep their listing order |
| FetchCatalogue.AlbumRecord | scripts/fetch-photos.py:234-241 | each album is `(slugify(name), clean title, folder id)` of some listed folder |
| FetchCatalogue.ContainsCoverIff | scripts/fetch-photos.py:283 | a cover is a file whose lower-cased name contains `cover` |
| FetchCatalogue.ImageDraftLePreorder | scripts/fetch-photos.py:297 | the triple key compares as a tuple and forms a total preorder |
| FetchCatalogue.ImagesFromFolder | scripts/fetch-photos.py:277-303 | the loop, the sort and the `_order` removal give exactly the sorted image records |
| FetchCatalogue.ImagesCount | scripts/fetch-photos.py:277-303 | one image per listed file |
| FetchCatalogue.ImagesOrdered | scripts/fetch-photos.py:296-297 | covers come first, then ascending order prefix, then ascending id |
| FetchCatalogue.CoversFirst | scripts/fetch-photos.py:296-297 | no non-cover image precedes a cover image |
| FetchCatalogue.ImagesPermutation | scripts/fetch-photos.py:297 | the sorted records are a permutation of the files' records |
| FetchCatalogue.ImageRecord | scripts/fetch-photos.py:288-294 | each image is built from some listed file, with `src == thumbSrc` equal to that file's URL |
| FetchCatalogue.FirstImageIsCover | scripts/fetch-photos.py:283-297 | if any file is a cover, the first image is one |
| FetchCatalogue.Tag | scripts/fetch-photos.py:336-337 | every image gets its album's id as `albumId`, the rest unchanged |
| FetchCatalogue.AppendTagged | scripts/fetch-photos.py:336-338 | the inner loop appends the album's tagged images to the photos |
| FetchCatalogue.EntriesOf | scripts/fetch-photos.py:340-349 | one entry per album, built from that album's images |
| FetchCatalogue.FetchAllPhotos | scripts/fetch-photos.py:306-358 | the loop builds exactly the catalogue of the sorted albums and their sorted images |
| FetchCatalogue.PhotosLength | scripts/fetch-photos.py:348-357 | the number of photos is the sum of the photo counts |
| FetchCatalogue.TotalPhotos | scripts/fetch-photos.py:357 | `totalPhotos` is the length of `photos` and the sum of `photoCount` |
| FetchCatalogue.PhotosBlock | scripts/fetch-photos.py:330-338 | album `k`'s tagged images stand in `photos` right after the photos of the albums before it |
| FetchCatalogue.AlbumEntryOf | scripts/fetch-photos.py:341-349 | an entry keeps its album's id, title and folder, counts its listed files, and has the first sorted image's `thumbSrc` as cover, or `None` when empty |
| FetchCatalogue.CoverPhotoIsCover | scripts/fetch-photos.py:340-347 | when a folder lists a cover file, the album's cover is a cover image |
| FetchCatalogue.EmptyCatalogue | scripts/fetch-photos.py:313-320 | no album folders give no albums, no photos and `totalPhotos = 0` |
| Seqs.Take | src/components/PhotoGrid.tsx:117 | `slice(0, limit)` is the prefix of length `min(limit, n)`, or all when no limit |
| PhotoGrid.Filter | src/components/PhotoGrid.tsx:116 | the result is no longer than the input and every kept photo is in the active category |
| PhotoGrid.FilterSelects | src/components/PhotoGrid.tsx:115-116 | the filter keeps exactly the photos of the category: those at the passing positions, in increasing order, and no other |
| PhotoGrid.FilteredPhotosPrefix | src/components/PhotoGrid.tsx:115-117 | the view is the leading part of the category's photos, in listing order |
| PhotoGrid.FilterAll | src/components/PhotoGrid.tsx:116 | the `all` filter with no limit shows every photo in order |
| PhotoGrid.Categories | src/components/PhotoGrid.tsx:99 | the filters are `all` followed by the album ids in order |
| PhotoGrid.TitleOf | src/components/PhotoGrid.tsx:102 | the title of the last album with the key, or none when no album has it |
| PhotoGrid.Label | src/components/PhotoGrid.tsx:100-146 | the last matching album's title when non-empty, the raw key when that title is empty, `All` for an unlisted `all`, and otherwise the raw key |
| PhotoGrid.PhotoSrc | src/components/PhotoGrid.tsx:171-194 | the bundled asset for a known key with a non-empty value; the raw source for an unknown key or an empty asset |
| PhotoGrid.ViewedPhoto | src/components/PhotoGrid.tsx:192-195 | the viewer receives the photo with only its source resolved |
| PhotoGrid.Step | src/components/PhotoGrid.tsx:125-127 | the new index lies inside the view |
| PhotoGrid.StepWraps | src/components/PhotoGrid.tsx:125-127 | next moves on by one or wraps to 0; prev moves back by one or wraps to the last |
| PhotoGrid.StepRoundTrip | src/components/PhotoGrid.tsx:125-127 | the opposite step undoes a step; with one photo both steps stay put |
| PhotoGrid.Clicked | src/components/PhotoGrid.tsx:119-167 | clicking position `i` shows the photo at `i`, selects `i` and keeps the filter |
| PhotoGrid.Navigated | src/components/PhotoGrid.tsx:124-130 | in a non-empty view the viewer shows the photo at the stepped index; the filter is kept |
| PhotoGrid.Closed | src/components/PhotoGrid.tsx:196 | only the selected photo is cleared |
| PhotoGrid.FilterChosen | src/components/PhotoGrid.tsx:139 | only the active category changes |
| PhotoGrid.KeyPressedCases | src/components/PhotoGrid.tsx:196-199 | Escape closes; an arrow moves only when the view has more than one photo; other keys change nothing |
| PhotoGrid.NavigateRoundTrip | src/components/PhotoGrid.tsx:124-130 | moving one way and back returns the viewer to its state |
| PhotoGrid.TransitionsKeepShowing | src/components/PhotoGrid.tsx:124-196 | a viewer request keeps an open viewer on the photo at its index |
| PhotoGrid.Gallery.constructor | src/components/PhotoGrid.tsx:111-113 | the state starts as `all`, no photo, index 0 |
| PhotoGrid.Gallery.ClickPhoto | src/components/PhotoGrid.tsx:119-122 | the new state is `Clicked` of the old state and view |
| PhotoGrid.Gallery.Navigate | src/components/PhotoGrid.tsx:124-130 | the new state is `Navigated` of the old state and view |
| PhotoGrid.Gallery.Close | src/components/PhotoGrid.tsx:196 | the new state is `Closed` of the old state |
| PhotoGrid.Gallery.ChooseFilter | src/components/PhotoGrid.tsx:139 | the new state is `FilterChosen` of the old state |
| PhotoGrid.Gallery.HandleKey | src/components/Lightbox.tsx:26-30 | with a photo open, the new state answers the key's requests with `hasPrev == hasNext == (n > 1)` |
| PhotoGrid.Gallery.HandleClick | src/components/Lightbox.tsx:55-85 | with a photo open, the new state answers the drawn control's request |
| Lightbox.KeyActions | src/components/Lightbox.tsx:26-30 | at most one request per key; close exactly for Escape; prev for ArrowLeft only with `hasPrev`; next for ArrowRight only with `hasNext`; nothing otherwise |
| Lightbox.ClickActions | src/components/Lightbox.tsx:55-85 | the backdrop and the close button request close, the buttons their own direction, the content nothing |
| Lightbox.ButtonsMatchKeys | src/components/Lightbox.tsx:28-85 | a direction can be requested by a drawn button exactly when its arrow key requests it |
| Lightbox.CloseAlwaysAvailable | src/components/Lightbox.tsx:27-60 | Escape, the backdrop and the close button request close whatever is offered |
| HeroSlider.Advance | src/components/HeroSlider.tsx:33-35 | the next index stays inside the three slides |
| HeroSlider.AdvanceWraps | src/components/HeroSlider.tsx:34 | the next slide follows, and the last wraps to the first |
| HeroSlider.TicksModulo | src/components/HeroSlider.tsx:34 | after `k` ticks from slide `i` the index is `(i + k) mod 3` |
| HeroSlider.ThreeTicksReturn | src/components/HeroSlider.tsx:34 | three ticks bring back the starting slide |
| HeroSlider.TicksShowEverySlide | src/components/HeroSlider.tsx:9-34 | every slide is shown within three ticks |
| HeroSlider.Carousel.constructor | src/components/HeroSlider.tsx:31 | the carousel starts at slide 0 |
| HeroSlider.Carousel.NextSlide | src/components/HeroSlider.tsx:33-35 | one tick sets the index to `Advance` of the old one and keeps it valid |
| HeroSlider.Carousel.GoTo | src/components/HeroSlider.tsx:99-106 | an indicator click selects its slide |
| HeroSlider.Carousel.Current | src/components/HeroSlider.tsx:59-92 | the slide read for display is one of the slides |
| HeroSlider.Carousel.Indicators | src/components/HeroSlider.tsx:99-106 | exactly the indicator of the current slide is highlighted |
| AlbumGrid.ShownAlbums | src/components/AlbumGrid.tsx:11 | a prefix of the albums; all of them when the limit is absent or 0, otherwise `min(limit, n)` |
| AlbumGrid.SmallThumb | src/components/AlbumGrid.tsx:14 | a missing URL passes through as missing |
| AlbumGrid.SmallThumbCases | src/components/AlbumGrid.tsx:14 | a URL without `sz=w800` is unchanged; otherwise only the leftmost occurrence becomes `sz=w400` |
| AlbumGrid.CoverThumb | src/components/AlbumGrid.tsx:14 | on a fetcher cover URL the helper is the identity, unless the file id ends in `sz` |
| AlbumGrid.AlbumLink | src/components/AlbumGrid.tsx:31 | the link is `/portfolio?album=` followed by exactly the album id |
| AlbumGrid.AlbumLinkInjective | src/components/AlbumGrid.tsx:31 | different album ids link to different pages |
| AlbumGrid.CoverOf | src/components/AlbumGrid.tsx:33-43 | the placeholder exactly when the cover is missing or empty, otherwise the small thumbnail |
| AlbumGrid.Tiles | src/components/AlbumGrid.tsx:21-31 | one tile per shown album, in catalogue order |
| AlbumGrid.EmptyAlbumPlaceholder | src/components/AlbumGrid.tsx:33-43 | an album whose folder lists no files is drawn with the placeholder |
| AlbumGrid.AlbumCoverThumb | src/components/AlbumGrid.tsx:33-35 | any other album shows its first sorted image at 800 wide, or at 400 when that file id ends in `sz` |
| Text.Lower | scripts/fetch-photos.py:100 | `lower()` keeps the length and maps each character to lower case |
| Text.StripBy | scripts/fetch-photos.py:90 | neither end of the result is a dropped character |
| Text.Only | scripts/fetch-photos.py:102 | the filtered string is no longer than the input and holds only kept characters |
| Text.OnlyOnly | scripts/fetch-photos.py:102-104 | filtering by a wider class first loses nothing a narrower filter keeps |
| Text.StripByKeepsOthers | scripts/fetch-photos.py:104 | stripping the ends loses no character that is never dropped |
| Text.StripPadding | scripts/fetch-photos.py:63 | trailing white space is stripped, and a value without outer white space is kept |
| Text.DecimalRoundTrip | scripts/fetch-photos.py:89 | reading back a printed number gives the number |
| Text.StringLeTotal | scripts/fetch-photos.py:297 | Python's string order is total |
| Text.StringLeTransitive | scripts/fetch-photos.py:297 | Python's string order is transitive |
| Text.StringLeAntisymmetric | scripts/fetch-photos.py:297 | Python's string order is antisymmetric |
| Text.ReplaceFirstAbsent | src/components/AlbumGrid.tsx:14 | `replace` without an occurrence returns the string unchanged |
| Text.ReplaceFirstLeftmost | src/components/AlbumGrid.tsx:14 | `replace` changes exactly the leftmost occurrence |

On cover URLs written by the fetcher (`.../d/<id>=w800`, at
scripts/fetch-photos.py:114 and 291), the album grid's `sz=w800` replacement
changes nothing. The only exception is a file id ending in `sz`, where the
mark straddles the id and the width. `AlbumGrid.CoverThumb` states both cases.

## Left out

- Google Drive authentication, the listing calls, the retry and sleep loops, the token file, credential discovery, the JSON file write and the console output of the fetcher are I/O. The folder listing is the input `folders`, and each folder's file listing is the function `filesOf`. A failed listing is an empty list.
- `lastUpdated` is the wall-clock time, so the catalogue is modelled without it.
- `console.warn` in the direct-URL converter is a diagnostic only.
- Python's `\d`, `\s`, `\w` and `lower()` are modelled on ASCII only. Other Unicode digits, spaces, letters and case mappings are not.
- Negative or fractional `limit` and `size` values are not modelled. They are `nat`, so `slice` with a negative limit is not covered.
- The carousel's six-second `setInterval` timer is not modelled. Each tick is one `NextSlide` call.
- The viewer's body-overflow mutation and the registration and removal of the key listener are DOM side effects.
- The contact form posts to an external service over HTTP.
- The navigation bar's scroll and menu state and the protected image's load flags and watermark are presentation only.
- The pages, the footer, the animations and the static sample photo tables are markup and data with no behaviour.
- The album list the filter bar is built from is a parameter (`AlbumInfo` id and title). PhotoGrid.tsx:4 imports `ALBUMS` from googleDrive.ts, which does not export it.
- The bundled asset table `photoMap` is a parameter, and so is the photo list.
- A photo's caption, location and aspect ratio only affect text and layout.
- Record lookups with JavaScript prototype keys such as `constructor` are not modelled. A label or asset lookup of such a key would find an inherited member.
- PhotoGrid.Navigated: on an empty view the source's `% 0` gives `NaN` as the new index and `undefined` as the photo. The model clears the photo and keeps the old index. The viewer is not drawn either way.
- PhotoGrid.Gallery.HandleKey: the model applies each fired request at once. React would batch the updates of one event, but at most one request fires per key.
- Mime types in the file listing play no part in the records and are dropped.
