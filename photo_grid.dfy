/**
 * The gallery grid: the photos of the active category cut to an optional
 * limit, the filter bar built from the album list with its labels, the image
 * source lookup, and the grid's viewer state (the active category, the
 * selected photo and its position) with the handlers that change it.
 */
module PhotoGrid {
  import opened Wrappers
  import opened Seqs
  import opened Lightbox

  /** A gallery photo. Its caption fields and aspect ratio only affect text and layout. */
  datatype Photo = Photo(id: string, title: string, category: string, src: string)

  /** An entry of the album list the filter bar is built from. */
  datatype AlbumInfo = AlbumInfo(id: string, title: string)

  const AllCategory: string := "all"
  const AllLabel: string := "All"

  // ---------------------------------------------------------------------------
  // The filtered view

  predicate InCategory(p: Photo, active: string) {
    active == AllCategory || p.category == active
  }

  /** `photos.filter(photo => activeCategory === 'all' || photo.category === activeCategory)`. */
  function Filter(photos: seq<Photo>, active: string): (r: seq<Photo>)
    ensures |r| <= |photos|
    ensures forall i :: 0 <= i < |r| ==> InCategory(r[i], active)
  {
    if photos == [] then []
    else if InCategory(photos[0], active) then [photos[0]] + Filter(photos[1..], active)
    else Filter(photos[1..], active)
  }

  function Shift(pos: seq<nat>): seq<nat> {
    MapSeq((k: nat) => k + 1, pos)
  }

  /** The positions of the photos that pass the filter. */
  function Passing(photos: seq<Photo>, active: string): seq<nat> {
    if photos == [] then []
    else if InCategory(photos[0], active) then [0] + Shift(Passing(photos[1..], active))
    else Shift(Passing(photos[1..], active))
  }

  /** `r` holds the photos of `s` at the positions `pos`. */
  ghost predicate Picks(r: seq<Photo>, s: seq<Photo>, pos: seq<nat>) {
    |pos| == |r| && forall k :: 0 <= k < |pos| ==> pos[k] < |s| && r[k] == s[pos[k]]
  }

  ghost predicate Increasing(pos: seq<nat>) {
    forall k, l :: 0 <= k < l < |pos| ==> pos[k] < pos[l]
  }

  /** `pos` lists exactly the positions of the photos of `s` that pass. */
  ghost predicate ListsPassing(s: seq<Photo>, active: string, pos: seq<nat>) {
    forall j :: 0 <= j < |s| ==> (InCategory(s[j], active) <==> j in pos)
  }

  /** `r` consists of the photos of `s` at increasing positions, which are exactly
      the positions of the photos that pass. */
  ghost predicate SelectsExactly(r: seq<Photo>, s: seq<Photo>, active: string, pos: seq<nat>) {
    Picks(r, s, pos) && Increasing(pos) && ListsPassing(s, active, pos)
  }

  lemma ShiftMembers(pos: seq<nat>)
    ensures |Shift(pos)| == |pos| && forall k :: 0 <= k < |pos| ==> Shift(pos)[k] == pos[k] + 1
    ensures 0 !in Shift(pos)
    ensures forall j: nat :: j in pos <==> j + 1 in Shift(pos)
  {
    var t := Shift(pos);
    forall j: nat ensures j in pos <==> j + 1 in t {
      if j in pos {
        var k :| 0 <= k < |pos| && pos[k] == j;
        assert t[k] == j + 1;
      }
      if j + 1 in t {
        var k :| 0 <= k < |t| && t[k] == j + 1;
        assert pos[k] == j;
      }
    }
  }

  /** Positions moved up by one pick the same photos from behind one more photo. */
  lemma ShiftPicks(x: Photo, s: seq<Photo>, r: seq<Photo>, p: seq<nat>)
    requires Picks(r, s, p)
    ensures Picks(r, [x] + s, Shift(p))
  {
    var u := [x] + s;
    var t := Shift(p);
    ShiftMembers(p);
    forall k | 0 <= k < |t| ensures t[k] < |u| && r[k] == u[t[k]] {
      assert u[p[k] + 1] == s[p[k]];
    }
  }

  /** A passing photo in front is picked by the new position 0. */
  lemma KeepPicks(x: Photo, s: seq<Photo>, r: seq<Photo>, p: seq<nat>)
    requires Picks(r, s, p)
    ensures Picks([x] + r, [x] + s, [0] + Shift(p))
  {
    ShiftPicks(x, s, r, p);
    var pos := [0] + Shift(p);
    var w := [x] + r;
    assert forall k :: 1 <= k < |pos| ==> pos[k] == Shift(p)[k - 1] && w[k] == r[k - 1];
  }

  lemma ShiftIncreasing(p: seq<nat>)
    requires Increasing(p)
    ensures Increasing(Shift(p)) && Increasing([0] + Shift(p))
  {
    var t := Shift(p);
    ShiftMembers(p);
    var pos := [0] + t;
    forall k, l | 0 <= k < l < |pos| ensures pos[k] < pos[l] {
      assert pos[l] == t[l - 1];
      if k > 0 {
        assert pos[k] == t[k - 1];
      }
    }
  }

  /** Behind one more photo, the positions of the passing photos move up by one,
      and position 0 is listed exactly when the new photo passes. */
  lemma ShiftListsPassing(x: Photo, s: seq<Photo>, active: string, p: seq<nat>)
    requires ListsPassing(s, active, p)
    ensures ListsPassing([x] + s, active, if InCategory(x, active) then [0] + Shift(p) else Shift(p))
  {
    var u := [x] + s;
    var t := Shift(p);
    var pos := if InCategory(x, active) then [0] + t else t;
    ShiftMembers(p);
    forall j | 0 <= j < |u| ensures InCategory(u[j], active) <==> j in pos {
      if j > 0 {
        assert u[j] == s[j - 1];
        var i: nat := j - 1;
        assert i in p <==> i + 1 in t;
        assert j in pos <==> j in t;
      }
    }
  }

  /** The filter keeps exactly the photos of the category, in their order. */
  lemma {:induction false} FilterSelects(photos: seq<Photo>, active: string)
    ensures SelectsExactly(Filter(photos, active), photos, active, Passing(photos, active))
  {
    if photos != [] {
      var s := photos[1..];
      FilterSelects(s, active);
      assert photos == [photos[0]] + s;
      var r := Filter(s, active);
      var p := Passing(s, active);
      ShiftIncreasing(p);
      ShiftListsPassing(photos[0], s, active, p);
      if InCategory(photos[0], active) {
        KeepPicks(photos[0], s, r, p);
      } else {
        ShiftPicks(photos[0], s, r, p);
      }
    }
  }

  /** `filteredPhotos`. */
  function FilteredPhotos(photos: seq<Photo>, active: string, limit: Option<nat>): seq<Photo> {
    Take(Filter(photos, active), limit)
  }

  /** Every shown photo belongs to the active category, and the view is the
      leading part of the category's photos in their listing order. */
  lemma FilteredPhotosPrefix(photos: seq<Photo>, active: string, limit: Option<nat>)
    ensures var view := FilteredPhotos(photos, active, limit);
      var pos := Passing(photos, active);
      |view| <= |pos| &&
      forall k :: 0 <= k < |view| ==> pos[k] < |photos| && view[k] == photos[pos[k]] && InCategory(view[k], active)
  {
    FilterSelects(photos, active);
  }

  /** With the all filter and no limit every photo is shown in order. */
  lemma {:induction false} FilterAll(photos: seq<Photo>)
    ensures FilteredPhotos(photos, AllCategory, None) == photos
  {
    if photos != [] {
      FilterAll(photos[1..]);
      assert photos == [photos[0]] + photos[1..];
    }
  }

  // ---------------------------------------------------------------------------
  // The filter bar

  function AlbumId(a: AlbumInfo): string { a.id }

  /** `['all', ...ALBUMS.map(album => album.id)]`. */
  function Categories(albums: seq<AlbumInfo>): (r: seq<string>)
    ensures |r| == |albums| + 1 && r[0] == AllCategory
    ensures forall i :: 0 <= i < |albums| ==> r[i + 1] == albums[i].id
  {
    [AllCategory] + MapSeq(AlbumId, albums)
  }

  /** The title `Object.fromEntries` keeps for `key`: a later album with the same
      id overwrites an earlier one. */
  function TitleOf(albums: seq<AlbumInfo>, key: string): (r: Option<string>)
    ensures r.None? <==> forall i :: 0 <= i < |albums| ==> albums[i].id != key
    ensures r.Some? ==> exists i :: 0 <= i < |albums| && albums[i].id == key &&
                                  r.value == albums[i].title &&
                                  (forall j :: i < j < |albums| ==> albums[j].id != key)
  {
    if albums == [] then None
    else if albums[|albums| - 1].id == key then Some(albums[|albums| - 1].title)
    else TitleOf(albums[..|albums| - 1], key)
  }

  /** `categoryLabels[category] || category`: `categoryLabels` maps `all` to "All"
      and then every album id to its title, and an empty label falls back to the key. */
  function Label(albums: seq<AlbumInfo>, category: string): (r: string)
    ensures (forall i :: 0 <= i < |albums| ==> albums[i].id != category) ==>
      r == if category == AllCategory then AllLabel else category
    ensures forall i :: (0 <= i < |albums| && albums[i].id == category && albums[i].title != "" &&
                         (forall j :: i < j < |albums| ==> albums[j].id != category)) ==>
                        r == albums[i].title
    ensures r == category || r != ""
    ensures TitleOf(albums, category).Some? && TitleOf(albums, category).value != "" ==>
      r == TitleOf(albums, category).value
    ensures TitleOf(albums, category) == Some("") ==> r == category
  {
    var title := TitleOf(albums, category);
    var entry := if title.Some? then title else if category == AllCategory then Some(AllLabel) else None;
    if entry.Some? && entry.value != "" then entry.value else category
  }

  /** `photoMap[src] || src`: the bundled asset for a known key, else the key itself. */
  function PhotoSrc(assets: map<string, string>, src: string): (r: string)
    ensures src !in assets ==> r == src
    ensures r == src || (src in assets && r == assets[src])
    ensures r == "" ==> src == ""
    ensures src in assets && assets[src] != "" ==> r == assets[src]
    ensures src in assets && assets[src] == "" ==> r == src
  {
    if src in assets && assets[src] != "" then assets[src] else src
  }

  /** The photo handed to the viewer: its source resolved through the asset table. */
  function ViewedPhoto(assets: map<string, string>, p: Photo): (r: Photo)
    ensures r.id == p.id && r.title == p.title && r.category == p.category
    ensures r.src == PhotoSrc(assets, p.src)
  {
    p.(src := PhotoSrc(assets, p.src))
  }

  // ---------------------------------------------------------------------------
  // Moving through the view

  /** `handleNavigate`'s new index: wrap-around by one in a view of `n` photos. */
  function Step(d: Direction, i: nat, n: nat): (j: nat)
    requires n > 0
    ensures j < n
  {
    match d
    case Prev => (i - 1 + n) % n
    case Next => (i + 1) % n
  }

  function Opposite(d: Direction): Direction {
    match d
    case Prev => Next
    case Next => Prev
  }

  lemma ModBelowTwice(x: int, n: int)
    requires 0 < n && 0 <= x < 2 * n
    ensures x % n == if x < n then x else x - n
  {
    if x >= n {
      assert x == 1 * n + (x - n);
    }
  }

  /** From a position inside the view, next moves one on or wraps to the first
      photo, and prev moves one back or wraps to the last. */
  lemma StepWraps(d: Direction, i: nat, n: nat)
    requires i < n
    ensures Step(d, i, n) == match d
      case Next => if i + 1 < n then i + 1 else 0
      case Prev => if i > 0 then i - 1 else n - 1
  {
    match d
    case Next => ModBelowTwice(i + 1, n);
    case Prev => ModBelowTwice(i - 1 + n, n);
  }

  /** Next undoes prev and prev undoes next; with one photo both stay put. */
  lemma StepRoundTrip(d: Direction, i: nat, n: nat)
    requires i < n
    ensures Step(Opposite(d), Step(d, i, n), n) == i
    ensures n == 1 ==> Step(d, i, n) == i
  {
    StepWraps(d, i, n);
    StepWraps(Opposite(d), Step(d, i, n), n);
  }

  // ---------------------------------------------------------------------------
  // The viewer state and its transitions

  /** `activeCategory`, `selectedPhoto` (`None` for `null`) and `selectedIndex`. */
  datatype Viewer = Viewer(activeCategory: string, selectedPhoto: Option<Photo>, selectedIndex: nat)

  const Initial: Viewer := Viewer(AllCategory, None, 0)

  /** The viewer is open on the photo at its position in `view`. */
  predicate Showing(v: Viewer, view: seq<Photo>) {
    v.selectedPhoto.Some? && v.selectedIndex < |view| && v.selectedPhoto.value == view[v.selectedIndex]
  }

  /** `hasNext` and `hasPrev`: both are `filteredPhotos.length > 1`. */
  function HasArrows(view: seq<Photo>): bool { |view| > 1 }

  /** `handlePhotoClick(photo, index)` for the photo drawn at `index`. */
  function Clicked(v: Viewer, view: seq<Photo>, i: nat): (r: Viewer)
    requires i < |view|
    ensures Showing(r, view) && r.selectedIndex == i
    ensures r.activeCategory == v.activeCategory
  {
    v.(selectedPhoto := Some(view[i]), selectedIndex := i)
  }

  /** `handleNavigate(direction)`. An empty view leaves no photo to show; the
      index is then kept. */
  function Navigated(v: Viewer, view: seq<Photo>, d: Direction): (r: Viewer)
    ensures r.activeCategory == v.activeCategory
    ensures |view| > 0 ==> Showing(r, view) && r.selectedIndex == Step(d, v.selectedIndex, |view|)
    ensures |view| == 0 ==> r.selectedPhoto.None? && r.selectedIndex == v.selectedIndex
  {
    if |view| == 0 then v.(selectedPhoto := None)
    else
      var j := Step(d, v.selectedIndex, |view|);
      v.(selectedIndex := j, selectedPhoto := Some(view[j]))
  }

  /** `onClose`: only the selected photo is cleared. */
  function Closed(v: Viewer): (r: Viewer)
    ensures r.selectedPhoto.None?
    ensures r.activeCategory == v.activeCategory && r.selectedIndex == v.selectedIndex
  {
    v.(selectedPhoto := None)
  }

  /** A filter button: only the active category changes, so an open viewer keeps
      its photo and position. */
  function FilterChosen(v: Viewer, category: string): (r: Viewer)
    ensures r.activeCategory == category
    ensures r.selectedPhoto == v.selectedPhoto && r.selectedIndex == v.selectedIndex
  {
    v.(activeCategory := category)
  }

  /** The grid's answer to one request of the viewer. */
  function Dispatch(v: Viewer, view: seq<Photo>, a: Action): Viewer {
    match a
    case Close => Closed(v)
    case Navigate(d) => Navigated(v, view, d)
  }

  /** The requests of one event, answered in order. */
  function DispatchAll(v: Viewer, view: seq<Photo>, actions: seq<Action>): Viewer
    decreases |actions|
  {
    if actions == [] then v else DispatchAll(Dispatch(v, view, actions[0]), view, actions[1..])
  }

  lemma DispatchOne(v: Viewer, view: seq<Photo>, a: Action)
    ensures DispatchAll(v, view, [a]) == Dispatch(v, view, a)
  {
    assert [a][1..] == [];
  }

  /** A key press while the viewer is open. */
  function KeyPressed(v: Viewer, view: seq<Photo>, key: string): Viewer {
    DispatchAll(v, view, KeyActions(key, HasArrows(view), HasArrows(view)))
  }

  /** Escape closes the viewer; arrows move only when the view has more than one
      photo, and any other key changes nothing. */
  lemma KeyPressedCases(v: Viewer, view: seq<Photo>, key: string)
    ensures key == EscapeKey ==> KeyPressed(v, view, key) == Closed(v)
    ensures forall d :: key == ArrowKey(d) ==>
      KeyPressed(v, view, key) == if |view| > 1 then Navigated(v, view, d) else v
    ensures key != EscapeKey && key != LeftKey && key != RightKey ==> KeyPressed(v, view, key) == v
  {
    var acts := KeyActions(key, HasArrows(view), HasArrows(view));
    if acts != [] {
      assert acts == [acts[0]];
      DispatchOne(v, view, acts[0]);
    }
    forall d | key == ArrowKey(d)
      ensures KeyPressed(v, view, key) == if |view| > 1 then Navigated(v, view, d) else v
    {
      if |view| > 1 {
        assert Offered(d, true, true);
        assert acts == [Navigate(d)];
      }
    }
  }

  /** Moving one way and then back returns to the same photo. */
  lemma NavigateRoundTrip(v: Viewer, view: seq<Photo>, d: Direction)
    requires Showing(v, view)
    ensures Navigated(Navigated(v, view, d), view, Opposite(d)) == v
  {
    StepRoundTrip(d, v.selectedIndex, |view|);
  }

  /** Opening, moving and closing keep an open viewer on the photo at its position. */
  lemma TransitionsKeepShowing(v: Viewer, view: seq<Photo>, a: Action)
    requires Showing(v, view)
    ensures Dispatch(v, view, a).selectedPhoto.Some? ==> Showing(Dispatch(v, view, a), view)
  {
  }

  /** The grid with its viewer. The photo list and the limit are fixed props. */
  class Gallery {
    const photos: seq<Photo>
    const limit: Option<nat>
    var activeCategory: string
    var selectedPhoto: Option<Photo>
    var selectedIndex: nat

    function State(): Viewer
      reads this
    {
      Viewer(activeCategory, selectedPhoto, selectedIndex)
    }

    /** The photos currently drawn. */
    function View(): seq<Photo>
      reads this
    {
      FilteredPhotos(photos, activeCategory, limit)
    }

    function HasPrev(): bool
      reads this
    {
      HasArrows(View())
    }

    function HasNext(): bool
      reads this
    {
      HasArrows(View())
    }

    constructor(photos: seq<Photo>, limit: Option<nat>)
      ensures this.photos == photos && this.limit == limit
      ensures State() == Initial
    {
      this.photos := photos;
      this.limit := limit;
      activeCategory := AllCategory;
      selectedPhoto := None;
      selectedIndex := 0;
    }

    method ClickPhoto(index: nat)
      requires index < |View()|
      modifies this
      ensures State() == Clicked(old(State()), old(View()), index)
    {
      selectedPhoto := Some(View()[index]);
      selectedIndex := index;
    }

    method Navigate(direction: Direction)
      modifies this
      ensures State() == Navigated(old(State()), old(View()), direction)
    {
      var view := View();
      if |view| == 0 {
        selectedPhoto := None;
        return;
      }
      var newIndex := Step(direction, selectedIndex, |view|);
      selectedIndex := newIndex;
      selectedPhoto := Some(view[newIndex]);
    }

    method Close()
      modifies this
      ensures State() == Closed(old(State()))
    {
      selectedPhoto := None;
    }

    method ChooseFilter(category: string)
      modifies this
      ensures State() == FilterChosen(old(State()), category)
    {
      activeCategory := category;
    }

    /** The viewer's key handler, wired to this grid's handlers. The viewer, and with it the
        handler, exists only while a photo is open. */
    method HandleKey(key: string)
      requires selectedPhoto.Some?
      modifies this
      ensures State() == KeyPressed(old(State()), old(View()), key)
    {
      ghost var v := State();
      ghost var view := View();
      KeyPressedCases(v, view, key);
      if key == EscapeKey {
        Close();
      }
      if key == LeftKey && HasPrev() {
        Navigate(Prev);
      }
      if key == RightKey && HasNext() {
        Navigate(Next);
      }
    }

    /** A click on a drawn control of the open viewer. */
    method HandleClick(c: Control)
      requires selectedPhoto.Some?
      requires Rendered(c, HasPrev(), HasNext())
      modifies this
      ensures State() == DispatchAll(old(State()), old(View()), ClickActions(c))
    {
      match c
      case Backdrop => Close();
      case CloseButton => Close();
      case PrevButton => Navigate(Prev);
      case NextButton => Navigate(Next);
      case Content =>
    }
  }
}
