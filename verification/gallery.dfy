/** The view state of `GalleryContent` in app/gallery/page.tsx: the active category,
    the lightbox's selected image, and the user interactions that change them. */
module Gallery {
  import opened Wrappers
  import opened Catalog
  import opened Projection
  import opened Columns

  /** The component's two pieces of React state. `selectedImage` is `None` for `null`. */
  datatype View = View(activeCategory: string, selectedImage: Option<string>)
  {
    /** The lightbox is open when an image is selected. */
    predicate IsOpen()
    {
      selectedImage.Some?
    }

    /** `selectedImage && (...)`: the modal renders when the selection is a truthy
        string, that is a non-empty one. */
    predicate ModalShown()
    {
      selectedImage.Some? && selectedImage.value != ""
    }
  }

  /** `searchParams?.get('category') || 'food'`. `None` stands for both a missing
      search-params object and a missing `category` value; the empty string is falsy. */
  function InitialCategory(query: Option<string>): (category: string)
    ensures category != ""
    ensures query.Some? && query.value != "" ==> category == query.value
    ensures query.None? || query.value == "" ==> category == DefaultCategory
  {
    if query.Some? && query.value != "" then query.value else DefaultCategory
  }

  /** The state right after mounting: the resolved category and a closed lightbox. */
  function Mount(query: Option<string>): (v: View)
    ensures !v.IsOpen()
    ensures v.activeCategory == InitialCategory(query)
  {
    View(InitialCategory(query), None)
  }

  /** `currentImages`: the images of the active category in the given catalog, each
      one of the images shown under "all". */
  function CurrentImages(c: Catalog, v: View): (shown: seq<string>)
    ensures forall u :: u in shown ==> u in Project(c, All)
  {
    ProjectWithinAll(c, v.activeCategory);
    Project(c, v.activeCategory)
  }

  /** The three rendered columns. */
  datatype Side = LeftSide | CenterSide | RightSide

  /** The index residue a column keeps. */
  function Residue(side: Side): (r: nat)
    ensures r < 3
  {
    match side
    case LeftSide => 0
    case CenterSide => 1
    case RightSide => 2
  }

  /** The tiles rendered in a column: `leftImages`, `centerImages` or `rightImages`.
      Tile j is the current image at index 3j + residue. */
  function Tiles(c: Catalog, v: View, side: Side): (tiles: seq<string>)
    ensures |tiles| == ColumnSize(|CurrentImages(c, v)|, Residue(side))
    ensures forall j :: 0 <= j < |tiles| ==>
              3 * j + Residue(side) < |CurrentImages(c, v)| && tiles[j] == CurrentImages(c, v)[3 * j + Residue(side)]
  {
    ColumnContents(CurrentImages(c, v), Residue(side));
    Column(CurrentImages(c, v), Residue(side))
  }

  /** Clicking the `index`-th tile of a column selects its URL, which is the image at
      position 3 * index + residue of the current list; the category is kept. */
  function ClickTile(c: Catalog, v: View, side: Side, index: nat): (w: View)
    requires index < |Tiles(c, v, side)|
    ensures w.activeCategory == v.activeCategory
    ensures 3 * index + Residue(side) < |CurrentImages(c, v)|
    ensures w.selectedImage == Some(CurrentImages(c, v)[3 * index + Residue(side)])
    ensures w.IsOpen() && w.selectedImage.value in CurrentImages(c, v)
  {
    v.(selectedImage := Some(Tiles(c, v, side)[index]))
  }

  /** Clicking the `tab`-th category button sets the active category to its label,
      which then is the one highlighted tab, and leaves the lightbox as it is. */
  function ClickTab(v: View, tab: nat): (w: View)
    requires tab < |Categories|
    ensures w.activeCategory == Categories[tab]
    ensures TabVariant(w, tab) == Default
    ensures forall i :: 0 <= i < |Categories| && i != tab ==> TabVariant(w, i) == Outline
    ensures w.selectedImage == v.selectedImage
  {
    CategoriesShape();
    v.(activeCategory := Categories[tab])
  }

  /** A button's look: `default` for the active category, `outline` otherwise. */
  datatype Variant = Default | Outline

  function TabVariant(v: View, tab: nat): Variant
    requires tab < |Categories|
  {
    if v.activeCategory == Categories[tab] then Default else Outline
  }

  /** At most one tab is highlighted, and one is exactly when the active category is
      one of the five labels; an unknown category highlights none. */
  lemma HighlightedTabs(v: View)
    ensures forall i, j :: 0 <= i < j < |Categories| ==> !(TabVariant(v, i) == Default && TabVariant(v, j) == Default)
    ensures (exists i :: 0 <= i < |Categories| && TabVariant(v, i) == Default) <==> v.activeCategory in Categories
  {
    CategoriesShape();
    if v.activeCategory in Categories {
      var i :| 0 <= i < |Categories| && Categories[i] == v.activeCategory;
      assert TabVariant(v, i) == Default;
    }
  }

  /** Where in the modal a click lands, from the outermost element inwards. */
  datatype ModalTarget = Backdrop | Frame | Picture | DownloadButton | ShareButton | CloseButton

  /** What the element's own `onClick` does. */
  datatype Handler = NoHandler | CloseModal | StopPropagation

  function HandlerOf(t: ModalTarget): Handler
  {
    match t
    case Backdrop => CloseModal
    case Frame => StopPropagation
    case CloseButton => CloseModal
    case _ => NoHandler
  }

  /** The elements a click on `t` bubbles through, innermost first. */
  function BubblePath(t: ModalTarget): seq<ModalTarget>
  {
    match t
    case Backdrop => [Backdrop]
    case Frame => [Frame, Backdrop]
    case _ => [t, Frame, Backdrop]
  }

  /** Runs the handlers along a bubbling path until one stops propagation. */
  function Bubble(v: View, path: seq<ModalTarget>): View
    decreases |path|
  {
    if path == [] then v
    else match HandlerOf(path[0])
      case StopPropagation => v
      case CloseModal => Bubble(v.(selectedImage := None), path[1..])
      case NoHandler => Bubble(v, path[1..])
  }

  /** Handlers along a path can only close the lightbox: the state after bubbling is
      the state before, or that state with the selection cleared. */
  lemma {:induction false} BubbleKeepsOrCloses(v: View, path: seq<ModalTarget>)
    ensures Bubble(v, path) == v || Bubble(v, path) == v.(selectedImage := None)
    decreases |path|
  {
    if path != [] {
      match HandlerOf(path[0])
      case StopPropagation =>
      case CloseModal =>
        BubbleKeepsOrCloses(v.(selectedImage := None), path[1..]);
      case NoHandler =>
        BubbleKeepsOrCloses(v, path[1..]);
    }
  }

  /** A click inside the open modal: it either leaves the state alone or closes the
      lightbox, and never changes the category. */
  function ModalClick(v: View, t: ModalTarget): (w: View)
    requires v.ModalShown()
    ensures w == v || w == v.(selectedImage := None)
  {
    BubbleKeepsOrCloses(v, BubblePath(t));
    Bubble(v, BubblePath(t))
  }

  /** A modal click closes the lightbox exactly when it lands on the backdrop or on
      the X button; any other click leaves the state unchanged, and no click changes
      the category. */
  lemma ModalClickCloses(v: View, t: ModalTarget)
    requires v.ModalShown()
    ensures ModalClick(v, t).activeCategory == v.activeCategory
    ensures !ModalClick(v, t).IsOpen() <==> t == Backdrop || t == CloseButton
    ensures t != Backdrop && t != CloseButton ==> ModalClick(v, t) == v
  {
    var closed := v.(selectedImage := None);
    assert Bubble(closed, []) == closed;
    assert Bubble(closed, [Frame, Backdrop]) == closed;
    match t
    case Backdrop =>
      assert Bubble(v, [Backdrop]) == Bubble(closed, []);
    case Frame =>
      assert Bubble(v, [Frame, Backdrop]) == v;
    case CloseButton =>
      assert Bubble(v, [CloseButton, Frame, Backdrop]) == Bubble(closed, [Frame, Backdrop]);
    case _ =>
      assert Bubble(v, [t, Frame, Backdrop]) == Bubble(v, [Frame, Backdrop]);
      assert Bubble(v, [Frame, Backdrop]) == v;
  }

  /** A user interaction on the rendered page. */
  datatype Event = TabClick(tab: nat) | TileClick(side: Side, index: nat) | ModalClickAt(target: ModalTarget)

  /** One interaction, or `None` when the page renders nothing to receive it: no such
      tab or tile, a tile hidden under the open modal's full-screen backdrop, or no
      modal. A step keeps the selection, clears it, or selects a current image. */
  function Step(c: Catalog, v: View, e: Event): (next: Option<View>)
    ensures next.Some? ==>
              || next.value.selectedImage == v.selectedImage
              || next.value.selectedImage.None?
              || next.value.selectedImage.value in CurrentImages(c, v)
    ensures next.Some? && next.value.activeCategory != v.activeCategory ==> e.TabClick?
    ensures e.TileClick? && v.ModalShown() ==> next.None?
  {
    match e
    case TabClick(tab) =>
      if tab < |Categories| then Some(ClickTab(v, tab)) else None
    case TileClick(side, index) =>
      if !v.ModalShown() && index < |Tiles(c, v, side)| then Some(ClickTile(c, v, side, index)) else None
    case ModalClickAt(t) =>
      if v.ModalShown() then Some(ModalClick(v, t)) else None
  }

  /** A sequence of interactions from a state; `None` once one cannot happen. */
  function Run(c: Catalog, v: View, events: seq<Event>): Option<View>
    decreases |events|
  {
    if events == [] then Some(v)
    else match Step(c, v, events[0])
      case None => None
      case Some(w) => Run(c, w, events[1..])
  }

  /** The selection, when there is one, is an image of the catalog. */
  predicate Consistent(c: Catalog, v: View)
  {
    v.selectedImage.None? || v.selectedImage.value in Project(c, All)
  }

  /** Every interaction keeps the selection inside the catalog. */
  lemma StepConsistent(c: Catalog, v: View, e: Event)
    requires Consistent(c, v)
    requires Step(c, v, e).Some?
    ensures Consistent(c, Step(c, v, e).value)
  {
    match e
    case TabClick(_) =>
    case TileClick(side, index) =>
      ProjectWithinAll(c, v.activeCategory);
    case ModalClickAt(t) =>
      ModalClickCloses(v, t);
  }

  /** Every state reachable from mounting has its selection inside the catalog. */
  lemma {:induction false} RunConsistent(c: Catalog, v: View, events: seq<Event>)
    requires Consistent(c, v)
    requires Run(c, v, events).Some?
    ensures Consistent(c, Run(c, v, events).value)
    decreases |events|
  {
    if events != [] {
      StepConsistent(c, v, events[0]);
      RunConsistent(c, Step(c, v, events[0]).value, events[1..]);
    }
  }

  /** When no catalog URL is empty, the modal is rendered exactly when the lightbox
      is open, in every state reachable from mounting. */
  lemma ModalShownIffOpen(c: Catalog, query: Option<string>, events: seq<Event>)
    requires c.UrlsNonEmpty()
    requires Run(c, Mount(query), events).Some?
    ensures Run(c, Mount(query), events).value.ModalShown() <==> Run(c, Mount(query), events).value.IsOpen()
  {
    var w := Run(c, Mount(query), events).value;
    RunConsistent(c, Mount(query), events);
    if w.IsOpen() {
      ProjectUrlsNonEmpty(c, All);
      var i :| 0 <= i < |Project(c, All)| && Project(c, All)[i] == w.selectedImage.value;
    }
  }

  /** Reloading the page with the resolved category as the query value resolves to the
      same category. */
  lemma InitialCategoryStable(query: Option<string>)
    ensures InitialCategory(Some(InitialCategory(query))) == InitialCategory(query)
  {
  }

  /** An unknown non-empty category is kept as the active category, not replaced by
      "food", and shows no images. */
  lemma UnknownCategoryKept(c: Catalog, query: string)
    requires query != "" && query != All
    requires forall k: Key :: Name(k) != query
    ensures Mount(Some(query)).activeCategory == query
    ensures CurrentImages(c, Mount(Some(query))) == []
  {
    ProjectOther(c, query);
  }

  /** Switching tabs while the lightbox is open keeps the old selection, which then
      need not be among the images now shown. */
  lemma TabSwitchKeepsStaleSelection(c: Catalog)
    requires c.food != [] && c.food[0] !in c.product
    ensures var w := ClickTab(ClickTile(c, Mount(None), LeftSide, 0), 2);
            w.IsOpen() && w.selectedImage.value !in CurrentImages(c, w)
  {
    var v := Mount(None);
    assert Categories[2] == Name(Product);
    ProjectKey(c, Food);
    ProjectKey(c, Product);
    ColumnContents(CurrentImages(c, v), 0);
  }
}
