# Gallery view state of the photography portfolio site

This project models, in Dafny, the only stateful logic of the site: the gallery page
(`app/gallery/page.tsx`, component `GalleryContent`). The page resolves an initial
category from the `category` query value and projects the static image catalog onto
the active category. It splits the resulting list into three columns by index modulo 3
and keeps a lightbox, an optional selected image URL, that tile clicks open and modal
clicks close.

Modules:

- `Wrappers` (wrappers.dfy): `Option` for `null`/`undefined`, `Result` for a throwing evaluation.
- `Catalog` (catalog.dfy): the catalog keys, the tab labels `categories`, the
  `galleryImages` constant (as a `Catalog` value, built from Pexels photo ids), own-key lookup.
- `Projection` (projection.dfy): `currentImages` as `Project(catalog, category)`, with `flat` as `Flatten`.
  `Project` looks categories up among the catalog's own keys only. This is the corrected
  form of line 69 (see Findings): for the names every JavaScript object inherits, the page
  as written throws instead.
- `Columns` (columns.dfy): the `index % 3 === r` filters, written as an index scan, and
  round-robin `Interleave` as their inverse.
- `Gallery` (gallery.dfy): the `View` record (`activeCategory`, `selectedImage`), `Mount`,
  `ClickTab`, `ClickTile`, `ModalClick` with DOM event bubbling and `stopPropagation`,
  an `Event` type with `Step`/`Run`, and the reachable-state invariants. The state
  machine shows images through the corrected `Project`.
- `PrototypeLookup` (prototype.dfy): the lookup `galleryImages[activeCategory] || []` as
  JavaScript evaluates it (see Findings).
- `Site` (site.dfy): concrete facts about the site's own catalog and the portfolio
  page's links into the gallery.

The operations are written against any `Catalog`. The site's catalog is the value
`GalleryImages()`, and the concrete lemmas instantiate the generic ones with it.

Behaviour of `app/gallery/page.tsx` that the model keeps as written:

- A non-empty `category` value that names no catalog entry stays the active category
  (line 59) and is not replaced by `food`. It shows no images (line 69), except for the
  names inherited from `Object.prototype`, for which the column filter on line 72 throws
  (see Findings). The model shows those names through the corrected lookup.
- The page has no selected index, no next/previous operation and no keyboard listener.
  The lightbox holds only the selected URL (line 61).
- A tab click sets only the category (line 155) and does not close an open lightbox.

## Model

| member | source | states |
|---|---|---|
| Catalog.ParseKey | app/gallery/page.tsx:18-55 | an own-key lookup only ever finds the key whose name is the looked-up string |
| Catalog.ParseKeyName | app/gallery/page.tsx:18-55 | every key of `galleryImages` is found under its own name |
| Catalog.ParseKeyComplete | app/gallery/page.tsx:69 | a string finds a catalog entry exactly when it is one of the four key names |
| Catalog.CategoriesShape | app/gallery/page.tsx:16 | the tabs are "all" then food, product, nature, architecture in catalog order, with five distinct labels |
| Catalog.GalleryImages | app/gallery/page.tsx:18-55 | the site's catalog, spelled from its Pexels photo ids, holds 12 food, 6 product, 6 nature and 4 architecture images |
| Catalog.GalleryImagesUrlsNonEmpty | app/gallery/page.tsx:18-55 | no URL in the site's catalog is the empty string |
| Projection.Flatten | app/gallery/page.tsx:68 | `flat` drops nothing: its length is the sum of the list lengths |
| Projection.FlattenMembership | app/gallery/page.tsx:68 | a URL is in the flattened list exactly when it is in one of the lists |
| Projection.Project | app/gallery/page.tsx:67-69 | `currentImages` with own-key lookup: every image shown comes from one of the four catalog entries |
| Projection.ProjectAll | app/gallery/page.tsx:67-68 | "all" is food ++ product ++ nature ++ architecture in that order, duplicates kept, with the summed length |
| Projection.GalleryAllHas28 | app/gallery/page.tsx:18-55 | "all" shows 28 images with the site's catalog |
| Projection.ProjectKey | app/gallery/page.tsx:69 | each key name shows exactly that catalog entry |
| Projection.ProjectOther | app/gallery/page.tsx:69 | any string that is neither "all" nor a key name shows the empty list, without failing; this is the corrected lookup, the page as written throws for the names in `ObjectPrototypeMembers` (Findings) |
| Projection.ProjectWithinAll | app/gallery/page.tsx:67-69 | every image shown under any category is among those shown under "all" |
| Projection.ProjectNonEmptyIff | app/gallery/page.tsx:16-69 | with non-empty entries, a category shows images exactly when it is one of the five tab labels (corrected lookup, see Findings) |
| Projection.ProjectUrlsNonEmpty | app/gallery/page.tsx:67-69 | every URL shown is non-empty when the catalog's URLs are |
| Columns.Column | app/gallery/page.tsx:72-74 | the `index % 3 === r` filter yields a sub-list of the images, never longer than them |
| Columns.Left | app/gallery/page.tsx:72 | `leftImages` has (n + 2) / 3 images and its j-th is the image at index 3j |
| Columns.Center | app/gallery/page.tsx:73 | `centerImages` has (n + 1) / 3 images and its j-th is the image at index 3j + 1 |
| Columns.Right | app/gallery/page.tsx:74 | `rightImages` has n / 3 images and its j-th is the image at index 3j + 2 |
| Columns.Interleave | app/gallery/page.tsx:72-74 | round-robin interleaving of three lists keeps every element: its length is the sum of theirs |
| Columns.ColumnContents | app/gallery/page.tsx:72-74 | column r holds (n + 2 - r) / 3 elements and its j-th is the element at index 3j + r, so original order is kept |
| Columns.ColumnUnique | app/gallery/page.tsx:72-74 | any list with that length and those elements is the column: the filter is pinned down by its contents |
| Columns.Partition | app/gallery/page.tsx:72-74 | the element at index i sits at position i / 3 of column i % 3, and the three lengths sum to the list's |
| Columns.Balanced | app/gallery/page.tsx:72-74 | left minus center and center minus right lengths are each 0 or 1 |
| Columns.InterleaveRebuilds | app/gallery/page.tsx:72-74 | round-robin interleaving of left, center and right rebuilds the list exactly |
| Gallery.InitialCategory | app/gallery/page.tsx:59 | an absent or empty query value gives "food"; any other value is kept verbatim; the result is never empty |
| Gallery.InitialCategoryStable | app/gallery/page.tsx:59 | resolving the resolved category again gives the same category |
| Gallery.UnknownCategoryKept | app/gallery/page.tsx:59-69 | an unknown non-empty query value becomes the active category and shows no images; on the page as written the "shows no images" half holds only for names outside `ObjectPrototypeMembers` (Findings) |
| Gallery.Mount | app/gallery/page.tsx:59-61 | the page starts with the resolved category and a closed lightbox |
| Gallery.CurrentImages | app/gallery/page.tsx:67-69 | the images shown for the active category are all among those shown under "all" |
| Gallery.Tiles | app/gallery/page.tsx:172-245 | a column renders ColumnSize tiles, tile j being the current image at index 3j + the column's residue |
| Gallery.ClickTile | app/gallery/page.tsx:172-245 | clicking tile j of a column opens the lightbox on the image at index 3j + residue of the current list, keeping the category |
| Gallery.ClickTab | app/gallery/page.tsx:151-155 | a tab click sets the category to the clicked tab's label, makes that tab the only highlighted one, and leaves the selection untouched |
| Gallery.TabVariant | app/gallery/page.tsx:154 | a tab's variant is `default` for the active category and `outline` otherwise |
| Gallery.HighlightedTabs | app/gallery/page.tsx:154 | at most one tab is highlighted, and one is exactly when the active category is a tab label |
| Gallery.BubbleKeepsOrCloses | app/gallery/page.tsx:257-284 | the modal's handlers along any bubbling path either leave the state alone or clear the selection |
| Gallery.ModalClick | app/gallery/page.tsx:251-287 | a click in the open modal leaves the state unchanged or closes the lightbox, never touching the category |
| Gallery.ModalClickCloses | app/gallery/page.tsx:251-287 | a modal click closes the lightbox exactly on the backdrop or the X button; other clicks change nothing |
| Gallery.Step | app/gallery/page.tsx:139-284 | one interaction keeps the selection, clears it or selects a current image; only a tab click changes the category; tiles under the open modal cannot be clicked |
| Gallery.Run | app/gallery/page.tsx:139-284 | a sequence of interactions applied in order, stopping at the first that the page cannot receive |
| Gallery.StepConsistent | app/gallery/page.tsx:155-284 | every interaction keeps the selection among the catalog's images |
| Gallery.RunConsistent | app/gallery/page.tsx:155-284 | every state reached by a sequence of interactions keeps the selection among the catalog's images |
| Gallery.View.ModalShown | app/gallery/page.tsx:251 | the modal renders when `selectedImage` is a truthy, that is non-empty, string |
| Gallery.ModalShownIffOpen | app/gallery/page.tsx:251 | in every reachable state the modal is rendered exactly when an image is selected |
| Gallery.TabSwitchKeepsStaleSelection | app/gallery/page.tsx:155 | switching from food to product with the lightbox open keeps a selection that the product list need not contain |
| PrototypeLookup.Index | app/gallery/page.tsx:69 | `galleryImages[key]` finds a list exactly for own keys and is `undefined` exactly for names neither owned nor inherited |
| PrototypeLookup.CurrentImagesAsWritten | app/gallery/page.tsx:67-69 | `currentImages` as written is an array exactly for names outside `ObjectPrototypeMembers` |
| PrototypeLookup.ColumnAsWritten | app/gallery/page.tsx:72-74 | a column filter succeeds exactly on an array and then keeps at most its elements |
| PrototypeLookup.AsWrittenAgreesElsewhere | app/gallery/page.tsx:67-69 | for any name not inherited from `Object.prototype`, the lookup as written equals the corrected projection |
| PrototypeLookup.AsWrittenThrowsIff | app/gallery/page.tsx:69-72 | building a column throws exactly for the names inherited from `Object.prototype` |
| PrototypeLookup.ConstructorQueryThrows | app/gallery/page.tsx:59-72 | `?category=constructor` becomes the active category and the column filter throws, while the corrected projection is empty |
| Site.PortfolioLinksShowTheirEntry | app/portfolio/page.tsx:15-36 | each portfolio link opens the gallery closed, on the catalog entry of the same name |
| Site.DefaultLayout | app/gallery/page.tsx:59-74 | with no query the site shows the 12 food images in columns of 4, 4 and 4 |
| Site.AllLayout | app/gallery/page.tsx:67-74 | "all" shows 28 images in columns of 10, 9 and 9 |
| Site.SculptureShowsNothing | app/gallery/page.tsx:59-69 | `?category=sculpture` stays "sculpture" and shows no images |
| Site.SiteModalShownIffOpen | app/gallery/page.tsx:251 | on the site the modal is rendered exactly when the lightbox is open, after any interactions |

## Left out

- GSAP parallax, ScrollTrigger and framer-motion effects (lines 76-134 and the motion props): cosmetic, timing- and float-driven.
- `useSearchParams`, `Suspense` and `next/image`: framework plumbing. The query value is a plain `Option<string>`, where `None` covers both a missing search-params object and a missing `category` key.
- The heading `activeCategory.toUpperCase()`: Unicode case mapping is not modelled.
- The Download and Share buttons: they have no handlers, so they appear only as click targets that bubble to the image frame and change nothing.
- Interactions on elements the page does not render, such as a tile index past a column's end or a modal click while no modal is shown. `Step` returns `None` for them and the transition functions require them away.
- Site.PortfolioLinksShowTheirEntry: proved for any catalog. That each link also lands on a non-empty list follows from Catalog.GalleryImages and is not restated for the concrete catalog.
- The names every JavaScript object inherits (`ObjectPrototypeMembers`): the `Gallery` state machine, and so `CurrentImages`, `Tiles`, `ClickTile`, `Step` and `Run`, uses the corrected own-key lookup of the Findings row. For those names it shows an empty gallery where the page as written throws; only `PrototypeLookup` models the throwing behaviour.
- Gallery.Step: tab clicks stay enabled while the modal is open, although the full-screen `z-50` backdrop (line 253) covers the `z-30` tab bar (line 139). A tab button can still be reached by keyboard focus, so the step set over-approximates what a pointer can do. Tile clicks under the open modal are disabled, since the tiles are not focusable.
- The preloader timer, the navigation bar's scroll listener and menu toggle, and the contact form that only logs and resets. These are other components with no gallery logic. The static home, clients and layout pages are also out.

## Findings

| source | as written | input that shows it | evidently intended | confidence | as-written member | corrected member |
|---|---|---|---|---|---|---|
| app/gallery/page.tsx:69 | `galleryImages[activeCategory] \|\| []` looks the name up through the prototype chain, so an inherited member (a function, or the prototype object) is truthy and replaces `[]`; `currentImages.filter` on line 72 then throws a `TypeError` | `/gallery?category=constructor` (likewise `toString`, `valueOf`, `__proto__`, …) | every category that is not "all" or a catalog key shows an empty gallery | high; not executed | PrototypeLookup.ConstructorQueryThrows | Projection.ProjectOther, Gallery.UnknownCategoryKept |
