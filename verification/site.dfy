/** The gallery with the site's own catalog, and the category links the portfolio
    page (app/portfolio/page.tsx) sends visitors to it with. */
module Site {
  import opened Wrappers
  import opened Catalog
  import opened Projection
  import opened Columns
  import opened Gallery

  /** The `category` values of the portfolio page's four `/gallery?category=` links. */
  const PortfolioLinkCategories: seq<string> := ["food", "product", "nature", "architecture"]

  /** Each portfolio link opens the gallery on the catalog entry of the same name,
      with the lightbox closed. */
  lemma PortfolioLinksShowTheirEntry(c: Catalog, i: nat)
    requires i < |PortfolioLinkCategories|
    ensures !Mount(Some(PortfolioLinkCategories[i])).IsOpen()
    ensures Mount(Some(PortfolioLinkCategories[i])).activeCategory == Name(Keys[i])
    ensures CurrentImages(c, Mount(Some(PortfolioLinkCategories[i]))) == c.Entry(Keys[i])
  {
    ProjectKey(c, Keys[i]);
  }

  /** Without a query the gallery opens on the 12 food images, laid out 4, 4 and 4. */
  lemma DefaultLayout()
    ensures Mount(None).activeCategory == "food"
    ensures |CurrentImages(GalleryImages(), Mount(None))| == 12
    ensures |Tiles(GalleryImages(), Mount(None), LeftSide)| == 4
    ensures |Tiles(GalleryImages(), Mount(None), CenterSide)| == 4
    ensures |Tiles(GalleryImages(), Mount(None), RightSide)| == 4
  {
    var imgs := CurrentImages(GalleryImages(), Mount(None));
    ProjectKey(GalleryImages(), Food);
    ColumnContents(imgs, 0);
    ColumnContents(imgs, 1);
    ColumnContents(imgs, 2);
  }

  /** `?category=all` shows all 28 images, laid out 10, 9 and 9. */
  lemma AllLayout()
    ensures |CurrentImages(GalleryImages(), Mount(Some("all")))| == 28
    ensures |Tiles(GalleryImages(), Mount(Some("all")), LeftSide)| == 10
    ensures |Tiles(GalleryImages(), Mount(Some("all")), CenterSide)| == 9
    ensures |Tiles(GalleryImages(), Mount(Some("all")), RightSide)| == 9
  {
    var imgs := CurrentImages(GalleryImages(), Mount(Some("all")));
    GalleryAllHas28();
    ColumnContents(imgs, 0);
    ColumnContents(imgs, 1);
    ColumnContents(imgs, 2);
  }

  /** `?category=sculpture` keeps "sculpture" as the category and shows nothing. */
  lemma SculptureShowsNothing(c: Catalog)
    ensures Mount(Some("sculpture")).activeCategory == "sculpture"
    ensures CurrentImages(c, Mount(Some("sculpture"))) == []
  {
    UnknownCategoryKept(c, "sculpture");
  }

  /** On the site, the modal is rendered exactly when the lightbox is open, after any
      sequence of interactions from any query. */
  lemma SiteModalShownIffOpen(query: Option<string>, events: seq<Event>)
    ensures var reached := Run(GalleryImages(), Mount(query), events);
            reached.Some? ==> (reached.value.ModalShown() <==> reached.value.IsOpen())
  {
    if Run(GalleryImages(), Mount(query), events).Some? {
      GalleryImagesUrlsNonEmpty();
      ModalShownIffOpen(GalleryImages(), query, events);
    }
  }
}
