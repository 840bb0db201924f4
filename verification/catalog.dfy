/** The gallery's static data: the tab labels and the per-category image catalog
    (app/gallery/page.tsx, the `categories` and `galleryImages` constants). */
module Catalog {
  import opened Wrappers

  /** The keys of the `galleryImages` object, in declaration order. */
  datatype Key = Food | Product | Nature | Architecture

  /** The catalog keys in the order the object literal declares them, which is the
      order `Object.values` enumerates them. */
  const Keys: seq<Key> := [Food, Product, Nature, Architecture]

  /** The pseudo-category that stands for every catalog entry. */
  const All: string := "all"

  /** The category the page falls back to when no query value is given. */
  const DefaultCategory: string := "food"

  /** The property name under which a key is stored in `galleryImages`. */
  function Name(k: Key): string
  {
    match k
    case Food => "food"
    case Product => "product"
    case Nature => "nature"
    case Architecture => "architecture"
  }

  /** The tab labels the page offers, in rendering order. */
  const Categories: seq<string> :=
    [All, Name(Food), Name(Product), Name(Nature), Name(Architecture)]

  /** Own-property lookup of a category name in `galleryImages`. */
  function ParseKey(s: string): (r: Option<Key>)
    ensures r.Some? ==> Name(r.value) == s
  {
    if s == "food" then Some(Food)
    else if s == "product" then Some(Product)
    else if s == "nature" then Some(Nature)
    else if s == "architecture" then Some(Architecture)
    else None
  }

  /** The URL of a Pexels photo, as every catalog entry spells it. */
  function PexelsUrl(id: string): (u: string)
    ensures |u| > |id|
  {
    "https://images.pexels.com/photos/" + id + "/pexels-photo-" + id + ".jpeg"
  }

  /** The URL of each photo id, in order. */
  function Urls(ids: seq<string>): (r: seq<string>)
    ensures |r| == |ids|
    ensures forall i :: 0 <= i < |ids| ==> r[i] == PexelsUrl(ids[i])
  {
    if ids == [] then [] else [PexelsUrl(ids[0])] + Urls(ids[1..])
  }

  /** An image catalog: one ordered URL list per key, as `galleryImages` holds them. */
  datatype Catalog = Catalog(food: seq<string>, product: seq<string>,
                             nature: seq<string>, architecture: seq<string>)
  {
    /** The list stored under a key. */
    function Entry(k: Key): seq<string>
    {
      match k
      case Food => food
      case Product => product
      case Nature => nature
      case Architecture => architecture
    }

    /** Every URL in the catalog is a non-empty (hence truthy) string. */
    predicate UrlsNonEmpty()
    {
      forall k: Key, i :: 0 <= i < |Entry(k)| ==> |Entry(k)[i]| > 0
    }
  }

  /** The site's catalog, the `galleryImages` constant: 12 food, 6 product,
      6 nature and 4 architecture images. */
  function GalleryImages(): (c: Catalog)
    ensures |c.food| == 12 && |c.product| == 6
    ensures |c.nature| == 6 && |c.architecture| == 4
  {
    Catalog(Urls(PhotoIds(Food)), Urls(PhotoIds(Product)),
            Urls(PhotoIds(Nature)), Urls(PhotoIds(Architecture)))
  }

  /** The Pexels photo ids behind each catalog entry, duplicates and order kept. */
  function PhotoIds(k: Key): seq<string>
  {
    match k
    case Food => [
      "1640777",
      "1633578",
      "2097090",
      "376464",
      "1581384",
      "1199957",
      "1438672",
      "1640772",
      "2097090",
      "1640777",
      "376464",
      "1581384"
    ]
    case Product => [
      "3373745",
      "3968056",
      "4465124",
      "3561339",
      "3968056",
      "4465124"
    ]
    case Nature => [
      "1287145",
      "1402787",
      "1563356",
      "1402787",
      "1563356",
      "1287145"
    ]
    case Architecture => [
      "2181915",
      "1707310",
      "2181915",
      "1707310"
    ]
  }

  /** Looking up a key's own name finds that key, and nothing else is found under it. */
  lemma ParseKeyName(k: Key)
    ensures ParseKey(Name(k)) == Some(k)
  {
  }

  /** A string names a catalog key exactly when it is one of the four key names. */
  lemma ParseKeyComplete(s: string)
    ensures ParseKey(s).Some? <==> exists k: Key :: Name(k) == s
  {
    if exists k: Key :: Name(k) == s {
      var k: Key :| Name(k) == s;
      ParseKeyName(k);
    }
  }

  /** The tabs are exactly "all" followed by the four key names in catalog order,
      and no two tabs carry the same label. */
  lemma CategoriesShape()
    ensures |Categories| == 5 && Categories[0] == All
    ensures forall i :: 0 <= i < |Keys| ==> Categories[i + 1] == Name(Keys[i])
    ensures forall i, j :: 0 <= i < j < |Categories| ==> Categories[i] != Categories[j]
    ensures All !in Categories[1..]
  {
  }

  /** A catalog whose entries are all Pexels URLs holds no empty URL. */
  lemma PexelsCatalogUrlsNonEmpty(f: seq<string>, p: seq<string>, n: seq<string>, a: seq<string>)
    ensures Catalog(Urls(f), Urls(p), Urls(n), Urls(a)).UrlsNonEmpty()
  {
    var c := Catalog(Urls(f), Urls(p), Urls(n), Urls(a));
    forall k: Key, i | 0 <= i < |c.Entry(k)|
      ensures |c.Entry(k)[i]| > 0
    {
      var ids := match k case Food => f case Product => p case Nature => n case Architecture => a;
      assert c.Entry(k) == Urls(ids);
      assert c.Entry(k)[i] == PexelsUrl(ids[i]);
    }
  }

  /** Every URL of the site's catalog is a non-empty string. */
  lemma GalleryImagesUrlsNonEmpty()
    ensures GalleryImages().UrlsNonEmpty()
  {
    PexelsCatalogUrlsNonEmpty(PhotoIds(Food), PhotoIds(Product), PhotoIds(Nature), PhotoIds(Architecture));
  }
}
