/** The `currentImages` projection of app/gallery/page.tsx: the image list shown for
    the active category string. */
module Projection {
  import opened Wrappers
  import opened Catalog

  /** `Array.prototype.flat` on a list of lists: concatenation in order, nothing
      dropped, so its length is the sum of the lengths. */
  function Flatten(lists: seq<seq<string>>): (flat: seq<string>)
    ensures |flat| == TotalLength(lists)
  {
    if lists == [] then [] else lists[0] + Flatten(lists[1..])
  }

  /** The sum of the lengths of a list of lists. */
  function TotalLength(lists: seq<seq<string>>): nat
  {
    if lists == [] then 0 else |lists[0]| + TotalLength(lists[1..])
  }

  /** `Object.values` of a catalog: its entries in key declaration order. */
  function Values(c: Catalog): (vs: seq<seq<string>>)
    ensures |vs| == |Keys|
    ensures forall i :: 0 <= i < |Keys| ==> vs[i] == c.Entry(Keys[i])
  {
    [c.food, c.product, c.nature, c.architecture]
  }

  /** The images shown for a category string: every entry for "all", the entry of a
      catalog key, and the empty list for any other string (own keys only). Whatever
      it shows comes from the catalog. */
  function Project(c: Catalog, category: string): (shown: seq<string>)
    ensures forall u :: u in shown ==> u in c.food || u in c.product || u in c.nature || u in c.architecture
  {
    if category == All then FlattenValues(c); Flatten(Values(c))
    else match ParseKey(category)
      case Some(k) => c.Entry(k)
      case None => []
  }

  /** An element of the flattening comes from one of the lists, and every element of
      every list appears in the flattening. */
  lemma {:induction false} FlattenMembership(lists: seq<seq<string>>, u: string)
    ensures u in Flatten(lists) <==> exists i :: 0 <= i < |lists| && u in lists[i]
  {
    if lists != [] {
      FlattenMembership(lists[1..], u);
      if u in Flatten(lists[1..]) {
        var i :| 0 <= i < |lists[1..]| && u in lists[1..][i];
        assert u in lists[i + 1];
      }
      if exists i :: 0 <= i < |lists| && u in lists[i] {
        var i :| 0 <= i < |lists| && u in lists[i];
        if i > 0 {
          assert u in lists[1..][i - 1];
        }
      }
    }
  }

  /** "all" is food, product, nature and architecture concatenated in that order,
      duplicates kept, so its length is the sum of the four lengths. */
  lemma ProjectAll(c: Catalog)
    ensures Project(c, All) == c.food + c.product + c.nature + c.architecture
    ensures |Project(c, All)| == |c.food| + |c.product| + |c.nature| + |c.architecture|
  {
    FlattenValues(c);
  }

  /** Flattening the catalog's values concatenates the four entries in key order. */
  lemma FlattenValues(c: Catalog)
    ensures Flatten(Values(c)) == c.food + c.product + c.nature + c.architecture
  {
    var vs := Values(c);
    assert vs[1..][1..][1..][1..] == [];
    assert vs[1..][1..][1..] == [c.architecture];
    assert vs[1..][1..] == [c.nature, c.architecture];
    assert vs[1..] == [c.product, c.nature, c.architecture];
    assert Flatten(vs[1..][1..][1..]) == c.architecture + [];
    assert Flatten(vs[1..][1..]) == c.nature + c.architecture;
    assert Flatten(vs[1..]) == c.product + (c.nature + c.architecture);
    assert Flatten(vs) == c.food + (c.product + (c.nature + c.architecture));
  }

  /** For the site's catalog "all" holds 12 + 6 + 6 + 4 = 28 images. */
  lemma GalleryAllHas28()
    ensures |Project(GalleryImages(), All)| == 28
  {
    ProjectAll(GalleryImages());
  }

  /** The name of a catalog key projects to exactly that key's entry. */
  lemma ProjectKey(c: Catalog, k: Key)
    ensures Project(c, Name(k)) == c.Entry(k)
  {
    ParseKeyName(k);
  }

  /** A string that is neither "all" nor a key name projects to the empty list. */
  lemma ProjectOther(c: Catalog, category: string)
    requires category != All
    requires forall k: Key :: Name(k) != category
    ensures Project(c, category) == []
  {
    ParseKeyComplete(category);
  }

  /** Every image shown under any category is one of the images shown under "all". */
  lemma ProjectWithinAll(c: Catalog, category: string)
    ensures forall u :: u in Project(c, category) ==> u in Project(c, All)
  {
    ProjectAll(c);
  }

  /** When every entry is non-empty, the projection is non-empty exactly for the
      five tab labels. */
  lemma ProjectNonEmptyIff(c: Catalog, category: string)
    requires forall k: Key :: c.Entry(k) != []
    ensures Project(c, category) != [] <==> category in Categories
  {
    ParseKeyComplete(category);
    ProjectAll(c);
    assert c.Entry(Food) == c.food;
    if category in Categories && category != All {
      var k :| k in Keys && Name(k) == category;
      ParseKeyName(k);
    }
    if ParseKey(category).Some? {
      var k := ParseKey(category).value;
      assert category == Name(k);
      assert k in Keys;
    }
  }

  /** Every URL shown under any category is a non-empty string when the catalog's are. */
  lemma ProjectUrlsNonEmpty(c: Catalog, category: string)
    requires c.UrlsNonEmpty()
    ensures forall i :: 0 <= i < |Project(c, category)| ==> |Project(c, category)[i]| > 0
  {
    ProjectAll(c);
    var all := Project(c, All);
    forall i | 0 <= i < |all|
      ensures |all[i]| > 0
    {
      var f, p, n := |c.food|, |c.product|, |c.nature|;
      if i < f {
        assert all[i] == c.Entry(Food)[i];
      } else if i < f + p {
        assert all[i] == c.Entry(Product)[i - f];
      } else if i < f + p + n {
        assert all[i] == c.Entry(Nature)[i - f - p];
      } else {
        assert all[i] == c.Entry(Architecture)[i - f - p - n];
      }
    }
  }
}
