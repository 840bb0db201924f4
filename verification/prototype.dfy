/** `galleryImages[activeCategory] || []` as JavaScript evaluates it: the property
    lookup walks the prototype chain, so a category named after a member of
    `Object.prototype` finds a function or an object instead of `undefined`. */
module PrototypeLookup {
  import opened Wrappers
  import opened Catalog
  import opened Projection
  import opened Columns
  import Gallery

  /** The JavaScript values such a lookup can produce. */
  datatype JsValue = ArrayValue(items: seq<string>) | FunctionValue | ObjectValue | Undefined

  /** Arrays (even empty ones), functions and objects are truthy; `undefined` is not. */
  predicate Truthy(v: JsValue)
  {
    !v.Undefined?
  }

  /** The property names every plain object inherits from `Object.prototype`. */
  const ObjectPrototypeMembers: set<string> := {
    "constructor", "hasOwnProperty", "isPrototypeOf", "propertyIsEnumerable",
    "toLocaleString", "toString", "valueOf", "__proto__",
    "__defineGetter__", "__defineSetter__", "__lookupGetter__", "__lookupSetter__"
  }

  /** `galleryImages[key]`: an own key finds its list; an inherited name finds the
      inherited member (`__proto__` is the prototype object, the rest are methods). */
  function Index(c: Catalog, key: string): (found: JsValue)
    ensures found.ArrayValue? <==> ParseKey(key).Some?
    ensures found.Undefined? <==> ParseKey(key).None? && key !in ObjectPrototypeMembers
  {
    match ParseKey(key)
    case Some(k) => ArrayValue(c.Entry(k))
    case None =>
      if key == "__proto__" then ObjectValue
      else if key in ObjectPrototypeMembers then FunctionValue
      else Undefined
  }

  /** `currentImages` as written: the flattened catalog for "all", otherwise the
      lookup, replaced by `[]` only when it is falsy. */
  function CurrentImagesAsWritten(c: Catalog, category: string): (current: JsValue)
    ensures current.ArrayValue? <==> category !in ObjectPrototypeMembers
  {
    if category == All then ArrayValue(Project(c, All))
    else var found := Index(c, category); if Truthy(found) then found else ArrayValue([])
  }

  /** `currentImages.filter(...)` for one column: a `TypeError` when the value is not
      an array. */
  function ColumnAsWritten(v: JsValue, r: nat): (col: Result<seq<string>, string>)
    ensures col.Success? <==> v.ArrayValue?
    ensures col.Success? ==> |col.value| <= |v.items|
  {
    match v
    case ArrayValue(items) => Success(Column(items, r))
    case _ => Failure("TypeError: currentImages.filter is not a function")
  }

  /** Away from the inherited names the code as written computes the corrected
      projection. */
  lemma AsWrittenAgreesElsewhere(c: Catalog, category: string)
    requires category !in ObjectPrototypeMembers
    ensures CurrentImagesAsWritten(c, category) == ArrayValue(Project(c, category))
  {
  }

  /** Rendering the columns throws exactly for the inherited names. */
  lemma AsWrittenThrowsIff(c: Catalog, category: string, r: nat)
    ensures ColumnAsWritten(CurrentImagesAsWritten(c, category), r).Failure?
            <==> category in ObjectPrototypeMembers
  {
    if category in ObjectPrototypeMembers {
      assert ParseKey(category).None?;
    }
  }

  /** `/gallery?category=constructor`: the value is non-empty so it becomes the active
      category, the lookup finds `Object`, and building the left column throws, while
      the corrected projection shows an empty gallery. */
  lemma ConstructorQueryThrows(c: Catalog)
    ensures Gallery.Mount(Some("constructor")).activeCategory == "constructor"
    ensures ColumnAsWritten(CurrentImagesAsWritten(c, "constructor"), 0).Failure?
    ensures Gallery.CurrentImages(c, Gallery.Mount(Some("constructor"))) == []
  {
    AsWrittenThrowsIff(c, "constructor", 0);
  }
}
