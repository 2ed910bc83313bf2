/** The records the search service passes around, and its collaborators: the
    search index and the relational store, both as total functions supplied by
    the caller, since their matching rules live outside the service. */
module Model {
  import opened Wrappers

  /** A search-index record (`ItemElastic`). */
  datatype IndexedItem = IndexedItem(
    name: string,
    brand: string,
    itemType: string,
    catalogue: string,
    catalogueId: int,
    itemId: int)

  /** `CatalogueElastic`: a catalogue with the items found in it and the brand
      the query resolved. `items` is null only in the brand-only early exit of
      the staged resolver; `brand` is null when no brand was resolved. */
  datatype CatalogueGroup = CatalogueGroup(
    catalogue: string,
    catalogueId: int,
    items: Option<seq<IndexedItem>>,
    brand: Option<string>)

  /** `Item`: a relational-store row for one item, already decoded. */
  datatype Item = Item(price: int, name: string, url: string, image: string, itemId: int, cat: string)

  /** A row of the store's category lookup: two display columns copied as they
      are, the catalogue code, the parent catalogue code and a nullable icon. */
  datatype CategoryRow = CategoryRow(name: string, title: string, code: string, parentCode: string, icon: Option<string>)

  /** `Category`: the display columns, the navigation path, the parent path and the icon. */
  datatype Category = Category(name: string, title: string, url: string, parentUrl: string, image: Option<string>)

  datatype TypeOfQuery = SeeAlso

  datatype TypeHelpText = TypeHelpText(kind: TypeOfQuery, text: string)

  datatype SearchResult = SearchResult(items: seq<Item>, categories: seq<Category>, hints: seq<TypeHelpText>)

  /** The unchecked exceptions the service can throw. */
  datatype Failure = IndexOutOfBounds | NullPointer

  /** `PageRequest.of(0, n)`: page sizes of the full search, the narrow search
      and the single-item lookup. */
  const FullPage: nat := 150
  const SmallPage: nat := 10
  const SinglePage: nat := 1

  /** The repository methods the service calls on the search index. */
  datatype Query =
    | ByBrand(text: string)                                    // findAllByBrand(text, page)
    | ByType(text: string)                                     // findAllByType(text, page)
    | ByCatalogue(text: string)                                // findByCatalogue(text, page)
    | ByTypedName(text: string, itemType: string)              // findAllByType(text, type, page)
    | ByCatalogueName(text: string, catalogueId: int)          // find(text, catalogueId, page)
    | ByBrandName(text: string, brand: string)                 // findAllByBrand(text, brand, page)
    | ByTypedBrandName(text: string, brand: string, itemType: string) // findAllByTypeAndBrand(text, brand, type, page)
    | Loose(text: string)                                      // findAllNotStrong(text, page)
    | ByName(pattern: string)                                  // findAllByName(pattern, page)
    | ByItemId(itemId: string)                                 // findByItemId(itemId, page)

  /** The search index: the records a query returns for a page size. */
  type Index = (Query, nat) -> seq<IndexedItem>

  /** The relational store: item ids by SKU, the region's item rows for a list
      of ids (ids with no row in the region are simply absent), and category
      rows for a list of ids. */
  datatype Store = Store(
    bySku: string -> seq<int>,
    byIds: (int, seq<int>) -> seq<Item>,
    categoriesByIds: seq<int> -> seq<CategoryRow>)

  /** Everything the service depends on. `lower` is `toLowerCase(Locale.ROOT)`;
      `hashOrder` is the iteration order a `HashMap` gives its key set. */
  datatype Env = Env(
    index: Index,
    store: Store,
    lower: string -> string,
    hashOrder: set<string> -> seq<string>)

  /** A `HashMap` iterates over each of its keys exactly once. */
  ghost predicate ValidOrder(order: set<string> -> seq<string>) {
    forall keys: set<string> :: multiset(order(keys)) == multiset(keys)
  }
}
