/** The blog and case-study listing (src/components/blog/BlogListing.tsx). */
module BlogListing {

  datatype ItemType = Blog | Study

  /** A listing item. `date` is the sort key of the item's date string. */
  datatype ListingItem = ListingItem(
    slug: string,
    title: string,
    excerpt: string,
    category: string,
    image: string,
    date: int,
    kind: ItemType)

  /** The filter buttons' values: "all", or one item type ("blog", "study"). */
  datatype FilterValue = All | Only(kind: ItemType)

  /** The items of one type, in their original order (`items.filter(item => item.type === filter)`). */
  function OfKind(items: seq<ListingItem>, kind: ItemType): (r: seq<ListingItem>)
    ensures |r| <= |items|
    ensures forall i :: 0 <= i < |r| ==> r[i].kind == kind
  {
    if items == [] then []
    else (if items[0].kind == kind then [items[0]] else []) + OfKind(items[1..], kind)
  }

  /** `filteredItems`. */
  function FilteredItems(items: seq<ListingItem>, filter: FilterValue): seq<ListingItem> {
    match filter
    case All => items
    case Only(kind) => OfKind(items, kind)
  }

  /** Filtering keeps order: it distributes over concatenation and keeps or drops each item alone. */
  lemma {:induction false} OfKindAppend(a: seq<ListingItem>, b: seq<ListingItem>, kind: ItemType)
    ensures OfKind(a + b, kind) == OfKind(a, kind) + OfKind(b, kind)
  {
    if a == [] {
      assert a + b == b;
    } else {
      assert (a + b)[1..] == a[1..] + b;
      OfKindAppend(a[1..], b, kind);
    }
  }

  lemma OfKindSingle(x: ListingItem, kind: ItemType)
    ensures OfKind([x], kind) == if x.kind == kind then [x] else []
  {
    assert [x][1..] == [];
  }

  /** "all" shows the items unchanged; a type shows exactly the items of that type, each as often as it occurs. */
  lemma {:induction false} FilteredItemsContents(items: seq<ListingItem>, filter: FilterValue)
    ensures filter.All? ==> FilteredItems(items, filter) == items
    ensures filter.Only? ==>
              forall x :: multiset(FilteredItems(items, filter))[x] == (if x.kind == filter.kind then multiset(items)[x] else 0)
  {
    if filter.Only? && items != [] {
      FilteredItemsContents(items[1..], filter);
      assert items == [items[0]] + items[1..];
    }
  }

  /** Every item is of exactly one of the two types, so the two filtered lists together have all items. */
  lemma {:induction false} FilteredLengthsSum(items: seq<ListingItem>)
    ensures |OfKind(items, Blog)| + |OfKind(items, Study)| == |items|
  {
    if items != [] {
      FilteredLengthsSum(items[1..]);
    }
  }

  /** The link of an item: "/blog/<slug>" for a blog post, "/studies/<slug>" for a study. */
  function Href(item: ListingItem): (href: string)
    ensures item.kind == Blog ==> href == "/blog/" + item.slug
    ensures item.kind == Study ==> href == "/studies/" + item.slug
  {
    (if item.kind == Blog then "/blog/" else "/studies/") + item.slug
  }

  function KindName(kind: ItemType): string {
    match kind
    case Blog => "blog"
    case Study => "study"
  }

  /** The React key, `${item.type}-${item.slug}`. */
  function Key(item: ListingItem): string {
    KindName(item.kind) + "-" + item.slug
  }

  /** Keys and links tell items apart by type and slug. */
  lemma KeyAndHrefInjective(a: ListingItem, b: ListingItem)
    ensures Key(a) == Key(b) <==> (a.kind == b.kind && a.slug == b.slug)
    ensures Href(a) == Href(b) <==> (a.kind == b.kind && a.slug == b.slug)
  {
    if Key(a) == Key(b) {
      assert Key(a)[0] == Key(b)[0];
      var p := |KindName(a.kind) + "-"|;
      assert a.slug == Key(a)[p..] && b.slug == Key(b)[p..];
    }
    if Href(a) == Href(b) {
      assert Href(a)[1] == Href(b)[1];
      var p := |if a.kind == Blog then "/blog/" else "/studies/"|;
      assert a.slug == Href(a)[p..] && b.slug == Href(b)[p..];
    }
  }

  /** The type badge. */
  function Badge(item: ListingItem): string {
    match item.kind
    case Blog => "Blog"
    case Study => "Studija"
  }

  /** The call to action under the excerpt. */
  function CallToAction(item: ListingItem): string {
    match item.kind
    case Blog => "Pročitaj više →"
    case Study => "Otvori studiju →"
  }

  /** The badge and the call to action depend on the type alone, and each tells the two types apart. */
  lemma LabelsFollowType(a: ListingItem, b: ListingItem)
    ensures Badge(a) == Badge(b) <==> a.kind == b.kind
    ensures CallToAction(a) == CallToAction(b) <==> a.kind == b.kind
    ensures Badge(a) in {"Blog", "Studija"}
  {
  }

  /** The filter state of one listing. */
  class Listing {
    const items: seq<ListingItem>
    var filter: FilterValue

    /** `useState<FilterValue>("all")`. */
    constructor (items: seq<ListingItem>)
      ensures this.items == items && filter == All
      ensures Visible() == items
    {
      this.items := items;
      filter := All;
    }

    /** The items on show. */
    function Visible(): seq<ListingItem>
      reads this
    {
      FilteredItems(items, filter)
    }

    /** A filter button's `isActive`. */
    predicate IsActive(option: FilterValue)
      reads this
    {
      option == filter
    }

    /** A filter button click: `setFilter(option.value)`. */
    method SetFilter(option: FilterValue)
      modifies this
      ensures filter == option && IsActive(option) && Visible() == FilteredItems(items, option)
    {
      filter := option;
    }
  }
}
