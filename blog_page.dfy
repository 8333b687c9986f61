/**
 * The blog index page (src/app/blog/page.tsx): blog posts and studies merged
 * and ordered newest first, and the page's Open Graph image.
 */
module BlogPage {
  import opened BlogListing

  /** Newest first: the date keys never increase along the sequence. */
  predicate SortedByDateDesc(s: seq<ListingItem>) {
    forall i, j :: 0 <= i < j < |s| ==> s[i].date >= s[j].date
  }

  /** The items dated `d`, in sequence order. */
  function OnDate(s: seq<ListingItem>, d: int): seq<ListingItem> {
    if s == [] then []
    else (if s[0].date == d then [s[0]] else []) + OnDate(s[1..], d)
  }

  /** Places `x` in front of the first element that is not newer than it. */
  function Insert(x: ListingItem, s: seq<ListingItem>): (r: seq<ListingItem>)
    ensures multiset(r) == multiset(s) + multiset{x}
    ensures |r| == |s| + 1
    ensures r[0] == x || (s != [] && r[0] == s[0])
  {
    if s == [] || s[0].date <= x.date then [x] + s
    else
      assert s == [s[0]] + s[1..];
      [s[0]] + Insert(x, s[1..])
  }

  lemma {:induction false} InsertSorted(x: ListingItem, s: seq<ListingItem>)
    requires SortedByDateDesc(s)
    ensures SortedByDateDesc(Insert(x, s))
  {
    if s != [] && s[0].date > x.date {
      InsertSorted(x, s[1..]);
      InsertBelow(x, s[1..], s[0].date);
    }
  }

  /** Inserting an item no newer than `bound` into items no newer than `bound` keeps them so. */
  lemma {:induction false} InsertBelow(x: ListingItem, s: seq<ListingItem>, bound: int)
    requires x.date <= bound
    requires forall k :: 0 <= k < |s| ==> s[k].date <= bound
    ensures forall k :: 0 <= k < |Insert(x, s)| ==> Insert(x, s)[k].date <= bound
  {
    if s != [] && s[0].date > x.date {
      InsertBelow(x, s[1..], bound);
      assert forall k :: 0 <= k < |s[1..]| ==> s[1..][k].date <= bound;
    }
  }

  /** Inserting `x` puts it in front of every element with the same date. */
  lemma {:induction false} InsertOnDate(x: ListingItem, s: seq<ListingItem>, d: int)
    ensures OnDate(Insert(x, s), d) == (if x.date == d then [x] else []) + OnDate(s, d)
  {
    if s == [] || s[0].date <= x.date {
      assert ([x] + s)[1..] == s;
    } else {
      InsertOnDate(x, s[1..], d);
      assert ([s[0]] + Insert(x, s[1..]))[1..] == Insert(x, s[1..]);
    }
  }

  /** The stable sort by date, newest first (`sort((a, b) => date(b) - date(a))`). */
  function SortByDateDesc(s: seq<ListingItem>): (r: seq<ListingItem>)
    ensures multiset(r) == multiset(s)
    ensures |r| == |s|
  {
    if s == [] then []
    else
      assert s == [s[0]] + s[1..];
      Insert(s[0], SortByDateDesc(s[1..]))
  }

  /** The result is ordered newest first. */
  lemma {:induction false} SortedResult(s: seq<ListingItem>)
    ensures SortedByDateDesc(SortByDateDesc(s))
  {
    if s != [] {
      SortedResult(s[1..]);
      InsertSorted(s[0], SortByDateDesc(s[1..]));
    }
  }

  /** The sort is stable: the items of any one date keep their relative order. */
  lemma {:induction false} SortStable(s: seq<ListingItem>, d: int)
    ensures OnDate(SortByDateDesc(s), d) == OnDate(s, d)
  {
    if s != [] {
      SortStable(s[1..], d);
      InsertOnDate(s[0], SortByDateDesc(s[1..]), d);
    }
  }

  lemma {:induction false} OnDateAppend(a: seq<ListingItem>, b: seq<ListingItem>, d: int)
    ensures OnDate(a + b, d) == OnDate(a, d) + OnDate(b, d)
  {
    if a == [] {
      assert a + b == b;
    } else {
      assert (a + b)[0] == a[0] && (a + b)[1..] == a[1..] + b;
      OnDateAppend(a[1..], b, d);
      var head := if a[0].date == d then [a[0]] else [];
      assert OnDate(a + b, d) == head + OnDate(a[1..] + b, d);
      assert OnDate(a, d) == head + OnDate(a[1..], d);
    }
  }

  /** `allItems`: `[...blogPosts, ...studies]` sorted newest first. */
  function AllItems(blogPosts: seq<ListingItem>, studies: seq<ListingItem>): seq<ListingItem> {
    SortByDateDesc(blogPosts + studies)
  }

  /**
   * `allItems` holds every post and study once, newest first, and on equal
   * dates the blog posts (in their order) come before the studies (in theirs).
   */
  lemma AllItemsProperties(blogPosts: seq<ListingItem>, studies: seq<ListingItem>, d: int)
    ensures multiset(AllItems(blogPosts, studies)) == multiset(blogPosts) + multiset(studies)
    ensures |AllItems(blogPosts, studies)| == |blogPosts| + |studies|
    ensures SortedByDateDesc(AllItems(blogPosts, studies))
    ensures OnDate(AllItems(blogPosts, studies), d) == OnDate(blogPosts, d) + OnDate(studies, d)
  {
    SortedResult(blogPosts + studies);
    SortStable(blogPosts + studies, d);
    OnDateAppend(blogPosts, studies, d);
  }

  /** `allItems[0]?.image ?? `${siteUrl}/images/og-default.jpg``. */
  function OgImage(allItems: seq<ListingItem>, siteUrl: string): string {
    if allItems != [] then allItems[0].image else siteUrl + "/images/og-default.jpg"
  }

  /** The Open Graph image is that of a newest item, or the default image when there are no items. */
  lemma OgImageOfNewest(blogPosts: seq<ListingItem>, studies: seq<ListingItem>, siteUrl: string)
    ensures blogPosts + studies == [] ==>
              OgImage(AllItems(blogPosts, studies), siteUrl) == siteUrl + "/images/og-default.jpg"
    ensures blogPosts + studies != [] ==>
              exists x :: x in blogPosts + studies
                && OgImage(AllItems(blogPosts, studies), siteUrl) == x.image
                && forall y :: y in blogPosts + studies ==> y.date <= x.date
  {
    var all := AllItems(blogPosts, studies);
    AllItemsProperties(blogPosts, studies, 0);
    if all != [] {
      var x := all[0];
      assert x in multiset(blogPosts + studies);
      forall y | y in blogPosts + studies ensures y.date <= x.date {
        assert y in multiset(all);
        var j :| 0 <= j < |all| && all[j] == y;
        assert j == 0 || all[0].date >= all[j].date;
      }
    }
  }
}
