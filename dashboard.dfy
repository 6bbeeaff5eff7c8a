/**
 The dashboard's derived view (src/components/Dashboard.tsx): which feed
 items are shown, in which order, and the freshness label of each. The
 view is a pure function of the feed items and the preferences, except
 for the sort, which works in place on the freshly filtered array.
 */
module Dashboard {
  import opened Collections
  import opened Types
  import opened Sorting

  // ---------------------------------------------------------------------
  // Case-insensitive substring matching

  /** `toLowerCase` on one character, for the ASCII letters only. */
  function LowerChar(c: char): char {
    if 'A' <= c <= 'Z' then (c as int + 32) as char else c
  }

  /** `s.toLowerCase()` for ASCII text. */
  function Lower(s: string): (r: string)
    ensures |r| == |s|
    ensures forall i :: 0 <= i < |s| ==> r[i] == LowerChar(s[i])
  {
    if s == [] then [] else [LowerChar(s[0])] + Lower(s[1..])
  }

  /** Lower-casing twice is lower-casing once, and leaves no upper-case ASCII letter. */
  lemma LowerIdempotent(s: string)
    ensures Lower(Lower(s)) == Lower(s)
    ensures forall i :: 0 <= i < |s| ==> !('A' <= Lower(s)[i] <= 'Z')
  {
    var l := Lower(s);
    forall i | 0 <= i < |s| ensures Lower(l)[i] == l[i] {
      assert l[i] == LowerChar(s[i]);
    }
  }

  /** `needle` occurs in `haystack` starting at index `i`. */
  predicate OccursAt(haystack: string, needle: string, i: int) {
    0 <= i && i + |needle| <= |haystack| && haystack[i..i + |needle|] == needle
  }

  /** `haystack.includes(needle)`: `needle` occurs as a contiguous run of `haystack`. */
  predicate Contains(haystack: string, needle: string) {
    exists i | 0 <= i <= |haystack| - |needle| :: OccursAt(haystack, needle, i)
  }

  /** Matching is by substring, not by word: "scat" contains "cat"; every text contains "". */
  lemma ContainsIsSubstringMatch(s: string)
    ensures Contains("scat", "cat")
    ensures Contains(s, "")
  {
    assert OccursAt("scat", "cat", 1) by { assert "scat"[1..4] == "cat"; }
    assert OccursAt(s, "", 0);
  }

  /** `${item.title} ${item.content}`.toLowerCase() */
  function SearchText(item: FeedItem): string {
    Lower(item.title + " " + item.content)
  }

  /** `searchText.includes(tag.toLowerCase())` */
  predicate TagMatches(item: FeedItem, tag: string) {
    Contains(SearchText(item), Lower(tag))
  }

  /** Upper and lower case in a search tag make no difference. */
  lemma TagMatchesIgnoresCase(item: FeedItem, tag: string)
    ensures TagMatches(item, Lower(tag)) == TagMatches(item, tag)
  {
    LowerIdempotent(tag);
  }

  // ---------------------------------------------------------------------
  // Tag filter and matching tags

  /** `tags.some(tag => ...)`, evaluated from the first tag on. */
  function AnyTagMatches(item: FeedItem, tags: seq<string>): bool {
    tags != [] && (TagMatches(item, tags[0]) || AnyTagMatches(item, tags[1..]))
  }

  lemma {:induction false} AnyTagMatchesIff(item: FeedItem, tags: seq<string>)
    ensures AnyTagMatches(item, tags) <==> exists t :: t in tags && TagMatches(item, t)
  {
    if tags != [] {
      AnyTagMatchesIff(item, tags[1..]);
      assert tags == [tags[0]] + tags[1..];
    }
  }

  /** `filterItemsByTags`: no search tags lets everything through. */
  predicate PassesTagFilter(tags: seq<string>, item: FeedItem) {
    |tags| == 0 || AnyTagMatches(item, tags)
  }

  /** An item passes iff there are no tags, or a lower-cased tag occurs in its lower-cased text. */
  lemma PassesTagFilterIff(tags: seq<string>, item: FeedItem)
    ensures PassesTagFilter(tags, item) <==>
      |tags| == 0 || exists t :: t in tags && Contains(Lower(item.title + " " + item.content), Lower(t))
  {
    AnyTagMatchesIff(item, tags);
  }

  /** `getMatchingTags`: the search tags that occur in the item's text. */
  function MatchingTags(tags: seq<string>, item: FeedItem): (r: seq<string>)
    ensures |r| <= |tags|
    ensures forall t :: t in r <==> t in tags && TagMatches(item, t)
    ensures forall t :: multiset(r)[t] == if TagMatches(item, t) then multiset(tags)[t] else 0
  {
    if |tags| == 0 then [] else Filter(tags, t => TagMatches(item, t))
  }

  /** A search tag stored twice counts twice towards the sort key. */
  lemma RepeatedTagCountsTwice(item: FeedItem)
    requires TagMatches(item, "cat")
    ensures MatchingTags(["cat", "cat"], item) == ["cat", "cat"]
  {
    assert ["cat", "cat"][1..] == ["cat"] && ["cat"][1..] == [];
  }

  /** The matching tags keep the order they have among the search tags. */
  lemma MatchingTagsInOrder(tags: seq<string>, item: FeedItem)
    ensures IsSubsequence(MatchingTags(tags, item), tags)
  {
    if |tags| != 0 {
      FilterIsSubsequence(tags, t => TagMatches(item, t));
    }
  }

  /** With no search tags every item passes and matches nothing; otherwise it passes iff some tag matches. */
  lemma MatchingTagsAgreeWithFilter(tags: seq<string>, item: FeedItem)
    ensures |tags| == 0 ==> PassesTagFilter(tags, item) && MatchingTags(tags, item) == []
    ensures |tags| != 0 ==> (MatchingTags(tags, item) != [] <==> PassesTagFilter(tags, item))
  {
    AnyTagMatchesIff(item, tags);
    var r := MatchingTags(tags, item);
    if |tags| != 0 && r != [] {
      assert r[0] in r;
    }
  }

  // ---------------------------------------------------------------------
  // Category and tag filters

  function InCategories(categories: seq<string>): FeedItem -> bool {
    (item: FeedItem) => item.category in categories
  }

  function TagFilter(tags: seq<string>): FeedItem -> bool {
    (item: FeedItem) => PassesTagFilter(tags, item)
  }

  /** `feedItems.filter(category selected).filter(filterItemsByTags)` */
  function FilteredItems(items: seq<FeedItem>, prefs: UserPreferences): (r: seq<FeedItem>)
    ensures forall x :: x in r <==>
      x in items && x.category in prefs.selectedCategories && PassesTagFilter(prefs.searchTags, x)
    ensures forall x :: multiset(r)[x] ==
                        if x.category in prefs.selectedCategories && PassesTagFilter(prefs.searchTags, x)
                        then multiset(items)[x] else 0
  {
    Filter(Filter(items, InCategories(prefs.selectedCategories)), TagFilter(prefs.searchTags))
  }

  /** The surviving items keep their relative order from the feed items. */
  lemma FilteredItemsInOrder(items: seq<FeedItem>, prefs: UserPreferences)
    ensures IsSubsequence(FilteredItems(items, prefs), items)
  {
    var once := Filter(items, InCategories(prefs.selectedCategories));
    FilterIsSubsequence(items, InCategories(prefs.selectedCategories));
    FilterIsSubsequence(once, TagFilter(prefs.searchTags));
    SubsequenceTransitive(FilteredItems(items, prefs), once, items);
  }

  // ---------------------------------------------------------------------
  // Ranking

  function TagCount(tags: seq<string>, item: FeedItem): nat {
    |MatchingTags(tags, item)|
  }

  /**
   The comparator handed to `sort`: more matching tags first, then the
   later `pubDate` first. Negative means `a` goes before `b`.
   */
  function Compare(tags: seq<string>, a: FeedItem, b: FeedItem): int {
    var ac, bc := TagCount(tags, a), TagCount(tags, b);
    if bc != ac then bc - ac else b.pubDate - a.pubDate
  }

  /** The two sort keys of an item. */
  function RankOf(tags: seq<string>, item: FeedItem): Rank {
    Rank(TagCount(tags, item), item.pubDate)
  }

  function RankKey(tags: seq<string>): FeedItem -> Rank {
    (item: FeedItem) => RankOf(tags, item)
  }

  /** The comparator is antisymmetric, orders by the two keys, and ties exactly on equal ranks. */
  lemma CompareMeaning(tags: seq<string>, a: FeedItem, b: FeedItem)
    ensures Compare(tags, a, b) == CompareRanks(RankOf(tags, a), RankOf(tags, b))
    ensures Compare(tags, a, b) == -Compare(tags, b, a)
    ensures Compare(tags, a, b) == 0 <==> RankOf(tags, a) == RankOf(tags, b)
    ensures Compare(tags, a, b) < 0 <==>
      TagCount(tags, a) > TagCount(tags, b) ||
      (TagCount(tags, a) == TagCount(tags, b) && a.pubDate > b.pubDate)
  {
  }

  /** Every earlier item goes before, or ties with, every later one under the comparator. */
  predicate Sorted(tags: seq<string>, s: seq<FeedItem>) {
    forall i, j :: 0 <= i < j < |s| ==> Compare(tags, s[i], s[j]) <= 0
  }

  lemma SortedByRankKey(tags: seq<string>, s: seq<FeedItem>)
    requires SortedBy(s, RankKey(tags))
    ensures Sorted(tags, s)
  {
    forall i, j | 0 <= i < j < |s| ensures Compare(tags, s[i], s[j]) <= 0 {
      assert CompareRanks(RankKey(tags)(s[i]), RankKey(tags)(s[j])) <= 0;
      CompareMeaning(tags, s[i], s[j]);
    }
  }

  /** In a sorted list more matching tags come first, and on a tie the later date comes first. */
  lemma SortedMeaning(tags: seq<string>, s: seq<FeedItem>, i: nat, j: nat)
    requires Sorted(tags, s) && i < |s| && j < |s|
    ensures TagCount(tags, s[i]) > TagCount(tags, s[j]) ==> i < j
    ensures TagCount(tags, s[i]) == TagCount(tags, s[j]) && s[i].pubDate > s[j].pubDate ==> i < j
  {
    if j < i {
      assert Compare(tags, s[j], s[i]) <= 0;
      CompareMeaning(tags, s[j], s[i]);
    } else if i == j {
      assert s[i] == s[j];
    }
  }

  /**
   The dashboard's list: the items of a selected category that pass the
   tag filter, sorted by the comparator; items of equal rank keep their
   order from the feed items.
   */
  method VisibleItems(items: seq<FeedItem>, prefs: UserPreferences) returns (r: seq<FeedItem>)
    ensures multiset(r) == multiset(FilteredItems(items, prefs))
    ensures Sorted(prefs.searchTags, r)
    ensures SameKeyOrder(r, FilteredItems(items, prefs), RankKey(prefs.searchTags))
  {
    var filtered := FilteredItems(items, prefs);
    var a := new FeedItem[|filtered|](k requires 0 <= k < |filtered| => filtered[k]);
    assert a[..] == filtered;
    SortByKey(a, RankKey(prefs.searchTags));
    r := a[..];
    SortedByRankKey(prefs.searchTags, r);
  }

  // ---------------------------------------------------------------------
  // Freshness label

  const MillisPerDay: int := 1000 * 60 * 60 * 24

  /** The local calendar day of a timestamp; division rounds down, also before 1970. */
  function CalendarDay(timestamp: int): int {
    timestamp / MillisPerDay
  }

  /** `new Date(y, m, d).getTime()`: the local midnight starting that day. */
  function Midnight(timestamp: int): int {
    CalendarDay(timestamp) * MillisPerDay
  }

  /** `Math.ceil(n / d)` for a positive divisor. */
  function CeilDiv(n: int, d: int): int
    requires d > 0
  {
    -((-n) / d)
  }

  datatype Label = Fresh | Elapsed(days: int, unit: string)

  /** `getTimeDifference`: FRESH on the same calendar day, otherwise "<N> Day" or "<N> Days". */
  function FreshnessLabel(pubDate: int, now: int): Label {
    var today, articleDay := Midnight(now), Midnight(pubDate);
    if today == articleDay then Fresh
    else
      var days := CeilDiv(today - articleDay, MillisPerDay);
      Elapsed(days, if days == 1 then "Day" else "Days")
  }

  lemma CeilDivOfMultiple(k: int)
    ensures CeilDiv(k * MillisPerDay, MillisPerDay) == k
  {
    assert -(k * MillisPerDay) == (-k) * MillisPerDay;
  }

  /** FRESH exactly on the same calendar day; otherwise the day difference with its unit. */
  lemma FreshnessLabelMeaning(pubDate: int, now: int)
    ensures FreshnessLabel(pubDate, now) == Fresh <==> CalendarDay(pubDate) == CalendarDay(now)
    ensures CalendarDay(pubDate) != CalendarDay(now) ==>
      var days := CalendarDay(now) - CalendarDay(pubDate);
      FreshnessLabel(pubDate, now) == Elapsed(days, if days == 1 then "Day" else "Days")
  {
    var d := CalendarDay(now) - CalendarDay(pubDate);
    assert Midnight(now) - Midnight(pubDate) == d * MillisPerDay;
    CeilDivOfMultiple(d);
  }

  /** Yesterday's midnight reads "1 Day", the midnight before it "2 Days", any time today FRESH. */
  lemma FreshnessLabelExamples(day: int, t: int)
    requires 0 <= t < MillisPerDay
    ensures FreshnessLabel(day * MillisPerDay, day * MillisPerDay + t) == Fresh
    ensures FreshnessLabel((day - 1) * MillisPerDay, day * MillisPerDay + t) == Elapsed(1, "Day")
    ensures FreshnessLabel((day - 2) * MillisPerDay, day * MillisPerDay + t) == Elapsed(2, "Days")
  {
    var now := day * MillisPerDay + t;
    assert CalendarDay(now) == day;
    assert CalendarDay(day * MillisPerDay) == day;
    assert CalendarDay((day - 1) * MillisPerDay) == day - 1;
    assert CalendarDay((day - 2) * MillisPerDay) == day - 2;
    FreshnessLabelMeaning(day * MillisPerDay, now);
    FreshnessLabelMeaning((day - 1) * MillisPerDay, now);
    FreshnessLabelMeaning((day - 2) * MillisPerDay, now);
  }
}
