# Feed reader: preference store and dashboard view

This project models the two logic-bearing parts of a small RSS feed reader:

- **The preference store** (`src/store/useStore.ts`). It holds three fields: the subscribed `feeds`, the fetched `feedItems` and the user `preferences`. Each of its twelve actions computes the new value of one field from the old state:
  - append or filter the feeds;
  - shallow-merge a partial preferences record;
  - toggle membership in the bookmarked and read item ids;
  - set-insert and remove search tags;
  - append and remove tag presets;
  - union a preset's tags into the search tags;
  - flip the theme.

  Only `preferences` and `feeds` are persisted. The store is the class `Store.PreferenceStore`, with one method per action. Ten actions compute their new value with a pure function that has its own lemmas. `addFeed` and `setFeedItems` are plain assignments, stated directly by their methods' contracts.
- **The dashboard view** (`src/components/Dashboard.tsx`):
  - It keeps the feed items whose category is selected.
  - It then applies a case-insensitive substring filter over the search tags.
  - It sorts the survivors in place: more matching tags first, then the later publication date first.
  - It labels each item FRESH when it was published today, otherwise "N Day(s)".

Modules:

- `Collections` (collections.dfy):
  - `Filter` models `Array.prototype.filter`;
  - `Dedup` models the `[...new Set(xs)]` idiom;
  - `Without` and `Toggle` model removal and the toggle;
  - plus duplicate-freeness, subsequences and their lemmas.
- `Types` (types.dfy): feeds, feed items, tag presets and user preferences as datatypes.
  - `pubDate` is an integer timestamp in milliseconds.
  - The type declarations file `src/types` is not part of this model. Its records were rebuilt from how the two core files use them.
- `Store` (store.dfy):
  - the default feeds and initial preferences;
  - the pure action functions;
  - the persisted projection;
  - the class `PreferenceStore`.
- `Sorting` (sorting.dfy): a generic, stable, in-place insertion sort on an `array`, keyed by a two-component descending rank. It also proves that a sorted, stable permutation is unique, so every stable sort gives the same list.
- `Dashboard` (dashboard.dfy):
  - ASCII lower-casing and substring matching;
  - the tag filter and the matching tags;
  - the category filter;
  - the comparator;
  - the sorted list itself (`VisibleItems`);
  - the freshness label.

`toggleTheme` maps `'light'` to `'dark'` and every other stored value, an unknown one included, to `'light'`. `FlipTheme` models that.

## Model

| member | source | states |
|---|---|---|
| `Store.FeedIds` | src/store/useStore.ts:40 | the id list has one entry per feed, the i-th being the i-th feed's id |
| `Store.InitialPreferencesSelectDefaultFeeds` | src/store/useStore.ts:23-46 | the initial preferences select the feeds "nasa" and "hackernews", and every default feed's category and id are selected |
| `Store.PreferenceStore.constructor` | src/store/useStore.ts:51-53 | a new store holds the default feeds, no feed items and the initial preferences |
| `Store.PreferenceStore.AddFeed` | src/store/useStore.ts:54-55 | the feed is appended at the end with no uniqueness check, the length grows by one, and items and preferences are unchanged |
| `Store.RemoveFeedById` | src/store/useStore.ts:56-57 | a feed remains iff it was there and its id differs from the removed id |
| `Store.RemoveFeedKeepsOrder` | src/store/useStore.ts:56-57 | the remaining feeds are a subsequence of the old ones, and an id no feed has changes nothing |
| `Store.PreferenceStore.RemoveFeed` | src/store/useStore.ts:56-57 | no feed with the id remains, the others keep their order, and items and preferences are unchanged |
| `Store.MergeTwiceIsOverlay` | src/store/useStore.ts:58-61 | two successive merges equal one merge with the later patch laid field by field over the earlier one |
| `Store.MergeThemeOnly` | src/store/useStore.ts:58-61 | a patch giving only the theme sets the theme to that value and leaves every other preference as it was |
| `Store.MergeEmptyAndIdempotent` | src/store/useStore.ts:58-61 | merging an empty patch is the identity, and merging the same patch twice equals merging it once |
| `Store.PreferenceStore.UpdatePreferences` | src/store/useStore.ts:58-61 | preferences become the merge of the old ones with the patch, and feeds and items are unchanged |
| `Store.PreferenceStore.SetFeedItems` | src/store/useStore.ts:62-63 | the feed items are replaced wholesale, feeds and preferences are unchanged, and so the persisted record is unchanged |
| `Collections.Toggle` | src/store/useStore.ts:68-70 | the toggled id is in the result iff it was not in the input, and every other id keeps its membership |
| `Collections.TogglePreservesNoDuplicates` | src/store/useStore.ts:68-70 | toggling keeps a duplicate-free list duplicate-free |
| `Collections.ToggleTwiceSameElements` | src/store/useStore.ts:68-70 | toggling the same id twice gives back the same set of ids |
| `Collections.ToggleTwiceAbsent` | src/store/useStore.ts:68-70 | toggling an absent id twice gives back the very same list |
| `Collections.ToggleTwicePresentOnce` | src/store/useStore.ts:68-70 | toggling an id present once twice gives back the list with that id moved to the end |
| `Collections.Without` | src/store/useStore.ts:69 | the removed element is absent from the result, and every other element keeps its membership |
| `Collections.WithoutPreservesNoDuplicates` | src/store/useStore.ts:93 | removing an element keeps a duplicate-free list duplicate-free |
| `Collections.WithoutSingleOccurrence` | src/store/useStore.ts:69 | removing the only occurrence of an element closes the gap and keeps the rest in order |
| `Store.PreferenceStore.ToggleBookmark` | src/store/useStore.ts:64-72 | bookmarkedItems becomes the toggle of the old list; the id is bookmarked iff it was not before, every other id keeps its membership, a duplicate-free list stays duplicate-free, and everything else is unchanged |
| `Store.PreferenceStore.ToggleRead` | src/store/useStore.ts:73-81 | readItems becomes the toggle of the old list; the id is read iff it was not before, every other id keeps its membership, a duplicate-free list stays duplicate-free, and everything else is unchanged |
| `Collections.Dedup` | src/store/useStore.ts:86 | the de-duplicated list has no repeated element and holds exactly the elements of the input |
| `Collections.DedupOfUnique` | src/store/useStore.ts:86 | de-duplicating a list with no repeats changes nothing |
| `Collections.DedupKeepsPrefix` | src/store/useStore.ts:86 | a duplicate-free prefix survives de-duplication in place and in order |
| `Store.InsertSearchTag` | src/store/useStore.ts:82-88 | the new tags are duplicate-free, and they are the old tags plus the added one as a set |
| `Store.InsertSearchTagIsInsert` | src/store/useStore.ts:82-88 | on duplicate-free tags, adding a tag already present changes nothing, and a new tag is appended at the end |
| `Store.InsertSearchTagTwice` | src/store/useStore.ts:82-88 | after adding the same tag twice it occurs exactly once |
| `Store.PreferenceStore.AddSearchTag` | src/store/useStore.ts:82-88 | searchTags becomes duplicate-free, holding the old tags plus the added one, and everything else is unchanged |
| `Store.DeleteSearchTag` | src/store/useStore.ts:89-95 | the removed tag is absent, and every other tag keeps its membership |
| `Store.DeleteSearchTagKeepsOrder` | src/store/useStore.ts:89-95 | the remaining tags keep their relative order, and removing an absent tag changes nothing |
| `Store.PreferenceStore.RemoveSearchTag` | src/store/useStore.ts:89-95 | the tag is gone, the other tags keep their order, duplicate-free tags stay duplicate-free, and everything else is unchanged |
| `Store.AppendKeepsFoundPresets` | src/store/useStore.ts:96-109 | an appended preset never shadows an existing one: every id `find` resolved before resolves to the same preset afterwards, even when the new preset reuses it |
| `Store.PreferenceStore.AddTagPreset` | src/store/useStore.ts:96-109 | tagPresets gains the new preset at the end, and everything else is unchanged |
| `Store.FindPreset` | src/store/useStore.ts:119 | the result is none iff no preset has the id; otherwise it is the first preset with that id |
| `Store.AddThenFindPreset` | src/store/useStore.ts:96-109 | a preset added under an id no preset has is the one found by that id |
| `Store.DeleteTagPreset` | src/store/useStore.ts:110-116 | a preset remains iff it was there and its id differs from the removed id |
| `Store.DeleteTagPresetSpec` | src/store/useStore.ts:110-116 | after removal no preset is found by the id, the others keep their order, and an absent id changes nothing |
| `Store.PreferenceStore.RemoveTagPreset` | src/store/useStore.ts:110-116 | the presets with the id are removed, none is found afterwards, and everything else is unchanged |
| `Store.UnionTags` | src/store/useStore.ts:125 | the union is duplicate-free and holds exactly the tags of either list |
| `Store.UnionTagsKeepsExisting` | src/store/useStore.ts:125 | duplicate-free existing tags stay in front, in their order |
| `Store.UnionTagsExample` | src/store/useStore.ts:125 | the union of ["b","c"] with ["a","b"] is ["b","c","a"] |
| `Store.PreferenceStore.ApplyTagPreset` | src/store/useStore.ts:117-128 | with an unknown id the preferences are unchanged; for a found preset the search tags become the union of the old tags and the preset's tags; feeds and items never change |
| `Store.FlipTheme` | src/store/useStore.ts:133 | the result is always "light" or "dark", and it differs from a known theme |
| `Store.FlipThemeTwice` | src/store/useStore.ts:133 | the known themes flip back and forth, and any other value becomes "light" |
| `Store.PreferenceStore.ToggleTheme` | src/store/useStore.ts:129-135 | the theme becomes the flip of the old theme, and everything else is unchanged |
| `Store.PartializeIgnoresFeedItems` | src/store/useStore.ts:139-142 | the persisted record does not depend on the feed items |
| `Store.PersistRoundTrip` | src/store/useStore.ts:139-142 | reloading the persisted record restores feeds and preferences with empty items, and an empty record gives the defaults |
| `Collections.Filter` | src/components/Dashboard.tsx:43-45 | the result is no longer than the input, holds exactly the input elements satisfying the predicate, and keeps every copy of each of them: an element satisfying the predicate occurs as often as in the input, any other not at all |
| `Collections.FilterConcat` | src/components/Dashboard.tsx:43-45 | filtering distributes over concatenation |
| `Collections.FilterIdentity` | src/components/Dashboard.tsx:43-45 | filtering with a predicate every element meets changes nothing |
| `Collections.FilterIsSubsequence` | src/components/Dashboard.tsx:43-45 | the kept elements appear in their original relative order |
| `Collections.FilterNoDuplicates` | src/components/Dashboard.tsx:43-45 | filtering keeps a duplicate-free list duplicate-free |
| `Collections.SubsequenceTransitive` | src/components/Dashboard.tsx:43-45 | a subsequence of a subsequence is a subsequence |
| `Dashboard.Lower` | src/components/Dashboard.tsx:13 | lower-casing keeps the length and maps every character by ASCII lower-casing |
| `Dashboard.LowerIdempotent` | src/components/Dashboard.tsx:13-14 | lower-casing twice equals lower-casing once, and no upper-case ASCII letter remains |
| `Dashboard.ContainsIsSubstringMatch` | src/components/Dashboard.tsx:14 | matching is by substring, not by word: "scat" contains "cat", and every text contains "" |
| `Dashboard.TagMatchesIgnoresCase` | src/components/Dashboard.tsx:13-14 | a tag and its lower-cased form match the same items |
| `Dashboard.AnyTagMatchesIff` | src/components/Dashboard.tsx:14 | `some` over the tags holds iff some tag in the list matches |
| `Dashboard.PassesTagFilterIff` | src/components/Dashboard.tsx:8-15 | an item passes iff there are no tags, or some lower-cased tag is a substring of the lower-cased "title content" |
| `Dashboard.MatchingTags` | src/components/Dashboard.tsx:17-24 | the matching tags are at most as many as the search tags, they are exactly the search tags that match, and a matching tag stored several times is counted once per copy |
| `Dashboard.RepeatedTagCountsTwice` | src/components/Dashboard.tsx:17-24 | with the search tag "cat" stored twice, an item containing "cat" has both copies as matching tags |
| `Dashboard.MatchingTagsInOrder` | src/components/Dashboard.tsx:17-24 | the matching tags keep their order among the search tags |
| `Dashboard.MatchingTagsAgreeWithFilter` | src/components/Dashboard.tsx:8-24 | with no tags every item passes and matches none; otherwise an item has a matching tag iff it passes the filter |
| `Dashboard.FilteredItems` | src/components/Dashboard.tsx:43-45 | an item is kept iff it is a feed item whose category is selected and which passes the tag filter, and a kept item occurs as often as among the feed items |
| `Dashboard.FilteredItemsInOrder` | src/components/Dashboard.tsx:43-45 | the kept items keep their relative order from the feed items |
| `Dashboard.CompareMeaning` | src/components/Dashboard.tsx:48-57 | the comparator is antisymmetric, ties exactly when tag count and date both agree, and a goes before b iff a has more matching tags, or as many and a later date |
| `Dashboard.SortedByRankKey` | src/components/Dashboard.tsx:48-57 | a list ordered by the rank key is ordered by the comparator |
| `Dashboard.SortedMeaning` | src/components/Dashboard.tsx:48-57 | in a sorted list an item with more matching tags comes earlier, and on a tie the later date comes earlier |
| `Sorting.SameKeyOrderTransitive` | src/components/Dashboard.tsx:48 | keeping the order within each rank composes across steps |
| `Sorting.FilterSwapPair` | src/components/Dashboard.tsx:48 | swapping two neighbours that do not both satisfy a predicate does not change the filtered list |
| `Sorting.SwapKeepsKeyOrder` | src/components/Dashboard.tsx:48 | swapping neighbours of different rank keeps the order within every rank |
| `Sorting.InsertingStart` | src/components/Dashboard.tsx:48 | a sorted prefix starts an insertion pass |
| `Sorting.InsertingStep` | src/components/Dashboard.tsx:48 | one swap of the inserted element past a lower-ranked neighbour keeps the pass invariant |
| `Sorting.InsertingDone` | src/components/Dashboard.tsx:48 | a pass that stops makes the prefix one longer sorted |
| `Sorting.SwapStep` | src/components/Dashboard.tsx:48 | one swap of the inner loop keeps the pass invariant, the multiset of elements and the order within every rank |
| `Sorting.InsertIntoPrefix` | src/components/Dashboard.tsx:48 | one pass leaves the prefix one longer sorted, the array a permutation of the old one, and the order within ranks unchanged |
| `Sorting.SortByKey` | src/components/Dashboard.tsx:48-57 | the array ends sorted by rank, a permutation of its old contents, with items that tie on both keys in their old relative order |
| `Sorting.FilterHead` | src/components/Dashboard.tsx:48 | the first element is the first of its rank |
| `Sorting.SortedHeadsAgree` | src/components/Dashboard.tsx:48 | two sorted, stable permutations of each other start with the same element |
| `Sorting.TailsKeepKeyOrder` | src/components/Dashboard.tsx:48 | order within ranks carries over to the tails after a shared head |
| `Sorting.TailsSameElements` | src/components/Dashboard.tsx:48 | permutations with the same head have permuted tails |
| `Sorting.SortedTail` | src/components/Dashboard.tsx:48 | the tail of a sorted list is sorted |
| `Sorting.StableSortIsUnique` | src/components/Dashboard.tsx:48-57 | any two sorted permutations that keep the order within every rank are equal, so every stable sort gives the same list |
| `Dashboard.VisibleItems` | src/components/Dashboard.tsx:43-57 | the shown list is a permutation of the filtered items, ordered by the comparator, with items that tie on both keys in their feed order |
| `Dashboard.CeilDivOfMultiple` | src/components/Dashboard.tsx:38 | rounding up an exact multiple of a day gives the multiple |
| `Dashboard.FreshnessLabelMeaning` | src/components/Dashboard.tsx:26-40 | the label is FRESH iff the article's calendar day is today's; otherwise it is the day difference with "Day" for 1 and "Days" otherwise |
| `Dashboard.FreshnessLabelExamples` | src/components/Dashboard.tsx:31-39 | any time today is FRESH for today's midnight, yesterday's midnight reads "1 Day", and the day before reads "2 Days" |

## Left out

- React rendering, JSX markup, CSS classes and icons: presentation only. This includes the "No articles match" placeholder for an empty list and the "Loading..." state.
- The zustand `create`/`persist` middleware and the browser storage behind it are foreign library I/O. `Rehydrate` models only the field-by-field restore, to state the round trip of the persisted projection.
- Real `Date` parsing, time zones, daylight-saving shifts and `toLocaleDateString` are replaced by integer millisecond timestamps. A calendar day is the timestamp divided, rounding down, by the length of a day.
- `FreshnessLabel` takes `now` as a parameter instead of reading the clock.
- `AddTagPreset` takes the generated `preset-<timestamp>` id as a parameter instead of reading `Date.now()`. Two presets created in the same millisecond would share an id; the model does not rule that out.
- `Dashboard.Lower` models `toLowerCase` for the ASCII letters only, not full Unicode case mapping.
- Missing fields in persisted data and the `?.` and `|| []` guards that default them are not modelled. Every collection in the model is always present.
- A patch whose field is explicitly `undefined` would overwrite that field with `undefined` in the source. In the model, a patch field is either given or absent.
- The engine's sort algorithm is not modelled. The sort is an insertion sort. `Sorting.StableSortIsUnique` shows that every stable sort with this comparator gives the same list, and `Array.prototype.sort` is stable.
