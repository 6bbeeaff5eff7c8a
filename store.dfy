/**
 The preference store: the feeds, the feed items and the user preferences,
 with one state transition per store action (src/store/useStore.ts).
 Each action's new value is a pure function defined here; the class
 `PreferenceStore` holds the three fields and replaces them the way the
 store's `set` calls do.
 */
module Store {
  import opened Collections
  import opened Types

  const DefaultFeeds: seq<Feed> := [
    Feed("nasa", "NASA Breaking News", "https://www.nasa.gov/news-release/feed/", "Science"),
    Feed("hackernews", "Hacker News", "https://hnrss.org/frontpage", "Technology")
  ]

  /** `feeds.map(feed => feed.id)` */
  function FeedIds(feeds: seq<Feed>): (ids: seq<string>)
    ensures |ids| == |feeds|
    ensures forall i :: 0 <= i < |feeds| ==> ids[i] == feeds[i].id
  {
    if feeds == [] then [] else [feeds[0].id] + FeedIds(feeds[1..])
  }

  const InitialPreferences: UserPreferences := UserPreferences(
    selectedCategories := ["Science", "Technology"],
    selectedFeeds := FeedIds(DefaultFeeds),
    bookmarkedItems := [],
    readItems := [],
    searchTags := [],
    tagPresets := [],
    theme := "light")

  /** The defaults select both default feeds and both of their categories. */
  lemma InitialPreferencesSelectDefaultFeeds()
    ensures InitialPreferences.selectedFeeds == ["nasa", "hackernews"]
    ensures forall f :: f in DefaultFeeds ==>
      f.category in InitialPreferences.selectedCategories && f.id in InitialPreferences.selectedFeeds
  {
    assert FeedIds(DefaultFeeds)[0] == "nasa" && FeedIds(DefaultFeeds)[1] == "hackernews";
  }

  // ---------------------------------------------------------------------
  // Feeds

  /** `feeds.filter(feed => feed.id !== id)` */
  function RemoveFeedById(feeds: seq<Feed>, id: string): (r: seq<Feed>)
    ensures forall f :: f in r <==> f in feeds && f.id != id
  {
    Filter(feeds, (f: Feed) => f.id != id)
  }

  /** Removing a feed keeps the other feeds in their order; an absent id changes nothing. */
  lemma RemoveFeedKeepsOrder(feeds: seq<Feed>, id: string)
    ensures IsSubsequence(RemoveFeedById(feeds, id), feeds)
    ensures (forall f :: f in feeds ==> f.id != id) ==> RemoveFeedById(feeds, id) == feeds
  {
    FilterIsSubsequence(feeds, (f: Feed) => f.id != id);
    if forall f :: f in feeds ==> f.id != id {
      FilterIdentity(feeds, (f: Feed) => f.id != id);
    }
  }

  // ---------------------------------------------------------------------
  // Preferences: shallow merge

  /** `Partial<UserPreferences>`: the fields a caller chose to give. */
  datatype PreferencesPatch = PreferencesPatch(
    selectedCategories: Option<seq<string>>,
    selectedFeeds: Option<seq<string>>,
    bookmarkedItems: Option<seq<string>>,
    readItems: Option<seq<string>>,
    searchTags: Option<seq<string>>,
    tagPresets: Option<seq<TagPreset>>,
    theme: Option<string>)

  const EmptyPatch := PreferencesPatch(None, None, None, None, None, None, None)

  /** `{ ...prefs, ...patch }`: every given field wins, every other field is kept. */
  function MergePreferences(prefs: UserPreferences, patch: PreferencesPatch): UserPreferences {
    UserPreferences(
      patch.selectedCategories.GetOr(prefs.selectedCategories),
      patch.selectedFeeds.GetOr(prefs.selectedFeeds),
      patch.bookmarkedItems.GetOr(prefs.bookmarkedItems),
      patch.readItems.GetOr(prefs.readItems),
      patch.searchTags.GetOr(prefs.searchTags),
      patch.tagPresets.GetOr(prefs.tagPresets),
      patch.theme.GetOr(prefs.theme))
  }

  /** A field given in `later` wins over the same field in `earlier`. */
  function OrElse<T>(later: Option<T>, earlier: Option<T>): Option<T> {
    if later.Some? then later else earlier
  }

  /** `{ ...earlier, ...later }` on two patches. */
  function OverlayPatches(earlier: PreferencesPatch, later: PreferencesPatch): PreferencesPatch {
    PreferencesPatch(
      OrElse(later.selectedCategories, earlier.selectedCategories),
      OrElse(later.selectedFeeds, earlier.selectedFeeds),
      OrElse(later.bookmarkedItems, earlier.bookmarkedItems),
      OrElse(later.readItems, earlier.readItems),
      OrElse(later.searchTags, earlier.searchTags),
      OrElse(later.tagPresets, earlier.tagPresets),
      OrElse(later.theme, earlier.theme))
  }

  /**
   Two successive updates are one update with the later patch laid over the
   earlier one; in particular an update that gives every field makes the
   earlier one irrelevant.
   */
  lemma MergeTwiceIsOverlay(prefs: UserPreferences, earlier: PreferencesPatch, later: PreferencesPatch)
    ensures MergePreferences(MergePreferences(prefs, earlier), later) ==
      MergePreferences(prefs, OverlayPatches(earlier, later))
  {
  }

  /** A patch that gives only the theme changes only the theme, to the given value. */
  lemma MergeThemeOnly(prefs: UserPreferences, theme: string)
    ensures MergePreferences(prefs, EmptyPatch.(theme := Some(theme))) == prefs.(theme := theme)
  {
  }

  /** Merging nothing is the identity, and merging the same patch twice is merging it once. */
  lemma MergeEmptyAndIdempotent(prefs: UserPreferences, patch: PreferencesPatch)
    ensures MergePreferences(prefs, EmptyPatch) == prefs
    ensures MergePreferences(MergePreferences(prefs, patch), patch) == MergePreferences(prefs, patch)
  {
  }

  // ---------------------------------------------------------------------
  // Search tags

  /** `[...new Set([...tags, tag])]` */
  function InsertSearchTag(tags: seq<string>, tag: string): (r: seq<string>)
    ensures NoDuplicates(r)
    ensures forall t :: t in r <==> t in tags || t == tag
  {
    Dedup(tags + [tag])
  }

  /** On duplicate-free tags, adding is a set insert that appends a new tag at the end. */
  lemma InsertSearchTagIsInsert(tags: seq<string>, tag: string)
    requires NoDuplicates(tags)
    ensures InsertSearchTag(tags, tag) == if tag in tags then tags else tags + [tag]
  {
    DedupAppend(tags, tag);
  }

  /** Adding the same tag twice leaves exactly one copy of it. */
  lemma InsertSearchTagTwice(tags: seq<string>, tag: string)
    ensures multiset(InsertSearchTag(InsertSearchTag(tags, tag), tag))[tag] == 1
  {
    NoDuplicatesCountOne(InsertSearchTag(InsertSearchTag(tags, tag), tag), tag);
  }

  /** `tags.filter(t => t !== tag)` */
  function DeleteSearchTag(tags: seq<string>, tag: string): (r: seq<string>)
    ensures tag !in r
    ensures forall t :: t != tag ==> (t in r <==> t in tags)
  {
    Without(tags, tag)
  }

  /** The remaining tags keep their relative order; removing an absent tag changes nothing. */
  lemma DeleteSearchTagKeepsOrder(tags: seq<string>, tag: string)
    ensures IsSubsequence(DeleteSearchTag(tags, tag), tags)
    ensures tag !in tags ==> DeleteSearchTag(tags, tag) == tags
  {
    WithoutKeepsOrder(tags, tag);
    if tag !in tags {
      WithoutAbsent(tags, tag);
    }
  }

  /** `[...new Set([...tags, ...more])]` */
  function UnionTags(tags: seq<string>, more: seq<string>): (r: seq<string>)
    ensures NoDuplicates(r)
    ensures forall t :: t in r <==> t in tags || t in more
  {
    Dedup(tags + more)
  }

  /** Duplicate-free tags stay in front, in their order, when more are unioned in. */
  lemma UnionTagsKeepsExisting(tags: seq<string>, more: seq<string>)
    requires NoDuplicates(tags)
    ensures |UnionTags(tags, more)| >= |tags| && UnionTags(tags, more)[..|tags|] == tags
  {
    DedupKeepsPrefix(tags, more);
  }

  /** Applying a preset ["a", "b"] to the tags ["b", "c"] gives the set {"a", "b", "c"}. */
  lemma UnionTagsExample()
    ensures UnionTags(["b", "c"], ["a", "b"]) == ["b", "c", "a"]
  {
    assert ["b", "c"] + ["a", "b"] == ["b", "c", "a", "b"];
    assert NoDuplicates(["b", "c", "a"]);
    DedupOfUnique(["b", "c", "a"]);
    assert ["b", "c", "a", "b"][..3] == ["b", "c", "a"];
  }

  // ---------------------------------------------------------------------
  // Tag presets

  /** `presets.find(p => p.id === id)`: the first preset with that id, if any. */
  function FindPreset(presets: seq<TagPreset>, id: string): (r: Option<TagPreset>)
    ensures r.None? <==> forall p :: p in presets ==> p.id != id
    ensures r.Some? ==> exists i :: 0 <= i < |presets| && presets[i] == r.value && r.value.id == id &&
                                    (forall j :: 0 <= j < i ==> presets[j].id != id)
  {
    if presets == [] then None
    else if presets[0].id == id then Some(presets[0])
    else
      var r := FindPreset(presets[1..], id);
      assert r.Some? ==> exists i :: 1 <= i < |presets| && presets[i] == r.value && r.value.id == id &&
                                     (forall j :: 0 <= j < i ==> presets[j].id != id) by {
        if r.Some? {
          var i :| 0 <= i < |presets[1..]| && presets[1..][i] == r.value && r.value.id == id &&
            forall j :: 0 <= j < i ==> presets[1..][j].id != id;
          assert presets[i + 1] == r.value;
          assert forall j :: 0 <= j < i + 1 ==> presets[j].id != id by {
            forall j | 0 <= j < i + 1 ensures presets[j].id != id {
              if j > 0 {
                assert presets[j] == presets[1..][j - 1];
              }
            }
          }
        }
      }
      r
  }

  /** The preset that `addTagPreset` appends. */
  function AppendTagPreset(presets: seq<TagPreset>, id: string, name: string, tags: seq<string>): seq<TagPreset> {
    presets + [TagPreset(id, name, tags)]
  }

  /**
   An appended preset never shadows an existing one: every id that `find`
   resolved before resolves to the same preset afterwards, even when the new
   preset reuses that id.
   */
  lemma {:induction false} AppendKeepsFoundPresets(presets: seq<TagPreset>, p: TagPreset, q: string)
    requires FindPreset(presets, q).Some?
    ensures FindPreset(presets + [p], q) == FindPreset(presets, q)
  {
    if presets[0].id != q {
      assert (presets + [p])[1..] == presets[1..] + [p];
      AppendKeepsFoundPresets(presets[1..], p, q);
    }
  }

  /** A preset added under an unused id is the one later found by that id. */
  lemma AddThenFindPreset(presets: seq<TagPreset>, id: string, name: string, tags: seq<string>)
    requires forall p :: p in presets ==> p.id != id
    ensures FindPreset(AppendTagPreset(presets, id, name, tags), id) == Some(TagPreset(id, name, tags))
  {
    var r := FindPreset(AppendTagPreset(presets, id, name, tags), id);
    var ps := AppendTagPreset(presets, id, name, tags);
    assert ps[|presets|].id == id;
    var i :| 0 <= i < |ps| && ps[i] == r.value && r.value.id == id &&
      forall j :: 0 <= j < i ==> ps[j].id != id;
  }

  /** `presets.filter(preset => preset.id !== id)` */
  function DeleteTagPreset(presets: seq<TagPreset>, id: string): (r: seq<TagPreset>)
    ensures forall p :: p in r <==> p in presets && p.id != id
  {
    Filter(presets, (p: TagPreset) => p.id != id)
  }

  /** After removal no preset is found by that id, the rest keep their order, and an absent id changes nothing. */
  lemma DeleteTagPresetSpec(presets: seq<TagPreset>, id: string)
    ensures FindPreset(DeleteTagPreset(presets, id), id) == None
    ensures IsSubsequence(DeleteTagPreset(presets, id), presets)
    ensures (forall p :: p in presets ==> p.id != id) ==> DeleteTagPreset(presets, id) == presets
  {
    FilterIsSubsequence(presets, (p: TagPreset) => p.id != id);
    if forall p :: p in presets ==> p.id != id {
      FilterIdentity(presets, (p: TagPreset) => p.id != id);
    }
  }

  // ---------------------------------------------------------------------
  // Theme

  /** `theme === 'light' ? 'dark' : 'light'` */
  function FlipTheme(theme: string): (r: string)
    ensures r == "light" || r == "dark"
    ensures r != theme <== theme == "light" || theme == "dark"
  {
    if theme == "light" then "dark" else "light"
  }

  /** The two known themes flip back and forth; any other stored value becomes "light". */
  lemma FlipThemeTwice(theme: string)
    ensures theme == "light" || theme == "dark" ==> FlipTheme(FlipTheme(theme)) == theme
    ensures theme != "light" && theme != "dark" ==> FlipTheme(theme) == "light"
  {
  }

  // ---------------------------------------------------------------------
  // Persistence

  datatype StoreState = StoreState(feeds: seq<Feed>, feedItems: seq<FeedItem>, preferences: UserPreferences)

  /** The persisted record; a field read back from storage may be missing. */
  datatype Persisted = Persisted(preferences: Option<UserPreferences>, feeds: Option<seq<Feed>>)

  /** `partialize`: keep only `preferences` and `feeds`. */
  function Partialize(s: StoreState): Persisted {
    Persisted(Some(s.preferences), Some(s.feeds))
  }

  /** The state a new session starts from: the defaults, overridden by each stored field present. */
  function Rehydrate(stored: Persisted): StoreState {
    StoreState(stored.feeds.GetOr(DefaultFeeds), [], stored.preferences.GetOr(InitialPreferences))
  }

  /** The persisted record never depends on the feed items. */
  lemma PartializeIgnoresFeedItems(s: StoreState, items: seq<FeedItem>)
    ensures Partialize(s.(feedItems := items)) == Partialize(s)
  {
  }

  /** Reloading what was persisted restores preferences and feeds, not the feed items. */
  lemma PersistRoundTrip(s: StoreState)
    ensures Rehydrate(Partialize(s)) == s.(feedItems := [])
    ensures Rehydrate(Persisted(None, None)) == StoreState(DefaultFeeds, [], InitialPreferences)
  {
  }

  // ---------------------------------------------------------------------
  // The store

  class PreferenceStore {
    var feeds: seq<Feed>
    var feedItems: seq<FeedItem>
    var preferences: UserPreferences

    constructor ()
      ensures feeds == DefaultFeeds && feedItems == [] && preferences == InitialPreferences
    {
      feeds := DefaultFeeds;
      feedItems := [];
      preferences := InitialPreferences;
    }

    /** The store's data, as `partialize` receives it. */
    function State(): StoreState
      reads this
    {
      StoreState(feeds, feedItems, preferences)
    }

    /** Appends without checking whether a feed with that id exists. */
    method AddFeed(feed: Feed)
      modifies this
      ensures feeds == old(feeds) + [feed] && |feeds| == old(|feeds|) + 1
      ensures feedItems == old(feedItems) && preferences == old(preferences)
    {
      feeds := feeds + [feed];
    }

    method RemoveFeed(id: string)
      modifies this
      ensures feeds == RemoveFeedById(old(feeds), id)
      ensures forall f :: f in feeds ==> f.id != id
      ensures IsSubsequence(feeds, old(feeds))
      ensures feedItems == old(feedItems) && preferences == old(preferences)
    {
      RemoveFeedKeepsOrder(feeds, id);
      feeds := RemoveFeedById(feeds, id);
    }

    method UpdatePreferences(patch: PreferencesPatch)
      modifies this
      ensures preferences == MergePreferences(old(preferences), patch)
      ensures feeds == old(feeds) && feedItems == old(feedItems)
    {
      preferences := MergePreferences(preferences, patch);
    }

    /** Replaces the feed items wholesale. */
    method SetFeedItems(items: seq<FeedItem>)
      modifies this
      ensures feedItems == items
      ensures feeds == old(feeds) && preferences == old(preferences)
      ensures Partialize(State()) == old(Partialize(State()))
    {
      feedItems := items;
    }

    method ToggleBookmark(itemId: string)
      modifies this
      ensures preferences == old(preferences).(bookmarkedItems := Toggle(old(preferences.bookmarkedItems), itemId))
      ensures itemId in preferences.bookmarkedItems <==> itemId !in old(preferences.bookmarkedItems)
      ensures forall id :: id != itemId ==>
        (id in preferences.bookmarkedItems <==> id in old(preferences.bookmarkedItems))
      ensures NoDuplicates(old(preferences.bookmarkedItems)) ==> NoDuplicates(preferences.bookmarkedItems)
      ensures feeds == old(feeds) && feedItems == old(feedItems)
    {
      if NoDuplicates(preferences.bookmarkedItems) {
        TogglePreservesNoDuplicates(preferences.bookmarkedItems, itemId);
      }
      preferences := preferences.(bookmarkedItems := Toggle(preferences.bookmarkedItems, itemId));
    }

    method ToggleRead(itemId: string)
      modifies this
      ensures preferences == old(preferences).(readItems := Toggle(old(preferences.readItems), itemId))
      ensures itemId in preferences.readItems <==> itemId !in old(preferences.readItems)
      ensures forall id :: id != itemId ==>
        (id in preferences.readItems <==> id in old(preferences.readItems))
      ensures NoDuplicates(old(preferences.readItems)) ==> NoDuplicates(preferences.readItems)
      ensures feeds == old(feeds) && feedItems == old(feedItems)
    {
      if NoDuplicates(preferences.readItems) {
        TogglePreservesNoDuplicates(preferences.readItems, itemId);
      }
      preferences := preferences.(readItems := Toggle(preferences.readItems, itemId));
    }

    method AddSearchTag(tag: string)
      modifies this
      ensures preferences == old(preferences).(searchTags := InsertSearchTag(old(preferences.searchTags), tag))
      ensures NoDuplicates(preferences.searchTags)
      ensures forall t :: t in preferences.searchTags <==> t in old(preferences.searchTags) || t == tag
      ensures feeds == old(feeds) && feedItems == old(feedItems)
    {
      preferences := preferences.(searchTags := InsertSearchTag(preferences.searchTags, tag));
    }

    method RemoveSearchTag(tag: string)
      modifies this
      ensures preferences == old(preferences).(searchTags := DeleteSearchTag(old(preferences.searchTags), tag))
      ensures tag !in preferences.searchTags
      ensures IsSubsequence(preferences.searchTags, old(preferences.searchTags))
      ensures NoDuplicates(old(preferences.searchTags)) ==> NoDuplicates(preferences.searchTags)
      ensures feeds == old(feeds) && feedItems == old(feedItems)
    {
      if NoDuplicates(preferences.searchTags) {
        WithoutPreservesNoDuplicates(preferences.searchTags, tag);
      }
      DeleteSearchTagKeepsOrder(preferences.searchTags, tag);
      preferences := preferences.(searchTags := DeleteSearchTag(preferences.searchTags, tag));
    }

    /** `id` stands for the generated `preset-<timestamp>` id. */
    method AddTagPreset(id: string, name: string, tags: seq<string>)
      modifies this
      ensures preferences == old(preferences).(tagPresets := AppendTagPreset(old(preferences.tagPresets), id, name, tags))
      ensures feeds == old(feeds) && feedItems == old(feedItems)
    {
      preferences := preferences.(tagPresets := AppendTagPreset(preferences.tagPresets, id, name, tags));
    }

    method RemoveTagPreset(presetId: string)
      modifies this
      ensures preferences == old(preferences).(tagPresets := DeleteTagPreset(old(preferences.tagPresets), presetId))
      ensures FindPreset(preferences.tagPresets, presetId) == None
      ensures feeds == old(feeds) && feedItems == old(feedItems)
    {
      DeleteTagPresetSpec(preferences.tagPresets, presetId);
      preferences := preferences.(tagPresets := DeleteTagPreset(preferences.tagPresets, presetId));
    }

    /** Unions the preset's tags into the search tags; an unknown id leaves the state as it was. */
    method ApplyTagPreset(presetId: string)
      modifies this
      ensures FindPreset(old(preferences.tagPresets), presetId).None? ==> preferences == old(preferences)
      ensures FindPreset(old(preferences.tagPresets), presetId).Some? ==>
        preferences == old(preferences).(searchTags :=
          UnionTags(old(preferences.searchTags), FindPreset(old(preferences.tagPresets), presetId).value.tags))
      ensures feeds == old(feeds) && feedItems == old(feedItems)
    {
      var preset := FindPreset(preferences.tagPresets, presetId);
      if preset.Some? {
        preferences := preferences.(searchTags := UnionTags(preferences.searchTags, preset.value.tags));
      }
    }

    method ToggleTheme()
      modifies this
      ensures preferences == old(preferences).(theme := FlipTheme(old(preferences.theme)))
      ensures feeds == old(feeds) && feedItems == old(feedItems)
    {
      preferences := preferences.(theme := FlipTheme(preferences.theme));
    }
  }
}
