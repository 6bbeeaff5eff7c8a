/**
 The records of the feed reader. JavaScript arrays that the store treats as
 sets (`bookmarkedItems`, `readItems`, `searchTags`, ...) stay sequences,
 because the store's operations are defined on arrays and keep their order.
 Timestamps (`pubDate`) are milliseconds since the epoch in local time.
 */
module Types {

  datatype Feed = Feed(id: string, title: string, url: string, category: string)

  datatype FeedItem = FeedItem(
    id: string,
    title: string,
    content: string,
    link: string,
    pubDate: int,
    category: string)

  datatype TagPreset = TagPreset(id: string, name: string, tags: seq<string>)

  /** `theme` is a string: a stored value other than "light" or "dark" is possible. */
  datatype UserPreferences = UserPreferences(
    selectedCategories: seq<string>,
    selectedFeeds: seq<string>,
    bookmarkedItems: seq<string>,
    readItems: seq<string>,
    searchTags: seq<string>,
    tagPresets: seq<TagPreset>,
    theme: string)
}
