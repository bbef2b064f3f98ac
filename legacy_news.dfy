/**
 * The file-backed news manager (the `NewsManager` object of package
 * `com.github.rei0925`): the list is fixed when the object is initialised,
 * so the round-robin cursor can never leave it.
 */
module LegacyNewsFeed {
  import opened Common
  import opened NewsRotation

  class NewsManager {
    /** Assigned only by `init`. */
    const newsList: seq<News>
    var currentIndex: int

    /** The cursor indexes the list, or is 0 on an empty list. */
    ghost predicate Valid()
      reads this
    {
      0 <= currentIndex && (currentIndex < |newsList| || (|newsList| == 0 && currentIndex == 0))
    }

    /**
     * `init`: the items of `NEWS.json` when the file exists, else those of
     * the bundled resource it is copied from, else none. `fileNews` and
     * `bundledNews` are the decoded contents, None where there is no such
     * file or resource.
     */
    constructor (fileNews: Option<seq<News>>, bundledNews: Option<seq<News>>)
      ensures Valid() && currentIndex == 0
      ensures fileNews.Some? ==> newsList == fileNews.value
      ensures fileNews.None? && bundledNews.Some? ==> newsList == bundledNews.value
      ensures fileNews.None? && bundledNews.None? ==> newsList == []
    {
      if fileNews.Some? {
        newsList := fileNews.value;
      } else if bundledNews.Some? {
        newsList := bundledNews.value;
      } else {
        newsList := [];
      }
      currentIndex := 0;
    }

    /** `getAllNews`: the list; no state changes. */
    function GetAllNews(): (r: seq<News>)
      reads this
      requires Valid()
      ensures r == newsList
      ensures |r| > 0 ==> currentIndex < |r|
    {
      newsList
    }

    /**
     * `getNextNews`: null on an empty list; otherwise the item under the
     * cursor, and the cursor moves on modulo the size, staying in range.
     */
    method GetNextNews() returns (r: Option<News>)
      requires Valid()
      modifies this
      ensures Valid()
      ensures |newsList| == 0 ==> r == None && currentIndex == old(currentIndex)
      ensures |newsList| > 0 ==>
                r.Some? && [r.value] == Draws(newsList, old(currentIndex), 1).0
                && currentIndex == Draws(newsList, old(currentIndex), 1).1
    {
      if |newsList| == 0 {
        return None;
      }
      ghost var step := Draws(newsList, currentIndex, 1);
      var news := newsList[currentIndex];
      currentIndex := (currentIndex + 1) % |newsList|;
      assert step.0 == [news];
      assert step.1 == currentIndex;
      return Some(news);
    }
  }
}
