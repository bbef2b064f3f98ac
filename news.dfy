/**
 * The table-backed news manager (package `magufinance.manager`). The `news`
 * table is the sequence `table` in id order (the order `ORDER BY id ASC`
 * reads it) with the auto-increment counter `nextId`; `newsList` is the
 * in-memory copy the cursor runs over.
 */
module NewsFeed {
  import opened Common
  import opened NewsRotation

  /** A row of the `news` table. */
  datatype NewsRow = NewsRow(id: int, news: News)

  /** What `getNextNews` does: return null, return an item, or throw on `newsList[currentIndex]`. */
  datatype NextNews = NoNews | Next(news: News) | IndexOutOfBounds

  /** The items of the rows, in row order. */
  function NewsOf(rows: seq<NewsRow>): (r: seq<News>)
    ensures |r| == |rows| && forall k :: 0 <= k < |rows| ==> r[k] == rows[k].news
  {
    if |rows| == 0 then [] else NewsOf(rows[..|rows| - 1]) + [rows[|rows| - 1].news]
  }

  /** `DELETE FROM news WHERE id = ?`: every other row, in order. */
  function WithoutId(rows: seq<NewsRow>, id: int): (r: seq<NewsRow>)
    ensures forall row :: row in r <==> row in rows && row.id != id
    ensures |r| <= |rows|
  {
    if |rows| == 0 then []
    else WithoutId(rows[..|rows| - 1], id) + (if rows[|rows| - 1].id == id then [] else [rows[|rows| - 1]])
  }

  /** Ids strictly increase along the rows. */
  ghost predicate IdsAscending(rows: seq<NewsRow>)
  {
    forall i, j :: 0 <= i < j < |rows| ==> rows[i].id < rows[j].id
  }

  /** Deleting rows keeps the remaining ids ascending. */
  lemma {:induction false} WithoutIdAscending(rows: seq<NewsRow>, id: int)
    requires IdsAscending(rows)
    ensures IdsAscending(WithoutId(rows, id))
  {
    if |rows| > 0 {
      var init := rows[..|rows| - 1];
      WithoutIdAscending(init, id);
      forall row | row in WithoutId(init, id)
        ensures row.id < rows[|rows| - 1].id
      {
        var k :| 0 <= k < |init| && init[k] == row;
      }
    }
  }

  class NewsManager {
    var table: seq<NewsRow>
    var nextId: int
    var newsList: seq<News>
    var currentIndex: int

    /** The table is in id order below the counter, and the list mirrors it. */
    ghost predicate Valid()
      reads this
    {
      IdsAscending(table)
      && (forall k :: 0 <= k < |table| ==> table[k].id < nextId)
      && newsList == NewsOf(table)
      && currentIndex >= 0
    }

    /** The cursor indexes the list, or is 0. */
    predicate CursorInRange()
      reads this
    {
      0 <= currentIndex && (currentIndex < |newsList| || currentIndex == 0)
    }

    /** `init`: the stored rows are loaded and the cursor starts at 0. */
    constructor (rows: seq<NewsRow>, nextId: int)
      requires IdsAscending(rows) && forall k :: 0 <= k < |rows| ==> rows[k].id < nextId
      ensures Valid() && CursorInRange()
      ensures table == rows && this.nextId == nextId && currentIndex == 0
    {
      table := rows;
      this.nextId := nextId;
      newsList := [];
      currentIndex := 0;
      new;
      LoadNews();
    }

    /** `loadNews`: the list is cleared and refilled from the table in id order. */
    method LoadNews()
      modifies this
      ensures newsList == NewsOf(table)
      ensures table == old(table) && nextId == old(nextId) && currentIndex == old(currentIndex)
    {
      newsList := [];
      var i := 0;
      while i < |table|
        invariant 0 <= i <= |table| && newsList == NewsOf(table[..i])
        invariant table == old(table) && nextId == old(nextId) && currentIndex == old(currentIndex)
      {
        assert table[..i + 1][..i] == table[..i];
        newsList := newsList + [table[i].news];
        i := i + 1;
      }
      assert table[..|table|] == table;
    }

    /** `getAllNews`: the items of the table, in id order. */
    function GetAllNews(): (r: seq<News>)
      reads this
      requires Valid()
      ensures |r| == |table| && forall k :: 0 <= k < |table| ==> r[k] == table[k].news
    {
      newsList
    }

    /**
     * `getNextNews`: null on an empty list; otherwise the item under the
     * cursor, and the cursor moves on modulo the size. A cursor past the end
     * of a non-empty list makes the indexing throw.
     */
    method GetNextNews() returns (r: NextNews)
      requires Valid()
      modifies this
      ensures Valid()
      ensures table == old(table) && nextId == old(nextId) && newsList == old(newsList)
      ensures |newsList| == 0 ==> r == NoNews && currentIndex == old(currentIndex)
      ensures |newsList| > 0 && old(currentIndex) >= |newsList| ==> r == IndexOutOfBounds && currentIndex == old(currentIndex)
      ensures old(currentIndex) < |newsList| ==>
                r.Next? && [r.news] == Draws(newsList, old(currentIndex), 1).0
                && currentIndex == Draws(newsList, old(currentIndex), 1).1
      ensures old(CursorInRange()) ==> CursorInRange() && r != IndexOutOfBounds
    {
      if |newsList| == 0 {
        return NoNews;
      }
      if currentIndex >= |newsList| {
        return IndexOutOfBounds;
      }
      ghost var step := Draws(newsList, currentIndex, 1);
      var news := newsList[currentIndex];
      currentIndex := (currentIndex + 1) % |newsList|;
      assert step.0 == [news];
      assert step.1 == currentIndex;
      return Next(news);
    }

    /** `addNews`: a row with the next id is inserted and the item appended; the cursor stays. */
    method AddNews(genre: string, content: string)
      requires Valid()
      modifies this
      ensures Valid()
      ensures table == old(table) + [NewsRow(old(nextId), News(genre, content))] && nextId == old(nextId) + 1
      ensures newsList == old(newsList) + [News(genre, content)]
      ensures currentIndex == old(currentIndex)
      ensures old(CursorInRange()) ==> CursorInRange()
    {
      table := table + [NewsRow(nextId, News(genre, content))];
      nextId := nextId + 1;
      newsList := newsList + [News(genre, content)];
      assert table[..|table| - 1] == old(table);
    }

    /** `removeNews(id)`: the row goes and the list is reloaded; the cursor is not reset. */
    method RemoveNews(id: int)
      requires Valid()
      modifies this
      ensures Valid()
      ensures table == WithoutId(old(table), id) && nextId == old(nextId)
      ensures currentIndex == old(currentIndex)
    {
      WithoutIdAscending(table, id);
      table := WithoutId(table, id);
      LoadNews();
    }
  }

  /** Deleting an id that some row carries shortens the table. */
  lemma {:induction false} WithoutIdShrinks(rows: seq<NewsRow>, id: int, k: int)
    requires 0 <= k < |rows| && rows[k].id == id
    ensures |WithoutId(rows, id)| < |rows|
  {
    var init := rows[..|rows| - 1];
    if k < |rows| - 1 {
      assert init[k] == rows[k];
      WithoutIdShrinks(init, id, k);
    }
  }

  /**
   * Removing news can leave the cursor past the end: with the cursor on the
   * last item of the list, removing any stored id leaves a shorter list
   * that the unchanged cursor no longer indexes.
   */
  lemma RemovalLeavesCursorPastEnd(rows: seq<NewsRow>, id: int, k: int, cursor: int)
    requires 0 <= k < |rows| && rows[k].id == id && cursor == |NewsOf(rows)| - 1
    ensures cursor >= |NewsOf(WithoutId(rows, id))|
  {
    WithoutIdShrinks(rows, id, k);
  }

  /**
   * The stranded cursor on the manager itself: two stored items, one
   * `getNextNews` (cursor 1), `removeNews` of the first row, and the next
   * `getNextNews` throws.
   */
  method RemovalStrandsCursor() returns (r: NextNews)
    ensures r == IndexOutOfBounds
  {
    var rows := [NewsRow(1, News("a", "x")), NewsRow(2, News("b", "y"))];
    var feed := new NewsManager(rows, 3);
    assert NewsOf(rows) == [rows[0].news, rows[1].news];
    var first := feed.GetNextNews();
    assert feed.currentIndex == 1;
    assert rows[..1] == [rows[0]];
    assert WithoutId(rows, 1) == [rows[1]];
    feed.RemoveNews(1);
    r := feed.GetNextNews();
  }
}
