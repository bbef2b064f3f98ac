/**
 * The round-robin news cursor shared by both news managers: a `News`
 * record and what successive `getNextNews` calls hand out.
 */
module NewsRotation {

  datatype News = News(genre: string, content: string)

  /** `(currentIndex + 1) % newsList.size`. */
  function NextCursor(cursor: nat, size: nat): (c: nat)
    requires cursor < size
    ensures c < size
    ensures c == if cursor + 1 == size then 0 else cursor + 1
  {
    (cursor + 1) % size
  }

  /** The items `n` successive `getNextNews` calls return from `cursor`, and the cursor they leave. */
  function Draws(items: seq<News>, cursor: nat, n: nat): (r: (seq<News>, nat))
    requires cursor < |items|
    ensures |r.0| == n && r.1 < |items|
    decreases n
  {
    if n == 0 then ([], cursor)
    else
      var rest := Draws(items, NextCursor(cursor, |items|), n - 1);
      ([items[cursor]] + rest.0, rest.1)
  }

  /** Drawing up to the end of the list hands out its tail in order and wraps the cursor to 0. */
  lemma {:induction false} DrawsToEnd(items: seq<News>, cursor: nat, n: nat)
    requires cursor < |items| && cursor + n <= |items|
    ensures Draws(items, cursor, n).0 == items[cursor..cursor + n]
    ensures Draws(items, cursor, n).1 == if cursor + n == |items| then 0 else cursor + n
    decreases n
  {
    if n > 0 {
      if cursor + 1 < |items| {
        DrawsToEnd(items, cursor + 1, n - 1);
      } else {
        assert n == 1;
      }
    }
  }

  /** Drawing `a + b` items is drawing `a` and then `b` from where the cursor stopped. */
  lemma {:induction false} DrawsSplit(items: seq<News>, cursor: nat, a: nat, b: nat)
    requires cursor < |items|
    ensures var first := Draws(items, cursor, a);
            var second := Draws(items, first.1, b);
            Draws(items, cursor, a + b) == (first.0 + second.0, second.1)
    decreases a
  {
    var first := Draws(items, cursor, a);
    var second := Draws(items, first.1, b);
    if a == 0 {
      assert first.0 + second.0 == second.0;
    } else {
      var next := NextCursor(cursor, |items|);
      DrawsSplit(items, next, a - 1, b);
      assert a + b - 1 == (a - 1) + b;
      assert first.0 + second.0 == [items[cursor]] + (Draws(items, next, a - 1).0 + second.0);
    }
  }

  /**
   * `newsList.size` successive calls from any valid cursor return every
   * item exactly once, in list order starting at the cursor, and leave the
   * cursor where it started.
   */
  lemma FullCycle(items: seq<News>, cursor: nat)
    requires cursor < |items|
    ensures Draws(items, cursor, |items|) == (items[cursor..] + items[..cursor], cursor)
  {
    var tail := |items| - cursor;
    DrawsSplit(items, cursor, tail, cursor);
    DrawsToEnd(items, cursor, tail);
    DrawsToEnd(items, 0, cursor);
    assert items[cursor..cursor + tail] == items[cursor..];
    assert items[0..cursor] == items[..cursor];
  }
}
