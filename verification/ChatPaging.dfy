/** Reading a channel page by page: what one page holds, and what a walk over many pages visits while
    the channel grows. */
module ChatPaging {
  import opened ChatStorage

  datatype Cursor = Latest | After(number: nat) | Before(number: nat) {
    function Low(): nat { if After? then number else 0 }

    function High(): nat { if Before? then number else MAX_SEQ }

    predicate Newer() { After? }

    /** What a request may ask for. */
    predicate Valid() {
      match this
      case Latest => true
      case After(n) => n <= MAX_SEQ
      case Before(n) => 1 <= n <= MAX_SEQ
    }
  }

  datatype Item = Item(number: nat, message: Message)

  datatype Page = Page(items: seq<Item>, hasMore: bool)

  // ----- one page

  predicate Matching(c: Chat, order: OrderId, cursor: Cursor, number: nat) {
    MessageId(order, number) in c.messages && cursor.Low() < number < cursor.High()
  }

  /** `a` is selected before `b`. */
  predicate Precedes(cursor: Cursor, a: nat, b: nat) { if cursor.Newer() then a < b else a > b }

  predicate Listed(rows: seq<Item>, number: nat) { exists row <- rows :: row.number == number }

  /** What the query gives: matching rows in the order asked for, leaving out a matching row only past
      its limit, and then only one that comes after them all. */
  ghost predicate Selected(c: Chat, order: OrderId, cursor: Cursor, limit: nat, rows: seq<Item>) {
    && |rows| <= limit
    && (forall row <- rows :: Matching(c, order, cursor, row.number)
                           && row.message == c.messages[MessageId(order, row.number)])
    && (forall i, j | 0 <= i < j < |rows| :: Precedes(cursor, rows[i].number, rows[j].number))
    && (forall n: nat | Matching(c, order, cursor, n) && !Listed(rows, n) ::
          |rows| == limit && forall row <- rows :: Precedes(cursor, row.number, n))
  }

  function Reversed(items: seq<Item>): (r: seq<Item>)
    ensures |r| == |items|
    ensures forall i | 0 <= i < |r| :: r[i] == items[|items| - 1 - i]
  {
    if items == [] then [] else Reversed(items[1..]) + [items[0]]
  }

  /** One row more than the page holds tells whether there are more. */
  function PageOf(cursor: Cursor, limit: nat, rows: seq<Item>): Page {
    var items := if |rows| <= limit then rows else rows[..limit];
    Page(if cursor.Newer() then items else Reversed(items), |rows| > limit)
  }

  /** The highest number the cursor lets through. */
  function Top(c: Chat, order: OrderId, cursor: Cursor): int
    requires order in c.channels
  {
    if c.channels[order].latestSeq < cursor.High() then c.channels[order].latestSeq else cursor.High() - 1
  }

  /** How many numbers lie between the cursor's low end and `Top`. */
  function Span(c: Chat, order: OrderId, cursor: Cursor): nat
    requires order in c.channels
  {
    if Top(c, order, cursor) > cursor.Low() then Top(c, order, cursor) - cursor.Low() else 0
  }

  /** The number of the `i`-th row. */
  function Nth(c: Chat, order: OrderId, cursor: Cursor, i: nat): int
    requires order in c.channels
  {
    if cursor.Newer() then cursor.Low() + 1 + i else Top(c, order, cursor) - i
  }

  lemma MatchingIsInSpan(c: Chat, order: OrderId, cursor: Cursor, n: nat)
    requires Numbered(c) && order in c.channels
    ensures Matching(c, order, cursor, n) <==> cursor.Low() < n <= Top(c, order, cursor)
  {}

  /** Row by row, a query over numbered messages leaves no gap. */
  lemma {:induction false} RowIsNth(c: Chat, order: OrderId, cursor: Cursor, limit: nat, rows: seq<Item>, i: nat)
    requires Numbered(c) && order in c.channels && Selected(c, order, cursor, limit, rows) && i < |rows|
    ensures rows[i].number == Nth(c, order, cursor, i)
  {
    if i > 0 {
      RowIsNth(c, order, cursor, limit, rows, i - 1);
    }
    var n := Nth(c, order, cursor, i);
    assert rows[i] in rows;
    MatchingIsInSpan(c, order, cursor, rows[i].number);
    MatchingIsInSpan(c, order, cursor, n);
    if Listed(rows, n) {
      var row :| row in rows && row.number == n;
      var j :| 0 <= j < |rows| && rows[j] == row;
      if j < i { RowIsNth(c, order, cursor, limit, rows, j); }
    }
  }

  lemma SelectedCount(c: Chat, order: OrderId, cursor: Cursor, limit: nat, rows: seq<Item>)
    requires Numbered(c) && order in c.channels && Selected(c, order, cursor, limit, rows)
    ensures |rows| == if Span(c, order, cursor) < limit then Span(c, order, cursor) else limit
  {
    if |rows| > 0 {
      RowIsNth(c, order, cursor, limit, rows, |rows| - 1);
      assert rows[|rows| - 1] in rows;
      MatchingIsInSpan(c, order, cursor, rows[|rows| - 1].number);
    }
    if |rows| < Span(c, order, cursor) {
      var n := Nth(c, order, cursor, |rows|);
      MatchingIsInSpan(c, order, cursor, n);
      if Listed(rows, n) {
        var row :| row in rows && row.number == n;
        var j :| 0 <= j < |rows| && rows[j] == row;
        RowIsNth(c, order, cursor, limit, rows, j);
      }
    }
  }

  predicate Consecutive(items: seq<Item>, first: int) {
    forall i | 0 <= i < |items| :: items[i].number == first + i
  }

  lemma ConsecutiveJoins(a: seq<Item>, b: seq<Item>, first: int)
    requires Consecutive(a, first) && Consecutive(b, first + |a|)
    ensures Consecutive(a + b, first)
  {}

  /** Where in the rows the `i`-th of `count` items comes from. */
  function RowOf(cursor: Cursor, count: nat, i: nat): nat
    requires i < count
  {
    if cursor.Newer() then i else count - 1 - i
  }

  lemma PageTakesRows(cursor: Cursor, limit: nat, rows: seq<Item>)
    ensures var items := PageOf(cursor, limit, rows).items;
            && |items| == (if |rows| <= limit then |rows| else limit)
            && forall i | 0 <= i < |items| :: items[i] == rows[RowOf(cursor, |items|, i)]
  {}

  /** The number of a page's first message. */
  function First(c: Chat, order: OrderId, cursor: Cursor, count: nat): int
    requires order in c.channels
  {
    if cursor.Newer() then cursor.Low() + 1 else Top(c, order, cursor) - count + 1
  }

  /** A page of a channel numbered without gaps is a run of consecutive numbers: the first above the
      cursor, or the last below it; and `hasMore` says whether the run stopped short of the end. */
  lemma PageIsConsecutive(c: Chat, order: OrderId, cursor: Cursor, limit: nat, rows: seq<Item>)
    requires Numbered(c) && order in c.channels && Selected(c, order, cursor, limit + 1, rows)
    ensures var page := PageOf(cursor, limit, rows);
            var span := Span(c, order, cursor);
            && |page.items| == (if span < limit then span else limit)
            && (page.hasMore <==> span > limit)
            && Consecutive(page.items, First(c, order, cursor, |page.items|))
            && (forall item <- page.items :: MessageId(order, item.number) in c.messages
                                          && item.message == c.messages[MessageId(order, item.number)])
  {
    SelectedCount(c, order, cursor, limit + 1, rows);
    PageTakesRows(cursor, limit, rows);
    var items := PageOf(cursor, limit, rows).items;
    forall i | 0 <= i < |items|
      ensures && items[i].number == First(c, order, cursor, |items|) + i
              && MessageId(order, items[i].number) in c.messages
              && items[i].message == c.messages[MessageId(order, items[i].number)]
    {
      var at := RowOf(cursor, |items|, i);
      RowIsNth(c, order, cursor, limit + 1, rows, at);
      assert rows[at] in rows;
    }
  }

  // ----- a walk over pages

  /** One page fetched, and the state it was fetched from. */
  datatype Visit = Visit(chat: Chat, cursor: Cursor, rows: seq<Item>)

  function Fetched(v: Visit, limit: nat): Page { PageOf(v.cursor, limit, v.rows) }

  function ItemsOf(v: Visit, limit: nat): seq<Item> { Fetched(v, limit).items }

  /** The page is what the query gave, of a channel numbered without gaps. */
  ghost predicate Fetches(v: Visit, order: OrderId, limit: nat) {
    Numbered(v.chat) && order in v.chat.channels && Selected(v.chat, order, v.cursor, limit + 1, v.rows)
  }

  predicate Grew(before: Chat, after: Chat, order: OrderId) {
    order in before.channels && order in after.channels
    && before.channels[order].latestSeq <= after.channels[order].latestSeq
  }

  /** The next page is asked for after the last message of this one; the channel may have grown. */
  predicate Continues(v: Visit, next: Visit, order: OrderId, limit: nat) {
    var items := ItemsOf(v, limit);
    && v.cursor.After? && Grew(v.chat, next.chat, order)
    && next.cursor == if items == [] then v.cursor else After(items[|items| - 1].number)
  }

  /** The next page is asked for before the first message of this one. */
  predicate ContinuesBack(v: Visit, next: Visit, order: OrderId, limit: nat) {
    var items := ItemsOf(v, limit);
    && !v.cursor.Newer() && Grew(v.chat, next.chat, order)
    && items != [] && next.cursor == Before(items[0].number)
  }

  ghost predicate Walks(visits: seq<Visit>, order: OrderId, limit: nat, back: bool) {
    && visits != [] && limit >= 1
    && (if back then !visits[0].cursor.Newer() else visits[0].cursor.After?)
    && (forall i | 0 <= i < |visits| :: Fetches(visits[i], order, limit))
    && (forall i, j | 0 <= i < |visits| - 1 && j == i + 1 ::
          if back then ContinuesBack(visits[i], visits[j], order, limit) else Continues(visits[i], visits[j], order, limit))
  }

  /** Everything the pages held, oldest first. */
  function Visited(visits: seq<Visit>, limit: nat, back: bool): seq<Item> {
    if visits == [] then []
    else
      var last := ItemsOf(visits[|visits| - 1], limit);
      var before := Visited(visits[..|visits| - 1], limit, back);
      if back then last + before else before + last
  }

  // What a page gives, without the query that gave it.
  predicate Gives(v: Visit, order: OrderId, limit: nat) {
    && order in v.chat.channels
    && var page, span := Fetched(v, limit), Span(v.chat, order, v.cursor);
       && |page.items| == (if span < limit then span else limit)
       && (page.hasMore <==> span > limit)
       && Consecutive(page.items, First(v.chat, order, v.cursor, |page.items|))
  }

  predicate Chain(visits: seq<Visit>, order: OrderId, limit: nat, back: bool) {
    && visits != [] && limit >= 1
    && (if back then !visits[0].cursor.Newer() else visits[0].cursor.After?)
    && (forall i | 0 <= i < |visits| :: Gives(visits[i], order, limit))
    && (forall i, j | 0 <= i < |visits| - 1 && j == i + 1 ::
          if back then ContinuesBack(visits[i], visits[j], order, limit) else Continues(visits[i], visits[j], order, limit))
  }

  lemma WalkIsChain(visits: seq<Visit>, order: OrderId, limit: nat, back: bool)
    requires Walks(visits, order, limit, back)
    ensures Chain(visits, order, limit, back)
  {
    forall i | 0 <= i < |visits| ensures Gives(visits[i], order, limit) {
      PageIsConsecutive(visits[i].chat, order, visits[i].cursor, limit, visits[i].rows);
    }
  }

  lemma ChainShortens(visits: seq<Visit>, order: OrderId, limit: nat, back: bool)
    requires Chain(visits, order, limit, back) && |visits| > 1
    ensures Chain(visits[..|visits| - 1], order, limit, back)
    ensures var v, next := visits[|visits| - 2], visits[|visits| - 1];
            if back then ContinuesBack(v, next, order, limit) else Continues(v, next, order, limit)
  {
    var shorter := visits[..|visits| - 1];
    forall i, j | 0 <= i < |shorter| - 1 && j == i + 1
      ensures if back then ContinuesBack(shorter[i], shorter[j], order, limit)
              else Continues(shorter[i], shorter[j], order, limit)
    {
      assert shorter[i] == visits[i] && shorter[j] == visits[j];
    }
  }

  /** Where a walk forward stands at `v`, having seen `seen` before it. */
  predicate Forward(first: Visit, v: Visit, order: OrderId, limit: nat, seen: seq<Item>)
    requires first.cursor.After?
  {
    var start := first.cursor.number;
    && Grew(first.chat, v.chat, order) && v.cursor == After(start + |seen|)
    && Consecutive(seen + ItemsOf(v, limit), start + 1)
    && (start <= first.chat.channels[order].latestSeq ==>
          start + |seen + ItemsOf(v, limit)| <= v.chat.channels[order].latestSeq)
  }

  lemma ForwardStarts(v: Visit, order: OrderId, limit: nat)
    requires v.cursor.After? && Gives(v, order, limit)
    ensures Forward(v, v, order, limit, [])
  {
    assert [] + ItemsOf(v, limit) == ItemsOf(v, limit);
  }

  lemma ForwardContinues(first: Visit, v: Visit, next: Visit, order: OrderId, limit: nat, seen: seq<Item>)
    requires first.cursor.After? && Forward(first, v, order, limit, seen)
    requires Gives(next, order, limit) && Continues(v, next, order, limit)
    ensures Forward(first, next, order, limit, seen + ItemsOf(v, limit))
  {
    var items, all := ItemsOf(v, limit), seen + ItemsOf(v, limit);
    assert items != [] ==> all[|all| - 1] == items[|items| - 1];
    ConsecutiveJoins(all, ItemsOf(next, limit), first.cursor.number + 1);
  }

  lemma {:induction false} ChainRunsForward(visits: seq<Visit>, order: OrderId, limit: nat)
    requires Chain(visits, order, limit, false)
    ensures Forward(visits[0], visits[|visits| - 1], order, limit, Visited(visits[..|visits| - 1], limit, false))
    decreases |visits|
  {
    var n := |visits| - 1;
    if n == 0 {
      ForwardStarts(visits[0], order, limit);
    } else {
      ChainShortens(visits, order, limit, false);
      ChainRunsForward(visits[..n], order, limit);
      VisitedBefore(visits, limit, false);
      ForwardContinues(visits[0], visits[n - 1], visits[n], order, limit, Visited(visits[..n - 1], limit, false));
    }
  }

  /** What came before the last page. */
  lemma VisitedBefore(visits: seq<Visit>, limit: nat, back: bool)
    requires |visits| > 1
    ensures var n := |visits| - 1;
            && visits[..n][0] == visits[0] && visits[..n][n - 1] == visits[n - 1] && visits[..n][..n - 1] == visits[..n - 1]
            && Visited(visits[..n], limit, back)
               == if back then ItemsOf(visits[n - 1], limit) + Visited(visits[..n - 1], limit, back)
                  else Visited(visits[..n - 1], limit, back) + ItemsOf(visits[n - 1], limit)
  {
    var n := |visits| - 1;
    assert visits[..n][..n - 1] == visits[..n - 1];
  }

  /** Walking forward, whatever is appended meanwhile, visits the numbers after the start once each and in
      order; and a walk whose last page says there is no more has visited every message there then is, for
      channels below the last number. */
  lemma ForwardVisitsAll(visits: seq<Visit>, order: OrderId, limit: nat)
    requires Walks(visits, order, limit, false)
    ensures var items, start, last := Visited(visits, limit, false), visits[0].cursor.number, visits[|visits| - 1];
            && Consecutive(items, start + 1)
            && order in visits[0].chat.channels && order in last.chat.channels
            && (!Fetched(last, limit).hasMore && start <= visits[0].chat.channels[order].latestSeq ==>
                  var latest := last.chat.channels[order].latestSeq;
                  latest < MAX_SEQ ==> start + |items| == latest)
  {
    WalkIsChain(visits, order, limit, false);
    ChainRunsForward(visits, order, limit);
    assert Gives(visits[|visits| - 1], order, limit);
  }

  /** Where a walk back stands at `v`: what is left to ask for lies right below `seen`. */
  predicate Back(first: Visit, v: Visit, order: OrderId, limit: nat, seen: seq<Item>)
    requires order in first.chat.channels
  {
    var top := Top(first.chat, order, first.cursor);
    && order in v.chat.channels && !v.cursor.Newer()
    && Top(v.chat, order, v.cursor) == top - |seen|
    && Span(v.chat, order, v.cursor) == Span(first.chat, order, first.cursor) - |seen|
    && Consecutive(ItemsOf(v, limit) + seen, top - |ItemsOf(v, limit) + seen| + 1)
  }

  lemma BackStarts(v: Visit, order: OrderId, limit: nat)
    requires !v.cursor.Newer() && Gives(v, order, limit)
    ensures Back(v, v, order, limit, [])
  {
    assert ItemsOf(v, limit) + [] == ItemsOf(v, limit);
  }

  lemma BackContinues(first: Visit, v: Visit, next: Visit, order: OrderId, limit: nat, seen: seq<Item>)
    requires order in first.chat.channels && Back(first, v, order, limit, seen)
    requires Gives(v, order, limit) && Gives(next, order, limit) && ContinuesBack(v, next, order, limit)
    ensures Back(first, next, order, limit, ItemsOf(v, limit) + seen)
  {
    var items, all := ItemsOf(v, limit), ItemsOf(v, limit) + seen;
    var top := Top(first.chat, order, first.cursor);
    assert items[0].number == First(v.chat, order, v.cursor, |items|) == top - |all| + 1;
    ConsecutiveJoins(ItemsOf(next, limit), all, top - |ItemsOf(next, limit)| - |all| + 1);
  }

  lemma {:induction false} ChainRunsBack(visits: seq<Visit>, order: OrderId, limit: nat)
    requires Chain(visits, order, limit, true)
    ensures order in visits[0].chat.channels
    ensures Back(visits[0], visits[|visits| - 1], order, limit, Visited(visits[..|visits| - 1], limit, true))
    decreases |visits|
  {
    var n := |visits| - 1;
    if n == 0 {
      BackStarts(visits[0], order, limit);
    } else {
      ChainShortens(visits, order, limit, true);
      ChainRunsBack(visits[..n], order, limit);
      VisitedBefore(visits, limit, true);
      BackContinues(visits[0], visits[n - 1], visits[n], order, limit, Visited(visits[..n - 1], limit, true));
    }
  }

  /** Walking back, whatever is appended meanwhile, visits the numbers up to the newest of the first page
      once each, without a gap; and a walk whose last page says there is no more has reached the first. */
  lemma BackVisitsAll(visits: seq<Visit>, order: OrderId, limit: nat)
    requires Walks(visits, order, limit, true)
    ensures order in visits[0].chat.channels
    ensures var items, first := Visited(visits, limit, true), visits[0];
            && Consecutive(items, Top(first.chat, order, first.cursor) - |items| + 1)
            && (!Fetched(visits[|visits| - 1], limit).hasMore ==> |items| == Span(first.chat, order, first.cursor))
  {
    WalkIsChain(visits, order, limit, true);
    ChainRunsBack(visits, order, limit);
    assert Gives(visits[|visits| - 1], order, limit);
  }

  // ----- which messages a walk can reach

  /** What the query gives for `after`. */
  lemma FirstRows(c: Chat, order: OrderId, from: nat, limit: nat) returns (rows: seq<Item>)
    requires Numbered(c) && order in c.channels && from <= c.channels[order].latestSeq && from < MAX_SEQ
    ensures |rows| == if Span(c, order, After(from)) < limit then Span(c, order, After(from)) else limit
    ensures Selected(c, order, After(from), limit, rows)
    ensures forall i | 0 <= i < |rows| :: rows[i].number == from + 1 + i
  {
    var rest := Span(c, order, After(from));
    var count := if rest < limit then rest else limit;
    rows := seq(count, i requires 0 <= i < count => Item(from + 1 + i, c.messages[MessageId(order, from + 1 + i)]));
    forall n: nat | from < n <= from + count ensures Listed(rows, n) {
      assert rows[n - from - 1].number == n && rows[n - from - 1] in rows;
    }
  }

  lemma WalkPrepends(v: Visit, rest: seq<Visit>, order: OrderId, limit: nat)
    requires Walks(rest, order, limit, false) && Fetches(v, order, limit) && Continues(v, rest[0], order, limit)
    ensures Walks([v] + rest, order, limit, false)
  {
    var visits := [v] + rest;
    forall i, j | 0 <= i < |visits| - 1 && j == i + 1 ensures Continues(visits[i], visits[j], order, limit) {
      assert i > 0 ==> visits[i] == rest[i - 1] && visits[j] == rest[j - 1];
    }
  }

  /** A walk over a channel that nobody writes to, to its end. */
  lemma {:induction false} WalkOn(c: Chat, order: OrderId, limit: nat, from: nat) returns (visits: seq<Visit>)
    requires Numbered(c) && order in c.channels && limit >= 1 && from <= c.channels[order].latestSeq < MAX_SEQ
    ensures Walks(visits, order, limit, false) && visits[0].cursor == After(from)
    ensures (forall v <- visits :: v.chat == c) && !Fetched(visits[|visits| - 1], limit).hasMore
    decreases c.channels[order].latestSeq - from
  {
    var rows := FirstRows(c, order, from, limit + 1);
    var v := Visit(c, After(from), rows);
    visits := [v];
    if |rows| > limit {
      assert rows[limit] in rows;
      MatchingIsInSpan(c, order, After(from), rows[limit].number);
      var rest := WalkOn(c, order, limit, from + limit);
      WalkPrepends(v, rest, order, limit);
      visits := visits + rest;
    }
  }

  lemma {:induction false} VisitedIsBelow(visits: seq<Visit>, order: OrderId, limit: nat)
    requires forall v <- visits :: Fetches(v, order, limit) && v.cursor.After?
    ensures forall item <- Visited(visits, limit, false) :: item.number < MAX_SEQ
  {
    if visits != [] {
      var v := visits[|visits| - 1];
      assert v in visits;
      VisitedIsBelow(visits[..|visits| - 1], order, limit);
      assert forall item <- ItemsOf(v, limit) :: item in v.rows;
    }
  }

  lemma WalksAfter(visits: seq<Visit>, order: OrderId, limit: nat)
    requires Walks(visits, order, limit, false)
    ensures forall v <- visits :: v.cursor.After?
  {
    forall j | 0 <= j < |visits| ensures visits[j].cursor.After? {
      assert j > 0 ==> Continues(visits[j - 1], visits[j], order, limit);
    }
  }

  /** Some walk from the first message on, over the channel as it is, visits all of it. */
  ghost predicate CanVisitAll(c: Chat, order: OrderId, limit: nat)
    requires order in c.channels
  {
    exists visits: seq<Visit> :: Walks(visits, order, limit, false) && (forall v <- visits :: v.chat == c)
      && forall n | 1 <= n <= c.channels[order].latestSeq :: Listed(Visited(visits, limit, false), n)
  }

  /** A walk can visit every message exactly while the last number a column can hold is unused: without
      `before`, the query still asks for less than that number. */
  lemma VisitsAllExactly(c: Chat, order: OrderId, limit: nat)
    requires Numbered(c) && order in c.channels && limit >= 1
    ensures CanVisitAll(c, order, limit) <==> c.channels[order].latestSeq < MAX_SEQ
  {
    var latest := c.channels[order].latestSeq;
    if latest < MAX_SEQ {
      var visits := WalkOn(c, order, limit, 0);
      ForwardVisitsAll(visits, order, limit);
      var items := Visited(visits, limit, false);
      assert visits[0].chat == c && visits[|visits| - 1].chat == c;
      forall n | 1 <= n <= latest ensures Listed(items, n) {
        assert items[n - 1].number == n && items[n - 1] in items;
      }
    } else {
      forall visits | Walks(visits, order, limit, false) ensures !Listed(Visited(visits, limit, false), latest) {
        WalksAfter(visits, order, limit);
        VisitedIsBelow(visits, order, limit);
      }
    }
  }

  /** A message is on some page that may be asked for exactly when its number is not that last one. */
  lemma OnSomePageExactly(c: Chat, order: OrderId, limit: nat, n: nat)
    requires Numbered(c) && MessageId(order, n) in c.messages && limit >= 1
    ensures (exists cursor: Cursor, rows: seq<Item> :: cursor.Valid() && Selected(c, order, cursor, limit + 1, rows)
               && Listed(PageOf(cursor, limit, rows).items, n)) <==> n < MAX_SEQ
  {
    if n < MAX_SEQ {
      var cursor := After(n - 1);
      var rows := FirstRows(c, order, n - 1, limit + 1);
      PageTakesRows(cursor, limit, rows);
      assert PageOf(cursor, limit, rows).items[0].number == n;
    } else {
      forall cursor: Cursor, rows: seq<Item> | cursor.Valid() && Selected(c, order, cursor, limit + 1, rows)
        ensures !Listed(PageOf(cursor, limit, rows).items, n)
      {
        PageTakesRows(cursor, limit, rows);
      }
    }
  }
}
