/**
 Paging through a session's turns in either direction, after `_session_turns_list` in
 vibe/app_server/_handler.py.
 */
module TurnsPaging {
  import opened Common

  datatype Turn = Turn(id: string, content: string)

  datatype Direction = Forward | Backward

  datatype Page = Page(items: seq<Turn>, next: Option<string>, previous: Option<string>)

  predicate DistinctIds(turns: seq<Turn>) {
    forall i, j :: 0 <= i < j < |turns| ==> turns[i].id != turns[j].id
  }

  /** The first index with that id, if any. */
  function IndexOf(turns: seq<Turn>, id: string): (index: Option<nat>)
    ensures index.Some? ==> index.value < |turns| && turns[index.value].id == id
    ensures index.None? ==> forall i :: 0 <= i < |turns| ==> turns[i].id != id
  {
    if turns == [] then None
    else if turns[0].id == id then Some(0)
    else match IndexOf(turns[1..], id)
      case None => None
      case Some(i) => Some(i + 1)
  }

  lemma IndexOfTurn(turns: seq<Turn>, i: nat)
    requires DistinctIds(turns) && i < |turns|
    ensures IndexOf(turns, turns[i].id) == Some(i)
  {}

  function Opposite(direction: Direction): Direction { if direction.Forward? then Backward else Forward }

  // ---------- the request

  /** The turns between `lo` and `hi`, with a cursor on each side that has more. */
  function PageBetween(turns: seq<Turn>, direction: Direction, lo: nat, hi: nat): Page
    requires lo <= hi <= |turns|
  {
    var older := if lo < hi && lo > 0 then Some(turns[lo].id) else None;
    var newer := if lo < hi < |turns| then Some(turns[hi - 1].id) else None;
    if direction.Forward? then Page(turns[lo..hi], newer, older) else Page(turns[lo..hi], older, newer)
  }

  /** Where a cursor leaves off: just after its turn going forward, just before it going back. */
  function Edge(turns: seq<Turn>, direction: Direction, cursor: Option<string>): (edge: nat)
    ensures edge <= |turns|
  {
    match direction
    case Forward =>
      if cursor.None? then 0
      else (match IndexOf(turns, cursor.value) case None => |turns| case Some(i) => i + 1)
    case Backward =>
      if cursor.None? then |turns|
      else (match IndexOf(turns, cursor.value) case None => 0 case Some(i) => i)
  }

  /** Up to `limit` turns from the edge on: the index of the first, and one past the last. */
  function Window(count: nat, direction: Direction, edge: nat, limit: nat): (window: (nat, nat))
    requires edge <= count
    ensures window.0 <= window.1 <= count
  {
    match direction
    case Forward => (edge, if edge + limit < count then edge + limit else count)
    case Backward => (if limit < edge then edge - limit else 0, edge)
  }

  function PageAt(turns: seq<Turn>, direction: Direction, edge: nat, limit: nat): Page
    requires edge <= |turns|
  {
    var (lo, hi) := Window(|turns|, direction, edge, limit);
    PageBetween(turns, direction, lo, hi)
  }

  method CutPage(turns: seq<Turn>, direction: Direction, cursor: Option<string>, limit: nat)
    returns (items: seq<Turn>, firstIndex: nat)
    requires limit > 0
    ensures var (lo, hi) := Window(|turns|, direction, Edge(turns, direction, cursor), limit);
            firstIndex == lo && items == turns[lo..hi]
  {
    hide IndexOf;
    if direction.Backward? {
      if cursor.None? {
        items := if limit < |turns| then turns[|turns| - limit..] else turns;
        firstIndex := |turns| - |items|;
      } else {
        var found := IndexOf(turns, cursor.value);
        var end := if found.Some? then found.value else 0;
        firstIndex := if limit < end then end - limit else 0;
        items := turns[firstIndex..end];
      }
    } else {
      if cursor.None? {
        firstIndex := 0;
      } else {
        var found := IndexOf(turns, cursor.value);
        firstIndex := if found.Some? then found.value + 1 else |turns|;
      }
      items := turns[firstIndex..if firstIndex + limit < |turns| then firstIndex + limit else |turns|];
    }
  }

  method SessionTurnsList(turns: seq<Turn>, direction: Direction, cursor: Option<string>, limit: nat) returns (page: Page)
    requires limit > 0
    ensures page == PageAt(turns, direction, Edge(turns, direction, cursor), limit)
  {
    hide Edge;
    var items, firstIndex := CutPage(turns, direction, cursor, limit);
    var lastIndex := firstIndex + |items| - 1;
    var nextCursor := if items != [] && firstIndex > 0 then Some(items[0].id) else None;
    var backwardsCursor := if items != [] && lastIndex < |turns| - 1 then Some(items[|items| - 1].id) else None;
    if direction.Forward? {
      nextCursor, backwardsCursor := backwardsCursor, nextCursor;
    }
    page := Page(items, nextCursor, backwardsCursor);
  }

  function Ask(turns: seq<Turn>, direction: Direction, cursor: Option<string>, limit: nat): Page {
    PageAt(turns, direction, Edge(turns, direction, cursor), limit)
  }

  // ---------- following `next_cursor`

  /** How many turns lie beyond the edge. */
  function Beyond(turns: seq<Turn>, direction: Direction, cursor: Option<string>): nat {
    if direction.Forward? then |turns| - Edge(turns, direction, cursor) else Edge(turns, direction, cursor)
  }

  lemma NextIsFurther(turns: seq<Turn>, direction: Direction, cursor: Option<string>, limit: nat)
    requires limit > 0 && DistinctIds(turns) && Ask(turns, direction, cursor, limit).next.Some?
    ensures var edge := Edge(turns, direction, cursor);
            && limit < Beyond(turns, direction, cursor)
            && Edge(turns, direction, Ask(turns, direction, cursor, limit).next) ==
               (if direction.Forward? then edge + limit else edge - limit)
            && Ask(turns, direction, cursor, limit).items ==
               (if direction.Forward? then turns[edge..edge + limit] else turns[edge - limit..edge])
  {
    var edge := Edge(turns, direction, cursor);
    if direction.Forward? { IndexOfTurn(turns, edge + limit - 1); } else { IndexOfTurn(turns, edge - limit); }
  }

  /** What following `next_cursor` to the end gathers: later pages go after when reading forward,
      before when reading back. */
  function Walk(turns: seq<Turn>, direction: Direction, cursor: Option<string>, limit: nat): seq<Turn>
    requires limit > 0 && DistinctIds(turns)
    decreases Beyond(turns, direction, cursor)
  {
    var page := Ask(turns, direction, cursor, limit);
    if page.next.None? then page.items
    else
      NextIsFurther(turns, direction, cursor, limit);
      var rest := Walk(turns, direction, page.next, limit);
      if direction.Forward? then page.items + rest else rest + page.items
  }

  lemma LastPageIsTheRest(turns: seq<Turn>, direction: Direction, cursor: Option<string>, limit: nat)
    requires limit > 0 && Ask(turns, direction, cursor, limit).next.None?
    ensures var edge := Edge(turns, direction, cursor);
            Ask(turns, direction, cursor, limit).items == Rest(turns, direction, edge)
  {
    hide IndexOf;
    hide Edge;
  }

  /** What is left to read beyond the edge. */
  function Rest(turns: seq<Turn>, direction: Direction, edge: nat): seq<Turn>
    requires edge <= |turns|
  {
    if direction.Forward? then turns[edge..] else turns[..edge]
  }

  lemma RestSplits(turns: seq<Turn>, direction: Direction, edge: nat, limit: nat)
    requires if direction.Forward? then edge + limit <= |turns| else limit <= edge <= |turns|
    ensures Rest(turns, direction, edge) ==
            if direction.Forward? then turns[edge..edge + limit] + Rest(turns, direction, edge + limit)
            else Rest(turns, direction, edge - limit) + turns[edge - limit..edge]
  {
    if direction.Forward? {
      assert turns[edge..] == turns[edge..edge + limit] + turns[edge + limit..];
    } else {
      assert turns[..edge] == turns[..edge - limit] + turns[edge - limit..edge];
    }
  }

  lemma WalkOnce(turns: seq<Turn>, direction: Direction, cursor: Option<string>, limit: nat)
    requires limit > 0 && DistinctIds(turns)
    ensures var page := Ask(turns, direction, cursor, limit);
            Walk(turns, direction, cursor, limit) ==
            if page.next.None? then page.items
            else if direction.Forward? then page.items + Walk(turns, direction, page.next, limit)
            else Walk(turns, direction, page.next, limit) + page.items
  {
    hide Ask;
    hide Edge;
  }

  /** The walk ends, and the pages partition the turns beyond the edge: each turn once, in order. */
  lemma {:induction false} WalkCoversTheRest(turns: seq<Turn>, direction: Direction, cursor: Option<string>, limit: nat)
    requires limit > 0 && DistinctIds(turns)
    ensures Walk(turns, direction, cursor, limit) == Rest(turns, direction, Edge(turns, direction, cursor))
    decreases Beyond(turns, direction, cursor)
  {
    hide Ask;
    hide Edge;
    hide DistinctIds;
    WalkOnce(turns, direction, cursor, limit);
    hide Walk;
    var page := Ask(turns, direction, cursor, limit);
    if page.next.None? {
      LastPageIsTheRest(turns, direction, cursor, limit);
    } else {
      NextIsFurther(turns, direction, cursor, limit);
      WalkCoversTheRest(turns, direction, page.next, limit);
      RestSplits(turns, direction, Edge(turns, direction, cursor), limit);
      hide Rest;
    }
  }

  /** Read from the start, either direction gathers every turn. */
  lemma WalkCoversAll(turns: seq<Turn>, direction: Direction, limit: nat)
    requires limit > 0 && DistinctIds(turns)
    ensures Walk(turns, direction, None, limit) == turns
  {
    WalkCoversTheRest(turns, direction, None, limit);
  }

  // ---------- turning round

  /** Asked in the opposite direction, `previous_cursor` gives the turns that adjoin the page on the
      side it came from; and there is such a cursor exactly when a page with turns has some there. */
  lemma PreviousAdjoins(turns: seq<Turn>, direction: Direction, cursor: Option<string>, limit: nat, other: nat)
    requires limit > 0 && other > 0 && DistinctIds(turns)
    ensures var edge := Edge(turns, direction, cursor);
            var page := Ask(turns, direction, cursor, limit);
            && (page.previous.Some? <==>
                page.items != [] && (if direction.Forward? then edge > 0 else edge < |turns|))
            && (page.previous.Some? ==>
                  Ask(turns, Opposite(direction), page.previous, other).items ==
                  if direction.Forward? then turns[if other < edge then edge - other else 0..edge]
                  else turns[edge..if edge + other < |turns| then edge + other else |turns|])
  {
    var edge := Edge(turns, direction, cursor);
    var page := Ask(turns, direction, cursor, limit);
    hide IndexOf;
    if page.previous.Some? {
      if direction.Forward? { IndexOfTurn(turns, edge); } else { IndexOfTurn(turns, edge - 1); }
    }
  }

  /** Going on to the next page and turning round gives back the very page one came from. */
  lemma ThereAndBack(turns: seq<Turn>, direction: Direction, cursor: Option<string>, limit: nat)
    requires limit > 0 && DistinctIds(turns) && Ask(turns, direction, cursor, limit).next.Some?
    ensures var page := Ask(turns, direction, cursor, limit);
            var further := Ask(turns, direction, page.next, limit);
            && further.previous.Some?
            && Ask(turns, Opposite(direction), further.previous, limit).items == page.items
  {
    hide Edge;
    var page := Ask(turns, direction, cursor, limit);
    NextIsFurther(turns, direction, cursor, limit);
    PreviousAdjoins(turns, direction, page.next, limit, limit);
  }

  /** A cursor that names no turn gives an empty page with nowhere to go on to. */
  lemma UnknownCursorGivesNothing(turns: seq<Turn>, direction: Direction, cursor: string, limit: nat)
    requires forall i :: 0 <= i < |turns| ==> turns[i].id != cursor
    ensures Ask(turns, direction, Some(cursor), limit) == Page([], None, None)
  {
    assert IndexOf(turns, cursor).None?;
  }
}
