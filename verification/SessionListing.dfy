/**
 Paging through the session list, after `project_session_list` and its cursor functions in
 vibe/app_server/_host.py.

 A page's cursor names its last session by timestamp and id, so a listing that changes between two
 requests is still continued below that session.
 */
module SessionListing {
  import opened Common
  import opened Encoding
  import opened Strings

  datatype Session = Session(updatedAt: string, id: string, parent: Option<string>)

  datatype Page = Page(items: seq<Session>, next: Option<string>)

  const NUL := '\0'

  // ---------- the order of the listing

  /** Python's `<` on strings. */
  predicate Less(a: string, b: string) {
    if b == "" then false
    else if a == "" then true
    else a[0] < b[0] || (a[0] == b[0] && Less(a[1..], b[1..]))
  }

  /** `x` is listed above `y`: later, or as late with the greater id. */
  predicate Above(x: Session, y: Session) {
    Less(y.updatedAt, x.updatedAt) || (x.updatedAt == y.updatedAt && Less(y.id, x.id))
  }

  lemma {:induction false} LessIsAnOrder(a: string, b: string)
    ensures !(Less(a, b) && Less(b, a))
    ensures a == b ==> !Less(a, b)
    ensures a != b ==> Less(a, b) || Less(b, a)
  {
    if a != "" && b != "" {
      LessIsAnOrder(a[1..], b[1..]);
      assert a == [a[0]] + a[1..] && b == [b[0]] + b[1..];
    }
  }

  lemma {:induction false} LessIsTransitive(a: string, b: string, c: string)
    ensures Less(a, b) && Less(b, c) ==> Less(a, c)
  {
    if a != "" && b != "" && c != "" { LessIsTransitive(a[1..], b[1..], c[1..]); }
  }

  lemma AboveIsAnOrder(x: Session, y: Session)
    ensures !(Above(x, y) && Above(y, x)) && !Above(x, x)
    ensures x.id != y.id ==> Above(x, y) || Above(y, x)
  {
    LessIsAnOrder(x.updatedAt, y.updatedAt);
    LessIsAnOrder(x.id, y.id);
    LessIsAnOrder(x.updatedAt, x.updatedAt);
    LessIsAnOrder(x.id, x.id);
  }

  lemma AboveIsTransitive(x: Session, y: Session, z: Session)
    ensures Above(x, y) && Above(y, z) ==> Above(x, z)
  {
    LessIsTransitive(z.updatedAt, y.updatedAt, x.updatedAt);
    LessIsTransitive(z.id, y.id, x.id);
  }

  predicate Sorted(sessions: seq<Session>) {
    forall i, j :: 0 <= i < j < |sessions| ==> Above(sessions[i], sessions[j])
  }

  predicate DistinctIds(sessions: seq<Session>) {
    forall i, j :: 0 <= i < j < |sessions| ==> sessions[i].id != sessions[j].id
  }

  predicate Wanted(session: Session, roots: map<string, string>, root: Option<string>, parent: Option<string>) {
    && (root.Some? ==> session.id in roots && roots[session.id] == root.value)
    && (parent.Some? ==> session.parent == parent)
  }

  function Insert(x: Session, sessions: seq<Session>): seq<Session> {
    if sessions == [] || Above(x, sessions[0]) then [x] + sessions else [sessions[0]] + Insert(x, sessions[1..])
  }

  /** The sessions asked for, latest first. */
  function Listed(sessions: seq<Session>, roots: map<string, string>, root: Option<string>, parent: Option<string>)
    : seq<Session>
  {
    if sessions == [] then []
    else
      var rest := Listed(sessions[1..], roots, root, parent);
      if Wanted(sessions[0], roots, root, parent) then Insert(sessions[0], rest) else rest
  }

  lemma SortedConcat(a: seq<Session>, b: seq<Session>)
    requires Sorted(a) && Sorted(b) && a != [] && forall x :: x in b ==> Above(a[|a| - 1], x)
    ensures Sorted(a + b)
  {
    hide Above;
    forall x, y | x in a && y in b ensures Above(x, y) { AboveIsTransitive(x, a[|a| - 1], y); }
    forall i, j | 0 <= i < j < |a + b| ensures Above((a + b)[i], (a + b)[j]) {
      if i < |a| <= j { assert a[i] in a && b[j - |a|] in b; }
    }
  }

  lemma {:induction false} InsertKeepsSorted(x: Session, sessions: seq<Session>)
    requires Sorted(sessions) && forall y :: y in sessions ==> y.id != x.id
    ensures Sorted(Insert(x, sessions))
    ensures forall y :: y in Insert(x, sessions) <==> y == x || y in sessions
  {
    hide Above;
    if sessions != [] {
      AboveIsAnOrder(x, sessions[0]);
      if Above(x, sessions[0]) {
        forall y | y in sessions ensures Above(x, y) { AboveIsTransitive(x, sessions[0], y); }
        SortedConcat([x], sessions);
      } else {
        InsertKeepsSorted(x, sessions[1..]);
        assert sessions == [sessions[0]] + sessions[1..];
        SortedConcat([sessions[0]], Insert(x, sessions[1..]));
      }
    }
  }

  /** The listing holds the wanted sessions and no others, in strict order. */
  lemma {:induction false} ListedIsSorted(
    sessions: seq<Session>, roots: map<string, string>, root: Option<string>, parent: Option<string>)
    requires DistinctIds(sessions)
    ensures Sorted(Listed(sessions, roots, root, parent))
    ensures forall x :: x in Listed(sessions, roots, root, parent) <==>
              && x in sessions
              && (root.Some? ==> x.id in roots && roots[x.id] == root.value)
              && (parent.Some? ==> x.parent == parent)
  {
    if sessions != [] {
      var rest := Listed(sessions[1..], roots, root, parent);
      ListedIsSorted(sessions[1..], roots, root, parent);
      assert sessions == [sessions[0]] + sessions[1..];
      if Wanted(sessions[0], roots, root, parent) {
        forall y | y in rest ensures y.id != sessions[0].id { assert y in sessions[1..]; }
        InsertKeepsSorted(sessions[0], rest);
      }
    }
  }

  /** `a` comes before `b`: it is the beginning of `b`, or has the smaller character where they first differ. */
  ghost predicate ComesBefore(a: string, b: string) {
    (a <= b && a != b) || exists k :: DiffersAt(a, b, k)
  }

  predicate DiffersAt(a: string, b: string, k: int) {
    0 <= k < |a| && k < |b| && a[..k] == b[..k] && a[k] as int < b[k] as int
  }

  lemma DiffersCons(c: char, x: string, y: string, k: nat)
    ensures DiffersAt([c] + x, [c] + y, k + 1) <==> DiffersAt(x, y, k)
    ensures !DiffersAt([c] + x, [c] + y, 0)
  {
    if k < |x| && k < |y| {
      assert ([c] + x)[..k + 1] == [c] + x[..k] && ([c] + y)[..k + 1] == [c] + y[..k];
      assert ([c] + x[..k])[1..] == x[..k] && ([c] + y[..k])[1..] == y[..k];
    }
  }

  lemma BeginsCons(c: char, x: string, y: string)
    ensures [c] + x <= [c] + y <==> x <= y
  {
    if x <= y { assert [c] + y == [c] + x + y[|x|..]; }
    if [c] + x <= [c] + y { assert ([c] + x)[1..] == x && ([c] + y)[1..] == y; }
  }

  lemma SameHead(c: char, x: string, y: string)
    ensures ComesBefore([c] + x, [c] + y) <==> ComesBefore(x, y)
  {
    var a, b := [c] + x, [c] + y;
    BeginsCons(c, x, y);
    if k :| DiffersAt(x, y, k) {
      DiffersCons(c, x, y, k);
      assert DiffersAt(a, b, k + 1);
    }
    if k :| DiffersAt(a, b, k) {
      DiffersCons(c, x, y, if k > 0 then k - 1 else 0);
      assert k > 0 && DiffersAt(x, y, k - 1);
    }
  }

  lemma OtherHead(a: string, b: string)
    requires a != "" && b != "" && a[0] != b[0]
    ensures ComesBefore(a, b) <==> a[0] < b[0]
  {
    forall k | 0 < k < |a| && k < |b| ensures !DiffersAt(a, b, k) {
      assert a[..k][0] != b[..k][0];
    }
    assert DiffersAt(a, b, 0) <==> a[0] < b[0] by { assert a[..0] == b[..0]; }
  }

  lemma {:induction false} LessIsComesBefore(a: string, b: string)
    ensures Less(a, b) <==> ComesBefore(a, b)
  {
    if a != "" && b != "" {
      if a[0] == b[0] {
        LessIsComesBefore(a[1..], b[1..]);
        assert a == [a[0]] + a[1..] && b == [b[0]] + b[1..];
        SameHead(a[0], a[1..], b[1..]);
      } else {
        OtherHead(a, b);
      }
      hide ComesBefore;
    } else {
      assert forall k :: !DiffersAt(a, b, k);
    }
  }

  /** A session updated later is listed before one updated earlier, and of two as late the one with the
      greater id. */
  lemma LaterIsListedFirst(sessions: seq<Session>, roots: map<string, string>, root: Option<string>, parent: Option<string>, i: nat, j: nat)
    requires DistinctIds(sessions)
    requires var listed := Listed(sessions, roots, root, parent);
             && i < |listed| && j < |listed|
             && (ComesBefore(listed[j].updatedAt, listed[i].updatedAt)
                 || (listed[j].updatedAt == listed[i].updatedAt && ComesBefore(listed[j].id, listed[i].id)))
    ensures i < j
  {
    var listed := Listed(sessions, roots, root, parent);
    ListedIsSorted(sessions, roots, root, parent);
    LessIsComesBefore(listed[j].updatedAt, listed[i].updatedAt);
    LessIsComesBefore(listed[j].id, listed[i].id);
    AboveIsAnOrder(listed[i], listed[j]);
    assert Above(listed[i], listed[j]);
    hide Above;
  }

  // ---------- the cursor

  function EncodeCursor(session: Session): string {
    TrimRight(Encode64(Utf8Encode(session.updatedAt + [NUL] + session.id)), '=')
  }

  /** The timestamp and id a cursor names; nothing when decoding raises. */
  function DecodeCursor(cursor: string): Option<(string, string)> {
    match Decode64(Pad(cursor))
    case None => None
    case Some(bytes) =>
      match Utf8Decode(bytes)
      case None => None
      case Some(text) => Partition(text, NUL)
  }

  /** One past the first session so named, or the end. */
  function IndexAfter(sessions: seq<Session>, key: (string, string)): (index: nat)
    ensures index <= |sessions|
  {
    if sessions == [] then 0
    else if (sessions[0].updatedAt, sessions[0].id) == key then 1
    else 1 + IndexAfter(sessions[1..], key)
  }

  function CursorIndex(sessions: seq<Session>, cursor: Option<string>): (index: nat)
    ensures index <= |sessions| && (cursor.None? ==> index == 0)
  {
    if cursor.None? then 0
    else match DecodeCursor(cursor.value)
      case None => |sessions|
      case Some(key) => IndexAfter(sessions, key)
  }

  function ListPage(sessions: seq<Session>, cursor: Option<string>, limit: nat): Page
    requires limit > 0
  {
    var start := CursorIndex(sessions, cursor);
    var end := if start + limit < |sessions| then start + limit else |sessions|;
    var page := sessions[start..end];
    Page(page, if end < |sessions| && page != [] then Some(EncodeCursor(page[|page| - 1])) else None)
  }

  /** What makes cursors readable: no timestamp holds the separator. */
  predicate Stamped(sessions: seq<Session>) {
    forall x :: x in sessions ==> NUL !in x.updatedAt
  }

  /** A cursor decodes to the session it was printed for. */
  lemma CursorRoundTrip(session: Session)
    requires NUL !in session.updatedAt
    ensures DecodeCursor(EncodeCursor(session)) == Some((session.updatedAt, session.id))
  {
    var text := session.updatedAt + [NUL] + session.id;
    UnpaddedRoundTrip(Utf8Encode(text));
    Utf8RoundTrip(text);
    PartitionConcat(session.updatedAt, session.id, NUL);
  }

  lemma {:induction false} IndexAfterSession(sessions: seq<Session>, i: nat)
    requires i < |sessions| && DistinctIds(sessions)
    ensures IndexAfter(sessions, (sessions[i].updatedAt, sessions[i].id)) == i + 1
  {
    if i > 0 { IndexAfterSession(sessions[1..], i - 1); }
  }

  /** A page holds as many sessions as asked for, or what is left; there is another exactly when something
      is left behind it. */
  lemma PageFits(sessions: seq<Session>, cursor: Option<string>, limit: nat)
    requires limit > 0
    ensures var page, start := ListPage(sessions, cursor, limit), CursorIndex(sessions, cursor);
            && |page.items| == (if limit < |sessions| - start then limit else |sessions| - start)
            && (forall k :: 0 <= k < |page.items| ==> page.items[k] == sessions[start + k])
            && (page.next.Some? <==> start + limit < |sessions|)
  {}

  /** A cursor that does not decode is read as the end: an empty last page. */
  lemma UnreadableCursorEndsTheWalk(sessions: seq<Session>, cursor: string, limit: nat)
    requires limit > 0 && DecodeCursor(cursor).None?
    ensures ListPage(sessions, Some(cursor), limit) == Page([], None)
  {}

  /** The cursor printed for a session reads back as the index just after it. */
  lemma CursorIndexIsNext(sessions: seq<Session>, i: nat)
    requires i < |sessions| && DistinctIds(sessions) && NUL !in sessions[i].updatedAt
    ensures CursorIndex(sessions, Some(EncodeCursor(sessions[i]))) == i + 1
  {
    CursorRoundTrip(sessions[i]);
    IndexAfterSession(sessions, i);
  }

  // ---------- walking an unchanged list

  /** What a client that follows `next_cursor` to the end has been shown. */
  function Walk(sessions: seq<Session>, cursor: Option<string>, limit: nat): seq<Session>
    requires limit > 0 && DistinctIds(sessions) && Stamped(sessions)
    decreases |sessions| - CursorIndex(sessions, cursor)
  {
    var page := ListPage(sessions, cursor, limit);
    if page.next.None? then page.items
    else
      NextPageIsFurther(sessions, cursor, limit);
      page.items + Walk(sessions, page.next, limit)
  }

  lemma NextPageIsFurther(sessions: seq<Session>, cursor: Option<string>, limit: nat)
    requires limit > 0 && DistinctIds(sessions) && Stamped(sessions)
    ensures ListPage(sessions, cursor, limit).next.Some? ==>
              CursorIndex(sessions, ListPage(sessions, cursor, limit).next)
              == CursorIndex(sessions, cursor) + |ListPage(sessions, cursor, limit).items|
  {
    hide EncodeCursor;
    hide DecodeCursor;
    var page := ListPage(sessions, cursor, limit);
    if page.next.Some? {
      CursorIndexIsNext(sessions, CursorIndex(sessions, cursor) + |page.items| - 1);
    }
  }

  /** The walk ends, having shown every session from the cursor on exactly once and in order. */
  lemma {:induction false} WalkShowsAll(sessions: seq<Session>, cursor: Option<string>, limit: nat)
    requires limit > 0 && DistinctIds(sessions) && Stamped(sessions)
    ensures Walk(sessions, cursor, limit) == sessions[CursorIndex(sessions, cursor)..]
    decreases |sessions| - CursorIndex(sessions, cursor)
  {
    hide EncodeCursor;
    hide DecodeCursor;
    hide CursorIndex;
    var page := ListPage(sessions, cursor, limit);
    if page.next.Some? {
      NextPageIsFurther(sessions, cursor, limit);
      WalkShowsAll(sessions, page.next, limit);
    }
  }

  // ---------- walking a list that changes between requests

  /** The pages a client is given when its requests meet one listing after another. */
  function Drift(lists: seq<seq<Session>>, cursor: Option<string>, limit: nat): seq<Page>
    requires limit > 0
  {
    if lists == [] then []
    else
      var page := ListPage(lists[0], cursor, limit);
      [page] + if page.next.None? then [] else Drift(lists[1..], page.next, limit)
  }

  function Shown(pages: seq<Page>): seq<Session> {
    if pages == [] then [] else pages[0].items + Shown(pages[1..])
  }

  predicate Listing(sessions: seq<Session>) { Sorted(sessions) && DistinctIds(sessions) && Stamped(sessions) }

  ghost predicate Listings(lists: seq<seq<Session>>) {
    forall i :: 0 <= i < |lists| ==> Listing(lists[i])
  }

  /** A session is below the place the cursor names. */
  predicate Below(mark: Option<Session>, x: Session) { mark.None? || Above(mark.value, x) }

  function CursorOf(mark: Option<Session>): Option<string> {
    if mark.None? then None else Some(EncodeCursor(mark.value))
  }

  lemma PageContinuesBelow(sessions: seq<Session>, mark: Option<Session>, limit: nat)
    requires limit > 0 && Listing(sessions) && (mark.Some? ==> mark.value in sessions)
    ensures var page := ListPage(sessions, CursorOf(mark), limit);
            && Sorted(page.items)
            && (forall x :: x in page.items ==> x in sessions && Below(mark, x))
            && (page.next.Some? ==> page.items != [] && page.next == CursorOf(Some(page.items[|page.items| - 1])))
            && (forall x :: x in sessions && Below(mark, x) ==>
                  x in page.items || (page.next.Some? && Above(page.items[|page.items| - 1], x)))
  {
    hide EncodeCursor;
    hide DecodeCursor;
    hide Above;
    hide CursorIndex;
    var start := CursorIndex(sessions, CursorOf(mark));
    var page := ListPage(sessions, CursorOf(mark), limit);
    if mark.Some? {
      var k: nat :| k < |sessions| && sessions[k] == mark.value;
      CursorIndexIsNext(sessions, k);
    }
    forall x | x in sessions && Below(mark, x)
      ensures x in page.items || (page.next.Some? && Above(page.items[|page.items| - 1], x))
    {
      var i: nat :| i < |sessions| && sessions[i] == x;
      if i < start { AboveIsAnOrder(x, mark.value); AboveIsAnOrder(x, x); }
      else if i < start + |page.items| { assert page.items[i - start] == x; }
    }
  }

  lemma DriftShows(lists: seq<seq<Session>>, cursor: Option<string>, limit: nat)
    requires limit > 0 && lists != []
    ensures var page := ListPage(lists[0], cursor, limit);
            Shown(Drift(lists, cursor, limit)) ==
            page.items + if page.next.None? then [] else Shown(Drift(lists[1..], page.next, limit))
  {
    hide ListPage;
    var page := ListPage(lists[0], cursor, limit);
    var rest := if page.next.None? then [] else Drift(lists[1..], page.next, limit);
    assert ([page] + rest)[1..] == rest;
  }

  /** A session that is updated or deleted between two requests takes its cursor with it: the walk
      ends there, whatever was left to show. */
  lemma LostMarkEndsTheWalk(sessions: seq<Session>, mark: Session, limit: nat)
    requires limit > 0 && NUL !in mark.updatedAt && !Names(sessions, mark)
    ensures ListPage(sessions, CursorOf(Some(mark)), limit) == Page([], None)
  {
    CursorRoundTrip(mark);
    NoIndexAfter(sessions, (mark.updatedAt, mark.id));
  }

  lemma {:induction false} NoIndexAfter(sessions: seq<Session>, key: (string, string))
    requires forall x :: x in sessions ==> (x.updatedAt, x.id) != key
    ensures IndexAfter(sessions, key) == |sessions|
  {
    if sessions != [] {
      assert sessions[0] in sessions;
      NoIndexAfter(sessions[1..], key);
    }
  }

  /** The session is listed, under the same timestamp. */
  predicate Names(sessions: seq<Session>, mark: Session) {
    exists x :: x in sessions && (x.updatedAt, x.id) == (mark.updatedAt, mark.id)
  }

  /** A cursor is as good as the session listed under its timestamp and id. */
  lemma Relisted(sessions: seq<Session>, mark: Session) returns (listed: Session)
    requires Names(sessions, mark)
    ensures listed in sessions && CursorOf(Some(listed)) == CursorOf(Some(mark))
    ensures forall x :: Below(Some(listed), x) <==> Below(Some(mark), x)
  {
    listed :| listed in sessions && (listed.updatedAt, listed.id) == (mark.updatedAt, mark.id);
  }

  /** A page holds sessions below its mark only, in order, and its cursor names its last one; while
      the mark is listed it leaves out only what lies further below. */
  lemma PageAfterMark(sessions: seq<Session>, mark: Option<Session>, limit: nat)
    requires limit > 0 && Listing(sessions) && (mark.Some? ==> NUL !in mark.value.updatedAt)
    ensures var page := ListPage(sessions, CursorOf(mark), limit);
            && Sorted(page.items)
            && (forall x :: x in page.items ==> x in sessions && Below(mark, x))
            && (page.next.Some? ==> page.items != [] && page.next == CursorOf(Some(page.items[|page.items| - 1]))
                                    && NUL !in page.items[|page.items| - 1].updatedAt)
            && (mark.Some? && !Names(sessions, mark.value) ==> page == Page([], None))
            && ((mark.Some? ==> Names(sessions, mark.value)) ==>
                  forall x :: x in sessions && Below(mark, x) ==>
                    x in page.items || (page.next.Some? && Above(page.items[|page.items| - 1], x)))
  {
    hide ListPage;
    hide EncodeCursor;
    hide Above;
    if mark.Some? && !Names(sessions, mark.value) {
      LostMarkEndsTheWalk(sessions, mark.value, limit);
    } else if mark.Some? {
      var listed := Relisted(sessions, mark.value);
      PageContinuesBelow(sessions, Some(listed), limit);
    } else {
      PageContinuesBelow(sessions, None, limit);
    }
  }

  /** However the listing changes between requests, what is shown descends strictly: nothing is
      shown twice. */
  lemma {:induction false} DriftNeverRepeats(lists: seq<seq<Session>>, mark: Option<Session>, limit: nat)
    requires limit > 0 && Listings(lists) && (mark.Some? ==> NUL !in mark.value.updatedAt)
    ensures Sorted(Shown(Drift(lists, CursorOf(mark), limit)))
    ensures forall x :: x in Shown(Drift(lists, CursorOf(mark), limit)) ==> Below(mark, x)
    decreases |lists|
  {
    hide EncodeCursor;
    hide ListPage;
    hide Above;
    hide Names;
    if lists != [] {
      var page := ListPage(lists[0], CursorOf(mark), limit);
      PageAfterMark(lists[0], mark, limit);
      DriftShows(lists, CursorOf(mark), limit);
      if page.next.Some? {
        var last := page.items[|page.items| - 1];
        var rest := Shown(Drift(lists[1..], page.next, limit));
        DriftNeverRepeats(lists[1..], Some(last), limit);
        SortedConcat(page.items, rest);
        assert last in page.items;
        forall x | x in rest ensures Below(mark, x) {
          if mark.Some? { AboveIsTransitive(mark.value, last, x); }
        }
      }
    }
  }

  /** The last page given carries no cursor. */
  predicate Finished(pages: seq<Page>) { pages != [] && pages[|pages| - 1].next.None? }

  /** Before `x` was shown, the session a cursor named was updated or deleted. */
  predicate MarkLostBefore(lists: seq<seq<Session>>, mark: Option<Session>, limit: nat, x: Session)
    requires limit > 0
  {
    lists != []
    && var page := ListPage(lists[0], CursorOf(mark), limit);
       || (mark.Some? && !Names(lists[0], mark.value))
       || (x !in page.items && page.next.Some? && page.items != []
           && MarkLostBefore(lists[1..], Some(page.items[|page.items| - 1]), limit, x))
  }

  /** A finished walk has shown a session that stayed listed throughout if and only if no cursor
      was lost before its turn came. */
  lemma {:induction false} DriftMissesExactlyWhen(lists: seq<seq<Session>>, mark: Option<Session>, limit: nat, x: Session)
    requires limit > 0 && Listings(lists) && (mark.Some? ==> NUL !in mark.value.updatedAt)
    requires Below(mark, x) && forall i :: 0 <= i < |lists| ==> x in lists[i]
    ensures Finished(Drift(lists, CursorOf(mark), limit)) ==>
              (x !in Shown(Drift(lists, CursorOf(mark), limit)) <==> MarkLostBefore(lists, mark, limit, x))
    decreases |lists|
  {
    hide EncodeCursor;
    hide ListPage;
    hide Above;
    hide Names;
    var pages := Drift(lists, CursorOf(mark), limit);
    if Finished(pages) {
      var page := ListPage(lists[0], CursorOf(mark), limit);
      PageAfterMark(lists[0], mark, limit);
      DriftShows(lists, CursorOf(mark), limit);
      assert x in lists[0];
      if page.next.Some? && x !in page.items {
        assert pages[1..] == Drift(lists[1..], page.next, limit);
        DriftMissesExactlyWhen(lists[1..], Some(page.items[|page.items| - 1]), limit, x);
      }
    }
  }
}
