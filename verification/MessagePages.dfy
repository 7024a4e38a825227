/** Keyset pagination of a conversation (backend/app/repositories/messages.py:30-52) and the client
    that walks its pages backwards (apps/mobile/app/messages/[conversationId].tsx:263-282). */
module MessagePages {
  import opened Options

  datatype Message = Message(id: nat, conversation: nat, createdAt: int)

  datatype Query = Query(conversation: nat, before: Option<int>, limit: nat, clearedAt: Option<int>)

  /** The rows of the conversation the member may see at all. */
  function Visible(table: set<Message>, conversation: nat, clearedAt: Option<int>): set<Message> {
    set m <- table | m.conversation == conversation && (clearedAt.Some? ==> m.createdAt > clearedAt.value)
  }

  /** The WHERE clause. */
  function Matching(table: set<Message>, q: Query): set<Message> {
    set m <- Visible(table, q.conversation, q.clearedAt) | q.before.Some? ==> m.createdAt < q.before.value
  }

  predicate Descending(page: seq<Message>) {
    forall i, j | 0 <= i < j < |page| :: page[i].createdAt >= page[j].createdAt
  }

  predicate NoRepeats(page: seq<Message>) {
    forall i, j | 0 <= i < j < |page| :: page[i] != page[j]
  }

  /** `page` is a possible answer of ORDER BY created_at DESC LIMIT limit: the order of rows with
      equal timestamps, and which of them the limit cuts off, is up to the database. */
  ghost predicate Answers(page: seq<Message>, table: set<Message>, q: Query) {
    TopOf(page, Matching(table, q), q.limit)
  }

  ghost predicate TopOf(page: seq<Message>, rows: set<Message>, limit: nat) {
    && Descending(page) && NoRepeats(page)
    && (forall m <- page :: m in rows)
    && |page| == (if |rows| <= limit then |rows| else limit)
    && (forall m <- page, r <- rows :: r !in page ==> m.createdAt >= r.createdAt)
  }

  /** The query with ties broken by repeated choice of a latest row. */
  ghost function ListForConversation(table: set<Message>, q: Query): seq<Message>
  {
    Latest(Matching(table, q), q.limit)
  }

  ghost function Latest(rows: set<Message>, limit: nat): (page: seq<Message>)
    decreases limit
  {
    if limit == 0 || rows == {} then []
    else
      LatestExists(rows);
      var m :| m in rows && forall r <- rows :: m.createdAt >= r.createdAt;
      [m] + Latest(rows - {m}, limit - 1)
  }

  lemma LatestExists(rows: set<Message>)
    requires rows != {}
    ensures exists m :: m in rows && forall r <- rows :: m.createdAt >= r.createdAt
  {
    var m :| m in rows;
    if rows == {m} {
    } else {
      var rest := rows - {m};
      LatestExists(rest);
      var n :| n in rest && forall r <- rest :: n.createdAt >= r.createdAt;
      var top := if m.createdAt >= n.createdAt then m else n;
      assert top in rows && forall r <- rows :: top.createdAt >= r.createdAt;
    }
  }

  lemma {:induction false} LatestIsTop(rows: set<Message>, limit: nat)
    ensures TopOf(Latest(rows, limit), rows, limit)
    decreases limit
  {
    if limit > 0 && rows != {} {
      hide Latest, TopOf;
      var m := FirstOfLatest(rows, limit);
      LatestIsTop(rows - {m}, limit - 1);
      TopStep(m, Latest(rows - {m}, limit - 1), rows, limit);
    }
  }

  lemma FirstOfLatest(rows: set<Message>, limit: nat) returns (m: Message)
    requires limit > 0 && rows != {}
    ensures m in rows && forall r <- rows :: m.createdAt >= r.createdAt
    ensures Latest(rows, limit) == [m] + Latest(rows - {m}, limit - 1)
  {
    LatestExists(rows);
    m := Latest(rows, limit)[0];
  }

  lemma TopStep(m: Message, rest: seq<Message>, rows: set<Message>, limit: nat)
    requires limit > 0 && m in rows && forall r <- rows :: m.createdAt >= r.createdAt
    requires TopOf(rest, rows - {m}, limit - 1)
    ensures TopOf([m] + rest, rows, limit)
  {
    var page := [m] + rest;
    StepOrder(m, rest, rows);
    forall x <- page, r <- rows | r !in page ensures x.createdAt >= r.createdAt {
      assert r in rows - {m} && r !in rest;
    }
  }

  lemma StepOrder(m: Message, rest: seq<Message>, rows: set<Message>)
    requires m in rows && forall r <- rows :: m.createdAt >= r.createdAt
    requires Descending(rest) && NoRepeats(rest) && forall x <- rest :: x in rows - {m}
    ensures Descending([m] + rest) && NoRepeats([m] + rest) && forall x <- [m] + rest :: x in rows
  {
    var page := [m] + rest;
    forall i, j | 0 <= i < j < |page| ensures page[i].createdAt >= page[j].createdAt && page[i] != page[j] {
      assert rest[j - 1] in rest;
    }
  }

  lemma QueryAnswers(table: set<Message>, q: Query)
    ensures Answers(ListForConversation(table, q), table, q)
  {
    LatestIsTop(Matching(table, q), q.limit);
  }

  /** What an answer is, row by row: distinct rows of the conversation, sent before `before` and after
      `clearedAt` where these are given, newest first, at most `limit`; and a row of that kind is left
      out only of a full page, and only if no row on the page is earlier. */
  lemma AnswersIff(page: seq<Message>, table: set<Message>, q: Query)
    ensures Answers(page, table, q) <==>
            && (forall i, j | 0 <= i < j < |page| :: page[i] != page[j] && page[i].createdAt >= page[j].createdAt)
            && (forall m <- page ::
                  && m in table && m.conversation == q.conversation
                  && (q.before.Some? ==> m.createdAt < q.before.value)
                  && (q.clearedAt.Some? ==> m.createdAt > q.clearedAt.value))
            && |page| <= q.limit
            && (forall r <- table ::
                  && r.conversation == q.conversation
                  && (q.before.Some? ==> r.createdAt < q.before.value)
                  && (q.clearedAt.Some? ==> r.createdAt > q.clearedAt.value)
                  && r !in page
                  ==> |page| == q.limit && forall m <- page :: m.createdAt >= r.createdAt)
  {
    var rows := Matching(table, q);
    MatchingIs(table, q);
    hide Matching;
    if Descending(page) && NoRepeats(page) && forall m <- page :: m in rows {
      ElementCount(page);
      SubsetSize(Elements(page), rows);
      if |page| < |rows| {
        assert Elements(page) != rows;
        var r :| r in rows && r !in Elements(page);
      }
    }
  }

  lemma MatchingIs(table: set<Message>, q: Query)
    ensures forall m :: m in Matching(table, q) <==>
              && m in table && m.conversation == q.conversation
              && (q.before.Some? ==> m.createdAt < q.before.value)
              && (q.clearedAt.Some? ==> m.createdAt > q.clearedAt.value)
  {
  }

  // ---------------------------------------------------------------------------------------------
  // Walking the pages

  /** A client's walk: fetch i saw `tables[i]` and got `pages[i]`; the first fetch has no `before`,
      every later one the timestamp of the last row shown. The walk goes on only after a page with
      rows. */
  ghost predicate Walk(tables: seq<set<Message>>, pages: seq<seq<Message>>, conversation: nat,
                       limit: nat, clearedAt: Option<int>)
    decreases |pages|
  {
    && |tables| == |pages| > 0
    && var n := |pages| - 1;
       if n == 0 then Answers(pages[0], tables[0], Query(conversation, None, limit, clearedAt))
       else
         && Walk(tables[..n], pages[..n], conversation, limit, clearedAt)
         && pages[n - 1] != []
         && Answers(pages[n], tables[n], Query(conversation, Some(Last(pages[n - 1])), limit, clearedAt))
  }

  function Last(page: seq<Message>): int
    requires page != []
  {
    page[|page| - 1].createdAt
  }

  /** What the walk has shown, in order. */
  function Shown(pages: seq<seq<Message>>): seq<Message> {
    if pages == [] then [] else Shown(pages[..|pages| - 1]) + pages[|pages| - 1]
  }

  /** The client stops asking after a page shorter than the limit. */
  predicate Complete(pages: seq<seq<Message>>, limit: nat) {
    pages != [] && |pages[|pages| - 1]| < limit
  }

  /** While the walk goes on rows are only added to the conversation, each later than everything
      visible at its start. */
  ghost predicate OnlyLaterArrive(tables: seq<set<Message>>, conversation: nat, clearedAt: Option<int>) {
    forall i | 0 <= i < |tables| ::
      LaterAdded(Visible(tables[0], conversation, clearedAt), Visible(tables[i], conversation, clearedAt))
  }

  /** `now` is the start with later rows added. */
  ghost predicate LaterAdded(start: set<Message>, now: set<Message>) {
    start <= now && forall m <- now - start, s <- start :: m.createdAt > s.createdAt
  }

  function Elements(page: seq<Message>): set<Message> {
    set m <- page
  }

  function From(rows: set<Message>, t: int): set<Message> {
    set m <- rows | m.createdAt >= t
  }

  function Before(rows: set<Message>, t: int): set<Message> {
    set m <- rows | m.createdAt < t
  }

  /** Cut off from the latest row on, the rows fall into pages of `limit` rows and a shorter rest so
      that no timestamp is on both sides of a cut. */
  ghost predicate NoSplit(rows: set<Message>, limit: nat)
    requires limit >= 1
    decreases rows
  {
    || |rows| < limit
    || exists m <- rows :: |From(rows, m.createdAt)| == limit && NoSplit(Before(rows, m.createdAt), limit)
  }

  // Sizes

  lemma {:induction false} ElementCount(page: seq<Message>)
    requires NoRepeats(page)
    ensures |Elements(page)| == |page|
  {
    if page != [] {
      var init, last := page[..|page| - 1], page[|page| - 1];
      ElementCount(init);
      assert Elements(page) == Elements(init) + {last};
    }
  }

  lemma SubsetSize(a: set<Message>, b: set<Message>)
    requires a <= b
    ensures |a| <= |b|
    ensures |a| == |b| ==> a == b
  {
    assert b == a + (b - a);
  }

  // One page

  /** The rows a walk has yet to show after a page: none after an empty one. */
  function Remaining(rows: set<Message>, page: seq<Message>): set<Message> {
    if page == [] then {} else Before(rows, Last(page))
  }

  /** A page shows the rows it leaves behind, and the rest splits no timestamp exactly if the whole
      does. */
  ghost predicate CleanPage(page: seq<Message>, rows: set<Message>, limit: nat)
    requires limit >= 1
  {
    var rest := Remaining(rows, page);
    Elements(page) == rows - rest && (NoSplit(rows, limit) <==> NoSplit(rest, limit))
  }

  /** A page leaves a row behind that no later page can show. */
  ghost predicate LossyPage(page: seq<Message>, rows: set<Message>, limit: nat)
    requires limit >= 1
  {
    !NoSplit(rows, limit) && exists m <- rows - Remaining(rows, page) :: m !in page
  }

  lemma PageIsCleanOrLossy(page: seq<Message>, rows: set<Message>, limit: nat)
    requires limit >= 1 && TopOf(page, rows, limit)
    ensures |page| < limit ==> Remaining(rows, page) == {}
    ensures CleanPage(page, rows, limit) || LossyPage(page, rows, limit)
  {
    hide NoSplit;
    ElementCount(page);
    SubsetSize(Elements(page), rows);
    if |page| < limit {
      ShortPage(page, rows, limit);
    } else {
      FullPage(page, rows, limit);
    }
  }

  lemma ShortPage(page: seq<Message>, rows: set<Message>, limit: nat)
    requires |page| < limit && TopOf(page, rows, limit) && Elements(page) == rows
    ensures Remaining(rows, page) == {} && CleanPage(page, rows, limit)
  {
    if page != [] {
      forall m | m in rows ensures m !in Before(rows, Last(page)) {
        assert m in Elements(page);
      }
    }
    assert |rows| < limit;
  }

  lemma FullPage(page: seq<Message>, rows: set<Message>, limit: nat)
    requires |page| == limit >= 1 && TopOf(page, rows, limit) && |Elements(page)| == limit
    ensures CleanPage(page, rows, limit) || LossyPage(page, rows, limit)
  {
    hide NoSplit, TopOf, CleanPage, LossyPage;
    var down := From(rows, Last(page));
    LeftBehind(page, rows, limit);
    SubsetSize(Elements(page), down);
    if |down| == limit {
      FullIsClean(page, rows, limit);
    } else {
      FullIsLossy(page, rows, limit);
    }
  }

  lemma LeftBehind(page: seq<Message>, rows: set<Message>, limit: nat)
    requires page != [] && TopOf(page, rows, limit)
    ensures Remaining(rows, page) == rows - From(rows, Last(page))
    ensures Elements(page) <= From(rows, Last(page)) <= rows && page[|page| - 1] in rows
  {
    assert page[|page| - 1] in page;
  }

  lemma FullIsClean(page: seq<Message>, rows: set<Message>, limit: nat)
    requires |page| == limit >= 1 && TopOf(page, rows, limit) && |Elements(page)| == limit
    requires Elements(page) == From(rows, Last(page))
    ensures CleanPage(page, rows, limit)
  {
    hide NoSplit, TopOf;
    LeftBehind(page, rows, limit);
    CutOnce(rows, page[|page| - 1], limit);
    assert rows - (rows - Elements(page)) == Elements(page);
  }

  lemma FullIsLossy(page: seq<Message>, rows: set<Message>, limit: nat)
    requires |page| == limit >= 1 && TopOf(page, rows, limit) && |Elements(page)| == limit
    requires |From(rows, Last(page))| > limit
    ensures LossyPage(page, rows, limit)
  {
    hide NoSplit, TopOf;
    LeftBehind(page, rows, limit);
    NoCutInside(page, rows, limit);
    var missed := From(rows, Last(page)) - Elements(page);
    assert From(rows, Last(page)) == Elements(page) + missed;
    var m :| m in missed;
    assert m in rows - Remaining(rows, page) && m !in page;
  }

  /** The first cut is unique. */
  lemma CutOnce(rows: set<Message>, last: Message, limit: nat)
    requires last in rows && |From(rows, last.createdAt)| == limit >= 1
    ensures NoSplit(rows, limit) <==> NoSplit(Before(rows, last.createdAt), limit)
  {
    var down := From(rows, last.createdAt);
    SubsetSize(down, rows);
    if NoSplit(rows, limit) {
      var m :| m in rows && |From(rows, m.createdAt)| == limit && NoSplit(Before(rows, m.createdAt), limit);
      if m.createdAt <= last.createdAt { SubsetSize(down, From(rows, m.createdAt)); }
      else { SubsetSize(From(rows, m.createdAt), down); }
      assert m in From(rows, m.createdAt) && last in down;
    }
  }

  /** Where more than `limit` rows reach down to the last row of a full page there is no first cut. */
  lemma NoCutInside(page: seq<Message>, rows: set<Message>, limit: nat)
    requires |page| == limit >= 1 && TopOf(page, rows, limit) && |Elements(page)| == limit
    requires |From(rows, Last(page))| > limit
    ensures !NoSplit(rows, limit)
  {
    var last := page[|page| - 1];
    SubsetSize(From(rows, Last(page)), rows);
    if NoSplit(rows, limit) {
      var m :| m in rows && |From(rows, m.createdAt)| == limit;
      if m.createdAt <= Last(page) {
        SubsetSize(From(rows, Last(page)), From(rows, m.createdAt));
      } else {
        assert last in Elements(page) && last !in From(rows, m.createdAt);
        assert From(rows, m.createdAt) <= Elements(page);
        SubsetSize(From(rows, m.createdAt), Elements(page));
      }
      assert false;
    }
  }

  // ---------------------------------------------------------------------------------------------
  // Whole walks

  /** Rows that arrive later never match a `before` taken from the rows visible at the start. */
  lemma LaterRowsNeverMatch(start: set<Message>, table: set<Message>, q: Query)
    requires q.before.Some? && exists s <- start :: s.createdAt == q.before.value
    requires LaterAdded(start, Visible(table, q.conversation, q.clearedAt))
    ensures Matching(table, q) == Before(start, q.before.value)
  {
  }

  /** After some pages: the order of what was shown, and where it came from. */
  ghost predicate Sorted(shown: seq<Message>, last: seq<Message>, start: set<Message>) {
    && Descending(shown) && NoRepeats(shown) && Elements(shown) <= start - Remaining(start, last)
    && (last != [] ==> last[|last| - 1] in start)
  }

  /** After some pages: everything left behind was shown, or something is lost for good. */
  ghost predicate Accounted(shown: seq<Message>, last: seq<Message>, start: set<Message>, limit: nat)
    requires limit >= 1
  {
    var rest := Remaining(start, last);
    || (Elements(shown) == start - rest && (NoSplit(start, limit) <==> NoSplit(rest, limit)))
    || (!NoSplit(start, limit) && exists m <- start - rest :: m !in shown)
  }

  ghost predicate After(shown: seq<Message>, last: seq<Message>, start: set<Message>, limit: nat)
    requires limit >= 1
  {
    && Sorted(shown, last, start) && Accounted(shown, last, start, limit)
    && (|last| < limit ==> Remaining(start, last) == {})
  }

  lemma AddPage(shown: seq<Message>, prev: seq<Message>, page: seq<Message>, start: set<Message>, limit: nat)
    requires limit >= 1 && prev != [] && After(shown, prev, start, limit)
    requires TopOf(page, Before(start, Last(prev)), limit)
    ensures After(shown + page, page, start, limit)
  {
    var rest := Before(start, Last(prev));
    PageIsCleanOrLossy(page, rest, limit);
    NextRemaining(page, start, Last(prev), limit);
    SortedGrows(shown, prev, page, start, limit);
    AccountedGrows(shown, prev, page, start, limit);
  }

  lemma NextRemaining(page: seq<Message>, start: set<Message>, t: int, limit: nat)
    requires TopOf(page, Before(start, t), limit)
    ensures Remaining(start, page) == Remaining(Before(start, t), page)
    ensures page != [] ==> page[|page| - 1] in start && Last(page) < t
  {
    if page != [] { assert page[|page| - 1] in page; }
  }

  lemma SortedGrows(shown: seq<Message>, prev: seq<Message>, page: seq<Message>, start: set<Message>,
                    limit: nat)
    requires prev != [] && Sorted(shown, prev, start)
    requires TopOf(page, Before(start, Last(prev)), limit)
    ensures Sorted(shown + page, page, start)
  {
    hide Visible;
    NextRemaining(page, start, Last(prev), limit);
    forall i | 0 <= i < |shown| ensures shown[i].createdAt >= Last(prev) {
      assert shown[i] in Elements(shown);
    }
    forall i | 0 <= i < |page| ensures page[i].createdAt < Last(prev) && page[i] in start {
      assert page[i] in page;
    }
    forall m | m in Elements(shown + page) ensures m in start - Remaining(start, page) {
      if m in shown { assert m in Elements(shown); }
    }
  }

  lemma AccountedGrows(shown: seq<Message>, prev: seq<Message>, page: seq<Message>, start: set<Message>,
                       limit: nat)
    requires limit >= 1 && prev != [] && Accounted(shown, prev, start, limit)
    requires var rest := Before(start, Last(prev));
             && Elements(page) <= rest && Remaining(start, page) == Remaining(rest, page)
             && (CleanPage(page, rest, limit) || LossyPage(page, rest, limit))
    ensures Accounted(shown + page, page, start, limit)
  {
    hide NoSplit;
    assert Elements(shown + page) == Elements(shown) + Elements(page);
    var rest, rest' := Before(start, Last(prev)), Remaining(start, page);
    assert rest' <= rest <= start && Remaining(start, prev) == rest;
    if Elements(shown) == start - rest && (NoSplit(start, limit) <==> NoSplit(rest, limit)) {
      if CleanPage(page, rest, limit) {
        assert (start - rest) + (rest - rest') == start - rest';
      } else {
        var m :| m in rest - rest' && m !in page;
        assert m !in Elements(shown) && m in start - rest' && m !in shown + page;
      }
    } else {
      var m :| m in start - rest && m !in shown;
      assert m !in Elements(page) && m in start - rest' && m !in shown + page;
    }
  }

  lemma {:induction false} WalkAfter(tables: seq<set<Message>>, pages: seq<seq<Message>>,
                                     conversation: nat, limit: nat, clearedAt: Option<int>)
    requires limit >= 1 && Walk(tables, pages, conversation, limit, clearedAt)
    requires OnlyLaterArrive(tables, conversation, clearedAt)
    ensures After(Shown(pages), pages[|pages| - 1], Visible(tables[0], conversation, clearedAt), limit)
    decreases |pages|
  {
    hide After, Answers, LaterAdded, Visible, Last;
    var start, n := Visible(tables[0], conversation, clearedAt), |pages| - 1;
    var init := pages[..n];
    if n == 0 {
      assert Shown(pages) == pages[0] by { assert Shown(init) == []; }
      FirstPage(pages[0], tables[0], Query(conversation, None, limit, clearedAt));
    } else {
      var prev := init[n - 1];
      WalkAfter(tables[..n], init, conversation, limit, clearedAt);
      NextPage(Shown(init), prev, pages[n], start, tables[n],
               Query(conversation, Some(Last(prev)), limit, clearedAt));
    }
  }

  lemma FirstPage(page: seq<Message>, table: set<Message>, q: Query)
    requires Answers(page, table, q) && q.before.None? && q.limit >= 1
    ensures After(page, page, Visible(table, q.conversation, q.clearedAt), q.limit)
  {
    var start := Visible(table, q.conversation, q.clearedAt);
    assert Matching(table, q) == start;
    PageIsCleanOrLossy(page, start, q.limit);
    forall m | m in Elements(page) ensures m in start - Remaining(start, page) {
      assert m in page;
    }
    if page != [] { assert page[|page| - 1] in page; }
  }

  lemma NextPage(shown: seq<Message>, prev: seq<Message>, page: seq<Message>, start: set<Message>,
                 table: set<Message>, q: Query)
    requires q.limit >= 1 && prev != [] && After(shown, prev, start, q.limit)
    requires LaterAdded(start, Visible(table, q.conversation, q.clearedAt))
    requires q.before == Some(Last(prev)) && Answers(page, table, q)
    ensures After(shown + page, page, start, q.limit)
  {
    assert prev[|prev| - 1] in start;
    LaterRowsNeverMatch(start, table, q);
    AddPage(shown, prev, page, start, q.limit);
  }

  /** After any number of pages the rows shown are rows visible at the start, each once, newest first,
      none earlier than the last one shown; and if no timestamp is split they are all of those. */
  lemma WalkShowsLatest(tables: seq<set<Message>>, pages: seq<seq<Message>>, conversation: nat, limit: nat,
                        clearedAt: Option<int>)
    requires limit >= 1 && Walk(tables, pages, conversation, limit, clearedAt)
    requires OnlyLaterArrive(tables, conversation, clearedAt)
    ensures Descending(Shown(pages)) && NoRepeats(Shown(pages))
    ensures var start, last := Visible(tables[0], conversation, clearedAt), pages[|pages| - 1];
            && Elements(Shown(pages)) <= start - Remaining(start, last)
            && (NoSplit(start, limit) ==> Elements(Shown(pages)) == start - Remaining(start, last))
    ensures forall m <- Shown(pages) ::
              m in tables[0] && m.conversation == conversation && (clearedAt.Some? ==> m.createdAt > clearedAt.value)
  {
    VisibleIs(tables[0], conversation, clearedAt);
    hide NoSplit, Walk, Visible, Remaining, OnlyLaterArrive;
    WalkAfter(tables, pages, conversation, limit, clearedAt);
    forall m | m in Shown(pages) ensures m in Visible(tables[0], conversation, clearedAt) {
      assert m in Elements(Shown(pages));
    }
  }

  lemma VisibleIs(table: set<Message>, conversation: nat, clearedAt: Option<int>)
    ensures Visible(table, conversation, clearedAt)
            == set m <- table | m.conversation == conversation && (clearedAt.Some? ==> m.createdAt > clearedAt.value)
  {
  }

  /** A walk that reached a short page has shown every message visible at its start exactly if the page
      size splits no timestamp: whatever arrived meanwhile, and whichever rows the database put first
      among equals. */
  lemma WalkIsCompleteIff(tables: seq<set<Message>>, pages: seq<seq<Message>>, conversation: nat, limit: nat,
                          clearedAt: Option<int>)
    requires limit >= 1 && Walk(tables, pages, conversation, limit, clearedAt) && Complete(pages, limit)
    requires OnlyLaterArrive(tables, conversation, clearedAt)
    ensures var start := set m <- tables[0] | m.conversation == conversation && (clearedAt.Some? ==> m.createdAt > clearedAt.value);
            Elements(Shown(pages)) == start <==> NoSplit(start, limit)
  {
    VisibleIs(tables[0], conversation, clearedAt);
    hide Walk, Visible, OnlyLaterArrive, Remaining, Sorted;
    WalkAfter(tables, pages, conversation, limit, clearedAt);
  }

  /** Every walk ends: it has at most one page more than there are messages. */
  lemma WalkTerminates(tables: seq<set<Message>>, pages: seq<seq<Message>>, conversation: nat, limit: nat,
                       clearedAt: Option<int>)
    requires limit >= 1 && Walk(tables, pages, conversation, limit, clearedAt)
    requires OnlyLaterArrive(tables, conversation, clearedAt)
    ensures |pages| <= |Visible(tables[0], conversation, clearedAt)| + 1
  {
    hide Visible, OnlyLaterArrive, Remaining, Accounted;
    WalkAfter(tables, pages, conversation, limit, clearedAt);
    ElementCount(Shown(pages));
    SubsetSize(Elements(Shown(pages)), Visible(tables[0], conversation, clearedAt));
    ShownLength(tables, pages, conversation, limit, clearedAt);
  }

  lemma {:induction false} ShownLength(tables: seq<set<Message>>, pages: seq<seq<Message>>,
                                       conversation: nat, limit: nat, clearedAt: Option<int>)
    requires Walk(tables, pages, conversation, limit, clearedAt)
    ensures |Shown(pages)| + 1 >= |pages| + (if pages[|pages| - 1] == [] then 0 else 1)
    decreases |pages|
  {
    var n := |pages| - 1;
    if n > 0 {
      assert pages[..n][n - 1] == pages[n - 1];
      ShownLength(tables[..n], pages[..n], conversation, limit, clearedAt);
    }
  }

  // ---------------------------------------------------------------------------------------------
  // Which tables are safe to page

  /** The page size of the client. */
  const RECENT_WINDOW: nat := 30

  /** Every walk that starts on this table and reaches a short page shows every visible message. */
  ghost predicate EveryWalkShowsAll(table: set<Message>, conversation: nat, limit: nat, clearedAt: Option<int>)
  {
    forall tables: seq<set<Message>>, pages |
      Walk(tables, pages, conversation, limit, clearedAt) && tables[0] == table
      && OnlyLaterArrive(tables, conversation, clearedAt) && Complete(pages, limit) ::
      Elements(Shown(pages)) == Visible(table, conversation, clearedAt)
  }

  /** Paging with a given page size loses no message exactly when it splits no timestamp. */
  lemma PagingIsSafeIff(table: set<Message>, conversation: nat, limit: nat, clearedAt: Option<int>)
    requires limit >= 1
    ensures var rows := set m <- table | m.conversation == conversation && (clearedAt.Some? ==> m.createdAt > clearedAt.value);
            EveryWalkShowsAll(table, conversation, limit, clearedAt) <==> NoSplit(rows, limit)
  {
    VisibleIs(table, conversation, clearedAt);
    hide NoSplit, Visible, Complete;
    var rows := Visible(table, conversation, clearedAt);
    forall tables: seq<set<Message>>, pages |
      Walk(tables, pages, conversation, limit, clearedAt) && tables[0] == table
      && OnlyLaterArrive(tables, conversation, clearedAt) && Complete(pages, limit)
      ensures Elements(Shown(pages)) == rows <==> NoSplit(rows, limit)
    {
      WalkIsCompleteIff(tables, pages, conversation, limit, clearedAt);
    }
    var tables, pages := QuietWalk(table, conversation, limit, clearedAt);
  }

  lemma UnchangedTables(tables: seq<set<Message>>, table: set<Message>, conversation: nat, clearedAt: Option<int>)
    requires tables != [] && forall i | 0 <= i < |tables| :: tables[i] == table
    ensures OnlyLaterArrive(tables, conversation, clearedAt)
  {
  }

  /** A walk over a table to which nothing is added, to its end. */
  lemma QuietWalk(table: set<Message>, conversation: nat, limit: nat, clearedAt: Option<int>)
    returns (tables: seq<set<Message>>, pages: seq<seq<Message>>)
    requires limit >= 1
    ensures Walk(tables, pages, conversation, limit, clearedAt) && Complete(pages, limit)
    ensures tables[0] == table && OnlyLaterArrive(tables, conversation, clearedAt)
  {
    hide Visible, Answers, OnlyLaterArrive;
    var q := Query(conversation, None, limit, clearedAt);
    QueryAnswers(table, q);
    tables, pages := WalkOn([table], [ListForConversation(table, q)], table, conversation, limit, clearedAt);
    UnchangedTables(tables, table, conversation, clearedAt);
  }

  /** A walk over an unchanging table can be carried on to its end. */
  lemma WalkOn(ts: seq<set<Message>>, ps: seq<seq<Message>>, table: set<Message>, conversation: nat,
               limit: nat, clearedAt: Option<int>)
    returns (tables: seq<set<Message>>, pages: seq<seq<Message>>)
    requires limit >= 1 && Walk(ts, ps, conversation, limit, clearedAt)
    requires forall i | 0 <= i < |ts| :: ts[i] == table
    ensures Walk(tables, pages, conversation, limit, clearedAt) && Complete(pages, limit)
    ensures tables != [] && forall i | 0 <= i < |tables| :: tables[i] == table
    decreases var last := ps[|ps| - 1];
              if last == [] then 0
              else 1 + |Before(Visible(table, conversation, clearedAt), Last(last))|
  {
    hide Answers, Visible, Before, Last, ListForConversation;
    var last := ps[|ps| - 1];
    if |last| < limit {
      return ts, ps;
    }
    var q := Query(conversation, Some(Last(last)), limit, clearedAt);
    var page := ListForConversation(table, q);
    QueryAnswers(table, q);
    var ts', ps' := ts + [table], ps + [page];
    assert ts'[..|ts|] == ts && ps'[..|ps|] == ps;
    FewerRemain(page, table, q);
    tables, pages := WalkOn(ts', ps', table, conversation, limit, clearedAt);
  }

  lemma FewerRemain(page: seq<Message>, table: set<Message>, q: Query)
    requires Answers(page, table, q) && q.before.Some?
    ensures page != [] ==> var rows := Visible(table, q.conversation, q.clearedAt);
                           |Before(rows, Last(page))| < |Before(rows, q.before.value)|
  {
    if page != [] {
      var rows, m := Visible(table, q.conversation, q.clearedAt), page[|page| - 1];
      assert m in page;
      assert m in Before(rows, q.before.value) - Before(rows, Last(page));
      SubsetSize(Before(rows, Last(page)), Before(rows, q.before.value));
    }
  }

  predicate DistinctTimes(rows: set<Message>) {
    forall m <- rows, n <- rows :: m.createdAt == n.createdAt ==> m == n
  }

  /** Distinct timestamps are never split, and rows that pages of one row do not split have them. */
  lemma {:induction false} DistinctIsNeverSplit(rows: set<Message>, limit: nat)
    requires limit >= 1 && DistinctTimes(rows)
    ensures NoSplit(rows, limit)
    decreases rows
  {
    hide NoSplit;
    var page := Latest(rows, limit);
    LatestIsTop(rows, limit);
    PageIsCleanOrLossy(page, rows, limit);
    var rest := Remaining(rows, page);
    if page == [] {
      EmptyIsNotSplit(rest, limit);
    } else {
      assert page[|page| - 1] in page;
      assert page[|page| - 1] in rows - rest;
      forall m | m in rows - rest ensures m in page {}
      DistinctIsNeverSplit(rest, limit);
    }
  }

  lemma EmptyIsNotSplit(rows: set<Message>, limit: nat)
    requires limit >= 1 && rows == {}
    ensures NoSplit(rows, limit)
  {
  }

  lemma {:induction false} SinglesAreDistinct(rows: set<Message>)
    requires NoSplit(rows, 1)
    ensures DistinctTimes(rows)
    decreases rows
  {
    if rows != {} {
      var m :| m in rows && |From(rows, m.createdAt)| == 1 && NoSplit(Before(rows, m.createdAt), 1);
      SinglesAreDistinct(Before(rows, m.createdAt));
      SubsetSize({m}, From(rows, m.createdAt));
      forall a, b | a in rows && b in rows && a.createdAt == b.createdAt ensures a == b {
        if a.createdAt >= m.createdAt {
          assert a in From(rows, m.createdAt) && b in From(rows, m.createdAt);
        }
      }
    }
  }

  /** Paging loses no message whatever the page size exactly when no two visible messages share a
      timestamp. */
  lemma PagingIsSafeIffDistinct(table: set<Message>, conversation: nat, clearedAt: Option<int>)
    ensures (forall limit: nat | limit >= 1 :: EveryWalkShowsAll(table, conversation, limit, clearedAt))
            <==> DistinctTimes(set m <- table | m.conversation == conversation
                                                && (clearedAt.Some? ==> m.createdAt > clearedAt.value))
  {
    VisibleIs(table, conversation, clearedAt);
    hide NoSplit, Visible, EveryWalkShowsAll, DistinctTimes;
    var rows := Visible(table, conversation, clearedAt);
    forall limit: nat | limit >= 1
      ensures EveryWalkShowsAll(table, conversation, limit, clearedAt) <==> NoSplit(rows, limit)
      ensures DistinctTimes(rows) ==> NoSplit(rows, limit)
    {
      PagingIsSafeIff(table, conversation, limit, clearedAt);
      if DistinctTimes(rows) { DistinctIsNeverSplit(rows, limit); }
    }
    if EveryWalkShowsAll(table, conversation, 1, clearedAt) {
      assert NoSplit(rows, 1);
      SinglesAreDistinct(rows);
    }
  }

  // A conversation that is not safe

  /** Row i of a conversation, latest first: a row a second, except that rows 29 and 30, the last of
      the first page and the first of the second, have the same timestamp. */
  function Row(i: nat): Message {
    Message(i, 7, if i < RECENT_WINDOW then 1000 - i else 1001 - i)
  }

  function Rows(n: nat): set<Message> {
    if n == 0 then {} else Rows(n - 1) + {Row(n - 1)}
  }

  predicate IsRow(m: Message, n: nat) {
    m.id < n && m == Row(m.id)
  }

  lemma NextRow(m: Message, n: nat)
    requires n > 0
    ensures IsRow(m, n) <==> IsRow(m, n - 1) || m == Row(n - 1)
  {
  }

  lemma {:induction false} RowsAre(n: nat)
    ensures |Rows(n)| == n
    ensures forall m :: m in Rows(n) <==> IsRow(m, n)
  {
    if n > 0 {
      RowsAre(n - 1);
      var last := Row(n - 1);
      assert !IsRow(last, n - 1);
      assert |Rows(n - 1) + {last}| == |Rows(n - 1)| + 1;
      forall m ensures m in Rows(n) <==> IsRow(m, n) {
        NextRow(m, n);
      }
    }
  }

  lemma BoundaryIsSplit()
    ensures !NoSplit(Rows(RECENT_WINDOW + 1), RECENT_WINDOW)
  {
    hide Rows, From;
    var rows := Rows(RECENT_WINDOW + 1);
    RowsAre(RECENT_WINDOW + 1);
    forall m | m in rows ensures |From(rows, m.createdAt)| != RECENT_WINDOW {
      NoBoundaryAt(m);
    }
  }

  lemma NoBoundaryAt(m: Message)
    requires m in Rows(RECENT_WINDOW + 1)
    ensures |From(Rows(RECENT_WINDOW + 1), m.createdAt)| != RECENT_WINDOW
  {
    hide Rows;
    var rows := Rows(RECENT_WINDOW + 1);
    RowsAre(RECENT_WINDOW + 1);
    var n := if m.id < RECENT_WINDOW - 1 then m.id + 1 else RECENT_WINDOW + 1;
    RowsAre(n);
    assert From(rows, m.createdAt) == Rows(n);
  }

  /** Of 31 messages of which two share a timestamp the client never shows one: its first page ends
      between the two, and the second page is empty. */
  lemma BoundaryRowIsLost()
    ensures var table := Rows(31);
            && Visible(table, 7, None) == table && |table| == 31
            && (forall m <- table, n <- table :: m.createdAt == n.createdAt ==> m == n || {m.id, n.id} == {29, 30})
            && !EveryWalkShowsAll(table, 7, 30, None)
  {
    hide NoSplit, EveryWalkShowsAll, Rows;
    RowsAre(31);
    BoundaryIsSplit();
    var table := Rows(31);
    assert Visible(table, 7, None) == table;
    PagingIsSafeIff(table, 7, 30, None);
  }

  /** Every walk of the client over that conversation loses a message. */
  lemma EveryClientWalkLoses(tables: seq<set<Message>>, pages: seq<seq<Message>>)
    requires Walk(tables, pages, 7, 30, None) && Complete(pages, 30)
    requires tables[0] == Rows(31) && OnlyLaterArrive(tables, 7, None)
    ensures Elements(Shown(pages)) < Rows(31)
  {
    hide NoSplit, Rows, Complete, OnlyLaterArrive;
    RowsAre(31);
    BoundaryIsSplit();
    assert Visible(tables[0], 7, None) == tables[0];
    WalkIsCompleteIff(tables, pages, 7, 30, None);
    WalkShowsLatest(tables, pages, 7, 30, None);
  }
}
