/** The per-user, per-day usage rollup of backend/app/repositories/translation.py:173-215. */
module UsageRollup {
  datatype UsageRow = UsageRow(user: nat, date: int, requestCount: int, characterCount: int)

  /** One `increment` call. */
  datatype Call = Call(user: nat, date: int, characters: int)

  datatype Result<+T> = Ok(value: T) | MultipleResultsFound

  datatype Totals = Totals(requests: int, characters: int) {
    function Plus(requests': int, characters': int): Totals {
      Totals(requests + requests', characters + characters')
    }
  }

  /** The positions of the rows of a user and date. */
  function Positions(rows: seq<UsageRow>, user: nat, date: int): (ps: seq<nat>)
    ensures forall i | 0 <= i < |ps| ::
              ps[i] < |rows| && rows[ps[i]].user == user && rows[ps[i]].date == date
    ensures forall i | 0 <= i < |rows| && rows[i].user == user && rows[i].date == date :: i in ps
    ensures |ps| > 1 ==> ps[0] < ps[1]
  {
    if rows == [] then []
    else
      var n := |rows| - 1;
      var ps := Positions(rows[..n], user, date);
      if rows[n].user == user && rows[n].date == date then ps + [n] else ps
  }

  /** SUM over the rows a WHERE clause on user and date selects; COALESCE makes an empty sum 0. */
  function SumWhere(rows: seq<UsageRow>, p: (nat, int) -> bool): Totals {
    if rows == [] then Totals(0, 0)
    else
      var n := |rows| - 1;
      var rest := SumWhere(rows[..n], p);
      if p(rows[n].user, rows[n].date) then rest.Plus(rows[n].requestCount, rows[n].characterCount) else rest
  }

  /** The same totals taken over the plain log of calls: how many, and how many characters. */
  function LogTotals(log: seq<Call>, p: (nat, int) -> bool): Totals {
    if log == [] then Totals(0, 0)
    else
      var n := |log| - 1;
      var rest := LogTotals(log[..n], p);
      if p(log[n].user, log[n].date) then rest.Plus(1, log[n].characters) else rest
  }

  function Since(since: int): (nat, int) -> bool {
    (_, date) => date >= since
  }

  function OfUser(user: nat): (nat, int) -> bool {
    (u, _) => u == user
  }

  /** At most one row per (user, date), the table's unique constraint. */
  predicate UniqueKeys(rows: seq<UsageRow>) {
    forall i, j | 0 <= i < j < |rows| :: !(rows[i].user == rows[j].user && rows[i].date == rows[j].date)
  }

  /** The rollup agrees with the log on every selection by user and date. */
  ghost predicate Agrees(rows: seq<UsageRow>, log: seq<Call>) {
    forall p: (nat, int) -> bool :: SumWhere(rows, p) == LogTotals(log, p)
  }

  class TranslationUsageRepository {
    var rows: seq<UsageRow>
    ghost var log: seq<Call>

    ghost predicate Valid()
      reads this
    {
      UniqueKeys(rows) && Agrees(rows, log)
    }

    constructor ()
      ensures Valid() && log == []
    {
      rows, log := [], [];
    }

    /** Two rows for the key make the lookup fail and nothing is written. In a table kept by this
        method that never happens: whatever sequence of calls was made, every total equals the total
        over the calls themselves. */
    method Increment(user: nat, date: int, characters: int) returns (r: Result<UsageRow>)
      modifies this
      ensures r.Ok? <==> |Positions(old(rows), user, date)| <= 1
      ensures !r.Ok? ==> rows == old(rows) && log == old(log)
      ensures old(Valid()) ==> r.Ok? && Valid()
      ensures r.Ok? ==> log == old(log) + [Call(user, date, characters)]
      ensures r.Ok? ==>
                var found := Positions(old(rows), user, date);
                if found == [] then
                  && r.value == UsageRow(user, date, 1, characters)
                  && rows == old(rows) + [r.value]
                else
                  var row := old(rows)[found[0]];
                  && r.value == UsageRow(user, date, row.requestCount + 1, row.characterCount + characters)
                  && rows == old(rows)[found[0] := r.value]
    {
      hide Agrees, Positions;
      var found := Positions(rows, user, date);
      if |found| > 1 {
        if UniqueKeys(rows) { NoTwoPositions(rows, user, date); }
        return MultipleResultsFound;
      }
      log := log + [Call(user, date, characters)];
      if found != [] {
        var row := rows[found[0]];
        row := row.(requestCount := row.requestCount + 1);
        row := row.(characterCount := row.characterCount + characters);
        if Agrees(rows, old(log)) { AgreeAfterUpdate(rows, old(log), found[0], characters); }
        rows := rows[found[0] := row];
        r := Ok(row);
      } else {
        var row := UsageRow(user, date, 1, characters);
        if Agrees(rows, old(log)) { AgreeAfterInsert(rows, old(log), row); }
        rows := rows + [row];
        r := Ok(row);
      }
    }

    method TotalsSince(since: int) returns (t: Totals)
      requires Valid()
      ensures t == LogTotals(log, Since(since))
      ensures t.requests == |set i | 0 <= i < |log| && log[i].date >= since|
      ensures t.characters == CharactersSince(log, since)
    {
      t := SumWhere(rows, Since(since));
      LogTotalsCount(log, Since(since));
      SinceTotals(log, since);
      assert (set i | 0 <= i < |log| && log[i].date >= since) == Selected(log, Since(since));
    }

    method TotalsForUser(user: nat) returns (t: Totals)
      requires Valid()
      ensures t == LogTotals(log, OfUser(user))
      ensures t.requests == |set i | 0 <= i < |log| && log[i].user == user|
      ensures t.characters == CharactersOf(log, user)
    {
      t := SumWhere(rows, OfUser(user));
      LogTotalsCount(log, OfUser(user));
      UserTotals(log, user);
      assert (set i | 0 <= i < |log| && log[i].user == user) == Selected(log, OfUser(user));
    }
  }

  /** The characters of the calls since a date. */
  function CharactersSince(log: seq<Call>, since: int): int {
    if log == [] then 0
    else
      var last := log[|log| - 1];
      CharactersSince(log[..|log| - 1], since) + (if last.date >= since then last.characters else 0)
  }

  /** The characters of a user's calls. */
  function CharactersOf(log: seq<Call>, user: nat): int {
    if log == [] then 0
    else
      var last := log[|log| - 1];
      CharactersOf(log[..|log| - 1], user) + (if last.user == user then last.characters else 0)
  }

  lemma {:induction false} SinceTotals(log: seq<Call>, since: int)
    ensures LogTotals(log, Since(since)).characters == CharactersSince(log, since)
  {
    if log != [] { SinceTotals(log[..|log| - 1], since); }
  }

  lemma {:induction false} UserTotals(log: seq<Call>, user: nat)
    ensures LogTotals(log, OfUser(user)).characters == CharactersOf(log, user)
  {
    if log != [] { UserTotals(log[..|log| - 1], user); }
  }

  function Selected(log: seq<Call>, p: (nat, int) -> bool): set<int> {
    set i | 0 <= i < |log| && p(log[i].user, log[i].date)
  }

  /** The requests of a selection are as many as the calls it selects. */
  lemma {:induction false} LogTotalsCount(log: seq<Call>, p: (nat, int) -> bool)
    ensures LogTotals(log, p).requests == |Selected(log, p)|
  {
    if log == [] {
      assert Selected(log, p) == {};
    } else {
      hide Selected;
      var n := |log| - 1;
      LogTotalsCount(log[..n], p);
      SelectedNext(log, p);
    }
  }

  lemma SelectedNext(log: seq<Call>, p: (nat, int) -> bool)
    requires log != []
    ensures var n := |log| - 1;
            |Selected(log, p)| == |Selected(log[..n], p)| + (if p(log[n].user, log[n].date) then 1 else 0)
  {
    var n := |log| - 1;
    assert Selected(log, p) == Selected(log[..n], p) + (if p(log[n].user, log[n].date) then {n} else {});
  }

  lemma NoTwoPositions(rows: seq<UsageRow>, user: nat, date: int)
    requires UniqueKeys(rows)
    ensures |Positions(rows, user, date)| <= 1
  {
  }

  /** Changing one row changes a sum by that row's change. */
  lemma {:induction false} SumAfterUpdate(rows: seq<UsageRow>, i: nat, row: UsageRow, p: (nat, int) -> bool)
    requires i < |rows| && rows[i].user == row.user && rows[i].date == row.date
    ensures SumWhere(rows[i := row], p)
            == if p(row.user, row.date)
               then SumWhere(rows, p).Plus(row.requestCount - rows[i].requestCount,
                                           row.characterCount - rows[i].characterCount)
               else SumWhere(rows, p)
  {
    var n := |rows| - 1;
    if i == n {
      assert rows[i := row][..n] == rows[..n];
    } else {
      assert rows[i := row][..n] == rows[..n][i := row];
      SumAfterUpdate(rows[..n], i, row, p);
    }
  }

  lemma AgreeAfterUpdate(rows: seq<UsageRow>, log: seq<Call>, i: nat, characters: int)
    requires i < |rows| && Agrees(rows, log)
    ensures Agrees(rows[i := UsageRow(rows[i].user, rows[i].date, rows[i].requestCount + 1,
                                      rows[i].characterCount + characters)],
                   log + [Call(rows[i].user, rows[i].date, characters)])
  {
    var row := UsageRow(rows[i].user, rows[i].date, rows[i].requestCount + 1,
                        rows[i].characterCount + characters);
    var log' := log + [Call(row.user, row.date, characters)];
    assert log'[..|log|] == log;
    forall p: (nat, int) -> bool ensures SumWhere(rows[i := row], p) == LogTotals(log', p) {
      SumAfterUpdate(rows, i, row, p);
      assert SumWhere(rows, p) == LogTotals(log, p);
    }
  }

  lemma AgreeAfterInsert(rows: seq<UsageRow>, log: seq<Call>, row: UsageRow)
    requires Agrees(rows, log) && row.requestCount == 1
    ensures Agrees(rows + [row], log + [Call(row.user, row.date, row.characterCount)])
  {
    var rows', log' := rows + [row], log + [Call(row.user, row.date, row.characterCount)];
    assert rows'[..|rows|] == rows && log'[..|log|] == log;
    forall p: (nat, int) -> bool ensures SumWhere(rows', p) == LogTotals(log', p) {
      assert SumWhere(rows, p) == LogTotals(log, p);
    }
  }

  /** A row's counters are exactly the calls for its key: agreement on every selection pins down
      every single row. */
  lemma RowsAreExact(rows: seq<UsageRow>, log: seq<Call>, i: nat)
    requires UniqueKeys(rows) && Agrees(rows, log) && i < |rows|
    ensures var k := (u: nat, d: int) => u == rows[i].user && d == rows[i].date;
            LogTotals(log, k) == Totals(rows[i].requestCount, rows[i].characterCount)
  {
    var k := (u: nat, d: int) => u == rows[i].user && d == rows[i].date;
    assert SumWhere(rows, k) == LogTotals(log, k);
    SumOfOne(rows, i, k);
  }

  lemma {:induction false} SumOfOne(rows: seq<UsageRow>, i: nat, k: (nat, int) -> bool)
    requires i < |rows|
    requires forall j | 0 <= j < |rows| :: k(rows[j].user, rows[j].date) <==> i == j
    ensures SumWhere(rows, k) == Totals(rows[i].requestCount, rows[i].characterCount)
  {
    var n := |rows| - 1;
    if i == n {
      SumOfNone(rows[..n], k);
    } else {
      SumOfOne(rows[..n], i, k);
    }
  }

  lemma {:induction false} SumOfNone(rows: seq<UsageRow>, k: (nat, int) -> bool)
    requires forall j | 0 <= j < |rows| :: !k(rows[j].user, rows[j].date)
    ensures SumWhere(rows, k) == Totals(0, 0)
  {
    if rows != [] { SumOfNone(rows[..|rows| - 1], k); }
  }
}
