/** The conference auto-promotion job (backend/app/tasks/scheduler.py:122-144) and the queries it
    loops over (backend/app/repositories/meetings.py:54-67, 109-116). */
module Promotion {
  import opened Options

  datatype MeetingStatus = Scheduled | Live | Ended | Cancelled
  datatype AdmissionStatus = Waiting | Admitted | Removed

  // ---------------------------------------------------------------------------------------------
  // Rows as values

  datatype MeetingRow = MeetingRow(id: nat, scheduledStartAt: Option<int>, status: MeetingStatus,
                                   actualStartAt: Option<int>)

  datatype ParticipantRow = ParticipantRow(id: nat, meetingId: nat, admissionStatus: AdmissionStatus)

  datatype World = World(meetings: seq<MeetingRow>, participants: seq<ParticipantRow>)

  /** The WHERE clause of `list_due_to_start`. */
  predicate Due(m: MeetingRow, now: int) {
    m.status in {Scheduled, Live} && m.scheduledStartAt.Some? && m.scheduledStartAt.value <= now
  }

  predicate DueId(meetings: seq<MeetingRow>, id: nat, now: int) {
    exists i | 0 <= i < |meetings| :: meetings[i].id == id && Due(meetings[i], now)
  }

  /** A participant the job must admit: waiting in a due meeting. */
  predicate ToAdmit(w: World, p: ParticipantRow, now: int) {
    p.admissionStatus == Waiting && DueId(w.meetings, p.meetingId, now)
  }

  function StartedAt(m: MeetingRow, now: int): MeetingRow {
    if Due(m, now) && m.status == Scheduled then m.(status := Live, actualStartAt := Some(now)) else m
  }

  function AdmittedAt(w: World, p: ParticipantRow, now: int): ParticipantRow {
    if ToAdmit(w, p, now) then p.(admissionStatus := Admitted) else p
  }

  /** What one run of the job is for, row by row. */
  function Promote(w: World, now: int): World {
    World(seq(|w.meetings|, i requires 0 <= i < |w.meetings| => StartedAt(w.meetings[i], now)),
          seq(|w.participants|, i requires 0 <= i < |w.participants| => AdmittedAt(w, w.participants[i], now)))
  }

  /** How many participants of a prefix of the table the job must admit. */
  function ToAdmitCount(w: World, now: int, n: nat): nat
    requires n <= |w.participants|
  {
    if n == 0 then 0
    else ToAdmitCount(w, now, n - 1) + (if ToAdmit(w, w.participants[n - 1], now) then 1 else 0)
  }

  predicate UniqueMeetingIds(meetings: seq<MeetingRow>) {
    forall i, j | 0 <= i < j < |meetings| :: meetings[i].id != meetings[j].id
  }

  // ---------------------------------------------------------------------------------------------
  // Rows as the objects the session hands out

  class Meeting {
    const id: nat
    const scheduledStartAt: Option<int>
    var status: MeetingStatus
    var actualStartAt: Option<int>

    constructor (row: MeetingRow)
      ensures Row() == row
    {
      id, scheduledStartAt, status, actualStartAt := row.id, row.scheduledStartAt, row.status, row.actualStartAt;
    }

    function Row(): MeetingRow
      reads this
    {
      MeetingRow(id, scheduledStartAt, status, actualStartAt)
    }
  }

  class Participant {
    const id: nat
    const meetingId: nat
    var admissionStatus: AdmissionStatus

    constructor (row: ParticipantRow)
      ensures Row() == row
    {
      id, meetingId, admissionStatus := row.id, row.meetingId, row.admissionStatus;
    }

    function Row(): ParticipantRow
      reads this
    {
      ParticipantRow(id, meetingId, admissionStatus)
    }
  }

  class Session {
    const meetings: seq<Meeting>
    const participants: seq<Participant>

    constructor (meetings: seq<Meeting>, participants: seq<Participant>)
      ensures this.meetings == meetings && this.participants == participants
    {
      this.meetings, this.participants := meetings, participants;
    }

    /** Each row is one object, and meeting ids are a primary key. */
    ghost predicate Valid()
      reads this, meetings
    {
      && (forall i, j | 0 <= i < j < |meetings| :: meetings[i].id != meetings[j].id)
      && (forall i, j | 0 <= i < j < |participants| :: participants[i] != participants[j])
    }

    ghost function View(): World
      reads this, meetings, participants
    {
      World(seq(|meetings|, i requires 0 <= i < |meetings| reads this, meetings => meetings[i].Row()),
            seq(|participants|, i requires 0 <= i < |participants| reads this, participants => participants[i].Row()))
    }

    function ListDueToStart(now: int, n: nat): (due: seq<Meeting>)
      requires n <= |meetings|
      reads this, meetings
      ensures forall m <- due ::
                && m in meetings[..n] && (m.status == Scheduled || m.status == Live)
                && m.scheduledStartAt.Some? && m.scheduledStartAt.value <= now
      ensures forall i | 0 <= i < n ::
                && (meetings[i].status == Scheduled || meetings[i].status == Live)
                && meetings[i].scheduledStartAt.Some? && meetings[i].scheduledStartAt.value <= now
                ==> meetings[i] in due
    {
      if n == 0 then []
      else ListDueToStart(now, n - 1) + (if Due(meetings[n - 1].Row(), now) then [meetings[n - 1]] else [])
    }

    function ListWaiting(meetingId: nat, n: nat): (ps: seq<Participant>)
      requires n <= |participants|
      requires forall i, j | 0 <= i < j < |participants| :: participants[i] != participants[j]
      reads this, participants
      ensures forall i, j | 0 <= i < j < |ps| :: ps[i] != ps[j]
      ensures forall p <- ps :: p in participants[..n] && p.meetingId == meetingId && p.admissionStatus == Waiting
      ensures forall i | 0 <= i < n ::
                participants[i].meetingId == meetingId && participants[i].admissionStatus == Waiting ==>
                participants[i] in ps
    {
      if n == 0 then []
      else
        var p := participants[n - 1];
        ListWaiting(meetingId, n - 1) + (if p.meetingId == meetingId && p.admissionStatus == Waiting then [p] else [])
    }
  }

  /** How many of the first n participants are waiting. */
  function WaitingCount(ps: seq<ParticipantRow>, n: nat): nat
    requires n <= |ps|
  {
    if n == 0 then 0
    else WaitingCount(ps, n - 1) + (if ps[n - 1].admissionStatus == Waiting then 1 else 0)
  }

  lemma {:induction false} WaitingCountUpdate(ps: seq<ParticipantRow>, ps': seq<ParticipantRow>, k: nat, n: nat)
    requires k < |ps| == |ps'| && n <= |ps|
    requires ps[k].admissionStatus == Waiting && ps'[k].admissionStatus != Waiting
    requires forall i | 0 <= i < |ps| && i != k :: ps'[i] == ps[i]
    ensures WaitingCount(ps, n) == WaitingCount(ps', n) + (if k < n then 1 else 0)
  {
    if n > 0 { WaitingCountUpdate(ps, ps', k, n - 1); }
  }

  /** Admitting exactly the participants to admit takes exactly that many out of the waiting ones. */
  lemma {:induction false} AdmittedLeaveWaiting(w: World, now: int, n: nat)
    requires n <= |w.participants|
    ensures WaitingCount(w.participants, n)
            == WaitingCount(Promote(w, now).participants, n) + ToAdmitCount(w, now, n)
  {
    if n > 0 { AdmittedLeaveWaiting(w, now, n - 1); }
  }

  function AdmitIf(p: ParticipantRow, due: bool): ParticipantRow {
    if due && p.admissionStatus == Waiting then p.(admissionStatus := Admitted) else p
  }

  /** The tables once the meetings with the ids in `done` were handled. */
  function Handled(w: World, done: set<nat>, now: int): World {
    World(seq(|w.meetings|, i requires 0 <= i < |w.meetings| =>
                              if w.meetings[i].id in done then StartedAt(w.meetings[i], now) else w.meetings[i]),
          seq(|w.participants|, i requires 0 <= i < |w.participants| =>
                                  AdmitIf(w.participants[i], w.participants[i].meetingId in done)))
  }

  function AdmitAll(ps: seq<ParticipantRow>, meetingId: nat): seq<ParticipantRow> {
    seq(|ps|, i requires 0 <= i < |ps| => AdmitIf(ps[i], ps[i].meetingId == meetingId))
  }

  function StartRow(m: MeetingRow, now: int): MeetingRow {
    if m.status == Scheduled then m.(status := Live, actualStartAt := Some(now)) else m
  }

  /** The inner loop: everyone waiting in one meeting is admitted. */
  method AdmitWaiting(session: Session, meetingId: nat) returns (admitted: nat)
    requires session.Valid()
    modifies session.participants
    ensures session.View() == World(old(session.View()).meetings, AdmitAll(old(session.View()).participants, meetingId))
    ensures admitted + WaitingCount(session.View().participants, |session.participants|)
            == WaitingCount(old(session.View()).participants, |session.participants|)
  {
    hide WaitingCount, Session.ListWaiting;
    var ps := session.participants;
    ghost var before := session.View().participants;
    admitted := 0;
    var waiting := session.ListWaiting(meetingId, |ps|);
    for j := 0 to |waiting|
      invariant forall k | 0 <= k < |ps| :: ps[k].Row() == AdmitIf(before[k], ps[k] in waiting[..j])
      invariant admitted + WaitingCount(session.View().participants, |ps|) == WaitingCount(before, |ps|)
    {
      assert waiting[j] in waiting && waiting[j] !in waiting[..j];
      ghost var k :| 0 <= k < |ps| && ps[k] == waiting[j];
      ghost var rows := session.View().participants;
      waiting[j].admissionStatus := Admitted;
      admitted := admitted + 1;
      WaitingCountUpdate(rows, session.View().participants, k, |ps|);
    }
    assert waiting[..|waiting|] == waiting;
  }

  /** The first half of the outer loop's body. */
  method StartMeeting(session: Session, meeting: Meeting, now: int, ghost k: nat)
    requires session.Valid() && k < |session.meetings| && session.meetings[k] == meeting
    modifies meeting
    ensures session.View().participants == old(session.View()).participants
    ensures session.View().meetings
            == old(session.View()).meetings[k := StartRow(old(session.View()).meetings[k], now)]
  {
    if meeting.status == Scheduled {
      meeting.status := Live;
      meeting.actualStartAt := Some(now);
    }
  }

  method AutoPromoteWaitingConferenceParticipants(session: Session, now: int) returns (promoted: nat)
    requires session.Valid()
    modifies session.meetings, session.participants
    ensures session.View() == Promote(old(session.View()), now)
    ensures promoted == ToAdmitCount(old(session.View()), now, |session.participants|)
  {
    hide Promote, ToAdmitCount, WaitingCount, StartedAt, Session.ListDueToStart, DueId, Handled, AdmitAll, Due, IsDueRow,
      StartRow, AdmitIf;
    var n := |session.participants|;
    ghost var before := session.View();
    ghost var done: set<nat> := {};
    promoted := 0;
    var due := session.ListDueToStart(now, |session.meetings|);
    DueObjects(session, now, due, before);
    HandledNone(before, now);
    for i := 0 to |due|
      invariant session.View() == Handled(before, done, now)
      invariant done == set m | m in due[..i] :: m.id
      invariant promoted + WaitingCount(session.View().participants, n) == WaitingCount(before.participants, n)
    {
      var meeting := due[i];
      assert meeting in due;
      ghost var k := RowOf(session.meetings, before.meetings, meeting, now);
      HandledNext(before, done, k, now);
      StartMeeting(session, meeting, now, k);
      var admitted := AdmitWaiting(session, meeting.id);
      promoted := promoted + admitted;
      done := done + {meeting.id};
    }
    assert due[..|due|] == due;
    HandledAll(before, done, now);
    AdmittedLeaveWaiting(before, now, n);
  }

  lemma HandledNone(w: World, now: int)
    ensures Handled(w, {}, now) == w
  {
  }

  /** The object is a row of the table, and the row is due. */
  ghost predicate IsDueRow(ms: seq<Meeting>, rows: seq<MeetingRow>, m: Meeting, now: int) {
    exists k | 0 <= k < |ms| && k < |rows| :: ms[k] == m && Due(rows[k], now)
  }

  lemma RowOf(ms: seq<Meeting>, rows: seq<MeetingRow>, m: Meeting, now: int) returns (k: nat)
    requires IsDueRow(ms, rows, m, now)
    ensures k < |ms| && k < |rows| && ms[k] == m && Due(rows[k], now)
  {
    k :| 0 <= k < |ms| && k < |rows| && ms[k] == m && Due(rows[k], now);
  }

  lemma DueIsRow(session: Session, now: int, m: Meeting) returns (k: nat)
    requires m in session.ListDueToStart(now, |session.meetings|)
    ensures k < |session.meetings| && session.meetings[k] == m
    ensures session.View().meetings[k] == m.Row() && Due(m.Row(), now)
  {
    hide Session.ListDueToStart;
    assert m in session.meetings[..|session.meetings|];
    k :| 0 <= k < |session.meetings| && session.meetings[k] == m;
  }

  lemma RowIsDue(session: Session, now: int, k: nat)
    requires k < |session.meetings| && Due(session.View().meetings[k], now)
    ensures session.meetings[k] in session.ListDueToStart(now, |session.meetings|)
    ensures session.meetings[k].id == session.View().meetings[k].id
  {
    hide Session.ListDueToStart;
    assert session.meetings[k].Row() == session.View().meetings[k];
  }

  /** The due meetings as positions in the table, and the table's due ids as due meetings. */
  lemma DueObjects(session: Session, now: int, due: seq<Meeting>, w: World)
    requires due == session.ListDueToStart(now, |session.meetings|) && w == session.View()
    ensures forall m <- due :: IsDueRow(session.meetings, w.meetings, m, now)
    ensures forall id :: id in (set m | m in due :: m.id) <==> DueId(w.meetings, id, now)
  {
    hide Session.ListDueToStart, Due;
    forall m | m in due ensures IsDueRow(session.meetings, w.meetings, m, now) {
      var k := DueIsRow(session, now, m);
      assert session.meetings[k] == m && Due(w.meetings[k], now);
    }
    forall id | id in (set m | m in due :: m.id) ensures DueId(w.meetings, id, now) {
      var m :| m in due && m.id == id;
      var k := DueIsRow(session, now, m);
      assert w.meetings[k].id == id && Due(w.meetings[k], now);
    }
    forall id | DueId(w.meetings, id, now) ensures id in (set m | m in due :: m.id) {
      var k :| 0 <= k < |w.meetings| && w.meetings[k].id == id && Due(w.meetings[k], now);
      RowIsDue(session, now, k);
    }
  }

  lemma HandledNext(w: World, done: set<nat>, k: nat, now: int)
    requires UniqueMeetingIds(w.meetings) && k < |w.meetings| && Due(w.meetings[k], now)
    ensures var (h, id) := (Handled(w, done, now), w.meetings[k].id);
            && |h.meetings| == |w.meetings|
            && Handled(w, done + {id}, now)
               == World(h.meetings[k := StartRow(h.meetings[k], now)], AdmitAll(h.participants, id))
  {
    var (h, id) := (Handled(w, done, now), w.meetings[k].id);
    assert Handled(w, done + {id}, now).participants == AdmitAll(h.participants, id);
    assert Handled(w, done + {id}, now).meetings == h.meetings[k := StartRow(h.meetings[k], now)];
  }

  lemma DueHasDueId(meetings: seq<MeetingRow>, i: nat, now: int)
    requires i < |meetings|
    ensures Due(meetings[i], now) ==> DueId(meetings, meetings[i].id, now)
  {
  }

  lemma HandledAll(w: World, done: set<nat>, now: int)
    requires forall id :: id in done <==> DueId(w.meetings, id, now)
    requires UniqueMeetingIds(w.meetings)
    ensures Handled(w, done, now) == Promote(w, now)
  {
    hide DueId;
    forall i | 0 <= i < |w.meetings|
      ensures Handled(w, done, now).meetings[i] == StartedAt(w.meetings[i], now)
    {
      DueHasDueId(w.meetings, i, now);
    }
  }

  // ---------------------------------------------------------------------------------------------
  // One run

  /** A run starts exactly the scheduled meetings whose given start has come, with `now` as the actual
      start, and admits exactly those waiting in a scheduled or live meeting whose given start has
      come; every other row stays as it was. */
  lemma PromoteIs(w: World, now: int)
    ensures var w' := Promote(w, now);
            && |w'.meetings| == |w.meetings|
            && (forall k | 0 <= k < |w.meetings| ::
                  var m := w.meetings[k];
                  w'.meetings[k]
                  == if m.status == Scheduled && m.scheduledStartAt.Some? && m.scheduledStartAt.value <= now
                     then MeetingRow(m.id, m.scheduledStartAt, Live, Some(now)) else m)
            && |w'.participants| == |w.participants|
            && (forall k | 0 <= k < |w.participants| ::
                  var p := w.participants[k];
                  w'.participants[k]
                  == if && p.admissionStatus == Waiting
                        && exists m <- w.meetings ::
                             && m.id == p.meetingId && (m.status == Scheduled || m.status == Live)
                             && m.scheduledStartAt.Some? && m.scheduledStartAt.value <= now
                     then ParticipantRow(p.id, p.meetingId, Admitted) else p)
  {
    forall k | 0 <= k < |w.participants|
      ensures DueId(w.meetings, w.participants[k].meetingId, now) <==>
              exists m <- w.meetings ::
                && m.id == w.participants[k].meetingId && (m.status == Scheduled || m.status == Live)
                && m.scheduledStartAt.Some? && m.scheduledStartAt.value <= now
    {
      DueIdIs(w.meetings, w.participants[k].meetingId, now);
    }
  }

  lemma DueIdIs(meetings: seq<MeetingRow>, id: nat, now: int)
    ensures DueId(meetings, id, now) <==>
            exists m <- meetings ::
              && m.id == id && (m.status == Scheduled || m.status == Live)
              && m.scheduledStartAt.Some? && m.scheduledStartAt.value <= now
  {
  }

  /** The number the job returns is how many participants stopped waiting and are admitted. */
  lemma {:induction false} CountIsAdmitted(w: World, now: int, n: nat)
    requires n <= |w.participants|
    ensures ToAdmitCount(w, now, n) == |AdmittedIn(w.participants, Promote(w, now).participants, n)|
  {
    hide ToAdmit;
    var ps, ps' := w.participants, Promote(w, now).participants;
    if n == 0 {
      assert AdmittedIn(ps, ps', n) == {};
    } else {
      CountIsAdmitted(w, now, n - 1);
      if ToAdmit(w, ps[n - 1], now) {
        assert AdmittedIn(ps, ps', n) == AdmittedIn(ps, ps', n - 1) + {n - 1} by { MeansWaiting(w, ps[n - 1], now); }
      } else {
        assert AdmittedIn(ps, ps', n) == AdmittedIn(ps, ps', n - 1);
      }
    }
  }

  lemma MeansWaiting(w: World, p: ParticipantRow, now: int)
    requires ToAdmit(w, p, now)
    ensures p.admissionStatus == Waiting
  {
  }

  /** The positions below n whose participant was waiting before and is admitted after. */
  function AdmittedIn(before: seq<ParticipantRow>, after: seq<ParticipantRow>, n: nat): set<int>
    requires n <= |before| == |after|
  {
    set i | 0 <= i < n && before[i].admissionStatus == Waiting && after[i].admissionStatus == Admitted
  }

  /** A run moves no meeting in or out of the due ones. */
  lemma SameDue(w: World, id: nat, now: int, now': int)
    requires now' <= now
    ensures DueId(Promote(w, now).meetings, id, now') <==> DueId(w.meetings, id, now')
  {
    var ms := Promote(w, now).meetings;
    assert |ms| == |w.meetings|;
    forall i | 0 <= i < |ms| ensures ms[i].id == w.meetings[i].id && (Due(ms[i], now') <==> Due(w.meetings[i], now')) {
    }
  }

  /** After a run at `now` every due meeting is live and nobody waits in one; a second run at that
      time or at an earlier one changes nothing and admits nobody. */
  lemma RunSettles(w: World, now: int, now': int)
    requires now' <= now
    ensures var w' := Promote(w, now);
            && (forall m <- w'.meetings :: Due(m, now) ==> m.status == Live)
            && (forall p <- w'.participants :: p.admissionStatus == Waiting ==> !DueId(w'.meetings, p.meetingId, now))
            && Promote(w', now') == w'
            && ToAdmitCount(w', now', |w'.participants|) == 0
  {
    var w' := Promote(w, now);
    forall id ensures DueId(w'.meetings, id, now') <==> DueId(w.meetings, id, now') { SameDue(w, id, now, now'); }
    forall id ensures DueId(w'.meetings, id, now) <==> DueId(w.meetings, id, now) { SameDue(w, id, now, now); }
    forall id | DueId(w.meetings, id, now') ensures DueId(w.meetings, id, now) {
      var i :| 0 <= i < |w.meetings| && w.meetings[i].id == id && Due(w.meetings[i], now');
      assert Due(w.meetings[i], now);
    }
    forall k | 0 <= k < |w'.participants| ensures !ToAdmit(w', w'.participants[k], now') {
    }
    assert Promote(w', now').meetings == w'.meetings;
    assert Promote(w', now').participants == w'.participants;
    NobodyToAdmit(w', now', |w'.participants|);
  }

  lemma {:induction false} NobodyToAdmit(w: World, now: int, n: nat)
    requires n <= |w.participants|
    requires forall k | 0 <= k < |w.participants| :: !ToAdmit(w, w.participants[k], now)
    ensures ToAdmitCount(w, now, n) == 0
  {
    if n > 0 { NobodyToAdmit(w, now, n - 1); }
  }

  // ---------------------------------------------------------------------------------------------
  // Series of runs

  /** The job runs, and anything else happens to the tables in between. */
  datatype Event =
    | RunJob(now: int)
    | NewMeeting(meeting: MeetingRow)
    | EditMeeting(position: nat, meeting: MeetingRow)
    | ParticipantsChange(participants: seq<ParticipantRow>)

  /** Ids stay unique and fixed, and no other writer puts a started meeting back to "scheduled". */
  predicate Enabled(w: World, e: Event) {
    match e
    case RunJob(_) => true
    case NewMeeting(m) => forall x <- w.meetings :: x.id != m.id
    case EditMeeting(i, m) =>
      && i < |w.meetings| && m.id == w.meetings[i].id
      && (w.meetings[i].status != Scheduled ==> m.status != Scheduled)
    case ParticipantsChange(_) => true
  }

  function Step(w: World, e: Event): World {
    match e
    case RunJob(now) => Promote(w, now)
    case NewMeeting(m) => w.(meetings := w.meetings + [m])
    case EditMeeting(i, m) => if i < |w.meetings| then w.(meetings := w.meetings[i := m]) else w
    case ParticipantsChange(ps) => w.(participants := ps)
  }

  function Run(es: seq<Event>): World {
    if es == [] then World([], []) else Step(Run(es[..|es| - 1]), es[|es| - 1])
  }

  predicate Feasible(es: seq<Event>) {
    es == [] || (Feasible(es[..|es| - 1]) && Enabled(Run(es[..|es| - 1]), es[|es| - 1]))
  }

  /** One write to a meeting by a run at `now`: when the meeting was scheduled at that moment, and
      the start its row says afterwards. */
  datatype Start = Start(now: int, scheduled: Option<int>, written: Option<int>)

  /** The writes to a meeting's row between two states of the table. */
  function StartsIn(before: seq<MeetingRow>, after: seq<MeetingRow>, id: nat, now: int): seq<Start>
    requires |before| == |after|
  {
    if before == [] then []
    else
      var n := |before| - 1;
      StartsIn(before[..n], after[..n], id, now)
      + (if before[n].id == id && after[n] != before[n]
         then [Start(now, before[n].scheduledStartAt, after[n].actualStartAt)] else [])
  }

  /** The job's writes to one meeting's row in a run. */
  function Starts(es: seq<Event>, id: nat): seq<Start> {
    if es == [] then []
    else
      var (init, e) := (es[..|es| - 1], es[|es| - 1]);
      Starts(init, id)
      + (if e.RunJob? then StartsIn(Run(init).meetings, Promote(Run(init), e.now).meetings, id, e.now) else [])
  }

  /** A run writes a meeting's row at most once, only while the meeting is scheduled and not early,
      and what it writes is the time of the run. */
  lemma {:induction false} StartsInOneRun(before: seq<MeetingRow>, after: seq<MeetingRow>, id: nat, now: int)
    requires UniqueMeetingIds(before)
    requires |after| == |before| && forall i | 0 <= i < |before| :: after[i] == StartedAt(before[i], now)
    ensures |StartsIn(before, after, id, now)| <= 1
    ensures forall i | 0 <= i < |before| && before[i].id == id ::
              var m := before[i];
              StartsIn(before, after, id, now)
              == if m.status == Scheduled && m.scheduledStartAt.Some? && m.scheduledStartAt.value <= now
                 then [Start(now, m.scheduledStartAt, Some(now))] else []
    ensures (forall i | 0 <= i < |before| :: before[i].id != id) ==> StartsIn(before, after, id, now) == []
    ensures forall s <- StartsIn(before, after, id, now) :: InTime(s)
  {
    if before != [] {
      var n := |before| - 1;
      StartsInOneRun(before[..n], after[..n], id, now);
      if before[n].id == id {
        assert forall i | 0 <= i < n :: before[..n][i].id != id;
      }
    }
  }

  /** A start is written no earlier than scheduled, and is the time of the run. */
  predicate InTime(s: Start) {
    s.scheduled.Some? && s.written == Some(s.now) && s.scheduled.value <= s.now
  }

  predicate NotScheduled(meetings: seq<MeetingRow>, id: nat) {
    forall i | 0 <= i < |meetings| :: meetings[i].id == id ==> meetings[i].status != Scheduled
  }

  predicate Exists(meetings: seq<MeetingRow>, id: nat) {
    exists i | 0 <= i < |meetings| :: meetings[i].id == id
  }

  lemma StepKeeps(w: World, e: Event, id: nat)
    requires UniqueMeetingIds(w.meetings) && Enabled(w, e)
    ensures UniqueMeetingIds(Step(w, e).meetings)
    ensures Exists(w.meetings, id) ==> Exists(Step(w, e).meetings, id)
    ensures Exists(w.meetings, id) && NotScheduled(w.meetings, id) ==> NotScheduled(Step(w, e).meetings, id)
  {
    var ms := Step(w, e).meetings;
    if e.EditMeeting? { assert forall i | 0 <= i < |ms| :: ms[i].id == w.meetings[i].id; }
    if Exists(w.meetings, id) {
      var i :| 0 <= i < |w.meetings| && w.meetings[i].id == id;
      assert w.meetings[i] in w.meetings;
      assert ms[i].id == id;
    }
  }

  /** Over any series of runs and other changes, the job writes a meeting's row at most once, never
      before the moment it was scheduled for, and writes the time of that run as its start. */
  lemma {:induction false} StartedAtMostOnce(es: seq<Event>, id: nat)
    requires Feasible(es)
    ensures UniqueMeetingIds(Run(es).meetings)
    ensures |Starts(es, id)| <= 1
    ensures forall s <- Starts(es, id) ::
              s.scheduled.Some? && s.written.Some? && s.scheduled.value <= s.written.value == s.now
    ensures Starts(es, id) != [] ==> Exists(Run(es).meetings, id) && NotScheduled(Run(es).meetings, id)
  {
    hide Enabled, Exists, NotScheduled;
    if es != [] {
      var init, e := es[..|es| - 1], es[|es| - 1];
      StartedAtMostOnce(init, id);
      StepKeeps(Run(init), e, id);
      if e.RunJob? {
        JobStart(Run(init), id, e.now);
      }
    }
  }

  lemma JobStart(w: World, id: nat, now: int)
    requires UniqueMeetingIds(w.meetings)
    ensures var starts := StartsIn(w.meetings, Promote(w, now).meetings, id, now);
            && |starts| <= 1
            && (forall s <- starts :: InTime(s))
            && (Exists(w.meetings, id) && NotScheduled(w.meetings, id) ==> starts == [])
            && (starts != [] ==> Exists(Promote(w, now).meetings, id) && NotScheduled(Promote(w, now).meetings, id))
  {
    hide StartsIn, InTime, Exists, NotScheduled;
    var ms := Promote(w, now).meetings;
    assert |ms| == |w.meetings| && forall i | 0 <= i < |ms| :: ms[i] == StartedAt(w.meetings[i], now);
    StartsInOneRun(w.meetings, ms, id, now);
    if Exists(w.meetings, id) {
      var i := PositionOf(w.meetings, id);
      StartedRow(w.meetings, ms, i, now);
    } else {
      NoPosition(w.meetings, id);
    }
  }

  lemma PositionOf(meetings: seq<MeetingRow>, id: nat) returns (i: nat)
    requires Exists(meetings, id)
    ensures i < |meetings| && meetings[i].id == id
    ensures NotScheduled(meetings, id) ==> meetings[i].status != Scheduled
  {
    i :| 0 <= i < |meetings| && meetings[i].id == id;
  }

  lemma NoPosition(meetings: seq<MeetingRow>, id: nat)
    requires !Exists(meetings, id)
    ensures forall i | 0 <= i < |meetings| :: meetings[i].id != id
  {
  }

  lemma StartedRow(before: seq<MeetingRow>, after: seq<MeetingRow>, i: nat, now: int)
    requires UniqueMeetingIds(before) && i < |before| == |after|
    requires forall j | 0 <= j < |before| :: after[j] == StartedAt(before[j], now)
    ensures var m := before[i];
            && Exists(after, m.id)
            && (m.status == Scheduled && m.scheduledStartAt.Some? && m.scheduledStartAt.value <= now ==>
                  NotScheduled(after, m.id))
  {
    assert after[i].id == before[i].id;
  }
}
