/**
 * The review token caps: the quota (internal/application/review/quota.go) and
 * the handler that checks it before a row and charges it after each reply
 * (internal/application/review/handler.go).
 */
module Quota {
  /** A commit; only equality matters. */
  type Sha(==, 0, !new)

  /** A local date, counted in days. */
  type Day = int

  /**
   * What became of one review kind of a row. A reply is charged before it is parsed and its
   * findings saved: to the commit always, to the day if the token store takes it.
   */
  datatype Outcome =
    | Skipped                                       // empty input
    | Failed                                        // prompt, rendering or generation failed
    | Replied(day: Day, tokens: int, stored: bool, saved: bool)

  /** A queued review: its commit, the daily check (date, whether the store answers), what each kind will meet. */
  datatype Row = Row(
    isReview: bool, sha: Sha, today: Day, answers: bool, hasFile: bool, readable: bool, kinds: seq<Outcome>)

  datatype Result = Done | WrongKind | CheckFailed | DayPaused(total: int) | CommitExceeded | JobFailed

  datatype Totals = Totals(commit: map<Sha, int>, day: map<Day, int>)

  datatype Caps = Caps(perCommit: int, perDay: int)

  // ---------- the rule ----------

  function At<K>(m: map<K, int>, k: K): int { if k in m then m[k] else 0 }

  function Clamp(tokens: int): nat { if tokens < 0 then 0 else tokens }

  /** A cap of zero or less is no cap. */
  predicate Under(cap: int, total: int) { cap > 0 ==> total < cap }

  /** The daily check lets the row through; without a cap the store is not asked. */
  predicate DayOpen(caps: Caps, t: Totals, row: Row) {
    caps.perDay > 0 ==> row.answers && At(t.day, row.today) < caps.perDay
  }

  predicate Dispatched(caps: Caps, t: Totals, row: Row) {
    row.isReview && DayOpen(caps, t, row) && Under(caps.perCommit, At(t.commit, row.sha))
  }

  function Charge(t: Totals, sha: Sha, day: Day, tokens: int, stored: bool): Totals {
    Totals(t.commit[sha := At(t.commit, sha) + Clamp(tokens)],
           if stored then t.day[day := At(t.day, day) + Clamp(tokens)] else t.day)
  }

  predicate Succeeds(k: Outcome) { k.Skipped? || (k.Replied? && k.stored && k.saved) }

  /** A dispatched row drains: no file to review, or every kind goes through. */
  predicate Drains(row: Row) {
    row.hasFile ==> row.readable && forall i :: 0 <= i < |row.kinds| ==> Succeeds(row.kinds[i])
  }

  /** The kinds that run: up to and including the first that fails. */
  function Ran(kinds: seq<Outcome>): seq<Outcome> {
    if kinds == [] then []
    else if !Succeeds(kinds[0]) then [kinds[0]]
    else [kinds[0]] + Ran(kinds[1..])
  }

  function ChargeAll(t: Totals, sha: Sha, ran: seq<Outcome>): Totals {
    if ran == [] then t
    else
      var before := ChargeAll(t, sha, ran[..|ran| - 1]);
      var k := ran[|ran| - 1];
      if k.Replied? then Charge(before, sha, k.day, k.tokens, k.stored) else before
  }

  function RanOf(row: Row): seq<Outcome> {
    if row.hasFile && row.readable then Ran(row.kinds) else []
  }

  function After(caps: Caps, t: Totals, row: Row): Totals {
    if Dispatched(caps, t, row) then ChargeAll(t, row.sha, RanOf(row)) else t
  }

  // ---------- what a row costs, without the totals ----------

  function Cost(k: Outcome): nat { if k.Replied? then Clamp(k.tokens) else 0 }

  function Usage(ran: seq<Outcome>): nat {
    if ran == [] then 0 else Usage(ran[..|ran| - 1]) + Cost(ran[|ran| - 1])
  }

  function UsageOn(ran: seq<Outcome>, d: Day): nat {
    if ran == [] then 0
    else
      var k := ran[|ran| - 1];
      UsageOn(ran[..|ran| - 1], d) + if k.Replied? && k.stored && k.day == d then Cost(k) else 0
  }

  /** A dispatched row charges its own commit its whole usage and each day what it used that day; nothing else moves. */
  lemma {:induction false} ChargesExactly(t: Totals, sha: Sha, ran: seq<Outcome>)
    ensures forall c :: At(ChargeAll(t, sha, ran).commit, c) == At(t.commit, c) + if c == sha then Usage(ran) else 0
    ensures forall d :: At(ChargeAll(t, sha, ran).day, d) == At(t.day, d) + UsageOn(ran, d)
  {
    if ran != [] {
      ChargesExactly(t, sha, ran[..|ran| - 1]);
    }
  }

  lemma {:induction false} UsageOnIsPart(ran: seq<Outcome>, d: Day)
    ensures UsageOn(ran, d) <= Usage(ran)
  {
    if ran != [] {
      UsageOnIsPart(ran[..|ran| - 1], d);
    }
  }

  // ---------- whole runs ----------

  /** A restart loses the per-commit totals, which live in memory; the daily totals are stored. */
  datatype Event = Handled(row: Row) | Restarted

  function Step(caps: Caps, t: Totals, e: Event): Totals {
    match e
    case Handled(row) => After(caps, t, row)
    case Restarted => t.(commit := map[])
  }

  function Run(caps: Caps, events: seq<Event>): Totals {
    if events == [] then Totals(map[], map[])
    else Step(caps, Run(caps, events[..|events| - 1]), events[|events| - 1])
  }

  /** The row's own clock readings do not go back; a row may still cross midnight, several times over. */
  predicate DaysFrom(ran: seq<Outcome>, start: Day) {
    forall i :: 0 <= i < |ran| && ran[i].Replied? ==> ran[i].day >= start
  }

  predicate DaysUpTo(ran: seq<Outcome>, end: Day) {
    forall i :: 0 <= i < |ran| && ran[i].Replied? ==> ran[i].day <= end
  }

  /** The clock never goes back over the run, and `end` is no earlier than any reading. */
  ghost predicate Clocked(events: seq<Event>, end: Day) {
    if events == [] then true
    else
      var e := events[|events| - 1];
      match e
      case Restarted => Clocked(events[..|events| - 1], end)
      case Handled(row) =>
        && Clocked(events[..|events| - 1], row.today)
        && row.today <= end
        && DaysFrom(RanOf(row), row.today)
        && DaysUpTo(RanOf(row), end)
  }

  ghost predicate RowsWithin(events: seq<Event>, most: nat) {
    forall i :: 0 <= i < |events| && events[i].Handled? ==> Usage(RanOf(events[i].row)) <= most
  }

  ghost predicate Bounded<K(!new)>(cap: int, most: nat, m: map<K, int>) {
    cap > 0 ==> forall k :: At(m, k) < cap + most
  }

  ghost predicate NothingAfter(t: Totals, end: Day) {
    forall d :: d > end ==> At(t.day, d) == 0
  }

  lemma {:induction false} UsageOnDays(ran: seq<Outcome>, start: Day, end: Day)
    requires DaysFrom(ran, start) && DaysUpTo(ran, end)
    ensures forall d :: d < start || d > end ==> UsageOn(ran, d) == 0
  {
    if ran != [] {
      UsageOnDays(ran[..|ran| - 1], start, end);
    }
  }

  /** The row adds to a day other than the one it checked, and that day has already reached its cap. */
  ghost predicate LateCharge(caps: Caps, t: Totals, row: Row) {
    && caps.perDay > 0 && Dispatched(caps, t, row)
    && exists d :: d != row.today && UsageOn(RanOf(row), d) > 0 && At(t.day, d) >= caps.perDay
  }

  lemma RowKeepsCommits(caps: Caps, t: Totals, row: Row, most: nat)
    requires Bounded(caps.perCommit, most, t.commit) && Usage(RanOf(row)) <= most
    ensures Bounded(caps.perCommit, most, After(caps, t, row).commit)
  {
    if Dispatched(caps, t, row) {
      ChargesExactly(t, row.sha, RanOf(row));
      hide At, ChargeAll, RanOf;
    }
  }

  lemma RowKeepsDays(caps: Caps, t: Totals, row: Row, most: nat)
    requires Bounded(caps.perDay, most, t.day) && Usage(RanOf(row)) <= most && !LateCharge(caps, t, row)
    ensures Bounded(caps.perDay, most, After(caps, t, row).day)
  {
    if Dispatched(caps, t, row) && caps.perDay > 0 {
      var ran := RanOf(row);
      ChargesExactly(t, row.sha, ran);
      hide At, ChargeAll, RanOf;
      forall d ensures At(After(caps, t, row).day, d) < caps.perDay + most {
        UsageOnIsPart(ran, d);
        assert UsageOn(ran, d) == 0 || At(t.day, d) < caps.perDay;
      }
    }
  }

  ghost predicate NeverLate(caps: Caps, events: seq<Event>) {
    if events == [] then true
    else
      var rest, e := events[..|events| - 1], events[|events| - 1];
      NeverLate(caps, rest) && (e.Handled? ==> !LateCharge(caps, Run(caps, rest), e.row))
  }

  /** Commit totals are bounded in every run; day totals if no row charges a full day it did not check. */
  lemma {:induction false} EveryRunBounded(caps: Caps, events: seq<Event>, most: nat)
    requires RowsWithin(events, most)
    ensures Bounded(caps.perCommit, most, Run(caps, events).commit)
    ensures NeverLate(caps, events) ==> Bounded(caps.perDay, most, Run(caps, events).day)
  {
    if events != [] {
      var rest, e := events[..|events| - 1], events[|events| - 1];
      EveryRunBounded(caps, rest, most);
      if e.Handled? {
        RowKeepsCommits(caps, Run(caps, rest), e.row, most);
        if NeverLate(caps, events) {
          RowKeepsDays(caps, Run(caps, rest), e.row, most);
        }
      }
    }
  }

  lemma RowMovesForward(caps: Caps, t: Totals, row: Row, end: Day)
    requires NothingAfter(t, row.today) && row.today <= end && DaysFrom(RanOf(row), row.today) &&
        DaysUpTo(RanOf(row), end)
    ensures !LateCharge(caps, t, row) && NothingAfter(After(caps, t, row), end)
  {
    ChargesExactly(t, row.sha, RanOf(row));
    UsageOnDays(RanOf(row), row.today, end);
    hide At, ChargeAll, RanOf;
  }

  /** A clock that does not go back never charges late: a day not checked is one that has only just begun. */
  lemma {:induction false} ForwardClockNeverLate(caps: Caps, events: seq<Event>, end: Day)
    requires Clocked(events, end)
    ensures NeverLate(caps, events) && NothingAfter(Run(caps, events), end)
  {
    if events != [] {
      var rest, e := events[..|events| - 1], events[|events| - 1];
      match e
      case Restarted => ForwardClockNeverLate(caps, rest, end);
      case Handled(row) =>
        ForwardClockNeverLate(caps, rest, row.today);
        RowMovesForward(caps, Run(caps, rest), row, end);
    }
  }

  /** So under such a clock every total stays below its cap plus one row, rows crossing midnight included. */
  lemma ForwardClockBounded(caps: Caps, events: seq<Event>, most: nat, end: Day)
    requires RowsWithin(events, most) && Clocked(events, end)
    ensures Bounded(caps.perCommit, most, Run(caps, events).commit) && Bounded(caps.perDay, most, Run(caps, events).day)
  {
    ForwardClockNeverLate(caps, events, end);
    EveryRunBounded(caps, events, most);
  }

  // ---------- and the bound needs that much ----------

  predicate ChargesOnly(ran: seq<Outcome>, a: Day, b: Day) {
    forall i :: 0 <= i < |ran| && ran[i].Replied? ==> ran[i].day == a || ran[i].day == b
  }

  /** Whatever the row's kinds use on its own day and on d, within one row's most, the daily bound holds after it. */
  ghost predicate SafeOn(caps: Caps, t: Totals, row: Row, d: Day, most: nat) {
    forall kinds :: ChargesOnly(Ran(kinds), row.today, d) && Usage(Ran(kinds)) <= most ==>
      Bounded(caps.perDay, most, After(caps, t, row.(kinds := kinds)).day)
  }

  lemma {:induction false} NothingElsewhere(ran: seq<Outcome>, a: Day, b: Day, d: Day)
    requires ChargesOnly(ran, a, b) && d != a && d != b
    ensures UsageOn(ran, d) == 0
  {
    if ran != [] {
      NothingElsewhere(ran[..|ran| - 1], a, b, d);
    }
  }

  lemma OneReply(d: Day, n: nat)
    ensures var k := [Replied(d, n, true, true)]; Ran(k) == k && Usage(k) == n && UsageOn(k, d) == n
  {
    var r := Replied(d, n, true, true);
    assert [r][1..] == [] && [r][..0] == [];
    assert Ran([]) == [] && Usage([]) == 0 && UsageOn([], d) == 0;
  }

  lemma FullDayOverruns(caps: Caps, t: Totals, row: Row, d: Day, most: nat)
    requires caps.perDay > 0 && Dispatched(caps, t, row) && row.hasFile && row.readable
    requires d != row.today && At(t.day, d) >= caps.perDay
    ensures !SafeOn(caps, t, row, d, most)
  {
    OneReply(d, most);
    var kinds := [Replied(d, most, true, true)];
    var row' := row.(kinds := kinds);
    assert RanOf(row') == kinds && ChargesOnly(Ran(kinds), row.today, d);
    assert Dispatched(caps, t, row');
    ChargesExactly(t, row.sha, kinds);
    hide At, ChargeAll, Ran, Usage, UsageOn;
    assert At(After(caps, t, row').day, d) >= caps.perDay + most;
  }

  /**
   * A dispatched row may touch a day d, whatever it uses, exactly when d is the day it checked or a day
   * still under its cap.
   */
  lemma SafeExactly(caps: Caps, t: Totals, row: Row, d: Day, most: nat)
    requires caps.perDay > 0 && Bounded(caps.perDay, most, t.day)
    requires Dispatched(caps, t, row) && row.hasFile && row.readable
    ensures SafeOn(caps, t, row, d, most) <==> d == row.today || At(t.day, d) < caps.perDay
  {
    if d != row.today && At(t.day, d) >= caps.perDay {
      FullDayOverruns(caps, t, row, d, most);
    } else {
      forall kinds | ChargesOnly(Ran(kinds), row.today, d) && Usage(Ran(kinds)) <= most
        ensures Bounded(caps.perDay, most, After(caps, t, row.(kinds := kinds)).day)
      {
        var row' := row.(kinds := kinds);
        assert RanOf(row') == Ran(kinds);
        forall x | x != row.today && UsageOn(RanOf(row'), x) > 0 ensures At(t.day, x) < caps.perDay {
          if x != d {
            NothingElsewhere(Ran(kinds), row.today, d, x);
          }
        }
        RowKeepsDays(caps, t, row', most);
      }
    }
  }

  /** A run that does overrun: three rows that each start on day 1 and reply on day 2, the clock put back in between. */
  lemma ClockBackOverruns(sha: Sha)
    ensures var caps := Caps(0, 1);
            var row := Row(true, sha, 1, true, true, true, [Replied(2, 1, true, true)]);
            var events := [Handled(row), Handled(row), Handled(row)];
            RowsWithin(events, 1) && !NeverLate(caps, events) && !Bounded(caps.perDay, 1, Run(caps, events).day)
  {
    var caps := Caps(0, 1);
    OneReply(2, 1);
    var k := [Replied(2, 1, true, true)];
    var row := Row(true, sha, 1, true, true, true, k);
    assert RanOf(row) == k;
    var h := Handled(row);
    var t0 := Run(caps, []);
    var t1 := Step(caps, t0, h);
    var t2 := Step(caps, t1, h);
    var t3 := Step(caps, t2, h);
    assert UsageOn(k, 1) == 0 by { NothingElsewhere(k, 2, 2, 1); }
    forall t | Dispatched(caps, t, row)
      ensures At(After(caps, t, row).day, 2) == At(t.day, 2) + 1 && At(After(caps, t, row).day, 1) == At(t.day, 1)
    {
      ChargesExactly(t, sha, k);
    }
    assert At(t3.day, 2) == 3;
    assert [h][..0] == [] && [h, h][..1] == [h] && [h, h, h][..2] == [h, h];
    assert Run(caps, [h]) == t1;
    assert Run(caps, [h, h]) == t2;
    assert Run(caps, [h, h, h]) == t3;
    assert RowsWithin([h, h, h], 1);
    if NeverLate(caps, [h, h, h]) {
      EveryRunBounded(caps, [h, h, h], 1);
    }
  }

  // ---------- the objects ----------

  /** The persisted daily totals, as their contract states them. */
  class DailyTokenStore {
    var totals: map<Day, int>

    constructor ()
      ensures totals == map[]
    {
      totals := map[];
    }

    /** A read the store may refuse. */
    method TokensFor(day: Day, answers: bool) returns (ok: bool, n: int)
      ensures ok == answers && (ok ==> n == At(totals, day))
    {
      ok, n := answers, if day in totals then totals[day] else 0;
    }

    /** An increment the store takes whole or not at all. */
    method AddTokens(day: Day, n: int, takes: bool) returns (ok: bool, total: int)
      modifies this
      ensures ok == takes && (ok ==> total == At(old(totals), day) + n)
      ensures totals == if ok then old(totals)[day := total] else old(totals)
    {
      ok, total := takes, (if day in totals then totals[day] else 0) + n;
      if ok {
        totals := totals[day := total];
      }
    }
  }

  class TokenQuota {
    const caps: Caps
    const store: DailyTokenStore
    var perCommit: map<Sha, int>

    ghost function Now(): Totals
      reads this, store
    {
      Totals(perCommit, store.totals)
    }

    constructor (caps: Caps, store: DailyTokenStore)
      ensures this.caps == caps && this.store == store
      ensures Now() == Totals(map[], store.totals)
    {
      this.caps := caps;
      this.store := store;
      perCommit := map[];
    }

    method DailyPaused(today: Day, answers: bool) returns (ok: bool, paused: bool, total: int)
      ensures ok <==> caps.perDay <= 0 || answers
      ensures ok ==> (paused <==> !Under(caps.perDay, At(store.totals, today)))
      ensures ok && paused ==> total == At(store.totals, today)
    {
      if caps.perDay <= 0 {
        return true, false, 0;
      }
      ok, total := store.TokensFor(today, answers);
      if !ok {
        return false, false, 0;
      }
      paused := total >= caps.perDay;
    }

    method CommitTotalReached(sha: Sha) returns (exceeded: bool)
      ensures exceeded <==> !Under(caps.perCommit, At(perCommit, sha))
    {
      if caps.perCommit <= 0 {
        return false;
      }
      exceeded := (if sha in perCommit then perCommit[sha] else 0) >= caps.perCommit;
    }

    method Record(sha: Sha, today: Day, tokens: int, takes: bool) returns (ok: bool)
      modifies this, store
      ensures ok == takes && Now() == Charge(old(Now()), sha, today, tokens, ok)
    {
      var n := if tokens < 0 then 0 else tokens;
      perCommit := perCommit[sha := (if sha in perCommit then perCommit[sha] else 0) + n];
      var total;
      ok, total := store.AddTokens(today, n, takes);
    }
  }

  class Handler {
    const quota: TokenQuota

    constructor (quota: TokenQuota)
      ensures this.quota == quota
    {
      this.quota := quota;
    }

    method EnforceQuota(row: Row) returns (refused: bool, why: Result)
      ensures refused <==>
          !(DayOpen(quota.caps, quota.Now(), row) && Under(quota.caps.perCommit, At(quota.perCommit, row.sha)))
      ensures refused && quota.caps.perDay > 0 && !row.answers ==> why == CheckFailed
      ensures refused && (quota.caps.perDay > 0 ==> row.answers) && !DayOpen(quota.caps, quota.Now(), row) ==>
                why == DayPaused(At(quota.store.totals, row.today))
      ensures refused && DayOpen(quota.caps, quota.Now(), row) ==> why == CommitExceeded
    {
      why := Done;
      var ok, paused, total := quota.DailyPaused(row.today, row.answers);
      if !ok {
        return true, CheckFailed;
      }
      if paused {
        return true, DayPaused(total);
      }
      var exceeded := quota.CommitTotalReached(row.sha);
      if exceeded {
        return true, CommitExceeded;
      }
      refused := false;
    }

    method RunKind(kind: Outcome, sha: Sha) returns (ok: bool)
      modifies quota, quota.store
      ensures quota.Now() == ChargeAll(old(quota.Now()), sha, [kind])
      ensures ok <==> Succeeds(kind)
    {
      assert [kind][..0] == [];
      match kind
      case Skipped => ok := true;
      case Failed => ok := false;
      case Replied(day, tokens, stored, saved) =>
        ok := quota.Record(sha, day, tokens, stored);
        if ok {
          ok := saved;
        }
    }

    method Review(row: Row) returns (ok: bool)
      modifies quota, quota.store
      ensures quota.Now() == ChargeAll(old(quota.Now()), row.sha, RanOf(row))
      ensures ok <==> Drains(row)
    {
      if !row.hasFile {
        return true;
      }
      if !row.readable {
        return false;
      }
      ok := true;
      ghost var t := quota.Now();
      assert row.kinds[0..] == row.kinds;
      for i := 0 to |row.kinds|
        invariant ok && forall j :: 0 <= j < i ==> Succeeds(row.kinds[j])
        invariant ChargeAll(quota.Now(), row.sha, Ran(row.kinds[i..])) == ChargeAll(t, row.sha, RanOf(row))
      {
        var k := row.kinds[i];
        assert row.kinds[i..][1..] == row.kinds[i + 1..];
        RanStep(quota.Now(), row.sha, row.kinds[i..]);
        ok := RunKind(k, row.sha);
        if !ok {
          return;
        }
      }
      assert row.kinds[|row.kinds|..] == [];
    }

    method Handle(row: Row) returns (r: Result)
      modifies quota, quota.store
      ensures quota.Now() == After(quota.caps, old(quota.Now()), row)
      ensures !row.isReview <==> r == WrongKind
      ensures row.isReview && !Dispatched(quota.caps, old(quota.Now()), row) <==>
          r.CheckFailed? || r.DayPaused? || r.CommitExceeded?
      ensures r == Done <==> Dispatched(quota.caps, old(quota.Now()), row) && Drains(row)
    {
      if !row.isReview {
        return WrongKind;
      }
      var refused, why := EnforceQuota(row);
      if refused {
        return why;
      }
      var ok := Review(row);
      r := if ok then Done else JobFailed;
    }
  }

  lemma {:induction false} ChargeAppend(t: Totals, sha: Sha, a: seq<Outcome>, b: seq<Outcome>)
    ensures ChargeAll(t, sha, a + b) == ChargeAll(ChargeAll(t, sha, a), sha, b)
  {
    if b == [] {
      assert a + b == a;
    } else {
      assert (a + b)[..|a + b| - 1] == a + b[..|b| - 1];
      ChargeAppend(t, sha, a, b[..|b| - 1]);
    }
  }

  lemma RanStep(t: Totals, sha: Sha, kinds: seq<Outcome>)
    requires kinds != []
    ensures ChargeAll(t, sha, Ran(kinds)) ==
              if !Succeeds(kinds[0]) then ChargeAll(t, sha, [kinds[0]])
              else ChargeAll(ChargeAll(t, sha, [kinds[0]]), sha, Ran(kinds[1..]))
  {
    ChargeAppend(t, sha, [kinds[0]], Ran(kinds[1..]));
  }
}
