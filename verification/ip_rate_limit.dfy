/** Login attempts per address: a window that starts anew once it has run out, and a lock when it fills
    up. Time is an integer clock that does not go back. */
module IpRateLimit {
  import opened Wrappers

  type Ip = nat

  datatype Policy = Policy(maxAttempts: int, lockDuration: nat, window: nat) {
    /** A maximum below one locks like a maximum of one. */
    function Max(): nat {
      if maxAttempts < 1 then 1 else maxAttempts
    }
  }

  const DEFAULT_POLICY := Policy(20, 3600, 3600)

  datatype Row = Row(attempts: int, firstAttemptAt: int, lockedUntil: Option<int>)

  type Table = map<Ip, Row>

  datatype Status = Status(attempts: int, lockedUntil: Option<int>) {
    predicate IsLocked(now: int) {
      lockedUntil.Some? && lockedUntil.value > now
    }
  }

  // ---- one address ---------------------------------------------------------------------------------------

  predicate Blocked(row: Option<Row>, now: int) {
    row.Some? && row.value.lockedUntil.Some? && row.value.lockedUntil.value > now
  }

  /** The row after an attempt that was not blocked. */
  function Counted(policy: Policy, row: Option<Row>, now: int): Row {
    var (attempts, first) :=
      if row.None? || row.value.firstAttemptAt < now - policy.window then (1, now)
      else (row.value.attempts + 1, row.value.firstAttemptAt);
    Row(attempts, first, if attempts >= policy.maxAttempts then Some(now + policy.lockDuration) else None)
  }

  function RowOf(table: Table, ip: Ip): Option<Row> {
    if ip in table then Some(table[ip]) else None
  }

  function AfterRecord(policy: Policy, table: Table, ip: Ip, now: int): Table {
    if Blocked(RowOf(table, ip), now) then table else table[ip := Counted(policy, RowOf(table, ip), now)]
  }

  function StatusOf(table: Table, ip: Ip): Status {
    if ip in table then Status(table[ip].attempts, table[ip].lockedUntil) else Status(0, None)
  }

  predicate LockExpired(row: Row, now: int) {
    row.lockedUntil.Some? && row.lockedUntil.value < now
  }

  function AfterCleanup(table: Table, now: int): Table {
    map ip | ip in table && !LockExpired(table[ip], now) :: table[ip]
  }

  class SqlxIpRateLimitRepository {
    const policy: Policy
    var rows: Table

    constructor (policy: Policy)
      ensures this.policy == policy && rows == map[]
    {
      this.policy := policy;
      rows := map[];
    }

    method RecordAttempt(ip: Ip, now: int) returns (status: Status)
      modifies this`rows
      ensures rows == AfterRecord(policy, old(rows), ip, now)
      ensures rows - {ip} == old(rows) - {ip} && ip in rows
      ensures status == StatusOf(rows, ip) == Status(rows[ip].attempts, rows[ip].lockedUntil)
      ensures var locked := ip in old(rows) && old(rows)[ip].lockedUntil.Some? && old(rows)[ip].lockedUntil.value > now;
        var goesOn := ip in old(rows) && old(rows)[ip].firstAttemptAt >= now - policy.window;
        if locked then rows[ip] == old(rows)[ip]
        else
          && rows[ip].attempts == (if goesOn then old(rows)[ip].attempts + 1 else 1)
          && rows[ip].firstAttemptAt == (if goesOn then old(rows)[ip].firstAttemptAt else now)
          && rows[ip].lockedUntil ==
               (if rows[ip].attempts >= policy.maxAttempts then Some(now + policy.lockDuration) else None)
    {
      var windowStart := now - policy.window;
      var attempts, firstAttemptAt := 1, now;
      if ip in rows {
        var row := rows[ip];
        if row.lockedUntil.Some? && row.lockedUntil.value > now {
          return Status(row.attempts, row.lockedUntil);
        }
        if row.firstAttemptAt >= windowStart {
          attempts, firstAttemptAt := row.attempts + 1, row.firstAttemptAt;
        }
      }
      var lockedUntil := if attempts >= policy.maxAttempts then Some(now + policy.lockDuration) else None;
      rows := rows[ip := Row(attempts, firstAttemptAt, lockedUntil)];
      status := Status(attempts, lockedUntil);
    }

    /** The answer says at which times an attempt would be turned away: exactly when recording one would
        leave every row as it is. */
    method CheckRateLimit(ip: Ip) returns (status: Status)
      ensures status == StatusOf(rows, ip)
      ensures ip in rows ==> status.attempts == rows[ip].attempts && status.lockedUntil == rows[ip].lockedUntil
      ensures ip !in rows ==> status.attempts == 0 && status.lockedUntil == None
      ensures forall now :: status.IsLocked(now) <==> AfterRecord(policy, rows, ip, now) == rows
    {
      status := if ip in rows then Status(rows[ip].attempts, rows[ip].lockedUntil) else Status(0, None);
    }

    method ResetAttempts(ip: Ip)
      modifies this`rows
      ensures rows == old(rows) - {ip}
    {
      rows := rows - {ip};
    }

    method CleanupExpired(now: int) returns (removed: nat)
      modifies this`rows
      ensures rows == AfterCleanup(old(rows), now)
      ensures removed == |old(rows)| - |rows|
      ensures forall ip :: ip in rows <==>
        ip in old(rows) && (old(rows)[ip].lockedUntil.Some? ==> old(rows)[ip].lockedUntil.value >= now)
      ensures forall ip :: ip in rows ==> rows[ip] == old(rows)[ip]
    {
      var expired := set ip | ip in rows && rows[ip].lockedUntil.Some? && rows[ip].lockedUntil.value < now;
      ghost var before := rows;
      assert expired <= rows.Keys;
      removed := |expired|;
      rows := rows - expired;
      assert rows.Keys == before.Keys - expired;
      assert |rows| == |rows.Keys| && |before| == |before.Keys|;
      assert |before.Keys - expired| == |before.Keys| - |expired|;
    }
  }

  // ---- runs -----------------------------------------------------------------------------------------------

  datatype Event =
    | Record(ip: Ip, at: int)
    | Check(ip: Ip, at: int)
    | Reset(ip: Ip, at: int)
    | Cleanup(at: int)

  function TableAfter(policy: Policy, table: Table, e: Event): Table {
    match e
    case Record(ip, at) => AfterRecord(policy, table, ip, at)
    case Check(_, _) => table
    case Reset(ip, _) => table - {ip}
    case Cleanup(at) => AfterCleanup(table, at)
  }

  function TableAfterAll(policy: Policy, table: Table, events: seq<Event>): Table {
    if events == [] then table
    else TableAfter(policy, TableAfterAll(policy, table, events[..|events| - 1]), events[|events| - 1])
  }

  /** The clock never goes back. */
  predicate InOrder(events: seq<Event>) {
    forall i, j :: 0 <= i < j < |events| ==> events[i].at <= events[j].at
  }

  /** The attempts of an address that were recorded since its last reset. */
  function RecordedSinceReset(policy: Policy, events: seq<Event>, ip: Ip): seq<int> {
    if events == [] then []
    else
      var n := |events| - 1;
      var before := RecordedSinceReset(policy, events[..n], ip);
      match events[n]
      case Record(who, at) =>
        if who == ip && !Blocked(RowOf(TableAfterAll(policy, map[], events[..n]), ip), at) then before + [at] else before
      case Reset(who, _) => if who == ip then [] else before
      case _ => before
  }

  function CountIn(times: seq<int>, from: int, to: int): nat {
    if times == [] then 0
    else CountIn(times[..|times| - 1], from, to) + if from <= times[|times| - 1] < to then 1 else 0
  }

  /** What a window of the policy's length can hold at most. */
  function Bound(policy: Policy): nat {
    if policy.Max() == 1 then 1 else 2 * policy.Max() - 2
  }

  // ---- the bound holds ---------------------------------------------------------------------------------------

  function CountAfter(times: seq<int>, since: int): nat {
    if times == [] then 0
    else CountAfter(times[..|times| - 1], since) + if times[|times| - 1] > since then 1 else 0
  }

  lemma {:induction false} CountInSuffix(times: seq<int>, from: int, to: int)
    ensures CountIn(times, from, to) <= CountAfter(times, from - 1) <= |times|
  {
    if times != [] {
      CountInSuffix(times[..|times| - 1], from, to);
    }
  }

  lemma {:induction false} CountAfterSplit(a: seq<int>, b: seq<int>, since: int)
    ensures CountAfter(a + b, since) == CountAfter(a, since) + CountAfter(b, since)
  {
    if b == [] {
      assert a + b == a;
    } else {
      assert (a + b)[..|a + b| - 1] == a + b[..|b| - 1];
      CountAfterSplit(a, b[..|b| - 1], since);
    }
  }

  lemma {:induction false} CountAfterNarrows(times: seq<int>, since: int, later: int)
    requires since <= later
    ensures CountAfter(times, later) <= CountAfter(times, since)
  {
    if times != [] {
      CountAfterNarrows(times[..|times| - 1], since, later);
    }
  }

  lemma {:induction false} NoneAfter(times: seq<int>, since: int)
    requires forall x :: x in times ==> x <= since
    ensures CountAfter(times, since) == 0
  {
    if times != [] {
      var n := |times| - 1;
      assert times[n] in times;
      forall x | x in times[..n] ensures x <= since {
        assert x in times;
      }
      NoneAfter(times[..n], since);
    }
  }

  /** What is known of an address at time `clock`: how its row accounts for the recorded attempts. */
  ghost predicate Accounted(policy: Policy, row: Option<Row>, times: seq<int>, clock: int) {
    && (forall x :: x in times ==> x <= clock)
    && match row
       case None => forall x :: x in times ==> x <= clock - policy.window
       case Some(Row(n, first, lock)) =>
         && 1 <= n <= |times|
         && var earlier, current := times[..|times| - n], times[|times| - n..];
            var last := times[|times| - 1];
            && current[0] == first
            && (forall x :: x in earlier ==> x <= first)
            && (forall x :: x in current ==> first <= x <= last)
            && lock == (if n >= policy.maxAttempts then Some(last + policy.lockDuration) else None)
            && CountAfter(earlier, first - policy.window) <= if policy.Max() >= 2 then policy.Max() - 2 else 0
  }

  lemma AccountedLater(policy: Policy, row: Option<Row>, times: seq<int>, clock: int, later: int)
    requires Accounted(policy, row, times, clock) && clock <= later
    ensures Accounted(policy, row, times, later)
  {
  }

  /** A recorded attempt keeps the account, and few attempts lie within a window before it. */
  lemma RecordKeepsAccount(policy: Policy, row: Option<Row>, times: seq<int>, now: int)
    requires policy.lockDuration >= policy.window
    requires Accounted(policy, row, times, now) && !Blocked(row, now)
    ensures Accounted(policy, Some(Counted(policy, row, now)), times + [now], now)
    ensures CountAfter(times, now - policy.window) + 1 <= Bound(policy)
  {
    if row.None? {
      NoneAfter(times, now - policy.window);
      StartsWindow(policy, row, times, now);
    } else if row.value.firstAttemptAt < now - policy.window {
      OldWindowLeaves(policy, row.value, times, now);
      StartsWindow(policy, row, times, now);
    } else {
      SameWindow(policy, row.value, times, now);
    }
  }

  lemma StartsWindow(policy: Policy, row: Option<Row>, times: seq<int>, now: int)
    requires Accounted(policy, row, times, now)
    requires row.None? || row.value.firstAttemptAt < now - policy.window
    requires CountAfter(times, now - policy.window) <= if policy.Max() >= 2 then policy.Max() - 2 else 0
    ensures Accounted(policy, Some(Counted(policy, row, now)), times + [now], now)
  {
    var more := times + [now];
    assert more[..|more| - 1] == times && more[|more| - 1..] == [now];
  }

  /** Of a window that has run out, its first attempt is out of reach; of a locked one, all are. */
  lemma OldWindowLeaves(policy: Policy, row: Row, times: seq<int>, now: int)
    requires policy.lockDuration >= policy.window
    requires Accounted(policy, Some(row), times, now) && !Blocked(Some(row), now)
    requires row.firstAttemptAt < now - policy.window
    ensures CountAfter(times, now - policy.window) <= if policy.Max() >= 2 then policy.Max() - 2 else 0
  {
    var since, k := now - policy.window, |times| - row.attempts;
    if row.attempts >= policy.maxAttempts {
      assert times == times[..k] + times[k..];
      NoneAfter(times, since);
    } else {
      assert times == times[..k + 1] + times[k + 1..];
      assert times[..k + 1] == times[..k] + [times[k]];
      NoneAfter(times[..k + 1], since);
      CountAfterSplit(times[..k + 1], times[k + 1..], since);
      CountInSuffix(times[k + 1..], since + 1, since + 1);
    }
  }

  lemma SameWindow(policy: Policy, row: Row, times: seq<int>, now: int)
    requires policy.lockDuration >= policy.window
    requires Accounted(policy, Some(row), times, now) && !Blocked(Some(row), now)
    requires row.firstAttemptAt >= now - policy.window
    ensures Accounted(policy, Some(Counted(policy, Some(row), now)), times + [now], now)
    ensures CountAfter(times, now - policy.window) + 1 <= Bound(policy)
  {
    SameWindowAccounted(policy, row, times, now);
    SameWindowCount(policy, row, times, now);
  }

  lemma SameWindowAccounted(policy: Policy, row: Row, times: seq<int>, now: int)
    requires Accounted(policy, Some(row), times, now)
    requires row.firstAttemptAt >= now - policy.window
    ensures Accounted(policy, Some(Counted(policy, Some(row), now)), times + [now], now)
  {
    hide CountAfter;
    var k := |times| - row.attempts;
    var more := times + [now];
    assert more[..|more| - (row.attempts + 1)] == times[..k];
    assert more[|more| - (row.attempts + 1)..] == times[k..] + [now];
    assert times[k..][0] in times;
    forall x | x in times[k..] + [now] ensures row.firstAttemptAt <= x <= now {
      assert x in times[k..] ==> x in times;
    }
    assert (times[k..] + [now])[0] == row.firstAttemptAt;
  }

  lemma SameWindowCount(policy: Policy, row: Row, times: seq<int>, now: int)
    requires policy.lockDuration >= policy.window
    requires Accounted(policy, Some(row), times, now) && !Blocked(Some(row), now)
    requires row.firstAttemptAt >= now - policy.window
    ensures CountAfter(times, now - policy.window) + 1 <= Bound(policy)
  {
    hide CountAfter;
    var since, k := now - policy.window, |times| - row.attempts;
    assert times == times[..k] + times[k..];
    assert times[k..][0] in times && times[k..][0] in times[k..];
    if row.attempts >= policy.maxAttempts {
      forall x | x in times ensures x <= since {
        assert x in times[..k] || x in times[k..];
      }
      NoneAfter(times, since);
    } else {
      CountAfterSplit(times[..k], times[k..], since);
      CountAfterNarrows(times[..k], row.firstAttemptAt - policy.window, since);
      CountInSuffix(times[k..], since + 1, since + 1);
    }
  }

  lemma {:induction false} EventsAccounted(policy: Policy, events: seq<Event>, ip: Ip, clock: int)
    requires policy.lockDuration >= policy.window
    requires InOrder(events) && forall i :: 0 <= i < |events| ==> events[i].at <= clock
    ensures Accounted(policy, RowOf(TableAfterAll(policy, map[], events), ip), RecordedSinceReset(policy, events, ip), clock)
  {
    hide Accounted, Counted;
    if events == [] {
      assert Accounted(policy, None, [], clock) by { NothingAccounted(policy, clock); }
    } else {
      var n := |events| - 1;
      var e := events[n];
      EventsAccounted(policy, events[..n], ip, e.at);
      var table, times := TableAfterAll(policy, map[], events[..n]), RecordedSinceReset(policy, events[..n], ip);
      match e {
        case Record(who, at) =>
          if who == ip && !Blocked(RowOf(table, ip), at) {
            RecordKeepsAccount(policy, RowOf(table, ip), times, at);
          }
        case Check(_, _) =>
        case Reset(_, _) =>
          NothingAccounted(policy, e.at);
        case Cleanup(at) =>
          CleanupKeepsAccount(policy, table, ip, times, at);
      }
      AccountedLater(policy, RowOf(TableAfterAll(policy, map[], events), ip), RecordedSinceReset(policy, events, ip), e.at, clock);
    }
  }

  lemma NothingAccounted(policy: Policy, clock: int)
    ensures Accounted(policy, None, [], clock)
  {
  }

  lemma CleanupKeepsAccount(policy: Policy, table: Table, ip: Ip, times: seq<int>, now: int)
    requires policy.lockDuration >= policy.window
    requires Accounted(policy, RowOf(table, ip), times, now)
    ensures Accounted(policy, RowOf(AfterCleanup(table, now), ip), times, now)
  {
    if ip in table && LockExpired(table[ip], now) {
      var k := |times| - table[ip].attempts;
      assert times == times[..k] + times[k..];
      assert times[k..][0] in times[k..];
      forall x | x in times ensures x <= now - policy.window {
        assert x in times[..k] || x in times[k..];
      }
    }
  }

  /** Between two resets, no half-open interval of one window length holds more recorded attempts of an
      address than the bound, whatever else happens. */
  lemma {:induction false} WindowNeverExceedsBound(policy: Policy, events: seq<Event>, ip: Ip, from: int)
    requires policy.lockDuration >= policy.window && InOrder(events)
    ensures CountIn(RecordedSinceReset(policy, events, ip), from, from + policy.window) <= Bound(policy)
    ensures Bound(policy) <= 2 * policy.Max() - 1
  {
    hide Counted;
    if events != [] {
      var n := |events| - 1;
      var e := events[n];
      var table, times := TableAfterAll(policy, map[], events[..n]), RecordedSinceReset(policy, events[..n], ip);
      WindowNeverExceedsBound(policy, events[..n], ip, from);
      if e.Record? && e.ip == ip && !Blocked(RowOf(table, ip), e.at) {
        assert (times + [e.at])[..|times|] == times;
        if from <= e.at < from + policy.window {
          EventsAccounted(policy, events[..n], ip, e.at);
          RecordKeepsAccount(policy, RowOf(table, ip), times, e.at);
          CountInSuffix(times, from, from + policy.window);
          CountAfterNarrows(times, e.at - policy.window, from - 1);
        }
      }
    }
  }

  // ---- the bound is reached -----------------------------------------------------------------------------------------

  /** After the events, which end by `at`, the address has this row and these recorded attempts. */
  ghost predicate Reaches(policy: Policy, events: seq<Event>, ip: Ip, at: int, row: Option<Row>, times: seq<int>) {
    && InOrder(events) && (forall i :: 0 <= i < |events| ==> events[i].at <= at)
    && RowOf(TableAfterAll(policy, map[], events), ip) == row
    && RecordedSinceReset(policy, events, ip) == times
  }

  lemma RecordReaches(policy: Policy, events: seq<Event>, ip: Ip, at: int, row: Option<Row>, times: seq<int>)
    requires Reaches(policy, events, ip, at, row, times) && !Blocked(row, at)
    ensures Reaches(policy, events + [Record(ip, at)], ip, at, Some(Counted(policy, row, at)), times + [at])
  {
    hide Counted;
    assert (events + [Record(ip, at)])[..|events|] == events;
  }

  lemma CountOneMore(times: seq<int>, at: int, from: int, to: int)
    requires from <= at < to
    ensures CountIn(times + [at], from, to) == CountIn(times, from, to) + 1
  {
    assert (times + [at])[..|times|] == times;
  }

  /** Attempts at one time fill the window up to the maximum. */
  lemma {:induction false} RecordsReach(policy: Policy, events: seq<Event>, ip: Ip, at: int, row: Option<Row>, times: seq<int>,
                                        n: nat, from: int, to: int)
    returns (longer: seq<Event>, all: seq<int>, last: Option<Row>)
    requires Reaches(policy, events, ip, at, row, times) && from <= at < to
    requires row.Some? ==> row.value.lockedUntil.None?
    requires n == 0 || Counted(policy, row, at).attempts + n - 1 <= policy.maxAttempts
    ensures Reaches(policy, longer, ip, at, last, all)
    ensures CountIn(all, from, to) == CountIn(times, from, to) + n
    ensures n == 0 ==> last == row
    ensures n > 0 ==>
      && last.Some? && last.value.firstAttemptAt == Counted(policy, row, at).firstAttemptAt
      && last.value.attempts == Counted(policy, row, at).attempts + n - 1
      && (last.value.attempts < policy.maxAttempts ==> last.value.lockedUntil.None?)
  {
    hide Reaches, CountIn;
    if n == 0 {
      longer, all, last := events, times, row;
    } else {
      var shorter, before, mid := RecordsReach(policy, events, ip, at, row, times, n - 1, from, to);
      RecordReaches(policy, shorter, ip, at, mid, before);
      longer, all, last := shorter + [Record(ip, at)], before + [at], Some(Counted(policy, mid, at));
      CountOneMore(before, at, from, to);
    }
  }

  /** The bound is sharp: one attempt, the rest of a window but one as it ends, then a full new window. */
  lemma BoundIsReached(policy: Policy, ip: Ip) returns (events: seq<Event>, from: int)
    requires policy.maxAttempts >= 1 && policy.window >= 2 && policy.lockDuration >= policy.window
    ensures InOrder(events)
    ensures CountIn(RecordedSinceReset(policy, events, ip), from, from + policy.window) == Bound(policy)
  {
    hide TableAfterAll, RecordedSinceReset, CountIn;
    NothingReached(policy, ip);
    if policy.maxAttempts == 1 {
      var all, last;
      events, all, last := RecordsReach(policy, [], ip, 0, None, [], 1, 0, policy.window);
      from := 0;
      NoneCounted(0, policy.window);
    } else {
      from := policy.window;
      events := TwoWindows(policy, ip);
    }
  }

  lemma NoneCounted(from: int, to: int)
    ensures CountIn([], from, to) == 0
    ensures 0 < from ==> CountIn([0], from, to) == 0
  {
    assert [0][..0] == [];
  }

  lemma TwoWindows(policy: Policy, ip: Ip) returns (events: seq<Event>)
    requires policy.maxAttempts >= 2 && policy.window >= 2 && policy.lockDuration >= policy.window
    ensures InOrder(events)
    ensures CountIn(RecordedSinceReset(policy, events, ip), policy.window, policy.window + policy.window) == 2 * policy.maxAttempts - 2
  {
    hide TableAfterAll, RecordedSinceReset, CountIn;
    var w := policy.window;
    NothingReached(policy, ip);
    RecordReaches(policy, [], ip, 0, None, []);
    assert [] + [Record(ip, 0)] == [Record(ip, 0)] && [] + [0] == [0];
    var row := Counted(policy, None, 0);
    LaterReaches(policy, [Record(ip, 0)], ip, 0, Some(row), [0], w);
    var first, times, mid := RecordsReach(policy, [Record(ip, 0)], ip, w, Some(row), [0], policy.maxAttempts - 2, w, w + w);
    LaterReaches(policy, first, ip, w, mid, times, w + 1);
    var all, last;
    events, all, last := RecordsReach(policy, first, ip, w + 1, mid, times, policy.maxAttempts, w, w + w);
    NoneCounted(w, w + w);
  }

  lemma NothingReached(policy: Policy, ip: Ip)
    ensures Reaches(policy, [], ip, 0, None, [])
  {
  }

  lemma LaterReaches(policy: Policy, events: seq<Event>, ip: Ip, at: int, row: Option<Row>, times: seq<int>, later: int)
    requires Reaches(policy, events, ip, at, row, times) && at <= later
    ensures Reaches(policy, events, ip, later, row, times)
  {
  }

  // ---- cleaning up changes nothing --------------------------------------------------------------------------------

  datatype Answer = Recorded(status: Status) | Checked(locked: bool)

  /** What the callers see: the status of each record, the lock decision of each check. */
  function Answers(policy: Policy, table: Table, events: seq<Event>): seq<Answer>
    decreases |events|
  {
    if events == [] then []
    else
      var next := TableAfter(policy, table, events[0]);
      var rest := Answers(policy, next, events[1..]);
      match events[0]
      case Record(ip, _) => [Recorded(StatusOf(next, ip))] + rest
      case Check(ip, at) => [Checked(StatusOf(table, ip).IsLocked(at))] + rest
      case _ => rest
  }

  function WithoutCleanup(events: seq<Event>): seq<Event> {
    if events == [] then []
    else (if events[0].Cleanup? then [] else [events[0]]) + WithoutCleanup(events[1..])
  }

  /** Rows that were cleaned up differ from rows that were not only by an expired lock, and a lock that
      lasts as long as the window outlives the window. */
  ghost predicate CleanedUp(policy: Policy, cleaned: Table, kept: Table, clock: int) {
    forall ip ::
      || RowOf(cleaned, ip) == RowOf(kept, ip)
      || (ip !in cleaned && ip in kept && Outlived(policy, kept[ip], clock))
  }

  predicate Outlived(policy: Policy, row: Row, clock: int) {
    row.lockedUntil.Some? && row.lockedUntil.value < clock && row.firstAttemptAt < clock - policy.window
  }

  /** A lock is set at or after the first attempt of its window. */
  ghost predicate LocksOutlive(policy: Policy, table: Table, clock: int) {
    forall ip :: ip in table ==>
      && table[ip].firstAttemptAt <= clock
      && (table[ip].lockedUntil.Some? ==> table[ip].firstAttemptAt + policy.lockDuration <= table[ip].lockedUntil.value)
  }

  lemma LocksStillOutlive(policy: Policy, table: Table, e: Event, clock: int)
    requires LocksOutlive(policy, table, clock) && clock <= e.at
    ensures LocksOutlive(policy, TableAfter(policy, table, e), e.at)
  {
  }

  /** Cleaning up at any points of a run changes no answer, as long as the lock lasts at least as long
      as the window. */
  lemma {:induction false} CleanupIsUnseen(policy: Policy, cleaned: Table, kept: Table, events: seq<Event>, clock: int)
    requires policy.lockDuration >= policy.window
    requires InOrder(events) && (events != [] ==> clock <= events[0].at)
    requires CleanedUp(policy, cleaned, kept, clock) && LocksOutlive(policy, kept, clock)
    ensures Answers(policy, cleaned, events) == Answers(policy, kept, WithoutCleanup(events))
    decreases |events|
  {
    if events != [] {
      var e, rest := events[0], events[1..];
      var cleaned' := TableAfter(policy, cleaned, e);
      var kept' := if e.Cleanup? then kept else TableAfter(policy, kept, e);
      OneStepUnseen(policy, cleaned, kept, e, clock);
      CleanupIsUnseen(policy, cleaned', kept', rest, e.at);
      if !e.Cleanup? {
        assert WithoutCleanup(events)[0] == e && WithoutCleanup(events)[1..] == WithoutCleanup(rest);
      } else {
        assert WithoutCleanup(events) == WithoutCleanup(rest);
      }
    }
  }

  lemma OneStepUnseen(policy: Policy, cleaned: Table, kept: Table, e: Event, clock: int)
    requires policy.lockDuration >= policy.window && clock <= e.at
    requires CleanedUp(policy, cleaned, kept, clock) && LocksOutlive(policy, kept, clock)
    ensures var kept' := if e.Cleanup? then kept else TableAfter(policy, kept, e);
      && CleanedUp(policy, TableAfter(policy, cleaned, e), kept', e.at) && LocksOutlive(policy, kept', e.at)
      && (e.Record? ==> StatusOf(TableAfter(policy, cleaned, e), e.ip) == StatusOf(kept', e.ip))
      && (e.Check? ==> (StatusOf(cleaned, e.ip).IsLocked(e.at) <==> StatusOf(kept, e.ip).IsLocked(e.at)))
  {
    if !e.Cleanup? {
      LocksStillOutlive(policy, kept, e, clock);
    }
    var cleaned' := TableAfter(policy, cleaned, e);
    var kept' := if e.Cleanup? then kept else TableAfter(policy, kept, e);
    forall ip
      ensures RowOf(cleaned', ip) == RowOf(kept', ip) || (ip !in cleaned' && ip in kept' && Outlived(policy, kept'[ip], e.at))
    {
      assert RowOf(cleaned, ip) == RowOf(kept, ip) || (ip !in cleaned && ip in kept && Outlived(policy, kept[ip], clock));
    }
  }

  ghost predicate CleanupTransparent(policy: Policy) {
    forall events: seq<Event> :: InOrder(events) ==> Answers(policy, map[], events) == Answers(policy, map[], WithoutCleanup(events))
  }

  lemma {:induction false} AfterFirst(policy: Policy, table: Table, events: seq<Event>)
    requires events != []
    ensures TableAfterAll(policy, table, events) == TableAfterAll(policy, TableAfter(policy, table, events[0]), events[1..])
    decreases |events|
  {
    hide TableAfter;
    var n := |events| - 1;
    if n == 0 {
      assert events[..0] == [] && events[1..] == [];
    } else {
      AfterFirst(policy, table, events[..n]);
      assert events[..n][1..] == events[1..][..n - 1];
    }
  }

  lemma {:induction false} AnswersAppend(policy: Policy, table: Table, a: seq<Event>, b: seq<Event>)
    ensures Answers(policy, table, a + b) == Answers(policy, table, a) + Answers(policy, TableAfterAll(policy, table, a), b)
    decreases |a|
  {
    hide TableAfter;
    if a == [] {
      assert a + b == b;
    } else {
      assert (a + b)[1..] == a[1..] + b;
      AfterFirst(policy, table, a);
      AnswersAppend(policy, TableAfter(policy, table, a[0]), a[1..], b);
    }
  }

  lemma {:induction false} WithoutAppend(a: seq<Event>, b: seq<Event>)
    ensures WithoutCleanup(a + b) == WithoutCleanup(a) + WithoutCleanup(b)
    decreases |a|
  {
    if a == [] {
      assert a + b == b;
    } else {
      assert (a + b)[1..] == a[1..] + b;
      WithoutAppend(a[1..], b);
    }
  }

  /** The attempts that fill a window at time 0. */
  function Burst(n: nat): seq<Event> {
    seq(n, i => Record(0, 0))
  }

  lemma OneLonger(n: nat)
    requires n > 0
    ensures Burst(n) == Burst(n - 1) + [Record(0, 0)]
    ensures |Burst(n)| == n && Burst(n)[..n - 1] == Burst(n - 1) && Burst(n)[n - 1] == Record(0, 0)
  {
  }

  lemma {:induction false} BurstHasNoCleanup(n: nat)
    ensures WithoutCleanup(Burst(n)) == Burst(n)
  {
    if n > 0 {
      BurstHasNoCleanup(n - 1);
      OneLonger(n);
      hide Burst;
      WithoutAppend(Burst(n - 1), [Record(0, 0)]);
      assert WithoutCleanup([Record(0, 0)]) == [Record(0, 0)];
    }
  }

  /** The row after `n` attempts at time 0. */
  function FilledRow(policy: Policy, n: nat): Row {
    Row(n, 0, if n >= policy.maxAttempts then Some(policy.lockDuration) else None)
  }

  lemma OneMoreAttempt(policy: Policy, table: Table, n: nat)
    requires n < policy.Max()
    requires table == if n == 0 then map[] else map[0 := FilledRow(policy, n)]
    ensures AfterRecord(policy, table, 0, 0) == map[0 := FilledRow(policy, n + 1)]
  {
  }

  lemma {:induction false} BurstFills(policy: Policy, n: nat)
    requires n <= policy.Max()
    ensures TableAfterAll(policy, map[], Burst(n)) == if n == 0 then map[] else map[0 := FilledRow(policy, n)]
  {
    if n > 0 {
      BurstFills(policy, n - 1);
      OneLonger(n);
      hide Burst, FilledRow, AfterRecord;
      OneMoreAttempt(policy, TableAfterAll(policy, map[], Burst(n - 1)), n - 1);
    }
  }

  /** With a shorter lock the cleanup shows: it forgets a window that is still open. */
  lemma ShortLockIsSeen(policy: Policy)
    requires policy.lockDuration < policy.window
    ensures !CleanupTransparent(policy)
  {
    var events := Burst(policy.Max()) + [Cleanup(policy.lockDuration + 1), Record(0, policy.lockDuration + 1)];
    BurstInOrder(policy.Max(), policy.lockDuration + 1);
    BurstIsSeen(policy);
    hide InOrder, Answers, WithoutCleanup, Burst;
    assert InOrder(events);
  }

  lemma BurstIsSeen(policy: Policy)
    requires policy.lockDuration < policy.window
    ensures var at := policy.lockDuration + 1;
            var events := Burst(policy.Max()) + [Cleanup(at), Record(0, at)];
      Answers(policy, map[], events) != Answers(policy, map[], WithoutCleanup(events))
  {
    var m, at := policy.Max(), policy.lockDuration + 1;
    var record, tail := [Record(0, at)], [Cleanup(at), Record(0, at)];
    var burst := Burst(m);
    BurstFills(policy, m);
    BurstHasNoCleanup(m);
    WithoutAppend(burst, tail);
    var table := TableAfterAll(policy, map[], burst);
    AfterBurst(policy, table, at);
    CleanupLeavesOut(at);
    hide TableAfterAll, TableAfter, AfterRecord, AfterCleanup, Answers, WithoutCleanup, Burst, InOrder;
    AnswersAppend(policy, map[], burst, tail);
    AnswersAppend(policy, map[], burst, record);
    DifferAfter(Answers(policy, map[], burst), Answers(policy, table, tail), Answers(policy, table, record));
  }

  lemma DifferAfter<T>(past: seq<T>, a: seq<T>, b: seq<T>)
    requires a != [] && b != [] && a[0] != b[0]
    ensures past + a != past + b
  {
    assert (past + a)[|past|] == a[0] && (past + b)[|past|] == b[0];
  }

  lemma BurstInOrder(n: nat, at: nat)
    ensures InOrder(Burst(n) + [Cleanup(at), Record(0, at)])
  {
  }

  lemma CleanupLeavesOut(at: int)
    ensures WithoutCleanup([Cleanup(at), Record(0, at)]) == [Record(0, at)] == WithoutCleanup([Record(0, at)])
  {
    assert [Record(0, at)][1..] == [];
    assert WithoutCleanup([Record(0, at)]) == [Record(0, at)];
    assert [Cleanup(at), Record(0, at)][1..] == [Record(0, at)];
  }

  lemma AfterBurst(policy: Policy, table: Table, at: int)
    requires policy.lockDuration < policy.window && at == policy.lockDuration + 1
    requires table == map[0 := Row(policy.Max(), 0, Some(policy.lockDuration))]
    ensures Answers(policy, table, [Cleanup(at), Record(0, at)]) != [] && Answers(policy, table, [Record(0, at)]) != []
    ensures Answers(policy, table, [Cleanup(at), Record(0, at)])[0] != Answers(policy, table, [Record(0, at)])[0]
  {
    var tail := [Cleanup(at), Record(0, at)];
    assert tail[1..] == [Record(0, at)];
    assert AfterCleanup(table, at) == map[];
    FirstAnswer(policy, map[], at);
    FirstAnswer(policy, table, at);
  }

  lemma FirstAnswer(policy: Policy, table: Table, at: int)
    ensures Answers(policy, table, [Record(0, at)]) == [Recorded(StatusOf(AfterRecord(policy, table, 0, at), 0))]
  {
  }

  /** So cleaning up is invisible to every run exactly when the lock lasts at least as long as the window. */
  lemma CleanupTransparentIff(policy: Policy)
    ensures CleanupTransparent(policy) <==> policy.lockDuration >= policy.window
  {
    if policy.lockDuration < policy.window {
      ShortLockIsSeen(policy);
    } else {
      forall events: seq<Event> | InOrder(events)
        ensures Answers(policy, map[], events) == Answers(policy, map[], WithoutCleanup(events))
      {
        CleanupIsUnseen(policy, map[], map[], events, if events == [] then 0 else events[0].at);
      }
    }
  }
}
