/**
 * The `reminders` table that the two reminder dispatchers (`api/cron-recurrent.js` and
 * `api/check-reminders.js`) read and update: its rows, the due-window query both run, the
 * single-row updates they send, and the `HH:MM` each prints in its message.
 */
module Reminders {
  import opened Wrappers
  import opened Clock
  import opened JsText
  import opened Sorting

  /** The `status` column. */
  datatype Status = Pending | Sent | Completed | Cancelled | Expired

  datatype Reminder = Reminder(
    id: nat,
    userId: nat,
    task: string,
    scheduledTime: int,
    status: Status,
    confirmed: bool,
    parentId: Option<nat>,    // the root of the reminder's escalation group; None on a root
    recurrenceCount: int,
    sentAt: Option<int>,
    updatedAt: int)

  /** `id` is the table's primary key. */
  predicate UniqueIds(rows: seq<Reminder>) {
    forall i, j :: 0 <= i < j < |rows| ==> rows[i].id != rows[j].id
  }

  function IdsOf(rows: seq<Reminder>): set<nat> {
    set r | r in rows :: r.id
  }

  /** Under the primary key, the row a fetched copy came from is the only row with its id. */
  lemma SameIdSameRow(rows: seq<Reminder>, k: nat, x: Reminder)
    requires UniqueIds(rows) && k < |rows| && x in rows && rows[k].id == x.id
    ensures rows[k] == x
  {
    var i :| 0 <= i < |rows| && rows[i] == x;
    assert i == k;
  }

  // ------------------------------------------------ the due-window query

  /** `.eq('status', 'pending')`, when `unconfirmedOnly` also `.eq('confirmed', false)`, then
      `.gte('scheduled_time', lo).lte('scheduled_time', hi)`: both bounds inclusive. */
  predicate Matches(r: Reminder, lo: int, hi: int, unconfirmedOnly: bool) {
    && r.status == Pending
    && (!unconfirmedOnly || !r.confirmed)
    && lo <= r.scheduledTime <= hi
  }

  /** The matching rows in table order. */
  function Select(rows: seq<Reminder>, lo: int, hi: int, unconfirmedOnly: bool): (s: seq<Reminder>)
    ensures forall r :: r in s <==> r in rows && Matches(r, lo, hi, unconfirmedOnly)
    ensures UniqueIds(rows) ==> UniqueIds(s)
  {
    if rows == [] then
      []
    else
      var init, last := rows[..|rows| - 1], rows[|rows| - 1];
      assert forall r :: r in rows <==> r in init || r == last;
      var s := Select(init, lo, hi, unconfirmedOnly);
      if Matches(last, lo, hi, unconfirmedOnly) then
        assert UniqueIds(rows) ==> forall r :: r in s ==> r.id != last.id;
        s + [last]
      else
        s
  }

  /** `.order('scheduled_time', { ascending: true })` */
  predicate TimeLe(a: Reminder, b: Reminder) {
    a.scheduledTime <= b.scheduledTime
  }

  /** A row whose id no other row has can be put in front. */
  lemma ConsUnique(x: Reminder, xs: seq<Reminder>)
    requires UniqueIds(xs) && forall r :: r in xs ==> r.id != x.id
    ensures UniqueIds([x] + xs)
  {
    var s := [x] + xs;
    forall i, j | 0 <= i < j < |s| ensures s[i].id != s[j].id {
      assert s[j] == xs[j - 1] && xs[j - 1] in xs;
      if i > 0 {
        assert s[i] == xs[i - 1];
      }
    }
  }

  lemma {:induction false} InsertUnique(x: Reminder, xs: seq<Reminder>)
    requires UniqueIds(xs) && x.id !in IdsOf(xs)
    ensures UniqueIds(Insert(x, xs, TimeLe))
  {
    if xs == [] || TimeLe(x, xs[0]) {
      ConsUnique(x, xs);
    } else {
      var tail := xs[1..];
      assert IdsOf(tail) <= IdsOf(xs) by {
        forall r | r in tail ensures r in xs { }
      }
      InsertUnique(x, tail);
      var ins := Insert(x, tail, TimeLe);
      HeadNotInInsert(x, xs, ins);
      ConsUnique(xs[0], ins);
      assert Insert(x, xs, TimeLe) == [xs[0]] + ins;
    }
  }

  /** Inserting `x` into the tail adds no row with the head's id. */
  lemma HeadNotInInsert(x: Reminder, xs: seq<Reminder>, ins: seq<Reminder>)
    requires UniqueIds(xs) && xs != [] && x.id !in IdsOf(xs)
    requires multiset(ins) == multiset(xs[1..]) + multiset{x}
    ensures forall r :: r in ins ==> r.id != xs[0].id
  {
    forall r | r in ins ensures r.id != xs[0].id {
      assert r in multiset(ins);
      if r != x {
        assert r in multiset(xs[1..]);
        var j :| 0 <= j < |xs| - 1 && xs[1..][j] == r;
        assert xs[j + 1] == r;
      } else {
        assert xs[0] in xs;
      }
    }
  }

  lemma {:induction false} SortUnique(xs: seq<Reminder>)
    ensures UniqueIds(xs) ==> UniqueIds(SortBy(xs, TimeLe))
  {
    if xs != [] && UniqueIds(xs) {
      var tail := xs[1..];
      SortUnique(tail);
      var sorted := SortBy(tail, TimeLe);
      forall r | r in sorted ensures r.id != xs[0].id {
        assert r in multiset(sorted);
        var j :| 0 <= j < |tail| && tail[j] == r;
        assert xs[j + 1] == r;
      }
      InsertUnique(xs[0], sorted);
    }
  }

  /** What a dispatcher fetches: the matching rows, earliest first, each once. */
  function Fetch(rows: seq<Reminder>, lo: int, hi: int, unconfirmedOnly: bool): (f: seq<Reminder>)
    ensures forall r :: r in f <==> r in rows && Matches(r, lo, hi, unconfirmedOnly)
    ensures Sorted(f, TimeLe)
    ensures UniqueIds(rows) ==> UniqueIds(f)
  {
    var s := Select(rows, lo, hi, unconfirmedOnly);
    assert Total(TimeLe);
    SortUnique(s);
    var f := SortBy(s, TimeLe);
    assert forall r :: r in f <==> r in multiset(s);
    f
  }

  // ------------------------------------------------ single-row updates

  /** The `.update({...}).eq('id', id)` calls of the dispatchers, by the columns they write. */
  datatype Patch =
    | MarkCancelled(at: int)                    // status cancelled, confirmed, updated_at
    | MarkSent(at: int)                         // status sent, sent_at, updated_at
    | Reschedule(time: int, count: int, at: int)  // scheduled_time, recurrence_count, updated_at
    | MarkExpired(at: int)                      // status expired, updated_at

  function Apply(r: Reminder, p: Patch): Reminder {
    match p
    case MarkCancelled(at) => r.(status := Cancelled, confirmed := true, updatedAt := at)
    case MarkSent(at) => r.(status := Sent, sentAt := Some(at), updatedAt := at)
    case Reschedule(time, count, at) => r.(scheduledTime := time, recurrenceCount := count, updatedAt := at)
    case MarkExpired(at) => r.(status := Expired, updatedAt := at)
  }

  /** No update writes `id`, so every update keeps the row's identity. */
  lemma ApplyKeepsIdentity(r: Reminder, p: Patch)
    ensures Apply(r, p).id == r.id && Apply(r, p).userId == r.userId && Apply(r, p).task == r.task
    ensures Apply(r, p).parentId == r.parentId
    ensures r.confirmed ==> Apply(r, p).confirmed
  {
  }

  function UpdateById(rows: seq<Reminder>, id: nat, p: Patch): (r: seq<Reminder>)
    ensures |r| == |rows|
    ensures forall k :: 0 <= k < |rows| ==> r[k] == if rows[k].id == id then Apply(rows[k], p) else rows[k]
  {
    seq(|rows|, k requires 0 <= k < |rows| => if rows[k].id == id then Apply(rows[k], p) else rows[k])
  }

  /** An update whose error the handler never reads: the row changes only when it is stored. */
  function StoreIf(ok: bool, rows: seq<Reminder>, id: nat, p: Patch): seq<Reminder> {
    if ok then UpdateById(rows, id, p) else rows
  }

  // ------------------------------------------------ the time in a message

  /** `getHours().toString().padStart(2, '0') + ':' + getMinutes().toString().padStart(2, '0')` */
  function ClockText(t: int): string {
    Pad2(HourOfDay(t)) + ":" + Pad2(MinuteOfHour(t))
  }

  /** The printed time is exactly `HH:MM`, and reading its two fields back gives the hour and the
      minute of the instant. */
  lemma ClockTextReadsBack(t: int)
    ensures var s := ClockText(t);
      && |s| == 5 && s[2] == ':' && AllDigits(s[..2]) && AllDigits(s[3..])
      && ParseDecimal(s[..2]) == HourOfDay(t) < 24
      && ParseDecimal(s[3..]) == MinuteOfHour(t) < 60
  {
    ClockFieldsBounded(t);
    var h, m := Pad2(HourOfDay(t)), Pad2(MinuteOfHour(t));
    var s := h + ":" + m;
    assert s[..2] == h && s[3..] == m;
  }

  lemma ClockFieldsBounded(t: int)
    ensures HourOfDay(t) < 24 && MinuteOfHour(t) < 60
  {
    assert t % DAY < 24 * HOUR;
    assert t % HOUR < 60 * MINUTE;
  }

  // ------------------------------------------------ the table

  /** The `reminders` table as the dispatchers see it. */
  class ReminderTable {
    var rows: seq<Reminder>

    predicate Valid()
      reads this
    {
      UniqueIds(rows)
    }

    constructor(initial: seq<Reminder>)
      requires UniqueIds(initial)
      ensures Valid() && rows == initial
    {
      rows := initial;
    }
  }
}
