/**
 * One run of the escalating-reminder dispatcher (`api/cron-recurrent.js`). It fetches the
 * pending, unconfirmed reminders due within two minutes of the run's instant, earliest first.
 * For each one it does one of three things:
 *  - it cancels the reminder when its group's root is already confirmed;
 *  - it sends a message framed by the reminder's place in its escalation group, and marks the
 *    reminder sent when that works;
 *  - it moves the reminder five minutes on when the send fails for lack of permission.
 * Then it expires every pending, unconfirmed reminder more than an hour late.
 */
module RecurrentCron {
  import opened Wrappers
  import opened Clock
  import opened JsText
  import opened Reminders

  /** How far either side of the run's instant a reminder counts as due. */
  const MARGIN: int := 2 * MINUTE
  /** How far on a reminder is moved when its recipient cannot be reached. */
  const RETRY_DELAY: int := 5 * MINUTE
  /** How late a pending reminder may be before the run expires it. */
  const EXPIRY_AGE: int := 60 * MINUTE

  const DB_ERROR: string := "Erro no banco de dados"

  /** The reminders one run fetches. */
  function Due(rows: seq<Reminder>, now: int): seq<Reminder> {
    Fetch(rows, now - MARGIN, now + MARGIN, true)
  }

  // ------------------------------------------------ escalation groups

  /** `if (lembrete.parent_id)`: both a missing id and the id 0 read as false. */
  predicate HasParent(r: Reminder) {
    r.parentId.Some? && r.parentId.value != 0
  }

  /** `lembrete.parent_id || lembrete.id`: the id that names the reminder's escalation group. */
  function GroupRoot(r: Reminder): nat {
    if HasParent(r) then r.parentId.value else r.id
  }

  /** The rows with `id`, in table order. */
  function WithId(rows: seq<Reminder>, id: nat): (m: seq<Reminder>)
    ensures forall r :: r in m <==> r in rows && r.id == id
    ensures UniqueIds(rows) ==> |m| <= 1
  {
    if rows == [] then
      []
    else
      var init, last := rows[..|rows| - 1], rows[|rows| - 1];
      assert forall r :: r in rows <==> r in init || r == last;
      var m := WithId(init, id);
      if last.id == id then
        assert UniqueIds(rows) ==> forall r :: r in init ==> r.id != last.id;
        assert m != [] ==> m[0] in m && m[0].id == id;
        m + [last]
      else
        m
  }

  /** `.select('confirmed').eq('id', parent_id).single()` and `parent?.confirmed`: `.single()`
      yields a row only when exactly one row has the id. */
  predicate ParentConfirmed(rows: seq<Reminder>, pid: nat) {
    var m := WithId(rows, pid);
    |m| == 1 && m[0].confirmed
  }

  /** Under the primary key, the lookup finds the parent confirmed exactly when the table holds a
      confirmed row with that id. */
  lemma ParentConfirmedIff(rows: seq<Reminder>, pid: nat)
    requires UniqueIds(rows)
    ensures ParentConfirmed(rows, pid) <==> exists r :: r in rows && r.id == pid && r.confirmed
  {
    var m := WithId(rows, pid);
    if r :| r in rows && r.id == pid && r.confirmed {
      assert r in m;
    }
    if |m| == 1 {
      assert m[0] in m;
    }
  }

  // ------------------------------------------------ the message

  /** The header and the urgency line, by the reminder's place in its escalation chain. */
  function Framing(count: int): (string, string) {
    if count == 0 then
      ("🔔 *LEMBRETE:*", "")
    else if count == 1 then
      ("🔔 *LEMBRETE (30min depois):*", "\n⚠️ *Esta é a segunda notificação*")
    else if count >= 2 then
      ("🔔 *LEMBRETE URGENTE (1h depois):*", "\n🚨 *Esta é a última notificação!*")
    else
      ("🔔 *LEMBRETE:*", "")
  }

  /** Three framings: the plain one (also for a negative count), the second notice, and the last
      notice for every count from 2 on; only the two later ones carry an urgency line. */
  lemma FramingByCount(count: int)
    ensures count <= 0 ==> Framing(count) == Framing(0)
    ensures count >= 2 ==> Framing(count) == Framing(2)
    ensures Framing(0).1 == "" && Framing(1).1 != "" && Framing(2).1 != ""
    ensures Framing(0).0 != Framing(1).0 && Framing(1).0 != Framing(2).0 && Framing(0).0 != Framing(2).0
  {
    assert |Framing(0).0| < |Framing(1).0| < |Framing(2).0|;
  }

  /** The line telling the user how to stop the whole group. */
  function CancelHint(r: Reminder): string {
    "• \"cancelar " + Decimal(GroupRoot(r)) + "\" - Parar todos lembretes"
  }

  /** The task, under the header and above the time. */
  function TaskBlock(r: Reminder): string {
    "\n\n📝 " + r.task + Framing(r.recurrenceCount).1 + "\n\n"
  }

  function TimeBlock(r: Reminder): string {
    "⏰ Horário: " + ClockText(r.scheduledTime) + "h\n\n"
  }

  /** The three commands the user may answer with. */
  function CommandBlock(r: Reminder): string {
    "✅ *Comandos:*\n"
    + "• \"feito\" - Marcar como concluído\n"
    + "• \"feito " + Decimal(r.id) + "\" - Confirmar este específico\n"
    + CancelHint(r)
  }

  /** The text sent for a reminder. */
  function Message(r: Reminder): string {
    Framing(r.recurrenceCount).0 + TaskBlock(r) + TimeBlock(r) + CommandBlock(r)
  }

  /** Every member of an escalation group offers the same cancel command: a sibling names its
      parent, and the root, having no parent, names itself. */
  lemma GroupSharesCancelHint(root: Reminder, sibling: Reminder)
    requires !HasParent(root) && sibling.parentId == Some(root.id) && root.id != 0
    ensures CancelHint(sibling) == CancelHint(root)
    ensures GroupRoot(sibling) == GroupRoot(root) == root.id
  {
  }

  // ------------------------------------------------ what the run cannot foresee

  /** What `sendTextMessage` reports. */
  datatype Delivery = Delivered | Refused(error: string)

  /** The answers of the store and of the messaging service during one run. */
  datatype World = World(
    queryOk: bool,                    // the due query returned no error
    lookupOk: nat -> bool,            // the parent lookup for this reminder returned its row
    send: Reminder -> Delivery,       // the answer to sending this reminder's `Message` to its user
    updateOk: nat -> bool,            // the update of this reminder was stored
    expiryOk: bool)                   // the bulk expiry update was stored

  // ------------------------------------------------ one reminder

  /** The `status` of a `resultados` entry. */
  datatype Kind = Skipped | SentOk | RetryLater | Failed

  /** A `resultados` entry; `error` is the service's message on a failure, the retry note on a
      retry, and empty otherwise. */
  datatype Outcome = Outcome(id: nat, kind: Kind, error: string)

  /** The `error` a `retry_later` entry reports. */
  const RETRY_NOTE: string := "Usuário não ativo, tentando em 5 minutos"

  /** The two marks of an error for lack of permission: the word and the service's code 10. */
  const PERMISSION: string := "permission"
  const CODE_10: string := "#10"

  /** `resultado.error.includes('permission') || resultado.error.includes('#10')` */
  predicate IsPermissionError(e: string) {
    Includes(e, PERMISSION) || Includes(e, CODE_10)
  }

  /** The verdict on a fetched reminder, read against the table as the run has left it so far. */
  function Judge(rows: seq<Reminder>, r: Reminder, w: World): (o: Outcome)
    ensures o.id == r.id
  {
    if HasParent(r) && w.lookupOk(r.id) && ParentConfirmed(rows, r.parentId.value) then
      Outcome(r.id, Skipped, "")
    else
      match w.send(r)
      case Delivered => Outcome(r.id, SentOk, "")
      case Refused(e) => if IsPermissionError(e) then Outcome(r.id, RetryLater, RETRY_NOTE) else Outcome(r.id, Failed, e)
  }

  /** How the verdict follows from the lookup and the send: a reminder is skipped exactly when
      its parent was found confirmed; otherwise it is sent exactly when delivered, retried exactly
      when refused for lack of permission, with the retry note, and failed, with the service's
      error, on any other refusal. */
  lemma JudgeVerdict(rows: seq<Reminder>, r: Reminder, w: World)
    ensures var o := Judge(rows, r, w);
      && (o.kind == Skipped <==> HasParent(r) && w.lookupOk(r.id) && ParentConfirmed(rows, r.parentId.value))
      && (o.kind != Skipped ==> (o.kind == SentOk <==> w.send(r).Delivered?))
      && (o.kind != Skipped ==>
            (o.kind == RetryLater <==> w.send(r).Refused? && IsPermissionError(w.send(r).error)))
      && (o.kind != Skipped ==>
            (o.kind == Failed <==> w.send(r).Refused? && !IsPermissionError(w.send(r).error)))
      && o.error == if o.kind == Failed then w.send(r).error else if o.kind == RetryLater then RETRY_NOTE else ""
  {
  }

  /** The update a verdict sends, if any. */
  function PatchFor(r: Reminder, kind: Kind, now: int): Option<Patch> {
    match kind
    case Skipped => Some(MarkCancelled(now))
    case SentOk => Some(MarkSent(now))
    case RetryLater => Some(Reschedule(now + RETRY_DELAY, r.recurrenceCount + 1, now))
    case Failed => None
  }

  /** The table after the verdict on `r`. */
  function Effect(rows: seq<Reminder>, r: Reminder, kind: Kind, now: int, w: World): seq<Reminder> {
    match PatchFor(r, kind, now)
    case Some(p) => StoreIf(w.updateOk(r.id), rows, r.id, p)
    case None => rows
  }

  /** The reminder as its verdict leaves it: what `Effect` makes of its row. */
  function Settled(r: Reminder, kind: Kind, now: int, w: World): Reminder {
    match PatchFor(r, kind, now)
    case Some(p) => if w.updateOk(r.id) then Apply(r, p) else r
    case None => r
  }

  // ------------------------------------------------ the loop

  lemma EffectOnOwnRow(rows: seq<Reminder>, r: Reminder, kind: Kind, now: int, w: World, k: nat)
    requires k < |rows| && rows[k] == r
    ensures Effect(rows, r, kind, now, w)[k] == Settled(r, kind, now, w)
  {
  }

  /** The table and the `resultados` list as the loop builds them. */
  datatype Pass = Pass(rows: seq<Reminder>, results: seq<Outcome>)

  /** A verdict's update touches only the row with the reminder's id, and keeps every id and
      every confirmation. */
  lemma EffectFrame(rows: seq<Reminder>, r: Reminder, kind: Kind, now: int, w: World)
    ensures var e := Effect(rows, r, kind, now, w);
      && |e| == |rows|
      && (forall k :: 0 <= k < |rows| ==> e[k].id == rows[k].id)
      && (forall k :: 0 <= k < |rows| && rows[k].confirmed ==> e[k].confirmed)
      && (forall k :: 0 <= k < |rows| && rows[k].id != r.id ==> e[k] == rows[k])
  {
  }

  /** The loop over the fetched reminders `due`: one entry per reminder. */
  function Loop(rows: seq<Reminder>, due: seq<Reminder>, now: int, w: World): (p: Pass)
    ensures |p.rows| == |rows| && |p.results| == |due|
  {
    if due == [] then
      Pass(rows, [])
    else
      var init, last := due[..|due| - 1], due[|due| - 1];
      var q := Loop(rows, init, now, w);
      var o := Judge(q.rows, last, w);
      EffectFrame(q.rows, last, o.kind, now, w);
      var results := q.results + [o];
      Pass(Effect(q.rows, last, o.kind, now, w), results)
  }

  /** The entries follow the fetched reminders in order; only rows with a fetched id change, and
      none loses its id or its confirmation. */
  lemma {:induction false} LoopFrame(rows: seq<Reminder>, due: seq<Reminder>, now: int, w: World)
    ensures var p := Loop(rows, due, now, w);
      && (forall i :: 0 <= i < |due| ==> p.results[i].id == due[i].id)
      && (forall k :: 0 <= k < |rows| ==> p.rows[k].id == rows[k].id)
      && (forall k :: 0 <= k < |rows| && rows[k].confirmed ==> p.rows[k].confirmed)
      && (forall k :: 0 <= k < |rows| && (forall i :: 0 <= i < |due| ==> due[i].id != rows[k].id) ==>
            p.rows[k] == rows[k])
    decreases |due|
  {
    if due != [] {
      var n := |due| - 1;
      var init, last := due[..n], due[n];
      LoopFrame(rows, init, now, w);
      LoopStep(rows, due, now, w, n);
      assert due[..n + 1] == due;
      var q := Loop(rows, init, now, w);
      var o := Judge(q.rows, last, w);
      EffectFrame(q.rows, last, o.kind, now, w);
      assert forall i :: 0 <= i < n ==> init[i] == due[i];
    }
  }

  /** The loop up to `i` is the loop over the first `i` reminders. */
  lemma {:induction false} LoopPrefix(rows: seq<Reminder>, due: seq<Reminder>, now: int, w: World, i: nat)
    requires i < |due|
    ensures Loop(rows, due, now, w).results[i] == Judge(Loop(rows, due[..i], now, w).rows, due[i], w)
    decreases |due|
  {
    var n := |due| - 1;
    var init := due[..n];
    if i < n {
      LoopPrefix(rows, init, now, w, i);
      LoopResultsKept(rows, due, now, w, i);
      assert init[..i] == due[..i] && init[i] == due[i];
      assert Loop(rows, init[..i], now, w) == Loop(rows, due[..i], now, w);
    } else {
      LoopStep(rows, due, now, w, n);
      assert due[..n + 1] == due;
    }
  }

  /** A later iteration does not change an earlier entry. */
  lemma LoopResultsKept(rows: seq<Reminder>, due: seq<Reminder>, now: int, w: World, i: nat)
    requires i < |due| - 1
    ensures Loop(rows, due, now, w).results[i] == Loop(rows, due[..|due| - 1], now, w).results[i]
  {
    var n := |due| - 1;
    LoopStep(rows, due, now, w, n);
    assert due[..n + 1] == due;
  }

  /** One more iteration of the loop: the verdict on the table as the earlier ones left it. */
  lemma LoopStep(rows: seq<Reminder>, due: seq<Reminder>, now: int, w: World, i: nat)
    requires i < |due|
    ensures var q := Loop(rows, due[..i], now, w);
      var o := Judge(q.rows, due[i], w);
      Loop(rows, due[..i + 1], now, w) == Pass(Effect(q.rows, due[i], o.kind, now, w), q.results + [o])
  {
    assert due[..i + 1][..i] == due[..i];
  }

  /** The loop keeps the primary key. */
  lemma LoopKeepsIds(rows: seq<Reminder>, due: seq<Reminder>, now: int, w: World)
    requires UniqueIds(rows)
    ensures UniqueIds(Loop(rows, due, now, w).rows)
  {
    LoopFrame(rows, due, now, w);
  }

  // ------------------------------------------------ expiry

  /** `.eq('status', 'pending').eq('confirmed', false).lt('scheduled_time', umaHoraAtras)` */
  predicate Stale(r: Reminder, now: int) {
    r.status == Pending && !r.confirmed && r.scheduledTime < now - EXPIRY_AGE
  }

  function ExpireRow(r: Reminder, now: int, ok: bool): Reminder {
    if ok && Stale(r, now) then Apply(r, MarkExpired(now)) else r
  }

  function Expire(rows: seq<Reminder>, now: int, ok: bool): (r: seq<Reminder>)
    ensures |r| == |rows|
    ensures forall k :: 0 <= k < |rows| ==> r[k] == ExpireRow(rows[k], now, ok)
  {
    seq(|rows|, k requires 0 <= k < |rows| => ExpireRow(rows[k], now, ok))
  }

  lemma ExpireKeepsIds(rows: seq<Reminder>, now: int, ok: bool)
    requires UniqueIds(rows)
    ensures UniqueIds(Expire(rows, now, ok))
  {
    var e := Expire(rows, now, ok);
    assert forall k :: 0 <= k < |rows| ==> e[k].id == rows[k].id;
  }

  // ------------------------------------------------ the response

  /** `resultados.filter(r => r.status === kind).length` */
  function Tally(results: seq<Outcome>, kind: Kind): nat {
    if results == [] then 0
    else Tally(results[..|results| - 1], kind) + (if results[|results| - 1].kind == kind then 1 else 0)
  }

  /** The body of a successful response. */
  datatype Report = Report(total: nat, sent: nat, retryLater: nat, failed: nat, details: seq<Outcome>)

  function Summarize(results: seq<Outcome>): Report {
    Report(|results|, Tally(results, SentOk), Tally(results, RetryLater), Tally(results, Failed), results)
  }

  /** Every entry is counted once: the skipped ones are what the three reported counts leave of
      the total. */
  lemma {:induction false} TallySum(results: seq<Outcome>)
    ensures Tally(results, SentOk) + Tally(results, RetryLater) + Tally(results, Failed) + Tally(results, Skipped)
      == |results|
  {
    if results != [] {
      TallySum(results[..|results| - 1]);
    }
  }

  /** The table after a whole run at `now`. */
  function RunTable(rows: seq<Reminder>, now: int, w: World): seq<Reminder> {
    if w.queryOk then Expire(Loop(rows, Due(rows, now), now, w).rows, now, w.expiryOk) else rows
  }

  /** The response of a whole run at `now`. */
  function RunResponse(rows: seq<Reminder>, now: int, w: World): Result<Report, string> {
    if w.queryOk then Ok(Summarize(Loop(rows, Due(rows, now), now, w).results)) else Err(DB_ERROR)
  }

  // ------------------------------------------------ what one run guarantees

  /** Each fetched reminder ends the loop as its own verdict leaves it: the later verdicts of the
      run touch other rows only. */
  lemma {:induction false} LoopSettles(rows: seq<Reminder>, due: seq<Reminder>, now: int, w: World)
    requires UniqueIds(rows) && UniqueIds(due) && forall x :: x in due ==> x in rows
    ensures var p := Loop(rows, due, now, w);
      forall k, i :: 0 <= k < |rows| && 0 <= i < |due| && rows[k].id == due[i].id ==>
        p.rows[k] == Settled(due[i], p.results[i].kind, now, w)
    decreases |due|
  {
    if due != [] {
      var init, last := due[..|due| - 1], due[|due| - 1];
      assert forall x :: x in init ==> x in due;
      LoopSettles(rows, init, now, w);
      LoopFrame(rows, init, now, w);
      var q := Loop(rows, init, now, w);
      var o := Judge(q.rows, last, w);
      var p := Loop(rows, due, now, w);
      assert p == Pass(Effect(q.rows, last, o.kind, now, w), q.results + [o]);
      EffectFrame(q.rows, last, o.kind, now, w);
      forall k, i | 0 <= k < |rows| && 0 <= i < |due| && rows[k].id == due[i].id
        ensures p.rows[k] == Settled(due[i], p.results[i].kind, now, w)
      {
        if i < |init| {
          assert due[i] == init[i] && last.id != due[i].id;
          assert p.results[i] == q.results[i];
        } else {
          assert forall j :: 0 <= j < |init| ==> init[j].id != rows[k].id;
          SameIdSameRow(rows, k, last);
          EffectOnOwnRow(q.rows, last, o.kind, now, w, k);
        }
      }
    }
  }

  /** A reminder the run fetched is never stale by the time the expiry runs: the window starts
      two minutes back, the expiry an hour back, and a retry only moves it later. */
  lemma SettledNotStale(r: Reminder, kind: Kind, now: int, w: World)
    requires Matches(r, now - MARGIN, now + MARGIN, true)
    ensures !Stale(Settled(r, kind, now, w), now)
  {
  }

  /** The table after a run: a fetched reminder as its verdict leaves it, with no expiry; any
      other row expired when it is pending, unconfirmed and more than an hour late, and otherwise
      as it was. */
  lemma RunTableRows(rows: seq<Reminder>, now: int, w: World)
    requires UniqueIds(rows) && w.queryOk
    ensures var due := Due(rows, now);
      var p, t := Loop(rows, due, now, w), RunTable(rows, now, w);
      && |t| == |rows|
      && (forall k, i :: 0 <= k < |rows| && 0 <= i < |due| && due[i] == rows[k] ==>
            t[k] == Settled(rows[k], p.results[i].kind, now, w))
      && (forall k :: 0 <= k < |rows| && rows[k] !in due ==> t[k] == ExpireRow(rows[k], now, w.expiryOk))
  {
    var due := Due(rows, now);
    var p, t := Loop(rows, due, now, w), RunTable(rows, now, w);
    LoopSettles(rows, due, now, w);
    LoopFrame(rows, due, now, w);
    forall k, i | 0 <= k < |rows| && 0 <= i < |due| && due[i] == rows[k]
      ensures t[k] == Settled(rows[k], p.results[i].kind, now, w)
    {
      assert due[i] in due;
      SettledNotStale(rows[k], p.results[i].kind, now, w);
    }
    forall k | 0 <= k < |rows| && rows[k] !in due
      ensures t[k] == ExpireRow(rows[k], now, w.expiryOk)
    {
      forall i | 0 <= i < |due| ensures due[i].id != rows[k].id {
        assert due[i] in due;
        var j :| 0 <= j < |rows| && rows[j] == due[i];
        assert j != k;
      }
    }
  }

  /** A run never touches a confirmed reminder, so no run takes a confirmation back. */
  lemma ConfirmedRowsUntouched(rows: seq<Reminder>, now: int, w: World)
    requires UniqueIds(rows)
    ensures var t := RunTable(rows, now, w);
      |t| == |rows| && forall k :: 0 <= k < |rows| && rows[k].confirmed ==> t[k] == rows[k]
  {
    if w.queryOk {
      RunTableRows(rows, now, w);
    }
  }

  /** Skip-if-already-done: when the table holds the root of a fetched sibling confirmed at the
      start of the run and the lookup answers, the sibling is skipped and nothing is sent for it. */
  lemma ConfirmedParentSkips(rows: seq<Reminder>, now: int, w: World, i: nat)
    requires UniqueIds(rows)
    requires i < |Due(rows, now)|
    requires var r := Due(rows, now)[i];
      && HasParent(r) && w.lookupOk(r.id)
      && exists x :: x in rows && x.id == r.parentId.value && x.confirmed
    ensures Loop(rows, Due(rows, now), now, w).results[i].kind == Skipped
  {
    var due := Due(rows, now);
    var r := due[i];
    var x :| x in rows && x.id == r.parentId.value && x.confirmed;
    var k :| 0 <= k < |rows| && rows[k] == x;
    LoopPrefix(rows, due, now, w, i);
    LoopFrame(rows, due[..i], now, w);
    var q := Loop(rows, due[..i], now, w).rows;
    assert q[k] in q && q[k].id == x.id && q[k].confirmed;
    assert UniqueIds(q);
    ParentConfirmedIff(q, r.parentId.value);
  }

  /** A retry has no cap: whatever its count, a reminder refused for lack of permission stays
      pending with one more notification counted, and is due again for the run five minutes
      later. */
  lemma RetryIsDueAgain(r: Reminder, now: int, w: World)
    requires Matches(r, now - MARGIN, now + MARGIN, true) && w.updateOk(r.id)
    ensures var s := Settled(r, RetryLater, now, w);
      && s.recurrenceCount == r.recurrenceCount + 1
      && s.scheduledTime == now + RETRY_DELAY
      && Matches(s, (now + RETRY_DELAY) - MARGIN, (now + RETRY_DELAY) + MARGIN, true)
  {
  }

  /** The counts of a successful response add up: one entry per fetched reminder, and the sent,
      retried and failed ones at most all of them. */
  lemma ReportAddsUp(rows: seq<Reminder>, now: int, w: World)
    requires w.queryOk
    ensures var rep := RunResponse(rows, now, w).value;
      && rep.total == |Due(rows, now)|
      && rep.sent + rep.retryLater + rep.failed <= rep.total
  {
    TallySum(Loop(rows, Due(rows, now), now, w).results);
  }

  // ------------------------------------------------ the handler

  /** The body of the loop for one fetched reminder. */
  method Process(table: ReminderTable, lembrete: Reminder, now: int, w: World) returns (o: Outcome)
    modifies table
    ensures o == Judge(old(table.rows), lembrete, w)
    ensures table.rows == Effect(old(table.rows), lembrete, o.kind, now, w)
  {
    if HasParent(lembrete) && w.lookupOk(lembrete.id) && ParentConfirmed(table.rows, lembrete.parentId.value) {
      if w.updateOk(lembrete.id) {
        table.rows := UpdateById(table.rows, lembrete.id, MarkCancelled(now));
      }
      return Outcome(lembrete.id, Skipped, "");
    }
    var resultado := w.send(lembrete);
    match resultado
    case Delivered =>
      if w.updateOk(lembrete.id) {
        table.rows := UpdateById(table.rows, lembrete.id, MarkSent(now));
      }
      o := Outcome(lembrete.id, SentOk, "");
    case Refused(e) =>
      if IsPermissionError(e) {
        var novaTentativa := now + RETRY_DELAY;
        if w.updateOk(lembrete.id) {
          table.rows := UpdateById(table.rows, lembrete.id, Reschedule(novaTentativa, lembrete.recurrenceCount + 1, now));
        }
        o := Outcome(lembrete.id, RetryLater, RETRY_NOTE);
      } else {
        o := Outcome(lembrete.id, Failed, e);
      }
  }

  method RunCron(table: ReminderTable, now: int, w: World) returns (response: Result<Report, string>)
    requires table.Valid()
    modifies table
    ensures table.Valid()
    ensures table.rows == RunTable(old(table.rows), now, w)
    ensures response == RunResponse(old(table.rows), now, w)
  {
    if !w.queryOk {
      return Err(DB_ERROR);
    }
    ghost var start := table.rows;
    var lembretes := Due(table.rows, now);
    var resultados: seq<Outcome> := [];
    var i := 0;
    while i < |lembretes|
      invariant 0 <= i <= |lembretes|
      invariant Loop(start, lembretes[..i], now, w) == Pass(table.rows, resultados)
    {
      LoopStep(start, lembretes, now, w, i);
      var o := Process(table, lembretes[i], now, w);
      resultados := resultados + [o];
      i := i + 1;
    }
    assert lembretes[..i] == lembretes;
    LoopKeepsIds(start, lembretes, now, w);
    ExpireKeepsIds(table.rows, now, w.expiryOk);
    table.rows := Expire(table.rows, now, w.expiryOk);
    var sucessos := Tally(resultados, SentOk);
    var falhas := Tally(resultados, Failed);
    var retry := Tally(resultados, RetryLater);
    response := Ok(Report(|resultados|, sucessos, retry, falhas, resultados));
  }
}
