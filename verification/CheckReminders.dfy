/**
 * One run of the plain reminder dispatcher (`api/check-reminders.js`). It shifts the run's
 * instant three hours back, to Brazil's offset, and fetches the pending reminders scheduled
 * within a minute of that instant, earliest first. It does not look at `confirmed`. It sends
 * each reminder one message and marks it sent when the message went out. Every reminder gets an
 * entry in the report, in order.
 */
module CheckReminders {
  import opened Wrappers
  import opened Clock
  import opened JsText
  import opened Sorting
  import opened Reminders

  /** `agora.getTime() - 3 * 60 * 60 * 1000`: the run's instant moved to UTC-3. */
  const BRAZIL_SHIFT: int := 3 * HOUR
  /** How far either side of the shifted instant a reminder counts as due. */
  const MARGIN: int := MINUTE

  const DB_ERROR: string := "Erro ao buscar lembretes"

  function Reference(now: int): int {
    now - BRAZIL_SHIFT
  }

  /** The reminders one run fetches: pending and within a minute of the shifted instant,
      confirmed or not, earliest first. */
  function Due(rows: seq<Reminder>, now: int): (d: seq<Reminder>)
    ensures forall r :: r in d <==>
      r in rows && r.status == Pending && Reference(now) - MARGIN <= r.scheduledTime <= Reference(now) + MARGIN
    ensures Sorted(d, TimeLe)
    ensures UniqueIds(rows) ==> UniqueIds(d)
  {
    Fetch(rows, Reference(now) - MARGIN, Reference(now) + MARGIN, false)
  }

  /** The fixed text around the task and the time of a message. */
  const MESSAGE_HEAD: string := "🔔 *LEMBRETE DO MIND IT*\n\n" + "📝 *Tarefa:* "
  const MESSAGE_MIDDLE: string := "\n" + "⏰ *Horário:* "
  const MESSAGE_TAIL: string := "h\n\n" + "✅ Já fez? Responda \"sim\" ou \"não\""

  /** The text sent for a reminder. */
  function Message(r: Reminder): string {
    MESSAGE_HEAD + r.task + MESSAGE_MIDDLE + ClockText(r.scheduledTime) + MESSAGE_TAIL
  }

  /** The message shows the reminder's task and its `HH:MM` time, each where the template puts
      it. */
  lemma MessageShowsTaskAndTime(r: Reminder)
    ensures OccursAt(Message(r), r.task, |MESSAGE_HEAD|)
    ensures OccursAt(Message(r), ClockText(r.scheduledTime), |MESSAGE_HEAD| + |r.task| + |MESSAGE_MIDDLE|)
    ensures Includes(Message(r), r.task) && Includes(Message(r), ClockText(r.scheduledTime))
  {
    var m, c := Message(r), ClockText(r.scheduledTime);
    PiecesAt(MESSAGE_HEAD, r.task, MESSAGE_MIDDLE, c, MESSAGE_TAIL);
    IncludesIff(m, r.task);
    IncludesIff(m, c);
  }

  /** Where the second and the fourth piece of a five-piece text start. */
  lemma PiecesAt(a: string, b: string, c: string, d: string, e: string)
    ensures OccursAt(a + b + c + d + e, b, |a|)
    ensures OccursAt(a + b + c + d + e, d, |a| + |b| + |c|)
  {
    var x := a + b + c + d + e;
    assert x == a + b + (c + d + e);
    assert x[|a|..|a| + |b|] == b;
    assert x == (a + b + c) + d + e;
    assert x[|a| + |b| + |c|..|a| + |b| + |c| + |d|] == d;
  }

  /** Two reminders get the same message only when they have the same task and the same printed
      time: the message names which reminder it is for as far as its user can tell. */
  lemma MessageDeterminesTaskAndTime(r1: Reminder, r2: Reminder)
    requires Message(r1) == Message(r2)
    ensures r1.task == r2.task && ClockText(r1.scheduledTime) == ClockText(r2.scheduledTime)
  {
    ClockTextReadsBack(r1.scheduledTime);
    ClockTextReadsBack(r2.scheduledTime);
    MessageShowsTaskAndTime(r1);
    MessageShowsTaskAndTime(r2);
  }

  // ------------------------------------------------ what the run cannot foresee

  /** How sending one reminder ends: `enviarWhatsApp` reports success or an error, or something
      in the loop body throws. */
  datatype Attempt = Delivered | Refused(error: string) | Raised(message: string)

  /** The answers of the store and of the messaging service during one run. */
  datatype World = World(
    queryOk: bool,               // the due query returned no error
    send: Reminder -> Attempt,   // how sending this reminder's `Message` to its user ends
    updateOk: nat -> bool)       // the update of this reminder was stored

  // ------------------------------------------------ one reminder

  /** A `resultados` entry: `success`, and the message or the error. */
  datatype Outcome = Outcome(id: nat, success: bool, note: string)

  const SENT_NOTE: string := "Enviado com sucesso"
  const REFUSED_PREFIX: string := "WhatsApp: "
  const RAISED_PREFIX: string := "Exceção: "

  /** The entry for a reminder: a success exactly when the message went out, whatever the store
      then does with the update. */
  function Judge(r: Reminder, w: World): (o: Outcome)
    ensures o.id == r.id && (o.success <==> w.send(r).Delivered?)
  {
    match w.send(r)
    case Delivered => Outcome(r.id, true, SENT_NOTE)
    case Refused(e) => Outcome(r.id, false, REFUSED_PREFIX + e)
    case Raised(m) => Outcome(r.id, false, RAISED_PREFIX + m)
  }

  /** The entries of a run, one per fetched reminder, in order. */
  function Results(due: seq<Reminder>, w: World): (res: seq<Outcome>)
    ensures |res| == |due| && forall i :: 0 <= i < |due| ==> res[i] == Judge(due[i], w)
  {
    seq(|due|, i requires 0 <= i < |due| => Judge(due[i], w))
  }

  /** The ids of the fetched reminders whose message went out. */
  function DeliveredIds(due: seq<Reminder>, w: World): set<nat> {
    set r | r in due && w.send(r).Delivered? :: r.id
  }

  /** A row after the run: marked sent when its message went out and the update was stored. */
  function DispatchedRow(r: Reminder, delivered: set<nat>, now: int, w: World): Reminder {
    if r.id in delivered && w.updateOk(r.id) then Apply(r, MarkSent(now)) else r
  }

  function Dispatched(rows: seq<Reminder>, delivered: set<nat>, now: int, w: World): (t: seq<Reminder>)
    ensures |t| == |rows| && forall k :: 0 <= k < |rows| ==> t[k] == DispatchedRow(rows[k], delivered, now, w)
  {
    seq(|rows|, k requires 0 <= k < |rows| => DispatchedRow(rows[k], delivered, now, w))
  }

  /** Storing the update of one more delivered reminder extends the closed form by its id. */
  lemma DispatchedStep(rows: seq<Reminder>, delivered: set<nat>, now: int, w: World, d: Reminder)
    requires UniqueIds(rows) && d in rows && d.id !in delivered
    ensures StoreIf(w.updateOk(d.id), Dispatched(rows, delivered, now, w), d.id, MarkSent(now))
      == Dispatched(rows, delivered + {d.id}, now, w)
  {
    var lhs := StoreIf(w.updateOk(d.id), Dispatched(rows, delivered, now, w), d.id, MarkSent(now));
    var rhs := Dispatched(rows, delivered + {d.id}, now, w);
    forall k | 0 <= k < |rows| ensures lhs[k] == rhs[k] {
      if rows[k].id == d.id {
        SameIdSameRow(rows, k, d);
      }
    }
  }

  lemma DeliveredPrefix(due: seq<Reminder>, w: World, i: nat)
    requires UniqueIds(due) && i < |due|
    ensures due[i].id !in DeliveredIds(due[..i], w)
    ensures DeliveredIds(due[..i + 1], w)
      == DeliveredIds(due[..i], w) + (if w.send(due[i]).Delivered? then {due[i].id} else {})
  {
    assert due[..i + 1] == due[..i] + [due[i]];
  }

  lemma ResultsStep(due: seq<Reminder>, w: World, i: nat)
    requires i < |due|
    ensures Results(due[..i + 1], w) == Results(due[..i], w) + [Judge(due[i], w)]
  {
    assert due[..i + 1] == due[..i] + [due[i]];
  }

  // ------------------------------------------------ the response

  /** The run's HTTP answer. */
  datatype Response =
    | DatabaseError(error: string)                                       // status 500
    | NothingDue                                                         // no reminder in the window
    | Report(total: nat, sent: nat, failed: nat, details: seq<Outcome>)

  /** `resultados.filter(r => r.success === success).length` */
  function Tally(results: seq<Outcome>, success: bool): nat {
    if results == [] then 0
    else Tally(results[..|results| - 1], success) + (if results[|results| - 1].success == success then 1 else 0)
  }

  function RunTable(rows: seq<Reminder>, now: int, w: World): seq<Reminder> {
    if w.queryOk then Dispatched(rows, DeliveredIds(Due(rows, now), w), now, w) else rows
  }

  function RunResponse(rows: seq<Reminder>, now: int, w: World): Response {
    var due := Due(rows, now);
    if !w.queryOk then DatabaseError(DB_ERROR)
    else if due == [] then NothingDue
    else
      var res := Results(due, w);
      Report(|due|, Tally(res, true), Tally(res, false), res)
  }

  // ------------------------------------------------ what one run guarantees

  /** Every entry is a success or a failure, never both and never neither. */
  lemma {:induction false} TallySplit(results: seq<Outcome>)
    ensures Tally(results, true) + Tally(results, false) == |results|
  {
    if results != [] {
      TallySplit(results[..|results| - 1]);
    }
  }

  /** The counts of a report add up to the reminders fetched, and one entry follows each of them
      in order, naming it. */
  lemma ReportAddsUp(rows: seq<Reminder>, now: int, w: World)
    requires RunResponse(rows, now, w).Report?
    ensures var rep, due := RunResponse(rows, now, w), Due(rows, now);
      && rep.sent + rep.failed == rep.total == |due| == |rep.details| > 0
      && forall i :: 0 <= i < |due| ==> rep.details[i].id == due[i].id
  {
    TallySplit(Results(Due(rows, now), w));
  }

  /** A row changes exactly when the run fetched it, its message went out and the update was
      stored; it is then sent, with `sent_at` and `updated_at` the run's instant, and nothing else
      about it changes. */
  lemma OnlyDeliveredRowsChange(rows: seq<Reminder>, now: int, w: World)
    requires UniqueIds(rows)
    ensures var t, due := RunTable(rows, now, w), Due(rows, now);
      && |t| == |rows|
      && forall k :: 0 <= k < |rows| ==>
           && (t[k] != rows[k] <==> w.queryOk && rows[k] in due && w.send(rows[k]).Delivered? && w.updateOk(rows[k].id))
           && (t[k] != rows[k] ==> t[k] == rows[k].(status := Sent, sentAt := Some(now), updatedAt := now))
  {
    var due := Due(rows, now);
    forall k | 0 <= k < |rows| && w.queryOk && rows[k].id in DeliveredIds(due, w)
      ensures rows[k] in due && w.send(rows[k]).Delivered?
    {
      var x :| x in due && w.send(x).Delivered? && x.id == rows[k].id;
      SameIdSameRow(rows, k, x);
    }
  }

  /** The response never depends on whether the updates were stored: a reminder whose message went
      out counts as sent even when marking it failed. */
  lemma ResponseIgnoresUpdates(rows: seq<Reminder>, now: int, w1: World, w2: World)
    requires w1.queryOk == w2.queryOk && forall r :: w1.send(r) == w2.send(r)
    ensures RunResponse(rows, now, w1) == RunResponse(rows, now, w2)
  {
    var due := Due(rows, now);
    assert Results(due, w1) == Results(due, w2);
  }

  // ------------------------------------------------ the handler

  /** The body of the loop for one fetched reminder. */
  method Process(table: ReminderTable, lembrete: Reminder, now: int, w: World) returns (o: Outcome)
    modifies table
    ensures o == Judge(lembrete, w)
    ensures table.rows
      == if w.send(lembrete).Delivered? then StoreIf(w.updateOk(lembrete.id), old(table.rows), lembrete.id, MarkSent(now))
         else old(table.rows)
  {
    var envio := w.send(lembrete);
    match envio
    case Delivered =>
      if w.updateOk(lembrete.id) {
        table.rows := UpdateById(table.rows, lembrete.id, MarkSent(now));
      }
      o := Outcome(lembrete.id, true, SENT_NOTE);
    case Refused(e) =>
      o := Outcome(lembrete.id, false, REFUSED_PREFIX + e);
    case Raised(m) =>
      o := Outcome(lembrete.id, false, RAISED_PREFIX + m);
  }

  /** The loop over the fetched reminders. */
  method SendAll(table: ReminderTable, lembretes: seq<Reminder>, now: int, w: World) returns (resultados: seq<Outcome>)
    requires UniqueIds(table.rows) && UniqueIds(lembretes) && forall x :: x in lembretes ==> x in table.rows
    modifies table
    ensures table.rows == Dispatched(old(table.rows), DeliveredIds(lembretes, w), now, w)
    ensures resultados == Results(lembretes, w)
  {
    ghost var start := table.rows;
    resultados := [];
    var i := 0;
    assert DeliveredIds(lembretes[..0], w) == {};
    assert Dispatched(start, {}, now, w) == start;
    while i < |lembretes|
      invariant 0 <= i <= |lembretes|
      invariant table.rows == Dispatched(start, DeliveredIds(lembretes[..i], w), now, w)
      invariant resultados == Results(lembretes[..i], w)
    {
      DeliveredPrefix(lembretes, w, i);
      assert lembretes[i] in lembretes;
      DispatchedStep(start, DeliveredIds(lembretes[..i], w), now, w, lembretes[i]);
      ResultsStep(lembretes, w, i);
      var o := Process(table, lembretes[i], now, w);
      resultados := resultados + [o];
      i := i + 1;
    }
    assert lembretes[..i] == lembretes;
  }

  method RunCheck(table: ReminderTable, now: int, w: World) returns (response: Response)
    requires table.Valid()
    modifies table
    ensures table.Valid()
    ensures table.rows == RunTable(old(table.rows), now, w)
    ensures response == RunResponse(old(table.rows), now, w)
  {
    if !w.queryOk {
      return DatabaseError(DB_ERROR);
    }
    var lembretes := Due(table.rows, now);
    if lembretes == [] {
      assert DeliveredIds(lembretes, w) == {};
      assert Dispatched(table.rows, {}, now, w) == table.rows;
      return NothingDue;
    }
    ghost var start := table.rows;
    var resultados := SendAll(table, lembretes, now, w);
    assert forall k :: 0 <= k < |start| ==> table.rows[k].id == start[k].id;
    var sucessos := Tally(resultados, true);
    var falhas := Tally(resultados, false);
    response := Report(|lembretes|, sucessos, falhas, resultados);
  }
}
