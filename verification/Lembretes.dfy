/**
 * The `usuarios` and `lembretes` tables of the Twilio server (`api/index.js`, and its copy
 * `index.js`), and what one run of its minute scheduler does to `lembretes`: every active row
 * that is due and has been tried fewer than three times is sent, then moved one day on when it
 * repeats daily, and its attempt counter goes up by one.
 */
module Lembretes {
  import opened Clock

  datatype Usuario = Usuario(id: nat, telefone: string, dataCadastro: int)

  datatype Lembrete = Lembrete(
    id: nat,
    usuarioId: nat,
    texto: string,
    hora: string,             // as stored: the `HH:MM` the user typed, with `:00` appended
    repeticao: string,
    proximaExecucao: int,
    status: string,
    tentativas: int,
    dataCriacao: int)

  /** The scheduler only picks rows tried fewer times than this. */
  const MAX_TENTATIVAS: int := 3

  predicate UniqueIds(rows: seq<Lembrete>) {
    forall i, j :: 0 <= i < j < |rows| ==> rows[i].id != rows[j].id
  }

  function IdsOf(rows: seq<Lembrete>): set<nat> {
    set r | r in rows :: r.id
  }

  // ------------------------------------------------ the scheduler's query

  /** `.lte('proxima_execucao', agora).eq('status', 'ativo').lt('tentativas', 3)` */
  predicate Due(r: Lembrete, now: int) {
    r.proximaExecucao <= now && r.status == "ativo" && r.tentativas < MAX_TENTATIVAS
  }

  /** The rows the scheduler fetches, in table order (its query has no `ORDER BY`). */
  function DueRows(rows: seq<Lembrete>, now: int): (due: seq<Lembrete>)
    ensures forall r :: r in due <==> r in rows && Due(r, now)
    ensures UniqueIds(rows) ==> UniqueIds(due)
  {
    if rows == [] then
      []
    else
      var init, last := rows[..|rows| - 1], rows[|rows| - 1];
      assert forall r :: r in rows <==> r in init || r == last;
      var d := DueRows(init, now);
      if Due(last, now) then
        assert UniqueIds(rows) ==> forall r :: r in d ==> r.id != last.id;
        d + [last]
      else
        d
  }

  // ------------------------------------------------ one run

  /** How far the run gets: the sends succeed up to this index, and the send at this index, if
      any, throws, which abandons the rest of the run. */
  function FirstFailure(due: seq<Lembrete>, sendOk: nat -> bool): (p: nat)
    ensures p <= |due|
    ensures forall j :: 0 <= j < p ==> sendOk(due[j].id)
    ensures p < |due| ==> !sendOk(due[p].id)
  {
    if due == [] || !sendOk(due[0].id) then 0 else 1 + FirstFailure(due[1..], sendOk)
  }

  /** The ids of the rows whose message went out in a run at `now`. */
  function SentIds(rows: seq<Lembrete>, now: int, sendOk: nat -> bool): set<nat> {
    var due := DueRows(rows, now);
    IdsOf(due[..FirstFailure(due, sendOk)])
  }

  /** The update after a send: one day later for a daily row, one more attempt. */
  function Advance(r: Lembrete): Lembrete {
    var novaData := if r.repeticao == "diario" then r.proximaExecucao + DAY else r.proximaExecucao;
    r.(proximaExecucao := novaData, tentativas := r.tentativas + 1)
  }

  /** A row after the run: advanced when its message went out and its update was stored. */
  function SweptRow(r: Lembrete, sent: set<nat>, updateOk: nat -> bool): Lembrete {
    if r.id in sent && updateOk(r.id) then Advance(r) else r
  }

  function Swept(rows: seq<Lembrete>, sent: set<nat>, updateOk: nat -> bool): seq<Lembrete> {
    seq(|rows|, k requires 0 <= k < |rows| => SweptRow(rows[k], sent, updateOk))
  }

  /** The table after one run of the scheduler at `now`. */
  function SweepResult(rows: seq<Lembrete>, now: int, sendOk: nat -> bool, updateOk: nat -> bool): seq<Lembrete> {
    Swept(rows, SentIds(rows, now, sendOk), updateOk)
  }

  /** `.update({...}).eq('id', id)`: the two columns the scheduler writes, on the row with `id`. */
  function UpdateById(rows: seq<Lembrete>, id: nat, proxima: int, tentativas: int): (r: seq<Lembrete>)
    ensures |r| == |rows|
    ensures forall k :: 0 <= k < |rows| ==>
      r[k] == if rows[k].id == id then rows[k].(proximaExecucao := proxima, tentativas := tentativas) else rows[k]
  {
    seq(|rows|, k requires 0 <= k < |rows| =>
      if rows[k].id == id then rows[k].(proximaExecucao := proxima, tentativas := tentativas) else rows[k])
  }

  /** Storing the update of one more sent row extends the run's closed form by that row. */
  lemma SweptStep(rows: seq<Lembrete>, sent: set<nat>, updateOk: nat -> bool, d: Lembrete)
    requires UniqueIds(rows) && d in rows && d.id !in sent && updateOk(d.id)
    ensures var a := Advance(d);
      UpdateById(Swept(rows, sent, updateOk), d.id, a.proximaExecucao, a.tentativas)
        == Swept(rows, sent + {d.id}, updateOk)
  {
    var a := Advance(d);
    var lhs := UpdateById(Swept(rows, sent, updateOk), d.id, a.proximaExecucao, a.tentativas);
    var rhs := Swept(rows, sent + {d.id}, updateOk);
    forall k | 0 <= k < |rows| ensures lhs[k] == rhs[k] {
      if rows[k].id == d.id {
        var i :| 0 <= i < |rows| && rows[i] == d;
        assert i == k;
      }
    }
  }

  /** A failed update leaves the row as it was, which is also the closed form's row. */
  lemma SweptSkip(rows: seq<Lembrete>, sent: set<nat>, updateOk: nat -> bool, id: nat)
    requires !updateOk(id)
    ensures Swept(rows, sent, updateOk) == Swept(rows, sent + {id}, updateOk)
  {
  }

  lemma IdsOfPrefix(s: seq<Lembrete>, i: nat)
    requires i < |s|
    ensures IdsOf(s[..i + 1]) == IdsOf(s[..i]) + {s[i].id}
  {
    assert s[..i + 1] == s[..i] + [s[i]];
  }

  lemma UniqueNotInPrefix(s: seq<Lembrete>, i: nat)
    requires UniqueIds(s) && i < |s|
    ensures s[i].id !in IdsOf(s[..i])
  {
  }

  // ------------------------------------------------ what one run guarantees

  /** A run never changes a row it did not fetch, nor any row's identity, owner, text, time of
      day, repetition or status; and a row it changes got exactly one more attempt and, when
      daily, exactly one day later. */
  lemma SweepChangesOnlyDueRows(rows: seq<Lembrete>, now: int, sendOk: nat -> bool, updateOk: nat -> bool)
    requires UniqueIds(rows)
    ensures var r := SweepResult(rows, now, sendOk, updateOk);
      && |r| == |rows|
      && (forall k :: 0 <= k < |rows| && !Due(rows[k], now) ==> r[k] == rows[k])
      && (forall k :: 0 <= k < |rows| ==>
            r[k] == rows[k]
            || (&& Due(rows[k], now)
                && r[k].tentativas == rows[k].tentativas + 1
                && r[k].proximaExecucao
                     == rows[k].proximaExecucao + (if rows[k].repeticao == "diario" then DAY else 0)
                && r[k] == rows[k].(proximaExecucao := r[k].proximaExecucao, tentativas := r[k].tentativas)))
  {
    var due := DueRows(rows, now);
    var p := FirstFailure(due, sendOk);
    var sent := SentIds(rows, now, sendOk);
    forall k | 0 <= k < |rows| && rows[k].id in sent && rows[k] != SweepResult(rows, now, sendOk, updateOk)[k]
      ensures Due(rows[k], now)
    {
      SentWasDue(rows, now, sendOk, k);
    }
  }

  /** The run stops at the first send that throws: that row and every fetched row after it keep
      their values, whatever their own send would have done; every fetched row before it whose
      update was stored is advanced. Requires distinct ids, which the primary key gives. */
  lemma {:induction false} SweepAbortsAtFirstFailure(rows: seq<Lembrete>, now: int, sendOk: nat -> bool, updateOk: nat -> bool)
    requires UniqueIds(rows)
    ensures var due, r := DueRows(rows, now), SweepResult(rows, now, sendOk, updateOk);
      var p := FirstFailure(due, sendOk);
      forall k :: 0 <= k < |rows| ==>
        (r[k] != rows[k] <==> (exists j :: 0 <= j < p && due[j] == rows[k]) && updateOk(rows[k].id) && Advance(rows[k]) != rows[k])
  {
    var due, r := DueRows(rows, now), SweepResult(rows, now, sendOk, updateOk);
    var p := FirstFailure(due, sendOk);
    forall k | 0 <= k < |rows|
      ensures r[k] != rows[k] <==> (exists j :: 0 <= j < p && due[j] == rows[k]) && updateOk(rows[k].id) && Advance(rows[k]) != rows[k]
    {
      if rows[k].id in IdsOf(due[..p]) {
        var x :| x in due[..p] && x.id == rows[k].id;
        var j :| 0 <= j < p && due[j] == x;
        assert x in due;
        var i :| 0 <= i < |rows| && rows[i] == x;
        assert i == k;
      } else {
        forall j | 0 <= j < p ensures due[j] != rows[k] {
          assert due[j] in due[..p];
        }
      }
    }
  }

  /** A run preserves the ids, so the primary key still holds. */
  lemma SweepKeepsIds(rows: seq<Lembrete>, now: int, sendOk: nat -> bool, updateOk: nat -> bool)
    ensures var r := SweepResult(rows, now, sendOk, updateOk);
      |r| == |rows| && forall k :: 0 <= k < |rows| ==> r[k].id == rows[k].id
  {
  }

  /** The loop that sends while the sends succeed stops exactly at the first failure. */
  lemma {:induction false} StopsAtFirstFailure(due: seq<Lembrete>, sendOk: nat -> bool, i: nat)
    requires i <= |due| && forall j :: 0 <= j < i ==> sendOk(due[j].id)
    requires i == |due| || !sendOk(due[i].id)
    ensures i == FirstFailure(due, sendOk)
  {
    if due != [] && sendOk(due[0].id) {
      StopsAtFirstFailure(due[1..], sendOk, i - 1);
    }
  }

  /** A run keeps the primary key and hands out no new id. */
  lemma SweepKeepsKey(rows: seq<Lembrete>, now: int, sendOk: nat -> bool, updateOk: nat -> bool, bound: nat)
    requires UniqueIds(rows) && forall l :: l in rows ==> l.id < bound
    ensures var r := SweepResult(rows, now, sendOk, updateOk);
      UniqueIds(r) && forall l :: l in r ==> l.id < bound
  {
    var r := SweepResult(rows, now, sendOk, updateOk);
    SweepKeepsIds(rows, now, sendOk, updateOk);
    forall l | l in r ensures l.id < bound {
      var k :| 0 <= k < |r| && r[k] == l;
      assert rows[k] in rows;
    }
  }

  // ------------------------------------------------ many runs

  /** One run of the scheduler: its instant and the outcome of each send and each update. */
  datatype Tick = Tick(now: int, sendOk: nat -> bool, updateOk: nat -> bool)

  /** The table after the runs `ticks`, one after the other. */
  function Sweeps(rows: seq<Lembrete>, ticks: seq<Tick>): (r: seq<Lembrete>)
    ensures |r| == |rows| && forall k :: 0 <= k < |rows| ==> r[k].id == rows[k].id
    decreases |ticks|
  {
    if ticks == [] then
      rows
    else
      var t := ticks[0];
      SweepKeepsIds(rows, t.now, t.sendOk, t.updateOk);
      Sweeps(SweepResult(rows, t.now, t.sendOk, t.updateOk), ticks[1..])
  }

  /** How many of the runs `ticks` sent the row at index `k`. */
  function SendCount(rows: seq<Lembrete>, ticks: seq<Tick>, k: nat): nat
    requires k < |rows|
    decreases |ticks|
  {
    if ticks == [] then
      0
    else
      var t := ticks[0];
      SweepKeepsIds(rows, t.now, t.sendOk, t.updateOk);
      (if rows[k].id in SentIds(rows, t.now, t.sendOk) then 1 else 0)
        + SendCount(SweepResult(rows, t.now, t.sendOk, t.updateOk), ticks[1..], k)
  }

  /** A row that was sent in a run was due in it. */
  lemma SentWasDue(rows: seq<Lembrete>, now: int, sendOk: nat -> bool, k: nat)
    requires UniqueIds(rows) && k < |rows| && rows[k].id in SentIds(rows, now, sendOk)
    ensures Due(rows[k], now)
  {
    var due := DueRows(rows, now);
    var x :| x in due[..FirstFailure(due, sendOk)] && x.id == rows[k].id;
    assert x in due;
    var i :| 0 <= i < |rows| && rows[i] == x;
    assert i == k;
  }

  /** The row at `k` after one run: advanced if it was sent and its update stored, else as before. */
  lemma SweepRowAt(rows: seq<Lembrete>, now: int, sendOk: nat -> bool, updateOk: nat -> bool, k: nat)
    requires k < |rows|
    ensures SweepResult(rows, now, sendOk, updateOk)[k]
      == if rows[k].id in SentIds(rows, now, sendOk) && updateOk(rows[k].id) then Advance(rows[k]) else rows[k]
  {
  }

  /** While every update is stored, a row that starts with `t <= 3` attempts is sent at most
      `3 - t` times, however many runs there are, and its counter ends at `t` plus the sends. */
  lemma {:induction false} AtMostThreeSends(rows: seq<Lembrete>, ticks: seq<Tick>, k: nat)
    requires UniqueIds(rows) && k < |rows| && rows[k].tentativas <= MAX_TENTATIVAS
    requires forall i :: 0 <= i < |ticks| ==> ticks[i].updateOk(rows[k].id)
    ensures SendCount(rows, ticks, k) + rows[k].tentativas == Sweeps(rows, ticks)[k].tentativas
    ensures SendCount(rows, ticks, k) <= MAX_TENTATIVAS - rows[k].tentativas
    decreases |ticks|
  {
    if ticks != [] {
      var t := ticks[0];
      var next := SweepResult(rows, t.now, t.sendOk, t.updateOk);
      SweepKeepsIds(rows, t.now, t.sendOk, t.updateOk);
      SweepRowAt(rows, t.now, t.sendOk, t.updateOk, k);
      if rows[k].id in SentIds(rows, t.now, t.sendOk) {
        SentWasDue(rows, t.now, t.sendOk, k);
      }
      assert UniqueIds(next);
      assert forall i :: 0 <= i < |ticks[1..]| ==> ticks[1..][i].updateOk(next[k].id) by {
        forall i | 0 <= i < |ticks[1..]| ensures ticks[1..][i].updateOk(next[k].id) {
          assert ticks[1..][i] == ticks[i + 1];
        }
      }
      AtMostThreeSends(next, ticks[1..], k);
    }
  }
}
