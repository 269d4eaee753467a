/**
 * The Twilio WhatsApp server (`api/index.js`; `index.js` holds the same code): `processMessage`
 * routes a text, `/novo <tarefa> # <HH:MM>` creates a daily reminder, `/lista` lists the
 * sender's active reminders, and the scheduler sends the reminders that are due.
 */
module Server {
  import opened JsText
  import opened Wrappers
  import opened Clock
  import opened Sorting
  import opened Lembretes

  // ------------------------------------------------ replies

  const GREETING_REPLY: string :=
    "👋 Olá! Sou seu assistente de memória externa!\n\n📝 Para criar lembrete:\n/novo [tarefa] # [hora]\n\nExemplo:\n/novo Comprar leite # 19:00\n\n📋 Ver lembretes: /lista\n🆘 Ajuda: /ajuda"
  const HELP_REPLY: string :=
    "ℹ️ COMANDOS DISPONÍVEIS:\n\n/novo [tarefa] # [hora] - Criar lembrete\n/lista - Ver todos lembretes\n/ajuda - Ver esta mensagem\n\nExemplos:\n/novo Ligar para mãe # 20:00\n/novo Pagar conta luz # 18:00"
  const CONFIRM_REPLY: string := "✅ Lembrete confirmado! Bem lembrado! 😊"
  const CANCEL_REPLY: string := "❌ Lembrete cancelado."
  const FALLBACK_REPLY: string := "Não entendi. Digite /ajuda para ver os comandos."
  const FORMAT_ERROR_REPLY: string := "Formato incorreto! Use: /novo [tarefa] # [hora]\nEx: /novo Comprar leite # 19:00"
  const HOUR_ERROR_REPLY: string := "Hora inválida! Use formato HH:MM (ex: 19:00)"
  const CREATE_ERROR_REPLY: string := "❌ Erro ao criar lembrete. Tente novamente."
  const EMPTY_LIST_REPLY: string := "📭 Você não tem lembretes ativos.\nCrie um com /novo [tarefa] # [hora]"
  const LIST_ERROR_REPLY: string := "❌ Erro ao buscar lembretes."
  const LIST_FOOTER: string := "Para criar novo: /novo [tarefa] # [hora]"

  function CreatedReply(texto: string, hora: string): string {
    "✅ Lembrete criado!\n\n\"" + texto + "\"\n🕐 Todo dia às " + hora + "\n\nVou te lembrar pontualmente!"
  }

  // ------------------------------------------------ processMessage

  datatype Command = Greet | Novo | Lista | Ajuda | Confirm | Cancel | Fallback

  const SERVER_GREETINGS: seq<string> := ["oi", "olá", "ola"]

  /** Where `processMessage` sends a text, judged on the lower-cased, trimmed text. */
  function Route(mensagem: string): Command {
    var m := Normalized(mensagem);
    if m in SERVER_GREETINGS then Greet
    else if StartsWith(m, "/novo") then Novo
    else if m == "/lista" then Lista
    else if m == "/ajuda" then Ajuda
    else if Includes(m, "✅") || Includes(m, "confirmar") then Confirm
    else if Includes(m, "❌") || Includes(m, "cancelar") then Cancel
    else Fallback
  }

  /** Each route is taken exactly when its test holds and no earlier one does: greeting, then
      the `/novo` prefix, then `/lista` and `/ajuda`, then the confirmation and the cancellation
      substrings. */
  lemma RoutePrecedence(mensagem: string)
    ensures var c, m := Route(mensagem), Normalized(mensagem);
      var earlier := m in SERVER_GREETINGS || StartsWith(m, "/novo") || m == "/lista" || m == "/ajuda";
      && (c == Greet <==> m in SERVER_GREETINGS)
      && (c == Novo <==> m !in SERVER_GREETINGS && StartsWith(m, "/novo"))
      && (c == Lista <==> m == "/lista")
      && (c == Ajuda <==> m == "/ajuda")
      && (c == Confirm <==> !earlier && (Includes(m, "✅") || Includes(m, "confirmar")))
      && (c == Cancel <==>
            !earlier && !Includes(m, "✅") && !Includes(m, "confirmar") && (Includes(m, "❌") || Includes(m, "cancelar")))
  {
    assert "/lista"[..5][1] == 'l' && "/ajuda"[..5][1] == 'a';
  }

  /** A text that names both confirming and cancelling is taken as a confirmation. */
  lemma ConfirmWinsOverCancel(mensagem: string)
    requires Route(mensagem) in {Confirm, Cancel}
    requires Includes(Normalized(mensagem), "confirmar") && Includes(Normalized(mensagem), "cancelar")
    ensures Route(mensagem) == Confirm
  {
  }

  // ------------------------------------------------ criarLembrete: parsing

  /** `/^([0-1]?[0-9]|2[0-3]):[0-5][0-9]$/.test(hora)` */
  predicate MatchesHora(h: string) {
    if |h| == 4 then
      IsDigit(h[0]) && h[1] == ':' && '0' <= h[2] <= '5' && IsDigit(h[3])
    else if |h| == 5 then
      && (('0' <= h[0] <= '1' && IsDigit(h[1])) || (h[0] == '2' && '0' <= h[1] <= '3'))
      && h[2] == ':' && '0' <= h[3] <= '5' && IsDigit(h[4])
    else
      false
  }

  /** The anchored pattern accepts exactly one or two hour digits worth at most 23, a colon, and
      two minute digits worth at most 59. */
  lemma MatchesHoraMeaning(h: string)
    ensures MatchesHora(h) <==>
      && 4 <= |h| <= 5 && h[|h| - 3] == ':'
      && AllDigits(h[..|h| - 3]) && AllDigits(h[|h| - 2..])
      && ParseDecimal(h[..|h| - 3]) <= 23 && ParseDecimal(h[|h| - 2..]) <= 59
  {
    if 4 <= |h| <= 5 {
      var hs, ms := h[..|h| - 3], h[|h| - 2..];
      if AllDigits(ms) {
        TwoDigitValue(ms);
      }
      if |h| == 4 && AllDigits(hs) {
        OneDigitValue(hs);
      }
      if |h| == 5 && AllDigits(hs) {
        TwoDigitValue(hs);
      }
    }
  }

  /** `const [horas, minutos] = hora.split(':')` read with `parseInt`. */
  function HoraFields(hora: string): (hm: (nat, nat))
    requires MatchesHora(hora)
    ensures hm.0 == ParseDecimal(hora[..|hora| - 3]) <= 23
    ensures hm.1 == ParseDecimal(hora[|hora| - 2..]) <= 59
  {
    MatchesHoraMeaning(hora);
    var hs, ms := hora[..|hora| - 3], hora[|hora| - 2..];
    assert hora == hs + [':'] + ms;
    DigitsHaveNoSeparator(hs);
    DigitsHaveNoSeparator(ms);
    SplitAtOnlySeparator(hs, ':', ms);
    var partes := Split(hora, ':');
    (ParseDecimal(partes[0]), ParseDecimal(partes[1]))
  }

  datatype NovoRequest = NovoRequest(texto: string, hora: string)

  datatype NovoError = FormatError | InvalidHour

  /** The parsing half of `criarLembrete`: split at `#`, the task is the first part without its
      first `/novo`, the hour the second part, both trimmed. */
  function ParseNovo(mensagem: string): (r: Result<NovoRequest, NovoError>)
    ensures r.Ok? ==> MatchesHora(r.value.hora)
  {
    var partes := Split(mensagem, '#');
    if |partes| < 2 then
      Err(FormatError)
    else
      var texto := Trim(ReplaceFirst(partes[0], "/novo", ""));
      var hora := Trim(partes[1]);
      if !MatchesHora(hora) then Err(InvalidHour) else Ok(NovoRequest(texto, hora))
  }

  /** The format error is exactly the text without a `#`. */
  lemma FormatErrorIffNoHash(mensagem: string)
    ensures ParseNovo(mensagem) == Err(FormatError) <==> '#' !in mensagem
  {
    SplitFewerThanTwo(mensagem, '#');
  }

  /** Only the first two `#`-separated parts are looked at: anything after a second `#` is
      ignored. */
  lemma OnlySecondPartIsTheHour(a: string, b: string, rest: string)
    requires '#' !in a && '#' !in b
    ensures ParseNovo(a + ['#'] + b + ['#'] + rest) == ParseNovo(a + ['#'] + b)
  {
    var long, short := a + ['#'] + b + ['#'] + rest, a + ['#'] + b;
    var tail := b + ['#'] + rest;
    assert long == a + ['#'] + tail;
    SplitAfterFirst(a, '#', tail);
    SplitAfterFirst(b, '#', rest);
    var parts := Split(long, '#');
    assert parts == [a] + ([b] + Split(rest, '#'));
    assert parts[..2] == [a, b];
    SplitAtOnlySeparator(a, '#', b);
    SameFirstParts(long, short);
  }

  /** `criarLembrete` reads only the first two parts. */
  lemma SameFirstParts(m1: string, m2: string)
    requires |Split(m1, '#')| >= 2 && |Split(m2, '#')| >= 2
    requires Split(m1, '#')[..2] == Split(m2, '#')[..2]
    ensures ParseNovo(m1) == ParseNovo(m2)
  {
    assert Split(m1, '#')[0] == Split(m1, '#')[..2][0];
    assert Split(m1, '#')[1] == Split(m1, '#')[..2][1];
    assert Split(m2, '#')[0] == Split(m2, '#')[..2][0];
    assert Split(m2, '#')[1] == Split(m2, '#')[..2][1];
  }

  /** On a routed `/novo` text the task is the first part after the `/novo` prefix, trimmed, and
      every character of it is already lower case. */
  lemma NovoTask(mensagem: string)
    requires StartsWith(Normalized(mensagem), "/novo") && ParseNovo(Normalized(mensagem)).Ok?
    ensures var m := Normalized(mensagem);
      var primeira := Split(m, '#')[0];
      var t := ParseNovo(m).value.texto;
      && StartsWith(primeira, "/novo") && t == Trim(primeira[5..])
      && forall i :: 0 <= i < |t| ==> LowerChar(t[i]) == t[i]
  {
    var m := Normalized(mensagem);
    NovoHasNoHash();
    PrefixSurvivesSplit(m, "/novo", '#');
    var primeira := Split(m, '#')[0];
    ReplacePrefix(primeira, "/novo");
    var semNovo := primeira[5..];
    var t := Trim(semNovo);
    SplitHead(m, '#');
    assert StartsWith(m, primeira);
    NormalizedIsLower(mensagem);
    LowerPieceStaysLower(m, primeira, 5);
  }

  /** A trimmed piece of a lower-case text is lower case. */
  lemma LowerPieceStaysLower(m: string, primeira: string, k: nat)
    requires forall i :: 0 <= i < |m| ==> LowerChar(m[i]) == m[i]
    requires StartsWith(m, primeira) && k <= |primeira|
    ensures var t := Trim(primeira[k..]); forall i :: 0 <= i < |t| ==> LowerChar(t[i]) == t[i]
  {
    var s := primeira[k..];
    var t := Trim(s);
    var a := |s| - |TrimStart(s)|;
    forall j | 0 <= j < |t| ensures LowerChar(t[j]) == t[j] {
      assert t[j] == s[a + j] == primeira[k + a + j] == m[k + a + j];
    }
  }

  lemma NovoHasNoHash()
    ensures '#' !in "/novo"
  {
  }

  /** A prefix without the separator is kept whole by the first part of a split. */
  lemma PrefixSurvivesSplit(s: string, p: string, sep: char)
    requires StartsWith(s, p) && sep !in p
    ensures StartsWith(Split(s, sep)[0], p)
  {
    SplitHead(s, sep);
    var i := IndexOf(s, [sep], 0);
    if 0 <= i < |p| {
      OccursSingle(s, sep, i);
    }
  }

  /** Replacing the first occurrence of a prefix removes that prefix. */
  lemma ReplacePrefix(s: string, p: string)
    requires StartsWith(s, p)
    ensures ReplaceFirst(s, p, "") == s[|p|..]
  {
    assert OccursAt(s, p, 0);
  }

  // ------------------------------------------------ criarLembrete: next execution

  /** `proximaExecucao`: today at `horas:minutos` with the seconds zeroed (the milliseconds of
      `new Date()` stay), or the same time tomorrow when that has already passed. It is the
      first instant at or after `now` with that time of day. */
  function NextExecution(horas: nat, minutos: nat, now: int): (r: int)
    requires horas <= 23 && minutos <= 59
    ensures now <= r < now + DAY
    ensures r % DAY == horas * HOUR + minutos * MINUTE + now % SECOND
    ensures HourOfDay(r) == horas && MinuteOfHour(r) == minutos
  {
    var offset := horas * HOUR + minutos * MINUTE + now % SECOND;
    var target := DayStart(now) + offset;
    var r := if target < now then target + DAY else target;
    assert DayStart(now) == (now / DAY) * DAY;
    var q := if target < now then now / DAY + 1 else now / DAY;
    assert r == q * DAY + offset;
    DayOffset(q, offset);
    TimeOfDayFields(horas, minutos, now % SECOND);
    DayModHour(r);
    r
  }

  lemma DayOffset(q: int, offset: int)
    requires 0 <= offset < DAY
    ensures (q * DAY + offset) % DAY == offset
  {
  }

  lemma TimeOfDayFields(h: nat, m: nat, ms: nat)
    requires h <= 23 && m <= 59 && ms < SECOND
    ensures var o := h * HOUR + m * MINUTE + ms;
      o < DAY && o / HOUR == h && (o % HOUR) / MINUTE == m
  {
    var o := h * HOUR + m * MINUTE + ms;
    assert m * MINUTE + ms < HOUR;
    assert o / HOUR == h;
    assert o % HOUR == m * MINUTE + ms;
  }

  /** No instant between `now` and the next execution has the chosen time of day. */
  lemma NextExecutionIsFirst(horas: nat, minutos: nat, now: int, t: int)
    requires horas <= 23 && minutos <= 59
    requires now <= t < NextExecution(horas, minutos, now)
    ensures t % DAY != NextExecution(horas, minutos, now) % DAY
  {
    var r := NextExecution(horas, minutos, now);
    LaterSameDayDiffers(t, r - t);
  }

  /** Moving less than a day forward changes the time of day. */
  lemma LaterSameDayDiffers(t: int, d: int)
    requires 0 < d < DAY
    ensures (t + d) % DAY != t % DAY
  {
    var q, a := t / DAY, t % DAY;
    assert t == q * DAY + a;
    if a + d < DAY {
      assert t + d == q * DAY + (a + d);
      DayOffset(q, a + d);
    } else {
      assert t + d == (q + 1) * DAY + (a + d - DAY);
      DayOffset(q + 1, a + d - DAY);
    }
  }

  // ------------------------------------------------ the store

  /** The row `criarLembrete` inserts. The column `tentativas` is not written; the table is
      taken to default it to 0. */
  function NewLembrete(id: nat, usuarioId: nat, req: NovoRequest, now: int): (l: Lembrete)
    requires MatchesHora(req.hora)
    ensures l.hora == req.hora + ":00" && l.repeticao == "diario" && l.status == "ativo"
    ensures l.texto == req.texto && l.usuarioId == usuarioId && l.tentativas == 0
    ensures now <= l.proximaExecucao < now + DAY
    ensures HourOfDay(l.proximaExecucao) == ParseDecimal(req.hora[..|req.hora| - 3])
    ensures MinuteOfHour(l.proximaExecucao) == ParseDecimal(req.hora[|req.hora| - 2..])
  {
    var hm := HoraFields(req.hora);
    Lembrete(id, usuarioId, req.texto, req.hora + ":00", "diario", NextExecution(hm.0, hm.1, now), "ativo", 0, now)
  }

  /** The users with this phone number. */
  function UsersWith(us: seq<Usuario>, telefone: string): (r: seq<Usuario>)
    ensures forall u :: u in r <==> u in us && u.telefone == telefone
  {
    if us == [] then []
    else
      var rest := UsersWith(us[1..], telefone);
      assert forall u :: u in us <==> u == us[0] || u in us[1..];
      if us[0].telefone == telefone then [us[0]] + rest else rest
  }

  /** `.eq('telefone', telefone).single()`: the user, when there is exactly one. */
  function SingleUser(us: seq<Usuario>, telefone: string): (r: Option<Usuario>)
    ensures r.Some? ==> r.value in us && r.value.telefone == telefone
  {
    var found := UsersWith(us, telefone);
    if |found| == 1 then Some(found[0]) else None
  }

  /** `.upsert({telefone, data_cadastro}, {onConflict: 'telefone'})`: the existing user gets the
      new registration date, or a new user is added. */
  function Upsert(us: seq<Usuario>, telefone: string, now: int, freshId: nat): seq<Usuario> {
    if UsersWith(us, telefone) == [] then
      us + [Usuario(freshId, telefone, now)]
    else
      seq(|us|, k requires 0 <= k < |us| => if us[k].telefone == telefone then us[k].(dataCadastro := now) else us[k])
  }

  predicate UniqueUsers(us: seq<Usuario>) {
    forall i, j :: 0 <= i < j < |us| ==> us[i].id != us[j].id && us[i].telefone != us[j].telefone
  }

  /** With unique phone numbers at most one user has a given number. */
  lemma {:induction false} UsersWithAtMostOne(us: seq<Usuario>, telefone: string)
    requires UniqueUsers(us)
    ensures |UsersWith(us, telefone)| <= 1
  {
    if us != [] {
      UsersWithAtMostOne(us[1..], telefone);
      if us[0].telefone == telefone {
        assert forall u :: u in us[1..] ==> u.telefone != telefone;
        var rest := UsersWith(us[1..], telefone);
        if rest != [] {
          assert rest[0] in rest;
        }
      }
    }
  }

  /** A user with the number in a table with unique numbers is the single one. */
  lemma SingleUserFound(us: seq<Usuario>, telefone: string, u: Usuario)
    requires UniqueUsers(us) && u in us && u.telefone == telefone
    ensures SingleUser(us, telefone) == Some(u)
  {
    UsersWithAtMostOne(us, telefone);
    assert u in UsersWith(us, telefone);
  }

  /** After the upsert there is exactly one user with the number, registered at `now`; an
      existing user keeps its id and every other user is untouched. */
  lemma UpsertSingle(us: seq<Usuario>, telefone: string, now: int, freshId: nat)
    requires UniqueUsers(us) && forall u :: u in us ==> u.id < freshId
    ensures var r := Upsert(us, telefone, now, freshId);
      && UniqueUsers(r) && (forall u :: u in r ==> u.id <= freshId)
      && (UsersWith(us, telefone) != [] ==> forall u :: u in r ==> u.id < freshId)
      && SingleUser(r, telefone).Some? && SingleUser(r, telefone).value.dataCadastro == now
      && (forall u :: u in us && u.telefone == telefone ==> SingleUser(r, telefone).value.id == u.id)
      && (forall u :: u in us && u.telefone != telefone ==> u in r)
      && (forall u :: u in r && u.telefone != telefone ==> u in us)
  {
    if UsersWith(us, telefone) == [] {
      UpsertNew(us, telefone, now, freshId);
    } else {
      UpsertExisting(us, telefone, now, freshId);
    }
  }

  lemma UpsertNew(us: seq<Usuario>, telefone: string, now: int, freshId: nat)
    requires UniqueUsers(us) && (forall u :: u in us ==> u.id < freshId) && UsersWith(us, telefone) == []
    ensures var r := Upsert(us, telefone, now, freshId);
      && r == us + [Usuario(freshId, telefone, now)]
      && UniqueUsers(r) && SingleUser(r, telefone) == Some(Usuario(freshId, telefone, now))
  {
    var r := Upsert(us, telefone, now, freshId);
    assert forall u :: u in us ==> u.telefone != telefone;
    assert UniqueUsers(r);
    SingleUserFound(r, telefone, r[|us|]);
  }

  lemma UpsertExisting(us: seq<Usuario>, telefone: string, now: int, freshId: nat)
    requires UniqueUsers(us) && (forall u :: u in us ==> u.id < freshId) && UsersWith(us, telefone) != []
    ensures var r := Upsert(us, telefone, now, freshId);
      && UniqueUsers(r) && (forall u :: u in r ==> u.id < freshId)
      && SingleUser(r, telefone).Some? && SingleUser(r, telefone).value.dataCadastro == now
      && (forall u :: u in us && u.telefone == telefone ==> SingleUser(r, telefone).value.id == u.id)
      && (forall u :: u in us && u.telefone != telefone ==> u in r)
      && (forall u :: u in r && u.telefone != telefone ==> u in us)
  {
    var r := Upsert(us, telefone, now, freshId);
    UpdatedInPlace(us, telefone, now, freshId);
    var w := UsersWith(us, telefone)[0];
    var i :| 0 <= i < |us| && us[i] == w;
    SingleUserFound(r, telefone, r[i]);
    forall u | u in us && u.telefone == telefone ensures u.id == r[i].id {
      var k :| 0 <= k < |us| && us[k] == u;
    }
    UpsertKeepsOthers(us, r, telefone, now, freshId);
  }

  lemma UpsertKeepsOthers(us: seq<Usuario>, r: seq<Usuario>, telefone: string, now: int, freshId: nat)
    requires forall u :: u in us ==> u.id < freshId
    requires |r| == |us| && forall k :: 0 <= k < |us| ==>
      r[k] == if us[k].telefone == telefone then us[k].(dataCadastro := now) else us[k]
    ensures forall u :: u in r ==> u.id < freshId
    ensures forall u :: u in us && u.telefone != telefone ==> u in r
    ensures forall u :: u in r && u.telefone != telefone ==> u in us
  {
    forall u | u in r ensures u.id < freshId {
      var k :| 0 <= k < |r| && r[k] == u;
      assert us[k] in us;
    }
    forall u | u in us && u.telefone != telefone ensures u in r {
      var k :| 0 <= k < |us| && us[k] == u;
      assert r[k] == u;
    }
    forall u | u in r && u.telefone != telefone ensures u in us {
      var k :| 0 <= k < |r| && r[k] == u;
      assert us[k] == u;
    }
  }

  /** Upserting a known number rewrites its user in place. */
  lemma UpdatedInPlace(us: seq<Usuario>, telefone: string, now: int, freshId: nat)
    requires UniqueUsers(us) && UsersWith(us, telefone) != []
    ensures var r := Upsert(us, telefone, now, freshId);
      && |r| == |us| && UniqueUsers(r)
      && forall k :: 0 <= k < |us| ==>
           r[k] == if us[k].telefone == telefone then us[k].(dataCadastro := now) else us[k]
  {
  }

  // ------------------------------------------------ listarLembretes

  /** `.eq('usuario_id', id).eq('status', 'ativo')` */
  function ActiveOf(rows: seq<Lembrete>, usuarioId: nat): (r: seq<Lembrete>)
    ensures forall x :: x in r <==> x in rows && x.usuarioId == usuarioId && x.status == "ativo"
  {
    if rows == [] then []
    else
      var rest := ActiveOf(rows[1..], usuarioId);
      assert forall x :: x in rows <==> x == rows[0] || x in rows[1..];
      if rows[0].usuarioId == usuarioId && rows[0].status == "ativo" then [rows[0]] + rest else rest
  }

  function HoraLe(a: Lembrete, b: Lembrete): bool {
    StrLe(a.hora, b.hora)
  }

  /** `.order('hora', { ascending: true })`, ties in table order. */
  function Listed(rows: seq<Lembrete>, usuarioId: nat): (r: seq<Lembrete>)
    ensures multiset(r) == multiset(ActiveOf(rows, usuarioId))
    ensures forall x :: x in r <==> x in rows && x.usuarioId == usuarioId && x.status == "ativo"
    ensures Sorted(r, HoraLe)
  {
    var a := ActiveOf(rows, usuarioId);
    forall x, y ensures HoraLe(x, y) || HoraLe(y, x) {
      StrLeTotal(x.hora, y.hora);
    }
    var r := SortBy(a, HoraLe);
    assert forall x :: x in r <==> x in multiset(r);
    assert forall x :: x in a <==> x in multiset(a);
    r
  }

  /** `lembrete.hora.substring(0, 5)` */
  function Prefix5(s: string): string {
    if |s| <= 5 then s else s[..5]
  }

  /** One numbered entry of the list. */
  function Entry(numero: nat, l: Lembrete): string {
    Decimal(numero) + ". " + l.texto + "\n   ⏰ " + Prefix5(l.hora) + " • " + l.repeticao + "\n\n"
  }

  /** The entries numbered from 1. */
  function Entries(rows: seq<Lembrete>): string {
    if rows == [] then "" else Entries(rows[..|rows| - 1]) + Entry(|rows|, rows[|rows| - 1])
  }

  function ListHeader(n: nat): string {
    "📋 SEUS LEMBRETES (" + Decimal(n) + "):\n\n"
  }

  /** The entry of the row at index `k` is numbered `k + 1` and sits after the entries of the
      rows before it. */
  lemma {:induction false} EntriesPrefix(rows: seq<Lembrete>, k: nat)
    requires k < |rows|
    ensures Entries(rows[..k + 1]) == Entries(rows[..k]) + Entry(k + 1, rows[k])
    ensures StartsWith(Entries(rows), Entries(rows[..k + 1]))
    decreases |rows|
  {
    assert rows[..k + 1][..k] == rows[..k];
    if k + 1 < |rows| {
      var init := rows[..|rows| - 1];
      assert init[..k + 1] == rows[..k + 1];
      EntriesPrefix(init, k);
      assert Entries(rows) == Entries(init) + Entry(|rows|, rows[|rows| - 1]);
      StartsWithAppend(Entries(init), Entries(rows[..k + 1]), Entry(|rows|, rows[|rows| - 1]));
    } else {
      assert rows[..k + 1] == rows;
    }
  }

  lemma StartsWithAppend(s: string, p: string, t: string)
    requires StartsWith(s, p)
    ensures StartsWith(s + t, p)
  {
    assert (s + t)[..|p|] == s[..|p|];
  }

  lemma AppendAssoc(a: string, b: string, c: string)
    ensures a + b + c == a + (b + c)
  {
  }

  /** The `forEach` of `listarLembretes`: the header with the count, then each row's entry
      numbered from 1 in list order, then the footer. */
  method RenderList(listed: seq<Lembrete>) returns (reply: string)
    ensures reply == ListHeader(|listed|) + Entries(listed) + LIST_FOOTER
  {
    reply := ListHeader(|listed|);
    var index := 0;
    while index < |listed|
      invariant 0 <= index <= |listed|
      invariant reply == ListHeader(|listed|) + Entries(listed[..index])
    {
      var entry := Entry(index + 1, listed[index]);
      EntriesPrefix(listed, index);
      AppendAssoc(ListHeader(|listed|), Entries(listed[..index]), entry);
      reply := reply + entry;
      index := index + 1;
    }
    assert listed[..index] == listed;
    reply := reply + LIST_FOOTER;
  }

  /** What `listarLembretes` answers. */
  function ListReply(us: seq<Usuario>, rows: seq<Lembrete>, telefone: string, queryOk: bool): string {
    var u := SingleUser(us, telefone);
    if u.None? || !queryOk then
      LIST_ERROR_REPLY
    else
      var listed := Listed(rows, u.value.id);
      if listed == [] then EMPTY_LIST_REPLY else ListHeader(|listed|) + Entries(listed) + LIST_FOOTER
  }

  // ------------------------------------------------ the database

  class Database {
    var usuarios: seq<Usuario>
    var lembretes: seq<Lembrete>
    var nextUsuarioId: nat
    var nextLembreteId: nat

    /** Primary keys and the unique phone number, and ids below the next ones to hand out. */
    ghost predicate Valid()
      reads this
    {
      && UniqueUsers(usuarios)
      && (forall u :: u in usuarios ==> u.id < nextUsuarioId)
      && UniqueIds(lembretes)
      && (forall l :: l in lembretes ==> l.id < nextLembreteId)
    }

    constructor()
      ensures Valid() && usuarios == [] && lembretes == []
    {
      usuarios, lembretes := [], [];
      nextUsuarioId, nextLembreteId := 1, 1;
    }

    /** The upsert of `criarLembrete`: a new number gets a new user, a known one a new
        registration date; the reminders are not touched. */
    method UpsertUsuario(telefone: string, now: int) returns (usuario: Usuario)
      requires Valid()
      modifies this
      ensures Valid()
      ensures usuarios == Upsert(old(usuarios), telefone, now, old(nextUsuarioId))
      ensures lembretes == old(lembretes) && nextLembreteId == old(nextLembreteId)
      ensures SingleUser(usuarios, telefone) == Some(usuario) && usuario.dataCadastro == now
    {
      UpsertSingle(usuarios, telefone, now, nextUsuarioId);
      var novo := UsersWith(usuarios, telefone) == [];
      usuarios := Upsert(usuarios, telefone, now, nextUsuarioId);
      if novo {
        nextUsuarioId := nextUsuarioId + 1;
      }
      usuario := SingleUser(usuarios, telefone).value;
    }

    /** The insert of `criarLembrete`: the row is appended under the next id. */
    method InsertLembrete(row: Lembrete)
      requires Valid() && row.id == nextLembreteId
      modifies this
      ensures Valid()
      ensures lembretes == old(lembretes) + [row] && usuarios == old(usuarios)
      ensures nextUsuarioId == old(nextUsuarioId)
    {
      lembretes := lembretes + [row];
      nextLembreteId := nextLembreteId + 1;
    }

    /** `criarLembrete(telefone, mensagem)`: the parse errors and a failed upsert write nothing;
        a failed insert leaves the upserted user; otherwise the new row is appended. */
    method CriarLembrete(telefone: string, mensagem: string, now: int, upsertOk: bool, insertOk: bool)
      returns (reply: string)
      requires Valid()
      modifies this
      ensures Valid()
      ensures ParseNovo(mensagem) == Err(FormatError) ==> reply == FORMAT_ERROR_REPLY && unchanged(this)
      ensures ParseNovo(mensagem) == Err(InvalidHour) ==> reply == HOUR_ERROR_REPLY && unchanged(this)
      ensures ParseNovo(mensagem).Ok? && !upsertOk ==> reply == CREATE_ERROR_REPLY && unchanged(this)
      ensures ParseNovo(mensagem).Ok? && upsertOk ==>
        var req := ParseNovo(mensagem).value;
        var us := Upsert(old(usuarios), telefone, now, old(nextUsuarioId));
        && usuarios == us
        && SingleUser(us, telefone).Some?
        && (insertOk ==>
              && lembretes == old(lembretes) + [NewLembrete(old(nextLembreteId), SingleUser(us, telefone).value.id, req, now)]
              && reply == CreatedReply(req.texto, req.hora))
        && (!insertOk ==> lembretes == old(lembretes) && reply == CREATE_ERROR_REPLY)
    {
      var parsed := ParseNovo(mensagem);
      if parsed.Err? {
        reply := if parsed.error == FormatError then FORMAT_ERROR_REPLY else HOUR_ERROR_REPLY;
        return;
      }
      if !upsertOk {
        reply := CREATE_ERROR_REPLY;
        return;
      }
      var req := parsed.value;
      var usuario := UpsertUsuario(telefone, now);
      if !insertOk {
        reply := CREATE_ERROR_REPLY;
        return;
      }
      var row := NewLembrete(nextLembreteId, usuario.id, req, now);
      InsertLembrete(row);
      reply := CreatedReply(req.texto, req.hora);
    }

    /** `listarLembretes(telefone)`: the error text when the user or the query fails, the
        empty-list text, or the rendered list. */
    method ListarLembretes(telefone: string, queryOk: bool) returns (reply: string)
      ensures reply == ListReply(usuarios, lembretes, telefone, queryOk)
    {
      var usuario := SingleUser(usuarios, telefone);
      if usuario.None? || !queryOk {
        return LIST_ERROR_REPLY;
      }
      var listed := Listed(lembretes, usuario.value.id);
      if |listed| == 0 {
        return EMPTY_LIST_REPLY;
      }
      reply := RenderList(listed);
    }
    /** One run of the minute scheduler: the fetched rows are sent in table order; a send that
        throws ends the run; the update after a send is not checked for errors. */
    method Sweep(now: int, queryOk: bool, sendOk: nat -> bool, updateOk: nat -> bool)
      requires Valid()
      modifies this
      ensures Valid()
      ensures usuarios == old(usuarios) && nextUsuarioId == old(nextUsuarioId) && nextLembreteId == old(nextLembreteId)
      ensures lembretes == if queryOk then SweepResult(old(lembretes), now, sendOk, updateOk) else old(lembretes)
    {
      if !queryOk {
        return;
      }
      ghost var rows := lembretes;
      var due := DueRows(lembretes, now);
      assert IdsOf(due[..0]) == {};
      var i := 0;
      while i < |due|
        invariant 0 <= i <= |due|
        invariant forall j :: 0 <= j < i ==> sendOk(due[j].id)
        invariant lembretes == Swept(rows, IdsOf(due[..i]), updateOk)
        invariant usuarios == old(usuarios) && nextUsuarioId == old(nextUsuarioId) && nextLembreteId == old(nextLembreteId)
      {
        var lembrete := due[i];
        if !sendOk(lembrete.id) {
          break;
        }
        var novaData := if lembrete.repeticao == "diario" then lembrete.proximaExecucao + DAY else lembrete.proximaExecucao;
        UniqueNotInPrefix(due, i);
        if updateOk(lembrete.id) {
          SweptStep(rows, IdsOf(due[..i]), updateOk, lembrete);
          lembretes := UpdateById(lembretes, lembrete.id, novaData, lembrete.tentativas + 1);
        } else {
          SweptSkip(rows, IdsOf(due[..i]), updateOk, lembrete.id);
        }
        IdsOfPrefix(due, i);
        i := i + 1;
      }
      StopsAtFirstFailure(due, sendOk, i);
      SweepKeepsKey(rows, now, sendOk, updateOk, nextLembreteId);
    }

    /** `processMessage(telefone, mensagem)`: the routed command's answer. Only `/novo` writes;
        the confirmation and cancellation answers touch nothing. */
    method ProcessMessage(telefone: string, mensagem: string, now: int, upsertOk: bool, insertOk: bool, queryOk: bool)
      returns (reply: string)
      requires Valid()
      modifies this
      ensures Valid()
      ensures Route(mensagem) != Novo ==> unchanged(this)
      ensures Route(mensagem) == Greet ==> reply == GREETING_REPLY
      ensures Route(mensagem) == Lista ==> reply == ListReply(usuarios, lembretes, telefone, queryOk)
      ensures Route(mensagem) == Ajuda ==> reply == HELP_REPLY
      ensures Route(mensagem) == Confirm ==> reply == CONFIRM_REPLY
      ensures Route(mensagem) == Cancel ==> reply == CANCEL_REPLY
      ensures Route(mensagem) == Fallback ==> reply == FALLBACK_REPLY
      ensures Route(mensagem) == Novo && ParseNovo(Normalized(mensagem)) == Err(FormatError) ==>
        reply == FORMAT_ERROR_REPLY && unchanged(this)
      ensures Route(mensagem) == Novo && ParseNovo(Normalized(mensagem)) == Err(InvalidHour) ==>
        reply == HOUR_ERROR_REPLY && unchanged(this)
      ensures Route(mensagem) == Novo && ParseNovo(Normalized(mensagem)).Ok? && !upsertOk ==>
        reply == CREATE_ERROR_REPLY && unchanged(this)
      ensures Route(mensagem) == Novo && ParseNovo(Normalized(mensagem)).Ok? && upsertOk ==>
        var req := ParseNovo(Normalized(mensagem)).value;
        var us := Upsert(old(usuarios), telefone, now, old(nextUsuarioId));
        && usuarios == us
        && SingleUser(us, telefone).Some?
        && (insertOk ==>
              && lembretes == old(lembretes) + [NewLembrete(old(nextLembreteId), SingleUser(us, telefone).value.id, req, now)]
              && reply == CreatedReply(req.texto, req.hora))
        && (!insertOk ==> lembretes == old(lembretes) && reply == CREATE_ERROR_REPLY)
    {
      var m := Normalized(mensagem);
      match Route(mensagem)
      case Greet => reply := GREETING_REPLY;
      case Novo => reply := CriarLembrete(telefone, m, now, upsertOk, insertOk);
      case Lista => reply := ListarLembretes(telefone, queryOk);
      case Ajuda => reply := HELP_REPLY;
      case Confirm => reply := CONFIRM_REPLY;
      case Cancel => reply := CANCEL_REPLY;
      case Fallback => reply := FALLBACK_REPLY;
    }
  }
}
