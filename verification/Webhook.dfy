/**
 * The inbound-text handling of the Meta webhook (`api/webhook.js`): fixed commands first, then
 * the pattern `<task> as <hour>`, whose hour token `validarHora` normalises to `HH:MM`.
 * Every branch answers with the same message template; what differs, and what this module
 * models, is the decision.
 */
module Webhook {
  import opened JsText
  import opened Wrappers

  /** What `processMessage` made of a text. */
  datatype Action =
    | Greeting
    | Help
    | ListRequest
    | Confirmation
    | Reminder(task: string, hora: string)      // pattern found, hour valid, normalised
    | InvalidHour(task: string, token: string)  // pattern found, hour out of range
    | Unrecognized

  const GREETINGS: seq<string> := ["oi", "olá", "ola"]
  const HELP_WORDS: seq<string> := ["ajuda", "help"]
  const LIST_WORDS: seq<string> := ["lista", "listar"]
  const CONFIRMATIONS: seq<string> :=
    ["feito", "feita", "fez", "pronto", "pronta", "concluído", "concluida", "concluído", "ok", "certo", "já fiz"]

  predicate IsCommandWord(w: string) {
    w in GREETINGS || w in HELP_WORDS || w in LIST_WORDS || w in CONFIRMATIONS
  }

  // ------------------------------------------------ the pattern /(.+?)\s+as\s+(\d{1,2}(?:[:.]\d{2})?)/i

  predicate IsA(c: char) { c == 'a' || c == 'A' }

  predicate IsS(c: char) { c == 's' || c == 'S' }

  /** The end of the run of white space that starts at `i`. */
  function SpaceRunEnd(s: string, i: nat): (j: nat)
    requires i <= |s|
    ensures i <= j <= |s|
    ensures forall x :: i <= x < j ==> IsSpace(s[x])
    ensures j == |s| || !IsSpace(s[j])
    decreases |s| - i
  {
    if i < |s| && IsSpace(s[i]) then SpaceRunEnd(s, i + 1) else i
  }

  /** `\s+as\s+` matched at `i` and followed by a digit: the digit's position. */
  function Connective(s: string, i: nat): Option<nat>
    requires i <= |s|
  {
    var j := SpaceRunEnd(s, i);
    if j == i || j + 2 > |s| || !IsA(s[j]) || !IsS(s[j + 1]) then
      None
    else
      var k := SpaceRunEnd(s, j + 2);
      if k == j + 2 || k == |s| || !IsDigit(s[k]) then None else Some(k)
  }

  /** The same connective read declaratively: white space on `[i, j)`, the letters a and s in
      either case, white space on `[j + 2, k)`, and a digit at `k`. */
  ghost predicate ConnectiveShape(s: string, i: nat, j: nat, k: nat) {
    && i < j && j + 2 < k < |s|
    && (forall x :: i <= x < j ==> IsSpace(s[x]))
    && IsA(s[j]) && IsS(s[j + 1])
    && (forall x :: j + 2 <= x < k ==> IsSpace(s[x]))
    && IsDigit(s[k])
  }

  /** `Connective` finds the connective exactly when it is there, and the digit position is the
      only one possible: greedy white-space runs are the only way to reach the letters. */
  lemma ConnectiveIsShape(s: string, i: nat)
    requires i <= |s|
    ensures Connective(s, i).Some? ==> ConnectiveShape(s, i, SpaceRunEnd(s, i), Connective(s, i).value)
    ensures forall j: nat, k: nat :: ConnectiveShape(s, i, j, k) ==> Connective(s, i) == Some(k)
  {
    forall j: nat, k: nat | ConnectiveShape(s, i, j, k) ensures Connective(s, i) == Some(k) {
      var j' := SpaceRunEnd(s, i);
      assert j' == j;
      var k' := SpaceRunEnd(s, j + 2);
      assert k' == k;
    }
  }

  /** The lazy task group `(.+?)` may end at `e` when starting at `p`: `.` matches no line
      terminator, and the connective follows. */
  ghost predicate TaskFits(s: string, p: nat, e: nat) {
    && p < e <= |s|
    && (forall x :: p <= x < e ==> !IsLineTerminator(s[x]))
    && Connective(s, e).Some?
  }

  /** The shortest task that fits from `p`, trying task ends from `e` on. */
  function ShortestTask(s: string, p: nat, e: nat): (r: Option<nat>)
    requires p < e <= |s|
    requires forall x :: p <= x < e - 1 ==> !IsLineTerminator(s[x])
    ensures r.Some? ==> e <= r.value && TaskFits(s, p, r.value)
    ensures forall e' :: e <= e' && (r.None? || e' < r.value) ==> !TaskFits(s, p, e')
    decreases |s| - e
  {
    if IsLineTerminator(s[e - 1]) then
      None
    else if Connective(s, e).Some? then
      Some(e)
    else if e == |s| then
      None
    else
      ShortestTask(s, p, e + 1)
  }

  /** Where the pattern matched: the task is `s[start..taskEnd]`, the hour token starts at `digit`. */
  datatype AsMatch = AsMatch(start: nat, taskEnd: nat, digit: nat)

  /** `text.match(regex)` searched from `p`: the leftmost start at which the pattern matches, and
      from there the shortest task. */
  function FindAs(s: string, p: nat): (r: Option<AsMatch>)
    requires p <= |s|
    ensures r.None? ==> forall q, e :: p <= q && TaskFits(s, q, e) ==> false
    ensures r.Some? ==>
      && p <= r.value.start
      && TaskFits(s, r.value.start, r.value.taskEnd)
      && Connective(s, r.value.taskEnd) == Some(r.value.digit)
      && (forall q, e :: p <= q < r.value.start ==> !TaskFits(s, q, e))
      && (forall e: nat :: e < r.value.taskEnd ==> !TaskFits(s, r.value.start, e))
    decreases |s| - p
  {
    if p == |s| then
      None
    else
      match ShortestTask(s, p, p + 1)
      case Some(e) => Some(AsMatch(p, e, Connective(s, e).value))
      case None => FindAs(s, p + 1)
  }

  /** `\d{1,2}(?:[:.]\d{2})?`: one or two digits, then optionally `:` or `.` and two digits. */
  predicate IsTimeToken(t: string) {
    || (1 <= |t| <= 2 && AllDigits(t))
    || (4 <= |t| <= 5 && AllDigits(t[..|t| - 3]) && t[|t| - 3] in ":." && AllDigits(t[|t| - 2..]))
  }

  /** The hour group matched greedily at the digit `k`. */
  function TokenAt(s: string, k: nat): (t: string)
    requires k < |s| && IsDigit(s[k])
    ensures IsTimeToken(t) && k + |t| <= |s| && t == s[k..k + |t|]
    ensures forall e :: k + |t| < e <= |s| ==> !IsTimeToken(s[k..e])
  {
    var d := if k + 1 < |s| && IsDigit(s[k + 1]) then k + 2 else k + 1;
    HourRun(s, k, d);
    var minutes := d + 3 <= |s| && s[d] in ":." && IsDigit(s[d + 1]) && IsDigit(s[d + 2]);
    var t := if minutes then s[k..d + 3] else s[k..d];
    TokenIsLongest(s, k, d, minutes, t);
    if minutes then
      HourAndMinutes(s, k, d);
      t
    else
      t
  }

  /** Greediness: no token at `k` is longer than the one `TokenAt` takes, since both the second
      hour digit and the minutes group are taken whenever they are there. */
  lemma TokenIsLongest(s: string, k: nat, d: nat, minutes: bool, t: string)
    requires k < |s| && IsDigit(s[k])
    requires d == if k + 1 < |s| && IsDigit(s[k + 1]) then k + 2 else k + 1
    requires minutes == (d + 3 <= |s| && s[d] in ":." && IsDigit(s[d + 1]) && IsDigit(s[d + 2]))
    requires t == if minutes then s[k..d + 3] else s[k..d]
    ensures forall e :: k + |t| < e <= |s| ==> !IsTimeToken(s[k..e])
  {
    forall e | k + |t| < e <= |s|
      ensures !IsTimeToken(s[k..e])
    {
      NoLongerToken(s, k, d, minutes, e - k);
    }
  }

  /** One candidate length of `TokenIsLongest`. */
  lemma NoLongerToken(s: string, k: nat, d: nat, minutes: bool, n: nat)
    requires k < |s| && IsDigit(s[k])
    requires d == if k + 1 < |s| && IsDigit(s[k + 1]) then k + 2 else k + 1
    requires minutes == (d + 3 <= |s| && s[d] in ":." && IsDigit(s[d + 1]) && IsDigit(s[d + 2]))
    requires (if minutes then d + 3 else d) < k + n <= |s|
    ensures !IsTimeToken(s[k..k + n])
  {
    var u := s[k..k + n];
    if n <= 2 {
      assert u[1] == s[k + 1] && !IsDigit(u[1]);
    } else if 4 <= n <= 5 {
      if k + n - 3 == d {
        assert !minutes;
        NotMinutes(s, d, u[n - 2..]);
        assert u[n - 3] == s[d] && u[n - 2..] == s[d + 1..d + 3];
      } else if n == 4 {
        assert u[1] == s[k + 1] && u[1] !in ":.";
      } else {
        assert u[..n - 3][1] == s[k + 1] && !IsDigit(s[k + 1]);
      }
    }
  }

  /** The characters after the hour digits that are not a `[:.]\d{2}` group. */
  lemma NotMinutes(s: string, d: nat, m: string)
    requires d + 3 <= |s| && m == s[d + 1..d + 3]
    requires !(s[d] in ":." && IsDigit(s[d + 1]) && IsDigit(s[d + 2]))
    ensures s[d] in ":." ==> !AllDigits(m)
  {
    assert m[0] == s[d + 1] && m[1] == s[d + 2];
  }

  /** One or two digits are a whole-hour token. */
  lemma HourRun(s: string, k: nat, d: nat)
    requires k < d <= k + 2 && d <= |s| && forall x :: k <= x < d ==> IsDigit(s[x])
    ensures IsTimeToken(s[k..d]) && AllDigits(s[k..d])
  {
    assert forall x :: 0 <= x < d - k ==> s[k..d][x] == s[k + x];
  }

  /** The hour digits, a separator and two digits are an hour-and-minutes token. */
  lemma HourAndMinutes(s: string, k: nat, d: nat)
    requires k < d <= k + 2 && d + 3 <= |s| && AllDigits(s[k..d])
    requires s[d] in ":." && IsDigit(s[d + 1]) && IsDigit(s[d + 2])
    ensures IsTimeToken(s[k..d + 3])
  {
    var t := s[k..d + 3];
    assert t[..|t| - 3] == s[k..d];
    assert t[|t| - 3] == s[d];
    assert t[|t| - 2..] == s[d + 1..d + 3];
  }

  // ------------------------------------------------ validarHora

  /** The digits before the separator, or the whole token. */
  function HourDigits(t: string): (h: string)
    requires IsTimeToken(t)
    ensures AllDigits(h) && 1 <= |h| <= 2
  {
    if |t| <= 2 then t else t[..|t| - 3]
  }

  /** The hour a token denotes. */
  function TokenHour(t: string): nat
    requires IsTimeToken(t)
  {
    ParseDecimal(HourDigits(t))
  }

  /** The minutes a token denotes: zero when it has no separator. */
  function TokenMinute(t: string): nat
    requires IsTimeToken(t)
  {
    if |t| <= 2 then 0 else ParseDecimal(t[|t| - 2..])
  }

  /** The token rewritten by `replace('.', ':')` and, when it has no `:`, suffixed with `:00`:
      always the hour digits, a colon and two minute digits. */
  lemma NormalizeToken(t: string)
    requires IsTimeToken(t)
    ensures var c := ReplaceFirst(t, ".", ":");
            var w := if Includes(c, ":") then c else c + ":00";
            && (|t| <= 2 ==> w == t + ":00")
            && (|t| > 2 ==> w == t[..|t| - 3] + ":" + t[|t| - 2..])
  {
    var c := ReplaceFirst(t, ".", ":");
    if |t| <= 2 {
      DigitsHaveNoSeparator(t);
      IndexOfAbsent(t, '.');
      assert c == t;
      IndexOfAbsent(t, ':');
    } else {
      var h, m := t[..|t| - 3], t[|t| - 2..];
      DigitsHaveNoSeparator(h);
      DigitsHaveNoSeparator(m);
      assert t == h + [t[|t| - 3]] + m;
      if t[|t| - 3] == '.' {
        IndexOfAfterPrefix(h, '.', m);
        assert c == h + ":" + m;
      } else {
        IndexOfAbsent(t, '.');
        assert c == h + ":" + m;
      }
      IndexOfAfterPrefix(h, ':', m);
    }
  }

  /** `validarHora(horaString)` on the tokens its caller passes (the pattern's hour group).
      It accepts exactly the tokens whose hour is at most 23 and whose minutes are at most 59,
      and then answers `HH:MM` zero-padded with the same hour and minutes. */
  function ValidarHora(token: string): (r: Option<string>)
    requires IsTimeToken(token)
    ensures r.Some? <==> TokenHour(token) <= 23 && TokenMinute(token) <= 59
    ensures r.Some? ==> r.value == Pad2(TokenHour(token)) + ":" + Pad2(TokenMinute(token))
  {
    var colon := ReplaceFirst(token, ".", ":");
    var withMinutes := if Includes(colon, ":") then colon else colon + ":00";
    NormalizeToken(token);
    var hs := HourDigits(token);
    var ms := if |token| <= 2 then "00" else token[|token| - 2..];
    DigitsHaveNoSeparator(hs);
    DigitsHaveNoSeparator(ms);
    assert withMinutes == hs + [':'] + ms;
    SplitAtOnlySeparator(hs, ':', ms);
    var parts := Split(withMinutes, ':');
    var horas := ParseDecimal(parts[0]);
    var minutos := ParseDecimal(parts[1]);  // `parseInt(minutosStr, 10) || 0`: never NaN here
    assert |token| <= 2 ==> minutos == 0 by {
      if |token| <= 2 {
        TwoDigitValue(ms);
      }
    }
    if horas < 0 || horas > 23 || minutos < 0 || minutos > 59 then
      None
    else
      Some(Pad2(horas) + ":" + Pad2(minutos))
  }

  /** What `validarHora` returns is itself an hour token, five characters `HH:MM`, denoting the
      same hour and minutes as the token it came from. */
  lemma {:induction false} ValidarHoraOutput(token: string)
    requires IsTimeToken(token) && ValidarHora(token).Some?
    ensures var r := ValidarHora(token).value;
            && |r| == 5 && r[2] == ':' && IsTimeToken(r)
            && TokenHour(r) == TokenHour(token) && TokenMinute(r) == TokenMinute(token)
  {
    var r := ValidarHora(token).value;
    var h, m := Pad2(TokenHour(token)), Pad2(TokenMinute(token));
    assert r == h + ":" + m;
    assert r[..2] == h && r[3..] == m;
  }

  /** Normalising a normalised hour changes nothing. */
  lemma ValidarHoraIdempotent(token: string)
    requires IsTimeToken(token) && ValidarHora(token).Some?
    ensures ValidarHora(ValidarHora(token).value) == ValidarHora(token)
  {
    ValidarHoraOutput(token);
  }

  /** `H.MM` and `H:MM` are read alike. */
  lemma DotReadsAsColon(h: string, m: string)
    requires 1 <= |h| <= 2 && AllDigits(h) && |m| == 2 && AllDigits(m)
    ensures IsTimeToken(h + "." + m) && IsTimeToken(h + ":" + m)
    ensures ValidarHora(h + "." + m) == ValidarHora(h + ":" + m)
  {
    var d, c := h + "." + m, h + ":" + m;
    assert d[..|d| - 3] == h == c[..|c| - 3];
    assert d[|d| - 2..] == m == c[|c| - 2..];
  }

  /** A token without minutes means the whole hour. */
  lemma WholeHour(h: string)
    requires 1 <= |h| <= 2 && AllDigits(h) && ParseDecimal(h) <= 23
    ensures ValidarHora(h) == Some(Pad2(ParseDecimal(h)) + ":00")
  {
    assert IsTimeToken(h) && TokenHour(h) == ParseDecimal(h) && TokenMinute(h) == 0;
    Pad2Zero(Pad2(ParseDecimal(h)));
  }

  // ------------------------------------------------ processMessage

  /** `processMessage(from, text)`: the fixed commands on the lower-cased, trimmed text, in the
      order greeting, help, list, confirmation; then the pattern on the original text. */
  function Classify(text: string): Action
  {
    var lower := Normalized(text);
    if lower in GREETINGS then Greeting
    else if lower in HELP_WORDS then Help
    else if lower in LIST_WORDS then ListRequest
    else if lower in CONFIRMATIONS then Confirmation
    else
      match FindAs(text, 0)
      case None => Unrecognized
      case Some(m) =>
        var token := TokenAt(text, m.digit);
        var task := Trim(text[m.start..m.taskEnd]);
        match ValidarHora(token)
        case Some(hora) => Reminder(task, hora)
        case None => InvalidHour(task, token)
  }

  /** The fixed commands are exact matches of the normalised text and win over the pattern;
      the pattern is only tried on a text that is no command word, and an accepted hour is
      always a normalised `HH:MM`. */
  lemma ClassifyPrecedence(text: string)
    ensures var a, w := Classify(text), Normalized(text);
      && (a == Greeting <==> w in GREETINGS)
      && (a == Help <==> w in HELP_WORDS)
      && (a == ListRequest <==> w in LIST_WORDS)
      && (a == Confirmation <==> w in CONFIRMATIONS)
      && (a == Unrecognized <==> !IsCommandWord(w) && FindAs(text, 0).None?)
      && (a.Reminder? || a.InvalidHour? ==> !IsCommandWord(w) && FindAs(text, 0).Some?)
      && (a.Reminder? ==> |a.hora| == 5 && a.hora[2] == ':' && IsTimeToken(a.hora))
  {
    var a, w := Classify(text), Normalized(text);
    CommandWordsDisjoint(w);
    if !IsCommandWord(w) {
      match FindAs(text, 0)
      case None =>
      case Some(m) =>
        var token := TokenAt(text, m.digit);
        if ValidarHora(token).Some? {
          ValidarHoraOutput(token);
        }
    }
  }

  lemma CommandWordsDisjoint(w: string)
    ensures w in GREETINGS ==> w !in HELP_WORDS && w !in LIST_WORDS && w !in CONFIRMATIONS
    ensures w in HELP_WORDS ==> w !in LIST_WORDS && w !in CONFIRMATIONS
    ensures w in LIST_WORDS ==> w !in CONFIRMATIONS
  {
  }

  /** Without the letter a there is no connective, so the pattern cannot match. */
  lemma NoPatternWithoutA(s: string)
    requires forall x :: 0 <= x < |s| ==> !IsA(s[x])
    ensures FindAs(s, 0).None?
  {
    if FindAs(s, 0).Some? {
      var m := FindAs(s, 0).value;
      ConnectiveIsShape(s, m.taskEnd);
      assert false;
    }
  }

  /** A text with no letter a that is no command word is not understood. */
  lemma NoCommandNoPattern(text: string)
    requires forall x :: 0 <= x < |text| ==> !IsA(text[x])
    requires !IsCommandWord(Normalized(text))
    ensures Classify(text) == Unrecognized
  {
    NoPatternWithoutA(text);
  }
}
