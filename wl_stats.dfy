/** The pending-queue board and the weekly ranking of the Discord bot: the
    waiting time of the oldest pending application in hours and minutes,
    the alert tiers and the hours in which staff may be pinged, the message
    the board keeps editing, the ranking text, and the time of the next
    ranking post (the next Sunday at 11:00 local time). */
module WlStats {
  import opened Common

  const HOUR_S: int := 3600
  const DAY_MS: int := 24 * 60 * 60 * 1000
  const WEEK_MS: int := 7 * DAY_MS
  /** 11:00:00.000 as milliseconds into a day. */
  const RANK_AT_MS: int := 11 * 60 * 60 * 1000

  // ---------------------------------------------------------------------
  // Waiting time

  /** JavaScript's `a % b` for a positive divisor: the remainder has the sign
      of `a` (it truncates toward zero). */
  function JsRem(a: int, b: int): (r: int)
    requires b > 0
    ensures a >= 0 ==> 0 <= r < b
    ensures a < 0 ==> -b < r <= 0
  {
    if a >= 0 then a % b else -((-a) % b)
  }

  /** `Math.floor(s / 3600)` and `Math.floor((s % 3600) / 60)`. Dafny's
      division by a positive constant already rounds down. */
  function HoursMinutes(s: int): (hm: (int, int))
    ensures s >= 0 ==> 0 <= hm.1 < 60 && 0 <= hm.0
    ensures s >= 0 ==> HOUR_S * hm.0 + 60 * hm.1 <= s < HOUR_S * hm.0 + 60 * hm.1 + 60
  {
    (s / HOUR_S, JsRem(s, HOUR_S) / 60)
  }

  const ALL_DONE: string := "✅ Todas corregidas."

  function WaitingText(h: int, m: int): string {
    "⏰ La más antigua lleva esperando: `" + IntToString(h) + "h:" + IntToString(m) + "m`"
  }

  /** The waiting text and the seconds used for the alerts. `oldest` is the
      age in seconds of the oldest pending row, `None` when the query gave
      no row. */
  function Waiting(pendientes: int, oldest: Option<int>): (r: (string, int))
    ensures pendientes <= 0 ==> r == (ALL_DONE, 0)
    ensures pendientes > 0 && oldest.None? ==> r == (WaitingText(0, 0), 0)
    ensures pendientes > 0 && oldest.Some? ==>
              r.1 == oldest.value && r.0 == WaitingText(HoursMinutes(r.1).0, HoursMinutes(r.1).1)
  {
    if pendientes > 0 then
      var segundos := match oldest case Some(s) => s case None => 0;
      var hm := HoursMinutes(segundos);
      (WaitingText(hm.0, hm.1), segundos)
    else (ALL_DONE, 0)
  }

  // ---------------------------------------------------------------------
  // Alerts

  /** Staff are pinged from 08:00 to 00:59. */
  predicate HourAllowed(hour: int) {
    hour >= 8 || hour < 1
  }

  function RolePing(role: string): string {
    "<@&" + role + ">"
  }

  function AvisoLine(role: string): string {
    "\n\U{1F7E1} **Aviso** " + RolePing(role)
    + " — Hay **Whitelist pendientes** desde hace más de **4 horas**. ¡Revisadlas cuanto antes!"
  }

  function UrgenteLine(role: string): string {
    "\n\U{1F534} **Urgente** " + RolePing(role)
    + " — Hay **Whitelist pendientes** desde hace más de **8 horas**. ⚡ ¡Prioridad máxima!"
  }

  function CriticoLine(role: string): string {
    "\n\U{1F6A8} **CRÍTICO** " + RolePing(role)
    + " — ¡Existen **Whitelist pendientes** desde hace más de **24 horas**!"
  }

  /** The three independent `if`s of the alert block, in source order. */
  function AlertLines(s: int, role: string): string {
    (if s > 4 * HOUR_S && s <= 8 * HOUR_S then AvisoLine(role) else "")
    + (if s > 8 * HOUR_S && s <= 24 * HOUR_S then UrgenteLine(role) else "")
    + (if s > 24 * HOUR_S then CriticoLine(role) else "")
  }

  datatype Tier = Calm | Aviso | Urgente | Critico

  /** The tier of a waiting time, read from the top: more than a day is
      critical, more than eight hours urgent, more than four a warning. */
  function TierOf(s: int): Tier {
    if s > 24 * HOUR_S then Critico
    else if s > 8 * HOUR_S then Urgente
    else if s > 4 * HOUR_S then Aviso
    else Calm
  }

  function TierLine(t: Tier, role: string): string {
    match t
    case Calm => ""
    case Aviso => AvisoLine(role)
    case Urgente => UrgenteLine(role)
    case Critico => CriticoLine(role)
  }

  /** The three conditions are disjoint: the alert block appends exactly
      the line of the waiting time's tier, and nothing up to four hours. */
  lemma AtMostOneAlert(s: int, role: string)
    ensures AlertLines(s, role) == TierLine(TierOf(s), role)
    ensures s <= 4 * HOUR_S ==> AlertLines(s, role) == ""
  {
  }

  function Header(pendientes: int): string {
    "# \U{1F4CB} **Whitelist pendientes:** `" + IntToString(pendientes) + "`\n"
  }

  function Footer(stamp: string): string {
    "\n\n-# (Última actualización: " + stamp + ")"
  }

  /** The ping block is added only with pending requests, a role to ping
      and an allowed hour. */
  predicate AlertsOn(pendientes: int, role: string, hour: int) {
    pendientes > 0 && role != "" && HourAllowed(hour)
  }

  /** The board's text. `role` is `WL_ROLE_ID` (empty when unset), `hour`
      the local hour and `stamp` the formatted local time. */
  function Content(pendientes: int, oldest: Option<int>, role: string, hour: int, stamp: string): (c: string)
    ensures !AlertsOn(pendientes, role, hour) ==> c == Header(pendientes) + Waiting(pendientes, oldest).0 + "\n\n"
    ensures AlertsOn(pendientes, role, hour) ==>
              c == Header(pendientes) + Waiting(pendientes, oldest).0 + "\n\n"
                   + TierLine(TierOf(Waiting(pendientes, oldest).1), role) + Footer(stamp)
  {
    var (texto, segundos) := Waiting(pendientes, oldest);
    var content := Header(pendientes) + texto + "\n\n";
    AtMostOneAlert(segundos, role);
    if AlertsOn(pendientes, role, hour) then
      content + AlertLines(segundos, role) + Footer(stamp)
    else content
  }

  /** With nothing pending the board says so and pings nobody. */
  lemma NothingPending(role: string, hour: int, stamp: string, oldest: Option<int>)
    ensures Content(0, oldest, role, hour, stamp) == Header(0) + ALL_DONE + "\n\n"
  {
  }

  // ---------------------------------------------------------------------
  // The board message

  datatype Post = Skip | Edit(id: string, text: string) | Send(text: string)

  /** The module state of `updatePendingMessage`: whether `init` gave it a
      client, and the id of the board message it remembers. */
  class Board {
    var hasClient: bool
    var messageId: Option<string>

    constructor ()
      ensures !hasClient && messageId.None?
    {
      hasClient := false;
      messageId := None;
    }

    /** `init(client)`. */
    method Init()
      modifies this
      ensures hasClient && messageId == old(messageId)
    {
      hasClient := true;
    }

    /** `updatePendingMessage`. `channelFound` says whether the channel could
        be fetched, `fetched` whether the remembered message still exists,
        `sentId` the id Discord gives a newly sent message. A remembered
        message that can be fetched is edited; otherwise a new message is
        sent and its id remembered. */
    method Update(pendientes: int, oldest: Option<int>, role: string, hour: int, stamp: string,
                  channelFound: bool, fetched: bool, sentId: string)
      returns (post: Post)
      modifies this
      ensures hasClient == old(hasClient)
      ensures !old(hasClient) || !channelFound ==> post == Skip && messageId == old(messageId)
      ensures old(hasClient) && channelFound && old(messageId).Some? && fetched ==>
                post == Edit(old(messageId).value, Content(pendientes, oldest, role, hour, stamp))
                && messageId == old(messageId)
      ensures old(hasClient) && channelFound && (old(messageId).None? || !fetched) ==>
                post == Send(Content(pendientes, oldest, role, hour, stamp)) && messageId == Some(sentId)
    {
      if !hasClient || !channelFound {
        return Skip;
      }
      var content := Content(pendientes, oldest, role, hour, stamp);
      if messageId.Some? && fetched {
        return Edit(messageId.value, content);
      }
      messageId := Some(sentId);
      post := Send(content);
    }
  }

  // ---------------------------------------------------------------------
  // Ranking

  /** A row of the weekly ranking query: the staff id and its count as the
      database driver returns a `COUNT(*)`, as text. */
  datatype RankRow = RankRow(staffId: string, total: string)

  const NOBODY: string := "Nadie ha corregido WL todavía."

  function RankLine(pos: nat, r: RankRow): string {
    "#" + NatToString(pos) + " <@" + r.staffId + "> — " + r.total + " WL corregidas"
  }

  function RankLines(rows: seq<RankRow>): (ls: seq<string>)
    ensures |ls| == |rows|
    ensures forall i :: 0 <= i < |rows| ==> ls[i] == RankLine(i + 1, rows[i])
  {
    seq(|rows|, i requires 0 <= i < |rows| => RankLine(i + 1, rows[i]))
  }

  /** `formatRanking`. */
  function FormatRanking(rows: seq<RankRow>): string {
    if |rows| == 0 then NOBODY else Join(RankLines(rows), '\n')
  }

  predicate NoNewline(r: RankRow) {
    '\n' !in r.staffId && '\n' !in r.total
  }

  lemma {:induction false} DigitsHaveNoNewline(s: string)
    requires AllDigits(s)
    ensures '\n' !in s
  {
    forall k | 0 <= k < |s| ensures s[k] != '\n' {
      assert IsDigit(s[k]);
    }
  }

  /** A ranking line is one line, and starts with its position. */
  lemma RankLineShape(pos: nat, r: RankRow)
    requires NoNewline(r)
    ensures '\n' !in RankLine(pos, r)
    ensures StartsWith(RankLine(pos, r), "#" + NatToString(pos) + " ")
  {
    var p := "#" + NatToString(pos) + " ";
    var rest := "<@" + r.staffId + "> — " + r.total + " WL corregidas";
    DigitsHaveNoNewline(NatToString(pos));
    assert RankLine(pos, r) == p + rest;
    assert (p + rest)[..|p|] == p;
  }

  /** The ranking has one line per row, in order, numbered from #1: reading
      the text back line by line gives exactly the rows' lines. */
  lemma RankingLines(rows: seq<RankRow>)
    requires |rows| > 0
    requires forall i :: 0 <= i < |rows| ==> NoNewline(rows[i])
    ensures Split(FormatRanking(rows), '\n') == RankLines(rows)
    ensures forall i :: 0 <= i < |rows| ==> StartsWith(Split(FormatRanking(rows), '\n')[i], "#" + NatToString(i + 1) + " ")
  {
    var ls := RankLines(rows);
    forall i | 0 <= i < |ls| ensures '\n' !in ls[i] && StartsWith(ls[i], "#" + NatToString(i + 1) + " ") {
      assert NoNewline(rows[i]);
      RankLineShape(i + 1, rows[i]);
    }
    SplitJoin(ls, '\n');
  }

  // ---------------------------------------------------------------------
  // Weekly schedule

  /** Local time is measured in milliseconds from a Sunday 00:00; a Sunday
      11:00:00.000 is then a time that is 11 hours into its week. */
  predicate IsRankTime(t: int) {
    t % WEEK_MS == RANK_AT_MS
  }

  /** `scheduleWeeklyRanking`: `next` starts as a copy of `now`, moves
      forward to the coming Sunday (`setDate`), is set to 11:00:00.000
      (`setHours`) and, if that is not after `now`, moves a week on. The
      delay lands on a Sunday 11:00 strictly after `now`, at most a week
      ahead, and no Sunday 11:00 lies in between. */
  method ScheduleWeeklyRanking(now: nat) returns (delay: int)
    ensures 0 < delay <= WEEK_MS
    ensures IsRankTime(now + delay)
    ensures forall t :: now < t < now + delay ==> !IsRankTime(t)
  {
    var day := now / DAY_MS;
    var dow := day % 7;
    var ms := now % DAY_MS;
    var next := now;
    next := next + ((7 - dow) % 7) * DAY_MS;
    var nextDay := day + (7 - dow) % 7;
    assert next == nextDay * DAY_MS + ms;
    next := nextDay * DAY_MS + RANK_AT_MS;
    if next <= now {
      next := next + WEEK_MS;
      nextDay := nextDay + 7;
    }
    delay := next - now;
    RankTimeBound(now, nextDay, next);
  }

  /** The arithmetic behind `ScheduleWeeklyRanking`. */
  lemma RankTimeBound(now: nat, nextDay: int, next: int)
    requires nextDay % 7 == 0
    requires now / DAY_MS <= nextDay < now / DAY_MS + 14
    requires next == nextDay * DAY_MS + RANK_AT_MS && next > now
    requires nextDay >= now / DAY_MS + 7 ==> next - WEEK_MS <= now
    ensures next - now <= WEEK_MS
    ensures IsRankTime(next)
    ensures forall t :: now < t < next ==> !IsRankTime(t)
  {
    var w := nextDay / 7;
    assert next == w * WEEK_MS + RANK_AT_MS;
    assert next % WEEK_MS == RANK_AT_MS;
    var d := now / DAY_MS;
    assert d * DAY_MS <= now < d * DAY_MS + DAY_MS;
    if nextDay < d + 7 {
      assert next - WEEK_MS == (nextDay - 7) * DAY_MS + RANK_AT_MS;
      assert next - WEEK_MS < d * DAY_MS;
    }
    assert next - WEEK_MS <= now;
    forall t | now < t < next ensures !IsRankTime(t) {
      var q := t / WEEK_MS;
      assert t == q * WEEK_MS + t % WEEK_MS;
      if q < w {
        assert t < (w - 1) * WEEK_MS + WEEK_MS;
      }
    }
  }
}
