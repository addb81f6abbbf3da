/** The whitelist application table of the backend (`/wl` routes): the staff
    gate, the informative score, submission with its required fields and
    cooldown gate, the pending queue, and the review transition with its
    attempt counter and cooldown. The database is an in-memory table of rows
    keyed by their serial id plus the append-only audit log. */
module WlRoutes {
  import opened Common

  /** Seven days in milliseconds: the `INTERVAL '7 days'` of a rejection that
      reaches the attempt ceiling. */
  const COOLDOWN_MS: int := 7 * 24 * 60 * 60 * 1000

  /** Rejections after which a cooldown is imposed. */
  const MAX_INTENTOS: int := 3

  /** At most this many rows are listed by `/pending`. */
  const PENDING_LIMIT: nat := 100

  /** The `reqd` list of `/submit`, in the order it is checked. */
  const REQUIRED: seq<string> := [
    "discord_id", "discord_username",
    "nombre_y_id_discord", "edad_ooc", "steam_link",
    "que_es_rp", "uso_me_do", "fair_play", "pg_y_mg",
    "reaccion_robo_policia", "que_harias_vdm", "que_harias_desconecta_secuestro",
    "minimo_policias_flecca",
    "como_robarias_base_militar", "caso_pinchan_ruedas",
    "rol_pensado", "tiempo_roleando", "historia_personaje"
  ]

  const FLECCA: string := "minimo_policias_flecca"

  datatype Estado = Pendiente | Aprobada | Rechazada

  /** The error responses of the routes, with their HTTP status and code. */
  datatype ApiError =
    | LoginStaffRequerido
    | StaffNoAutorizado
    | Falta(field: string)
    | CooldownActivo(until: int, intentos: int)
    | IdInvalido
    | NotFound
    | YaRevisada
  {
    function Status(): int {
      match this
      case LoginStaffRequerido => 401
      case StaffNoAutorizado => 403
      case Falta(_) => 400
      case CooldownActivo(_, _) => 429
      case IdInvalido => 400
      case NotFound => 404
      case YaRevisada => 409
    }

    function Code(): string {
      match this
      case LoginStaffRequerido => "LOGIN_STAFF_REQUERIDO"
      case StaffNoAutorizado => "STAFF_NO_AUTORIZADO"
      case Falta(k) => "FALTA_" + k
      case CooldownActivo(_, _) => "COOLDOWN_ACTIVO"
      case IdInvalido => "ID_INVALIDO"
      case NotFound => "NOT_FOUND"
      case YaRevisada => "YA_REVISADA"
    }
  }

  datatype Result<T> = Ok(value: T) | Err(error: ApiError)

  // ---------------------------------------------------------------------
  // Staff gate

  /** `requireStaff`: the caller is the session's `discord_id` when truthy,
      else the `x-staff-id` header. A non-empty allow-list must contain the
      caller; an empty one admits everybody. On success the staff id is the
      caller's `String` form. */
  function RequireStaff(sessionId: Option<Json>, header: Option<string>, allowed: seq<string>)
    : (r: Result<string>)
    ensures var sid := StaffCaller(sessionId, header);
            && (r == Err(LoginStaffRequerido) <==> sid.None?)
            && (r == Err(StaffNoAutorizado) <==> sid.Some? && allowed != [] && ToStr(sid.value) !in allowed)
            && (r.Ok? <==> sid.Some? && (allowed == [] || ToStr(sid.value) in allowed))
            && (r.Ok? ==> r.value == ToStr(sid.value))
  {
    match StaffCaller(sessionId, header)
    case None => Err(LoginStaffRequerido)
    case Some(sid) =>
      if |allowed| > 0 && ToStr(sid) !in allowed then Err(StaffNoAutorizado)
      else Ok(ToStr(sid))
  }

  /** `req.user?.discord_id || req.headers['x-staff-id']`, kept only when truthy. */
  function StaffCaller(sessionId: Option<Json>, header: Option<string>): (sid: Option<Json>)
    ensures sid.Some? ==> Truthy(sid.value)
  {
    if sessionId.Some? && Truthy(sessionId.value) then sessionId
    else if header.Some? && header.value != "" then Some(JStr(header.value))
    else None
  }

  // ---------------------------------------------------------------------
  // Score

  /** `weights[k] ?? 1`. */
  function Weight(weights: map<string, int>, k: string): int {
    if k in weights then weights[k] else 1
  }

  /** Sum of the weights of every key. */
  function TotalOf(entries: seq<(string, Json)>, weights: map<string, int>): int
    decreases |entries|
  {
    if entries == [] then 0
    else TotalOf(entries[..|entries| - 1], weights) + Weight(weights, entries[|entries| - 1].0)
  }

  /** Sum of the weights of the keys whose decision is truthy. */
  function ScoreOf(entries: seq<(string, Json)>, weights: map<string, int>): int
    decreases |entries|
  {
    if entries == [] then 0
    else
      var last := entries[|entries| - 1];
      ScoreOf(entries[..|entries| - 1], weights) + (if Truthy(last.1) then Weight(weights, last.0) else 0)
  }

  /** Number of decisions that are truthy. */
  function TruthyCount(entries: seq<(string, Json)>): (n: nat)
    ensures n <= |entries|
    decreases |entries|
  {
    if entries == [] then 0
    else TruthyCount(entries[..|entries| - 1]) + (if Truthy(entries[|entries| - 1].1) then 1 else 0)
  }

  /** `computeScore`: one pass over the decision entries. */
  method ComputeScore(entries: seq<(string, Json)>, weights: map<string, int>) returns (score: int, total: int)
    ensures total == TotalOf(entries, weights)
    ensures score == ScoreOf(entries, weights)
  {
    total, score := 0, 0;
    for i := 0 to |entries|
      invariant total == TotalOf(entries[..i], weights)
      invariant score == ScoreOf(entries[..i], weights)
    {
      assert entries[..i + 1][..i] == entries[..i];
      var (k, ok) := entries[i];
      var w := Weight(weights, k);
      total := total + w;
      if Truthy(ok) {
        score := score + w;
      }
    }
    assert entries[..|entries|] == entries;
  }

  /** With the default weight of one point per question, the total is the
      number of decisions and the score the number of truthy ones. */
  lemma {:induction false} DefaultWeights(entries: seq<(string, Json)>)
    ensures TotalOf(entries, map[]) == |entries|
    ensures ScoreOf(entries, map[]) == TruthyCount(entries)
    ensures 0 <= ScoreOf(entries, map[]) <= TotalOf(entries, map[])
    decreases |entries|
  {
    if entries != [] {
      DefaultWeights(entries[..|entries| - 1]);
    }
  }

  /** `score/total`, or 0 when the total is 0. */
  function Pct(score: int, total: int): (p: real)
    ensures total == 0 ==> p == 0.0
    ensures 0 <= score <= total ==> 0.0 <= p <= 1.0
  {
    if total == 0 then 0.0 else score as real / total as real
  }

  /** The hard approval rule: every decision is exactly `true`. */
  predicate AllTrue(entries: seq<(string, Json)>) {
    forall i :: 0 <= i < |entries| ==> entries[i].1 == JBool(true)
  }

  /** An empty decision map approves; a single value other than `true`
      (including truthy ones such as `1`) rejects. */
  lemma ApprovalRule(entries: seq<(string, Json)>, i: nat)
    requires i < |entries| && entries[i].1 != JBool(true)
    ensures AllTrue([])
    ensures !AllTrue(entries)
  {
  }

  /** Approval implies full score, but full score does not imply approval:
      the score counts truthy values and the approval wants `true`. */
  lemma {:induction false} ApprovedHasFullScore(entries: seq<(string, Json)>)
    requires AllTrue(entries)
    ensures ScoreOf(entries, map[]) == TotalOf(entries, map[])
    decreases |entries|
  {
    if entries != [] {
      ApprovedHasFullScore(entries[..|entries| - 1]);
    }
  }

  lemma FullScoreWithoutApproval()
    ensures ScoreOf([("que_es_rp", JNum(1))], map[]) == TotalOf([("que_es_rp", JNum(1))], map[])
    ensures !AllTrue([("que_es_rp", JNum(1))])
  {
    assert [("que_es_rp", JNum(1))][..0] == [];
  }

  // ---------------------------------------------------------------------
  // Rows and audit log

  datatype ReviewNotes = ReviewNotes(
    decisiones: seq<(string, Json)>,
    notas: Json,
    score: int,
    total: int,
    pct: real,
    aprobado: bool,
    fecha: int)

  datatype Row = Row(
    id: nat,
    discordId: string,
    answers: map<string, Json>,
    avatar: Json,
    inGuild: Json,
    minFlecca: real,
    puntuacion: Json,
    estado: Estado,
    intentos: int,
    cooldownUntil: Option<int>,
    reviewedBy: Option<string>,
    notasInternas: Option<ReviewNotes>,
    createdAt: int,
    updatedAt: Option<int>)

  datatype Accion = Enviar | Aceptar | Rechazar

  datatype LogMeta =
    | SubmitMeta(ip: string)
    | ReviewMeta(score: int, total: int, pct: real, nextIntentos: int)

  datatype LogEntry = LogEntry(
    solicitudId: nat,
    staffId: string,
    accion: Accion,
    motivo: Option<string>,
    meta: LogMeta)

  // ---------------------------------------------------------------------
  // Submission: required fields

  /** A required field is missing when absent, falsy, or blank once
      converted to a string and trimmed (`BlankTextIsBlank`). */
  predicate IsMissing(p: map<string, Json>, k: string) {
    k !in p || !Truthy(p[k]) || BlankText(p[k])
  }

  /** The index of the first key of `keys`, from `i` on, that is missing. */
  function FirstMissingFrom(p: map<string, Json>, keys: seq<string>, i: nat): (r: Option<nat>)
    requires i <= |keys|
    ensures r.Some? ==> i <= r.value < |keys| && IsMissing(p, keys[r.value])
                        && forall j :: i <= j < r.value ==> !IsMissing(p, keys[j])
    ensures r.None? ==> forall j :: i <= j < |keys| ==> !IsMissing(p, keys[j])
    decreases |keys| - i
  {
    if i == |keys| then None
    else if IsMissing(p, keys[i]) then Some(i)
    else FirstMissingFrom(p, keys, i + 1)
  }

  /** The field `/submit` reports as missing, if any. */
  function FirstMissing(p: map<string, Json>): (r: Option<string>)
    ensures r.None? <==> forall j :: 0 <= j < |REQUIRED| ==> !IsMissing(p, REQUIRED[j])
    ensures r.Some? ==> exists i :: 0 <= i < |REQUIRED| && REQUIRED[i] == r.value && IsMissing(p, REQUIRED[i])
                                    && forall j :: 0 <= j < i ==> !IsMissing(p, REQUIRED[j])
  {
    match FirstMissingFrom(p, REQUIRED, 0)
    case None => None
    case Some(i) => Some(REQUIRED[i])
  }

  /** A body that passes the check has every required field, truthy and
      not blank. */
  lemma CompleteBody(p: map<string, Json>, k: string)
    requires FirstMissing(p).None? && k in REQUIRED
    ensures k in p && Truthy(p[k]) && !IsBlank(ToStr(p[k]))
  {
    var j :| 0 <= j < |REQUIRED| && REQUIRED[j] == k;
    assert !IsMissing(p, REQUIRED[j]);
    BlankTextIsBlank(p[k]);
  }

  /** The `for (const k of reqd)` loop of `/submit`. */
  method CheckRequired(p: map<string, Json>) returns (missing: Option<string>)
    ensures missing == FirstMissing(p)
  {
    for i := 0 to |REQUIRED|
      invariant FirstMissingFrom(p, REQUIRED, 0) == FirstMissingFrom(p, REQUIRED, i)
    {
      var k := REQUIRED[i];
      if IsMissing(p, k) {
        return Some(k);
      }
    }
    return None;
  }

  /** `String(p.discord_id)`. */
  function Did(p: map<string, Json>): string {
    if "discord_id" in p then ToStr(p["discord_id"]) else ""
  }

  // ---------------------------------------------------------------------
  // Submission: numbers

  /** `10^e` for an exponent of either sign, as an exact rational. */
  function Pow10(e: int): (p: real)
    ensures p > 0.0
    ensures e >= 0 ==> p == Pow10Nat(e) as real
    decreases if e < 0 then -e else e
  {
    if e == 0 then 1.0
    else if e > 0 then 10.0 * Pow10(e - 1)
    else Pow10(e + 1) / 10.0
  }

  function Pow10Nat(e: nat): (p: nat)
    ensures p >= 1
  {
    if e == 0 then 1 else 10 * Pow10Nat(e - 1)
  }

  /** The smallest magnitude a double rounds up to `Infinity`:
      2^1024 - 2^970, halfway between the largest finite double and 2^1024. */
  const OVERFLOW: real := 179769313486231580793728971405303415079934132710037826936173778980444968292764750946649017977587207096330286416692887910946555547851940402630657488671505820681908902000708383676273854845817711531764475730270069855571366959622842914819860834936475292719074168444365510704342711559699508093042880177904174497792.0

  /** Where the first character of `cs` occurs in `t`, or `|t|`. */
  function IndexOfAny(t: string, cs: string): (i: nat)
    ensures i <= |t|
    ensures forall k :: 0 <= k < i ==> t[k] !in cs
    ensures i < |t| ==> t[i] in cs
  {
    if t == [] then 0
    else if t[0] in cs then 0
    else 1 + IndexOfAny(t[1..], cs)
  }

  /** The signed integer after `e`/`E`: an optional sign and at least one
      digit. */
  function ExponentValue(t: string): (r: Option<int>)
    ensures t != "" && AllDigits(t) ==> r == Some(DigitsValue(t))
    ensures r.Some? ==> t != ""
  {
    if t != "" && (t[0] == '+' || t[0] == '-') then
      var u := t[1..];
      if u != "" && AllDigits(u) then
        var x: int := DigitsValue(u);
        Some(if t[0] == '-' then -x else x)
      else None
    else if t != "" && AllDigits(t) then Some(DigitsValue(t))
    else None
  }

  /** The value of a decimal literal from its parts: the digits before the
      point, the digits after it (one side may be empty, not both) and the
      exponent. */
  function DecimalValue(whole: string, frac: string, expo: Option<int>): (r: Option<real>)
    ensures r.Some? ==> r.value >= 0.0
  {
    if expo.None? || !AllDigits(whole) || !AllDigits(frac) || whole + frac == "" then None
    else
      assert AllDigits(whole + frac) by {
        assert forall k :: 0 <= k < |whole + frac| ==>
          (whole + frac)[k] == if k < |whole| then whole[k] else frac[k - |whole|];
      }
      Some(DigitsValue(whole + frac) as real * Pow10(expo.value - |frac|))
  }

  /** An unsigned decimal literal: digits, a point and digits, then an
      optional exponent, read by `DecimalValue`. `Infinity` is not read
      here: it is not finite. */
  function UnsignedDecimal(t: string): (r: Option<real>)
    ensures r.Some? ==> r.value >= 0.0
  {
    var i := IndexOfAny(t, "eE");
    var mant := t[..i];
    var dot := IndexOfAny(mant, ".");
    DecimalValue(mant[..dot], if dot < |mant| then mant[dot + 1..] else "",
                 if i < |t| then ExponentValue(t[i + 1..]) else Some(0))
  }

  /** The value of one digit in base 2, 8 or 16, if `c` is one. */
  function RadixDigit(c: char, radix: nat): (r: Option<nat>)
    ensures r.Some? ==> r.value < radix
  {
    var d: int :=
      if '0' <= c <= '9' then c as int - '0' as int
      else if 'a' <= c <= 'f' then c as int - 'a' as int + 10
      else if 'A' <= c <= 'F' then c as int - 'A' as int + 10
      else radix;
    if 0 <= d < radix then Some(d) else None
  }

  /** The value of a non-empty string of base-`radix` digits. */
  function RadixValue(t: string, radix: nat): (r: Option<nat>)
    ensures r.Some? ==> t != ""
    decreases |t|
  {
    if t == "" then None
    else
      var last := RadixDigit(t[|t| - 1], radix);
      if last.None? then None
      else if |t| == 1 then last
      else
        match RadixValue(t[..|t| - 1], radix)
        case None => None
        case Some(v) => Some(v * radix + last.value)
  }

  /** The base a `0x`, `0o` or `0b` prefix selects (either case), or 0. */
  function RadixOf(c: char): nat {
    if c == 'x' || c == 'X' then 16
    else if c == 'o' || c == 'O' then 8
    else if c == 'b' || c == 'B' then 2
    else 0
  }

  /** `Number` on text already trimmed, before the finiteness test: blank
      text is 0; `0x`/`0o`/`0b` integers are unsigned; a decimal literal may
      carry a sign, a point and an exponent; `Infinity` and anything else
      is `NaN` or infinite, `None` here. */
  function NumberText(t: string): (r: Option<real>)
    ensures t == "" ==> r == Some(0.0)
  {
    if t == "" then Some(0.0)
    else if |t| >= 2 && t[0] == '0' && RadixOf(t[1]) != 0 then
      match RadixValue(t[2..], RadixOf(t[1]))
      case None => None
      case Some(n) => Some(n as real)
    else if t[0] == '+' || t[0] == '-' then
      match UnsignedDecimal(t[1..])
      case None => None
      case Some(x) => Some(if t[0] == '-' then -x else x)
    else UnsignedDecimal(t)
  }

  /** A value kept only when it is below the overflow bound in magnitude. */
  function Finite(v: Option<real>): (r: Option<real>)
    ensures r.Some? <==> v.Some? && -OVERFLOW < v.value < OVERFLOW
    ensures r.Some? ==> r == v
  {
    if v.Some? && -OVERFLOW < v.value < OVERFLOW then v else None
  }

  /** `Number(s)` on a string, kept only when finite: surrounding white
      space is ignored, then the text is read as `NumberText` says. */
  function StringToNumber(s: string): (r: Option<real>)
    ensures Trim(s) == "" ==> r == Some(0.0)
    ensures r.Some? ==> -OVERFLOW < r.value < OVERFLOW
  {
    Finite(NumberText(Trim(s)))
  }

  /** A plain digit string is its decimal value. */
  lemma DigitsNumber(t: string)
    requires t != "" && AllDigits(t)
    ensures NumberText(t) == Some(DigitsValue(t) as real)
  {
    DigitsHaveNo(t, "eE");
    DigitsHaveNo(t, ".");
    assert t[..|t|] == t;
    assert t + "" == t;
    if |t| >= 2 {
      assert IsDigit(t[1]) && RadixOf(t[1]) == 0;
    }
  }

  /** `Number` reads back the text `String` gives an integer. */
  lemma IntTextRoundTrip(n: int)
    requires -OVERFLOW < n as real < OVERFLOW
    ensures StringToNumber(IntToString(n)) == Some(n as real)
  {
    IntTextNumber(n);
    UntrimmedNumber(IntToString(n));
  }

  lemma IntTextNumber(n: int)
    ensures NumberText(IntToString(n)) == Some(n as real)
  {
    var m: nat := if n < 0 then -n else n;
    var d := NatToString(m);
    NatToStringValue(m);
    DigitsNumber(d);
    if n < 0 {
      var t := "-" + d;
      assert t[1..] == d && t[0] == '-';
      assert NumberText(t) == Some(-(m as real));
    }
  }

  lemma DigitsHaveNo(d: string, cs: string)
    requires AllDigits(d) && forall k :: 0 <= k < |cs| ==> !IsDigit(cs[k])
    ensures IndexOfAny(d, cs) == |d|
  {
  }

  /** Text that neither starts nor ends with white space is read as it is. */
  lemma UntrimmedNumber(s: string)
    requires s != [] && !IsJsSpace(s[0]) && !IsJsSpace(s[|s| - 1])
    ensures StringToNumber(s) == Finite(NumberText(s))
  {
    assert Trim(s) == s;
  }

  /** Where `IndexOfAny` stops: at the first character from `cs`. */
  lemma IndexAt(t: string, cs: string, k: nat)
    requires k <= |t| && forall j :: 0 <= j < k ==> t[j] !in cs
    requires k < |t| ==> t[k] in cs
    ensures IndexOfAny(t, cs) == k
  {
  }

  /** A literal with a point, `whole.frac`, is its digits scaled down by
      one power of ten per fraction digit. */
  lemma PointForm(whole: string, frac: string)
    requires AllDigits(whole) && AllDigits(frac) && whole + frac != ""
    ensures UnsignedDecimal(whole + "." + frac) == DecimalValue(whole, frac, Some(0))
  {
    var t := whole + "." + frac;
    forall j | 0 <= j < |t| ensures t[j] !in "eE" {
      assert t[j] == '.' || IsDigit(t[j]);
    }
    IndexAt(t, "eE", |t|);
    assert t[..|t|] == t;
    forall j | 0 <= j < |whole| ensures t[j] !in "." {
      assert t[j] == whole[j];
    }
    IndexAt(t, ".", |whole|);
    assert t[..|whole|] == whole && t[|whole| + 1..] == frac;
  }

  /** A literal with an exponent, `digits e x`, is its digits scaled up by
      `10^x`. */
  lemma ExponentForm(d: string, x: string)
    requires d != "" && AllDigits(d) && x != "" && AllDigits(x)
    ensures UnsignedDecimal(d + "e" + x) == DecimalValue(d, "", Some(DigitsValue(x)))
  {
    var t := d + "e" + x;
    forall j | 0 <= j < |d| ensures t[j] !in "eE" {
      assert t[j] == d[j];
    }
    IndexAt(t, "eE", |d|);
    assert t[..|d|] == d && t[|d| + 1..] == x;
    DigitsHaveNo(d, ".");
    assert d[..|d|] == d;
  }

  /** `Number` on `-u`: the negated value of the unsigned literal `u`. */
  lemma NegatedText(u: string)
    requires u != ""
    ensures NumberText("-" + u) == (match UnsignedDecimal(u) case None => None case Some(x) => Some(-x))
  {
    assert ("-" + u)[1..] == u;
  }

  /** Text without a sign or a radix prefix is an unsigned decimal literal
      or nothing. */
  lemma DecimalText(t: string)
    requires t != "" && t[0] != '+' && t[0] != '-' && !(|t| >= 2 && t[0] == '0' && RadixOf(t[1]) != 0)
    ensures NumberText(t) == UnsignedDecimal(t)
  {
  }

  /** Text whose first character can start no decimal literal is not one. */
  lemma NoDecimalStart(t: string)
    requires t != "" && !IsDigit(t[0]) && t[0] != '.' && t[0] != 'e' && t[0] != 'E'
    ensures UnsignedDecimal(t).None?
  {
    assert t[0] !in "eE" && t[0] !in ".";
    assert IndexOfAny(t, "eE") > 0;
    assert IndexOfAny(t[..IndexOfAny(t, "eE")], ".") > 0;
  }

  /** The parts of the example literals below and their values. */
  lemma ExampleParts()
    ensures "1" + "e" + "1" == "1e1" && "1" + "." + "0" == "1.0" && "2" + "." + "5" == "2.5"
    ensures "-" + "2.5" == "-2.5" && "-" + "0x1A" == "-0x1A" && "0x1A"[2..] == "1A"
    ensures DigitsValue("1") == 1
    ensures DecimalValue("1", "", Some(1)) == Some(10.0)
    ensures DecimalValue("1", "0", Some(0)) == Some(1.0)
    ensures DecimalValue("2", "5", Some(0)) == Some(2.5)
    ensures RadixValue("1A", 16) == Some(26)
  {
    assert DigitsValue("1" + "") == 1 by { assert "1" + "" == "1"; }
    assert DigitsValue("1" + "0") == 10 by { assert "1" + "0" == "10"; }
    assert DigitsValue("2" + "5") == 25 by { assert "2" + "5" == "25"; }
    assert Pow10(-1) == 0.1;
    assert RadixValue("1", 16) == Some(1);
  }

  /** A digit followed by a character that is not a digit, a point or an
      exponent mark starts no decimal literal. */
  lemma DigitThenOther(t: string)
    requires |t| >= 2 && IsDigit(t[0]) && !IsDigit(t[1])
    requires t[1] != '.' && t[1] != 'e' && t[1] != 'E'
    ensures UnsignedDecimal(t).None?
  {
    assert t[0] !in "eE" && t[1] !in "eE" && t[0] !in "." && t[1] !in ".";
    var i := IndexOfAny(t, "eE");
    var mant := t[..i];
    assert mant[1] == t[1];
    var dot := IndexOfAny(mant, ".");
    assert mant[..dot][1] == t[1];
  }

  lemma ExponentText()
    ensures StringToNumber("1e1") == Some(10.0)
  {
    ExampleParts();
    ExponentForm("1", "1");
    DecimalText("1e1");
    UntrimmedNumber("1e1");
  }

  lemma HexText()
    ensures StringToNumber("0x1A") == Some(26.0)
  {
    ExampleParts();
    UntrimmedNumber("0x1A");
  }

  lemma FractionText()
    ensures StringToNumber("1.0") == Some(1.0)
  {
    ExampleParts();
    PointForm("1", "0");
    DecimalText("1.0");
    UntrimmedNumber("1.0");
  }

  lemma NegativeFractionText()
    ensures StringToNumber("-2.5") == Some(-2.5)
  {
    ExampleParts();
    PointForm("2", "5");
    NegatedText("2.5");
    UntrimmedNumber("-2.5");
  }

  lemma SignedHexText()
    ensures StringToNumber("-0x1A").None?
  {
    ExampleParts();
    DigitThenOther("0x1A");
    NegatedText("0x1A");
    UntrimmedNumber("-0x1A");
  }

  lemma InfinityText()
    ensures StringToNumber("Infinity").None?
  {
    InfinityIsNotDecimal();
    UntrimmedNumber("Infinity");
  }

  lemma InfinityIsNotDecimal()
    ensures NumberText("Infinity").None?
  {
    NoDecimalStart("Infinity");
    DecimalText("Infinity");
  }

  /** `Number` reads an exponent and hexadecimal: "1e1" is 10 and "0x1A"
      is 26. */
  lemma ExponentAndHexForms()
    ensures StringToNumber("1e1") == Some(10.0)
    ensures StringToNumber("0x1A") == Some(26.0)
  {
    ExponentText();
    HexText();
  }

  /** `Number` reads fractions: "1.0" is 1 and "-2.5" is -2.5. */
  lemma FractionForms()
    ensures StringToNumber("1.0") == Some(1.0)
    ensures StringToNumber("-2.5") == Some(-2.5)
  {
    FractionText();
    NegativeFractionText();
  }

  /** A signed hexadecimal is `NaN` and "Infinity" is not finite. */
  lemma NotFiniteForms()
    ensures StringToNumber("-0x1A").None?
    ensures StringToNumber("Infinity").None?
  {
    SignedHexText();
    InfinityText();
  }

  /** Unary `+v`, kept only when the result is finite. */
  function ToNumber(v: Json): (r: Option<real>)
    ensures r.Some? ==> -OVERFLOW < r.value < OVERFLOW
  {
    match v
    case JNull => Some(0.0)
    case JBool(b) => Some(if b then 1.0 else 0.0)
    case JNum(n) => Finite(Some(n as real))
    case JStr(s) => StringToNumber(s)
    case JArr(_) => StringToNumber(ToStr(v))
    case JObj(_) => None
  }

  /** `Number.isFinite(+v) ? +v : 0`. */
  function FleccaOf(v: Json): (n: real)
    ensures ToNumber(v).Some? ==> n == ToNumber(v).value
    ensures ToNumber(v).None? ==> n == 0.0
    ensures -OVERFLOW < n < OVERFLOW
  {
    match ToNumber(v)
    case Some(n) => n
    case None => 0.0
  }

  /** The answer parameters of the insert: every required key except the
      numeric `minimo_policias_flecca`, each the posted value as it is. */
  function TextAnswers(p: map<string, Json>): (m: map<string, Json>)
    ensures forall k :: k in m <==> k in REQUIRED && k != FLECCA && k in p
    ensures forall k :: k in m ==> m[k] == p[k]
  {
    map k | k in REQUIRED && k != FLECCA && k in p :: p[k]
  }

  /** `p.k || dflt`. */
  function FieldOr(p: map<string, Json>, k: string, dflt: Json): (v: Json)
    ensures v == dflt || (k in p && v == p[k] && Truthy(v))
  {
    if k in p && Truthy(p[k]) then p[k] else dflt
  }

  /** The row `/submit` inserts. */
  function NewRow(id: nat, p: map<string, Json>, intentos: int, now: int): (r: Row)
    ensures r.id == id && r.discordId == Did(p) && r.answers == TextAnswers(p)
    ensures r.estado == Pendiente && r.intentos == intentos && r.createdAt == now
    ensures r.cooldownUntil.None? && r.reviewedBy.None? && r.notasInternas.None?
    ensures FLECCA in p ==> r.minFlecca == FleccaOf(p[FLECCA])
    ensures r.avatar == FieldOr(p, "discord_avatar", JNull)
    ensures r.inGuild == FieldOr(p, "is_in_guild", JBool(false))
    ensures r.puntuacion == FieldOr(p, "puntuacion_total", JNum(0))
  {
    Row(
      id := id,
      discordId := Did(p),
      answers := TextAnswers(p),
      avatar := FieldOr(p, "discord_avatar", JNull),
      inGuild := FieldOr(p, "is_in_guild", JBool(false)),
      minFlecca := if FLECCA in p then FleccaOf(p[FLECCA]) else 0.0,
      puntuacion := FieldOr(p, "puntuacion_total", JNum(0)),
      estado := Pendiente,
      intentos := intentos,
      cooldownUntil := None,
      reviewedBy := None,
      notasInternas := None,
      createdAt := now,
      updatedAt := None)
  }

  // ---------------------------------------------------------------------
  // Submission: the applicant's latest row and the cooldown gate

  /** `created_at` order, ties broken by id. */
  predicate Later(a: Row, b: Row) {
    a.createdAt > b.createdAt || (a.createdAt == b.createdAt && a.id > b.id)
  }

  /** The applicant's most recent row among the ids below `n`. */
  function LatestBelow(rows: map<nat, Row>, did: string, n: nat): (r: Option<nat>)
    ensures r.Some? ==> r.value < n && r.value in rows && rows[r.value].discordId == did
    ensures r.Some? ==> forall id :: id < n && id in rows && rows[id].discordId == did && id != r.value
                                     ==> !Later(rows[id], rows[r.value])
    ensures r.None? ==> forall id :: id < n && id in rows ==> rows[id].discordId != did
    decreases n
  {
    if n == 0 then None
    else
      var rest := LatestBelow(rows, did, n - 1);
      var k := n - 1;
      if k in rows && rows[k].discordId == did && (rest.None? || !Later(rows[rest.value], rows[k])) then
        Some(k)
      else rest
  }

  /** The cooldown gate: the latest row carries a `cooldown_until` strictly
      after now. */
  function CooldownOf(rows: map<nat, Row>, did: string, n: nat, now: int): (r: Option<ApiError>)
    ensures r.Some? <==> (var l := LatestBelow(rows, did, n);
                          l.Some? && rows[l.value].cooldownUntil.Some? && rows[l.value].cooldownUntil.value > now)
    ensures r.Some? ==> r.value.CooldownActivo? && r.value.until > now
                        && r.value.intentos == rows[LatestBelow(rows, did, n).value].intentos
  {
    match LatestBelow(rows, did, n)
    case None => None
    case Some(l) =>
      var row := rows[l];
      if row.cooldownUntil.Some? && row.cooldownUntil.value > now then
        Some(CooldownActivo(row.cooldownUntil.value, row.intentos))
      else None
  }

  /** The outcome of the checks of `/submit`: the first missing required
      field, else the running cooldown of the applicant's latest row, else
      nothing. */
  function SubmitCheck(rows: map<nat, Row>, n: nat, p: map<string, Json>, now: int): (r: Option<ApiError>)
    ensures FirstMissing(p).Some? ==> r == Some(Falta(FirstMissing(p).value))
    ensures FirstMissing(p).None? ==> r == CooldownOf(rows, Did(p), n, now)
    ensures r.None? <==> FirstMissing(p).None? && CooldownOf(rows, Did(p), n, now).None?
  {
    match FirstMissing(p)
    case Some(k) => Some(Falta(k))
    case None => CooldownOf(rows, Did(p), n, now)
  }

  /** Among the applicant's rows, none was created after the latest one. */
  lemma LatestIsNewest(rows: map<nat, Row>, did: string, n: nat, j: nat)
    requires LatestBelow(rows, did, n).Some?
    requires j < n && j in rows && rows[j].discordId == did
    ensures rows[j].createdAt <= rows[LatestBelow(rows, did, n).value].createdAt
  {
  }

  /** A row inserted under a fresh id after every row of the applicant
      becomes the applicant's latest. */
  lemma LatestAfterInsert(rows: map<nat, Row>, did: string, n: nat, row: Row)
    requires forall id :: id in rows ==> id < n
    requires row.id == n && row.discordId == did
    requires forall j :: j in rows && rows[j].discordId == did ==> rows[j].createdAt < row.createdAt
    ensures LatestBelow(rows[n := row], did, n + 1) == Some(n)
  {
    var rows' := rows[n := row];
    var l := LatestBelow(rows', did, n + 1);
  }

  /** The latest-row choice looks only at the owner, creation time and id of
      each row, so two tables that agree on those agree on it. */
  lemma {:induction false} LatestSameShape(rows: map<nat, Row>, rows': map<nat, Row>, did: string, n: nat)
    requires forall id :: id in rows <==> id in rows'
    requires forall id :: id in rows ==> rows'[id].discordId == rows[id].discordId
                                         && rows'[id].createdAt == rows[id].createdAt && rows'[id].id == rows[id].id
    ensures LatestBelow(rows', did, n) == LatestBelow(rows, did, n)
    decreases n
  {
    if n > 0 {
      LatestSameShape(rows, rows', did, n - 1);
    }
  }

  /** Updating the latest row in place, keeping its id and creation time,
      keeps it the latest. */
  lemma LatestAfterUpdate(rows: map<nat, Row>, did: string, n: nat, k: nat, upd: Row)
    requires LatestBelow(rows, did, n) == Some(k)
    requires upd.id == rows[k].id && upd.discordId == did && upd.createdAt == rows[k].createdAt
    ensures LatestBelow(rows[k := upd], did, n) == Some(k)
  {
    LatestSameShape(rows, rows[k := upd], did, n);
  }

  // ---------------------------------------------------------------------
  // Pending queue

  /** A row `/pending` lists: pending, and no cooldown still running. */
  predicate Listable(r: Row, now: int) {
    r.estado == Pendiente && (r.cooldownUntil.None? || now >= r.cooldownUntil.value)
  }

  /** `created_at ASC`, ties by id: `a` sorts strictly before `b`. */
  predicate Earlier(a: Row, b: Row) {
    a.createdAt < b.createdAt || (a.createdAt == b.createdAt && a.id < b.id)
  }

  predicate SortedRows(s: seq<Row>) {
    forall i, j :: 0 <= i < j < |s| ==> !Earlier(s[j], s[i])
  }

  /** One step of the insertion sort behind `ORDER BY`. */
  function InsertRow(s: seq<Row>, x: Row): (r: seq<Row>)
    requires SortedRows(s)
    ensures SortedRows(r) && |r| == |s| + 1
    ensures forall y :: y in r <==> y == x || y in s
    decreases |s|
  {
    if s == [] then [x]
    else if Earlier(x, s[0]) then [x] + s
    else
      var t := InsertRow(s[1..], x);
      assert forall j :: 0 <= j < |t| ==> t[j] in t;
      assert forall j :: 0 <= j < |t| ==> !Earlier(t[j], s[0]);
      [s[0]] + t
  }

  /** The listable rows among the ids below `n`, oldest first. */
  function PendingBelow(rows: map<nat, Row>, now: int, n: nat): (r: seq<Row>)
    requires forall id :: id in rows ==> rows[id].id == id
    ensures SortedRows(r)
    ensures forall x :: x in r ==> x.id < n && x.id in rows && rows[x.id] == x && Listable(x, now)
    ensures forall id :: id < n && id in rows && Listable(rows[id], now) ==> rows[id] in r
    decreases n
  {
    if n == 0 then []
    else
      var rest := PendingBelow(rows, now, n - 1);
      var k := n - 1;
      if k in rows && Listable(rows[k], now) then InsertRow(rest, rows[k]) else rest
  }

  function Take(s: seq<Row>, n: nat): (r: seq<Row>)
    ensures |r| <= n && |r| <= |s| && r == s[..|r|]
    ensures |s| <= n ==> r == s
    ensures |s| > n ==> |r| == n
    ensures forall x :: x in r ==> x in s
  {
    if |s| <= n then s else s[..n]
  }

  /** The first rows of a sorted list are the oldest: any listed row not on the
      page sorts no earlier than every row on it. */
  lemma {:induction false} PageIsOldest(s: seq<Row>, n: nat, x: Row)
    requires SortedRows(s)
    requires x in s && x !in Take(s, n)
    ensures forall y :: y in Take(s, n) ==> !Earlier(x, y)
  {
    var page := Take(s, n);
    var j :| 0 <= j < |s| && s[j] == x;
    forall y | y in page ensures !Earlier(x, y) {
      var i :| 0 <= i < |page| && page[i] == y;
      assert s[i] == y;
    }
  }

  // ---------------------------------------------------------------------
  // Review

  /** The row after a review: approved iff every decision is `true`; the
      attempt count grows by one on rejection; a rejection that brings it to
      three or more starts a seven-day cooldown, anything else clears it. */
  function ReviewedRow(row: Row, decisions: seq<(string, Json)>, notas: Json, reviewer: string, now: int)
    : (r: Row)
    ensures r.id == row.id && r.discordId == row.discordId && r.answers == row.answers
    ensures r.createdAt == row.createdAt && r.minFlecca == row.minFlecca
    ensures r.estado == (if AllTrue(decisions) then Aprobada else Rechazada)
    ensures r.intentos == (if AllTrue(decisions) then row.intentos else row.intentos + 1)
    ensures r.cooldownUntil.Some? <==> r.estado == Rechazada && r.intentos >= MAX_INTENTOS
    ensures r.cooldownUntil.Some? ==> r.cooldownUntil.value == now + COOLDOWN_MS
    ensures r.reviewedBy == Some(reviewer) && r.updatedAt == Some(now)
    ensures r.puntuacion == JNum(ScoreOf(decisions, map[]))
    ensures r.notasInternas.Some? && r.notasInternas.value.aprobado == AllTrue(decisions)
    ensures r.notasInternas.value.decisiones == decisions && r.notasInternas.value.notas == notas
    ensures r.avatar == row.avatar && r.inGuild == row.inGuild
    ensures r.notasInternas.value.score == ScoreOf(decisions, map[])
            && r.notasInternas.value.total == TotalOf(decisions, map[])
            && r.notasInternas.value.pct == Pct(ScoreOf(decisions, map[]), TotalOf(decisions, map[]))
            && r.notasInternas.value.fecha == now
  {
    var aprobado := AllTrue(decisions);
    var score := ScoreOf(decisions, map[]);
    var total := TotalOf(decisions, map[]);
    var nextIntentos := if aprobado then row.intentos else row.intentos + 1;
    var reachedMax := !aprobado && nextIntentos >= MAX_INTENTOS;
    row.(
      estado := if aprobado then Aprobada else Rechazada,
      puntuacion := JNum(score),
      notasInternas := Some(ReviewNotes(decisions, notas, score, total, Pct(score, total), aprobado, now)),
      reviewedBy := Some(reviewer),
      intentos := nextIntentos,
      cooldownUntil := if reachedMax then Some(now + COOLDOWN_MS) else None,
      updatedAt := Some(now))
  }

  /** The audit entry of a review. */
  function ReviewEntry(row: Row, decisions: seq<(string, Json)>, reviewer: string): (e: LogEntry)
    ensures e.solicitudId == row.id && e.staffId == reviewer
    ensures e.accion == (if AllTrue(decisions) then Aceptar else Rechazar)
    ensures e.motivo == Some(if AllTrue(decisions) then "aprobada" else "rechazada")
    ensures e.meta == ReviewMeta(ScoreOf(decisions, map[]), TotalOf(decisions, map[]),
                                 Pct(ScoreOf(decisions, map[]), TotalOf(decisions, map[])),
                                 if AllTrue(decisions) then row.intentos else row.intentos + 1)
  {
    var aprobado := AllTrue(decisions);
    var score := ScoreOf(decisions, map[]);
    var total := TotalOf(decisions, map[]);
    LogEntry(row.id, reviewer, if aprobado then Aceptar else Rechazar,
             Some(if aprobado then "aprobada" else "rechazada"),
             ReviewMeta(score, total, Pct(score, total),
                        if aprobado then row.intentos else row.intentos + 1))
  }

  /** The review's audit entry and the stored notes agree: the entry
      carries the notes' score, total and percentage and the row's new
      attempt count; an approval records a full score (100% when at least
      one question was decided). */
  lemma ReviewRecordsAgree(row: Row, decisions: seq<(string, Json)>, notas: Json, reviewer: string, now: int)
    ensures var n := ReviewedRow(row, decisions, notas, reviewer, now).notasInternas.value;
      ReviewEntry(row, decisions, reviewer).meta
        == ReviewMeta(n.score, n.total, n.pct, ReviewedRow(row, decisions, notas, reviewer, now).intentos)
    ensures var n := ReviewedRow(row, decisions, notas, reviewer, now).notasInternas.value;
      AllTrue(decisions) ==> n.score == n.total && (n.total != 0 ==> n.pct == 1.0)
  {
    if AllTrue(decisions) {
      ApprovedHasFullScore(decisions);
      var t := TotalOf(decisions, map[]);
      if t != 0 {
        assert t as real / t as real == 1.0;
      }
    }
  }

  /** The audit entry of a submission: the applicant is its actor. */
  function SubmitEntry(id: nat, p: map<string, Json>, ip: string): (e: LogEntry)
    ensures e.solicitudId == id && e.accion == Enviar && e.motivo.None? && e.staffId == Did(p)
  {
    LogEntry(id, Did(p), Enviar, None, SubmitMeta(ip))
  }

  // ---------------------------------------------------------------------
  // Audit log bookkeeping

  predicate IsReviewAction(a: Accion) {
    a == Aceptar || a == Rechazar
  }

  /** Number of entries about application `id`, of submissions (`review` false)
      or of reviews (`review` true). */
  function CountEntries(log: seq<LogEntry>, id: nat, review: bool): nat
    decreases |log|
  {
    if log == [] then 0
    else
      var e := log[|log| - 1];
      CountEntries(log[..|log| - 1], id, review)
        + (if e.solicitudId == id && IsReviewAction(e.accion) == review then 1 else 0)
  }

  lemma CountAppend(log: seq<LogEntry>, e: LogEntry, id: nat, review: bool)
    ensures CountEntries(log + [e], id, review)
            == CountEntries(log, id, review) + (if e.solicitudId == id && IsReviewAction(e.accion) == review then 1 else 0)
  {
    assert (log + [e])[..|log|] == log;
  }

  lemma {:induction false} CountZero(log: seq<LogEntry>, id: nat, review: bool, i: nat)
    requires CountEntries(log, id, review) == 0
    requires i < |log| && log[i].solicitudId == id
    ensures IsReviewAction(log[i].accion) != review
    decreases |log|
  {
    if i < |log| - 1 {
      assert log[..|log| - 1][i] == log[i];
      CountZero(log[..|log| - 1], id, review, i);
    }
  }

  /** No audit entry is about an id that is not a row. */
  lemma {:induction false} NoEntriesForFreshId(log: seq<LogEntry>, rows: map<nat, Row>, k: nat)
    requires forall i :: 0 <= i < |log| ==> log[i].solicitudId in rows
    requires k !in rows
    ensures CountEntries(log, k, false) == 0 && CountEntries(log, k, true) == 0
    decreases |log|
  {
    if log != [] {
      NoEntriesForFreshId(log[..|log| - 1], rows, k);
    }
  }

  // ---------------------------------------------------------------------
  // Table invariant

  /** What each row must look like in its state. */
  predicate RowOk(id: nat, r: Row) {
    && r.id == id
    && (r.estado == Pendiente ==> r.reviewedBy.None? && r.notasInternas.None? && r.cooldownUntil.None?)
    && (r.estado != Pendiente ==>
          && r.reviewedBy.Some? && r.notasInternas.Some?
          && r.notasInternas.value.aprobado == (r.estado == Aprobada)
          && (r.cooldownUntil.Some? <==> r.estado == Rechazada && r.intentos >= MAX_INTENTOS))
  }

  /** An audit entry agrees with the row it is about. */
  predicate EntryOk(e: LogEntry, r: Row) {
    && (e.accion == Enviar ==> e.staffId == r.discordId)
    && (e.accion == Aceptar ==> r.estado == Aprobada && r.reviewedBy == Some(e.staffId))
    && (e.accion == Rechazar ==> r.estado == Rechazada && r.reviewedBy == Some(e.staffId))
  }

  ghost predicate IdsOk(rows: map<nat, Row>, nextId: nat) {
    nextId >= 1 && forall id :: id in rows <==> 1 <= id < nextId
  }

  predicate RowsOk(rows: map<nat, Row>) {
    forall id :: id in rows ==> RowOk(id, rows[id])
  }

  predicate LogOk(log: seq<LogEntry>, rows: map<nat, Row>) {
    forall i :: 0 <= i < |log| ==> log[i].solicitudId in rows && EntryOk(log[i], rows[log[i].solicitudId])
  }

  predicate CountsOk(log: seq<LogEntry>, rows: map<nat, Row>) {
    forall id :: id in rows ==>
      CountEntries(log, id, false) == 1
      && CountEntries(log, id, true) == (if rows[id].estado == Pendiente then 0 else 1)
  }

  /** Ids are the serial 1, 2, ...; every row agrees with its state; every
      audit entry is about an existing row and agrees with it; each row has
      exactly one submission entry, and one review entry once reviewed. */
  ghost predicate StoreOk(rows: map<nat, Row>, log: seq<LogEntry>, nextId: nat) {
    IdsOk(rows, nextId) && RowsOk(rows) && LogOk(log, rows) && CountsOk(log, rows)
  }

  /** Every pending or approved row carries the attempt count `d` and every
      rejected row `d + 1`. */
  predicate AttemptsAt(rows: map<nat, Row>, d: int) {
    forall id :: id in rows ==> rows[id].intentos == (if rows[id].estado == Rechazada then d + 1 else d)
  }

  /** Inserting a pending row under the next id, with its submission entry,
      keeps the invariant. */
  lemma InsertKeeps(rows: map<nat, Row>, log: seq<LogEntry>, n: nat, row: Row, e: LogEntry)
    requires StoreOk(rows, log, n)
    requires RowOk(n, row) && row.estado == Pendiente
    requires e.solicitudId == n && e.accion == Enviar && EntryOk(e, row)
    ensures StoreOk(rows[n := row], log + [e], n + 1)
  {
    var rows', log' := rows[n := row], log + [e];
    forall i | 0 <= i < |log'|
      ensures log'[i].solicitudId in rows' && EntryOk(log'[i], rows'[log'[i].solicitudId])
    {
      if i < |log| {
        assert log'[i] == log[i];
      }
    }
    forall k | k in rows'
      ensures CountEntries(log', k, false) == 1
      ensures CountEntries(log', k, true) == (if rows'[k].estado == Pendiente then 0 else 1)
    {
      CountAppend(log, e, k, false);
      CountAppend(log, e, k, true);
      if k == n {
        NoEntriesForFreshId(log, rows, k);
      }
    }
  }

  /** Replacing a pending row by its reviewed form, with one review entry,
      keeps the invariant. */
  lemma ReviewKeeps(rows: map<nat, Row>, log: seq<LogEntry>, n: nat, k: nat, upd: Row, e: LogEntry)
    requires StoreOk(rows, log, n)
    requires k in rows && rows[k].estado == Pendiente
    requires RowOk(k, upd) && upd.estado != Pendiente && upd.discordId == rows[k].discordId
    requires e.solicitudId == k && IsReviewAction(e.accion) && EntryOk(e, upd)
    ensures StoreOk(rows[k := upd], log + [e], n)
  {
    var rows', log' := rows[k := upd], log + [e];
    forall i | 0 <= i < |log'|
      ensures log'[i].solicitudId in rows' && EntryOk(log'[i], rows'[log'[i].solicitudId])
    {
      if i < |log| {
        assert log'[i] == log[i];
        if log[i].solicitudId == k {
          CountZero(log, k, true, i);
        }
      }
    }
    forall j | j in rows'
      ensures CountEntries(log', j, false) == 1
      ensures CountEntries(log', j, true) == (if rows'[j].estado == Pendiente then 0 else 1)
    {
      CountAppend(log, e, j, false);
      CountAppend(log, e, j, true);
    }
  }

  lemma AttemptsAfterInsert(rows: map<nat, Row>, d: int, n: nat, row: Row)
    requires AttemptsAt(rows, d) && row.estado == Pendiente && row.intentos == d
    ensures AttemptsAt(rows[n := row], d)
  {
  }

  lemma AttemptsAfterReview(rows: map<nat, Row>, d: int, k: nat, upd: Row)
    requires AttemptsAt(rows, d) && k in rows && rows[k].estado == Pendiente
    requires upd.intentos == (if upd.estado == Rechazada then rows[k].intentos + 1 else rows[k].intentos)
    ensures AttemptsAt(rows[k := upd], d)
  {
  }

  /** Under the invariant, with attempts at a default below two, no row
      carries a cooldown: the ceiling of three is never reached. */
  lemma NoCooldownAt(rows: map<nat, Row>, d: int, id: nat)
    requires RowsOk(rows) && AttemptsAt(rows, d) && d < MAX_INTENTOS - 1
    requires id in rows
    ensures rows[id].cooldownUntil.None?
  {
    assert RowOk(id, rows[id]);
  }

  /** The attempt count a new row of `did` would carry over from the rows
      below `n`: the latest row's, or `dflt` when there is none. */
  function Carried(rows: map<nat, Row>, n: nat, did: string, dflt: int): (c: int)
    ensures LatestBelow(rows, did, n).None? ==> c == dflt
    ensures LatestBelow(rows, did, n).Some? ==> c == rows[LatestBelow(rows, did, n).value].intentos
  {
    match LatestBelow(rows, did, n)
    case None => dflt
    case Some(l) => rows[l].intentos
  }

  // ---------------------------------------------------------------------
  // The table

  class WlStore {
    /** The column default of `intentos`, used by an insert that does not
        name the column. */
    const intentosDefault: int
    var rows: map<nat, Row>
    var log: seq<LogEntry>
    var nextId: nat

    ghost predicate Valid()
      reads this
    {
      StoreOk(rows, log, nextId)
    }

    ghost predicate AttemptsAtDefault()
      reads this
    {
      AttemptsAt(rows, intentosDefault)
    }

    constructor (intentosDefault: int)
      ensures Valid() && AttemptsAtDefault()
      ensures this.intentosDefault == intentosDefault
      ensures rows == map[] && log == [] && nextId == 1
    {
      this.intentosDefault := intentosDefault;
      rows := map[];
      log := [];
      nextId := 1;
    }

    /** The `/pending` listing: pending rows whose cooldown is not running,
        oldest first, at most 100; a listable row is left off the page only
        when the page is full, and then it sorts no earlier than any row on
        it. */
    function Pending(now: int): (r: seq<Row>)
      reads this
      requires Valid()
      ensures |r| <= PENDING_LIMIT && SortedRows(r)
      ensures forall x :: x in r ==> x.id in rows && rows[x.id] == x && Listable(x, now)
      ensures forall id :: id in rows && Listable(rows[id], now) && rows[id] !in r ==>
                |r| == PENDING_LIMIT && forall y :: y in r ==> !Earlier(rows[id], y)
    {
      var all := PendingBelow(rows, now, nextId);
      forall id | id in rows && Listable(rows[id], now) && rows[id] !in Take(all, PENDING_LIMIT)
        ensures |Take(all, PENDING_LIMIT)| == PENDING_LIMIT
        ensures forall y :: y in Take(all, PENDING_LIMIT) ==> !Earlier(rows[id], y)
      {
        assert RowOk(id, rows[id]);
        assert rows[id] in all;
        PageIsOldest(all, PENDING_LIMIT, rows[id]);
      }
      Take(all, PENDING_LIMIT)
    }

    /** Pending rows never carry a cooldown, so the cooldown condition of
        `/pending` never hides a pending row. */
    lemma PendingRowsAreListable(now: int, id: nat)
      requires Valid()
      requires id in rows && rows[id].estado == Pendiente
      ensures Listable(rows[id], now)
    {
      assert RowOk(id, rows[id]);
    }

    /** The applicant's latest row, if any. */
    function Latest(did: string): (r: Option<nat>)
      reads this
      requires Valid()
      ensures r.Some? ==> r.value in rows && rows[r.value].discordId == did
      ensures r.Some? ==> forall id :: id in rows && rows[id].discordId == did && id != r.value
                                       ==> !Later(rows[id], rows[r.value])
      ensures r.None? ==> forall id :: id in rows ==> rows[id].discordId != did
    {
      LatestBelow(rows, did, nextId)
    }

    /** The latest row's attempt count, or the column default for a first
        application. */
    function CarriedIntentos(did: string): (n: int)
      reads this
      requires Valid()
      ensures Latest(did).Some? ==> n == rows[Latest(did).value].intentos
      ensures Latest(did).None? ==> n == intentosDefault
    {
      Carried(rows, nextId, did, intentosDefault)
    }

    /** The checks `/submit` makes before inserting: required fields in
        order, then the cooldown of the applicant's latest row. */
    method Gate(p: map<string, Json>, now: int) returns (err: Option<ApiError>)
      requires Valid()
      ensures err == SubmitCheck(rows, nextId, p, now)
    {
      var missing := CheckRequired(p);
      if missing.Some? {
        return Some(Falta(missing.value));
      }
      err := CooldownOf(rows, Did(p), nextId, now);
    }

    /** Inserts a pending row and its `enviar` audit entry. */
    method Insert(p: map<string, Json>, ip: string, now: int, intentos: int) returns (id: nat)
      requires Valid()
      modifies this
      ensures Valid()
      ensures id == old(nextId) && id !in old(rows)
      ensures rows == old(rows)[id := NewRow(id, p, intentos, now)]
      ensures log == old(log) + [SubmitEntry(id, p, ip)]
      ensures nextId == old(nextId) + 1
    {
      id := nextId;
      var row := NewRow(id, p, intentos, now);
      var e := SubmitEntry(id, p, ip);
      InsertKeeps(rows, log, nextId, row, e);
      rows := rows[id := row];
      log := log + [e];
      nextId := nextId + 1;
    }

    /** `POST /wl/submit` as written: a refused submission changes nothing;
        an accepted one inserts a pending row under the next id, taking the
        column default of `intentos`, and logs its `enviar` entry. */
    method Submit(p: map<string, Json>, ip: string, now: int) returns (r: Result<nat>)
      requires Valid()
      modifies this
      ensures Valid()
      ensures old(AttemptsAtDefault()) ==> AttemptsAtDefault()
      ensures old(SubmitCheck(rows, nextId, p, now)).Some? ==>
                r == Err(old(SubmitCheck(rows, nextId, p, now)).value) && Unchanged(old(rows), old(log), old(nextId))
      ensures old(SubmitCheck(rows, nextId, p, now)).None? ==>
                && r == Ok(old(nextId)) && nextId == old(nextId) + 1
                && rows == old(rows)[r.value := NewRow(r.value, p, intentosDefault, now)]
                && log == old(log) + [SubmitEntry(r.value, p, ip)]
    {
      var err := Gate(p, now);
      if err.Some? {
        return Err(err.value);
      }
      if AttemptsAtDefault() {
        AttemptsAfterInsert(rows, intentosDefault, nextId, NewRow(nextId, p, intentosDefault, now));
      }
      var id := Insert(p, ip, now, intentosDefault);
      r := Ok(id);
    }

    /** The submission the attempt ceiling needs: as `Submit`, except that the
        inserted row carries forward the attempt count of the applicant's
        latest row. */
    method SubmitCarryingAttempts(p: map<string, Json>, ip: string, now: int) returns (r: Result<nat>)
      requires Valid()
      modifies this
      ensures Valid()
      ensures old(SubmitCheck(rows, nextId, p, now)).Some? ==>
                r == Err(old(SubmitCheck(rows, nextId, p, now)).value) && Unchanged(old(rows), old(log), old(nextId))
      ensures old(SubmitCheck(rows, nextId, p, now)).None? ==>
                && r == Ok(old(nextId)) && nextId == old(nextId) + 1
                && rows == old(rows)[r.value := NewRow(r.value, p, old(CarriedIntentos(Did(p))), now)]
                && log == old(log) + [SubmitEntry(r.value, p, ip)]
    {
      var err := Gate(p, now);
      if err.Some? {
        return Err(err.value);
      }
      var intentos := CarriedIntentos(Did(p));
      var id := Insert(p, ip, now, intentos);
      r := Ok(id);
    }

    predicate Unchanged(rows0: map<nat, Row>, log0: seq<LogEntry>, next0: nat)
      reads this
    {
      rows == rows0 && log == log0 && nextId == next0
    }

    /** `POST /wl/review/:id`, as one atomic step: the id must be an integer
        and name an existing pending row; the row is then updated and exactly
        one `aceptar`/`rechazar` entry is logged. Failures change nothing. */
    method Review(id: Option<int>, decisions: seq<(string, Json)>, notas: Json, reviewer: string, now: int)
      returns (r: Result<Row>)
      requires Valid()
      modifies this
      ensures Valid()
      ensures old(AttemptsAtDefault()) ==> AttemptsAtDefault()
      ensures id.None? ==> r == Err(IdInvalido) && Unchanged(old(rows), old(log), old(nextId))
      ensures id.Some? && (id.value < 0 || id.value as nat !in old(rows)) ==>
                r == Err(NotFound) && Unchanged(old(rows), old(log), old(nextId))
      ensures id.Some? && id.value >= 0 && id.value as nat in old(rows) && old(rows)[id.value as nat].estado != Pendiente ==>
                r == Err(YaRevisada) && Unchanged(old(rows), old(log), old(nextId))
      ensures r.Ok? <==> id.Some? && id.value >= 0 && id.value as nat in old(rows)
                          && old(rows)[id.value as nat].estado == Pendiente
      ensures r.Ok? ==>
                var k := id.value as nat;
                && r.value == ReviewedRow(old(rows)[k], decisions, notas, reviewer, now)
                && rows == old(rows)[k := r.value]
                && log == old(log) + [ReviewEntry(old(rows)[k], decisions, reviewer)]
                && nextId == old(nextId)
    {
      if id.None? {
        return Err(IdInvalido);
      }
      if id.value < 0 || id.value as nat !in rows {
        return Err(NotFound);
      }
      var k := id.value as nat;
      var cur := rows[k];
      if cur.estado != Pendiente {
        return Err(YaRevisada);
      }
      assert RowOk(k, cur);
      var upd := ReviewedRow(cur, decisions, notas, reviewer, now);
      var e := ReviewEntry(cur, decisions, reviewer);
      ReviewKeeps(rows, log, nextId, k, upd, e);
      if AttemptsAtDefault() {
        AttemptsAfterReview(rows, intentosDefault, k, upd);
      }
      rows := rows[k := upd];
      log := log + [e];
      r := Ok(upd);
    }
  }

  // ---------------------------------------------------------------------
  // The attempt counter across applications

  /** The decisions of a review that rejects. */
  const REJECT: seq<(string, Json)> := [("que_es_rp", JBool(false))]

  /** One application accepted by the as-written gate, which the cooldown
      never stops while the counts stay at the default 0. */
  method ApplyAsWritten(s: WlStore, p: map<string, Json>, now: int) returns (k: nat)
    requires s.Valid() && s.AttemptsAtDefault() && s.intentosDefault == 0
    requires FirstMissing(p).None?
    modifies s
    ensures s.Valid() && s.AttemptsAtDefault()
    ensures k in s.rows && s.rows[k].estado == Pendiente && s.rows[k].intentos == 0
  {
    NoCooldownYet(s);
    var a := s.Submit(p, "", now);
    k := a.value;
  }

  /** A rejecting review of pending row `k`; the applicant's latest row
      stays the latest. */
  method Reject(s: WlStore, k: nat, now: int, did: string) returns (row: Row)
    requires s.Valid() && k in s.rows && s.rows[k].estado == Pendiente
    modifies s
    ensures s.Valid() && (old(s.AttemptsAtDefault()) ==> s.AttemptsAtDefault())
    ensures k in s.rows && s.rows[k] == row
    ensures row.estado == Rechazada && row.intentos == old(s.rows[k].intentos) + 1
    ensures row.createdAt == old(s.rows[k].createdAt)
    ensures row.cooldownUntil.Some? <==> row.intentos >= MAX_INTENTOS
    ensures row.cooldownUntil.Some? ==> row.cooldownUntil.value == now + COOLDOWN_MS
    ensures old(s.Latest(did)) == Some(k) ==> s.Latest(did) == Some(k)
  {
    assert !AllTrue(REJECT);
    if s.Latest(did) == Some(k) {
      LatestAfterUpdate(s.rows, did, s.nextId, k, ReviewedRow(s.rows[k], REJECT, JStr(""), "staff", now));
    }
    var r := s.Review(Some(k), REJECT, JStr(""), "staff", now);
    row := r.value;
  }

  /** As written, with the column default 0: an applicant rejected three
      times in a row gets no cooldown and may apply again at once. */
  method ThreeRejectionsAsWritten(p: map<string, Json>) returns (third: Row, again: Result<nat>)
    requires FirstMissing(p).None?
    ensures third.estado == Rechazada
    ensures third.intentos == 1 && third.cooldownUntil.None?
    ensures again.Ok?
  {
    var s := new WlStore(0);
    var k1 := ApplyAsWritten(s, p, 0);
    var r1 := Reject(s, k1, 1, "");
    var k2 := ApplyAsWritten(s, p, 2);
    var r2 := Reject(s, k2, 3, "");
    var k3 := ApplyAsWritten(s, p, 4);
    third := Reject(s, k3, 5, "");
    NoCooldownYet(s);
    again := s.Submit(p, "", 6);
  }

  /** The applicant's latest row was rejected `k` times (no row for `k` 0),
      before `now`, and its cooldown is not running. */
  ghost predicate RejectedSoFar(s: WlStore, did: string, k: int, now: int)
    reads s
    requires s.Valid()
  {
    if k == 0 then s.Latest(did).None?
    else
      s.Latest(did).Some?
      && var l := s.rows[s.Latest(did).value];
         l.intentos == k && l.createdAt < now && l.cooldownUntil.None?
  }

  /** One application with the count carried forward: the new row is the
      applicant's latest and starts from the count of the previous one. */
  method ApplyCarried(s: WlStore, p: map<string, Json>, now: int, k: int) returns (id: nat)
    requires s.Valid() && s.intentosDefault == 0 && k >= 0
    requires FirstMissing(p).None? && RejectedSoFar(s, Did(p), k, now)
    modifies s
    ensures s.Valid()
    ensures id in s.rows && s.rows[id].estado == Pendiente && s.rows[id].intentos == k
    ensures s.rows[id].createdAt == now && s.Latest(Did(p)) == Some(id)
  {
    var did := Did(p);
    ClearToApply(s, p, k, now);
    LatestAfterInsert(s.rows, did, s.nextId, NewRow(s.nextId, p, k, now));
    var a := s.SubmitCarryingAttempts(p, "", now);
    id := a.value;
  }

  /** After `k` rejections, none of them in a cooldown, a complete
      submission passes the checks, carries `k`, and comes after every row
      of the applicant. */
  lemma ClearToApply(s: WlStore, p: map<string, Json>, k: int, now: int)
    requires s.Valid() && s.intentosDefault == 0 && k >= 0
    requires FirstMissing(p).None? && RejectedSoFar(s, Did(p), k, now)
    ensures SubmitCheck(s.rows, s.nextId, p, now).None?
    ensures s.CarriedIntentos(Did(p)) == k
    ensures forall j :: j in s.rows && s.rows[j].discordId == Did(p) ==> s.rows[j].createdAt < now
  {
    var did := Did(p);
    forall j | j in s.rows && s.rows[j].discordId == did
      ensures s.rows[j].createdAt < now
    {
      LatestIsNewest(s.rows, did, s.nextId, j);
    }
  }

  /** One round with the count carried forward: apply at `now`, be rejected
      at `now + 1`. The rejected row stays the applicant's latest. */
  method RoundCarried(s: WlStore, p: map<string, Json>, now: int, k: int) returns (row: Row)
    requires s.Valid() && s.intentosDefault == 0 && k >= 0
    requires FirstMissing(p).None? && RejectedSoFar(s, Did(p), k, now)
    modifies s
    ensures s.Valid() && s.Latest(Did(p)).Some? && s.rows[s.Latest(Did(p)).value] == row
    ensures row.estado == Rechazada && row.intentos == k + 1 && row.createdAt == now
    ensures row.cooldownUntil.Some? <==> k + 1 >= MAX_INTENTOS
    ensures row.cooldownUntil.Some? ==> row.cooldownUntil.value == now + 1 + COOLDOWN_MS
  {
    var id := ApplyCarried(s, p, now, k);
    row := Reject(s, id, now + 1, Did(p));
  }

  /** With the attempt count carried into each new application, the third
      rejection starts the seven-day cooldown and the next submission is
      refused with it. */
  method ThreeRejectionsCarried(p: map<string, Json>) returns (third: Row, again: Result<nat>)
    requires FirstMissing(p).None?
    ensures third.estado == Rechazada
    ensures third.intentos == 3 && third.cooldownUntil == Some(5 + COOLDOWN_MS)
    ensures again == Err(CooldownActivo(5 + COOLDOWN_MS, 3))
  {
    var s := new WlStore(0);
    var r1 := RoundCarried(s, p, 0, 0);
    assert RejectedSoFar(s, Did(p), 1, 2);
    var r2 := RoundCarried(s, p, 2, 1);
    assert RejectedSoFar(s, Did(p), 2, 4);
    third := RoundCarried(s, p, 4, 2);
    again := SubmitDuringCooldown(s, p, 6);
  }

  /** A complete submission while the applicant's latest row is in its
      cooldown. */
  method SubmitDuringCooldown(s: WlStore, p: map<string, Json>, now: int) returns (r: Result<nat>)
    requires s.Valid() && FirstMissing(p).None?
    requires s.Latest(Did(p)).Some?
    requires var l := s.rows[s.Latest(Did(p)).value]; l.cooldownUntil.Some? && l.cooldownUntil.value > now
    modifies s
    ensures var l := old(s.rows[s.Latest(Did(p)).value]);
            r == Err(CooldownActivo(l.cooldownUntil.value, l.intentos))
  {
    CooldownRefuses(s, p, now);
    r := s.SubmitCarryingAttempts(p, "", now);
  }

  /** A running cooldown on the applicant's latest row refuses a complete
      submission with that row's date and count. */
  lemma CooldownRefuses(s: WlStore, p: map<string, Json>, now: int)
    requires s.Valid() && FirstMissing(p).None?
    requires s.Latest(Did(p)).Some?
    requires var l := s.rows[s.Latest(Did(p)).value]; l.cooldownUntil.Some? && l.cooldownUntil.value > now
    ensures var l := s.rows[s.Latest(Did(p)).value];
            SubmitCheck(s.rows, s.nextId, p, now) == Some(CooldownActivo(l.cooldownUntil.value, l.intentos))
  {
  }

  /** In the as-written store with default 0, the cooldown gate never fires. */
  lemma NoCooldownYet(s: WlStore)
    requires s.Valid() && s.AttemptsAtDefault() && s.intentosDefault == 0
    ensures forall did, now :: CooldownOf(s.rows, did, s.nextId, now).None?
  {
    forall id | id in s.rows ensures s.rows[id].cooldownUntil.None? {
      NoCooldownAt(s.rows, 0, id);
    }
  }
}
