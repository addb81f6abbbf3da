/** The applicant form of the root site (src/App.jsx): sixteen fields, the
    first being the identity line `nombre_y_id_discord` that sign-in fills;
    the submit handler that posts the form to `/wl/submit`
    (src/lib/api.js) and reads the reply; and the clean-up after a
    successful submission, which keeps the identity and empties the
    answers. */
module RootForm {
  import opened Common
  import opened FormRules
  import WlRoutes

  /** `RULES`, in table order. */
  const RULES: seq<(string, Rule)> := [
    ("nombre_y_id_discord", Required),
    ("edad_ooc", Age(18, 80, "Edad inválida (18–80)")),
    ("steam_link", Steam),
    ("que_es_rp", Length(30, 600, "Explica en 30–600 caracteres")),
    ("uso_me_do", Length(40, 400, "Explica en 40–400 caracteres")),
    ("fair_play", Length(30, 600, "Explica en 30–600 caracteres")),
    ("pg_y_mg", Length(30, 600, "Explica en 30–600 caracteres")),
    ("como_robarias_base_militar", Length(40, 600, "Detalla en 40–600 caracteres")),
    ("caso_pinchan_ruedas", Length(40, 600, "Detalla en 40–600 caracteres")),
    ("rol_pensado", Required),
    ("tiempo_roleando", Length(1, 60, "Indica un valor (1–60 caracteres)")),
    ("historia_personaje", Length(80, 1200, "Cuenta algo 80–1200 caracteres")),
    ("reaccion_robo_policia", Length(40, 600, "Detalla en 40–600")),
    ("que_harias_vdm", Length(40, 600, "Detalla en 40–600")),
    ("que_harias_desconecta_secuestro", Length(40, 600, "Detalla en 40–600")),
    ("minimo_policias_flecca", ShortNumber("Número válido (0–99)"))
  ]

  /** The answers a successful submission empties, in page order. */
  const ANSWERS: seq<string> := [
    "edad_ooc", "steam_link", "que_es_rp", "uso_me_do", "fair_play",
    "pg_y_mg", "como_robarias_base_militar", "caso_pinchan_ruedas", "rol_pensado",
    "tiempo_roleando", "historia_personaje", "reaccion_robo_policia", "que_harias_vdm",
    "que_harias_desconecta_secuestro", "minimo_policias_flecca"
  ]

  /** `required`: the fields the progress bar counts, the identity line
      first and then the answers. */
  const REQUIRED: seq<string> := ["nombre_y_id_discord"] + ANSWERS

  /** The progress list is the rule table's keys, in the same order, and
      every rule is well formed and needs some text. */
  lemma TableShape()
    ensures |RULES| == |REQUIRED| == 16
    ensures forall i :: 0 <= i < |RULES| ==> RULES[i].0 == REQUIRED[i]
    ensures forall i :: 0 <= i < |RULES| ==> WellFormed(RULES[i].1) && DemandsText(RULES[i].1)
  {
  }

  /** The fields hold the text of their inputs. */
  predicate AnswersAreText(form: Form) {
    forall i :: 0 <= i < |REQUIRED| ==> REQUIRED[i] in form ==> form[REQUIRED[i]].JStr?
  }

  /** `progress`: between 0 and 100, and 100 exactly when all sixteen
      fields are filled. */
  lemma ProgressOfForm(form: Form)
    ensures 0 <= Progress(form, REQUIRED) <= 100
    ensures Progress(form, REQUIRED) == 100 <==> forall i :: 0 <= i < |REQUIRED| ==> Filled(Field(form, REQUIRED[i]))
  {
    ProgressFull(form, REQUIRED);
  }

  // ---------------------------------------------------------------------
  // Sign-in

  /** The session effect: the identity fields from the session user, and
      the identity line `${username} | ${id}` built from them. */
  function SignIn(f: Form, u: Json): (r: Form)
    ensures Field(r, "nombre_y_id_discord") == Some(JStr(Nombre(Prop(u, "discord_username"), Prop(u, "discord_id"))))
    ensures forall k :: IsIdentity(k) ==> Field(r, k) == Prop(u, k)
    ensures forall k :: !IsIdentity(k) && k != "nombre_y_id_discord" ==> Field(r, k) == Field(f, k)
  {
    SessionFields(f, u)["nombre_y_id_discord" := JStr(Nombre(Prop(u, "discord_username"), Prop(u, "discord_id")))]
  }

  /** After sign-in the identity line passes its rule, whatever the session
      user holds. */
  lemma SignedInNombreAccepted(f: Form, u: Json)
    ensures Accepts(Required, Field(SignIn(f, u), "nombre_y_id_discord"))
  {
    NombreFilled(Prop(u, "discord_username"), Prop(u, "discord_id"));
    assert Accepts(Required, Some(JStr(Nombre(Prop(u, "discord_username"), Prop(u, "discord_id")))));
  }

  // ---------------------------------------------------------------------
  // The reply of /wl/submit and how the page reads it

  /** The JSON body `/wl/submit` answers with: `{ ok: true, id }` on
      success, `{ error, until, intentos }` while a cooldown runs, and
      `{ error: code }` for a missing field. */
  function SubmitReply(r: WlRoutes.Result<nat>): (body: Json)
    ensures r.Ok? ==> Prop(body, "id") == Some(JNum(r.value)) && Prop(body, "error").None?
    ensures r.Err? ==> Prop(body, "error") == Some(JStr(r.error.Code()))
  {
    match r
    case Ok(id) => JObj([("ok", JBool(true)), ("id", JNum(id))])
    case Err(e) =>
      if e.CooldownActivo? then
        var ms := [("error", JStr(e.Code())), ("until", JNum(e.until)), ("intentos", JNum(e.intentos))];
        assert LookupMember(ms[..2], "error") == Some(JStr(e.Code())) by {
          assert ms[..2][..1] == ms[..1];
        }
        JObj(ms)
      else JObj([("error", JStr(e.Code()))])
  }

  /** What `handleSubmit` ends in. */
  datatype Outcome =
    | SignInFirst                // "Primero entra con Discord."
    | ReviewFields(first: string) // "Revisa los campos marcados en rojo."
    | Cooldown(withDate: bool)
    | Failed(message: string)
    | Sent(id: Json)

  const RESPUESTA_INVALIDA := "Respuesta inválida del servidor"
  const ERROR_ENVIANDO := "Error enviando WL"

  /** `e.message || "Error enviando WL"` for `new Error(data.error)`. */
  function ErrorMessage(e: Json): (m: string)
    ensures m != ""
    ensures ToStr(e) != "" ==> m == ToStr(e)
  {
    if ToStr(e) == "" then ERROR_ENVIANDO else ToStr(e)
  }

  /** How the page reads the reply `data`: a cooldown stops with a message
      that shows the date when `until` is set; any other truthy error fails
      with that error's text; otherwise the new id, from `data.id` or else
      `data.data.id`, must be truthy, or the reply is invalid. */
  function Respond(data: Json): (o: Outcome)
    ensures o.Cooldown? <==> Prop(data, "error") == Some(JStr("COOLDOWN_ACTIVO"))
    ensures o.Cooldown? ==> (o.withDate <==> OptTruthy(Prop(data, "until")))
    ensures o.Sent? ==> !OptTruthy(Prop(data, "error")) && Truthy(o.id)
    ensures o.Sent? ==> Nullish(Prop(data, "id"), OptProp(Prop(data, "data"), "id")) == Some(o.id)
    ensures o.Failed? ==> o.message != ""
    ensures !o.SignInFirst? && !o.ReviewFields?
  {
    var err := Prop(data, "error");
    if err == Some(JStr("COOLDOWN_ACTIVO")) then Cooldown(OptTruthy(Prop(data, "until")))
    else if OptTruthy(err) then Failed(ErrorMessage(err.value))
    else
      var id := Nullish(Prop(data, "id"), OptProp(Prop(data, "data"), "id"));
      if OptTruthy(id) then Sent(id.value) else Failed(RESPUESTA_INVALIDA)
  }

  /** A row the server stored shows as sent, with its id. */
  lemma AcceptedShowsSent(id: nat)
    requires id >= 1
    ensures Respond(SubmitReply(WlRoutes.Ok(id))) == Sent(JNum(id))
  {
  }

  /** An id of 0 would read as an invalid reply; the store's ids start at 1. */
  lemma ZeroIdIsInvalid()
    ensures Respond(SubmitReply(WlRoutes.Ok(0))) == Failed(RESPUESTA_INVALIDA)
  {
  }

  /** A running cooldown stops the page, with its date when there is one. */
  lemma CooldownShown(until: int, intentos: int)
    ensures Respond(SubmitReply(WlRoutes.Err(WlRoutes.CooldownActivo(until, intentos)))) == Cooldown(until != 0)
  {
    var ms := [("error", JStr("COOLDOWN_ACTIVO")), ("until", JNum(until)), ("intentos", JNum(intentos))];
    assert SubmitReply(WlRoutes.Err(WlRoutes.CooldownActivo(until, intentos))) == JObj(ms);
    assert LookupMember(ms[..2], "until") == Some(JNum(until));
  }

  /** Any other refusal shows its error code. */
  lemma RefusalShowsCode(e: WlRoutes.ApiError)
    requires !e.CooldownActivo?
    ensures Respond(SubmitReply(WlRoutes.Err(e))) == Failed(e.Code())
  {
    var body := SubmitReply(WlRoutes.Err(e));
    assert Prop(body, "error") == Some(JStr(e.Code()));
    assert e.Code() != "" && e.Code()[0] != 'C' by {
      if e.Falta? {
        assert e.Code()[0] == 'F';
      }
    }
  }

  // ---------------------------------------------------------------------
  // After a successful submission

  /** The identity line rebuilt from the form's own identity. */
  function OwnNombre(f: Form): string {
    Nombre(Field(f, "discord_username"), Field(f, "discord_id"))
  }

  /** The form after a successful submission: the identity line rebuilt
      from the form's own identity, the answers emptied, everything else
      kept. */
  function AfterSubmit(f: Form): (r: Form)
    ensures forall k :: k in ANSWERS ==> k in r && r[k] == JStr("")
    ensures Field(r, "nombre_y_id_discord") == Some(JStr(OwnNombre(f)))
    ensures forall k :: k in f && k !in REQUIRED ==> k in r && r[k] == f[k]
  {
    var g := f["nombre_y_id_discord" := JStr(OwnNombre(f))];
    NombreIsNoAnswer();
    BlankAllKeeps(g, ANSWERS, "nombre_y_id_discord");
    BlankAll(g, ANSWERS)
  }

  lemma NombreIsNoAnswer()
    ensures "nombre_y_id_discord" !in ANSWERS
  {
  }

  /** After a successful submission only the identity line counts, so the
      bar shows 6% (1 of 16, rounded). */
  lemma SentProgress(f: Form)
    ensures Progress(AfterSubmit(f), REQUIRED) == 6
  {
    var r := AfterSubmit(f);
    BlankedIsEmpty(r, ANSWERS);
    NombreFilled(Field(f, "discord_username"), Field(f, "discord_id"));
    assert REQUIRED[1..] == ANSWERS;
    CountFirstOnly(r, REQUIRED);
    OneOfSixteen(r, REQUIRED);
  }

  lemma OneOfSixteen(form: Form, keys: seq<string>)
    requires CountFilled(form, keys) == 1 && |keys| == 16
    ensures Progress(form, keys) == 6
  {
    RoundsToSix(CountFilled(form, keys), |keys|);
  }

  /** 1 of 16 is 6.25%, which rounds to 6. */
  lemma RoundsToSix(n: int, w: int)
    requires n == 1 && w == 16
    ensures RoundPercent(n, w) == 6
  {
    var p := RoundPercent(n, w);
    assert 32 * p - 16 <= 200 < 32 * p + 16;
  }

  // ---------------------------------------------------------------------
  // Against the server's required-field check

  /** A filled text field passes the server's check for it. */
  lemma FilledIsPresent(p: Form, k: string)
    requires Filled(Field(p, k)) && (k in p ==> p[k].JStr?)
    ensures !WlRoutes.IsMissing(p, k)
  {
    assert Trim("") == "";
  }

  /** Every field the server requires after the identity is on this page. */
  lemma ServerKeysOnPage(j: nat)
    requires 2 <= j < |WlRoutes.REQUIRED|
    ensures WlRoutes.REQUIRED[j] in REQUIRED
  {
  }

  /** The form an applicant submits: every rule of this page passes, the
      answers are text, and the identity is non-blank text. */
  predicate Submittable(form: Form) {
    && AllAccepted(RULES, form) && AnswersAreText(form)
    && "discord_id" in form && form["discord_id"].JStr? && !IsBlank(form["discord_id"].s)
    && "discord_username" in form && form["discord_username"].JStr? && !IsBlank(form["discord_username"].s)
  }

  /** Such a form passes the server's required-field check. */
  lemma ValidFormPassesServer(form: Form)
    requires Submittable(form)
    ensures WlRoutes.FirstMissing(form).None?
  {
    forall j | 0 <= j < |WlRoutes.REQUIRED|
      ensures !WlRoutes.IsMissing(form, WlRoutes.REQUIRED[j])
    {
      if j < 2 {
        IdentityPresent(form, j);
      } else {
        AnswerPresent(form, j);
      }
    }
  }

  lemma IdentityPresent(form: Form, j: nat)
    requires Submittable(form) && j < 2
    ensures !WlRoutes.IsMissing(form, WlRoutes.REQUIRED[j])
  {
    var k := WlRoutes.REQUIRED[j];
    assert k == "discord_id" || k == "discord_username";
    FilledIsPresent(form, k);
  }

  lemma AnswerPresent(form: Form, j: nat)
    requires Submittable(form) && 2 <= j < |WlRoutes.REQUIRED|
    ensures !WlRoutes.IsMissing(form, WlRoutes.REQUIRED[j])
  {
    var k := WlRoutes.REQUIRED[j];
    ServerKeysOnPage(j);
    TableShape();
    var i :| 0 <= i < |REQUIRED| && REQUIRED[i] == k;
    AcceptedIsFilled(RULES[i].1, Field(form, k));
    FilledIsPresent(form, k);
  }

  // ---------------------------------------------------------------------
  // The whole submission

  /** `handleSubmit` against the server's store (with the attempt counter
      carried, see `WlRoutes.SubmitCarryingAttempts`): the gate, then the posted
      form, then the reply as the page reads it, and the form the page is
      left with. */
  method HandleSubmit(store: WlRoutes.WlStore, me: Option<Json>, form: Form, ip: string, now: int)
    returns (o: Outcome, next: Form)
    requires store.Valid()
    modifies store
    ensures store.Valid()
    ensures !OptTruthy(me) ==> o == SignInFirst
    ensures OptTruthy(me) && !AllAccepted(RULES, form) ==>
              o.ReviewFields? &&
              exists i :: 0 <= i < |RULES| && RULES[i].0 == o.first && !Accepts(RULES[i].1, Field(form, RULES[i].0))
                          && forall j :: 0 <= j < i ==> Accepts(RULES[j].1, Field(form, RULES[j].0))
    ensures !(OptTruthy(me) && AllAccepted(RULES, form)) ==>
              next == form && store.Unchanged(old(store.rows), old(store.log), old(store.nextId))
    ensures OptTruthy(me) && AllAccepted(RULES, form) ==>
              var check := old(WlRoutes.SubmitCheck(store.rows, store.nextId, form, now));
              && (check.None? ==> o == Sent(JNum(old(store.nextId))) && next == AfterSubmit(form)
                                  && store.rows == old(store.rows)[old(store.nextId) := WlRoutes.NewRow(old(store.nextId), form, WlRoutes.Carried(old(store.rows), old(store.nextId), WlRoutes.Did(form), store.intentosDefault), now)])
              && (check.Some? && check.value.CooldownActivo? ==> o == Cooldown(check.value.until != 0) && next == form)
              && (check.Some? && !check.value.CooldownActivo? ==> o == Failed(check.value.Code()) && next == form)
    ensures OptTruthy(me) && Submittable(form) ==> o.Sent? || o.Cooldown?
  {
    TableShape();
    var step := Gate(RULES, me, form);
    if step.NotSignedIn? {
      return SignInFirst, form;
    }
    if step.FixFields? {
      return ReviewFields(step.first), form;
    }
    ghost var n := store.nextId;
    assert n >= 1;
    if Submittable(form) {
      ValidFormPassesServer(form);
    }
    ghost var carried := store.CarriedIntentos(WlRoutes.Did(form));
    assert carried == WlRoutes.Carried(store.rows, n, WlRoutes.Did(form), store.intentosDefault);
    var r := store.SubmitCarryingAttempts(form, ip, now);
    o := Respond(SubmitReply(r));
    if r.Ok? {
      AcceptedShowsSent(r.value);
    } else if r.error.CooldownActivo? {
      CooldownShown(r.error.until, r.error.intentos);
    } else {
      RefusalShowsCode(r.error);
    }
    next := if o.Sent? then AfterSubmit(form) else form;
  }
}
