/** The applicant form of the `/wl/` site (frontend/src/App.jsx): its rule
    table of fifteen answers, the submit gate that opens the captcha, the
    progress bar, and "Limpiar", which empties the answers and keeps the
    Discord identity. */
module FrontendForm {
  import opened Common
  import opened FormRules
  import WlRoutes

  /** `RULES`, in table order. */
  const RULES: seq<(string, Rule)> := [
    ("edad_ooc", Age(18, 80, "Edad inválida (18–80)")),
    ("steam_link", Steam),
    ("que_es_rp", Length(30, 220, "Explica en 30–220 caracteres")),
    ("uso_me_do", Length(40, 250, "Explica en 40–250 caracteres")),
    ("fair_play", Length(30, 200, "Explica en 30–200 caracteres")),
    ("pg_y_mg", Length(30, 250, "Explica en 30–250 caracteres")),
    ("como_robarias_base_militar", Length(40, 250, "Detalla en 40–250 caracteres")),
    ("caso_pinchan_ruedas", Length(40, 200, "Detalla en 40–200 caracteres")),
    ("rol_pensado", Required),
    ("tiempo_roleando", Length(1, 60, "Indica un valor (1–60 caracteres)")),
    ("historia_personaje", Length(80, 1200, "Cuenta algo 80–1200 caracteres")),
    ("reaccion_robo_policia", Length(40, 200, "Detalla en 40–200")),
    ("que_harias_vdm", Length(40, 200, "Detalla en 40–200")),
    ("que_harias_desconecta_secuestro", Length(40, 250, "Detalla en 40–250")),
    ("minimo_policias_flecca", ShortNumber("Número válido (0–99)"))
  ]

  /** `required`: the fields the progress bar counts, which are also the
      answers "Limpiar" empties. */
  const REQUIRED: seq<string> := [
    "edad_ooc", "steam_link", "que_es_rp", "uso_me_do", "fair_play", "pg_y_mg",
    "como_robarias_base_militar", "caso_pinchan_ruedas", "rol_pensado", "tiempo_roleando",
    "historia_personaje", "reaccion_robo_policia", "que_harias_vdm",
    "que_harias_desconecta_secuestro", "minimo_policias_flecca"
  ]

  /** The progress list is the rule table's keys, in the same order, and
      every rule is well formed and needs some text. */
  lemma TableShape()
    ensures |RULES| == |REQUIRED| == 15
    ensures forall i :: 0 <= i < |RULES| ==> RULES[i].0 == REQUIRED[i]
    ensures forall i :: 0 <= i < |RULES| ==> WellFormed(RULES[i].1) && DemandsText(RULES[i].1)
  {
  }

  /** The answers hold the text of their inputs. */
  predicate AnswersAreText(form: Form) {
    forall i :: 0 <= i < |REQUIRED| ==> REQUIRED[i] in form ==> form[REQUIRED[i]].JStr?
  }

  /** `handleSubmit` up to the captcha: stopped without a session, stopped
      at the first rejected field in table order, and otherwise the captcha
      opens, which happens exactly when every rule accepts. */
  method HandleSubmit(me: Option<Json>, form: Form) returns (step: Step)
    ensures !OptTruthy(me) <==> step == NotSignedIn
    ensures OptTruthy(me) ==> (step == Proceed <==> AllAccepted(RULES, form))
    ensures step.FixFields? ==>
              exists i :: 0 <= i < |RULES| && RULES[i].0 == step.first && !Accepts(RULES[i].1, Field(form, RULES[i].0))
                          && forall j :: 0 <= j < i ==> Accepts(RULES[j].1, Field(form, RULES[j].0))
  {
    TableShape();
    step := Gate(RULES, me, form);
  }

  /** A form that opens the captcha shows a full progress bar. */
  lemma SubmittableIsComplete(form: Form)
    requires AllAccepted(RULES, form) && AnswersAreText(form)
    ensures Progress(form, REQUIRED) == 100
  {
    TableShape();
    forall i | 0 <= i < |REQUIRED|
      ensures Filled(Field(form, REQUIRED[i]))
    {
      AcceptedIsFilled(RULES[i].1, Field(form, REQUIRED[i]));
    }
    ProgressFull(form, REQUIRED);
  }

  /** `progress`: between 0 and 100, and 100 exactly when all fifteen
      answers are filled. */
  lemma ProgressOfForm(form: Form)
    ensures 0 <= Progress(form, REQUIRED) <= 100
    ensures Progress(form, REQUIRED) == 100 <==> forall i :: 0 <= i < |REQUIRED| ==> Filled(Field(form, REQUIRED[i]))
  {
    ProgressFull(form, REQUIRED);
  }

  // ---------------------------------------------------------------------
  // Limpiar

  /** `x ?? ""` and the like, for a field that is set to the result. */
  function OrDefault(a: Option<Json>, d: Json): Json {
    if a.Some? && a.value != JNull then a.value else d
  }

  /** The identity line "Limpiar" writes: from the session when signed in,
      else from the form. */
  function NombreLine(f: Form, me: Option<Json>): string {
    if OptTruthy(me) then Nombre(OptProp(me, "discord_username"), OptProp(me, "discord_id"))
    else Nombre(Field(f, "discord_username"), Field(f, "discord_id"))
  }

  /** The identity half of "Limpiar": each identity field from the session,
      else from the form, else its empty value; the guild flag as a
      boolean; `nombre_y_id_discord` rebuilt by `NombreLine`. */
  function ResetIdentity(f: Form, me: Option<Json>): (r: Form)
    ensures forall k :: k in r <==> k in f || IsIdentity(k) || k == "nombre_y_id_discord"
    ensures forall k :: k in f && !IsIdentity(k) && k != "nombre_y_id_discord" ==> r[k] == f[k]
    ensures r["nombre_y_id_discord"] == JStr(NombreLine(f, me))
  {
    f["discord_id" := OrDefault(Nullish(OptProp(me, "discord_id"), Field(f, "discord_id")), JStr(""))]
     ["discord_username" := OrDefault(Nullish(OptProp(me, "discord_username"), Field(f, "discord_username")), JStr(""))]
     ["discord_avatar" := OrDefault(Nullish(OptProp(me, "discord_avatar"), Field(f, "discord_avatar")), JNull)]
     ["is_in_guild" := JBool(OptTruthy(Nullish(OptProp(me, "is_in_guild"), Field(f, "is_in_guild"))))]
     ["nombre_y_id_discord" := JStr(NombreLine(f, me))]
  }

  /** "Limpiar": every answer is emptied, the identity is reset as
      `ResetIdentity` says, and every other field is kept. */
  function ClearForm(f: Form, me: Option<Json>): (r: Form)
    ensures forall k :: k in REQUIRED ==> k in r && r[k] == JStr("")
    ensures forall k :: k in f && !IsIdentity(k) && k != "nombre_y_id_discord" && k !in REQUIRED ==> k in r && r[k] == f[k]
  {
    BlankAll(ResetIdentity(f, me), REQUIRED)
  }

  /** The identity fields are not answers. */
  lemma IdentityIsNoAnswer(k: string)
    requires IsIdentity(k) || k == "nombre_y_id_discord"
    ensures k !in REQUIRED
  {
  }

  /** The form holds an identity: non-null fields and a boolean guild flag. */
  ghost predicate HoldsIdentity(f: Form) {
    && (forall k :: IsIdentity(k) ==> k in f && f[k] != JNull)
    && f["is_in_guild"].JBool?
  }

  /** "Limpiar" keeps the identity the form holds, when the visitor is
      signed out or the session holds the same identity. */
  lemma ClearKeepsIdentity(f: Form, me: Option<Json>, k: string)
    requires HoldsIdentity(f)
    requires me.None? || forall j :: IsIdentity(j) ==> OptProp(me, j) == Some(f[j])
    requires IsIdentity(k)
    ensures k in f && ClearForm(f, me)[k] == f[k]
  {
    IdentityIsNoAnswer(k);
    assert ClearForm(f, me)[k] == ResetIdentity(f, me)[k];
    if k == "is_in_guild" {
      KeptGuildFlag(f, me);
    } else {
      KeptField(f, me, k);
    }
  }

  lemma KeptField(f: Form, me: Option<Json>, k: string)
    requires k == "discord_id" || k == "discord_username" || k == "discord_avatar"
    requires k in f && f[k] != JNull
    requires OptProp(me, k).None? || OptProp(me, k) == Some(f[k])
    ensures ResetIdentity(f, me)[k] == f[k]
  {
  }

  lemma KeptGuildFlag(f: Form, me: Option<Json>)
    requires "is_in_guild" in f && f["is_in_guild"].JBool?
    requires OptProp(me, "is_in_guild").None? || OptProp(me, "is_in_guild") == Some(f["is_in_guild"])
    ensures ResetIdentity(f, me)["is_in_guild"] == f["is_in_guild"]
  {
  }

  /** After "Limpiar" the progress bar is back at 0. */
  lemma ClearedProgressIsZero(f: Form, me: Option<Json>)
    ensures Progress(ClearForm(f, me), REQUIRED) == 0
  {
    BlankedIsEmpty(ClearForm(f, me), REQUIRED);
    ProgressEmpty(ClearForm(f, me), REQUIRED);
  }

  // ---------------------------------------------------------------------
  // Against the server of backend/routes/wl.js

  /** Sign-in copies the session's identity into the form and, on this
      page, leaves `nombre_y_id_discord` as it was. */
  function SignIn(f: Form, u: Json): (r: Form)
    ensures Field(r, "nombre_y_id_discord") == Field(f, "nombre_y_id_discord")
    ensures forall k :: IsIdentity(k) ==> Field(r, k) == Prop(u, k)
  {
    SessionFields(f, u)
  }

  /** A form this page fills without "Limpiar" has no
      `nombre_y_id_discord`, which the shown server requires right after
      the identity: such a form, however complete, would be refused with
      `FALTA_nombre_y_id_discord`. */
  lemma NoNombreIsRefused(p: Form)
    requires "nombre_y_id_discord" !in p
    requires "discord_id" in p && p["discord_id"].JStr? && !IsBlank(p["discord_id"].s)
    requires "discord_username" in p && p["discord_username"].JStr? && !IsBlank(p["discord_username"].s)
    ensures WlRoutes.FirstMissing(p) == Some("nombre_y_id_discord")
  {
    var keys := WlRoutes.REQUIRED;
    assert keys[0] == "discord_id" && keys[1] == "discord_username" && keys[2] == "nombre_y_id_discord";
    assert WlRoutes.FirstMissingFrom(p, keys, 2) == Some(2);
    assert WlRoutes.FirstMissingFrom(p, keys, 1) == Some(2);
    assert WlRoutes.FirstMissingFrom(p, keys, 0) == Some(2);
  }
}
