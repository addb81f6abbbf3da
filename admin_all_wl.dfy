/** The read-only list of every application
    (frontend/src/pages/allWL/AdminAllWL.jsx): for the selected application
    the page reads the stored review notes (`notas_internas`) and shows the
    Steam check, which questions were marked right or wrong, and the
    reviewer's free-text notes. The search box and the staff test are the
    ones in `StaffPanel`. */
module AdminAllWl {
  import opened Common
  import JsCodecs
  import WlRoutes
  import AdminReview

  /** The questions this page shows, in page order. */
  const QUESTIONS: seq<string> := [
    "que_es_rp", "uso_me_do", "fair_play", "pg_y_mg", "reaccion_robo_policia",
    "que_harias_vdm", "que_harias_desconecta_secuestro", "minimo_policias_flecca",
    "como_robarias_base_militar", "caso_pinchan_ruedas", "rol_pensado", "historia_personaje"
  ]

  /** The members of the notes object the review route stores. */
  const SERVER_NOTE_KEYS: set<string> := {"decisiones", "notas", "score", "total", "pct", "aprobado", "fecha"}

  /** `notasInternas` as the page computes it from `selected.notas_internas`
      (`None` when the field is missing): a falsy field gives null; a string
      is parsed, and a text `JSON.parse` refuses gives null; any other value
      is used as it is. `None` stands for null. */
  function ParsedNotes(raw: Option<Json>): (r: Option<Json>)
    ensures !OptTruthy(raw) ==> r.None?
    ensures OptTruthy(raw) && !raw.value.JStr? ==> r == raw
    ensures OptTruthy(raw) && raw.value.JStr? ==> r == JsCodecs.JsonParse(raw.value.s)
  {
    if !OptTruthy(raw) then None
    else if raw.value.JStr? then JsCodecs.JsonParse(raw.value.s)
    else raw
  }

  // ---------------------------------------------------------------------
  // The Steam check

  datatype SteamChip = SteamOk | NoHours | NotPublic | Unverified

  /** The Steam chip: 'ok', 'no_hours' and 'private' have their own chips;
      anything else, including no notes, reads "(sin verificar)". */
  function SteamChipOf(raw: Option<Json>): (c: SteamChip)
    ensures var v := OptProp(ParsedNotes(raw), "steam_check");
            && (c == SteamOk <==> v == Some(JStr("ok")))
            && (c == NoHours <==> v == Some(JStr("no_hours")))
            && (c == NotPublic <==> v == Some(JStr("private")))
  {
    var v := OptProp(ParsedNotes(raw), "steam_check");
    if v == Some(JStr("ok")) then SteamOk
    else if v == Some(JStr("no_hours")) then NoHours
    else if v == Some(JStr("private")) then NotPublic
    else Unverified
  }

  /** The notes the review route writes have no `steam_check` member, so a
      reviewed application always shows "(sin verificar)". */
  lemma ServerNotesUnverified(members: seq<(string, Json)>)
    requires forall i :: 0 <= i < |members| ==> members[i].0 in SERVER_NOTE_KEYS
    ensures SteamChipOf(Some(JObj(members))) == Unverified
  {
    assert LookupMember(members, "steam_check").None?;
  }

  // ---------------------------------------------------------------------
  // Per-question marks

  datatype Mark = Correct | Wrong | Unmarked

  /** `notasInternas?.decisiones?.[key]`. */
  function StoredDecision(raw: Option<Json>, key: string): Option<Json> {
    OptProp(OptProp(ParsedNotes(raw), "decisiones"), key)
  }

  /** A question is shown right exactly when its stored decision is `true`
      and wrong exactly when it is `false`; a truthy value other than `true`
      leaves it unmarked. */
  function MarkOf(raw: Option<Json>, key: string): (m: Mark)
    ensures m == Correct <==> StoredDecision(raw, key) == Some(JBool(true))
    ensures m == Wrong <==> StoredDecision(raw, key) == Some(JBool(false))
  {
    match StoredDecision(raw, key)
    case Some(JBool(b)) => if b then Correct else Wrong
    case _ => Unmarked
  }

  /** On an application the server approved, every decided question shows
      right; on a rejected one, some decided question does not. */
  lemma ApprovedShowsAllCorrect(notes: seq<(string, Json)>, d: seq<(string, Json)>, key: string)
    requires LookupMember(notes, "decisiones") == Some(JObj(d))
    requires WlRoutes.AllTrue(d) && LookupMember(d, key).Some?
    ensures MarkOf(Some(JObj(notes)), key) == Correct
  {
  }

  /** No two members of a decisions object share a key (a parsed JSON
      object keeps only the last member of a repeated key). */
  predicate DistinctKeys(d: seq<(string, Json)>) {
    forall i, j :: 0 <= i < j < |d| ==> d[i].0 != d[j].0
  }

  /** On a rejected application, some question of a list that covers every
      decided key shows a mark other than right. */
  lemma RejectedShowsSomeNotCorrect(notes: seq<(string, Json)>, d: seq<(string, Json)>, shown: seq<string>)
    requires LookupMember(notes, "decisiones") == Some(JObj(d))
    requires !WlRoutes.AllTrue(d) && DistinctKeys(d)
    requires forall i :: 0 <= i < |d| ==> d[i].0 in shown
    ensures exists q :: q in shown && MarkOf(Some(JObj(notes)), q) != Correct
  {
    var i :| 0 <= i < |d| && d[i].1 != JBool(true);
    var k := d[i].0;
    var v := LookupMember(d, k);
    assert v == Some(d[i].1) by {
      var i' :| 0 <= i' < |d| && d[i'] == (k, v.value);
      assert i' == i;
    }
    assert StoredDecision(Some(JObj(notes)), k) == v;
  }

  /** A rejection decided only on a key the page does not list: every
      listed question whose decision is `true` still shows right. */
  lemma OffPageRejectionShowsAllCorrect(notes: seq<(string, Json)>, d0: seq<(string, Json)>, k: string, v: Json)
    requires LookupMember(notes, "decisiones") == Some(JObj(d0 + [(k, v)]))
    requires WlRoutes.AllTrue(d0) && k !in QUESTIONS && v != JBool(true)
    requires forall q :: q in QUESTIONS ==> LookupMember(d0, q).Some?
    ensures !WlRoutes.AllTrue(d0 + [(k, v)])
    ensures forall q :: q in QUESTIONS ==> MarkOf(Some(JObj(notes)), q) == Correct
  {
    var d := d0 + [(k, v)];
    assert d[|d| - 1].1 != JBool(true);
    assert d[..|d| - 1] == d0;
    forall q | q in QUESTIONS
      ensures MarkOf(Some(JObj(notes)), q) == Correct
    {
      assert LookupMember(d, q) == LookupMember(d0, q);
      var l :| 0 <= l < |d0| && d0[l] == (q, LookupMember(d0, q).value);
    }
  }

  /** As written the page lists no `tiempo_roleando`: an application
      rejected only on that question shows every listed question as right. */
  lemma TiempoRoleandoRejectionShowsAllCorrect(notes: seq<(string, Json)>)
    requires notes == [("decisiones", JObj(AdminReview.Fill(QUESTIONS, JBool(true))
                                           + [("tiempo_roleando", JBool(false))]))]
    ensures !WlRoutes.AllTrue(AdminReview.Fill(QUESTIONS, JBool(true)) + [("tiempo_roleando", JBool(false))])
    ensures forall q :: q in QUESTIONS ==> MarkOf(Some(JObj(notes)), q) == Correct
  {
    var d0 := AdminReview.Fill(QUESTIONS, JBool(true));
    forall q | q in QUESTIONS ensures LookupMember(d0, q).Some? {
      var j :| 0 <= j < |QUESTIONS| && QUESTIONS[j] == q;
      assert d0[j].0 == q;
    }
    TiempoRoleandoNotListed();
    OffPageRejectionShowsAllCorrect(notes, d0, "tiempo_roleando", JBool(false));
  }

  lemma TiempoRoleandoNotListed()
    ensures "tiempo_roleando" !in QUESTIONS
  {
  }

  /** The page's list with `tiempo_roleando` in the place the review page
      gives it. */
  const CORRECTED_QUESTIONS: seq<string> := [
    "que_es_rp", "uso_me_do", "fair_play", "pg_y_mg", "reaccion_robo_policia",
    "que_harias_vdm", "que_harias_desconecta_secuestro", "minimo_policias_flecca",
    "como_robarias_base_militar", "caso_pinchan_ruedas", "rol_pensado", "tiempo_roleando",
    "historia_personaje"
  ]

  lemma ReviewQuestionListed(k: string)
    requires k in AdminReview.QUESTIONS
    ensures k in CORRECTED_QUESTIONS
  {
    var j :| 0 <= j < |AdminReview.QUESTIONS| && AdminReview.QUESTIONS[j] == k;
    var place := [0, 1, 2, 3, 8, 9, 4, 5, 6, 7, 10, 11, 12];
    assert k == CORRECTED_QUESTIONS[place[j]];
  }

  /** With the corrected list, every application the review page rejected
      shows some question not right. */
  lemma CorrectedPageShowsRejection(notes: seq<(string, Json)>, d: seq<(string, Json)>)
    requires LookupMember(notes, "decisiones") == Some(JObj(d))
    requires !WlRoutes.AllTrue(d) && DistinctKeys(d)
    requires forall i :: 0 <= i < |d| ==> d[i].0 in AdminReview.QUESTIONS
    ensures exists q :: q in CORRECTED_QUESTIONS && MarkOf(Some(JObj(notes)), q) != Correct
  {
    forall i | 0 <= i < |d| ensures d[i].0 in CORRECTED_QUESTIONS {
      ReviewQuestionListed(d[i].0);
    }
    RejectedShowsSomeNotCorrect(notes, d, CORRECTED_QUESTIONS);
  }

  // ---------------------------------------------------------------------
  // The reviewer's notes

  datatype NotesView = Ninguna | Shown(text: string) | ReadError

  /** The notes box: "(ninguna)" without notes or with blank ones; the text
      when `notas` is a non-blank string; "(error al leer notas)" when the
      stored text does not parse, the record is null, or a truthy `notas` is
      not a string. */
  function NotesViewOf(raw: Option<Json>): (v: NotesView)
    ensures !OptTruthy(raw) ==> v == Ninguna
    ensures v.Shown? ==> !IsBlank(v.text)
    ensures v.Shown? ==> OptProp(ParsedNotes(raw), "notas") == Some(JStr(v.text))
    ensures OptTruthy(raw) && ParsedNotes(raw).None? ==> v == ReadError
  {
    if !OptTruthy(raw) then Ninguna
    else
      match ParsedNotes(raw)
      case None => ReadError
      case Some(JNull) => ReadError
      case Some(p) =>
        var notas := Prop(p, "notas");
        if !OptTruthy(notas) then Ninguna
        else if notas.value.JStr? then
          (if !IsBlank(notas.value.s) then Shown(notas.value.s) else Ninguna)
        else ReadError
  }

  /** Stored notes whose `notas` is a string are shown exactly when they are
      not blank. */
  lemma StringNotesShownIffNotBlank(members: seq<(string, Json)>, s: string)
    requires LookupMember(members, "notas") == Some(JStr(s))
    ensures NotesViewOf(Some(JObj(members))) == (if IsBlank(s) then Ninguna else Shown(s))
  {
    if s == "" {
      assert IsBlank(s) by { assert Trim("") == ""; }
    }
  }
}
