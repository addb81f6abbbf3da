/** The correction panel (frontend/src/pages/adminReview.jsx): a reviewer
    opens one pending application, marks each question right or wrong,
    states the Steam check, and asks to approve or reject. The page keeps
    the marks in a decisions object, tallies them, and refuses to send an
    approval until every question is marked, Steam is verified and no mark
    is wrong. The fetches are inputs; rendering is left out. */
module AdminReview {
  import opened Common
  import WlRoutes

  /** The questions the reviewer marks, in page order. */
  const QUESTIONS: seq<string> := [
    "que_es_rp", "uso_me_do", "fair_play", "pg_y_mg", "como_robarias_base_militar",
    "caso_pinchan_ruedas", "reaccion_robo_policia", "que_harias_vdm",
    "que_harias_desconecta_secuestro", "minimo_policias_flecca", "rol_pensado",
    "tiempo_roleando", "historia_personaje"
  ]

  const LOAD_ERROR: string := "Error cargando WL"
  const STEAM_BLOCK: string :=
    "No puedes aprobar: Steam no verificado (selecciona \"Steam OK (\U{2265}50h)\")."

  // ---------------------------------------------------------------------
  // The decisions object

  /** A JavaScript object as its members in insertion order; this is the
      order `Object.values` reports. */
  type Decisions = seq<(string, Json)>

  /** A mark as the page stores it: unmarked (`null`), right or wrong. */
  predicate IsMark(v: Json) {
    v == JNull || v.JBool?
  }

  function Keys(d: Decisions): (ks: seq<string>)
    ensures |ks| == |d| && forall i :: 0 <= i < |d| ==> ks[i] == d[i].0
  {
    seq(|d|, i requires 0 <= i < |d| => d[i].0)
  }

  /** The shape the page gives the object on opening an application: one
      member per question, in question order, each a mark. */
  predicate WellFormed(d: Decisions) {
    Keys(d) == QUESTIONS && forall i :: 0 <= i < |d| ==> IsMark(d[i].1)
  }

  /** The object a `forEach` over the questions builds: each key set to `v`. */
  function Fill(keys: seq<string>, v: Json): (d: Decisions)
    ensures |d| == |keys| && forall i :: 0 <= i < |d| ==> d[i] == (keys[i], v)
  {
    seq(|keys|, i requires 0 <= i < |keys| => (keys[i], v))
  }

  /** `{ ...d, [k]: v }`: a key already present keeps its place and takes
      the new value; a new key goes last. */
  function SetKey(d: Decisions, k: string, v: Json): (r: Decisions)
    ensures k in Keys(d) ==> Keys(r) == Keys(d)
    ensures k !in Keys(d) ==> r == d + [(k, v)]
    ensures forall i :: 0 <= i < |d| && d[i].0 != k ==> r[i] == d[i]
    ensures forall i :: 0 <= i < |r| && r[i].0 == k ==> r[i].1 == v
  {
    if k in Keys(d) then
      seq(|d|, i requires 0 <= i < |d| => if d[i].0 == k then (k, v) else d[i])
    else d + [(k, v)]
  }

  /** Marking one question keeps the object well formed and changes only
      that question's mark. */
  lemma SetKeyWellFormed(d: Decisions, k: string, v: Json)
    requires WellFormed(d) && k in QUESTIONS && IsMark(v)
    ensures WellFormed(SetKey(d, k, v))
  {
    var r := SetKey(d, k, v);
    assert Keys(r) == Keys(d);
    forall i | 0 <= i < |r| ensures IsMark(r[i].1) {
      assert Keys(r)[i] == r[i].0;
    }
  }

  // ---------------------------------------------------------------------
  // The tally

  /** How many values are exactly `v`. */
  function CountValue(d: Decisions, v: Json): (n: nat)
    ensures n <= |d|
    ensures n == 0 <==> forall i :: 0 <= i < |d| ==> d[i].1 != v
    ensures n == |d| <==> forall i :: 0 <= i < |d| ==> d[i].1 == v
    decreases |d|
  {
    if d == [] then 0
    else
      var rest := CountValue(d[1..], v);
      assert forall i :: 1 <= i < |d| ==> d[i] == d[1..][i - 1];
      (if d[0].1 == v then 1 else 0) + rest
  }

  /** How many values are not `null`. */
  function CountAnswered(d: Decisions): (n: nat)
    ensures n <= |d|
    ensures n == |d| <==> forall i :: 0 <= i < |d| ==> d[i].1 != JNull
    ensures n == 0 <==> forall i :: 0 <= i < |d| ==> d[i].1 == JNull
    decreases |d|
  {
    if d == [] then 0
    else
      var rest := CountAnswered(d[1..]);
      assert forall i :: 1 <= i < |d| ==> d[i] == d[1..][i - 1];
      (if d[0].1 != JNull then 1 else 0) + rest
  }

  /** Right and wrong marks are both answered ones; for marks, the answered
      ones are exactly the right and the wrong ones. */
  lemma {:induction false} MarksPartition(d: Decisions)
    ensures CountValue(d, JBool(true)) + CountValue(d, JBool(false)) <= CountAnswered(d)
    ensures (forall i :: 0 <= i < |d| ==> IsMark(d[i].1)) ==>
              CountValue(d, JBool(true)) + CountValue(d, JBool(false)) == CountAnswered(d)
    decreases |d|
  {
    if d != [] {
      MarksPartition(d[1..]);
      assert forall i :: 1 <= i < |d| ==> d[i] == d[1..][i - 1];
    }
  }

  datatype Tally = Tally(score: nat, total: nat, pct: int, wrong: nat, unanswered: int,
                         allAnswered: bool, allCorrect: bool)

  /** The tally of the decisions: right marks, wrong marks and unmarked
      questions out of all the questions, and the rounded percentage. */
  function TallyOf(d: Decisions): (t: Tally)
    ensures t.total == |QUESTIONS|
    ensures t.allCorrect ==> t.allAnswered
    ensures t.score + t.wrong <= t.total - t.unanswered
    ensures |d| <= |QUESTIONS| ==> t.unanswered >= 0
    ensures t.score <= |QUESTIONS| ==> 0 <= t.pct <= 100
  {
    MarksPartition(d);
    var total := |QUESTIONS|;
    var s := CountValue(d, JBool(true));
    var wrong := CountValue(d, JBool(false));
    var unanswered := total - CountAnswered(d);
    Tally(s, total, RoundPercent(s, total), wrong, unanswered, unanswered == 0,
          unanswered == 0 && wrong == 0)
  }

  /** On a well-formed object the three counts add up to the number of
      questions, the page's "all correct" is the server's approval rule,
      and 100% is reached exactly then. */
  lemma TallyWellFormed(d: Decisions)
    requires WellFormed(d)
    ensures var t := TallyOf(d);
            && t.score + t.wrong + t.unanswered == t.total
            && 0 <= t.unanswered <= t.total && 0 <= t.pct <= 100
            && (t.allCorrect <==> WlRoutes.AllTrue(d))
            && (t.pct == 100 <==> WlRoutes.AllTrue(d))
  {
    var t := TallyOf(d);
    assert |d| == |QUESTIONS|;
    MarksPartition(d);
    AllCorrectIffAllTrue(d);
    FullIffAll(t.score, |QUESTIONS|);
  }

  lemma AllCorrectIffAllTrue(d: Decisions)
    requires WellFormed(d)
    ensures TallyOf(d).allCorrect <==> WlRoutes.AllTrue(d)
  {
    var t := TallyOf(d);
    assert |d| == |QUESTIONS|;
    MarksPartition(d);
    if t.allCorrect {
      forall i | 0 <= i < |d| ensures d[i].1 == JBool(true) {
        assert d[i].1 != JNull && d[i].1 != JBool(false);
        assert IsMark(d[i].1);
      }
    }
  }

  /** Before any application is opened the object is empty: nothing is
      answered and approval is out of reach. */
  lemma EmptyTally()
    ensures TallyOf([]).unanswered == |QUESTIONS| && !TallyOf([]).allAnswered
  {
  }

  // ---------------------------------------------------------------------
  // The approval gate

  function MissingMarks(n: int): string {
    "No puedes aprobar: faltan " + IntToString(n) + " pregunta(s) por marcar."
  }

  function WrongMarks(n: nat): string {
    "No puedes aprobar: hay " + NatToString(n) + " respuesta(s) incorrecta(s)."
  }

  /** The message that stops `approve(ok)` before anything is sent, if any:
      checked in order, unmarked questions, then a Steam check other than
      'ok', then wrong marks. Rejecting is never stopped. */
  function Block(ok: bool, t: Tally, steamCheck: Option<string>): (m: Option<string>)
    ensures m.None? <==> !ok || (t.allAnswered && t.allCorrect && steamCheck == Some("ok"))
    ensures ok && !t.allAnswered ==> m == Some(MissingMarks(t.unanswered))
    ensures ok && t.allAnswered && steamCheck != Some("ok") ==> m == Some(STEAM_BLOCK)
    ensures ok && t.allAnswered && steamCheck == Some("ok") && !t.allCorrect ==> m == Some(WrongMarks(t.wrong))
  {
    if !ok then None
    else if !t.allAnswered then Some(MissingMarks(t.unanswered))
    else if steamCheck != Some("ok") then Some(STEAM_BLOCK)
    else if !t.allCorrect then Some(WrongMarks(t.wrong))
    else None
  }

  /** An approval that gets past the gate carries a verified Steam check and
      decisions the server approves. */
  lemma SentApprovalIsApproved(d: Decisions, steamCheck: Option<string>, row: WlRoutes.Row,
                               notes: string, reviewer: string, now: int)
    requires WellFormed(d) && Block(true, TallyOf(d), steamCheck).None?
    ensures steamCheck == Some("ok") && WlRoutes.AllTrue(d)
    ensures WlRoutes.ReviewedRow(row, d, JStr(notes), reviewer, now).estado == WlRoutes.Aprobada
  {
    TallyWellFormed(d);
  }

  /** The server never reads `aprobar`: a "reject" sent with every question
      marked right still approves the application. */
  lemma RejectWithAllRightApproves(d: Decisions, steamCheck: Option<string>, row: WlRoutes.Row,
                                   notes: string, reviewer: string, now: int)
    requires WlRoutes.AllTrue(d)
    ensures Block(false, TallyOf(d), steamCheck).None?
    ensures WlRoutes.ReviewedRow(row, d, JStr(notes), reviewer, now).estado == WlRoutes.Aprobada
  {
  }

  // ---------------------------------------------------------------------
  // The panel

  /** The detail request: the application, or the error's message. */
  datatype Fetched = Loaded(data: Json) | Failed(message: string)

  /** The body of the review request. */
  datatype ReviewRequest = ReviewRequest(id: Option<Json>, decisions: Decisions, notas: string,
                                         steamCheck: Option<string>, aprobar: bool)

  class ReviewPanel {
    var sel: Option<Json>
    var dec: Decisions
    var notes: string
    var steamCheck: Option<string>
    var msg: string

    constructor()
      ensures sel == None && dec == [] && notes == "" && steamCheck == None && msg == ""
    {
      sel := None;
      dec := [];
      notes := "";
      steamCheck := None;
      msg := "";
    }

    /** The panel's decisions are empty before the first application is
        opened and well formed afterwards. */
    predicate Valid()
      reads this
    {
      dec == [] || WellFormed(dec)
    }

    /** `if (!sel) return;` */
    predicate HasSelection()
      reads this
    {
      sel.Some? && Truthy(sel.value)
    }

    /** `openOne`: a loaded application becomes the selection with every
        question unmarked, empty notes and no Steam check; a failed load
        clears the selection and shows the error. */
    method OpenOne(fetched: Fetched)
      modifies this
      ensures fetched.Loaded? ==>
        && sel == Some(fetched.data) && dec == Fill(QUESTIONS, JNull)
        && notes == "" && steamCheck == None && msg == ""
      ensures fetched.Failed? ==>
        && sel == None && dec == old(dec) && notes == old(notes) && steamCheck == old(steamCheck)
        && msg == (if fetched.message != "" then fetched.message else LOAD_ERROR)
      ensures fetched.Loaded? ==> WellFormed(dec) && CountAnswered(dec) == 0
      ensures old(Valid()) ==> Valid()
    {
      msg := "";
      match fetched
      case Failed(m) =>
        sel := None;
        msg := if m != "" then m else LOAD_ERROR;
      case Loaded(data) =>
        sel := Some(data);
        var init: Decisions := [];
        var i := 0;
        while i < |QUESTIONS|
          invariant 0 <= i <= |QUESTIONS|
          invariant init == Fill(QUESTIONS[..i], JNull)
        {
          init := init + [(QUESTIONS[i], JNull)];
          i := i + 1;
        }
        assert QUESTIONS[..|QUESTIONS|] == QUESTIONS;
        dec := init;
        notes := "";
        steamCheck := None;
        assert Keys(dec) == QUESTIONS;
    }

    /** `setAll(val)`: with an application open, every question takes the
        mark `val`; otherwise nothing happens. */
    method SetAll(val: Json)
      modifies this
      ensures HasSelection() ==> dec == Fill(QUESTIONS, val)
      ensures !HasSelection() ==> dec == old(dec)
      ensures sel == old(sel) && notes == old(notes) && steamCheck == old(steamCheck) && msg == old(msg)
      ensures HasSelection() && IsMark(val) ==> WellFormed(dec)
      ensures HasSelection() && val == JBool(true) ==> WlRoutes.AllTrue(dec)
    {
      if !HasSelection() {
        return;
      }
      var next: Decisions := [];
      for i := 0 to |QUESTIONS|
        invariant next == Fill(QUESTIONS[..i], val)
      {
        next := next + [(QUESTIONS[i], val)];
      }
      assert QUESTIONS[..|QUESTIONS|] == QUESTIONS;
      dec := next;
      assert Keys(dec) == QUESTIONS;
    }

    /** `toggle(k, val)`: only question `k` changes. */
    method Toggle(k: string, val: Json)
      modifies this
      ensures dec == SetKey(old(dec), k, val)
      ensures sel == old(sel) && notes == old(notes) && steamCheck == old(steamCheck) && msg == old(msg)
      ensures old(WellFormed(dec)) && k in QUESTIONS && IsMark(val) ==> WellFormed(dec)
    {
      if WellFormed(dec) && k in QUESTIONS && IsMark(val) {
        SetKeyWellFormed(dec, k, val);
      }
      dec := SetKey(dec, k, val);
    }

    /** `approve(ok)`: without a selection nothing happens; a blocked
        approval shows why and sends nothing; otherwise the message is
        cleared and the decisions, notes, Steam check and `ok` are sent. */
    method Approve(ok: bool) returns (sent: Option<ReviewRequest>)
      modifies this
      ensures sel == old(sel) && dec == old(dec) && notes == old(notes) && steamCheck == old(steamCheck)
      ensures sent.Some? <==> HasSelection() && Block(ok, TallyOf(dec), steamCheck).None?
      ensures sent.Some? ==> sent.value == ReviewRequest(Prop(sel.value, "id"), dec, notes, steamCheck, ok)
                             && msg == ""
      ensures HasSelection() && Block(ok, TallyOf(dec), steamCheck).Some? ==>
                msg == Block(ok, TallyOf(dec), steamCheck).value
      ensures !HasSelection() ==> msg == old(msg)
      ensures sent.Some? && ok && WellFormed(dec) ==> WlRoutes.AllTrue(dec) && steamCheck == Some("ok")
    {
      if !HasSelection() {
        return None;
      }
      var block := Block(ok, TallyOf(dec), steamCheck);
      if block.Some? {
        msg := block.value;
        return None;
      }
      msg := "";
      sent := Some(ReviewRequest(Prop(sel.value, "id"), dec, notes, steamCheck, ok));
      if ok && WellFormed(dec) {
        TallyWellFormed(dec);
      }
    }
  }
}
