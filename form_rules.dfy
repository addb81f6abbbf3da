/** The validation both applicant forms share (frontend/src/App.jsx and
    src/App.jsx define the same helpers): the field validators `req`, `len`,
    `numRange` and `urlSteam`, the rule table run over the form, the field
    reported first, the progress bar, and the draft saved between visits.
    A form is the page's state object: field name to value. */
module FormRules {
  import opened Common

  type Form = map<string, Json>

  /** `form[k]`: `None` when the form has no such field. */
  function Field(f: Form, k: string): Option<Json> {
    if k in f then Some(f[k]) else None
  }

  /** `String(v || "")`. */
  function TextOf(v: Option<Json>): (s: string)
    ensures v.Some? && v.value.JStr? ==> s == v.value.s
    ensures !OptTruthy(v) ==> s == ""
  {
    if OptTruthy(v) then ToStr(v.value) else ""
  }

  /** A field the progress bar counts: its text is not blank. */
  predicate Filled(v: Option<Json>) {
    !IsBlank(TextOf(v))
  }

  // ---------------------------------------------------------------------
  // The validators; each returns "" when the value passes, else a message

  const REQUERIDO := "Requerido"
  const SOLO_NUMEROS := "Solo números"
  const STEAM_INVALIDO := "Pega un enlace de Steam válido"

  /** `req`: the value must not be blank. */
  function Req(v: Option<Json>): (m: string)
    ensures m == "" <==> Filled(v)
    ensures m != "" ==> m == REQUERIDO
  {
    if Trim(TextOf(v)) != "" then "" else REQUERIDO
  }

  /** `len`: the trimmed value must have between `min` and `max`
      characters. */
  function Len(v: Option<Json>, min: nat, max: nat, msg: string): (m: string)
    requires msg != ""
    ensures m == "" <==> min <= |Trim(TextOf(v))| <= max
    ensures m != "" ==> m == msg
  {
    var n := |Trim(TextOf(v))|;
    if n < min || n > max then msg else ""
  }

  /** `/^\d{1,2}$/`: one or two ASCII digits and nothing else. */
  predicate IsShortNumber(s: string) {
    1 <= |s| <= 2 && AllDigits(s)
  }

  /** `numRange`: the trimmed value must be a one- or two-digit number,
      else "Solo números"; its value must lie in `min..max`, else `msg`. */
  function NumRange(v: Option<Json>, min: nat, max: nat, msg: string): (m: string)
    requires msg != ""
    ensures var s := Trim(TextOf(v));
            && (m == "" <==> IsShortNumber(s) && min <= DigitsValue(s) <= max)
            && (!IsShortNumber(s) ==> m == SOLO_NUMEROS)
            && (IsShortNumber(s) && m != "" ==> m == msg)
  {
    var s := Trim(TextOf(v));
    if !IsShortNumber(s) then SOLO_NUMEROS
    else
      var n := DigitsValue(s);
      if n < min || n > max then msg else ""
  }

  // The Steam link

  /** `s` starts with `p` when upper-case ASCII letters of `s` are read as
      lower case (`p` is written in lower case). */
  predicate CiPrefix(s: string, p: string) {
    |p| <= |s| && forall k :: 0 <= k < |p| ==> LowerChar(s[k]) == p[k]
  }

  /** The spellings `/^https?:\/\/(steamcommunity\.com|store\.steampowered\.com)\//i`
      allows at the start of a link, written in lower case. */
  const STEAM_PREFIXES: seq<string> := [
    "http://steamcommunity.com/", "https://steamcommunity.com/",
    "http://store.steampowered.com/", "https://store.steampowered.com/"
  ]

  /** A Steam profile or store link, letters in any case. */
  predicate SteamLink(s: string) {
    CiPrefix(s, STEAM_PREFIXES[0]) || CiPrefix(s, STEAM_PREFIXES[1])
    || CiPrefix(s, STEAM_PREFIXES[2]) || CiPrefix(s, STEAM_PREFIXES[3])
  }

  /** `urlSteam`: the trimmed link, lower-cased, must start with one of the
      Steam profile or store addresses. */
  function UrlSteam(v: Option<Json>): (m: string)
    ensures m == "" <==> SteamLink(Trim(TextOf(v)))
    ensures m != "" ==> m == STEAM_INVALIDO
  {
    SteamText(Trim(TextOf(v)))
  }

  /** The check of `urlSteam` on the trimmed text. */
  function SteamText(s: string): (m: string)
    ensures m == "" <==> SteamLink(s)
    ensures m != "" ==> m == STEAM_INVALIDO
  {
    var l := ToLower(s);
    LowerPrefix(s, STEAM_PREFIXES[0]);
    LowerPrefix(s, STEAM_PREFIXES[1]);
    LowerPrefix(s, STEAM_PREFIXES[2]);
    LowerPrefix(s, STEAM_PREFIXES[3]);
    if StartsWith(l, STEAM_PREFIXES[0]) || StartsWith(l, STEAM_PREFIXES[1])
       || StartsWith(l, STEAM_PREFIXES[2]) || StartsWith(l, STEAM_PREFIXES[3])
    then "" else STEAM_INVALIDO
  }

  /** Reading the lower-cased text is reading the text ignoring case. */
  lemma {:induction false} LowerPrefix(s: string, p: string)
    ensures StartsWith(ToLower(s), p) <==> CiPrefix(s, p)
    decreases |p|
  {
    if p != [] && |p| <= |s| {
      LowerPrefix(s[1..], p[1..]);
      var l := ToLower(s);
      assert ToLower(s[1..]) == l[1..];
      assert l[..|p|] == [l[0]] + l[1..][..|p| - 1];
      assert p == [p[0]] + p[1..];
    }
  }

  /** Lower-casing a text first changes nothing for a case-insensitive
      prefix. */
  lemma {:induction false} CiPrefixOfLower(s: string, p: string)
    ensures CiPrefix(ToLower(s), p) <==> CiPrefix(s, p)
    decreases |p|
  {
    if p != [] && |p| <= |s| {
      CiPrefixOfLower(s[1..], p[1..]);
      assert ToLower(s[1..]) == ToLower(s)[1..];
    }
  }

  /** The `i` flag: a link is accepted or refused whatever the case of its
      letters. */
  lemma SteamLinkIgnoresCase(s: string)
    ensures SteamLink(ToLower(s)) <==> SteamLink(s)
  {
    CiPrefixOfLower(s, STEAM_PREFIXES[0]);
    CiPrefixOfLower(s, STEAM_PREFIXES[1]);
    CiPrefixOfLower(s, STEAM_PREFIXES[2]);
    CiPrefixOfLower(s, STEAM_PREFIXES[3]);
  }

  /** The `minimo_policias_flecca` rule: `String(v).trim()` must be one or
      two digits. It converts without `|| ""`, so a missing value reads
      "undefined" and fails. */
  function Flecca(v: Option<Json>, msg: string): (m: string)
    requires msg != ""
    ensures m == "" <==> IsShortNumber(Trim(Interp(v)))
    ensures m != "" ==> m == msg
  {
    if IsShortNumber(Trim(Interp(v))) then "" else msg
  }

  // ---------------------------------------------------------------------
  // Rules

  /** The shapes of the entries of a `RULES` table. */
  datatype Rule =
    | Required                                  // req(v)
    | Length(min: nat, max: nat, msg: string)   // len(v, min, max, msg)
    | Age(min: nat, max: nat, msg: string)      // req(v) || numRange(v, min, max, msg)
    | Steam                                     // req(v) || urlSteam(v)
    | ShortNumber(msg: string)                  // the flecca rule

  predicate WellFormed(r: Rule) {
    match r
    case Length(_, _, msg) => msg != ""
    case Age(_, _, msg) => msg != ""
    case ShortNumber(msg) => msg != ""
    case _ => true
  }

  /** What each rule accepts, stated on the trimmed text. */
  predicate Accepts(r: Rule, v: Option<Json>) {
    var s := Trim(TextOf(v));
    match r
    case Required => s != ""
    case Length(min, max, _) => min <= |s| <= max
    case Age(min, max, _) => IsShortNumber(s) && min <= DigitsValue(s) <= max
    case Steam => SteamLink(s)
    case ShortNumber(_) => IsShortNumber(Trim(Interp(v)))
  }

  /** Running a rule gives "" exactly when the rule accepts the value. */
  function Run(r: Rule, v: Option<Json>): (m: string)
    requires WellFormed(r)
    ensures m == "" <==> Accepts(r, v)
    ensures r.Age? && !Filled(v) ==> m == REQUERIDO
    ensures r.Age? && Filled(v) && !IsShortNumber(Trim(TextOf(v))) ==> m == SOLO_NUMEROS
  {
    match r
    case Required => Req(v)
    case Length(min, max, msg) => Len(v, min, max, msg)
    case Age(min, max, msg) => AgeRule(v, min, max, msg)
    case Steam => SteamRule(v)
    case ShortNumber(msg) => Flecca(v, msg)
  }

  /** `req(v) || numRange(v, min, max, msg)`. */
  function AgeRule(v: Option<Json>, min: nat, max: nat, msg: string): (m: string)
    requires msg != ""
    ensures var s := Trim(TextOf(v));
            m == "" <==> IsShortNumber(s) && min <= DigitsValue(s) <= max
    ensures !Filled(v) ==> m == REQUERIDO
    ensures Filled(v) && !IsShortNumber(Trim(TextOf(v))) ==> m == SOLO_NUMEROS
  {
    if Req(v) != "" then Req(v) else NumRange(v, min, max, msg)
  }

  /** `req(v) || urlSteam(v)`. */
  function SteamRule(v: Option<Json>): (m: string)
    ensures m == "" <==> SteamLink(Trim(TextOf(v)))
  {
    if Req(v) != "" then
      NoSteamInEmpty();
      Req(v)
    else UrlSteam(v)
  }

  lemma NoSteamInEmpty()
    ensures !SteamLink("")
  {
  }

  /** Every rule of the tables that passes on a text value leaves the field
      filled, so a form that passes shows a full progress bar. */
  predicate DemandsText(r: Rule) {
    r.Length? ==> r.min >= 1
  }

  lemma AcceptedIsFilled(r: Rule, v: Option<Json>)
    requires DemandsText(r) && (v.None? || v.value.JStr?)
    requires Accepts(r, v)
    ensures Filled(v)
  {
    match r
    case Required =>
    case Length(_, _, _) => LengthIsFilled(r, v);
    case Age(_, _, _) => AgeIsFilled(r, v);
    case Steam => SteamIsFilled(r, v);
    case ShortNumber(_) => ShortNumberIsFilled(r, v);
  }

  lemma LengthIsFilled(r: Rule, v: Option<Json>)
    requires r.Length? && r.min >= 1 && Accepts(r, v)
    ensures Filled(v)
  {
  }

  lemma AgeIsFilled(r: Rule, v: Option<Json>)
    requires r.Age? && Accepts(r, v)
    ensures Filled(v)
  {
  }

  lemma SteamIsFilled(r: Rule, v: Option<Json>)
    requires r.Steam? && Accepts(r, v)
    ensures Filled(v)
  {
  }

  lemma ShortNumberIsFilled(r: Rule, v: Option<Json>)
    requires r.ShortNumber? && (v.None? || v.value.JStr?) && Accepts(r, v)
    ensures Filled(v)
  {
    if v.None? {
      UndefinedIsNotANumber();
    } else {
      assert Interp(v) == TextOf(v);
    }
  }

  /** "undefined" is not one or two digits. */
  lemma UndefinedIsNotANumber()
    ensures !IsShortNumber(Trim(Interp(None)))
  {
    var u := "undefined";
    assert Interp(None) == u;
    NoSpace(u);
    assert |u| > 2;
  }

  /** A string without white space is its own trim. */
  lemma NoSpace(s: string)
    requires forall k :: 0 <= k < |s| ==> !IsJsSpace(s[k])
    ensures Trim(s) == s
  {
    assert TrimStart(s) == s;
    assert TrimEnd(s) == s;
  }

  /** The messages of a rule table on a form, in table order. */
  function Errors(rules: seq<(string, Rule)>, form: Form): (e: seq<(string, string)>)
    requires forall i :: 0 <= i < |rules| ==> WellFormed(rules[i].1)
    ensures |e| == |rules|
    decreases |rules|
  {
    if rules == [] then []
    else
      var last := rules[|rules| - 1];
      Errors(rules[..|rules| - 1], form) + [(last.0, Run(last.1, Field(form, last.0)))]
  }

  /** Each message is the rule's verdict on its own field. */
  lemma {:induction false} ErrorAt(rules: seq<(string, Rule)>, form: Form, j: nat)
    requires forall i :: 0 <= i < |rules| ==> WellFormed(rules[i].1)
    requires j < |rules|
    ensures Errors(rules, form)[j] == (rules[j].0, Run(rules[j].1, Field(form, rules[j].0)))
    decreases |rules|
  {
    var init := rules[..|rules| - 1];
    var last := rules[|rules| - 1];
    assert Errors(rules, form) == Errors(init, form) + [(last.0, Run(last.1, Field(form, last.0)))];
    if j < |rules| - 1 {
      ErrorAt(init, form, j);
      assert init[j] == rules[j];
    }
  }

  /** `Object.keys(RULES)` in table order, each run on `form[k]`: the
      `forEach` that fills `nextErrors`. */
  method Validate(rules: seq<(string, Rule)>, form: Form) returns (errors: seq<(string, string)>)
    requires forall i :: 0 <= i < |rules| ==> WellFormed(rules[i].1)
    ensures errors == Errors(rules, form)
  {
    errors := [];
    for i := 0 to |rules|
      invariant errors == Errors(rules[..i], form)
    {
      var k := rules[i].0;
      assert rules[..i + 1][..i] == rules[..i];
      errors := errors + [(k, Run(rules[i].1, Field(form, k)))];
    }
    assert rules[..|rules|] == rules;
  }

  /** `Object.keys(nextErrors).find(k => nextErrors[k])`, from index `i`. */
  function FirstBadFrom(errors: seq<(string, string)>, i: nat): (r: Option<nat>)
    requires i <= |errors|
    ensures r.Some? ==> i <= r.value < |errors| && errors[r.value].1 != ""
                        && forall j :: i <= j < r.value ==> errors[j].1 == ""
    ensures r.None? <==> forall j :: i <= j < |errors| ==> errors[j].1 == ""
    decreases |errors| - i
  {
    if i == |errors| then None
    else if errors[i].1 != "" then Some(i)
    else FirstBadFrom(errors, i + 1)
  }

  /** The field the page scrolls to: the first key, in table order, whose
      message is not empty. */
  function FirstBad(errors: seq<(string, string)>): (r: Option<string>)
    ensures r.None? <==> forall j :: 0 <= j < |errors| ==> errors[j].1 == ""
    ensures r.Some? ==> exists i :: 0 <= i < |errors| && errors[i].0 == r.value && errors[i].1 != ""
                                    && forall j :: 0 <= j < i ==> errors[j].1 == ""
  {
    match FirstBadFrom(errors, 0)
    case None => None
    case Some(i) => Some(errors[i].0)
  }

  /** Where `handleSubmit` stops before anything is sent. */
  datatype Step =
    | NotSignedIn                                          // "Primero entra con Discord."
    | FixFields(first: string, errors: seq<(string, string)>)  // "Revisa los campos marcados en rojo."
    | Proceed

  /** All rules of a table accept the form. */
  predicate AllAccepted(rules: seq<(string, Rule)>, form: Form) {
    forall i :: 0 <= i < |rules| ==> Accepts(rules[i].1, Field(form, rules[i].0))
  }

  /** The gate at the top of `handleSubmit`: a visitor who has not signed in
      is stopped; otherwise every rule runs, and the form goes on exactly
      when all accept; if not, the first rejected field in table order is
      reported. */
  method Gate(rules: seq<(string, Rule)>, me: Option<Json>, form: Form) returns (step: Step)
    requires forall i :: 0 <= i < |rules| ==> WellFormed(rules[i].1)
    ensures !OptTruthy(me) <==> step == NotSignedIn
    ensures OptTruthy(me) ==> (step == Proceed <==> AllAccepted(rules, form))
    ensures step.FixFields? ==>
              exists i :: 0 <= i < |rules| && rules[i].0 == step.first && !Accepts(rules[i].1, Field(form, rules[i].0))
                          && forall j :: 0 <= j < i ==> Accepts(rules[j].1, Field(form, rules[j].0))
  {
    if !OptTruthy(me) {
      return NotSignedIn;
    }
    var errors := Validate(rules, form);
    var bad := FirstBad(errors);
    if bad.Some? {
      var i :| 0 <= i < |errors| && errors[i].0 == bad.value && errors[i].1 != ""
               && forall j :: 0 <= j < i ==> errors[j].1 == "";
      ErrorAt(rules, form, i);
      forall j | 0 <= j < i
        ensures Accepts(rules[j].1, Field(form, rules[j].0))
      {
        ErrorAt(rules, form, j);
      }
      step := FixFields(bad.value, errors);
    } else {
      forall j | 0 <= j < |rules|
        ensures Accepts(rules[j].1, Field(form, rules[j].0))
      {
        ErrorAt(rules, form, j);
      }
      step := Proceed;
    }
  }

  // ---------------------------------------------------------------------
  // Progress

  /** How many of the flags are set. */
  function CountTrue(bs: seq<bool>): (n: nat)
    ensures n <= |bs|
    ensures n == |bs| <==> forall i :: 0 <= i < |bs| ==> bs[i]
    ensures n == 0 <==> forall i :: 0 <= i < |bs| ==> !bs[i]
    decreases |bs|
  {
    if bs == [] then 0
    else
      assert forall i :: 1 <= i < |bs| ==> bs[1..][i - 1] == bs[i];
      (if bs[0] then 1 else 0) + CountTrue(bs[1..])
  }

  /** Which of `keys` are filled. */
  function FilledFlags(form: Form, keys: seq<string>): (bs: seq<bool>)
    ensures |bs| == |keys|
    ensures forall i :: 0 <= i < |keys| ==> bs[i] == Filled(Field(form, keys[i]))
  {
    seq(|keys|, i requires 0 <= i < |keys| => Filled(Field(form, keys[i])))
  }

  /** `required.filter(k => String(form[k] || "").trim() !== "").length`. */
  function CountFilled(form: Form, keys: seq<string>): (n: nat)
    ensures n <= |keys|
    ensures n == |keys| <==> forall i :: 0 <= i < |keys| ==> Filled(Field(form, keys[i]))
    ensures n == 0 <==> forall i :: 0 <= i < |keys| ==> !Filled(Field(form, keys[i]))
  {
    CountTrue(FilledFlags(form, keys))
  }

  /** The progress bar: the rounded percentage of filled required fields. */
  function Progress(form: Form, keys: seq<string>): (p: int)
    ensures 0 <= p <= 100
  {
    RoundPercent(CountFilled(form, keys), |keys|)
  }

  /** With no field filled the bar shows 0. */
  lemma ProgressEmpty(form: Form, keys: seq<string>)
    requires CountFilled(form, keys) == 0
    ensures Progress(form, keys) == 0
  {
    RoundZero(|keys|);
  }

  /** With fewer than 200 fields, the bar is full exactly when every field
      is filled (rounding cannot reach 100 with one field empty). */
  lemma ProgressFull(form: Form, keys: seq<string>)
    requires 0 < |keys| < 200
    ensures Progress(form, keys) == 100 <==> forall i :: 0 <= i < |keys| ==> Filled(Field(form, keys[i]))
  {
    FullIffAll(CountFilled(form, keys), |keys|);
  }

  // ---------------------------------------------------------------------
  // The saved draft

  /** The identity fields the page fills from the session. */
  predicate IsIdentity(k: string) {
    k == "discord_id" || k == "discord_username" || k == "discord_avatar" || k == "is_in_guild"
  }

  /** The draft written to storage: the form with the identity fields
      reset, so that a draft never carries a signed-in identity. */
  function SavedDraft(f: Form): (d: Form)
    ensures d.Keys == f.Keys + {"discord_id", "discord_username", "discord_avatar", "is_in_guild"}
    ensures d["discord_id"] == JStr("") && d["discord_username"] == JStr("")
    ensures d["discord_avatar"] == JNull && d["is_in_guild"] == JBool(false)
    ensures forall k :: k in f && !IsIdentity(k) ==> d[k] == f[k]
  {
    f["discord_id" := JStr("")]["discord_username" := JStr("")]["discord_avatar" := JNull]["is_in_guild" := JBool(false)]
  }

  /** The members of a parsed object as a map, the last duplicate winning. */
  function MembersMap(ms: seq<(string, Json)>): (m: Form)
    ensures forall k :: k in m <==> LookupMember(ms, k).Some?
    ensures forall k :: k in m ==> m[k] == LookupMember(ms, k).value
  {
    map k | k in (set i | 0 <= i < |ms| :: ms[i].0) :: LookupMember(ms, k).value
  }

  /** `setForm(f => ({ ...f, ...JSON.parse(raw) }))` for the stored draft,
      already parsed (`None` when there is none or it does not parse): an
      object's members replace the form's fields; any other value adds
      nothing. */
  function LoadDraft(f: Form, parsed: Option<Json>): (r: Form)
    ensures parsed.Some? && parsed.value.JObj? ==>
              r.Keys == f.Keys + MembersMap(parsed.value.members).Keys
              && forall k :: k in r ==> r[k] == if LookupMember(parsed.value.members, k).Some?
                                               then LookupMember(parsed.value.members, k).value else f[k]
    ensures !(parsed.Some? && parsed.value.JObj?) ==> r == f
  {
    match parsed
    case Some(JObj(ms)) => f + MembersMap(ms)
    case _ => f
  }

  /** Loading a draft the page saved restores every answer of the form it
      was saved from, keeps the current form's other fields, and resets the
      identity, whatever identity the current form held. */
  lemma DraftRestoresAnswers(f: Form, g: Form, ms: seq<(string, Json)>, k: string)
    requires MembersMap(ms) == SavedDraft(f)
    ensures var r := LoadDraft(g, Some(JObj(ms)));
            && (k in f && !IsIdentity(k) ==> r[k] == f[k])
            && (k in g && k !in f && !IsIdentity(k) ==> r[k] == g[k])
            && r["discord_id"] == JStr("") && r["discord_username"] == JStr("")
            && r["discord_avatar"] == JNull && r["is_in_guild"] == JBool(false)
  {
    var d := SavedDraft(f);
    assert LookupMember(ms, "discord_id").Some? by { assert "discord_id" in d; }
    assert LookupMember(ms, "discord_username").Some? by { assert "discord_username" in d; }
    assert LookupMember(ms, "discord_avatar").Some? by { assert "discord_avatar" in d; }
    assert LookupMember(ms, "is_in_guild").Some? by { assert "is_in_guild" in d; }
    if k in f && !IsIdentity(k) {
      assert k in d;
    }
    if k in g && k !in f && !IsIdentity(k) {
      assert k !in d;
    }
  }

  // ---------------------------------------------------------------------
  // Form updates both pages make

  /** `{ ...f, discord_id: u.discord_id, ... }` for the four identity
      fields of the session user `u`; a field `u` lacks is `undefined`,
      which reads as a missing field. */
  function SessionFields(f: Form, u: Json): (r: Form)
    ensures forall k :: IsIdentity(k) ==> Field(r, k) == Prop(u, k)
    ensures forall k :: !IsIdentity(k) ==> Field(r, k) == Field(f, k)
  {
    SetField(SetField(SetField(SetField(f,
      "discord_id", Prop(u, "discord_id")),
      "discord_username", Prop(u, "discord_username")),
      "discord_avatar", Prop(u, "discord_avatar")),
      "is_in_guild", Prop(u, "is_in_guild"))
  }

  /** `{ ...f, [k]: v }`, where an `undefined` value reads as a missing
      field. */
  function SetField(f: Form, k: string, v: Option<Json>): (r: Form)
    ensures Field(r, k) == v
    ensures forall j :: j != k ==> Field(r, j) == Field(f, j)
  {
    if v.Some? then f[k := v.value] else f - {k}
  }

  /** Every key of `keys` set to the empty string, the rest kept. */
  function BlankAll(f: Form, keys: seq<string>): (r: Form)
    ensures forall k :: k in keys ==> k in r && r[k] == JStr("")
    ensures forall k :: k !in keys ==> (k in r <==> k in f) && (k in f ==> r[k] == f[k])
    decreases |keys|
  {
    if keys == [] then f else BlankAll(f[keys[0] := JStr("")], keys[1..])
  }

  /** A key outside `keys` reads the same after blanking. */
  lemma BlankAllKeeps(f: Form, keys: seq<string>, k: string)
    requires k !in keys
    ensures Field(BlankAll(f, keys), k) == Field(f, k)
  {
  }

  /** The count is one when only the first field is filled. */
  lemma CountFirstOnly(form: Form, keys: seq<string>)
    requires |keys| > 0 && Filled(Field(form, keys[0])) && CountFilled(form, keys[1..]) == 0
    ensures CountFilled(form, keys) == 1
  {
    FlagsTail(form, keys);
    var bs := FilledFlags(form, keys);
    assert CountTrue(bs) == 1 + CountTrue(bs[1..]);
  }

  lemma FlagsTail(form: Form, keys: seq<string>)
    requires |keys| > 0
    ensures FilledFlags(form, keys)[1..] == FilledFlags(form, keys[1..])
  {
    var a := FilledFlags(form, keys)[1..];
    var b := FilledFlags(form, keys[1..]);
    forall i | 0 <= i < |a|
      ensures a[i] == b[i]
    {
      assert keys[1..][i] == keys[i + 1];
    }
  }

  /** No blanked field counts as filled. */
  lemma BlankedIsEmpty(r: Form, keys: seq<string>)
    requires forall k :: k in keys ==> k in r && r[k] == JStr("")
    ensures CountFilled(r, keys) == 0
  {
    forall i | 0 <= i < |keys|
      ensures !Filled(Field(r, keys[i]))
    {
      assert keys[i] in keys;
      EmptyNotFilled();
    }
  }

  lemma EmptyNotFilled()
    ensures !Filled(Some(JStr("")))
  {
    assert TextOf(Some(JStr(""))) == "";
    assert Trim("") == "";
  }

  /** The identity line `${username} | ${id}`. */
  function Nombre(username: Option<Json>, id: Option<Json>): string {
    Interp(username) + " | " + Interp(id)
  }

  /** The identity line is never blank, whatever the session holds: its
      separator is not white space. */
  lemma NombreFilled(username: Option<Json>, id: Option<Json>)
    ensures Filled(Some(JStr(Nombre(username, id))))
  {
    SeparatedNotBlank(Interp(username), Interp(id));
  }

  lemma SeparatedNotBlank(a: string, b: string)
    ensures !IsBlank(a + " | " + b)
  {
    var s := a + " | " + b;
    assert s[|a| + 1] == '|';
    BlankIffAllSpace(s);
  }
}
