/** What the two staff pages (frontend/src/pages/adminReview.jsx and
    frontend/src/pages/allWL/AdminAllWL.jsx) share: the allow-list read from
    the environment, the `isStaff` test that decides whether the page is
    shown, and the search box that narrows the listed applications. The
    server reads its own allow-list the same way (backend/routes/wl.js). */
module StaffPanel {
  import opened Common
  import WlRoutes

  // ---------------------------------------------------------------------
  // The allow-list

  function TrimAll(parts: seq<string>): (r: seq<string>)
    ensures |r| == |parts|
    ensures forall i :: 0 <= i < |parts| ==> r[i] == Trim(parts[i])
    decreases |parts|
  {
    if parts == [] then [] else [Trim(parts[0])] + TrimAll(parts[1..])
  }

  /** `.filter(Boolean)` on strings: the non-empty ones, in order. */
  function NonEmpty(parts: seq<string>): (r: seq<string>)
    ensures forall x :: x in r <==> x in parts && x != ""
    decreases |parts|
  {
    if parts == [] then []
    else if parts[0] == "" then NonEmpty(parts[1..])
    else [parts[0]] + NonEmpty(parts[1..])
  }

  /** `(ENV || '').split(',').map(s => s.trim()).filter(Boolean)`; an unset
      variable is `None`. */
  function AllowList(env: Option<string>): seq<string> {
    NonEmpty(TrimAll(Pieces(env)))
  }

  /** Every entry is non-empty, has no surrounding white space and no comma. */
  lemma AllowListClean(env: Option<string>, i: nat)
    requires i < |AllowList(env)|
    ensures var x := AllowList(env)[i]; x != "" && Trim(x) == x && ',' !in x
  {
    var x := AllowList(env)[i];
    assert x in NonEmpty(TrimAll(Pieces(env)));
    TrimmedPiece(Pieces(env), x);
  }

  /** An id is on the list built from some pieces iff it is one of the
      pieces, trimmed, and not empty. */
  lemma {:induction false} ListMember(p: seq<string>, x: string)
    ensures x in NonEmpty(TrimAll(p)) <==> x != "" && exists i :: 0 <= i < |p| && Trim(p[i]) == x
  {
    NonEmptyMember(TrimAll(p), x);
    InTrimAll(p, x);
  }

  lemma NonEmptyMember(t: seq<string>, x: string)
    ensures x in NonEmpty(t) <==> x in t && x != ""
  {
  }

  /** The comma-separated pieces of the variable. */
  function Pieces(env: Option<string>): (pieces: seq<string>)
    ensures forall i :: 0 <= i < |pieces| ==> ',' !in pieces[i]
  {
    Split(if env.Some? then env.value else "", ',')
  }

  lemma {:induction false} InTrimAll(pieces: seq<string>, x: string)
    ensures x in TrimAll(pieces) <==> exists i :: 0 <= i < |pieces| && Trim(pieces[i]) == x
  {
    var t := TrimAll(pieces);
    if x in t {
      var i :| 0 <= i < |t| && t[i] == x;
      assert Trim(pieces[i]) == x;
    }
    if exists i :: 0 <= i < |pieces| && Trim(pieces[i]) == x {
      var i :| 0 <= i < |pieces| && Trim(pieces[i]) == x;
      assert t[i] == x;
    }
  }

  lemma TrimmedPiece(pieces: seq<string>, x: string)
    requires forall i :: 0 <= i < |pieces| ==> ',' !in pieces[i]
    requires x in TrimAll(pieces)
    ensures Trim(x) == x && ',' !in x
  {
    var t := TrimAll(pieces);
    var j :| 0 <= j < |t| && t[j] == x;
    TrimIdempotent(pieces[j]);
    TrimWithin(pieces[j]);
  }

  /** Trimming keeps only characters of the trimmed text. */
  lemma TrimWithin(s: string)
    ensures forall c :: c in Trim(s) ==> c in s
  {
    var t := TrimStart(s);
    var r := TrimEnd(t);
    assert r == s[|s| - |t|..][..|r|];
    forall c | c in r ensures c in s {
      var k :| 0 <= k < |r| && r[k] == c;
      assert s[|s| - |t| + k] == c;
    }
  }

  /** An unset or empty variable gives an empty list. */
  lemma UnsetAllowList()
    ensures AllowList(None) == [] && AllowList(Some("")) == []
  {
    assert Split("", ',') == [""];
    assert Pieces(None) == [""] && Pieces(Some("")) == [""];
    assert Trim("") == "";
    assert TrimAll([""]) == [""];
  }

  // ---------------------------------------------------------------------
  // isStaff

  /** `isStaff`: false without a session; otherwise the session's
      `is_staff` flag, or its `discord_id` (as `String`) on the allow-list. */
  function IsStaff(me: Option<Json>, allow: seq<string>): (r: bool)
    ensures r <==> OptTruthy(me)
                   && (OptTruthy(Prop(me.value, "is_staff")) || Interp(Prop(me.value, "discord_id")) in allow)
    ensures allow == [] ==> (r <==> OptTruthy(me) && OptTruthy(Prop(me.value, "is_staff")))
  {
    OptTruthy(me) && (OptTruthy(Prop(me.value, "is_staff")) || Interp(Prop(me.value, "discord_id")) in allow)
  }

  /** A page opened through the allow-list sends its user's id as the
      `x-staff-id` header; the server, which reads its allow-list the same
      way from the same ids and has no session user, admits that id. */
  lemma ListedStaffPassServer(me: Json, id: string, env: Option<string>)
    requires Prop(me, "discord_id") == Some(JStr(id)) && id in AllowList(env)
    ensures IsStaff(Some(me), AllowList(env))
    ensures WlRoutes.RequireStaff(None, Some(id), AllowList(env)) == WlRoutes.Ok(id)
  {
    var allow := AllowList(env);
    assert id in NonEmpty(TrimAll(Pieces(env)));
    ListedIdPasses(me, id, allow);
  }

  lemma ListedIdPasses(me: Json, id: string, allow: seq<string>)
    requires Prop(me, "discord_id") == Some(JStr(id)) && id in allow && id != ""
    ensures IsStaff(Some(me), allow)
    ensures WlRoutes.RequireStaff(None, Some(id), allow) == WlRoutes.Ok(id)
  {
    assert me.JObj?;
    assert WlRoutes.StaffCaller(None, Some(id)) == Some(JStr(id));
  }

  /** With no allow-list the server admits any caller that names an id, but
      the page still hides itself from a user who is not flagged staff. */
  lemma EmptyListsDisagree(me: Json, id: string)
    requires id != "" && Prop(me, "discord_id") == Some(JStr(id))
    requires !OptTruthy(Prop(me, "is_staff"))
    ensures !IsStaff(Some(me), [])
    ensures WlRoutes.RequireStaff(None, Some(id), []) == WlRoutes.Ok(id)
  {
  }

  // ---------------------------------------------------------------------
  // The search box

  /** The normalised query: trimmed and lower-cased. */
  function Query(filter: string): string {
    ToLower(Trim(filter))
  }

  /** `(x.discord_username || "")` for the rows the server lists, whose
      username is a string or null. */
  function UsernameOf(x: Json): string {
    match Prop(x, "discord_username")
    case Some(JStr(s)) => s
    case _ => ""
  }

  /** An item matches when `String(x.id)` or the lower-cased username
      contains the query. */
  predicate Matches(x: Json, q: string) {
    Contains(Interp(Prop(x, "id")), q) || Contains(ToLower(UsernameOf(x)), q)
  }

  /** `a` is `b` with some items left out, the rest in their order. */
  predicate IsSubseq(a: seq<Json>, b: seq<Json>)
    decreases |b|
  {
    if a == [] then true
    else if b == [] then false
    else (a[0] == b[0] && IsSubseq(a[1..], b[1..])) || IsSubseq(a, b[1..])
  }

  lemma {:induction false} SubseqRefl(a: seq<Json>)
    ensures IsSubseq(a, a)
    decreases |a|
  {
    if a != [] {
      SubseqRefl(a[1..]);
    }
  }

  /** `items.filter(x => Matches(x, q))`. */
  function Keep(items: seq<Json>, q: string): (r: seq<Json>)
    ensures forall x :: x in r <==> x in items && Matches(x, q)
    ensures IsSubseq(r, items)
    ensures |r| <= |items|
    decreases |items|
  {
    if items == [] then []
    else
      var rest := Keep(items[1..], q);
      if Matches(items[0], q) then
        var r := [items[0]] + rest;
        assert r[1..] == rest;
        r
      else
        assert rest == [] || IsSubseq(rest, items[1..]);
        rest
  }

  /** `visible`: every item for an empty query; otherwise the matching
      items, in their order. */
  function Visible(items: seq<Json>, filter: string): (r: seq<Json>)
    ensures Query(filter) == "" ==> r == items
    ensures Query(filter) != "" ==> forall x :: x in r <==> x in items && Matches(x, Query(filter))
    ensures IsSubseq(r, items)
  {
    var q := Query(filter);
    if q == "" then
      SubseqRefl(items);
      items
    else Keep(items, q)
  }

  /** Filtering a filtered list again changes nothing. */
  lemma {:induction false} KeepIdempotent(items: seq<Json>, q: string)
    ensures Keep(Keep(items, q), q) == Keep(items, q)
    decreases |items|
  {
    if items != [] {
      KeepIdempotent(items[1..], q);
      if Matches(items[0], q) {
        assert ([items[0]] + Keep(items[1..], q))[1..] == Keep(items[1..], q);
      }
    }
  }

  lemma VisibleIdempotent(items: seq<Json>, filter: string)
    ensures Visible(Visible(items, filter), filter) == Visible(items, filter)
  {
    if Query(filter) != "" {
      KeepIdempotent(items, Query(filter));
    }
  }

  /** Typing an application's id finds it. */
  lemma IdFindsItem(items: seq<Json>, x: Json, id: nat)
    requires x in items && Prop(x, "id") == Some(JNum(id))
    ensures x in Visible(items, NatToString(id))
  {
    var s := NatToString(id);
    DigitsQuery(s);
    ContainsSelf(s);
    assert Interp(Prop(x, "id")) == s;
    assert Matches(x, Query(s));
  }

  /** A number typed in the box is its own query. */
  lemma DigitsQuery(s: string)
    requires AllDigits(s)
    ensures Query(s) == s
  {
    TrimOfDigits(s);
    assert ToLower(s) == s;
  }

  /** A string of digits has no white space to trim. */
  lemma TrimOfDigits(s: string)
    requires AllDigits(s)
    ensures Trim(s) == s
  {
    assert forall k :: 0 <= k < |s| ==> !IsJsSpace(s[k]);
    NoSpaceTrim(s);
  }

  lemma NoSpaceTrim(s: string)
    requires forall k :: 0 <= k < |s| ==> !IsJsSpace(s[k])
    ensures Trim(s) == s
  {
    assert TrimStart(s) == s;
    assert TrimEnd(s) == s;
  }
}
