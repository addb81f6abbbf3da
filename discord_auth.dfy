/** The Discord sign-in routes (backend/auth/discord.js): the redirect path
    the visitor asked for travels through Discord inside the OAuth `state`
    parameter and comes back to the callback, which builds the session
    profile from the user and guild replies and sends the visitor to the
    front end at that path. The HTTP exchanges with Discord are inputs. */
module DiscordAuth {
  import opened Common
  import opened JsCodecs

  const DEFAULT_FRONT: string := "http://localhost:5173"
  const AVATAR_BASE: string := "https://cdn.discordapp.com/avatars/"
  const AVATAR_TAIL: string := ".png?size=64"

  /** A value that may be used as a redirect path: a string that starts
      with '/'. */
  predicate IsPath(v: Option<Json>) {
    v.Some? && v.value.JStr? && StartsWith(v.value.s, "/")
  }

  /** `sanitizeRedirect(v, fallback)`: the value itself when it is a path,
      otherwise the fallback. */
  function SanitizeRedirect(v: Option<Json>, fallback: string): (r: string)
    ensures IsPath(v) ==> r == v.value.s
    ensures !IsPath(v) ==> r == fallback
    ensures r == fallback || (v == Some(JStr(r)) && StartsWith(r, "/"))
    ensures StartsWith(fallback, "/") ==> StartsWith(r, "/")
  {
    if IsPath(v) then v.value.s else fallback
  }

  /** Sanitising a sanitised redirect changes nothing. */
  lemma SanitizeIdempotent(v: Option<Json>, fallback: string)
    ensures SanitizeRedirect(Some(JStr(SanitizeRedirect(v, fallback))), fallback)
            == SanitizeRedirect(v, fallback)
  {
  }

  // ---------------------------------------------------------------------
  // The OAuth state

  /** `JSON.stringify({ redirect })`. */
  function StateJson(redirect: string): string {
    ObjectText("redirect", redirect)
  }

  /** The `state` the login route puts into the authorisation URL: the
      sanitised redirect, as JSON, as UTF-8, in unpadded base64url. */
  function LoginState(query: Option<Json>): (state: string)
    ensures forall i :: 0 <= i < |state| ==> IsB64Char(state[i])
  {
    B64Encode(Utf8Encode(StateJson(SanitizeRedirect(query, "/"))))
  }

  /** The redirect the callback recovers from `state` (`''` when the query
      has none). Every step that fails, and a parsed `null` whose property
      access throws, leave the default '/'. */
  function RedirectFromState(stateRaw: string): (r: string)
    ensures StartsWith(r, "/")
    ensures B64Decode(stateRaw).None? ==> r == "/"
    ensures stateRaw == "" ==> r == "/"
  {
    match B64Decode(stateRaw)
    case None => "/"
    case Some(bytes) =>
      match Utf8Decode(bytes)
      case None => "/"
      case Some(text) =>
        match JsonParse(text)
        case None => "/"
        case Some(JNull) => "/"
        case Some(parsed) => SanitizeRedirect(Prop(parsed, "redirect"), "/")
  }

  /** The callback recovers exactly the sanitised redirect that the login
      route encoded into the state. */
  lemma StateRoundTrip(query: Option<Json>)
    ensures RedirectFromState(LoginState(query)) == SanitizeRedirect(query, "/")
  {
    var s := SanitizeRedirect(query, "/");
    ObjectTextParses("redirect", s);
    StateDecodes(StateJson(s), JObj([("redirect", JStr(s))]));
  }

  /** The callback undoes base64url and UTF-8 and reads the parsed text. */
  lemma StateDecodes(text: string, parsed: Json)
    requires JsonParse(text) == Some(parsed) && parsed != JNull
    ensures RedirectFromState(B64Encode(Utf8Encode(text))) == SanitizeRedirect(Prop(parsed, "redirect"), "/")
  {
    B64RoundTrip(Utf8Encode(text));
    Utf8RoundTrip(text);
  }

  /** A state that is not an object, or an object without a usable
      `redirect`, sends the visitor to '/'. */
  lemma StateWithoutPath(stateRaw: string, parsed: Json)
    requires B64Decode(stateRaw).Some? && Utf8Decode(B64Decode(stateRaw).value).Some?
    requires JsonParse(Utf8Decode(B64Decode(stateRaw).value).value) == Some(parsed)
    requires !IsPath(Prop(parsed, "redirect"))
    ensures RedirectFromState(stateRaw) == "/"
  {
  }

  // ---------------------------------------------------------------------
  // The profile

  /** A discriminator other than the "0" of accounts without one. */
  predicate HasLegacyTag(me: Json) {
    var d := Prop(me, "discriminator");
    d.Some? && Truthy(d.value) && d.value != JStr("0")
  }

  /** `discord_username`: `username#discriminator` for an account with a
      discriminator; otherwise the global name when it is truthy, else the
      username (possibly missing). */
  function DisplayName(me: Json): (r: Option<Json>)
    ensures HasLegacyTag(me) ==>
      r == Some(JStr(Interp(Prop(me, "username")) + "#" + ToStr(Prop(me, "discriminator").value)))
    ensures !HasLegacyTag(me) && OptTruthy(Prop(me, "global_name")) ==> r == Prop(me, "global_name")
    ensures !HasLegacyTag(me) && !OptTruthy(Prop(me, "global_name")) ==> r == Prop(me, "username")
  {
    if HasLegacyTag(me) then
      Some(JStr(Interp(Prop(me, "username")) + "#" + ToStr(Prop(me, "discriminator").value)))
    else if OptTruthy(Prop(me, "global_name")) then Prop(me, "global_name")
    else Prop(me, "username")
  }

  /** An account with a truthy username always gets a truthy display name. */
  lemma DisplayNamePresent(me: Json)
    requires OptTruthy(Prop(me, "username"))
    ensures OptTruthy(DisplayName(me))
  {
  }

  /** A legacy name splits back into the username and the discriminator
      when neither contains '#'. */
  lemma LegacyNameSplits(me: Json, user: string, tag: string)
    requires Prop(me, "username") == Some(JStr(user)) && Prop(me, "discriminator") == Some(JStr(tag))
    requires tag != "" && tag != "0"
    requires '#' !in user && '#' !in tag
    ensures DisplayName(me) == Some(JStr(Join([user, tag], '#')))
    ensures Split(DisplayName(me).value.s, '#') == [user, tag]
  {
    assert Join([user, tag], '#') == user + "#" + tag by {
      assert [user, tag][1..] == [tag];
    }
    SplitJoin([user, tag], '#');
  }

  /** `discord_avatar`: the CDN address of the avatar image, or null. */
  function Avatar(me: Json): (r: Option<string>)
    ensures r.Some? <==> OptTruthy(Prop(me, "avatar"))
    ensures r.Some? ==> StartsWith(r.value, AVATAR_BASE) && EndsWith(r.value, AVATAR_TAIL)
    ensures r.Some? ==> EndsWith(r.value, "/" + ToStr(Prop(me, "avatar").value) + AVATAR_TAIL)
  {
    if OptTruthy(Prop(me, "avatar")) then
      var hash := ToStr(Prop(me, "avatar").value);
      var id := Interp(Prop(me, "id"));
      var end := "/" + hash + AVATAR_TAIL;
      var url := AVATAR_BASE + id + end;
      assert url[|url| - |end|..] == end;
      assert end[|end| - |AVATAR_TAIL|..] == AVATAR_TAIL;
      assert url[|url| - |AVATAR_TAIL|..] == AVATAR_TAIL;
      assert url[..|AVATAR_BASE|] == AVATAR_BASE;
      Some(url)
    else None
  }

  // ---------------------------------------------------------------------
  // Guild membership

  /** The reply to the guild-list request: the request threw, the status
      was not ok, or a body (`None` when reading it as JSON threw). */
  datatype GuildsReply = FetchFailed | NotOk | Body(json: Option<Json>)

  /** `g.id === DISCORD_GUILD_ID`; an unset guild id is `undefined`. */
  predicate GuildMatches(g: Json, guildId: Option<string>) {
    Prop(g, "id") == (if guildId.None? then None else Some(JStr(guildId.value)))
  }

  /** `guilds.some(...)` over the list: `Some(found)`, or `None` when a
      `null` entry is reached first (reading `.id` of it throws). */
  function GuildScan(items: seq<Json>, guildId: Option<string>): (r: Option<bool>)
    ensures r == Some(true) <==>
      exists i :: 0 <= i < |items| && GuildMatches(items[i], guildId)
                  && forall j :: 0 <= j <= i ==> items[j] != JNull
    decreases |items|
  {
    if items == [] then Some(false)
    else if items[0] == JNull then
      None
    else if GuildMatches(items[0], guildId) then
      Some(true)
    else
      var r := GuildScan(items[1..], guildId);
      r
  }

  /** `is_in_guild`: true only for an ok reply whose body is an array in
      which an entry carrying the configured id comes before any `null`;
      every failure leaves it false. */
  function IsInGuild(reply: GuildsReply, guildId: Option<string>): (r: bool)
    ensures r <==> reply.Body? && reply.json.Some? && reply.json.value.JArr?
                   && GuildScan(reply.json.value.items, guildId) == Some(true)
    ensures r ==> exists i :: 0 <= i < |reply.json.value.items|
                     && GuildMatches(reply.json.value.items[i], guildId)
  {
    match reply
    case Body(Some(JArr(items))) => GuildScan(items, guildId) == Some(true)
    case _ => false
  }

  // ---------------------------------------------------------------------
  // The redirect back to the front end

  /** `s.replace(/\/+$/, '')`: the text without its trailing slashes. */
  function TrimTrailingSlashes(s: string): (r: string)
    ensures StartsWith(s, r)
    ensures r == [] || r[|r| - 1] != '/'
    ensures forall k :: |r| <= k < |s| ==> s[k] == '/'
    decreases |s|
  {
    if s != [] && s[|s| - 1] == '/' then TrimTrailingSlashes(s[..|s| - 1]) else s
  }

  /** `FRONTEND_ORIGIN || 'http://localhost:5173'`. */
  function FrontOrigin(env: Option<string>): (r: string)
    ensures env.Some? && env.value != "" ==> r == env.value
    ensures env.None? || env.value == "" ==> r == DEFAULT_FRONT
  {
    if env.Some? && env.value != "" then env.value else DEFAULT_FRONT
  }

  /** Where the callback sends the visitor. */
  function Location(env: Option<string>, redirect: string): (r: string)
    ensures var base := TrimTrailingSlashes(FrontOrigin(env));
            && StartsWith(r, base) && EndsWith(r, redirect) && |r| == |base| + |redirect|
            && (StartsWith(redirect, "/") ==> r[|base|] == '/' && (base == [] || r[|base| - 1] != '/'))
  {
    var base := TrimTrailingSlashes(FrontOrigin(env));
    var r := base + redirect;
    assert r[..|base|] == base && r[|base|..] == redirect;
    r
  }

  // ---------------------------------------------------------------------
  // The callback

  datatype Profile = Profile(discordId: Option<Json>, username: Option<Json>,
                             avatar: Option<string>, isInGuild: bool)

  datatype Env = Env(guildId: Option<string>, frontOrigin: Option<string>)

  /** The callback's response: 400 'Missing code', 400 'OAuth error',
      500 'Callback failed', or a session for the profile and a redirect. */
  datatype Outcome =
    | MissingCode
    | OAuthError
    | CallbackFailed
    | SignedIn(profile: Profile, location: string)

  function ProfileOf(me: Json, guilds: GuildsReply, guildId: Option<string>): Profile {
    Profile(Prop(me, "id"), DisplayName(me), Avatar(me), IsInGuild(guilds, guildId))
  }

  /** The callback, given the query's `code` and `state` and the replies of
      the token and user requests (`None` when the request or the reading of
      its body threw). */
  function Callback(code: Option<Json>, stateRaw: string, token: Option<Json>,
                    me: Option<Json>, guilds: GuildsReply, env: Env): (r: Outcome)
    ensures r == MissingCode <==> !OptTruthy(code)
    ensures r == OAuthError <==>
      OptTruthy(code) && token.Some? && token.value != JNull && !OptTruthy(Prop(token.value, "access_token"))
    ensures r.SignedIn? ==>
      && OptTruthy(code) && token.Some? && OptTruthy(Prop(token.value, "access_token"))
      && me.Some? && me.value != JNull
      && r.profile == ProfileOf(me.value, guilds, env.guildId)
      && r.location == Location(env.frontOrigin, RedirectFromState(stateRaw))
    ensures (&& OptTruthy(code) && token.Some? && token.value != JNull
             && OptTruthy(Prop(token.value, "access_token")) && me.Some? && me.value != JNull)
            ==> r.SignedIn?
    ensures r == CallbackFailed <==>
      OptTruthy(code) && (token.None? || token.value == JNull
                          || (OptTruthy(Prop(token.value, "access_token")) && (me.None? || me.value == JNull)))
  {
    if !OptTruthy(code) then MissingCode
    else if token.None? || token.value == JNull then CallbackFailed
    else if !OptTruthy(Prop(token.value, "access_token")) then OAuthError
    else if me.None? || me.value == JNull then CallbackFailed
    else SignedIn(ProfileOf(me.value, guilds, env.guildId),
                  Location(env.frontOrigin, RedirectFromState(stateRaw)))
  }

  /** With a code, an access token and a user, the callback for a login
      with redirect `query` signs in and lands on the front end's origin
      (without trailing slashes) followed by the sanitised redirect. */
  lemma SignInLandsOnRequestedPath(query: Option<Json>, code: Option<Json>, token: Option<Json>,
                                   me: Option<Json>, guilds: GuildsReply, env: Env)
    requires OptTruthy(code) && token.Some? && token.value != JNull
    requires OptTruthy(Prop(token.value, "access_token")) && me.Some? && me.value != JNull
    ensures Callback(code, LoginState(query), token, me, guilds, env).SignedIn?
    ensures Callback(code, LoginState(query), token, me, guilds, env).location
            == TrimTrailingSlashes(FrontOrigin(env.frontOrigin)) + SanitizeRedirect(query, "/")
  {
    StateRoundTrip(query);
  }
}
