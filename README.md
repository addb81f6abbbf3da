# formulario — a Dafny model of the whitelist pipeline

The formulario project is the whitelist (WL) pipeline of a role-play game server.

- An applicant signs in with Discord. The OAuth callback of
  `backend/auth/discord.js` builds a profile and redirects back to the site.
- The applicant fills in a questionnaire. The page's rule table validates it,
  a progress bar counts the filled answers, and a draft is kept locally. There
  are two versions of this page: the root `src/App.jsx` and `frontend/src/App.jsx`.
- The applicant submits. `POST /wl/submit` in `backend/routes/wl.js` checks
  the required fields and the cooldown, then stores a `pendiente` row and
  logs it.
- A staff member opens the review page (`frontend/src/pages/adminReview.jsx`),
  marks every answer right or wrong, and approves or rejects. `POST /wl/review`
  scores the decisions and sets `aprobada` or `rechazada`. On the third
  rejection it sets a seven-day cooldown.
- The Discord bot (`backend/services/discordBot.js`) swaps roles and sends
  the result message. The statistics board (`backend/services/wlStats.js`)
  shows how many applications are pending and for how long, raises alerts by
  tier, and schedules the weekly ranking.
- The archive page (`frontend/src/pages/allWL/AdminAllWL.jsx`) shows past
  decisions and notes.

The model has one Dafny module per source file, plus two shared modules:

- `Common` holds the JavaScript built-ins the sources rely on: a JSON value
  with JavaScript truthiness, `??`, `String(v)`, `trim`, `toLowerCase`,
  `Math.round` of a percentage, `split` and `join`.
- `JsCodecs` holds `TextEncoder`, `base64url` and `JSON.parse`, as the OAuth
  state needs them.

How each kind of code is modelled:

- State the source changes in place is a class:
  - the database pool behind the routes is `WlRoutes.WlStore`, with a map of
    rows, a log and the next id;
  - the Discord client is `DiscordBot.Bot` and a guild member is
    `DiscordBot.Member`;
  - the status message is `WlStats.Board`;
  - the review page's React state is `AdminReview.ReviewPanel`.
- Loops in the source are methods with invariants. Examples are the score
  loop, the required-field loop, the role-removal loop, `setAll` and
  `validateAll`.
- Pure computations are functions with lemmas.

Time is an integer number of milliseconds. The database's `NOW()`, the
clock, the hour of day and the locale date stamp are parameters.

## Model

| member | source | states |
|---|---|---|
| WlRoutes.StaffCaller | backend/routes/wl.js:14 | the caller is the session's Discord id when truthy, else the `x-staff-id` header; a present caller is always truthy |
| WlRoutes.RequireStaff | backend/routes/wl.js:8-21 | no caller gives LOGIN_STAFF_REQUERIDO; a caller outside a non-empty allow-list gives STAFF_NO_AUTORIZADO; otherwise (empty list, or `String(id)` listed) the request passes as staff `String(id)`; the three outcomes are exact iffs |
| WlRoutes.ComputeScore | backend/routes/wl.js:26-36 | the loop's total is the sum of all keys' weights (1 when unweighted) and its score the sum over the truthy answers |
| WlRoutes.DefaultWeights | backend/routes/wl.js:26-36 | unweighted, total is the number of decisions, score the number of truthy ones, and 0 <= score <= total |
| WlRoutes.Pct | backend/routes/wl.js:187 | the ratio is 0 when there is nothing to score and lies in [0,1] when 0 <= score <= total |
| WlRoutes.ApprovalRule | backend/routes/wl.js:189-191 | an empty decision set approves; any value other than boolean `true`, even a truthy one, rejects |
| WlRoutes.ApprovedHasFullScore | backend/routes/wl.js:186-191 | an approved set of decisions has score equal to total |
| WlRoutes.FullScoreWithoutApproval | backend/routes/wl.js:186-191 | a full score does not imply approval: the truthy number 1 scores but rejects |
| WlRoutes.FirstMissingFrom | backend/routes/wl.js:68-72 | the index found is missing and every earlier key from the start point is present; none found means all present |
| WlRoutes.FirstMissing | backend/routes/wl.js:59-72 | no key is reported iff every required field is present, truthy and non-blank after trim; otherwise it is the first missing key in the route's order |
| WlRoutes.CheckRequired | backend/routes/wl.js:68-72 | the loop over `reqd` returns exactly the first missing key |
| WlRoutes.CompleteBody | backend/routes/wl.js:68-72 | a body that passes the check holds every required field, truthy and non-blank |
| WlRoutes.StringToNumber | backend/routes/wl.js:92 | `Number` of a string, trimmed: blank text gives 0, and every value kept is finite, below the double overflow bound; the literal forms it reads are stated by the lemmas below |
| WlRoutes.Finite | backend/routes/wl.js:92 | `Number.isFinite`: a value is kept iff its magnitude is below the bound where doubles overflow |
| WlRoutes.DigitsNumber | backend/routes/wl.js:92 | a plain decimal digit string reads as its value |
| WlRoutes.PointForm | backend/routes/wl.js:92 | `whole.frac` reads as its digits scaled down by one power of ten per fraction digit |
| WlRoutes.ExponentForm | backend/routes/wl.js:92 | `digits e x` reads as the digits scaled up by `10^x` |
| WlRoutes.NegatedText | backend/routes/wl.js:92 | a leading `-` negates the unsigned literal after it |
| WlRoutes.DigitThenOther | backend/routes/wl.js:92 | a digit followed by anything but a digit, a point or an exponent mark is not a decimal literal |
| WlRoutes.NoDecimalStart | backend/routes/wl.js:92 | text starting with a character no decimal literal starts with is not one |
| WlRoutes.IntTextRoundTrip | backend/routes/wl.js:92 | `Number(String(n))` is `n` for every finite integer |
| WlRoutes.ExponentAndHexForms | backend/routes/wl.js:92 | "1e1" reads as 10 and "0x1A" as 26 |
| WlRoutes.FractionForms | backend/routes/wl.js:92 | "1.0" reads as 1 and "-2.5" as -2.5 |
| WlRoutes.NotFiniteForms | backend/routes/wl.js:92 | "-0x1A" and "Infinity" are not finite numbers, so the field stores 0 |
| WlRoutes.ToNumber | backend/routes/wl.js:92 | unary `+v` on a body value is kept only when finite |
| WlRoutes.FleccaOf | backend/routes/wl.js:92 | `minimo_policias_flecca` is the field's number when finite, else 0; the result is always finite |
| WlRoutes.TextAnswers | backend/routes/wl.js:112-117 | the answer parameters are exactly the present required answers except the number, each the posted value unchanged |
| WlRoutes.FieldOr | backend/routes/wl.js:113-118 | `p.k \|\| default` is the default or a present truthy value |
| WlRoutes.NewRow | backend/routes/wl.js:94-122 | a new row is `pendiente` with no cooldown, reviewer or notes; it has the given `intentos`, the creation time, the parsed flecca, and avatar, guild flag and score defaulted as the insert does |
| WlRoutes.LatestBelow | backend/routes/wl.js:75-82 | the row found belongs to the applicant and no other of theirs is later by `created_at` (ties broken by id); none found means they have no row |
| WlRoutes.CooldownOf | backend/routes/wl.js:84-90 | refusal iff the applicant's latest row has a cooldown later than now; the error carries that time and the row's `intentos` |
| WlRoutes.SubmitCheck | backend/routes/wl.js:59-90 | a missing field is reported first; otherwise the cooldown decides; accepted iff neither applies |
| WlRoutes.LatestIsNewest | backend/routes/wl.js:75-82 | every row of the applicant is no newer than the latest one |
| WlRoutes.LatestAfterInsert | backend/routes/wl.js:75-82 | a freshly inserted newer row becomes the applicant's latest |
| WlRoutes.LatestSameShape | backend/routes/wl.js:75-82 | updates that keep ids, owners and creation times keep the latest row |
| WlRoutes.LatestAfterUpdate | backend/routes/wl.js:218-232 | reviewing the latest row keeps it the latest |
| WlRoutes.InsertRow | backend/routes/wl.js:169 | ordered insertion keeps `created_at ASC` order (ties by id) and adds exactly the new row |
| WlRoutes.PendingBelow | backend/routes/wl.js:163-173 | the listing is sorted, holds only stored rows that are pending with no cooldown or a passed one, and holds every such row |
| WlRoutes.Take | backend/routes/wl.js:170 | `LIMIT n` keeps a prefix of the rows: all of them when there are at most n, exactly n otherwise |
| WlRoutes.PageIsOldest | backend/routes/wl.js:169-170 | a listable row cut off by the limit is not older than any row shown |
| WlRoutes.ReviewedRow | backend/routes/wl.js:186-232 | the reviewed row is `aprobada` iff all decisions are `true`; `intentos` grows by one on rejection only; a cooldown of now + 7 days is set iff rejected with `intentos >= 3`; reviewer and time set; the notes record holds the decisions, the notes, the score, the total, the percentage, the approval and the review time; identity, answers, avatar, guild flag and creation time kept |
| WlRoutes.ReviewEntry | backend/routes/wl.js:234-241 | the review log entry is `aceptar`/"aprobada" or `rechazar`/"rechazada" by the same rule, for that row and reviewer, with the score, total, percentage and next attempt count as its metadata |
| WlRoutes.ReviewRecordsAgree | backend/routes/wl.js:204-241 | the log entry's metadata equals the stored notes' score, total and percentage and the row's new `intentos`; an approval records a full score, 100% when anything was decided |
| WlRoutes.SubmitEntry | backend/routes/wl.js:124-129 | a submission logs `enviar` for the new id by the applicant, with no reason |
| WlRoutes.InsertKeeps | backend/routes/wl.js:94-129 | inserting a pending row with its `enviar` entry preserves the store invariant: ids are 1 up to the next id, every row agrees with its state, every log entry agrees with its row, and each row has one `enviar` entry plus one review entry once reviewed |
| WlRoutes.ReviewKeeps | backend/routes/wl.js:198-241 | reviewing a pending row with one review entry preserves the store invariant |
| WlRoutes.AttemptsAfterInsert | backend/routes/wl.js:94-120 | an insert that does not set `intentos` keeps the shape "default, plus one if rejected" of every row's counter |
| WlRoutes.AttemptsAfterReview | backend/routes/wl.js:204 | a review keeps the "default, plus one if rejected" shape of `intentos` |
| WlRoutes.NoCooldownAt | backend/routes/wl.js:204-206 | with the default below 2, no stored row ever has a cooldown |
| WlRoutes.WlStore.Pending | backend/routes/wl.js:163-173 | `GET /wl/pending` returns at most 100 listable stored rows, oldest first; a listable row is left out only when the page holds 100, and then it is not older than any row shown |
| WlRoutes.WlStore.PendingRowsAreListable | backend/routes/wl.js:167-168 | in a valid store every pending row is listable, since only reviews set a cooldown |
| WlRoutes.WlStore.Latest | backend/routes/wl.js:75-82 | the applicant's latest row over the whole store, as `ORDER BY created_at DESC LIMIT 1` picks it |
| WlRoutes.Carried | backend/routes/wl.js:75-88 | the attempt count a new application should carry: the applicant's latest row's `intentos`, or the default when they have none |
| WlRoutes.WlStore.CarriedIntentos | backend/routes/wl.js:75-90 | the counter a new row should carry: the latest row's `intentos`, or the default for a first application |
| WlRoutes.WlStore.Gate | backend/routes/wl.js:59-90 | the route's checks against the stored rows are exactly `SubmitCheck` |
| WlRoutes.WlStore.Insert | backend/routes/wl.js:94-129 | adds exactly `NewRow` at the next id and appends its `enviar` entry; validity kept |
| WlRoutes.WlStore.Submit | backend/routes/wl.js:55-131 | a refused submission returns the error and changes nothing; an accepted one returns the next id, adds `NewRow` with the column default and one log entry; validity and the default-attempts shape are kept |
| WlRoutes.WlStore.SubmitCarryingAttempts | backend/routes/wl.js:94-120 | the corrected submission: as `Submit`, but the new row carries the applicant's latest `intentos` |
| WlRoutes.WlStore.Review | backend/routes/wl.js:178-259 | no id gives ID_INVALIDO, an unknown id NOT_FOUND, a reviewed row YA_REVISADA, each changing nothing; success iff the row is pending, and then the row becomes `ReviewedRow`, one review entry is appended and the next id is unchanged |
| WlRoutes.ApplyAsWritten | backend/routes/wl.js:94-131 | with the default 0, a fresh application is a pending row with `intentos` 0 |
| WlRoutes.Reject | backend/routes/wl.js:204-232 | a rejection raises that row's `intentos` by one and sets a 7-day cooldown iff it reaches 3; the latest row stays the latest |
| WlRoutes.ThreeRejectionsAsWritten | backend/routes/wl.js:94-120 | as written, apply-reject three times: the third row has `intentos` 1, no cooldown, and a fourth application is accepted |
| WlRoutes.ApplyCarried | backend/routes/wl.js:94-120 | with the correction, the new row carries k earlier rejections and becomes the latest |
| WlRoutes.ClearToApply | backend/routes/wl.js:59-90 | after k rejections with no running cooldown the next application passes the gate and would carry k |
| WlRoutes.RoundCarried | backend/routes/wl.js:204-206 | with the correction, round k+1 ends rejected with `intentos` k+1 and a cooldown iff k+1 >= 3 |
| WlRoutes.ThreeRejectionsCarried | backend/routes/wl.js:204-206 | with the correction, the third rejection sets `intentos` 3 and a 7-day cooldown, and the next application is refused with COOLDOWN_ACTIVO carrying that time and 3 |
| WlRoutes.SubmitDuringCooldown | backend/routes/wl.js:84-90 | a complete application during a running cooldown is refused with its time and attempts |
| WlRoutes.CooldownRefuses | backend/routes/wl.js:84-90 | the gate names the latest row's cooldown and attempts while it runs |
| WlRoutes.NoCooldownYet | backend/routes/wl.js:84-90 | as written, with the default 0, the cooldown check never fires |
| DiscordBot.Used | backend/services/discordBot.js:93-96 | attempts used are the count clamped to [0, 3] |
| DiscordBot.Left | backend/services/discordBot.js:97-99 | attempts left lie in [0, 3] and add up with attempts used to 3 |
| DiscordBot.LeftAntitone | backend/services/discordBot.js:93-99 | more attempts never leave more attempts left |
| DiscordBot.SuspensionTarget | backend/services/discordBot.js:67-68 | attempt n in 1..3 selects suspension role n when that role is configured; any other count, or an unconfigured role n, selects the third |
| DiscordBot.SuspensionTargetConfigured | backend/services/discordBot.js:67-68 | with all three roles configured, attempt n in 1..3 selects role n and any other count the third; the target is always a suspension role |
| DiscordBot.Configured | backend/services/discordBot.js:42-44 | the roles removed are exactly the configured (non-empty) ids |
| DiscordBot.ApprovedRoles | backend/services/discordBot.js:35-50 | approval adds `WL_OK`, removes every configured suspension role, and leaves unrelated roles alone |
| DiscordBot.SuspendedRoles | backend/services/discordBot.js:52-73 | suspension adds the target, removes `WL_OK` and the other suspension roles, and leaves unrelated roles alone |
| DiscordBot.ApprovalUndoesSuspension | backend/services/discordBot.js:35-73 | approving after a suspension gives the same roles as approving directly |
| DiscordBot.OneSuspensionRole | backend/services/discordBot.js:52-73 | after a suspension the member holds exactly one suspension role and not `WL_OK` |
| DiscordBot.ApprovalIgnoresCount | backend/services/discordBot.js:102-104 | the approval message does not depend on attempts or reasons |
| DiscordBot.RejectionText | backend/services/discordBot.js:105-111 | the rejection message starts with the head and attempts left, lists "Motivos" only when there are reasons, and contains a bullet for each reason |
| DiscordBot.Bot.OnReady | backend/services/discordBot.js:21-23 | the client becomes ready |
| DiscordBot.Bot.RemoveSuspensions | backend/services/discordBot.js:42-44 | the loop removes exactly the configured suspension roles |
| DiscordBot.Bot.SetApprovedRole | backend/services/discordBot.js:35-50 | when ready, the member's roles become `ApprovedRoles`; when not ready they are unchanged |
| DiscordBot.Bot.SetSuspensionRole | backend/services/discordBot.js:52-73 | when ready, the member's roles become `SuspendedRoles` for the attempt; when not ready they are unchanged |
| DiscordBot.Bot.SendResultMessage | backend/services/discordBot.js:80-121 | a message is sent iff the client is ready, and what is sent is exactly `ResultText`: the approval text, or a rejection text with the attempts left |
| WlStats.JsRem | backend/services/wlStats.js:64 | JavaScript `%` truncates: the remainder takes the dividend's sign |
| WlStats.HoursMinutes | backend/services/wlStats.js:63-64 | for non-negative seconds, the minutes are below 60 and hours and minutes cover the time to within a minute |
| WlStats.Waiting | backend/services/wlStats.js:46-67 | nothing pending shows the all-done line and 0 seconds; otherwise the oldest wait, formatted in hours and minutes |
| WlStats.AtMostOneAlert | backend/services/wlStats.js:82-91 | the `if`/`else if` chain yields exactly the line of one tier, and none up to 4 hours |
| WlStats.Content | backend/services/wlStats.js:77-94 | the message is header plus wait line, with a tier line and footer only when alerts are on (pending, role set, hour in the window) |
| WlStats.NothingPending | backend/services/wlStats.js:49-53 | with nothing pending the message is the header and the all-done line only |
| WlStats.Board.Init | backend/services/wlStats.js:11-19 | the client is kept and the remembered message is unchanged |
| WlStats.Board.Update | backend/services/wlStats.js:37-109 | no client or no channel: nothing happens; a remembered message that still exists is edited with `Content`; otherwise a new one is sent and its id remembered |
| WlStats.RankLines | backend/services/wlStats.js:115-117 | one line per ranked reviewer, line i for row i, numbered from 1 |
| WlStats.RankLineShape | backend/services/wlStats.js:116 | a ranking line has no newline and starts `#<pos> ` |
| WlStats.RankingLines | backend/services/wlStats.js:112-118 | splitting the ranking text at newlines recovers exactly the ranking lines, each starting `#i ` |
| WlStats.ScheduleWeeklyRanking | backend/services/wlStats.js:154-167 | the delay is positive and at most a week, lands on a Sunday 11:00, and no Sunday 11:00 falls before it |
| WlStats.RankTimeBound | backend/services/wlStats.js:155-167 | the next-Sunday arithmetic gives the first ranking time after now |
| DiscordAuth.SanitizeRedirect | backend/auth/discord.js:31-33 | the value is kept iff it is a string starting with `/`, else the fallback; a `/` fallback gives a path starting with `/` |
| DiscordAuth.SanitizeIdempotent | backend/auth/discord.js:31-33 | sanitizing a sanitized path changes nothing |
| DiscordAuth.LoginState | backend/auth/discord.js:51-55 | the OAuth `state` is base64url text |
| DiscordAuth.RedirectFromState | backend/auth/discord.js:60-66 | the decoded redirect always starts with `/`; an empty or undecodable state gives `/` |
| DiscordAuth.StateRoundTrip | backend/auth/discord.js:53-66 | the callback recovers exactly the sanitized `redirect` the login was given |
| DiscordAuth.StateDecodes | backend/auth/discord.js:62-66 | decoding the encoding of a JSON text gives its sanitized `redirect` |
| DiscordAuth.StateWithoutPath | backend/auth/discord.js:62-66 | a state whose `redirect` is not a path lands on `/` |
| DiscordAuth.DisplayName | backend/auth/discord.js:110-113 | a legacy tag gives `username#tag`, else `global_name` when truthy, else `username` |
| DiscordAuth.DisplayNamePresent | backend/auth/discord.js:110-113 | a user with a username always gets a display name |
| DiscordAuth.LegacyNameSplits | backend/auth/discord.js:110-113 | a legacy name splits back at `#` into username and tag |
| DiscordAuth.Avatar | backend/auth/discord.js:114-116 | an avatar URL exists iff the avatar hash is truthy, on the CDN base, ending with `/<hash>.png` |
| DiscordAuth.GuildScan | backend/auth/discord.js:97-106 | `some` is true iff a guild matches before any null entry (which would throw) |
| DiscordAuth.IsInGuild | backend/auth/discord.js:97-106 | membership iff the reply is a JSON array with a matching guild |
| DiscordAuth.TrimTrailingSlashes | backend/auth/discord.js:125 | the result is a prefix, does not end with `/`, and only slashes were cut |
| DiscordAuth.FrontOrigin | backend/auth/discord.js:125 | the configured origin when set and non-empty, else the default |
| DiscordAuth.Location | backend/auth/discord.js:125-126 | the redirect is the trimmed origin followed by the path, with exactly one `/` between them |
| DiscordAuth.Callback | backend/auth/discord.js:58-131 | a falsy code gives 400; a token reply without `access_token` gives the OAuth error; a missing or null token or user reply gives the 500 failure; with a code, an `access_token` and a user, the sign-in always happens and builds the profile and the location from the state |
| DiscordAuth.SignInLandsOnRequestedPath | backend/auth/discord.js:51-126 | with a code, an access token and a user, the callback signs in, and the browser lands at the origin plus the sanitized path the login asked for |
| JsCodecs.Utf8Encode | backend/auth/discord.js:53 | UTF-8 encoding is never shorter than the text |
| JsCodecs.EncodeDecodeChar | backend/auth/discord.js:53-64 | decoding one encoded code point gives it back with its length |
| JsCodecs.TwoBytesBack | backend/auth/discord.js:53-64 | the two-byte case of that round trip |
| JsCodecs.ThreeBytesBack | backend/auth/discord.js:53-64 | the three-byte case |
| JsCodecs.FourBytesBack | backend/auth/discord.js:53-64 | the four-byte case |
| JsCodecs.Utf8RoundTrip | backend/auth/discord.js:53-64 | decoding the UTF-8 of any text gives it back |
| JsCodecs.B64ValueOfChar | backend/auth/discord.js:53-64 | each base64url digit decodes to its value |
| JsCodecs.GroupChars | backend/auth/discord.js:53 | a 3-byte group is four base64url characters |
| JsCodecs.B64Encode | backend/auth/discord.js:53 | base64url output uses only its alphabet, with no padding |
| JsCodecs.GroupRoundTrip | backend/auth/discord.js:53-64 | the 6-bit split of three bytes reassembles to the same bytes |
| JsCodecs.GroupBack | backend/auth/discord.js:53-64 | decoding an encoded group followed by more text gives the group followed by the rest |
| JsCodecs.DecodeGroup | backend/auth/discord.js:64 | four digit values decode to the three bytes they carry |
| JsCodecs.ShortGroupBack | backend/auth/discord.js:53-64 | the unpadded 2- and 3-character tails decode to one and two bytes |
| JsCodecs.B64RoundTrip | backend/auth/discord.js:53-64 | decoding the base64url of any bytes gives them back |
| JsCodecs.QuoteCharBack | backend/auth/discord.js:53-64 | a character escaped by `JSON.stringify` parses back |
| JsCodecs.QuoteRoundTrip | backend/auth/discord.js:53-64 | a string literal written by `JSON.stringify` parses back to the string and the rest of the text |
| JsCodecs.ObjectTextParses | backend/auth/discord.js:53-64 | `JSON.parse(JSON.stringify({redirect: v}))` gives back that one-member object |
| StaffPanel.TrimAll | backend/routes/wl.js:8-11 | each entry of the list is trimmed |
| StaffPanel.NonEmpty | backend/routes/wl.js:8-11 | `filter(Boolean)` keeps exactly the non-empty entries |
| StaffPanel.Pieces | backend/routes/wl.js:8-11 | the comma-separated pieces hold no comma |
| StaffPanel.ListMember | backend/routes/wl.js:8-11 | an id is allowed iff it is non-empty and some piece trims to it |
| StaffPanel.AllowListClean | frontend/src/pages/adminReview.jsx:6-9 | every allowed id is non-empty, trimmed and comma-free |
| StaffPanel.UnsetAllowList | frontend/src/pages/allWL/AdminAllWL.jsx:5-8 | an unset or empty variable gives an empty list |
| StaffPanel.IsStaff | frontend/src/pages/adminReview.jsx:89-92 | staff iff signed in and either flagged `is_staff` or `String(discord_id)` is allowed; with an empty list only the flag counts |
| StaffPanel.ListedStaffPassServer | frontend/src/pages/allWL/AdminAllWL.jsx:60-63 | a listed id passes both the page and the server's check |
| StaffPanel.ListedIdPasses | frontend/src/pages/adminReview.jsx:89-96 | a listed id sent as `x-staff-id` is accepted by the server |
| StaffPanel.EmptyListsDisagree | frontend/src/pages/adminReview.jsx:89-92 | with empty lists the page refuses an unflagged user that the server admits |
| StaffPanel.Keep | frontend/src/pages/adminReview.jsx:265-273 | the filter keeps exactly the matching items, in order |
| StaffPanel.Visible | frontend/src/pages/allWL/AdminAllWL.jsx:91-99 | an empty search shows everything; otherwise exactly the matching items, in order |
| StaffPanel.KeepIdempotent | frontend/src/pages/adminReview.jsx:265-273 | filtering twice by the same query equals filtering once |
| StaffPanel.VisibleIdempotent | frontend/src/pages/adminReview.jsx:265-273 | searching the visible list again shows the same list |
| StaffPanel.IdFindsItem | frontend/src/pages/adminReview.jsx:268-271 | searching for an application's id shows that application |
| StaffPanel.DigitsQuery | frontend/src/pages/adminReview.jsx:266 | a digit string is its own normalised query |
| StaffPanel.TrimOfDigits | frontend/src/pages/adminReview.jsx:266 | trimming a digit string changes nothing |
| AdminReview.Keys | frontend/src/pages/adminReview.jsx:16-42 | the decision keys in order |
| AdminReview.Fill | frontend/src/pages/adminReview.jsx:160-167 | every question mapped to the same value |
| AdminReview.SetKey | frontend/src/pages/adminReview.jsx:211 | `{...d, [k]: v}`: an existing key is overwritten in place, a new one appended, others unchanged |
| AdminReview.SetKeyWellFormed | frontend/src/pages/adminReview.jsx:211 | marking a known question right or wrong keeps one mark per question |
| AdminReview.CountValue | frontend/src/pages/adminReview.jsx:184-186 | the count is 0 iff no entry has the value, and full iff all do |
| AdminReview.CountAnswered | frontend/src/pages/adminReview.jsx:187 | the count is full iff every entry is marked and 0 iff none is |
| AdminReview.MarksPartition | frontend/src/pages/adminReview.jsx:184-188 | right plus wrong is at most the answered count, and equal when every entry is a mark |
| AdminReview.TallyOf | frontend/src/pages/adminReview.jsx:182-200 | the total is 13 questions; all correct implies all answered; the percentage is in 0..100 |
| AdminReview.TallyWellFormed | frontend/src/pages/adminReview.jsx:182-200 | for one mark per question: right + wrong + unmarked = 13; `allCorrect` iff the server would approve; 100% iff the server would approve |
| AdminReview.AllCorrectIffAllTrue | frontend/src/pages/adminReview.jsx:190-199 | the page's "all correct" agrees with the server's approval rule |
| AdminReview.EmptyTally | frontend/src/pages/adminReview.jsx:182-200 | with no marks, all 13 are unanswered |
| AdminReview.Block | frontend/src/pages/adminReview.jsx:216-239 | rejecting is never blocked; approving is blocked first by unmarked answers, then by an unverified Steam check, then by wrong answers, each with its message; approval passes iff none applies |
| AdminReview.SentApprovalIsApproved | frontend/src/pages/adminReview.jsx:216-249 | an approval the page sends has a verified Steam check and is stored as `aprobada` |
| AdminReview.RejectWithAllRightApproves | frontend/src/pages/adminReview.jsx:241-249 | pressing "reject" with every answer right is sent and stored as `aprobada`, since the server ignores the button |
| AdminReview.ReviewPanel.OpenOne | frontend/src/pages/adminReview.jsx:156-172 | a loaded application resets every mark to unanswered, and clears the notes, Steam check and message; a failure keeps the marks and shows the error |
| AdminReview.ReviewPanel.SetAll | frontend/src/pages/adminReview.jsx:202-209 | with an application open, every question gets the value (all `true` means the server will approve); otherwise nothing changes |
| AdminReview.ReviewPanel.Toggle | frontend/src/pages/adminReview.jsx:211 | only the one decision changes, and the marks stay well formed |
| AdminReview.ReviewPanel.Approve | frontend/src/pages/adminReview.jsx:213-263 | a request is sent iff an application is open and `Block` is clear; it carries id, decisions, notes, Steam check and the button; a block shows its message |
| AdminAllWl.ParsedNotes | frontend/src/pages/allWL/AdminAllWL.jsx:240-249 | falsy notes give nothing, an object is used as is, and a string is `JSON.parse`d |
| AdminAllWl.SteamChipOf | frontend/src/pages/allWL/AdminAllWL.jsx:250-269 | the chip is "ok", "no hours" or "private" exactly for those stored values of `steam_check` |
| AdminAllWl.ServerNotesUnverified | frontend/src/pages/allWL/AdminAllWL.jsx:250-269 | notes as the server writes them show the unverified chip, because `steam_check` is never stored |
| AdminAllWl.MarkOf | frontend/src/pages/allWL/AdminAllWL.jsx:278-305 | a question shows correct iff its stored decision is `true`, and wrong iff it is `false` |
| AdminAllWl.ApprovedShowsAllCorrect | frontend/src/pages/allWL/AdminAllWL.jsx:278-305 | every decided question of an approved application shows correct |
| AdminAllWl.RejectedShowsSomeNotCorrect | frontend/src/pages/allWL/AdminAllWL.jsx:276-305 | on a rejected application whose decision keys are distinct and all among the listed questions, some listed question does not show correct |
| AdminAllWl.OffPageRejectionShowsAllCorrect | frontend/src/pages/allWL/AdminAllWL.jsx:11-36 | a rejection decided on a key the page does not list, with every listed question `true`, shows every listed question correct |
| AdminAllWl.TiempoRoleandoRejectionShowsAllCorrect | frontend/src/pages/allWL/AdminAllWL.jsx:11-36 | an application rejected only on `tiempo_roleando` shows all twelve listed questions correct |
| AdminAllWl.CorrectedPageShowsRejection | frontend/src/pages/adminReview.jsx:16-42 | with `tiempo_roleando` added to the page's list, every rejection whose keys come from the review page shows some question not correct |
| AdminAllWl.NotesViewOf | frontend/src/pages/allWL/AdminAllWL.jsx:324-342 | no notes gives "ninguna"; unparseable notes give the read error; shown notes are the stored non-blank `notas` text |
| AdminAllWl.StringNotesShownIffNotBlank | frontend/src/pages/allWL/AdminAllWL.jsx:324-342 | string notes are shown iff not blank |
| FormRules.TextOf | frontend/src/App.jsx:44-62 | a rule reads a string as itself and a falsy value as empty |
| FormRules.Req | frontend/src/App.jsx:44-46 | no message iff the value is filled |
| FormRules.Len | frontend/src/App.jsx:47-50 | no message iff the trimmed length is within bounds, else the rule's message |
| FormRules.NumRange | frontend/src/App.jsx:51-56 | no message iff one or two digits within the range; non-numbers get "solo números" |
| FormRules.UrlSteam | frontend/src/App.jsx:57-62 | no message iff the trimmed text is a Steam profile link |
| FormRules.SteamText | frontend/src/App.jsx:57-62 | the Steam check on a text: no message iff it is a profile link |
| FormRules.LowerPrefix | frontend/src/App.jsx:58-61 | a lower-cased text starts with a prefix iff the text starts with it ignoring case |
| FormRules.CiPrefixOfLower | frontend/src/App.jsx:58-61 | lower-casing keeps a case-insensitive prefix |
| FormRules.SteamLinkIgnoresCase | frontend/src/App.jsx:57-62 | the Steam rule accepts a link iff it accepts its lower-case form |
| FormRules.Flecca | frontend/src/App.jsx:40-41 | accepted iff `String(v).trim()` is one or two digits, so a missing field (`"undefined"`) is refused |
| FormRules.Run | frontend/src/App.jsx:20-42 | no message iff the rule accepts; the age rule says "Requerido" when empty and "solo números" for non-numbers |
| FormRules.AgeRule | frontend/src/App.jsx:21 | age is accepted iff a short number in range |
| FormRules.SteamRule | frontend/src/App.jsx:22 | the Steam rule is required and then a link |
| FormRules.NoSteamInEmpty | frontend/src/App.jsx:57-62 | the empty text is not a Steam link |
| FormRules.AcceptedIsFilled | frontend/src/App.jsx:20-42 | any answer a text-demanding rule accepts is filled |
| FormRules.UndefinedIsNotANumber | frontend/src/App.jsx:40-41 | the text "undefined" fails the flecca rule |
| FormRules.Errors | frontend/src/App.jsx:375-380 | one message per rule |
| FormRules.ErrorAt | frontend/src/App.jsx:375-380 | entry j is rule j's key with its message |
| FormRules.Validate | frontend/src/App.jsx:375-380 | the loop over `RULES` computes every rule's message |
| FormRules.FirstBadFrom | frontend/src/App.jsx:194-202 | the first rejected entry from a start point |
| FormRules.FirstBad | frontend/src/App.jsx:194-202 | none iff every message is empty; else the first rejected key in table order |
| FormRules.Gate | frontend/src/App.jsx:171-205 | no session stops at "sign in"; otherwise the captcha opens iff every rule accepts, and a refusal names the first rejected key |
| FormRules.CountTrue | frontend/src/App.jsx:162-165 | the count is full iff all are true and 0 iff none |
| FormRules.FilledFlags | frontend/src/App.jsx:162-165 | one filled flag per required key |
| FormRules.CountFilled | frontend/src/App.jsx:162-165 | the count is full iff every key is filled and 0 iff none |
| FormRules.Progress | frontend/src/App.jsx:162-167 | the progress bar lies in 0..100 |
| FormRules.ProgressEmpty | frontend/src/App.jsx:162-167 | nothing filled gives 0% |
| FormRules.ProgressFull | frontend/src/App.jsx:162-167 | 100% iff every key is filled (for fewer than 200 keys) |
| FormRules.SavedDraft | frontend/src/App.jsx:354-367 | the draft keeps every answer and blanks the four identity fields |
| FormRules.MembersMap | frontend/src/App.jsx:346-352 | a parsed object as a map, holding for each key the value lookup finds, which is its last occurrence |
| FormRules.LoadDraft | frontend/src/App.jsx:346-352 | a parsed object overrides the form's fields; anything else leaves the form as it was |
| FormRules.DraftRestoresAnswers | frontend/src/App.jsx:346-367 | reloading a saved draft restores its answers and keeps other fields, with a blank identity |
| FormRules.SessionFields | frontend/src/App.jsx:100-116 | sign-in copies the four identity fields from the session, leaving everything else |
| FormRules.SetField | frontend/src/App.jsx:132-141 | setting one field changes only that field |
| FormRules.BlankAll | frontend/src/App.jsx:316-330 | the listed fields become empty strings and the rest is kept |
| FormRules.BlankAllKeeps | frontend/src/App.jsx:316-330 | a field not in the list is unchanged |
| FormRules.BlankedIsEmpty | frontend/src/App.jsx:162-167 | blanked fields count as unfilled |
| FormRules.EmptyNotFilled | frontend/src/App.jsx:162-165 | the empty string is not filled |
| FormRules.NombreFilled | frontend/src/App.jsx:311-313 | the `username \| id` line is always filled |
| FormRules.SeparatedNotBlank | frontend/src/App.jsx:311-313 | text containing " \| " is never blank |
| FrontendForm.TableShape | frontend/src/App.jsx:20-42 | the rule table has the 15 progress keys, in the same order, each well formed and demanding text |
| FrontendForm.HandleSubmit | frontend/src/App.jsx:171-205 | the captcha opens iff signed in and every rule accepts; otherwise sign-in or the first rejected key |
| FrontendForm.SubmittableIsComplete | frontend/src/App.jsx:162-205 | a form that opens the captcha shows 100% |
| FrontendForm.ProgressOfForm | frontend/src/App.jsx:143-167 | the bar is in 0..100 and 100 iff all 15 answers are filled |
| FrontendForm.ResetIdentity | frontend/src/App.jsx:305-313 | `Limpiar` takes each identity field from the session, else the form, else its empty value, and rebuilds `nombre_y_id_discord` |
| FrontendForm.ClearForm | frontend/src/App.jsx:300-344 | `Limpiar` empties every answer and keeps every field outside the identity |
| FrontendForm.IdentityIsNoAnswer | frontend/src/App.jsx:143-160 | no identity field is an answer |
| FrontendForm.ClearKeepsIdentity | frontend/src/App.jsx:305-309 | with a matching or absent session, `Limpiar` keeps the identity the form holds |
| FrontendForm.KeptField | frontend/src/App.jsx:305-307 | a present identity field matching the session is kept |
| FrontendForm.KeptGuildFlag | frontend/src/App.jsx:308 | a boolean guild flag matching the session is kept |
| FrontendForm.ClearedProgressIsZero | frontend/src/App.jsx:300-344 | after `Limpiar` the progress bar is 0 |
| FrontendForm.SignIn | frontend/src/App.jsx:100-116 | sign-in copies the identity and leaves `nombre_y_id_discord` as it was |
| FrontendForm.NoNombreIsRefused | backend/routes/wl.js:59-72 | a form without `nombre_y_id_discord` is refused with that key, whatever else it holds |
| RootForm.TableShape | src/App.jsx:11-34 | the rule table has the 16 progress keys in order, each well formed and demanding text |
| RootForm.ProgressOfForm | src/App.jsx:119-144 | the bar is in 0..100 and 100 iff all 16 fields are filled |
| RootForm.SignIn | src/App.jsx:89-106 | sign-in copies the identity and writes `username \| id` into `nombre_y_id_discord` |
| RootForm.SignedInNombreAccepted | src/App.jsx:101 | after sign-in the name rule accepts |
| RootForm.SubmitReply | backend/routes/wl.js:131 | an accepted submission answers with its id and no error; a refusal with its error code |
| RootForm.ErrorMessage | src/App.jsx:196 | the message is never empty, and it is the error text when that text is non-empty |
| RootForm.Respond | src/App.jsx:180-228 | the cooldown shows iff the error is COOLDOWN_ACTIVO (with a date iff `until`); success needs no error and a truthy `id ?? data.id`; a failure has a message |
| RootForm.AcceptedShowsSent | src/App.jsx:196-202 | an accepted submission with id >= 1 is shown as sent |
| RootForm.ZeroIdIsInvalid | src/App.jsx:198-199 | an id of 0 is reported as an invalid reply |
| RootForm.CooldownShown | src/App.jsx:183-194 | a cooldown refusal shows the cooldown notice, with a date iff its time is non-zero |
| RootForm.RefusalShowsCode | src/App.jsx:196 | any other refusal shows its error code |
| RootForm.AfterSubmit | src/App.jsx:205-223 | after sending, every answer is empty, the name line is rebuilt, and all other fields are kept |
| RootForm.NombreIsNoAnswer | src/App.jsx:205-223 | the name line is not among the cleared answers |
| RootForm.SentProgress | src/App.jsx:139-144 | after sending the bar shows 6%, since the name line stays filled |
| RootForm.OneOfSixteen | src/App.jsx:139-144 | one filled field out of 16 rounds to 6% |
| RootForm.RoundsToSix | src/App.jsx:143 | `Math.round(1/16*100)` is 6 |
| RootForm.FilledIsPresent | backend/routes/wl.js:68-72 | a filled text field passes the server's presence check |
| RootForm.ServerKeysOnPage | backend/routes/wl.js:59-67 | every server-required answer is on the page's list |
| RootForm.ValidFormPassesServer | backend/routes/wl.js:59-72 | a form this page would send passes the server's required-field check |
| RootForm.IdentityPresent | backend/routes/wl.js:59-72 | such a form holds both identity fields |
| RootForm.AnswerPresent | backend/routes/wl.js:59-72 | such a form holds every required answer |
| RootForm.HandleSubmit | src/App.jsx:146-232 | against the store with the corrected submission (the new row carries the applicant's attempts): no session or a rejected field changes nothing; otherwise the store's verdict decides between sent (row added, answers cleared), cooldown and a failure; a signed-in valid form is always sent or refused only by a cooldown |
| Common.LookupMember | frontend/src/pages/allWL/AdminAllWL.jsx:240-249 | a member is found iff the object has that key, with the value of a member carrying it |
| Common.LookupFindsLast | frontend/src/pages/allWL/AdminAllWL.jsx:240-249 | the value found is the last member with the key, as `JSON.parse` keeps it |
| Common.Nullish | frontend/src/App.jsx:305-308 | `a ?? b` is a unless a is missing or null |
| Common.Trim | backend/routes/wl.js:70 | `trim` never lengthens and leaves no white space at either end |
| Common.BlankIffAllSpace | backend/routes/wl.js:70 | blank after trim iff every character is white space |
| Common.TrimIdempotent | frontend/src/App.jsx:47-50 | trimming twice equals trimming once |
| Common.Contains | frontend/src/pages/adminReview.jsx:270-271 | `includes` iff the text occurs at some position |
| Common.ContainsWithin | frontend/src/pages/adminReview.jsx:270-271 | text around a match keeps the match |
| Common.ContainsSelf | frontend/src/pages/adminReview.jsx:270-271 | every text includes itself |
| Common.ToLower | frontend/src/App.jsx:57-62 | lower-casing keeps the length and maps each character |
| Common.NatToString | frontend/src/pages/adminReview.jsx:270 | `String(n)` is a digit string without leading zero |
| Common.NatToStringValue | frontend/src/pages/adminReview.jsx:270 | the digits read back as n |
| Common.NatToStringInjective | frontend/src/pages/adminReview.jsx:270 | different numbers print differently |
| Common.RoundPercent | frontend/src/App.jsx:166 | `Math.round(part/whole*100)` is within half a unit of the exact percentage, and in 0..100 for 0 <= part <= whole |
| Common.RoundZero | frontend/src/App.jsx:166 | nothing filled rounds to 0% |
| Common.FullIffAll | frontend/src/pages/adminReview.jsx:189 | for fewer than 200 items, the rounded percentage is 100 iff all are counted |
| Common.Split | backend/routes/wl.js:8-11 | `split` gives at least one piece, none with the separator, and joining them back gives the text |
| Common.SplitJoin | backend/routes/wl.js:8-11 | splitting a join of separator-free pieces gives the pieces back |
| Common.PartInJoin | backend/services/discordBot.js:108-110 | each joined piece occurs in the joined text |

## Left out

- The PostgreSQL pool's transactions, row locks and `BEGIN`/`COMMIT`/`ROLLBACK`
  are not modelled. Each route is one atomic step on `WlStore`.
- A database failure is not modelled, and neither is the generic 500 reply `{error: e.message}`.
- The Discord REST API and the OAuth token exchange are replies passed in as
  parameters. Signing the JWT and setting the cookie are left out.
- `buildOAuthUrl`, the `/discord` alias, `/auth/me` and `/auth/logout` are
  left out. They only forward to Discord or read or clear the cookie.
- `GET /wl/list` and `GET /wl/detail/:id` (read-only listings) are left out.
- `notifyNewWhitelist` and the message delivery of `postWeeklyRanking` are left out.
  These are Discord sends. The ranking's text, `formatRanking`, is modelled.
- Timers (`setInterval`, `setTimeout`) are left out. The scheduling arithmetic
  is modelled.
- The periodic deletion of old rows is not part of this model.
- Local time zones and daylight saving time are not modelled. Time is
  milliseconds since a Sunday 00:00 local time, and the hour and date stamp
  are inputs.
- DiscordBot.Used: a `NaN` or fractional `intentos` is not modelled; the
  count is an integer.
- JSON numbers in parsed bodies and stored records are integers in the model.
  The computed percentage and the parsed `minimo_policias_flecca` are exact
  rationals.
- WlRoutes.StringToNumber: the value read is the exact rational the literal
  denotes. Rounding it to the nearest double is not modelled, so digits past
  double precision and magnitudes below the smallest double keep their exact
  value. Values that round to `Infinity` are refused as JavaScript refuses
  them.
- WlRoutes.TextAnswers: a row keeps each answer as the value the route hands
  to the insert. The text the PostgreSQL driver writes for it is not
  modelled: an array becomes an array literal, an object JSON text, and any
  other value `String(v)`.
- JsCodecs: the decoders are strict. Node's lenient handling of malformed
  base64 or UTF-8 is not modelled, so a malformed state falls back to `/`.
- JavaScript `length` counts UTF-16 code units. The model counts code points,
  which differ only outside the Basic Multilingual Plane.
- `toLowerCase` is ASCII only. Other letters are kept as they are.
- React rendering, `localStorage`, ReCAPTCHA, scrolling and the
  `touched`/`onBlur` bookkeeping are left out. The states' effects are fields
  and parameters.
- The `update`/`validateField` single-field handlers are not modelled apart
  from `SetField` and the rule functions they call.
- The review page's "Guardado" confirmation text is left out.
- `SteamLinkChip` on the review page (a link renderer) is left out.
- A stored draft that is a JSON string or array is not modelled. Spreading it
  would add index keys.
- On `frontend/src/App.jsx`, the captcha callback's LIMITE_INTENTOS,
  NO_GUILD_MEMBER and YA_ENVIADA messages are left out, since no route shown
  here produces them. So is its post-submit clear.
- Dates formatted for display (`toLocaleString`) are a boolean "with a date".
- `frontend/src/lib/auth.js`, `backend/server.js` and `backend/db.js` are
  not part of this model. They are a fetch wrapper, Express wiring and the pool.
- The posted form is sent and read back by `JSON.stringify`/`express.json`.
  That transfer is taken as identity.
- Network failures of `fetch` are not modelled.
- The column default of `intentos` is a parameter of `WlStore`. The schema is
  not part of this model.
- FrontendForm.ClearForm: the contract does not state the exact key set of
  the result. It states the answers and the kept fields, and `ResetIdentity`
  states the identity.

## Findings

| source | as written | input that shows it | evidently intended | confidence | as-written member | corrected member |
|---|---|---|---|---|---|---|
| backend/routes/wl.js:94-120 | the insert never sets `intentos`, so each new application starts from the column default, while the review (wl.js:204-206) adds one to that row's own counter and suspends only at 3 | with default 0, one applicant applies and is rejected three times in a row: every row ends with `intentos` 1, no cooldown is ever set, and a fourth application is accepted | a new application carries the applicant's latest `intentos`, so the third rejection sets the 7-day cooldown and the next application is refused with COOLDOWN_ACTIVO | not executed | WlRoutes.ThreeRejectionsAsWritten | WlRoutes.ThreeRejectionsCarried |
| frontend/src/pages/allWL/AdminAllWL.jsx:11-36 | the archive page lists twelve questions and leaves out `tiempo_roleando`, which the review page (adminReview.jsx:40) marks and the approval rule counts | an application the reviewer rejected only for `tiempo_roleando`, every other question marked right, shows all twelve questions as correct although it was rejected | the page lists the same thirteen questions as the review page, so a rejection always shows some question not correct | not executed | AdminAllWl.TiempoRoleandoRejectionShowsAllCorrect | AdminAllWl.CorrectedPageShowsRejection |

Where the project's documented behaviour reads differently, the model follows the code:

- There is no submission gate on a count of earlier applications. Only a
  running cooldown refuses.
- The attempt counter is stored per row and is not carried from one
  application to the next.
