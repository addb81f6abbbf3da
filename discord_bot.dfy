/** The Discord bot's bookkeeping after a review: how many of the three
    attempts a result message reports as used and left, which suspension
    role an attempt number selects, and how the member's role set changes on
    approval and on suspension. Role ids come from the environment; an unset
    variable is the empty string, which the code treats as "no such role".
    A member's roles are a set the bot edits in place. */
module DiscordBot {
  import opened Common

  /** `MAX_ATTEMPTS`. */
  const MAX_ATTEMPTS: int := 3

  /** The configured role ids: `DISCORD_ROLE_WL_APROBADA` and the three
      `DISCORD_ROLE_WL_SUSP*` variables. */
  datatype RoleConfig = RoleConfig(wlOk: string, susp1: string, susp2: string, susp3: string)
  {
    /** `[ROLE_SUSP1, ROLE_SUSP2, ROLE_SUSP3]`, the list both role helpers walk. */
    function Suspensions(): (s: seq<string>)
      ensures |s| == 3
    {
      [susp1, susp2, susp3]
    }
  }

  /** The configured (non-empty) ids among `ids`. */
  function Configured(ids: seq<string>): (r: set<string>)
    ensures forall x :: x in r <==> x in ids && x != ""
  {
    set i | 0 <= i < |ids| && ids[i] != "" :: ids[i]
  }

  // ---------------------------------------------------------------------
  // Attempts used and left

  /** `Math.min(MAX_ATTEMPTS, Math.max(0, attempts))`. */
  function Used(attempts: int): (u: int)
    ensures 0 <= u <= MAX_ATTEMPTS
    ensures 0 <= attempts <= MAX_ATTEMPTS ==> u == attempts
    ensures attempts < 0 ==> u == 0
    ensures attempts > MAX_ATTEMPTS ==> u == MAX_ATTEMPTS
  {
    var lo := if attempts < 0 then 0 else attempts;
    if lo < MAX_ATTEMPTS then lo else MAX_ATTEMPTS
  }

  /** `Math.max(0, MAX_ATTEMPTS - used)`. */
  function Left(attempts: int): (l: int)
    ensures 0 <= l <= MAX_ATTEMPTS
    ensures l + Used(attempts) == MAX_ATTEMPTS
  {
    var l := MAX_ATTEMPTS - Used(attempts);
    if l < 0 then 0 else l
  }

  /** Attempts left never grow as attempts used grow. */
  lemma LeftAntitone(a: int, b: int)
    requires a <= b
    ensures Left(b) <= Left(a)
  {
  }

  // ---------------------------------------------------------------------
  // Suspension role

  /** `{ 1: SUSP1, 2: SUSP2, 3: SUSP3 }[intentoNum] || SUSP3`: an attempt
      number without a configured role of its own falls back to SUSP3. */
  function SuspensionTarget(c: RoleConfig, intentoNum: int): (t: string)
    ensures 1 <= intentoNum <= 3 && c.Suspensions()[intentoNum - 1] != "" ==> t == c.Suspensions()[intentoNum - 1]
    ensures !(1 <= intentoNum <= 3 && c.Suspensions()[intentoNum - 1] != "") ==> t == c.susp3
  {
    var picked := if intentoNum == 1 then c.susp1
                  else if intentoNum == 2 then c.susp2
                  else if intentoNum == 3 then c.susp3
                  else "";
    if picked != "" then picked else c.susp3
  }

  /** With all three roles configured, attempt `n` in 1..3 gets the n-th role
      and any other number the third. */
  lemma SuspensionTargetConfigured(c: RoleConfig, n: int)
    requires c.susp1 != "" && c.susp2 != "" && c.susp3 != ""
    ensures 1 <= n <= 3 ==> SuspensionTarget(c, n) == c.Suspensions()[n - 1]
    ensures !(1 <= n <= 3) ==> SuspensionTarget(c, n) == c.susp3
    ensures SuspensionTarget(c, n) in c.Suspensions()
  {
  }

  // ---------------------------------------------------------------------
  // Role sets

  /** The roles after `setApprovedRole`: every configured suspension role
      removed, then the approved role added. */
  function ApprovedRoles(c: RoleConfig, roles: set<string>): (r: set<string>)
    ensures c.wlOk != "" ==> c.wlOk in r
    ensures forall s :: s in c.Suspensions() && s != "" && s != c.wlOk ==> s !in r
    ensures forall x :: x != c.wlOk && x !in c.Suspensions() ==> (x in r <==> x in roles)
  {
    (roles - Configured(c.Suspensions())) + (if c.wlOk != "" then {c.wlOk} else {})
  }

  /** The roles after `setSuspensionRole`: the approved role and every
      configured suspension role removed, then the target added. */
  function SuspendedRoles(c: RoleConfig, roles: set<string>, intentoNum: int): (r: set<string>)
    ensures var t := SuspensionTarget(c, intentoNum);
            && (t != "" ==> t in r)
            && (c.wlOk != "" && c.wlOk != t ==> c.wlOk !in r)
            && (forall s :: s in c.Suspensions() && s != "" && s != t ==> s !in r)
    ensures forall x :: x != c.wlOk && x !in c.Suspensions() ==> (x in r <==> x in roles)
  {
    var t := SuspensionTarget(c, intentoNum);
    var withoutOk := if c.wlOk != "" then roles - {c.wlOk} else roles;
    (withoutOk - Configured(c.Suspensions())) + (if t != "" then {t} else {})
  }

  /** Suspending and then approving a member leaves exactly the roles an
      approval alone would: the suspension leaves no trace. */
  lemma {:induction false} ApprovalUndoesSuspension(c: RoleConfig, roles: set<string>, n: int)
    ensures ApprovedRoles(c, SuspendedRoles(c, roles, n)) == ApprovedRoles(c, roles)
  {
    var a := ApprovedRoles(c, SuspendedRoles(c, roles, n));
    var b := ApprovedRoles(c, roles);
    forall x ensures x in a <==> x in b {
      if x == c.wlOk || x in c.Suspensions() {
      }
    }
  }

  /** A member holds at most one of the three suspension roles after a
      suspension, when the roles are configured and distinct. */
  lemma OneSuspensionRole(c: RoleConfig, roles: set<string>, n: int)
    requires c.susp1 != "" && c.susp2 != "" && c.susp3 != ""
    requires c.wlOk != "" && c.wlOk !in c.Suspensions()
    ensures var r := SuspendedRoles(c, roles, n);
            && c.wlOk !in r
            && (set s | s in c.Suspensions() && s in r) == {SuspensionTarget(c, n)}
  {
    var r := SuspendedRoles(c, roles, n);
    var t := SuspensionTarget(c, n);
    SuspensionTargetConfigured(c, n);
    assert t in r;
    assert (set s | s in c.Suspensions() && s in r) == {t};
  }

  // ---------------------------------------------------------------------
  // Result message

  function Mention(userId: string): string {
    "<@" + userId + ">"
  }

  function ApprovedText(userId: string): string {
    "\U{1F389} **¡Felicidades, " + Mention(userId)
    + "! Has aprobado la Whitelist de VilanovaCity. ¡Te esperamos en la ciudad!**"
  }

  function LeftText(left: int): string {
    "Intentos restantes: `" + IntToString(left) + "`"
  }

  function RejectedHead(userId: string, left: int): string {
    "❌ Has suspendido la Whitelist " + Mention(userId) + " — " + LeftText(left)
  }

  const MOTIVOS: string := "\n**Motivos:** "

  function Bullet(r: string): string {
    "• " + r
  }

  /** The text `sendResultMessage` posts. */
  function ResultText(userId: string, approved: bool, attempts: int, reasons: seq<string>): string {
    if approved then ApprovedText(userId)
    else
      var head := RejectedHead(userId, Left(attempts));
      if |reasons| > 0 then
        head + MOTIVOS + Join(seq(|reasons|, i requires 0 <= i < |reasons| => Bullet(reasons[i])), ' ')
      else head
  }

  /** An approval carries no count and no reasons. */
  lemma ApprovalIgnoresCount(userId: string, a: int, b: int, rs: seq<string>, ts: seq<string>)
    ensures ResultText(userId, true, a, rs) == ResultText(userId, true, b, ts) == ApprovedText(userId)
  {
  }

  /** A rejection states the attempts left; without reasons that is all it
      says, and with reasons it lists every one of them as a bullet. */
  lemma RejectionText(userId: string, attempts: int, reasons: seq<string>)
    ensures var m := ResultText(userId, false, attempts, reasons);
            && StartsWith(m, RejectedHead(userId, Left(attempts)))
            && Contains(m, LeftText(Left(attempts)))
            && (reasons == [] ==> m == RejectedHead(userId, Left(attempts)))
            && (reasons != [] ==> StartsWith(m, RejectedHead(userId, Left(attempts)) + MOTIVOS))
            && (forall i :: 0 <= i < |reasons| ==> Contains(m, Bullet(reasons[i])))
  {
    var left := Left(attempts);
    var head := RejectedHead(userId, left);
    var m := ResultText(userId, false, attempts, reasons);
    var bullets := seq(|reasons|, i requires 0 <= i < |reasons| => Bullet(reasons[i]));
    var tail := if |reasons| > 0 then MOTIVOS + Join(bullets, ' ') else "";
    assert m == head + tail;
    assert m[..|head|] == head;
    ContainsSelf(LeftText(left));
    ContainsWithin("❌ Has suspendido la Whitelist " + Mention(userId) + " — ", LeftText(left), tail, LeftText(left));
    if reasons != [] {
      assert m[..|head + MOTIVOS|] == head + MOTIVOS;
    }
    forall i | 0 <= i < |reasons| ensures Contains(m, Bullet(reasons[i])) {
      PartInJoin(bullets, ' ', i);
      ContainsWithin(head + MOTIVOS, Join(bullets, ' '), "", bullets[i]);
      assert head + MOTIVOS + Join(bullets, ' ') + "" == m;
    }
  }

  // ---------------------------------------------------------------------
  // The bot

  /** A guild member as the bot sees it: the set of role ids it holds. */
  class Member {
    var roles: set<string>

    constructor (roles: set<string>)
      ensures this.roles == roles
    {
      this.roles := roles;
    }
  }

  /** The bot client: its role configuration and the `ready` flag set by the
      gateway's `ready` event. Every helper is a no-op until then. */
  class Bot {
    const cfg: RoleConfig
    var ready: bool

    constructor (cfg: RoleConfig)
      ensures this.cfg == cfg && !ready
    {
      this.cfg := cfg;
      ready := false;
    }

    /** The `ready` event handler. */
    method OnReady()
      modifies this
      ensures ready
    {
      ready := true;
    }

    /** The removal loop shared by both helpers: each configured suspension
        role, in order, is removed. */
    method RemoveSuspensions(m: Member)
      modifies m
      ensures m.roles == old(m.roles) - Configured(cfg.Suspensions())
    {
      var susp := cfg.Suspensions();
      for i := 0 to |susp|
        invariant m.roles == old(m.roles) - Configured(susp[..i])
      {
        assert susp[..i + 1] == susp[..i] + [susp[i]];
        if susp[i] != "" {
          m.roles := m.roles - {susp[i]};
        }
      }
      assert susp[..|susp|] == susp;
    }

    /** `setApprovedRole`: `m` is the fetched member, `null` when the guild
        or the member could not be fetched (the error is logged and nothing
        changes). */
    method SetApprovedRole(m: Member?)
      modifies m
      ensures m != null && ready ==> m.roles == ApprovedRoles(cfg, old(m.roles))
      ensures m != null && !ready ==> m.roles == old(m.roles)
    {
      if !ready || m == null {
        return;
      }
      RemoveSuspensions(m);
      if cfg.wlOk != "" {
        m.roles := m.roles + {cfg.wlOk};
      }
    }

    /** `setSuspensionRole`. */
    method SetSuspensionRole(m: Member?, intentoNum: int)
      modifies m
      ensures m != null && ready ==> m.roles == SuspendedRoles(cfg, old(m.roles), intentoNum)
      ensures m != null && !ready ==> m.roles == old(m.roles)
    {
      if !ready || m == null {
        return;
      }
      if cfg.wlOk != "" {
        m.roles := m.roles - {cfg.wlOk};
      }
      RemoveSuspensions(m);
      var target := SuspensionTarget(cfg, intentoNum);
      if target != "" {
        m.roles := m.roles + {target};
      }
    }

    /** `sendResultMessage`: the text posted to the result channel, nothing
        while the bot is not ready. */
    method SendResultMessage(userId: string, approved: bool, attempts: int, reasons: seq<string>)
      returns (sent: Option<string>)
      ensures sent.Some? <==> ready
      ensures sent.Some? ==> sent.value == ResultText(userId, approved, attempts, reasons)
      ensures sent.Some? && approved ==> sent.value == ApprovedText(userId)
      ensures sent.Some? && !approved ==> StartsWith(sent.value, RejectedHead(userId, Left(attempts)))
    {
      if !ready {
        return None;
      }
      var content := ResultText(userId, approved, attempts, reasons);
      RejectionText(userId, attempts, reasons);
      return Some(content);
    }
  }
}
