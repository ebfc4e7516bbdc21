/** The two calls src/server.js makes to the Discord bot's internal API,
    `approveInBot` and `notifyDecisionInBot`. The HTTP exchange itself is
    not modelled: the bot's reply is an input, and what is modelled is the
    decision whether to send a request at all, the request built, and how
    a reply is classified. */
module Bot {
  import opened JsValues
  import opened Settings

  /** The parsed JSON body of a bot reply, when it parsed to something
      truthy: its `ok` and `error` members and the remaining members. */
  datatype ReplyBody = ReplyBody(ok: Option<Value>, error: Option<Value>, others: map<string, Value>)

  /** What `fetch` gave back: a thrown error with its message, or a
      response with its `ok` flag, status code and body (`None` when the
      body did not parse or parsed to a falsy value). */
  datatype Reply =
    | ConnectionFailed(message: string)
    | Replied(httpOk: bool, status: int, body: Option<ReplyBody>)

  /** `response.ok && body && body.ok === true`. */
  predicate Succeeded(reply: Reply) {
    reply.Replied? && reply.httpOk && reply.body.Some? && reply.body.value.ok == Some(Bool(true))
  }

  /** The fields of an application record the bot calls read. */
  datatype Subject = Subject(
    id: string,
    guildId: Option<string>,
    discordUserId: string,
    targetGuildId: string,
    targetRoleId: string,
    formName: string)

  /** The JSON payload of the approve request; `roleId` is omitted when
      `None`. */
  datatype GrantRequest = GrantRequest(
    guildId: string,
    userId: string,
    roleId: Option<string>,
    applicationId: string,
    formName: string)

  /** The JSON payload of the notify request. */
  datatype NotifyRequest = NotifyRequest(
    userId: string,
    status: string,
    guildId: string,
    roleId: string,
    applicationId: string,
    formName: string,
    note: string)

  /** The `{ ok, error }` / `{ ok, body }` object the two helpers resolve to. */
  datatype BotResult = Done(body: Option<ReplyBody>) | Failed(error: Value)

  /** `error` as the redirect message spells it. */
  function ErrorText(r: BotResult): string
    requires r.Failed?
  {
    ToStr(r.error)
  }

  /** `a || b` on strings. */
  function OrText(a: string, b: string): (r: string)
    ensures a != "" ==> r == a
    ensures a == "" ==> r == b
  {
    if a != "" then a else b
  }

  const MissingApproveConfig: string := "Missing BOT_APPROVE_URL or BOT_INTERNAL_API_SECRET in web .env."
  const MissingNotifyConfig: string := "Missing BOT_NOTIFY_URL or BOT_INTERNAL_API_SECRET in web .env."
  const MissingTargetGuild: string := "Missing target guild for this application/form."

  /** The guild the approval is granted in: the application's target guild,
      else its guild, else `GUILD_ID`, trimmed. */
  function GrantGuild(s: Subject, cfg: Config): (g: string)
    ensures Trimmed(g)
    ensures s.targetGuildId != "" ==> g == Trim(s.targetGuildId)
    ensures s.targetGuildId == "" && s.guildId.Some? && s.guildId.value != "" ==> g == Trim(s.guildId.value)
    ensures s.targetGuildId == "" && (s.guildId.None? || s.guildId.value == "") ==> g == Trim(cfg.guildId)
  {
    var stored := if s.guildId.Some? then s.guildId.value else "";
    Trim(OrText(s.targetGuildId, OrText(stored, cfg.guildId)))
  }

  /** Either a request to send or the error returned instead. */
  datatype Decision<T> = Send(request: T) | Refused(error: string)

  /** The decision `approveInBot` takes before any request: the request
      when one is sent, or the error it resolves to without sending. */
  function ApproveRequest(s: Subject, cfg: Config): (r: Decision<GrantRequest>)
    ensures r.Refused? <==> cfg.approveUrl == "" || cfg.secret == "" || GrantGuild(s, cfg) == ""
    ensures r.Refused? && (cfg.approveUrl == "" || cfg.secret == "") ==> r.error == MissingApproveConfig
    ensures r.Refused? && cfg.approveUrl != "" && cfg.secret != "" ==> r.error == MissingTargetGuild
    ensures r.Send? ==> r.request.guildId == GrantGuild(s, cfg) != ""
    ensures r.Send? ==> r.request.userId == s.discordUserId && r.request.applicationId == s.id
    ensures r.Send? ==> r.request.formName == s.formName
    ensures r.Send? ==> (r.request.roleId.None? <==> s.targetRoleId == "" && cfg.baseMemberRoleId == "")
    ensures r.Send? && s.targetRoleId != "" ==> r.request.roleId == Some(s.targetRoleId)
  {
    if cfg.approveUrl == "" || cfg.secret == "" then Refused(MissingApproveConfig)
    else
      var guild := GrantGuild(s, cfg);
      if guild == "" then Refused(MissingTargetGuild)
      else
        var role := OrText(s.targetRoleId, cfg.baseMemberRoleId);
        Send(GrantRequest(guild, s.discordUserId, if role == "" then None else Some(role), s.id, s.formName))
  }

  /** How a reply to a sent request is classified; `service` is "Bot API" or
      "Bot notify". */
  function Classify(reply: Reply, service: string): (r: BotResult)
    ensures r.Done? <==> Succeeded(reply)
    ensures r.Done? ==> r.body == reply.body
    ensures reply.ConnectionFailed? ==> r == Failed(Str(service + " connection failed: " + reply.message))
    ensures reply.Replied? && !Succeeded(reply) ==>
      (if reply.body.Some? && reply.body.value.error.Some? && Truthy(reply.body.value.error.value)
       then r == Failed(reply.body.value.error.value)
       else r == Failed(Str(service + " HTTP " + IntToString(reply.status))))
  {
    match reply
    case ConnectionFailed(message) => Failed(Str(service + " connection failed: " + message))
    case Replied(httpOk, status, body) =>
      if !httpOk || body.None? || body.value.ok != Some(Bool(true)) then
        if body.Some? && body.value.error.Some? && Truthy(body.value.error.value)
        then Failed(body.value.error.value)
        else Failed(Str(service + " HTTP " + IntToString(status)))
      else Done(body)
  }

  /** `approveInBot(application)`: `reply` is what the bot answers if a
      request is sent; it is not consulted otherwise. */
  function ApproveInBot(s: Subject, cfg: Config, reply: Reply): (r: BotResult)
    ensures r.Done? <==> ApproveRequest(s, cfg).Send? && Succeeded(reply)
    ensures r.Done? ==> r.body == reply.body
    ensures ApproveRequest(s, cfg).Refused? ==> r == Failed(Str(ApproveRequest(s, cfg).error))
  {
    var decision := ApproveRequest(s, cfg);
    if decision.Refused? then Failed(Str(decision.error)) else Classify(reply, "Bot API")
  }

  /** The notify payload: guild and role fall back like the grant's, but
      nothing is trimmed and a missing guild does not stop the call. */
  function NotifyPayload(s: Subject, cfg: Config, status: string, note: string): (p: NotifyRequest)
    ensures p.userId == s.discordUserId && p.applicationId == s.id && p.formName == s.formName
    ensures p.status == Upper(status) && p.note == note
    ensures s.targetGuildId != "" ==> p.guildId == s.targetGuildId
    ensures s.targetGuildId == "" && s.guildId.Some? && s.guildId.value != "" ==> p.guildId == s.guildId.value
    ensures s.targetGuildId == "" && (s.guildId.None? || s.guildId.value == "") ==> p.guildId == cfg.guildId
    ensures s.targetRoleId != "" ==> p.roleId == s.targetRoleId
    ensures s.targetRoleId == "" ==> p.roleId == cfg.baseMemberRoleId
  {
    var stored := if s.guildId.Some? then s.guildId.value else "";
    NotifyRequest(
      s.discordUserId, Upper(status),
      OrText(s.targetGuildId, OrText(stored, cfg.guildId)),
      OrText(s.targetRoleId, cfg.baseMemberRoleId),
      s.id, s.formName, note)
  }

  /** `notifyDecisionInBot(...)`: only the configuration is checked before
      the request; a successful notify carries no body. */
  function NotifyInBot(cfg: Config, reply: Reply): (r: BotResult)
    ensures r.Done? <==> cfg.notifyUrl != "" && cfg.secret != "" && Succeeded(reply)
    ensures r.Done? ==> r.body.None?
    ensures (cfg.notifyUrl == "" || cfg.secret == "") ==> r == Failed(Str(MissingNotifyConfig))
  {
    if cfg.notifyUrl == "" || cfg.secret == "" then Failed(Str(MissingNotifyConfig))
    else
      var c := Classify(reply, "Bot notify");
      if c.Done? then Done(None) else c
  }

  /** With the settings resolved from the environment, only a missing
      secret can stop either call on configuration grounds. */
  lemma OnlySecretCanBeMissing(env: map<string, string>, s: Subject)
    ensures var cfg := FromEnv(env);
      ApproveRequest(s, cfg) == Refused(MissingApproveConfig) <==> !IsSet(env, "BOT_INTERNAL_API_SECRET")
  {
  }
}
