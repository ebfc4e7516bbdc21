/** The environment settings src/server.js reads at start-up, with the
    `process.env.X || fallback` defaults it applies. */
module Settings {

  datatype Config = Config(
    guildId: string,
    baseMemberRoleId: string,
    approveUrl: string,
    notifyUrl: string,
    secret: string)

  const DefaultApproveUrl: string := "http://127.0.0.1:3001/internal/base-member/approve"
  const DefaultNotifyUrl: string := "http://127.0.0.1:3001/internal/base-member/notify"

  /** `process.env[key] || fallback`: an unset or empty variable falls back. */
  function EnvOr(env: map<string, string>, key: string, fallback: string): string {
    if key in env && env[key] != "" then env[key] else fallback
  }

  predicate IsSet(env: map<string, string>, key: string) {
    key in env && env[key] != ""
  }

  /** The settings as the server resolves them. Both bot URLs have built-in
      defaults, so of the "missing configuration" checks only the shared
      secret can ever fire. */
  function FromEnv(env: map<string, string>): (c: Config)
    ensures c.approveUrl != "" && c.notifyUrl != ""
    ensures c.secret == "" <==> !IsSet(env, "BOT_INTERNAL_API_SECRET")
    ensures c.guildId == "" <==> !IsSet(env, "GUILD_ID")
    ensures c.baseMemberRoleId == "" <==> !IsSet(env, "BASE_MEMBER_ROLE_ID")
  {
    Config(
      EnvOr(env, "GUILD_ID", ""),
      EnvOr(env, "BASE_MEMBER_ROLE_ID", ""),
      EnvOr(env, "BOT_APPROVE_URL", DefaultApproveUrl),
      EnvOr(env, "BOT_NOTIFY_URL", DefaultNotifyUrl),
      EnvOr(env, "BOT_INTERNAL_API_SECRET", ""))
  }
}
