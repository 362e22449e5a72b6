/**
 * The environment classification of lib/env.ts. The process environment is a
 * parameter: a map from variable names to values, where an absent name is an
 * unset variable (`undefined`).
 */
module Env {
  import opened Common

  datatype AppEnv = Development | Preview | Staging | Production

  type Environment = map<string, string>

  function Get(env: Environment, name: string): Option<string> {
    if name in env then Some(env[name]) else None
  }

  /** The four values `NEXT_PUBLIC_APP_ENV` may name explicitly. */
  function AppEnvNamed(value: Option<string>): Option<AppEnv> {
    if value == Some("production") then Some(Production)
    else if value == Some("staging") then Some(Staging)
    else if value == Some("preview") then Some(Preview)
    else if value == Some("development") then Some(Development)
    else None
  }

  /** A Vercel production deployment built from a branch other than `main` (an unset or empty ref is `main`). */
  predicate NonMainProductionBuild(env: Environment) {
    && Get(env, "VERCEL_ENV") == Some("production")
    && Get(env, "VERCEL_GIT_COMMIT_REF").Some?
    && Get(env, "VERCEL_GIT_COMMIT_REF").value != ""
    && Get(env, "VERCEL_GIT_COMMIT_REF").value != "main"
  }

  /** `VERCEL_ENV` holds none of the values getAppEnv looks at. */
  predicate NoVercelDecision(env: Environment) {
    Get(env, "VERCEL_ENV") !in {Some("preview"), Some("development"), Some("production")}
  }

  /**
   * getAppEnv: an explicit `NEXT_PUBLIC_APP_ENV` wins; then `VERCEL_ENV`
   * (preview and development as such, production split into staging for a
   * non-main branch); then `NODE_ENV`. Each result is characterised below by
   * the conditions that produce it.
   */
  function GetAppEnv(env: Environment): (e: AppEnv)
    ensures AppEnvNamed(Get(env, "NEXT_PUBLIC_APP_ENV")).Some? ==> e == AppEnvNamed(Get(env, "NEXT_PUBLIC_APP_ENV")).value
    ensures AppEnvNamed(Get(env, "NEXT_PUBLIC_APP_ENV")).None? ==>
              && (e == Preview <==> Get(env, "VERCEL_ENV") == Some("preview"))
              && (e == Staging <==> NonMainProductionBuild(env))
              && (e == Production <==>
                    || (Get(env, "VERCEL_ENV") == Some("production") && !NonMainProductionBuild(env))
                    || (NoVercelDecision(env) && Get(env, "NODE_ENV") == Some("production")))
              && (e == Development <==>
                    || Get(env, "VERCEL_ENV") == Some("development")
                    || (NoVercelDecision(env) && Get(env, "NODE_ENV") != Some("production")))
  {
    var explicit := Get(env, "NEXT_PUBLIC_APP_ENV");
    if explicit == Some("production") then Production
    else if explicit == Some("staging") then Staging
    else if explicit == Some("preview") then Preview
    else if explicit == Some("development") then Development
    else
      var vercelEnv := Get(env, "VERCEL_ENV");
      if vercelEnv == Some("preview") then Preview
      else if vercelEnv == Some("development") then Development
      else if vercelEnv == Some("production") then
        var ref := Get(env, "VERCEL_GIT_COMMIT_REF");
        if ref.Some? && ref.value != "" && ref.value != "main" then Staging else Production
      else if Get(env, "NODE_ENV") == Some("production") then Production
      else Development
  }

  /**
   * isProductionIndexable: only the production classification may be indexed,
   * that is an explicit `production`, or else a Vercel production build of
   * `main`, or else (no Vercel decision) `NODE_ENV=production`.
   */
  function IsProductionIndexable(env: Environment): (indexable: bool)
    ensures AppEnvNamed(Get(env, "NEXT_PUBLIC_APP_ENV")).Some? ==>
              (indexable <==> Get(env, "NEXT_PUBLIC_APP_ENV") == Some("production"))
    ensures AppEnvNamed(Get(env, "NEXT_PUBLIC_APP_ENV")).None? ==>
              (indexable <==>
                 || (Get(env, "VERCEL_ENV") == Some("production") && !NonMainProductionBuild(env))
                 || (NoVercelDecision(env) && Get(env, "NODE_ENV") == Some("production")))
  {
    GetAppEnv(env) == Production
  }

  /**
   * isConsentRequired: unset, it follows the production classification; set,
   * only the exact texts `true` and `1` require consent.
   */
  function IsConsentRequired(env: Environment): (required: bool)
    ensures Get(env, "NEXT_PUBLIC_ANALYTICS_CONSENT_REQUIRED").None? ==> (required <==> IsProductionIndexable(env))
    ensures Get(env, "NEXT_PUBLIC_ANALYTICS_CONSENT_REQUIRED").Some? ==>
              (required <==> Get(env, "NEXT_PUBLIC_ANALYTICS_CONSENT_REQUIRED").value in {"true", "1"})
  {
    var raw := Get(env, "NEXT_PUBLIC_ANALYTICS_CONSENT_REQUIRED");
    if raw.None? then GetAppEnv(env) == Production else raw.value == "true" || raw.value == "1"
  }

  /** The explicit setting overrides every other variable. */
  lemma ExplicitSettingWins(env: Environment, other: Environment, value: string)
    requires value in {"production", "staging", "preview", "development"}
    ensures GetAppEnv(other["NEXT_PUBLIC_APP_ENV" := value]) == GetAppEnv(env["NEXT_PUBLIC_APP_ENV" := value])
  {
    assert Get(other["NEXT_PUBLIC_APP_ENV" := value], "NEXT_PUBLIC_APP_ENV") == Some(value);
    assert Get(env["NEXT_PUBLIC_APP_ENV" := value], "NEXT_PUBLIC_APP_ENV") == Some(value);
  }

  /** An empty consent setting turns the consent requirement off, even on production. */
  lemma EmptyConsentSettingIsOff(env: Environment)
    ensures !IsConsentRequired(env["NEXT_PUBLIC_ANALYTICS_CONSENT_REQUIRED" := ""])
  {
    assert Get(env["NEXT_PUBLIC_ANALYTICS_CONSENT_REQUIRED" := ""], "NEXT_PUBLIC_ANALYTICS_CONSENT_REQUIRED") == Some("");
  }
}
