/** The start-up check of readwise_emails.js: the required variables are
    looked up in a fixed order, and the first one that is missing or empty
    stops the process (exit status 1) before anything else happens. */
module Environment {
  const RequiredEnvVars: seq<string> :=
    ["SENDGRID_API_KEY", "READWISE_AUTH_TOKEN", "KINDLE_EMAIL", "FROM_EMAIL"]

  /** `process.env[name]` is truthy: present and not the empty string. */
  predicate IsSet(env: map<string, string>, name: string) {
    name in env && env[name] != ""
  }

  /** What start-up does: stop and report one variable, or go on. */
  datatype Startup = Abort(missing: string) | Proceed

  /** Looks the required variables up in order and stops at the first one
      that is not set. */
  method CheckEnvironment(env: map<string, string>) returns (outcome: Startup)
    ensures outcome.Proceed? <==> forall k :: 0 <= k < |RequiredEnvVars| ==> IsSet(env, RequiredEnvVars[k])
    ensures outcome.Abort? ==>
      exists k :: (0 <= k < |RequiredEnvVars|
        && RequiredEnvVars[k] == outcome.missing
        && !IsSet(env, RequiredEnvVars[k])
        && forall j :: 0 <= j < k ==> IsSet(env, RequiredEnvVars[j]))
  {
    for i := 0 to |RequiredEnvVars|
      invariant forall j :: 0 <= j < i ==> IsSet(env, RequiredEnvVars[j])
    {
      if !(RequiredEnvVars[i] in env && env[RequiredEnvVars[i]] != "") {
        return Abort(RequiredEnvVars[i]);
      }
    }
    return Proceed;
  }
}
