/** The secrets that the renderer takes for placeholders or development defaults. */
module Placeholders {
  import opened Common
  import opened EnvResolve

  const PLACEHOLDER_SECRETS := {
    "", "changeme", "change-me", "change_me", "placeholder", "todo", "tbd", "none", "null", "test", "testing",
    "secret", "dev", "devkey", "devsecret", "dev-secret", "example", "xxx", "xxxx", "your-key", "your-key-id",
    "your-secret", "razorpay", "livekit", "rzp_test_key", "key", "api_key", "coturn", "turn", "changeit",
    "password", "sample"}

  function RendererHost(isDigit: char -> bool, decimal: char -> Option<nat>, lower: string -> string,
                        maxDigits: Option<nat>): Host
  {
    Host(isDigit, decimal, lower, maxDigits, PLACEHOLDER_SECRETS)
  }
}
