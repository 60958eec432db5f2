/** The plugin's configuration: its defaults and its validator. */
module Config {
  import opened Wrappers
  import opened Js

  /** The plugin configuration; a field may be missing altogether. */
  datatype PluginConfig = PluginConfig(
    clerkSecretKey: Option<string>,
    clerkWebhookSecret: Option<string>,
    userProfileContentType: Option<string>)

  datatype Validation = Accepted | Rejected(message: string)

  /** Every default is the empty string. */
  const Default: PluginConfig := PluginConfig(Some(""), Some(""), Some(""))

  const MissingSecretKey := "[clerk-auth] clerkSecretKey is required in plugin config"

  /**
   * The validator throws exactly when `clerkSecretKey` is missing or empty;
   * no other field is looked at.
   */
  function Validate(cfg: PluginConfig): (r: Validation)
    ensures r.Accepted? <==> Truthy(cfg.clerkSecretKey)
    ensures r.Rejected? ==> r.message == MissingSecretKey
  {
    if !Truthy(cfg.clerkSecretKey) then Rejected(MissingSecretKey) else Accepted
  }

  /** Only the secret key decides: the other fields may hold anything. */
  lemma ValidateIgnoresOtherFields(cfg: PluginConfig, webhookSecret: Option<string>, profileType: Option<string>)
    ensures Validate(cfg.(clerkWebhookSecret := webhookSecret, userProfileContentType := profileType)) == Validate(cfg)
  {
  }

  /** The defaults alone do not pass validation, and leave webhook verification switched off. */
  lemma DefaultsRejected()
    ensures Validate(Default) == Rejected(MissingSecretKey)
    ensures !Truthy(Default.clerkWebhookSecret)
  {
  }
}
