/**
 * internal/config/mirror_comparison_config.go: the settings of the drift
 * check and their validation.  Reading them from the environment is not
 * modelled; URL parsing is a parameter.
 */
module MirrorComparisonConfig {
  import opened Wrappers
  import opened Text
  import opened Urls

  type UrlParser = string -> Result<Url, string>

  datatype MirrorComparisonConfig = MirrorComparisonConfig(
    site: string,
    compareTopUnsampledCount: int,
    compareRemainingSampledCount: int,
    slackApiToken: string,
    slackChannelId: string)

  const SlackPairMessage: string :=
    "the Slack API token and Slack channel id must be provided together, or not at all"

  datatype ConfigError =
    | SiteUnparsable(reason: string)   // url.Parse's error, returned as it is
    | SlackCredentialsUnpaired
  {
    /** The error Validate returns: url.Parse's own error unchanged, or the fixed pairing message. */
    function Message(): (message: string)
      ensures SiteUnparsable? ==> message == reason
      ensures SlackCredentialsUnpaired? ==> message == SlackPairMessage
    {
      match this
      case SiteUnparsable(reason) => reason
      case SlackCredentialsUnpaired => SlackPairMessage
    }
  }

  /** A setting counts as given when something other than white space is left after trimming. */
  predicate Given(value: string)
  {
    TrimSpace(value) != ""
  }

  /** A setting is given exactly when it is not all white space. */
  lemma GivenIffNotBlank(value: string)
    ensures Given(value) <==> !AllSpace(value)
  {
  }

  /**
   * Validate: the site must parse; then the Slack token and channel must be
   * given together or not at all.
   */
  function Validate(cfg: MirrorComparisonConfig, parseUrl: UrlParser): (err: Option<ConfigError>)
    ensures parseUrl(cfg.site).Failure? ==> err == Some(SiteUnparsable(parseUrl(cfg.site).error))
    ensures parseUrl(cfg.site).Success? ==>
              (err.None? <==> (AllSpace(cfg.slackApiToken) <==> AllSpace(cfg.slackChannelId)))
    ensures parseUrl(cfg.site).Success? && err.Some? ==> err.value == SlackCredentialsUnpaired
  {
    GivenIffNotBlank(cfg.slackApiToken);
    GivenIffNotBlank(cfg.slackChannelId);
    match parseUrl(cfg.site)
    case Failure(reason) => Some(SiteUnparsable(reason))
    case Success(_) =>
      if (Given(cfg.slackApiToken) && !Given(cfg.slackChannelId))
         || (!Given(cfg.slackApiToken) && Given(cfg.slackChannelId))
      then Some(SlackCredentialsUnpaired)
      else None
  }

  /** HasSlackCredentials: both settings given. */
  function HasSlackCredentials(cfg: MirrorComparisonConfig): (has: bool)
    ensures has <==> !AllSpace(cfg.slackApiToken) && !AllSpace(cfg.slackChannelId)
  {
    GivenIffNotBlank(cfg.slackApiToken);
    GivenIffNotBlank(cfg.slackChannelId);
    Given(cfg.slackApiToken) && Given(cfg.slackChannelId)
  }

  /**
   * Once Validate has passed, the token alone decides whether Slack is
   * used: the channel is then given exactly when the token is.
   */
  lemma ValidatedCredentials(cfg: MirrorComparisonConfig, parseUrl: UrlParser)
    requires Validate(cfg, parseUrl).None?
    ensures HasSlackCredentials(cfg) <==> Given(cfg.slackApiToken)
    ensures HasSlackCredentials(cfg) <==> Given(cfg.slackChannelId)
  {
    GivenIffNotBlank(cfg.slackApiToken);
    GivenIffNotBlank(cfg.slackChannelId);
  }

  /** Surrounding white space changes neither decision. */
  lemma WhitespaceIsIgnored(cfg: MirrorComparisonConfig, parseUrl: UrlParser, pad: string)
    requires AllSpace(pad)
    ensures var padded := cfg.(slackApiToken := pad + cfg.slackApiToken + pad);
            HasSlackCredentials(padded) == HasSlackCredentials(cfg) &&
            Validate(padded, parseUrl) == Validate(cfg, parseUrl)
  {
    var t := cfg.slackApiToken;
    var p := pad + t + pad;
    assert AllSpace(p) <==> AllSpace(t) by {
      if AllSpace(t) {
        forall i | 0 <= i < |p| ensures IsSpace(p[i]) {
          if i < |pad| { assert p[i] == pad[i]; }
          else if i < |pad| + |t| { assert p[i] == t[i - |pad|]; }
          else { assert p[i] == pad[i - |pad| - |t|]; }
        }
      }
      if AllSpace(p) {
        forall i | 0 <= i < |t| ensures IsSpace(t[i]) {
          assert t[i] == p[|pad| + i];
        }
      }
    }
  }
}
