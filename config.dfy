/**
 * The connector's configuration (`Config`): the store settings it reads, the defaults it
 * falls back to, the default credential check and the QWC bootstrap document that the Web
 * Connector installs. The settings are a map from configuration path to the stored text;
 * an absent path reads as null.
 */
module Configs {
  import opened Wrappers
  import opened Text
  import opened Php
  import opened NumericStrings

  type Settings = map<string, string>

  const UsernamePath := "qbwc/auth/username"
  const PasswordPath := "qbwc/auth/password"
  const CompanyFilePath := "qbwc/general/company_file"
  const AppNamePath := "qbwc/general/app_name"
  const AppDescriptionPath := "qbwc/general/app_description"
  const SupportUrlPath := "qbwc/general/support_url"
  const OwnerIdPath := "qbwc/general/owner_id"
  const FileIdPath := "qbwc/general/file_id"
  const RunEveryNMinutesPath := "qbwc/general/run_every_n_minutes"
  const ServerVersionPath := "qbwc/general/server_version"
  const MinClientVersionPath := "qbwc/general/min_client_version"
  const SupportedClientVersionPath := "qbwc/general/supported_client_version"
  const ContinueOnErrorPath := "qbwc/general/continue_on_error"

  const DefaultAppName := "Magento QuickBooks Connector"
  const DefaultAppDescription := "QuickBooks integration for Magento"
  const DefaultFileId := "{90A44FB5-33D9-4815-AC85-BC87A7E7D1EB}"
  const DefaultServerVersion := "1.0.0"
  const DefaultSupportedClientVersion := "2.3.0.30"

  /** `getValue($path)`: the stored text, or null. */
  function Setting(settings: Settings, path: string): Option<string>
  {
    if path in settings then Some(settings[path]) else None
  }

  /** `(string) getValue($path)`: null reads as "". */
  function StringSetting(settings: Settings, path: string): string
  {
    Setting(settings, path).GetOr("")
  }

  /** `getValue($path) ?: $default`: a falsy value (null, "" or "0") gives the default. */
  function SettingOr(settings: Settings, path: string, default: string): (r: string)
    ensures EmptyOpt(Setting(settings, path)) ==> r == default
    ensures !EmptyOpt(Setting(settings, path)) ==> r == settings[path]
  {
    var v := Setting(settings, path);
    if EmptyOpt(v) then default else v.value
  }

  function Username(settings: Settings): string { StringSetting(settings, UsernamePath) }
  function Password(settings: Settings): string { StringSetting(settings, PasswordPath) }
  function CompanyFile(settings: Settings): string { StringSetting(settings, CompanyFilePath) }
  function SupportUrl(settings: Settings): string { StringSetting(settings, SupportUrlPath) }
  function MinimumClientVersion(settings: Settings): string { StringSetting(settings, MinClientVersionPath) }
  function AppName(settings: Settings): string { SettingOr(settings, AppNamePath, DefaultAppName) }
  function AppDescription(settings: Settings): string { SettingOr(settings, AppDescriptionPath, DefaultAppDescription) }
  function FileId(settings: Settings): string { SettingOr(settings, FileIdPath, DefaultFileId) }
  function ServerVersion(settings: Settings): string { SettingOr(settings, ServerVersionPath, DefaultServerVersion) }
  function SupportedClientVersion(settings: Settings): string
  {
    SettingOr(settings, SupportedClientVersionPath, DefaultSupportedClientVersion)
  }

  /** `getOwnerId`: the stored owner ID, or the random `{HEX}` identifier passed in. */
  function OwnerId(settings: Settings, generated: string): string
  {
    SettingOr(settings, OwnerIdPath, generated)
  }

  /** `(bool) getValue(...)`: a string casts to false exactly when it is "" or "0". */
  predicate ContinueOnError(settings: Settings)
  {
    !EmptyOpt(Setting(settings, ContinueOnErrorPath))
  }

  /** Every defaulting getter gives its documented default when its setting is missing. */
  lemma DefaultsWhenUnset(settings: Settings)
    requires AppNamePath !in settings && AppDescriptionPath !in settings && FileIdPath !in settings
    requires ServerVersionPath !in settings && SupportedClientVersionPath !in settings
    ensures AppName(settings) == "Magento QuickBooks Connector"
    ensures AppDescription(settings) == "QuickBooks integration for Magento"
    ensures FileId(settings) == "{90A44FB5-33D9-4815-AC85-BC87A7E7D1EB}"
    ensures ServerVersion(settings) == "1.0.0"
    ensures SupportedClientVersion(settings) == "2.3.0.30"
  {
  }

  // ---------------------------------------------------------------------------
  // The scheduling interval; `(int)` is `IntCast` over PHP's numeric strings

  /** `getRunEveryNMinutes`: a truthy setting cast to an integer, otherwise null. */
  function RunEveryNMinutes(settings: Settings): (r: Option<int>)
    ensures r.None? <==> EmptyOpt(Setting(settings, RunEveryNMinutesPath))
  {
    var minutes := Setting(settings, RunEveryNMinutesPath);
    if EmptyOpt(minutes) then None else Some(IntCast(minutes.value))
  }

  /**
   * An unset, empty or "0" interval schedules nothing; a written 64-bit number comes back as
   * itself, and any other truthy text is cast as PHP casts it.
   */
  lemma RunEveryNMinutesCases(settings: Settings, n: int)
    ensures Setting(settings, RunEveryNMinutesPath) == Some("0") ==> RunEveryNMinutes(settings).None?
    ensures Setting(settings, RunEveryNMinutesPath) == Some("") ==> RunEveryNMinutes(settings).None?
    ensures RunEveryNMinutesPath !in settings ==> RunEveryNMinutes(settings).None?
    ensures n != 0 && LongMin <= n <= LongMax && Setting(settings, RunEveryNMinutesPath) == Some(IntToString(n)) ==>
      RunEveryNMinutes(settings) == Some(n)
    ensures Setting(settings, RunEveryNMinutesPath) == Some("1e3") ==> RunEveryNMinutes(settings) == Some(1000)
  {
    assert "" + IntToString(n) + "" == IntToString(n);
    IntCastOfIntToString(n, "", "");
    IntCastThousandExample();
    if n != 0 {
      assert IntToString(n) != "0" by {
        if 0 < n < 10 {
          assert IntToString(n) == [DigitChar(n)];
        }
      }
    }
  }

  // ---------------------------------------------------------------------------
  // The QWC document

  /** One `   <Tag>value</Tag>` line of the document. */
  function Field(tag: string, value: string): string
  {
    "   <" + tag + ">" + value + "</" + tag + ">\n"
  }

  /** The scheduler element for an interval printed as `minutes`. */
  function SchedulerLines(minutes: string): string
  {
    "   <Scheduler>\n      <RunEveryNMinutes>" + minutes + "</RunEveryNMinutes>\n   </Scheduler>\n"
  }

  /** The optional scheduler block, already indented; a heredoc line adds three more spaces before it. */
  function SchedulerBlock(interval: Option<int>): string
  {
    match interval
    case None => ""
    case Some(n) => SchedulerLines(IntToString(n))
  }

  /** The ten fixed fields, in order, between the opening tag and the scheduler line. */
  function QwcFields(settings: Settings, appUrl: string, generatedOwnerId: string): string
  {
    Field("AppName", AppName(settings))
      + Field("AppID", "")
      + Field("AppURL", appUrl)
      + Field("AppDescription", AppDescription(settings))
      + Field("AppSupport", SupportUrl(settings))
      + Field("UserName", Username(settings))
      + Field("OwnerID", OwnerId(settings, generatedOwnerId))
      + Field("FileID", FileId(settings))
      + Field("QBType", "QBFS")
      + Field("Style", "Document")
  }

  /** The heredoc's last line: three spaces, the scheduler block, and the closing tag. */
  function QwcTail(interval: Option<int>): string
  {
    "   " + SchedulerBlock(interval) + "</QBWCXML>"
  }

  /**
   * `generateQwcFileContent($appUrl)`: the heredoc, with the random owner ID that is used when
   * none is configured passed in.
   */
  function QwcFileContent(settings: Settings, appUrl: string, generatedOwnerId: string): string
  {
    "<QBWCXML>\n" + QwcFields(settings, appUrl, generatedOwnerId) + QwcTail(RunEveryNMinutes(settings))
  }

  /** With no interval the heredoc's last line is only the closing tag, and only then. */
  lemma QwcSchedulerAbsent(interval: Option<int>)
    ensures interval.None? <==> QwcTail(interval) == "   </QBWCXML>"
  {
    if interval.Some? {
      assert |QwcTail(interval)| > 13;
    }
  }

  /** With an interval the document closes with a scheduler block carrying it. */
  lemma QwcSchedulerPresent(n: int)
    ensures QwcTail(Some(n))
      == "      <Scheduler>\n      <RunEveryNMinutes>" + IntToString(n) + "</RunEveryNMinutes>\n   </Scheduler>\n</QBWCXML>"
  {
    SchedulerTail(IntToString(n));
  }

  lemma SchedulerOpenIndented()
    ensures "   " + "   <Scheduler>\n      <RunEveryNMinutes>" == "      <Scheduler>\n      <RunEveryNMinutes>"
  {
  }

  lemma SchedulerTail(minutes: string)
    ensures "   " + SchedulerLines(minutes) + "</QBWCXML>"
      == "      <Scheduler>\n      <RunEveryNMinutes>" + minutes + "</RunEveryNMinutes>\n   </Scheduler>\n</QBWCXML>"
  {
    var open, close := "   <Scheduler>\n      <RunEveryNMinutes>", "</RunEveryNMinutes>\n   </Scheduler>\n";
    SchedulerOpenIndented();
    assert close + "</QBWCXML>" == "</RunEveryNMinutes>\n   </Scheduler>\n</QBWCXML>";
    assert "   " + (open + minutes + close) + "</QBWCXML>" == ("   " + open) + minutes + (close + "</QBWCXML>");
  }

  // ---------------------------------------------------------------------------
  // The configuration object

  /** The configuration service: fixed store settings and an optional custom authenticator. */
  class Config {
    const settings: Settings
    var authenticator: Option<(string, string) -> Option<string>>

    constructor (settings: Settings)
      ensures this.settings == settings && authenticator.None?
    {
      this.settings := settings;
      authenticator := None;
    }

    /** `setAuthenticator`: later authentications go to `callback`. */
    method SetAuthenticator(callback: (string, string) -> Option<string>)
      modifies this
      ensures authenticator == Some(callback)
    {
      authenticator := Some(callback);
    }

    /**
     * `authenticate`: a custom authenticator decides alone; otherwise both credentials must
     * equal the configured ones exactly, and the answer is the configured company file.
     */
    function Authenticate(username: string, password: string): (r: Option<string>)
      reads this
      ensures authenticator.Some? ==> r == authenticator.value(username, password)
      ensures authenticator.None? ==>
        (r.Some? <==> username == Username(settings) && password == Password(settings))
      ensures authenticator.None? && r.Some? ==> r.value == CompanyFile(settings)
    {
      match authenticator
      case Some(callback) => callback(username, password)
      case None =>
        if username == Username(settings) && password == Password(settings) then Some(CompanyFile(settings)) else None
    }
  }

  /** With no credentials configured, only the empty user name with the empty password is accepted. */
  lemma UnconfiguredCredentials(c: Config, username: string, password: string)
    requires c.authenticator.None? && UsernamePath !in c.settings && PasswordPath !in c.settings
    ensures c.Authenticate(username, password).Some? <==> username == "" && password == ""
  {
  }
}
