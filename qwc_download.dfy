/**
 * The file name the QWC download is offered under (`Download::getQwcFilename`): the app
 * name with every byte outside `[A-Za-z0-9_-]` replaced by '_', then ".qwc". The pattern has
 * no `u` flag, so it works on the bytes of the name's UTF-8 text, not on its characters.
 */
module QwcDownload {
  import opened Text
  import Configs

  newtype byte = x: int | 0 <= x < 256

  /** The UTF-8 encoding of one Unicode scalar value. */
  function EncodeChar(c: char): (bs: seq<byte>)
    ensures 1 <= |bs| <= 4
    ensures (c as int < 128) <==> |bs| == 1
    ensures |bs| == 1 ==> bs[0] as int == c as int
    ensures |bs| > 1 ==> forall i :: 0 <= i < |bs| ==> bs[i] >= 128
  {
    var n := c as int;
    if n < 0x80 then [n as byte]
    else if n < 0x800 then [(0xC0 + n / 64) as byte, (0x80 + n % 64) as byte]
    else if n < 0x10000 then [(0xE0 + n / 4096) as byte, (0x80 + (n / 64) % 64) as byte, (0x80 + n % 64) as byte]
    else [(0xF0 + n / 262144) as byte, (0x80 + (n / 4096) % 64) as byte,
          (0x80 + (n / 64) % 64) as byte, (0x80 + n % 64) as byte]
  }

  /** The UTF-8 bytes of a string, as PHP holds it. */
  function Utf8(s: string): (bs: seq<byte>)
    ensures |bs| >= |s|
  {
    if s == [] then [] else Utf8(s[..|s| - 1]) + EncodeChar(s[|s| - 1])
  }

  /** Bytes the character class `[a-zA-Z0-9_-]` matches. */
  predicate Allowed(b: byte)
  {
    ('a' as int <= b as int <= 'z' as int) || ('A' as int <= b as int <= 'Z' as int)
      || ('0' as int <= b as int <= '9' as int) || b as int == '_' as int || b as int == '-' as int
  }

  predicate AllowedChar(c: char)
  {
    IsLetter(c) || IsDigit(c) || c == '_' || c == '-'
  }

  /** The replacement applied to one byte: an allowed byte is kept as its character, any other becomes '_'. */
  function SanitizeByte(b: byte): (c: char)
    ensures AllowedChar(c)
  {
    if Allowed(b) then b as int as char else '_'
  }

  /**
   * `preg_replace('/[^a-zA-Z0-9_-]/', '_', ...)`: each byte maps to exactly one character of
   * the class, so the result is as long as the byte string.
   */
  function Sanitize(bs: seq<byte>): (r: string)
    ensures |r| == |bs|
    ensures forall i :: 0 <= i < |r| ==> AllowedChar(r[i])
    ensures forall i :: 0 <= i < |bs| ==> r[i] == SanitizeByte(bs[i])
  {
    if bs == [] then [] else Sanitize(bs[..|bs| - 1]) + [SanitizeByte(bs[|bs| - 1])]
  }

  /** `getQwcFilename` */
  function QwcFilename(settings: Configs.Settings): string
  {
    Sanitize(Utf8(Configs.AppName(settings))) + ".qwc"
  }

  /**
   * The name ends in ".qwc"; everything before it is drawn from `[A-Za-z0-9_-]` and has one
   * character per byte of the app name.
   */
  lemma FilenameShape(settings: Configs.Settings)
    ensures var f := QwcFilename(settings);
      && |f| == |Utf8(Configs.AppName(settings))| + 4
      && f[|f| - 4..] == ".qwc"
      && forall i :: 0 <= i < |f| - 4 ==> AllowedChar(f[i])
  {
    var f := QwcFilename(settings);
    var s := Sanitize(Utf8(Configs.AppName(settings)));
    assert f[..|s|] == s;
  }

  /** An allowed byte stays in place; every other byte becomes one '_'. */
  lemma SanitizeKeepsAllowed(bs: seq<byte>, i: nat)
    requires i < |bs|
    ensures Allowed(bs[i]) ==> Sanitize(bs)[i] as int == bs[i] as int
    ensures !Allowed(bs[i]) ==> Sanitize(bs)[i] == '_'
  {
  }

  /** A character outside ASCII takes two to four bytes, so it turns into two to four underscores. */
  lemma NonAsciiBecomesUnderscores(c: char)
    requires c as int >= 128
    ensures var r := Sanitize(EncodeChar(c));
      2 <= |r| <= 4 && forall i :: 0 <= i < |r| ==> r[i] == '_'
  {
  }

  /** For an ASCII string, UTF-8 is the identity on code points. */
  lemma {:induction false} Utf8Ascii(s: string)
    requires forall i :: 0 <= i < |s| ==> s[i] as int < 128
    ensures |Utf8(s)| == |s|
    ensures forall i :: 0 <= i < |s| ==> Utf8(s)[i] as int == s[i] as int
  {
    if s != [] {
      Utf8Ascii(s[..|s| - 1]);
    }
  }

  /** An ASCII app name keeps its allowed characters and turns every other character into one '_'. */
  lemma AsciiSanitize(s: string)
    requires forall i :: 0 <= i < |s| ==> s[i] as int < 128
    ensures var r := Sanitize(Utf8(s));
      && |r| == |s|
      && (forall i :: 0 <= i < |s| && AllowedChar(s[i]) ==> r[i] == s[i])
      && (forall i :: 0 <= i < |s| && !AllowedChar(s[i]) ==> r[i] == '_')
  {
    Utf8Ascii(s);
  }

  /** Without a configured app name the file is "Magento_QuickBooks_Connector.qwc". */
  lemma DefaultFilename(settings: Configs.Settings)
    requires Configs.AppNamePath !in settings
    ensures QwcFilename(settings) == "Magento_QuickBooks_Connector.qwc"
  {
    var name := Configs.DefaultAppName;
    assert Configs.AppName(settings) == name;
    Utf8Ascii(name);
    var r := Sanitize(Utf8(name));
    assert r == "Magento_QuickBooks_Connector";
  }
}
