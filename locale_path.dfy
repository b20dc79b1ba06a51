/** The locale part of components/Navbar.tsx: rewriting the current path for
    another language, and reading the language back from a path. */
module LocalePath {
  import opened Text

  /** The language codes the switcher offers. */
  function SupportedLanguages(): seq<string> {
    ["en", "ar"]
  }

  /** The path without its locale prefix: the first three characters are dropped
      when the path starts with "/en" or "/ar". The test is on characters, not
      on path segments. */
  function StripLocale(pathname: string): (r: string)
    ensures StartsWith(pathname, "/en") || StartsWith(pathname, "/ar") ==> pathname == pathname[..3] + r
    ensures !(StartsWith(pathname, "/en") || StartsWith(pathname, "/ar")) ==> r == pathname
  {
    if StartsWith(pathname, "/en") || StartsWith(pathname, "/ar") then pathname[3..] else pathname
  }

  /** The target of `switchLanguage(langCode)`: "/" + langCode + the stripped path. */
  function SwitchLanguage(pathname: string, langCode: string): (r: string)
    ensures |r| == 1 + |langCode| + |StripLocale(pathname)|
    ensures StartsWith(r, "/" + langCode)
    ensures r[1 + |langCode|..] == StripLocale(pathname)
  {
    "/" + langCode + StripLocale(pathname)
  }

  /** The language the navigation bar shows for a path: "ar" for paths starting
      with "/ar", "en" for every other path. */
  function DetectLanguage(pathname: string): (r: string)
    ensures r in SupportedLanguages()
    ensures r == "ar" <==> StartsWith(pathname, "/ar")
  {
    if StartsWith(pathname, "/ar") then "ar" else "en"
  }

  /** Switching to a supported language lands on a path whose detected language
      is that language. */
  lemma DetectAfterSwitch(pathname: string, langCode: string)
    requires langCode in SupportedLanguages()
    ensures DetectLanguage(SwitchLanguage(pathname, langCode)) == langCode
  {
    var target := SwitchLanguage(pathname, langCode);
    assert target[..3] == "/" + langCode;
    if langCode == "en" {
      assert target[1] == 'e' != "/ar"[1];
    }
  }

  /** Switching from a path already switched to a supported language forgets
      the earlier switch. */
  lemma SwitchOverridesSwitch(pathname: string, first: string, second: string)
    requires first in SupportedLanguages()
    ensures SwitchLanguage(SwitchLanguage(pathname, first), second) == SwitchLanguage(pathname, second)
  {
    var once := SwitchLanguage(pathname, first);
    assert StartsWith(once, "/" + first);
    assert StripLocale(once) == StripLocale(pathname);
  }

  /** Switching to the same supported language twice is switching once. */
  lemma SwitchIdempotent(pathname: string, langCode: string)
    requires langCode in SupportedLanguages()
    ensures SwitchLanguage(SwitchLanguage(pathname, langCode), langCode) == SwitchLanguage(pathname, langCode)
  {
    SwitchOverridesSwitch(pathname, langCode, langCode);
  }

  /** The prefix test is on characters: "/english" loses its first three
      characters, and a path of another locale is kept whole. */
  lemma PrefixIsCharacterBased()
    ensures StripLocale("/english") == "glish"
    ensures SwitchLanguage("/english", "ar") == "/arglish"
    ensures SwitchLanguage("/fr/docs", "en") == "/en/fr/docs"
  {
    assert "/english"[..3] == "/en";
    assert "/fr/docs"[..3] == "/fr";
  }
}
