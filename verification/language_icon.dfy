/**
 * The icon decision of components/ui/LanguageIcon.tsx: which language a file is
 * shown as, and whether that language is drawn as a brand icon, a generic code
 * glyph, a generic file glyph or a grey placeholder. The set of icon names the
 * icon package exports is an input.
 */
module LanguageIcon {
  import opened Wrappers
  import opened Strings
  import opened JsObjects
  import GitHubApi

  const ExtToLanguage: map<string, string> := map[
    "js" := "javascript", "jsx" := "javascript", "ts" := "typescript", "tsx" := "typescript",
    "py" := "python", "swift" := "swift", "kt" := "kotlin", "java" := "java",
    "cpp" := "c++", "c" := "c", "cs" := "c#", "rb" := "ruby", "go" := "go", "rs" := "rust",
    "php" := "php", "html" := "html", "css" := "css", "scss" := "scss", "vue" := "vue",
    "svelte" := "svelte", "dart" := "dart", "dockerfile" := "dockerfile", "json" := "json",
    "yaml" := "yaml", "yml" := "yaml", "md" := "markdown"]

  datatype IconInfo = IconInfo(name: string, color: string)

  const IconMap: map<string, IconInfo> := map[
    "javascript" := IconInfo("siJavascript", "#F7DF1E"),
    "typescript" := IconInfo("siTypescript", "#3178C6"),
    "python" := IconInfo("siPython", "#3776AB"),
    "swift" := IconInfo("siSwift", "#F05138"),
    "kotlin" := IconInfo("siKotlin", "#7F52FF"),
    "java" := IconInfo("siOpenjdk", "#ED8B00"),
    "c++" := IconInfo("siCplusplus", "#00599C"),
    "c" := IconInfo("siC", "#A8B9CC"),
    "c#" := IconInfo("siCsharp", "#239120"),
    "ruby" := IconInfo("siRuby", "#CC342D"),
    "go" := IconInfo("siGo", "#00ADD8"),
    "rust" := IconInfo("siRust", "#000000"),
    "php" := IconInfo("siPhp", "#777BB4"),
    "html" := IconInfo("siHtml5", "#E34F26"),
    "css" := IconInfo("siCss3", "#1572B6"),
    "scss" := IconInfo("siSass", "#CC6699"),
    "vue" := IconInfo("siVuedotjs", "#4FC08D"),
    "svelte" := IconInfo("siSvelte", "#FF3E00"),
    "dart" := IconInfo("siDart", "#0175C2"),
    "shell" := IconInfo("siGnubash", "#4EAA25"),
    "dockerfile" := IconInfo("siDocker", "#2496ED"),
    "objective-c" := IconInfo("siApple", "#000000"),
    "scala" := IconInfo("siScala", "#DC322F"),
    "r" := IconInfo("siR", "#276DC3"),
    "lua" := IconInfo("siLua", "#2C2D72"),
    "perl" := IconInfo("siPerl", "#39457E"),
    "haskell" := IconInfo("siHaskell", "#5E5086"),
    "clojure" := IconInfo("siClojure", "#5881D8"),
    "elixir" := IconInfo("siElixir", "#4B275F"),
    "erlang" := IconInfo("siErlang", "#A90533"),
    "json" := IconInfo("siJson", "#000000"),
    "yaml" := IconInfo("siYaml", "#CB171E"),
    "markdown" := IconInfo("siMarkdown", "#000000")]

  /** What the component draws. */
  datatype IconChoice =
    | Placeholder                        // grey square: no language known
    | CodeFallback                       // language without an icon-table entry
    | FileFallback                       // table entry whose icon the package lacks
    | Svg(iconName: string, color: string)

  /** `getLanguageFromFilename`, looking up only the table's own entries. */
  function LanguageFromFilename(filename: string): (r: Option<string>)
    ensures GitHubApi.Extension(filename) == "" ==> r.None?
    ensures r.Some? <==> GitHubApi.Extension(filename) in ExtToLanguage
    ensures r.Some? ==> r.value == ExtToLanguage[GitHubApi.Extension(filename)]
  {
    var ext := GitHubApi.Extension(filename);
    if ext == "" then None
    else if ext in ExtToLanguage then Some(ExtToLanguage[ext])
    else None
  }

  /** `language || (filename ? getLanguageFromFilename(filename) : null)`; "" counts as absent. */
  function FinalLanguage(language: Option<string>, filename: Option<string>): (r: Option<string>)
    ensures language.Some? && language.value != "" ==> r == language
    ensures (language.None? || language.value == "") && (filename.None? || filename.value == "") ==> r.None?
    ensures r.Some? ==> r.value != ""
  {
    if language.Some? && language.value != "" then language
    else if filename.Some? && filename.value != "" then
      ExtensionLanguagesNonEmpty();
      LanguageFromFilename(filename.value)
    else None
  }

  lemma ExtensionLanguagesNonEmpty()
    ensures forall ext :: ext in ExtToLanguage ==> ExtToLanguage[ext] != ""
  {
  }

  /** The icon chosen for a known (non-empty) language; the table lookup is case-insensitive. */
  function IconFor(language: string, available: set<string>): (r: IconChoice)
    ensures r != Placeholder
    ensures r == CodeFallback <==> ToLower(language) !in IconMap
    ensures r == FileFallback <==> ToLower(language) in IconMap && IconMap[ToLower(language)].name !in available
    ensures r.Svg? ==> ToLower(language) in IconMap && r.iconName == IconMap[ToLower(language)].name
                       && r.iconName in available && r.color == IconMap[ToLower(language)].color
  {
    var normalized := ToLower(language);
    if normalized !in IconMap then CodeFallback
    else
      var info := IconMap[normalized];
      if info.name in available then Svg(info.name, info.color) else FileFallback
  }

  /** The whole decision of `LanguageIcon`, with own-property table lookups. */
  function ResolveIcon(language: Option<string>, filename: Option<string>, available: set<string>): (r: IconChoice)
    ensures r == Placeholder <==> FinalLanguage(language, filename).None?
    ensures language.Some? && language.value != "" ==> r == IconFor(language.value, available)
  {
    match FinalLanguage(language, filename)
    case None => Placeholder
    case Some(l) => IconFor(l, available)
  }

  /** Upper-casing an explicit language never changes the icon. */
  lemma IconLookupIgnoresCase(language: string, available: set<string>)
    ensures IconFor(ToLower(language), available) == IconFor(language, available)
  {
    ToLowerIdempotent(language);
  }

  /** The languages the extension table can yield. */
  const ExtensionLanguages: set<string> := {
    "javascript", "typescript", "python", "swift", "kotlin", "java", "c++", "c", "c#", "ruby", "go",
    "rust", "php", "html", "css", "scss", "vue", "svelte", "dart", "dockerfile", "json", "yaml", "markdown"}

  lemma LowerCaseNamesA()
    ensures ToLower("javascript") == "javascript"
    ensures ToLower("typescript") == "typescript"
    ensures ToLower("python") == "python"
    ensures ToLower("swift") == "swift"
  {
    LowerCaseJavascript();
    LowerCaseTypescript();
    NoUpperIsLowerCase("python");
    NoUpperIsLowerCase("swift");
  }

  lemma LowerCaseJavascript()
    ensures ToLower("javascript") == "javascript"
  {
    var s := "javascript";
    assert s[0] == 'j' && s[1] == 'a' && s[2] == 'v' && s[3] == 'a' && s[4] == 's'
      && s[5] == 'c' && s[6] == 'r' && s[7] == 'i' && s[8] == 'p' && s[9] == 't';
    ToLowerOfLowerCase(s);
  }

  lemma LowerCaseTypescript()
    ensures ToLower("typescript") == "typescript"
  {
    var s := "typescript";
    assert s[0] == 't' && s[1] == 'y' && s[2] == 'p' && s[3] == 'e' && s[4] == 's'
      && s[5] == 'c' && s[6] == 'r' && s[7] == 'i' && s[8] == 'p' && s[9] == 't';
    ToLowerOfLowerCase(s);
  }

  lemma LowerCaseNamesB()
    ensures ToLower("kotlin") == "kotlin"
    ensures ToLower("java") == "java"
    ensures ToLower("c++") == "c++"
    ensures ToLower("c") == "c"
  {
    NoUpperIsLowerCase("kotlin");
    NoUpperIsLowerCase("java");
    NoUpperIsLowerCase("c++");
    NoUpperIsLowerCase("c");
  }

  lemma LowerCaseNamesC()
    ensures ToLower("c#") == "c#"
    ensures ToLower("ruby") == "ruby"
    ensures ToLower("go") == "go"
    ensures ToLower("rust") == "rust"
  {
    NoUpperIsLowerCase("c#");
    NoUpperIsLowerCase("ruby");
    NoUpperIsLowerCase("go");
    NoUpperIsLowerCase("rust");
  }

  lemma LowerCaseNamesD()
    ensures ToLower("php") == "php"
    ensures ToLower("html") == "html"
    ensures ToLower("css") == "css"
    ensures ToLower("scss") == "scss"
  {
    NoUpperIsLowerCase("php");
    NoUpperIsLowerCase("html");
    NoUpperIsLowerCase("css");
    NoUpperIsLowerCase("scss");
  }

  lemma LowerCaseNamesE()
    ensures ToLower("vue") == "vue"
    ensures ToLower("svelte") == "svelte"
    ensures ToLower("dart") == "dart"
    ensures ToLower("dockerfile") == "dockerfile"
  {
    NoUpperIsLowerCase("vue");
    NoUpperIsLowerCase("svelte");
    NoUpperIsLowerCase("dart");
    NoUpperIsLowerCase("dockerfile");
  }

  lemma LowerCaseNamesF()
    ensures ToLower("json") == "json"
    ensures ToLower("yaml") == "yaml"
    ensures ToLower("markdown") == "markdown"
  {
    NoUpperIsLowerCase("json");
    NoUpperIsLowerCase("yaml");
    NoUpperIsLowerCase("markdown");
  }

  lemma ExtensionLanguagesLowerCase()
    ensures forall l :: l in ExtensionLanguages ==> ToLower(l) == l
  {
    LowerCaseNamesA(); LowerCaseNamesB(); LowerCaseNamesC(); LowerCaseNamesD(); LowerCaseNamesE(); LowerCaseNamesF();
  }

  /** Every language the extension table yields is already lower-case and has an icon-table entry. */
  lemma ExtensionLanguagesHaveIcons()
    ensures forall ext :: ext in ExtToLanguage ==>
      ToLower(ExtToLanguage[ext]) == ExtToLanguage[ext] && ExtToLanguage[ext] in IconMap
  {
    assert ExtToLanguage.Values <= ExtensionLanguages;
    assert ExtensionLanguages <= IconMap.Keys;
    ExtensionLanguagesLowerCase();
    forall ext | ext in ExtToLanguage
      ensures ToLower(ExtToLanguage[ext]) == ExtToLanguage[ext] && ExtToLanguage[ext] in IconMap
    {
      assert ExtToLanguage[ext] in ExtToLanguage.Values;
    }
  }

  /** So a file name alone never reaches the generic code glyph. */
  lemma FilenameNeverCodeFallback(filename: Option<string>, available: set<string>)
    ensures ResolveIcon(None, filename, available) != CodeFallback
    ensures ResolveIcon(Some(""), filename, available) != CodeFallback
  {
    ExtensionLanguagesHaveIcons();
  }

  // ---------------------------------------------------------------- as written

  lemma InheritedKeysNotListed()
    ensures forall k :: k in InheritedLowerCaseKeys ==> k !in ExtToLanguage && k !in IconMap
  {
    assert InheritedLowerCaseKeys == {"constructor", "__proto__"};
  }

  /** What rendering the component does, as the source is written. */
  datatype Rendering = Drawn(choice: IconChoice) | ThrowsTypeError

  /**
   * The decision as written. Both tables are object literals, so a lower-cased key
   * naming an inherited member ("constructor", "__proto__") finds that member:
   * from the file name it becomes the language, a non-string, and the later
   * `toLowerCase()` call throws; as an explicit language it becomes an icon entry
   * whose `name` ("Object", or undefined) is not an icon the package exports,
   * so the file glyph is drawn.
   */
  function ResolveIconAsWritten(language: Option<string>, filename: Option<string>, available: set<string>): (r: Rendering)
    ensures r.ThrowsTypeError? <==>
      && (language.None? || language.value == "")
      && filename.Some? && GitHubApi.Extension(filename.value) in InheritedLowerCaseKeys
  {
    if language.Some? && language.value != "" then Drawn(ExplicitIconAsWritten(language.value, available))
    else if filename.Some? && filename.value != "" then FilenameIconAsWritten(filename.value, available)
    else
      InheritedKeysNonEmpty();
      Drawn(Placeholder)
  }

  /** An explicit language: an inherited key finds an entry whose icon the package lacks. */
  function ExplicitIconAsWritten(language: string, available: set<string>): (r: IconChoice)
    ensures ToLower(language) !in InheritedLowerCaseKeys ==> r == IconFor(language, available)
    ensures ToLower(language) in InheritedLowerCaseKeys ==> r == FileFallback
  {
    InheritedKeysNotListed();
    match GetProperty(IconMap, ToLower(language))
    case Own(_) => IconFor(language, available)
    case InheritedMember(_) => FileFallback
    case Undefined => CodeFallback
  }

  /** A file name: an inherited key becomes a non-string language and lower-casing it throws. */
  function FilenameIconAsWritten(filename: string, available: set<string>): (r: Rendering)
    ensures r.ThrowsTypeError? <==> GitHubApi.Extension(filename) in InheritedLowerCaseKeys
    ensures r.Drawn? ==> r.choice == ResolveIcon(None, Some(filename), available) || filename == ""
  {
    var ext := GitHubApi.Extension(filename);
    InheritedKeysNonEmpty();
    InheritedKeysNotListed();
    CorrectedFromFilename(filename, available);
    if ext == "" then
      Drawn(Placeholder)
    else
      match GetProperty(ExtToLanguage, ext)
      case Own(l) => Drawn(IconFor(l, available))
      case InheritedMember(_) => ThrowsTypeError
      case Undefined => Drawn(Placeholder)
  }

  /** The corrected decision for a file name alone: its table language's icon, else the placeholder. */
  lemma CorrectedFromFilename(filename: string, available: set<string>)
    ensures var ext := GitHubApi.Extension(filename);
      filename != "" ==>
        ResolveIcon(None, Some(filename), available)
          == if ext != "" && ext in ExtToLanguage then IconFor(ExtToLanguage[ext], available) else Placeholder
  {
  }

  /** Away from the inherited keys, the source draws exactly what the corrected decision draws. */
  lemma AsWrittenAgreesOffInheritedKeys(language: Option<string>, filename: Option<string>, available: set<string>)
    requires language.Some? && language.value != "" ==> ToLower(language.value) !in InheritedLowerCaseKeys
    requires (language.None? || language.value == "") && filename.Some? ==>
      GitHubApi.Extension(filename.value) !in InheritedLowerCaseKeys
    ensures ResolveIconAsWritten(language, filename, available) == Drawn(ResolveIcon(language, filename, available))
  {
    if language.Some? && language.value != "" {
      ToLowerIdempotent(language.value);
    }
  }

  /** A file called `Button.constructor`, with no explicit language, makes rendering throw. */
  lemma ConstructorExtensionThrows(available: set<string>)
    ensures ResolveIconAsWritten(None, Some("Button" + "." + "constructor"), available) == ThrowsTypeError
  {
    var k := "constructor";
    GitHubApi.ConstructorIsLowerCase();
    GitHubApi.ExtensionAfterStem("Button", k);
    assert GitHubApi.Extension("Button" + "." + k) == k;
    assert k in InheritedLowerCaseKeys;
    assert FilenameIconAsWritten("Button" + "." + k, available) == ThrowsTypeError;
  }
}
