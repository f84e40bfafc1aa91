/** The translation lookup of i18n.js: the `zh` and `en` tables, `t` (lookup
    with an `en` fallback, then one left-to-right pass replacing `{name}`
    placeholders) and `detectLanguage` (with the browser language passed
    in). */
module I18n {
  import opened Strings

  const Zh: map<string, string> := map[
    "wrap_text" := "自动换行",
    "theme" := "切换主题",
    "new" := "新建",
    "history" := "历史记录",
    "copy" := "复制",
    "settings" := "设置",
    "clear_history" := "清空历史记录",
    "close" := "关闭",
    "input_placeholder" := "在此输入您的 prompt...",
    "history_title" := "历史记录",
    "settings_title" := "设置",
    "font_size" := "字体大小",
    "copied" := "已复制到剪贴板",
    "copy_failed" := "复制失败",
    "no_content" := "无内容可复制",
    "min_font_size" := "字体大小不能小于 {size}px",
    "max_font_size" := "字体大小不能大于 {size}px",
    "filename_txt_required" := "文件名必须以 .txt 结尾",
    "filename_invalid_chars" := "文件名包含非法字符",
    "history_cleared" := "已清空所有历史记录",
    "confirm_delete" := "确定要删除 \"{name}\" 吗？",
    "confirm_clear_history" := "确定要清空所有历史记录吗？此操作不可恢复。",
    "confirm_yes" := "删除",
    "confirm_clear_yes" := "清空",
    "confirm_no" := "取消"
  ]

  const En: map<string, string> := map[
    "wrap_text" := "Word Wrap",
    "theme" := "Toggle Theme",
    "new" := "New",
    "history" := "History",
    "copy" := "Copy",
    "settings" := "Settings",
    "clear_history" := "Clear History",
    "close" := "Close",
    "input_placeholder" := "Enter your prompt here...",
    "history_title" := "History",
    "settings_title" := "Settings",
    "font_size" := "Font Size",
    "copied" := "Copied to clipboard",
    "copy_failed" := "Failed to copy",
    "no_content" := "No content to copy",
    "min_font_size" := "Font size cannot be smaller than {size}px",
    "max_font_size" := "Font size cannot be larger than {size}px",
    "filename_txt_required" := "Filename must end with .txt",
    "filename_invalid_chars" := "Filename contains invalid characters",
    "history_cleared" := "All history cleared",
    "confirm_delete" := "Are you sure you want to delete \"{name}\"?",
    "confirm_clear_history" := "Are you sure you want to clear all history? This cannot be undone.",
    "confirm_yes" := "Delete",
    "confirm_clear_yes" := "Clear",
    "confirm_no" := "Cancel"
  ]

  const Translations: map<string, map<string, string>> := map["zh" := Zh, "en" := En]

  /** `detectLanguage()`, with `navigator.language` as the parameter:
      `'zh'` when the lower-cased language starts with "zh", else `'en'`. */
  function DetectLanguage(language: string): (r: string)
    ensures r == "zh" || r == "en"
    ensures r == "zh" <==> |language| >= 2 && (language[0] == 'z' || language[0] == 'Z')
                                            && (language[1] == 'h' || language[1] == 'H')
  {
    if StartsWith(ToLower(language), "zh") then "zh" else "en"
  }

  /** `toLowerCase()` on the letters A-Z (see README for the rest of Unicode). */
  function ToLower(s: string): (r: string)
    ensures |r| == |s|
    ensures forall i :: 0 <= i < |s| ==> r[i] == LowerChar(s[i])
  {
    if s == "" then "" else [LowerChar(s[0])] + ToLower(s[1..])
  }

  function LowerChar(c: char): char {
    if 'A' <= c <= 'Z' then (c as int + 32) as char else c
  }

  /** `translations[locale]?.[key] || translations['en'][key]`, with `None`
      for a result that is missing or empty (falsy). */
  function Lookup(locale: string, key: string): (r: Option<string>)
    ensures r.Some? ==> r.value != ""
  {
    var local := if locale in Translations && key in Translations[locale] then Translations[locale][key] else "";
    if local != "" then Some(local)
    else if key in En && En[key] != "" then Some(En[key])
    else None
  }

  /** `t(key, params)` in the locale `locale`. */
  function T(locale: string, key: string, params: map<string, string>): string {
    match Lookup(locale, key)
    case None => key
    case Some(text) => Substitute(text, params)
  }

  /** `\w` of a JavaScript regular expression without the `u` flag. */
  predicate IsWordChar(c: char) {
    ('a' <= c <= 'z') || ('A' <= c <= 'Z') || ('0' <= c <= '9') || c == '_'
  }

  /** Length of the run of word characters at the start of `s`. */
  function WordRun(s: string): (n: nat)
    ensures n <= |s|
    ensures forall i :: 0 <= i < n ==> IsWordChar(s[i])
    ensures n < |s| ==> !IsWordChar(s[n])
  {
    if s != "" && IsWordChar(s[0]) then 1 + WordRun(s[1..]) else 0
  }

  /** `text.replace(/\{(\w+)\}/g, ...)`: scanning left to right, each
      `{name}` whose name is defined in `params` is replaced by its value,
      any other one is kept; the scan resumes after the placeholder, so an
      inserted value is never scanned again. */
  function Substitute(s: string, params: map<string, string>): string
    decreases |s|
  {
    if s == "" then ""
    else if s[0] == '{' && PlaceholderAt(s) then
      var n := WordRun(s[1..]);
      var name := s[1..n + 1];
      (if name in params then params[name] else s[..n + 2]) + Substitute(s[n + 2..], params)
    else
      [s[0]] + Substitute(s[1..], params)
  }

  /** `s` starts with `{`, a non-empty run of word characters and `}`. */
  predicate PlaceholderAt(s: string) {
    && |s| > 0
    && s[0] == '{'
    && var n := WordRun(s[1..]);
       n > 0 && n + 1 < |s| && s[n + 1] == '}'
  }

  // ---------------------------------------------------------------------
  // Properties of the tables

  /** The keys of i18n.js, in five groups of five in the order both tables
      list them. */
  const KeysA: set<string> := {"wrap_text", "theme", "new", "history", "copy"}
  const KeysB: set<string> := {"settings", "clear_history", "close", "input_placeholder", "history_title"}
  const KeysC: set<string> := {"settings_title", "font_size", "copied", "copy_failed", "no_content"}
  const KeysD: set<string> :=
    {"min_font_size", "max_font_size", "filename_txt_required", "filename_invalid_chars", "history_cleared"}
  const KeysE: set<string> :=
    {"confirm_delete", "confirm_clear_history", "confirm_yes", "confirm_clear_yes", "confirm_no"}
  const KeyNames: set<string> := KeysA + KeysB + KeysC + KeysD + KeysE

  /** There are 25 keys. */
  lemma KeyCount()
    ensures |KeyNames| == 25
  {
    GroupSizes();
    GroupsDisjointA();
    GroupsDisjointB();
    GroupsDisjointC();
    GroupsDisjointD();
    assert |KeysA + KeysB| == 10;
    assert |KeysA + KeysB + KeysC| == 15;
    assert |KeysA + KeysB + KeysC + KeysD| == 20;
  }

  lemma GroupSizes() ensures |KeysA| == |KeysB| == |KeysC| == |KeysD| == |KeysE| == 5 {}
  lemma GroupsDisjointA() ensures KeysA !! KeysB {}
  lemma GroupsDisjointB() ensures (KeysA + KeysB) !! KeysC {}
  lemma GroupsDisjointC() ensures (KeysA + KeysB + KeysC) !! KeysD {}
  lemma GroupsDisjointD() ensures (KeysA + KeysB + KeysC + KeysD) !! KeysE {}

  /** Both tables define the same 25 keys, and neither has an empty text. */
  lemma TablesAgree()
    ensures Zh.Keys == KeyNames && En.Keys == KeyNames && |KeyNames| == 25
    ensures forall k :: k in Zh ==> Zh[k] != ""
    ensures forall k :: k in En ==> En[k] != ""
  {
    KeyCount();
    ZhKeys();
    EnKeys();
    ZhTexts();
    EnTexts();
    forall k | k in Zh ensures Zh[k] != "" {
      assert Zh[k] in Zh.Values;
    }
    forall k | k in En ensures En[k] != "" {
      assert En[k] in En.Values;
    }
  }

  lemma ZhKeys() ensures Zh.Keys == KeyNames {}
  lemma EnKeys() ensures En.Keys == KeyNames {}
  lemma ZhTexts() ensures "" !in Zh.Values {}
  lemma EnTexts() ensures "" !in En.Values {}

  /** The locale's own text is used when it has one; any other locale, or a
      key missing from it, falls back to `en`; a key in neither table has
      no text. */
  lemma LookupChoice(locale: string, key: string)
    ensures (locale in Translations && key in Translations[locale] && Translations[locale][key] != "")
            ==> Lookup(locale, key) == Some(Translations[locale][key])
    ensures locale !in Translations && key in En ==> Lookup(locale, key) == Some(En[key])
    ensures Lookup(locale, key) == None <==> key !in En
  {
    if key in En {
      EnTextOf(key);
    } else {
      ZhKeys();
      EnKeys();
      assert key !in Zh;
    }
  }

  lemma EnTextOf(key: string)
    requires key in En
    ensures En[key] != ""
  {
    EnTexts();
    assert En[key] in En.Values;
  }

  /** `t` returns the key itself when neither table knows it. */
  lemma MissingKeyReturned(locale: string, key: string, params: map<string, string>)
    requires key !in Zh && key !in En
    ensures T(locale, key, params) == key
  {
    LookupChoice(locale, key);
  }

  // ---------------------------------------------------------------------
  // Properties of the placeholder pass

  /** With no parameters, every placeholder stays as it is. */
  lemma {:induction false} SubstituteWithoutParams(s: string)
    ensures Substitute(s, map[]) == s
    decreases |s|
  {
    if s != "" {
      if PlaceholderAt(s) {
        var n := WordRun(s[1..]);
        SubstituteWithoutParams(s[n + 2..]);
        assert s[..n + 2] + s[n + 2..] == s;
      } else {
        SubstituteWithoutParams(s[1..]);
        assert [s[0]] + s[1..] == s;
      }
    }
  }

  /** Text without `{` is copied through unchanged. */
  lemma {:induction false} SubstituteCopies(a: string, b: string, params: map<string, string>)
    requires forall i :: 0 <= i < |a| ==> a[i] != '{'
    ensures Substitute(a + b, params) == a + Substitute(b, params)
    decreases |a|
  {
    if a == "" {
      assert a + b == b;
    } else {
      assert (a + b)[0] == a[0] && (a + b)[1..] == a[1..] + b;
      SubstituteCopies(a[1..], b, params);
      assert [a[0]] + (a[1..] + Substitute(b, params)) == a + Substitute(b, params);
    }
  }

  lemma SubstituteWithoutBraces(s: string, params: map<string, string>)
    requires forall i :: 0 <= i < |s| ==> s[i] != '{'
    ensures Substitute(s, params) == s
  {
    SubstituteCopies(s, "", params);
    assert s + "" == s;
  }

  /** Text in which no position starts a placeholder is returned unchanged,
      whatever braces it holds (`{}`, `{a b}`, a lone `{`). */
  lemma {:induction false} SubstituteWithoutPlaceholders(s: string, params: map<string, string>)
    requires forall i :: 0 <= i < |s| ==> !PlaceholderAt(s[i..])
    ensures Substitute(s, params) == s
    decreases |s|
  {
    if s != "" {
      assert s[0..] == s;
      forall i | 0 <= i < |s[1..]|
        ensures !PlaceholderAt(s[1..][i..])
      {
        assert s[1..][i..] == s[i + 1..];
      }
      SubstituteWithoutPlaceholders(s[1..], params);
      assert [s[0]] + s[1..] == s;
    }
  }

  /** One placeholder: replaced by its parameter when that is defined, kept
      verbatim otherwise; the scan goes on after it, so the value inserted
      is not scanned again. */
  lemma SubstitutePlaceholder(name: string, rest: string, params: map<string, string>)
    requires name != "" && forall i :: 0 <= i < |name| ==> IsWordChar(name[i])
    ensures Substitute("{" + name + "}" + rest, params)
            == (if name in params then params[name] else "{" + name + "}") + Substitute(rest, params)
  {
    var s := "{" + name + "}" + rest;
    var n := |name|;
    assert s[1..] == name + ("}" + rest);
    WordRunOf(name, "}" + rest);
    assert s[1..n + 1] == name;
    assert s[..n + 2] == "{" + name + "}";
    assert s[n + 2..] == rest;
    assert PlaceholderAt(s);
  }

  lemma {:induction false} WordRunOf(w: string, rest: string)
    requires forall i :: 0 <= i < |w| ==> IsWordChar(w[i])
    requires rest == "" || !IsWordChar(rest[0])
    ensures WordRun(w + rest) == |w|
    decreases |w|
  {
    if w == "" {
      assert w + rest == rest;
    } else {
      assert (w + rest)[1..] == w[1..] + rest;
      WordRunOf(w[1..], rest);
    }
  }

  /** A text made of placeholder-free `head`, `{size}` and `px` becomes
      `head`, the size and `px`. */
  lemma SizeNotice(text: string, head: string, size: string)
    requires forall i :: 0 <= i < |head| ==> head[i] != '{'
    requires text == head + "{size}px"
    ensures Substitute(text, map["size" := size]) == head + size + "px"
  {
    var params := map["size" := size];
    assert text == head + ("{" + "size" + "}" + "px");
    SubstituteCopies(head, "{" + "size" + "}" + "px", params);
    SubstitutePlaceholder("size", "px", params);
    SubstituteWithoutBraces("px", params);
  }

  /** `t('min_font_size', {size})` in Chinese. */
  lemma ZhMinFontSizeNotice(size: string)
    ensures T("zh", "min_font_size", map["size" := size]) == "字体大小不能小于 " + size + "px"
  {
    TextFound("zh", "min_font_size", "字体大小不能小于 {size}px", map["size" := size]);
    ZhMinText(size);
  }

  /** `t('max_font_size', {size})` in Chinese. */
  lemma ZhMaxFontSizeNotice(size: string)
    ensures T("zh", "max_font_size", map["size" := size]) == "字体大小不能大于 " + size + "px"
  {
    TextFound("zh", "max_font_size", "字体大小不能大于 {size}px", map["size" := size]);
    ZhMaxText(size);
  }

  /** `t('min_font_size', {size})` in English. */
  lemma EnMinFontSizeNotice(size: string)
    ensures T("en", "min_font_size", map["size" := size]) == "Font size cannot be smaller than " + size + "px"
  {
    TextFound("en", "min_font_size", "Font size cannot be smaller than {size}px", map["size" := size]);
    EnMinText(size);
  }

  lemma ZhMinText(size: string)
    ensures Substitute("字体大小不能小于 {size}px", map["size" := size]) == "字体大小不能小于 " + size + "px"
  {
    SizeNotice("字体大小不能小于 {size}px", "字体大小不能小于 ", size);
  }

  lemma ZhMaxText(size: string)
    ensures Substitute("字体大小不能大于 {size}px", map["size" := size]) == "字体大小不能大于 " + size + "px"
  {
    SizeNotice("字体大小不能大于 {size}px", "字体大小不能大于 ", size);
  }

  lemma EnMinText(size: string)
    ensures Substitute("Font size cannot be smaller than {size}px", map["size" := size])
            == "Font size cannot be smaller than " + size + "px"
  {
    SizeNotice("Font size cannot be smaller than {size}px", "Font size cannot be smaller than ", size);
  }

  /** An unknown locale falls back to the English texts. */
  lemma UnknownLocaleNotice(locale: string, size: string)
    requires locale != "zh" && locale != "en"
    ensures T(locale, "min_font_size", map["size" := size]) == "Font size cannot be smaller than " + size + "px"
  {
    UnknownLocaleIsEnglish(locale, "min_font_size", map["size" := size]);
    EnMinFontSizeNotice(size);
  }

  /** Any locale other than `zh` and `en` reads exactly like `en`. */
  lemma UnknownLocaleIsEnglish(locale: string, key: string, params: map<string, string>)
    requires locale != "zh" && locale != "en"
    ensures T(locale, key, params) == T("en", key, params)
  {
    assert locale !in Translations;
    assert Lookup(locale, key) == Lookup("en", key);
  }

  /** `t` on a key whose text is `text` substitutes into `text`. */
  lemma TextFound(locale: string, key: string, text: string, params: map<string, string>)
    requires locale in Translations && key in Translations[locale] && Translations[locale][key] == text
    requires text != ""
    ensures T(locale, key, params) == Substitute(text, params)
  {
  }

  /** `t(key)` for a text without placeholders is the text itself. */
  lemma PlainNotice(locale: string, key: string, params: map<string, string>, text: string)
    requires Lookup(locale, key) == Some(text)
    requires forall i :: 0 <= i < |text| ==> text[i] != '{'
    ensures T(locale, key, params) == text
  {
    SubstituteWithoutBraces(text, params);
  }
}
