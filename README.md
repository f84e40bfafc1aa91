# PromptBox in Dafny

PromptBox is a browser side-panel editor for prompts. It keeps a history of
text entries, newest first. Each entry has a file name, a content and an ISO
timestamp. Typing into the editor updates the newest entry. An entry whose
name has no `_` yet is renamed after a short label taken from its text. The
label holds up to ten Chinese characters or up to five English words. Entries
can be loaded back into the editor, renamed under file-name rules, deleted,
or cleared all at once. The panel also has a clamped font size, a three-way
theme switch, and a Chinese/English translation table with `{name}`
placeholders.

The model has five modules, one file each:

- `Strings` (`strings.dfy`) provides `Option`, JavaScript's `trim` with the
  ECMAScript white-space set, and suffix and prefix tests.
- `PrefixScanner` (`content_prefix.dfy`) models `isChineseChar` and
  `getContentPrefix`:
  - `Step`, `Run` and `Finish` restate the loop as a fold over the text,
    and `ContentPrefix` is that fold;
  - `GetContentPrefix` is the `for` loop itself, with its two `break`s,
    proved equal to the fold;
  - the lemmas describe the result through independent counts
    (`CountChinese`, `CountWords`) and through the shape of a label
    (`IsLabel`).
- `FileNames` (`file_names.dfy`) models the automatic name from the naming
  block of `handleInput` and the checks of `finishRename`, the rename
  callback set up by `startRename`.
- `I18n` (`i18n.dfy`) models the two translation tables, `t` (lookup with
  the `en` fallback, then one left-to-right placeholder pass) and
  `detectLanguage`.
- `PromptHistory` (`prompt_box.dfy`) models the `PromptBox` object:
  - a class with the history list, `currentPrompt`, the font size, the theme
    preference and the page's `data-theme` attribute;
  - methods for `createNewPrompt`, `handleInput`, `loadPrompt`, the confirmed
    bodies of the delete and clear dialogs, `finishRename`, `changeFontSize`
    and `cycleTheme`;
  - the functions (`AfterInput`, `Promote`, `RemoveAt`, `FontSizeAfter`,
    `NextTheme`) that specify those methods, and lemmas about them.

The editor's input box and `currentPrompt` are always assigned together in
popup.js. The model therefore keeps only `currentPrompt`, and the input
box's value is passed as a parameter where it is read.

The label scanner follows the code. It counts Chinese characters and words
and stops at the 10th Chinese character, or when a space, tab or newline
closes a word and at least 5 words have been counted, including words closed
by Chinese characters. So a 5th word closed by a Chinese character does not
stop the scan: the next word closed by a space, tab or newline is appended as
the 6th and stops it, and a word still pending at the end is dropped. It does not use a weighted width per character, so no such
weighting is modelled.

## Model

| member | source | states |
|---|---|---|
| Strings.IsJsSpace | popup.js:321 | the ECMAScript WhiteSpace and LineTerminator code points, which `trim` strips from both ends |
| Strings.IsAsciiLetter | popup.js:182 | `/[a-zA-Z]/.test(char)`: the 52 ASCII letters |
| Strings.EndsWith | popup.js:323 | `endsWith`: the string's last characters are the suffix |
| Strings.StartsWith | i18n.js:90 | `startsWith`: the string's first characters are the prefix |
| Strings.Trim | popup.js:321 | `trim` removes exactly the leading and trailing ECMAScript white space: the result starts and ends with a non-space, and a string without surrounding space is returned as it is |
| Strings.TrimMiddle | popup.js:321 | `trim` returns a middle slice of the string, and everything before and after that slice is white space |
| Strings.TrimTwice | popup.js:321 | trimming an already trimmed name changes nothing |
| PrefixScanner.IsChineseChar | popup.js:154-156 | a character is Chinese exactly when it lies in U+4E00..U+9FA5 |
| PrefixScanner.IsSeparator | popup.js:185 | space, newline and tab end a word |
| PrefixScanner.Join | popup.js:189 | a word is appended after a single space, or alone when the label is still empty |
| PrefixScanner.Step | popup.js:167-197 | one pass of the loop body: a Chinese character counts and closes the current word without appending it; a letter extends the word; a separator appends a pending word and counts it; anything else is skipped; reaching 10 Chinese characters marks the label found, and so does a space, tab or newline closing a word once at least 5 words have been counted, including words closed by Chinese characters; a word closed by a Chinese character never does by itself |
| PrefixScanner.Run | popup.js:166-198 | the loop over the text, stopping at the first character after the label is found |
| PrefixScanner.Finish | popup.js:200-211 | after the loop a pending word is appended if fewer than 5 words were counted; the result is null when neither limit was reached, and the trimmed label otherwise |
| PrefixScanner.ContentPrefix | popup.js:159-212 | `getContentPrefix` as a function: the loop from the empty state, then the code after it |
| PrefixScanner.GetContentPrefix | popup.js:159-212 | the loop with its early exits computes the fold `ContentPrefix`; it returns null exactly when the text has fewer than 10 Chinese characters and fewer than 5 words; a non-null result is a label |
| PrefixScanner.NoneExactly | popup.js:166-209 | null exactly when the text holds fewer than 10 characters in U+4E00..U+9FA5 and fewer than 5 words, both counted over the whole text by definitions independent of the scan |
| PrefixScanner.EnoughChineseGivesLabel | popup.js:169-181 | ten Chinese characters anywhere in the text always give a non-null result |
| PrefixScanner.LabelShape | popup.js:166-204 | a non-null result is non-empty and holds only ASCII letters, Chinese characters and single spaces, with no space at either end; it has at most 10 Chinese characters and at most 5 letter runs |
| PrefixScanner.LabelTrimmed | popup.js:211 | the final `trim` leaves a label unchanged |
| PrefixScanner.WordCutByChinese | popup.js:169-176 | a word ended by a Chinese character is counted, but only the Chinese character is appended |
| PrefixScanner.ChineseClosedFifthWord | popup.js:169-204 | a 5th word closed by a Chinese character is counted but, below 10 Chinese characters, does not stop the scan; a word still pending at the end is then dropped, so the label is the text before it |
| PrefixScanner.WordAfterChineseClosedFifth | popup.js:182-197 | after a 5th word closed by a Chinese character, the next word closed by a space, tab or newline is still appended after a space, counted as the 6th word, and stops the scan |
| PrefixScanner.IgnoredCharactersSkipped | popup.js:182-197 | digits, punctuation and every other character outside the three classes are skipped without ending a word, so the result is that of the text with them removed |
| PrefixScanner.ChineseTextLabel | popup.js:169-181 | a text of Chinese characters has no label below ten characters and is labelled by its first ten otherwise |
| PrefixScanner.PlainWordsLabel | popup.js:182-209 | words of ASCII letters separated by single spaces have no label below five words and are labelled by their first five otherwise, joined by single spaces |
| PrefixScanner.ShortTextHasNoLabel | popup.js:207-209 | `"a"` gives null |
| PrefixScanner.TenChineseCharacters | popup.js:169-181 | `"测试测试测试测试测试"` is its own label |
| PrefixScanner.FiveWords | popup.js:185-204 | `"the quick brown fox jumps"` is its own label |
| FileNames.IsIllegalChar | popup.js:250 | the nine characters `\ / : * ? " < > \|` that a file name may not contain |
| FileNames.HasIllegalChar | popup.js:329 | some character of the name is one of the nine; on a non-empty name this is exactly when `/^[^\\/:*?"<>\|]+$/.test` fails |
| FileNames.Acceptable | popup.js:323-333 | a name passes both rename checks: it is not empty, ends in `.txt` and has none of the nine characters |
| FileNames.AutoName | popup.js:246-252 | the name `handleInput` leaves on the newest entry: unchanged when it has `_` or the content has no label, otherwise the part before the first dot, `_`, the sanitised label and `.txt` |
| FileNames.CheckRename | popup.js:320-342 | the outcome of `finishRename` for the typed text: unchanged when the trimmed text is empty or the current name, refused for the suffix first and for the characters second, renamed to the trimmed text otherwise |
| FileNames.Sanitize | popup.js:250 | each character of `\ / : * ? " < > \|` is replaced by `_`, all others are kept, and none of them remains |
| FileNames.BeforeFirstDot | popup.js:249 | `split('.')[0]` is the longest dot-free prefix of the name |
| FileNames.LabelIsPlain | popup.js:250 | the sanitiser leaves a label unchanged, and a label has no `.` and no `_` |
| FileNames.AutoNameChanges | popup.js:246-252 | the name changes exactly when it has no `_` and the content has a label; the new name is the part before the first dot, `_`, the label and `.txt` |
| FileNames.AutoNameSticks | popup.js:246 | once renamed after its content, a name is never recomputed, whatever the later content |
| FileNames.AutoNameKeepsStem | popup.js:249-251 | the automatic name still starts with the old name's part before its first dot |
| FileNames.AutoNameKeepsSuffix | popup.js:251 | a name ending in `.txt` still ends in `.txt` after automatic naming |
| FileNames.AutoNameAcceptable | popup.js:246-252 | a name that the rename checks accept is still accepted after automatic naming |
| FileNames.StampNamed | popup.js:249-251 | a stem without `.` and without `_`, plus `.txt`, is renamed to stem, `_`, label and `.txt` when the content has a label |
| FileNames.RenameAccepts | popup.js:320-337 | a rename takes effect exactly when the trimmed input ends in `.txt`, has no illegal character and differs from the current name; the new name is the trimmed input |
| FileNames.RenameStable | popup.js:321-335 | an accepted name is accepted again as it stands by any other entry, and it is a no-op on the entry that carries it |
| FileNames.SuffixCheckedFirst | popup.js:323-333 | a new name without `.txt` is refused for its suffix even when it also has illegal characters |
| FileNames.RenameTrims | popup.js:321-335 | any white space before and after an acceptable new name is ignored, and the entry is renamed to the name itself |
| I18n.Zh | i18n.js:3-40 | the `zh` table, entry for entry |
| I18n.En | i18n.js:41-78 | the `en` table, entry for entry |
| I18n.Translations | i18n.js:2-79 | the `translations` object: `zh` and `en` mapped to their tables |
| I18n.T | i18n.js:93-104 | `t(key, params)` in a locale: the key itself when no text is found, otherwise the text with its placeholders filled in |
| I18n.Substitute | i18n.js:101-103 | the regex replace as a left-to-right scan: each `{name}` with `name` made of word characters is replaced by its parameter when defined and kept otherwise; the scan resumes after it |
| I18n.PlaceholderAt | i18n.js:101 | the text starts with `{`, a non-empty run of word characters and `}`, as `/\{(\w+)\}/` matches |
| I18n.IsWordChar | i18n.js:101 | `\w` without the `u` flag: ASCII letters, digits and `_` |
| I18n.DetectLanguage | i18n.js:86-91 | the locale is `zh` exactly when the language string starts with `zh` in any letter case, and `en` otherwise |
| I18n.ToLower | i18n.js:88 | `toLowerCase` maps A-Z to a-z character by character and keeps the length |
| I18n.Lookup | i18n.js:94 | a text found for a key is never empty, since an empty entry counts as missing |
| I18n.WordRun | i18n.js:101 | `\w+` matches the longest run of `[A-Za-z0-9_]` |
| I18n.KeyCount | i18n.js:3-77 | there are 25 distinct keys |
| I18n.TablesAgree | i18n.js:3-77 | the `zh` and `en` tables define the same 25 keys, and no text in either is empty |
| I18n.LookupChoice | i18n.js:94-98 | the locale's own non-empty text wins; an unknown locale falls back to `en`; a key has no text exactly when `en` lacks it |
| I18n.MissingKeyReturned | i18n.js:94-98 | `t` returns the key itself when neither table has it |
| I18n.UnknownLocaleIsEnglish | i18n.js:94 | any locale other than `zh` and `en` reads exactly like `en` |
| I18n.TextFound | i18n.js:94-103 | `t` on a key with a non-empty text in the locale substitutes into that text |
| I18n.SubstituteWithoutParams | i18n.js:101-103 | without parameters every placeholder is kept verbatim, so the text is returned unchanged |
| I18n.SubstituteCopies | i18n.js:101-103 | a stretch of text without `{` is copied through unchanged |
| I18n.SubstituteWithoutBraces | i18n.js:101-103 | a text without `{` is returned unchanged |
| I18n.SubstituteWithoutPlaceholders | i18n.js:101-103 | a text in which no position starts `{\w+}` is returned unchanged, whatever braces it holds |
| I18n.SubstitutePlaceholder | i18n.js:101-103 | `{name}` is replaced by the parameter when defined and kept otherwise, and scanning resumes after it, so the inserted value is not rescanned |
| I18n.PlainNotice | i18n.js:94-103 | `t` on a found text without `{` is that text |
| I18n.SizeNotice | i18n.js:101-103 | a text made of a part without `{`, then `{size}px`, gets the size in place of the placeholder |
| I18n.ZhMinFontSizeNotice | i18n.js:28 | `t('min_font_size', {size})` in `zh` is "字体大小不能小于 " + size + "px" |
| I18n.ZhMaxFontSizeNotice | i18n.js:29 | `t('max_font_size', {size})` in `zh` is "字体大小不能大于 " + size + "px" |
| I18n.EnMinFontSizeNotice | i18n.js:66 | `t('min_font_size', {size})` in `en` is "Font size cannot be smaller than " + size + "px" |
| I18n.UnknownLocaleNotice | i18n.js:94 | in an unknown locale the same call gives the English text |
| PromptHistory.NewEntry | popup.js:127-145 | the entry `createNewPrompt` adds: named after the local time with `/` turned into `-` and `.txt`, empty, stamped with the ISO time |
| PromptHistory.ReplaceSlashes | popup.js:136 | every `/` of the local time becomes `-`, and nothing else changes |
| PromptHistory.NewEntryShape | popup.js:127-145 | a new entry is empty and carries the ISO time; its name ends in `.txt`, has no `/`, and for a local time without dots its part before the first dot is that time with `/` turned into `-` |
| PromptHistory.RemoveAt | popup.js:375 | `splice(i, 1)` drops element `i` and shifts the later ones down by one |
| PromptHistory.Promote | popup.js:396-399 | `loadPrompt`'s reordering: for a non-zero index the entry is removed and put back at the front; index 0 leaves the list as it is |
| PromptHistory.RemoveAtMultiset | popup.js:375 | exactly the removed entry leaves the list |
| PromptHistory.PromoteProperties | popup.js:394-399 | the loaded entry comes first, the others keep their relative order, nothing is lost or duplicated, and loading index 0 changes nothing |
| PromptHistory.PromotePositions | popup.js:396-399 | entries before the loaded one move back by one, and those after it stay in place |
| PromptHistory.FontSizeAfter | popup.js:415-425 | the new size is the sum clamped to 12..24 |
| PromptHistory.FontSizeSteps | popup.js:415-425 | a larger step never gives a smaller size, and a step within range is undone by the opposite step |
| PromptHistory.FontSizeNotice | popup.js:417-422 | the notification of `changeFontSize`: the minimum text below 12, the maximum text above 24, none otherwise |
| PromptHistory.Decimal | popup.js:418 | the decimal digits of a bound, as `${this.minFontSize}` writes them |
| PromptHistory.BoundsPrinted | popup.js:418-421 | the notices print the bounds as "12" and "24" |
| PromptHistory.FontSizeNoticeTranslated | popup.js:417-422 | a notification is shown exactly when the size is clamped, and its text is the `zh` table's `min_font_size` or `max_font_size` with the bound filled in |
| PromptHistory.CurrentTheme | popup.js:104 | a missing or empty `data-theme` attribute reads as `system` |
| PromptHistory.NextTheme | popup.js:103-106 | the theme after the current one in system, green, dark, wrapping around; a theme not in the list gives the first |
| PromptHistory.ThemeAttribute | popup.js:108-112 | the attribute is removed for `system` and set to the theme otherwise |
| PromptHistory.IndexOf | popup.js:105 | `indexOf` gives the first position of the value, or -1 exactly when the value is absent |
| PromptHistory.ThemeCycle | popup.js:102-114 | system goes to green, green to dark and dark to system; a theme outside the list goes to system (a missing attribute reads as system and goes to green); the result is one of the three |
| PromptHistory.ThemeCycleReturns | popup.js:102-114 | three presses return to the starting theme |
| PromptHistory.RenameNotice | popup.js:324-330 | the notification of each rename refusal |
| PromptHistory.NoticesTranslated | popup.js:324-330 | the rename refusals are the `zh` table's `filename_txt_required` and `filename_invalid_chars` texts, and the clear notification is its `history_cleared` text |
| PromptHistory.GeneratedNameRefused | popup.js:127-139 | a name generated from a local time containing `:` fails the rename character check |
| PromptHistory.Blank | popup.js:123 | the editor text is blank when trimming leaves nothing |
| PromptHistory.AfterInput | popup.js:236-252 | the list `handleInput` leaves: a new entry first when the list is empty, then the newest entry gets the content and its automatic name |
| PromptHistory.AfterInputShape | popup.js:236-243 | after input only the newest entry changes: it gets the content and the automatic name and keeps its timestamp; an empty list first gains one new entry |
| PromptHistory.NamedOnce | popup.js:246-252 | once input has renamed the newest entry, later input never renames it again |
| PromptHistory.AfterInputTxt | popup.js:243-251 | input keeps every name ending in `.txt` |
| PromptHistory.PromptBox.constructor | popup.js:2-11 | the list and the editor start empty, with font size 15 and the system theme |
| PromptHistory.PromptBox.CreateNewPrompt | popup.js:122-151 | nothing changes when the editor is blank and the list is not empty; otherwise one new entry is prepended, the editor is cleared and shows it |
| PromptHistory.PromptBox.HandleInput | popup.js:234-257 | the list becomes `AfterInput`; on a non-empty list the editor holds the content and shows the newest entry; on an empty list the editor ends up empty |
| PromptHistory.PromptBox.LoadPrompt | popup.js:393-406 | the entry is promoted to the front and the editor shows its content |
| PromptHistory.PromptBox.Rename | popup.js:320-342 | the outcome is the rename check; only an accepted name replaces the entry's name; a refusal yields its notification |
| PromptHistory.PromptBox.ConfirmDelete | popup.js:373-385 | a confirmed delete removes exactly that entry and clears the editor only for index 0; when index 0 is deleted from at least two entries and the next entry's content is not empty, the editor no longer shows the newest entry; declining changes nothing |
| PromptHistory.PromptBox.ConfirmClearHistory | popup.js:447-458 | a confirmed clear empties the list and the editor and yields the cleared notification |
| PromptHistory.PromptBox.ChangeFontSize | popup.js:415-429 | the size becomes the clamped sum, with the notification of a clamped step |
| PromptHistory.PromptBox.CycleTheme | popup.js:102-116 | the theme becomes the next one in the cycle; the attribute is removed for system and set otherwise |
| PromptHistory.NameFor | popup.js:245-253 | the naming block computes the automatic name, calling the scanning loop |
| PromptHistory.FirstInput | popup.js:236-243 | typing into an empty history leaves one entry holding the text while the editor is empty, so they disagree |

## Left out

- The DOM is not modelled. This covers element lookup, event wiring, the
  history list rendering, the wrap, history and settings toggles,
  `applyFontSize`, the rename input box and the confirmation dialogs.
  Only the bodies that run on confirmation are modelled; declining changes
  nothing.
- Storage through `chrome.storage.local` is not modelled: `loadData`,
  `savePrompts`, `savePreferences` and the preference merge on load. The
  code does not handle storage errors, so no error path is modelled.
- `await` interleaving is not modelled. Each method runs to completion, and
  the nested `createNewPrompt` inside `handleInput` runs at once.
- `Date`, `toLocaleString` and `toISOString` are replaced by a `Stamp`
  parameter that holds the two strings. The browser language is a
  parameter of `DetectLanguage`.
- `copyPrompt`, the clipboard and the `showNotification` timers are not
  modelled. A method returns the notification text it would show instead.
- `updateElement` and `updateTitle` of i18n.js, the `console.warn` for a
  missing key, and background.js are not modelled. They only touch the
  page or the browser.
- The word-wrap preference is not modelled; only the wrap toggle changes
  it.
- I18n.ToLower: lower-cases A-Z only. The full Unicode `toLowerCase` is not
  modelled. The only use is the test for a leading "zh", which only
  depends on those letters.
- I18n.T: `params` is a map from names to strings. Non-string values, which
  JavaScript would turn into strings, are not modelled.
- I18n.T: the tables, the locales and `params` are maps of their own keys.
  Names inherited from `Object.prototype` are not modelled. In JavaScript,
  `t('toString')` finds a function in the table and `text.replace` then
  throws a `TypeError`; the model returns the key `"toString"` instead. In
  the same way, `params` with an inherited name such as `{constructor}`
  inserts the function's source text in JavaScript but keeps the
  placeholder in the model.
- Strings are sequences of code points. Characters outside the Basic
  Multilingual Plane are not split into UTF-16 halves as JavaScript
  indexing would split them.
- PromptHistory.PromptBox.Rename: works on the entry at an index. It does
  not model the closure's reference to the entry object, which stays valid
  if the list is reordered while the box is open.
- Entries are values held in the list. Updating an entry replaces it at its
  index instead of mutating a shared object. The only other reference the
  code keeps to an entry is the rename closure's, covered by the
  `PromptHistory.PromptBox.Rename` line above; the naming in `handleInput`
  writes through `prompts[0]`, which is the same position the model
  updates.
- PromptHistory.PromptBox.ConfirmDelete: requires a valid index. The code
  keeps each confirmation dialog open until it is answered. If two delete
  dialogs are open, or a clear runs while one is open, the stale index can
  reach `splice`. There it removes a different entry, or nothing when the
  index is past the end. These stale dialogs are not modelled.
