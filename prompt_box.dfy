/** The state of popup.js's `PromptBox`: the history list (`prompts`, newest
    first), the text being edited (`currentPrompt`, always assigned together
    with the input box), the font size and the theme, with the operations
    that change them. Dates arrive as a `Stamp` parameter; storage, the DOM
    and notifications are left out, except that a method returns the
    notification text it would show. */
module PromptHistory {
  import opened Strings
  import opened PrefixScanner
  import opened FileNames
  import I18n

  const MinFontSize: int := 12
  const MaxFontSize: int := 24
  const DefaultFontSize: int := 15

  /** The themes `cycleTheme` steps through, in order. */
  const Themes: seq<string> := ["system", "green", "dark"]

  /** One history entry: `{fileName, content, timestamp}`. */
  datatype Entry = Entry(fileName: string, content: string, timestamp: string)

  /** A moment as the two strings popup.js derives from `new Date()`:
      `toLocaleString('zh-CN', …)` and `toISOString()`. */
  datatype Stamp = Stamp(local: string, iso: string)

  /** `s.replace(/[\/]/g, '-')`. */
  function ReplaceSlashes(s: string): (r: string)
    ensures |r| == |s|
    ensures forall i :: 0 <= i < |s| && s[i] != '/' ==> r[i] == s[i]
    ensures forall i :: 0 <= i < |s| && s[i] == '/' ==> r[i] == '-'
  {
    if s == "" then "" else [if s[0] == '/' then '-' else s[0]] + ReplaceSlashes(s[1..])
  }

  /** The entry `createNewPrompt` adds. */
  function NewEntry(now: Stamp): Entry {
    Entry(ReplaceSlashes(now.local) + ".txt", "", now.iso)
  }

  /** A new entry is empty, carries the ISO time, and is named after the
      local time with its slashes turned into dashes: the name ends in
      `.txt`, has no slash, and (for a local time without dots) its part
      before the first dot is exactly that time. */
  lemma NewEntryShape(now: Stamp)
    ensures NewEntry(now).content == "" && NewEntry(now).timestamp == now.iso
    ensures EndsWith(NewEntry(now).fileName, ".txt") && '/' !in NewEntry(now).fileName
    ensures '.' !in now.local ==> BeforeFirstDot(NewEntry(now).fileName) == ReplaceSlashes(now.local)
  {
    var stem := ReplaceSlashes(now.local);
    var name := stem + ".txt";
    assert name[|name| - 4..] == ".txt";
    forall i | 0 <= i < |name| ensures name[i] != '/' {
      if i < |stem| {
        assert name[i] == stem[i];
      } else {
        assert name[i] == ".txt"[i - |stem|];
      }
    }
    if '.' !in now.local {
      forall i | 0 <= i < |stem| ensures stem[i] != '.' {
        assert now.local[i] != '.';
      }
      StemOf(stem, ".txt");
    }
  }

  // ---------------------------------------------------------------------
  // The list operations as functions on sequences

  /** `splice(i, 1)`: the list without its element `i`. */
  function RemoveAt<T>(s: seq<T>, i: nat): (r: seq<T>)
    requires i < |s|
    ensures |r| == |s| - 1
    ensures forall j :: 0 <= j < i ==> r[j] == s[j]
    ensures forall j :: i <= j < |r| ==> r[j] == s[j + 1]
  {
    s[..i] + s[i + 1..]
  }

  /** The reordering of `loadPrompt`: element `i` moved to the front. */
  function Promote<T>(s: seq<T>, i: nat): seq<T>
    requires i < |s|
  {
    if i == 0 then s else [s[i]] + RemoveAt(s, i)
  }

  /** Removing one element takes exactly that element out of the multiset. */
  lemma RemoveAtMultiset<T>(s: seq<T>, i: nat)
    requires i < |s|
    ensures multiset(RemoveAt(s, i)) + multiset{s[i]} == multiset(s)
  {
    assert s == s[..i] + [s[i]] + s[i + 1..];
  }

  /** Promotion puts element `i` first, keeps the others in their relative
      order, and loses or duplicates nothing; promoting the first element
      changes nothing. */
  lemma PromoteProperties<T>(s: seq<T>, i: nat)
    requires i < |s|
    ensures |Promote(s, i)| == |s|
    ensures Promote(s, i)[0] == s[i]
    ensures RemoveAt(Promote(s, i), 0) == RemoveAt(s, i)
    ensures multiset(Promote(s, i)) == multiset(s)
    ensures i == 0 ==> Promote(s, i) == s
  {
    if i == 0 {
      assert s == [s[0]] + s[1..];
    } else {
      RemoveAtMultiset(s, i);
      assert Promote(s, i)[1..] == RemoveAt(s, i);
    }
  }

  /** Where each old element ends up after promotion. */
  lemma PromotePositions<T>(s: seq<T>, i: nat)
    requires i < |s|
    ensures forall j :: 0 <= j < i ==> Promote(s, i)[j + 1] == s[j]
    ensures forall j :: i < j < |s| ==> Promote(s, i)[j] == s[j]
  {
  }

  // ---------------------------------------------------------------------
  // Font size

  /** The size `changeFontSize(delta)` sets: the sum, clamped to
      [MinFontSize, MaxFontSize]. */
  function FontSizeAfter(size: int, delta: int): (r: int)
    ensures MinFontSize <= r <= MaxFontSize
    ensures MinFontSize <= size + delta <= MaxFontSize ==> r == size + delta
    ensures size + delta < MinFontSize ==> r == MinFontSize
    ensures size + delta > MaxFontSize ==> r == MaxFontSize
  {
    var n := size + delta;
    if n < MinFontSize then MinFontSize else if n > MaxFontSize then MaxFontSize else n
  }

  /** A larger step never gives a smaller size, and a step that stays in
      range is undone by the opposite step. */
  lemma FontSizeSteps(size: int, d1: int, d2: int)
    ensures d1 <= d2 ==> FontSizeAfter(size, d1) <= FontSizeAfter(size, d2)
    ensures MinFontSize <= size <= MaxFontSize && MinFontSize <= size + d1 <= MaxFontSize
            ==> FontSizeAfter(FontSizeAfter(size, d1), -d1) == size
  {
  }

  /** `${n}` for a non-negative number. */
  function Decimal(n: nat): string
  {
    if n < 10 then [('0' as int + n) as char]
    else Decimal(n / 10) + [('0' as int + n % 10) as char]
  }

  /** The two bounds are printed as "12" and "24" in the notices. */
  lemma BoundsPrinted()
    ensures Decimal(MinFontSize) == "12" && Decimal(MaxFontSize) == "24"
  {
  }

  /** The notification `changeFontSize` shows, if any. */
  function FontSizeNotice(size: int, delta: int): Option<string> {
    if size + delta < MinFontSize then Some("字体大小不能小于 " + Decimal(MinFontSize) + "px")
    else if size + delta > MaxFontSize then Some("字体大小不能大于 " + Decimal(MaxFontSize) + "px")
    else None
  }

  /** A notification is shown exactly when the size had to be clamped, and
      its text is the `min_font_size` / `max_font_size` text of the Chinese
      table with the bound filled in. */
  lemma FontSizeNoticeTranslated(size: int, delta: int)
    ensures FontSizeNotice(size, delta).Some? <==> FontSizeAfter(size, delta) != size + delta
    ensures size + delta < MinFontSize ==>
              FontSizeNotice(size, delta)
              == Some(I18n.T("zh", "min_font_size", map["size" := Decimal(MinFontSize)]))
    ensures size + delta > MaxFontSize ==>
              FontSizeNotice(size, delta)
              == Some(I18n.T("zh", "max_font_size", map["size" := Decimal(MaxFontSize)]))
  {
    I18n.ZhMinFontSizeNotice(Decimal(MinFontSize));
    I18n.ZhMaxFontSizeNotice(Decimal(MaxFontSize));
  }

  // ---------------------------------------------------------------------
  // Theme

  /** `getAttribute('data-theme') || 'system'`: a missing or empty attribute
      reads as `system`. */
  function CurrentTheme(attribute: Option<string>): string {
    match attribute
    case None => "system"
    case Some(v) => if v == "" then "system" else v
  }

  /** `themes.indexOf(x)`. */
  function IndexOf(s: seq<string>, x: string): (r: int)
    ensures -1 <= r < |s|
    ensures r == -1 <==> x !in s
    ensures 0 <= r ==> s[r] == x && x !in s[..r]
  {
    if s == [] then -1
    else if s[0] == x then 0
    else
      var k := IndexOf(s[1..], x);
      if k == -1 then -1
      else
        assert s[..k + 1] == [s[0]] + s[1..][..k];
        k + 1
  }

  /** The theme `cycleTheme` switches to. */
  function NextTheme(attribute: Option<string>): string {
    Themes[(IndexOf(Themes, CurrentTheme(attribute)) + 1) % |Themes|]
  }

  /** The attribute `cycleTheme` leaves: removed for `system`, set otherwise. */
  function ThemeAttribute(theme: string): Option<string> {
    if theme == "system" then None else Some(theme)
  }

  /** system -> green -> dark -> system; an unknown theme leads to `system`,
      and the result is always one of the three. */
  lemma ThemeCycle(attribute: Option<string>)
    ensures NextTheme(ThemeAttribute("system")) == "green"
    ensures NextTheme(ThemeAttribute("green")) == "dark"
    ensures NextTheme(ThemeAttribute("dark")) == "system"
    ensures NextTheme(attribute) in Themes
    ensures CurrentTheme(attribute) !in Themes ==> NextTheme(attribute) == "system"
  {
    ThemeSteps();
  }

  lemma ThemeSteps()
    ensures NextTheme(ThemeAttribute("system")) == "green"
    ensures NextTheme(ThemeAttribute("green")) == "dark"
    ensures NextTheme(ThemeAttribute("dark")) == "system"
  {
    assert IndexOf(Themes, "system") == 0;
    assert IndexOf(Themes, "green") == 1;
    assert IndexOf(Themes, "dark") == 2;
  }

  /** Three presses bring any of the three themes back. */
  lemma ThemeCycleReturns(theme: string)
    requires theme in Themes
    ensures NextTheme(ThemeAttribute(NextTheme(ThemeAttribute(NextTheme(ThemeAttribute(theme)))))) == theme
  {
    ThemeSteps();
    if theme == "system" {
    } else if theme == "green" {
    } else {
      assert theme == "dark";
    }
  }

  // ---------------------------------------------------------------------
  // Notifications of the rename box and the clear dialog

  function RenameNotice(error: RenameError): string {
    match error
    case TxtSuffixRequired => "文件名必须以 .txt 结尾"
    case InvalidChars => "文件名包含非法字符"
  }

  const HistoryClearedNotice: string := "已清空所有历史记录"

  /** The notifications written out in popup.js are the Chinese table's
      texts for the same keys. */
  lemma NoticesTranslated(params: map<string, string>)
    ensures RenameNotice(TxtSuffixRequired) == I18n.T("zh", "filename_txt_required", params)
    ensures RenameNotice(InvalidChars) == I18n.T("zh", "filename_invalid_chars", params)
    ensures HistoryClearedNotice == I18n.T("zh", "history_cleared", params)
  {
    TxtNoticeTranslated(params);
    CharsNoticeTranslated(params);
    ClearedNoticeTranslated(params);
  }

  lemma TxtNoticeTranslated(params: map<string, string>)
    ensures "文件名必须以 .txt 结尾" == I18n.T("zh", "filename_txt_required", params)
  {
    var text := "文件名必须以 .txt 结尾";
    assert I18n.Lookup("zh", "filename_txt_required") == Some(text);
    I18n.PlainNotice("zh", "filename_txt_required", params, text);
  }

  lemma CharsNoticeTranslated(params: map<string, string>)
    ensures "文件名包含非法字符" == I18n.T("zh", "filename_invalid_chars", params)
  {
    var text := "文件名包含非法字符";
    assert I18n.Lookup("zh", "filename_invalid_chars") == Some(text);
    I18n.PlainNotice("zh", "filename_invalid_chars", params, text);
  }

  lemma ClearedNoticeTranslated(params: map<string, string>)
    ensures HistoryClearedNotice == I18n.T("zh", "history_cleared", params)
  {
    var text := "已清空所有历史记录";
    assert I18n.Lookup("zh", "history_cleared") == Some(text);
    I18n.PlainNotice("zh", "history_cleared", params, text);
  }

  /** The names `createNewPrompt` generates from a local time with a colon
      in it (as `toLocaleString` writes `hh:mm:ss`) are names the rename box
      would refuse. */
  lemma GeneratedNameRefused(now: Stamp, current: string)
    requires ':' in now.local
    requires !IsJsSpace(now.local[0]) && current != NewEntry(now).fileName
    ensures !Acceptable(NewEntry(now).fileName)
    ensures CheckRename(current, NewEntry(now).fileName) == Rejected(InvalidChars)
  {
    ColonKept(now);
    NewEntryShape(now);
    var name := NewEntry(now).fileName;
    assert name[0] == ReplaceSlashes(now.local)[0];
    RefusedForChars(current, name);
  }

  lemma RefusedForChars(current: string, name: string)
    requires EndsWith(name, ".txt") && !IsJsSpace(name[0]) && current != name
    requires HasIllegalChar(name)
    ensures CheckRename(current, name) == Rejected(InvalidChars)
  {
    assert name[|name| - 1] == 't';
    assert Trim(name) == name;
  }

  lemma ColonKept(now: Stamp)
    requires ':' in now.local
    ensures HasIllegalChar(NewEntry(now).fileName)
  {
    var stem := ReplaceSlashes(now.local);
    var i :| 0 <= i < |now.local| && now.local[i] == ':';
    assert stem[i] == ':';
    assert (stem + ".txt")[i] == ':';
    assert IsIllegalChar(NewEntry(now).fileName[i]);
  }

  /** `s.trim() === ''`. */
  predicate Blank(s: string) {
    Trim(s) == ""
  }

  /** All names end in `.txt`. */
  ghost predicate TxtNames(ps: seq<Entry>) {
    forall i :: 0 <= i < |ps| ==> EndsWith(ps[i].fileName, ".txt")
  }

  lemma PrependTxt(e: Entry, ps: seq<Entry>)
    requires EndsWith(e.fileName, ".txt")
    ensures TxtNames(ps) ==> TxtNames([e] + ps)
  {
    if TxtNames(ps) {
      forall i | 0 < i < |ps| + 1 ensures EndsWith(([e] + ps)[i].fileName, ".txt") {
        assert ([e] + ps)[i] == ps[i - 1];
      }
    }
  }

  lemma FrontRenamed(before: seq<Entry>, after: seq<Entry>)
    requires |before| == |after| > 0 && after[1..] == before[1..]
    requires TxtNames(before) ==> EndsWith(after[0].fileName, ".txt")
    ensures TxtNames(before) ==> TxtNames(after)
  {
    if TxtNames(before) {
      forall i | 0 < i < |after| ensures EndsWith(after[i].fileName, ".txt") {
        assert after[i] == after[1..][i - 1] == before[i];
      }
    }
  }

  /** The list `handleInput` leaves: the newest entry, created first when
      the list is empty, holds the content and is named after it. */
  function AfterInput(ps: seq<Entry>, content: string, now: Stamp): seq<Entry> {
    var list := if ps == [] then [NewEntry(now)] else ps;
    list[0 := Entry(AutoName(list[0].fileName, content), content, list[0].timestamp)]
  }

  /** Only the newest entry changes: it gets the content and the automatic
      name while keeping its timestamp; an empty list first gains one
      entry. */
  lemma AfterInputShape(ps: seq<Entry>, content: string, now: Stamp)
    ensures var r := AfterInput(ps, content, now);
            && |r| == (if ps == [] then 1 else |ps|)
            && r[0].content == content
            && (ps != [] ==>
                  r[1..] == ps[1..] && r[0].timestamp == ps[0].timestamp
                  && r[0].fileName == AutoName(ps[0].fileName, content))
            && (ps == [] ==> r == [Entry(AutoName(NewEntry(now).fileName, content), content, now.iso)])
  {
    var r := AfterInput(ps, content, now);
    if ps != [] {
      assert r[1..] == ps[1..];
    }
  }

  /** Once input has named the newest entry, later input never renames it. */
  lemma NamedOnce(ps: seq<Entry>, first: string, now: Stamp, later: string, afterwards: Stamp)
    requires var base := if ps == [] then NewEntry(now) else ps[0];
             AfterInput(ps, first, now)[0].fileName != base.fileName
    ensures AfterInput(AfterInput(ps, first, now), later, afterwards)[0].fileName
            == AfterInput(ps, first, now)[0].fileName
  {
    var base := if ps == [] then NewEntry(now) else ps[0];
    AutoNameSticks(base.fileName, first, later);
  }

  /** Names ending in `.txt` keep doing so. */
  lemma AfterInputTxt(ps: seq<Entry>, content: string, now: Stamp)
    ensures TxtNames(ps) ==> TxtNames(AfterInput(ps, content, now))
  {
    var r := AfterInput(ps, content, now);
    if ps == [] {
      NewEntryShape(now);
      AutoNameKeepsSuffix(NewEntry(now).fileName, content);
    } else {
      assert r[1..] == ps[1..];
      AutoNameKeepsSuffix(ps[0].fileName, content);
      FrontRenamed(ps, r);
    }
  }

  // ---------------------------------------------------------------------
  // The object

  class PromptBox {
    /** `this.prompts`, newest first. */
    var prompts: seq<Entry>
    /** `this.currentPrompt`, equal to the input box whenever either is set. */
    var currentPrompt: string
    /** `this.preferences.fontSize`. */
    var fontSize: int
    /** `this.preferences.theme`. */
    var theme: string
    /** The `data-theme` attribute of the page body. */
    var dataTheme: Option<string>

    /** Every file name ends in `.txt` and the font size is in range. */
    ghost predicate Valid()
      reads this
    {
      && TxtNames(prompts)
      && MinFontSize <= fontSize <= MaxFontSize
    }

    /** The editor shows the newest entry. */
    ghost predicate InSync()
      reads this
    {
      |prompts| > 0 && currentPrompt == prompts[0].content
    }

    /** The state after the constructor, before anything is loaded. */
    constructor ()
      ensures prompts == [] && currentPrompt == ""
      ensures fontSize == DefaultFontSize && theme == "system" && dataTheme == None
      ensures Valid()
    {
      prompts := [];
      currentPrompt := "";
      fontSize := DefaultFontSize;
      theme := "system";
      dataTheme := None;
    }

    /** `createNewPrompt()`: nothing happens when the editor is blank and the
        list is not empty; otherwise a new empty entry goes first and the
        editor is cleared. */
    method CreateNewPrompt(now: Stamp)
      modifies this
      ensures if Blank(old(currentPrompt)) && |old(prompts)| > 0
              then prompts == old(prompts) && currentPrompt == old(currentPrompt)
              else prompts == [NewEntry(now)] + old(prompts) && currentPrompt == "" && InSync()
      ensures fontSize == old(fontSize) && theme == old(theme) && dataTheme == old(dataTheme)
      ensures old(Valid()) ==> Valid()
    {
      if Blank(currentPrompt) && |prompts| > 0 {
        return;
      }
      var entry := NewEntry(now);
      NewEntryShape(now);
      PrependTxt(entry, prompts);
      prompts := [entry] + prompts;
      currentPrompt := "";
    }

    /** `handleInput()` with the input box holding `content`: the newest
        entry (created first when the list is empty) receives the content
        and, while its name has no `_`, the name derived from it. On an empty
        list the nested `createNewPrompt` clears `currentPrompt` after it was
        set, so the editor and the entry disagree afterwards. */
    method HandleInput(content: string, now: Stamp)
      modifies this
      ensures prompts == AfterInput(old(prompts), content, now)
      ensures currentPrompt == if old(prompts) == [] then "" else content
      ensures old(prompts) != [] ==> InSync()
      ensures fontSize == old(fontSize) && theme == old(theme) && dataTheme == old(dataTheme)
      ensures old(Valid()) ==> Valid()
    {
      currentPrompt := content;
      if |prompts| == 0 {
        CreateNewPrompt(now);
      }
      var entry := prompts[0];
      var fileName := NameFor(entry.fileName, content);
      prompts := prompts[0 := Entry(fileName, content, entry.timestamp)];
      AfterInputTxt(old(prompts), content, now);
    }

    /** `loadPrompt(index)`: the entry moves to the front and the editor
        shows its content. */
    method LoadPrompt(index: nat)
      requires index < |prompts|
      modifies this
      ensures prompts == Promote(old(prompts), index)
      ensures currentPrompt == old(prompts)[index].content && InSync()
      ensures fontSize == old(fontSize) && theme == old(theme) && dataTheme == old(dataTheme)
      ensures old(Valid()) ==> Valid()
    {
      var prompt := prompts[index];
      if index != 0 {
        prompts := RemoveAt(prompts, index);
        prompts := [prompt] + prompts;
      }
      currentPrompt := prompt.content;
      PromoteProperties(old(prompts), index);
      PromotePositions(old(prompts), index);
    }

    /** `finishRename` on the entry at `index` with the text of the rename
        box: the outcome of the checks, the notification of a refusal, and
        the new name only when the checks pass. */
    method Rename(index: nat, input: string) returns (outcome: RenameOutcome, notice: Option<string>)
      requires index < |prompts|
      modifies this
      ensures outcome == CheckRename(old(prompts)[index].fileName, input)
      ensures outcome.Renamed? ==> prompts == old(prompts)[index := old(prompts)[index].(fileName := outcome.name)]
      ensures !outcome.Renamed? ==> prompts == old(prompts)
      ensures notice == if outcome.Rejected? then Some(RenameNotice(outcome.error)) else None
      ensures currentPrompt == old(currentPrompt)
      ensures fontSize == old(fontSize) && theme == old(theme) && dataTheme == old(dataTheme)
      ensures old(Valid()) ==> Valid()
    {
      var prompt := prompts[index];
      var newName := Trim(input);
      if newName != "" && newName != prompt.fileName {
        if !EndsWith(newName, ".txt") {
          return Rejected(TxtSuffixRequired), Some(RenameNotice(TxtSuffixRequired));
        }
        if HasIllegalChar(newName) {
          return Rejected(InvalidChars), Some(RenameNotice(InvalidChars));
        }
        prompts := prompts[index := prompt.(fileName := newName)];
        return Renamed(newName), None;
      }
      return Unchanged, None;
    }

    /** The confirmed branch of `confirmDelete(index)`: the entry is removed
        and, when it was the newest, the editor is cleared; declining
        changes nothing. */
    method ConfirmDelete(index: nat, confirmed: bool)
      requires index < |prompts|
      modifies this
      ensures confirmed ==> prompts == RemoveAt(old(prompts), index)
      ensures confirmed ==> currentPrompt == if index == 0 then "" else old(currentPrompt)
      ensures confirmed && index == 0 && |old(prompts)| >= 2 && old(prompts)[1].content != "" ==> !InSync()
      ensures !confirmed ==> prompts == old(prompts) && currentPrompt == old(currentPrompt)
      ensures fontSize == old(fontSize) && theme == old(theme) && dataTheme == old(dataTheme)
      ensures old(Valid()) ==> Valid()
    {
      if confirmed {
        prompts := RemoveAt(prompts, index);
        if index == 0 {
          currentPrompt := "";
        }
      }
    }

    /** The confirmed branch of `confirmClearHistory()`. */
    method ConfirmClearHistory(confirmed: bool) returns (notice: Option<string>)
      modifies this
      ensures confirmed ==> prompts == [] && currentPrompt == "" && notice == Some(HistoryClearedNotice)
      ensures !confirmed ==> prompts == old(prompts) && currentPrompt == old(currentPrompt) && notice == None
      ensures fontSize == old(fontSize) && theme == old(theme) && dataTheme == old(dataTheme)
      ensures old(Valid()) ==> Valid()
    {
      notice := None;
      if confirmed {
        prompts := [];
        currentPrompt := "";
        notice := Some(HistoryClearedNotice);
      }
    }

    /** `changeFontSize(delta)`. */
    method ChangeFontSize(delta: int) returns (notice: Option<string>)
      modifies this
      ensures fontSize == FontSizeAfter(old(fontSize), delta)
      ensures notice == FontSizeNotice(old(fontSize), delta)
      ensures prompts == old(prompts) && currentPrompt == old(currentPrompt)
      ensures theme == old(theme) && dataTheme == old(dataTheme)
      ensures old(Valid()) ==> Valid()
    {
      var newSize := fontSize + delta;
      notice := FontSizeNotice(fontSize, delta);
      if newSize < MinFontSize {
        fontSize := MinFontSize;
      } else if newSize > MaxFontSize {
        fontSize := MaxFontSize;
      } else {
        fontSize := newSize;
      }
    }

    /** `cycleTheme()`. */
    method CycleTheme()
      modifies this
      ensures theme == NextTheme(old(dataTheme)) && theme in Themes
      ensures dataTheme == ThemeAttribute(theme)
      ensures prompts == old(prompts) && currentPrompt == old(currentPrompt) && fontSize == old(fontSize)
      ensures old(Valid()) ==> Valid()
    {
      var current := CurrentTheme(dataTheme);
      var next := Themes[(IndexOf(Themes, current) + 1) % |Themes|];
      if next == "system" {
        dataTheme := None;
      } else {
        dataTheme := Some(next);
      }
      theme := next;
    }
  }

  /** The naming block of `handleInput()`: a name without `_` is rebuilt
      from its part before the first dot and the content prefix, when that
      prefix is neither null nor empty. */
  method NameFor(fileName: string, content: string) returns (name: string)
    ensures name == AutoName(fileName, content)
  {
    name := fileName;
    if '_' !in fileName {
      var prefix := GetContentPrefix(content);
      if prefix.Some? && prefix.value != "" {
        name := BeforeFirstDot(fileName) + "_" + Sanitize(prefix.value) + ".txt";
      }
    }
  }

  /** Typing into an empty history: the entry holds the text but the editor
      has been cleared by the nested `createNewPrompt`. */
  method FirstInput(content: string, now: Stamp) returns (box: PromptBox)
    ensures |box.prompts| == 1 && box.prompts[0].content == content
    ensures box.currentPrompt == ""
    ensures content != "" ==> !box.InSync()
  {
    box := new PromptBox();
    box.HandleInput(content, now);
  }
}
