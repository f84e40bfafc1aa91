/** File names of history entries: the automatic name `handleInput` gives an
    entry once its text has a prefix (popup.js lines 245-253), and the checks
    `finishRename` applies to a name typed by the user (popup.js lines
    320-342). */
module FileNames {
  import opened Strings
  import opened PrefixScanner

  /** The characters of the class `[\\/:*?"<>|]`. */
  predicate IsIllegalChar(c: char) {
    c == '\\' || c == '/' || c == ':' || c == '*' || c == '?' || c == '"' || c == '<' || c == '>' || c == '|'
  }

  predicate HasIllegalChar(s: string) {
    exists i :: 0 <= i < |s| && IsIllegalChar(s[i])
  }

  /** A name the rename dialog accepts as it stands: not empty, ending in
      `.txt`, free of the illegal characters. */
  predicate Acceptable(name: string) {
    name != "" && EndsWith(name, ".txt") && !HasIllegalChar(name)
  }

  /** `s.replace(/[\\/:*?"<>|]/g, '_')`. */
  function Sanitize(s: string): (r: string)
    ensures |r| == |s|
    ensures !HasIllegalChar(r)
    ensures forall i :: 0 <= i < |s| && !IsIllegalChar(s[i]) ==> r[i] == s[i]
    ensures forall i :: 0 <= i < |s| && IsIllegalChar(s[i]) ==> r[i] == '_'
  {
    if s == "" then ""
    else [if IsIllegalChar(s[0]) then '_' else s[0]] + Sanitize(s[1..])
  }

  /** `s.split('.')[0]`: everything before the first dot. */
  function BeforeFirstDot(s: string): (r: string)
    ensures |r| <= |s| && r == s[..|r|]
    ensures forall i :: 0 <= i < |r| ==> r[i] != '.'
    ensures |r| < |s| ==> s[|r|] == '.'
  {
    if s == "" || s[0] == '.' then "" else [s[0]] + BeforeFirstDot(s[1..])
  }

  /** The file name `handleInput` leaves on the entry holding `content`: a
      name without `_` gets the content prefix, made safe, after the part
      before its first dot, as long as the prefix is not null or empty. */
  function AutoName(fileName: string, content: string): string {
    if '_' in fileName then fileName
    else
      match ContentPrefix(content)
      case None => fileName
      case Some(prefix) =>
        if prefix == "" then fileName
        else BeforeFirstDot(fileName) + "_" + Sanitize(prefix) + ".txt"
  }

  // ---------------------------------------------------------------------
  // Properties of the automatic name

  /** A label has no character the sanitiser would replace, no dot and no
      underscore. */
  lemma LabelIsPlain(s: string)
    requires IsLabel(s)
    ensures Sanitize(s) == s
    ensures '.' !in s && '_' !in s
  {
    assert forall i :: 0 <= i < |s| ==> !IsIllegalChar(s[i]) && s[i] != '.' && s[i] != '_';
  }

  /** The name changes exactly when it has no `_` yet and the content has a
      prefix; the new name is the old stem, `_`, the prefix itself and
      `.txt`. */
  lemma AutoNameChanges(fileName: string, content: string)
    ensures AutoName(fileName, content) != fileName
            <==> '_' !in fileName && ContentPrefix(content).Some?
    ensures '_' !in fileName && ContentPrefix(content).Some? ==>
              AutoName(fileName, content)
              == BeforeFirstDot(fileName) + "_" + ContentPrefix(content).value + ".txt"
  {
    if '_' !in fileName && ContentPrefix(content).Some? {
      var prefix := ContentPrefix(content).value;
      LabelShape(content);
      LabelIsPlain(prefix);
      var name := BeforeFirstDot(fileName) + "_" + prefix + ".txt";
      assert name[|BeforeFirstDot(fileName)|] == '_';
      assert AutoName(fileName, content) == name;
    }
  }

  /** Once named, an entry keeps its name whatever text it later holds. */
  lemma AutoNameSticks(fileName: string, content: string, later: string)
    requires AutoName(fileName, content) != fileName
    ensures AutoName(AutoName(fileName, content), later) == AutoName(fileName, content)
  {
    AutoNameChanges(fileName, content);
    var stem := BeforeFirstDot(fileName);
    var name := AutoName(fileName, content);
    assert name[|stem|] == '_';
  }

  /** The timestamp part survives: a named entry still starts with its old
      stem. */
  lemma AutoNameKeepsStem(fileName: string, content: string)
    ensures StartsWith(AutoName(fileName, content), BeforeFirstDot(fileName))
  {
    AutoNameChanges(fileName, content);
    var name := AutoName(fileName, content);
    if name != fileName {
      var stem := BeforeFirstDot(fileName);
      assert name[..|stem|] == stem;
    }
  }

  /** A name ending in `.txt` still does after naming. */
  lemma AutoNameKeepsSuffix(fileName: string, content: string)
    ensures EndsWith(fileName, ".txt") ==> EndsWith(AutoName(fileName, content), ".txt")
  {
    var name := AutoName(fileName, content);
    if name != fileName {
      AutoNameChanges(fileName, content);
      assert name[|name| - 4..] == ".txt";
    }
  }

  /** A name the rename dialog would accept stays acceptable when the entry
      is named after its content. */
  lemma AutoNameAcceptable(fileName: string, content: string)
    requires Acceptable(fileName)
    ensures Acceptable(AutoName(fileName, content))
  {
    AutoNameChanges(fileName, content);
    if '_' !in fileName && ContentPrefix(content).Some? {
      var stem := BeforeFirstDot(fileName);
      var prefix := ContentPrefix(content).value;
      LabelShape(content);
      LabelIsPlain(prefix);
      PlainConcat(stem, prefix);
    }
  }

  lemma PlainConcat(stem: string, prefix: string)
    requires !HasIllegalChar(stem) && !HasIllegalChar(prefix)
    ensures Acceptable(stem + "_" + prefix + ".txt")
  {
    var name := stem + "_" + prefix + ".txt";
    assert name[|name| - 4..] == ".txt";
    forall i | 0 <= i < |name| ensures !IsIllegalChar(name[i]) {
      if i < |stem| {
        assert name[i] == stem[i];
      } else if i == |stem| {
      } else if i < |stem| + 1 + |prefix| {
        assert name[i] == prefix[i - |stem| - 1];
      } else {
        assert name[i] == ".txt"[i - |stem| - 1 - |prefix|];
      }
    }
  }

  /** A file name made of a dot-free stem and `.txt` is named
      stem + `_` + prefix + `.txt`. */
  lemma StampNamed(stem: string, content: string)
    requires '.' !in stem && '_' !in stem
    requires ContentPrefix(content).Some?
    ensures AutoName(stem + ".txt", content) == stem + "_" + ContentPrefix(content).value + ".txt"
  {
    StemOf(stem, ".txt");
    AutoNameChanges(stem + ".txt", content);
  }

  lemma {:induction false} StemOf(stem: string, rest: string)
    requires '.' !in stem
    requires rest == "" || rest[0] == '.'
    ensures BeforeFirstDot(stem + rest) == stem
    decreases |stem|
  {
    if stem == "" {
      assert stem + rest == rest;
    } else {
      assert (stem + rest)[1..] == stem[1..] + rest;
      StemOf(stem[1..], rest);
    }
  }

  // ---------------------------------------------------------------------
  // Renaming

  datatype RenameError = TxtSuffixRequired | InvalidChars

  /** What `finishRename` does with the text typed in the rename box. */
  datatype RenameOutcome = Unchanged | Rejected(error: RenameError) | Renamed(name: string)

  /** `finishRename`: the trimmed input is ignored when empty or equal to
      the current name; otherwise the `.txt` suffix is checked before the
      characters, and only a name passing both replaces the current one. */
  function CheckRename(current: string, input: string): RenameOutcome {
    var name := Trim(input);
    if name == "" || name == current then Unchanged
    else if !EndsWith(name, ".txt") then Rejected(TxtSuffixRequired)
    else if HasIllegalChar(name) then Rejected(InvalidChars)
    else Renamed(name)
  }

  /** A name is taken exactly when the trimmed input is acceptable and new;
      the name taken is the trimmed input. */
  lemma RenameAccepts(current: string, input: string)
    ensures CheckRename(current, input).Renamed?
            <==> Acceptable(Trim(input)) && Trim(input) != current
    ensures CheckRename(current, input).Renamed? ==>
              CheckRename(current, input).name == Trim(input) && Acceptable(Trim(input))
  {
  }

  /** A name that was taken is taken again as it stands from any other
      entry, and is a no-op on the entry that now carries it. */
  lemma RenameStable(current: string, input: string, other: string)
    requires CheckRename(current, input).Renamed?
    ensures var name := CheckRename(current, input).name;
            CheckRename(name, name) == Unchanged
            && (other != name ==> CheckRename(other, name) == Renamed(name))
  {
    TrimTwice(input);
  }

  /** A name without `.txt` is refused for its suffix even when it also has
      illegal characters: the suffix is checked first. */
  lemma SuffixCheckedFirst(current: string, input: string)
    requires Trim(input) != "" && Trim(input) != current
    requires !EndsWith(Trim(input), ".txt")
    ensures CheckRename(current, input) == Rejected(TxtSuffixRequired)
  {
  }

  /** White space of any length around an acceptable new name is ignored. */
  lemma RenameTrims(current: string, pre: string, name: string, post: string)
    requires Acceptable(name) && name != current && !IsJsSpace(name[0])
    requires forall i :: 0 <= i < |pre| ==> IsJsSpace(pre[i])
    requires forall i :: 0 <= i < |post| ==> IsJsSpace(post[i])
    ensures CheckRename(current, pre + name + post) == Renamed(name)
  {
    assert name[|name| - 1] == 't';
    TrimAround(pre, name, post);
  }

  lemma TrimAround(pre: string, name: string, post: string)
    requires forall i :: 0 <= i < |pre| ==> IsJsSpace(pre[i])
    requires forall i :: 0 <= i < |post| ==> IsJsSpace(post[i])
    requires name != [] && !IsJsSpace(name[0]) && !IsJsSpace(name[|name| - 1])
    ensures Trim(pre + name + post) == name
  {
    var rest := name + post;
    assert TrimStart(pre + rest) == rest by { TrimStartSpaces(pre, rest); }
    assert TrimEnd(rest) == name by { TrimEndSpaces(name, post); }
    assert pre + name + post == pre + rest by { Regroup(pre, name, post); }
  }

  lemma Regroup(a: string, b: string, c: string)
    ensures a + b + c == a + (b + c)
  {
  }

  lemma {:induction false} TrimStartSpaces(pre: string, s: string)
    requires forall i :: 0 <= i < |pre| ==> IsJsSpace(pre[i])
    requires s != [] && !IsJsSpace(s[0])
    ensures TrimStart(pre + s) == s
    decreases |pre|
  {
    if pre == [] {
      assert pre + s == s;
    } else {
      assert (pre + s)[1..] == pre[1..] + s;
      TrimStartSpaces(pre[1..], s);
    }
  }

  lemma {:induction false} TrimEndSpaces(s: string, post: string)
    requires forall i :: 0 <= i < |post| ==> IsJsSpace(post[i])
    requires s != [] && !IsJsSpace(s[|s| - 1])
    ensures TrimEnd(s + post) == s
    decreases |post|
  {
    if post == [] {
      assert s + post == s;
    } else {
      var shorter := post[..|post| - 1];
      assert (s + post)[..|s + post| - 1] == s + shorter;
      TrimEndSpaces(s, shorter);
    }
  }
}
