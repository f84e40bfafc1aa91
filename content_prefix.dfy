/** The content-derived label of popup.js (`isChineseChar`, `getContentPrefix`).

    The scanner walks the text one character at a time. Characters in
    U+4E00..U+9FA5 are appended to the label at once; runs of ASCII letters
    are collected as a pending word that is appended, after a single space
    when the label is not empty, once a space, tab or newline ends it. Any
    other character is skipped without ending the word. The scan stops at
    the 10th Chinese character, or when a space, tab or newline closes a
    word and at least 5 words have been counted, including words closed by
    Chinese characters. A 5th word closed by a Chinese character therefore
    does not stop the scan: a word still pending at the end is then
    dropped, and the next word closed by a space, tab or newline is still
    appended and stops the scan. When neither threshold is reached the
    result is `None` (the source's `null`).

    `Step`, `Run` and `Finish` restate the loop as a fold over the text;
    `ContentPrefix` is that fold, and `GetContentPrefix` is the loop itself,
    proved equal to it. The lemmas characterise the result without reference
    to the fold. */
module PrefixScanner {
  import opened Strings

  const ChineseLimit: nat := 10
  const WordLimit: nat := 5

  /** `/[一-龥]/.test(char)`. */
  predicate IsChineseChar(c: char) {
    '\U{4E00}' <= c <= '\U{9FA5}'
  }

  /** The three characters that end a word: space, newline and tab. */
  predicate IsSeparator(c: char) {
    c == ' ' || c == '\n' || c == '\t'
  }

  predicate AllLetters(w: string) {
    forall i :: 0 <= i < |w| ==> IsAsciiLetter(w[i])
  }

  /** The loop variables of `getContentPrefix`. */
  datatype ScanState = ScanState(
    prefix: string,
    chineseCount: nat,
    wordCount: nat,
    currentWord: string,
    hasPrefix: bool)

  const Start := ScanState("", 0, 0, "", false)

  /** `prefix += (prefix ? ' ' : '') + currentWord`. */
  function Join(prefix: string, word: string): string {
    if prefix != "" then prefix + " " + word else word
  }

  /** One iteration of the loop on character `c`. */
  function Step(st: ScanState, c: char): ScanState {
    if IsChineseChar(c) then
      // a word cut short by a Chinese character is counted, not appended
      var words := if st.currentWord != "" then st.wordCount + 1 else st.wordCount;
      var chinese := st.chineseCount + 1;
      ScanState(st.prefix + [c], chinese, words, "", chinese >= ChineseLimit)
    else if IsAsciiLetter(c) then
      st.(currentWord := st.currentWord + [c])
    else if IsSeparator(c) && st.currentWord != "" then
      var words := st.wordCount + 1;
      ScanState(Join(st.prefix, st.currentWord), st.chineseCount, words, "", words >= WordLimit)
    else
      st
  }

  /** The loop over `s`, leaving it at the first `break`. */
  function Run(st: ScanState, s: string): ScanState
    decreases |s|
  {
    if st.hasPrefix || s == "" then st else Run(Step(st, s[0]), s[1..])
  }

  /** The code after the loop: the last word, the `null` test and `trim`. */
  function Finish(st: ScanState): Option<string> {
    var last := st.currentWord != "" && st.wordCount < WordLimit;
    var prefix := if last then Join(st.prefix, st.currentWord) else st.prefix;
    var words := if last then st.wordCount + 1 else st.wordCount;
    if !st.hasPrefix && st.chineseCount < ChineseLimit && words < WordLimit then None
    else Some(Trim(prefix))
  }

  /** `getContentPrefix(content)` as a function of the text. */
  function ContentPrefix(content: string): Option<string> {
    Finish(Run(Start, content))
  }

  // ---------------------------------------------------------------------
  // Reference definitions, independent of the scan

  /** Number of characters in U+4E00..U+9FA5. */
  function CountChinese(s: string): nat {
    if s == "" then 0 else (if IsChineseChar(s[0]) then 1 else 0) + CountChinese(s[1..])
  }

  /** Number of words in `s`, given whether a word is already open: a word is
      a stretch between separators and Chinese characters that holds at
      least one ASCII letter. */
  function WordsFrom(s: string, open: bool): nat {
    if s == "" then
      (if open then 1 else 0)
    else if IsChineseChar(s[0]) || IsSeparator(s[0]) then
      (if open then 1 else 0) + WordsFrom(s[1..], false)
    else
      WordsFrom(s[1..], open || IsAsciiLetter(s[0]))
  }

  function CountWords(s: string): nat {
    WordsFrom(s, false)
  }

  /** Number of maximal runs of ASCII letters in `s`: the words a label holds. */
  function LetterRuns(s: string): nat {
    if s == "" then 0
    else
      LetterRuns(s[..|s| - 1])
      + (if IsAsciiLetter(s[|s| - 1]) && (|s| == 1 || !IsAsciiLetter(s[|s| - 2])) then 1 else 0)
  }

  /** Only letters, Chinese characters and single spaces, no space at either end. */
  predicate WellSpaced(s: string) {
    && (forall i :: 0 <= i < |s| ==> IsAsciiLetter(s[i]) || IsChineseChar(s[i]) || s[i] == ' ')
    && (s != "" ==> s[0] != ' ' && s[|s| - 1] != ' ')
    && (forall i :: 0 < i < |s| && s[i] == ' ' ==> s[i - 1] != ' ')
  }

  /** What a non-null result of `getContentPrefix` looks like. */
  predicate IsLabel(s: string) {
    && s != ""
    && WellSpaced(s)
    && CountChinese(s) <= ChineseLimit
    && LetterRuns(s) <= WordLimit
  }

  // ---------------------------------------------------------------------
  // The loop

  /** `getContentPrefix(content)`: the `for` loop with its early `break`s. */
  method GetContentPrefix(content: string) returns (r: Option<string>)
    ensures r == ContentPrefix(content)
    ensures r.None? <==> CountChinese(content) < ChineseLimit && CountWords(content) < WordLimit
    ensures r.Some? ==> IsLabel(r.value)
  {
    var prefix := "";
    var chineseCount: nat := 0;
    var wordCount: nat := 0;
    var currentWord := "";
    var hasPrefix := false;

    var i := 0;
    while i < |content|
      invariant 0 <= i <= |content|
      invariant !hasPrefix
      invariant Run(Start, content) == Run(ScanState(prefix, chineseCount, wordCount, currentWord, false), content[i..])
    {
      ghost var before := ScanState(prefix, chineseCount, wordCount, currentWord, false);
      assert Run(before, content[i..]) == Run(Step(before, content[i]), content[i + 1..]);
      var c := content[i];
      if IsChineseChar(c) {
        if currentWord != "" {
          wordCount := wordCount + 1;
          currentWord := "";
        }
        chineseCount := chineseCount + 1;
        prefix := prefix + [c];
        if chineseCount >= ChineseLimit {
          hasPrefix := true;
          assert ScanState(prefix, chineseCount, wordCount, currentWord, hasPrefix) == Step(before, c);
          break;
        }
      } else if IsAsciiLetter(c) {
        currentWord := currentWord + [c];
      } else if IsSeparator(c) {
        if currentWord != "" {
          wordCount := wordCount + 1;
          prefix := Join(prefix, currentWord);
          currentWord := "";
          if wordCount >= WordLimit {
            hasPrefix := true;
            assert ScanState(prefix, chineseCount, wordCount, currentWord, hasPrefix) == Step(before, c);
            break;
          }
        }
      }
      assert ScanState(prefix, chineseCount, wordCount, currentWord, false) == Step(before, c);
      i := i + 1;
    }
    ghost var scanned := ScanState(prefix, chineseCount, wordCount, currentWord, hasPrefix);
    assert Run(Start, content) == scanned;

    if currentWord != "" && wordCount < WordLimit {
      wordCount := wordCount + 1;
      prefix := Join(prefix, currentWord);
    }
    if !hasPrefix && chineseCount < ChineseLimit && wordCount < WordLimit {
      r := None;
    } else {
      r := Some(Trim(prefix));
    }
    assert r == Finish(scanned);
    NoneExactly(content);
    LabelShape(content);
  }

  // ---------------------------------------------------------------------
  // Properties of the result

  /** `getContentPrefix` returns `null` exactly when the text holds fewer
      than 10 Chinese characters and fewer than 5 words. */
  lemma NoneExactly(content: string)
    ensures ContentPrefix(content).None? <==> CountChinese(content) < ChineseLimit && CountWords(content) < WordLimit
  {
    RunCounts(Start, content);
    RunKeepsInvariant(Start, content);
  }

  /** Ten Chinese characters anywhere in the text always give a label. */
  lemma EnoughChineseGivesLabel(content: string)
    requires CountChinese(content) >= ChineseLimit
    ensures ContentPrefix(content).Some?
  {
    NoneExactly(content);
  }

  /** A non-null result is a non-empty, well-spaced label with at most 10
      Chinese characters and at most 5 words. */
  lemma LabelShape(content: string)
    ensures ContentPrefix(content).Some? ==> IsLabel(ContentPrefix(content).value)
  {
    RunKeepsInvariant(Start, content);
    FinishShape(Run(Start, content));
  }

  /** Hence `trim` leaves a label as it is. */
  lemma LabelTrimmed(s: string)
    requires IsLabel(s)
    ensures Trim(s) == s
  {
    assert IsAsciiLetter(s[0]) || IsChineseChar(s[0]);
    assert IsAsciiLetter(s[|s| - 1]) || IsChineseChar(s[|s| - 1]);
  }

  // ---------------------------------------------------------------------
  // Proof: counting

  function Pending(st: ScanState): nat {
    if st.currentWord != "" then 1 else 0
  }

  lemma {:induction false} RunCounts(st: ScanState, s: string)
    requires !st.hasPrefix
    ensures Run(st, s).chineseCount <= st.chineseCount + CountChinese(s)
    ensures Run(st, s).wordCount + Pending(Run(st, s)) <= st.wordCount + WordsFrom(s, st.currentWord != "")
    ensures !Run(st, s).hasPrefix ==>
              && Run(st, s).chineseCount == st.chineseCount + CountChinese(s)
              && Run(st, s).wordCount + Pending(Run(st, s)) == st.wordCount + WordsFrom(s, st.currentWord != "")
    decreases |s|
  {
    if s != "" {
      var next := Step(st, s[0]);
      if !next.hasPrefix {
        RunCounts(next, s[1..]);
      }
    }
  }

  // ---------------------------------------------------------------------
  // Proof: the shape of the accumulated prefix

  ghost predicate ScanInv(st: ScanState) {
    && WellSpaced(st.prefix)
    && CountChinese(st.prefix) == st.chineseCount
    && LetterRuns(st.prefix) <= st.wordCount <= st.chineseCount + LetterRuns(st.prefix)
    && AllLetters(st.currentWord)
    && (if st.hasPrefix then
          && (st.chineseCount >= ChineseLimit || st.wordCount >= WordLimit)
          && st.chineseCount <= ChineseLimit
          && LetterRuns(st.prefix) <= WordLimit
          && st.currentWord == ""
        else
          st.chineseCount < ChineseLimit && LetterRuns(st.prefix) < WordLimit)
  }

  lemma {:induction false} CountChineseAppend(a: string, b: string)
    ensures CountChinese(a + b) == CountChinese(a) + CountChinese(b)
    decreases |a|
  {
    if a == "" {
      assert a + b == b;
    } else {
      assert (a + b)[1..] == a[1..] + b;
      CountChineseAppend(a[1..], b);
    }
  }

  lemma {:induction false} CountChineseLetters(w: string)
    requires AllLetters(w)
    ensures CountChinese(w) == 0
    decreases |w|
  {
    if w != "" {
      CountChineseLetters(w[1..]);
    }
  }

  lemma {:induction false} LetterRunsAppendWord(q: string, w: string)
    requires q == "" || !IsAsciiLetter(q[|q| - 1])
    requires w != "" && AllLetters(w)
    ensures LetterRuns(q + w) == LetterRuns(q) + 1
    decreases |w|
  {
    var s := q + w;
    assert s[..|s| - 1] == q + w[..|w| - 1];
    if |w| > 1 {
      LetterRunsAppendWord(q, w[..|w| - 1]);
    } else {
      assert s[..|s| - 1] == q;
    }
  }

  lemma AppendChinese(p: string, c: char)
    requires WellSpaced(p) && IsChineseChar(c)
    ensures WellSpaced(p + [c])
    ensures CountChinese(p + [c]) == CountChinese(p) + 1
    ensures LetterRuns(p + [c]) == LetterRuns(p)
  {
    CountChineseAppend(p, [c]);
    assert (p + [c])[..|p|] == p;
  }

  lemma AppendWord(p: string, w: string)
    requires WellSpaced(p) && w != "" && AllLetters(w)
    ensures WellSpaced(Join(p, w))
    ensures CountChinese(Join(p, w)) == CountChinese(p)
    ensures LetterRuns(Join(p, w)) == LetterRuns(p) + 1
  {
    CountChineseLetters(w);
    JoinWellSpaced(p, w);
    if p == "" {
      LetterRunsAppendWord("", w);
      assert "" + w == w;
    } else {
      AppendSpacedWord(p, w);
    }
  }

  /** The counts of `p + " " + w` for a non-empty label `p`. */
  lemma AppendSpacedWord(p: string, w: string)
    requires p != "" && AllLetters(w) && w != "" && CountChinese(w) == 0
    ensures CountChinese(Join(p, w)) == CountChinese(p)
    ensures LetterRuns(Join(p, w)) == LetterRuns(p) + 1
  {
    var q := p + " ";
    assert Join(p, w) == q + w;
    assert q[..|p|] == p;
    assert LetterRuns(q) == LetterRuns(p);
    CountChineseAppend(p, " ");
    CountChineseAppend(q, w);
    LetterRunsAppendWord(q, w);
  }

  lemma JoinWellSpaced(p: string, w: string)
    requires WellSpaced(p) && w != "" && AllLetters(w)
    ensures WellSpaced(Join(p, w))
  {
    var j := Join(p, w);
    if p == "" {
      assert j == w;
    } else {
      assert j == p + " " + w;
      forall i | 0 <= i < |p| ensures j[i] == p[i] {
      }
      forall i | |p| < i < |j| ensures IsAsciiLetter(j[i]) {
        assert j[i] == w[i - |p| - 1];
      }
      assert j[|j| - 1] == w[|w| - 1];
    }
  }

  lemma StepKeepsInvariant(st: ScanState, c: char)
    requires ScanInv(st) && !st.hasPrefix
    ensures ScanInv(Step(st, c))
  {
    if IsChineseChar(c) {
      AppendChinese(st.prefix, c);
    } else if IsAsciiLetter(c) {
      var w := st.currentWord + [c];
      assert forall i :: 0 <= i < |w| ==> IsAsciiLetter(w[i]);
    } else if IsSeparator(c) && st.currentWord != "" {
      AppendWord(st.prefix, st.currentWord);
    }
  }

  lemma {:induction false} RunKeepsInvariant(st: ScanState, s: string)
    requires ScanInv(st)
    ensures ScanInv(Run(st, s))
    decreases |s|
  {
    if !st.hasPrefix && s != "" {
      StepKeepsInvariant(st, s[0]);
      RunKeepsInvariant(Step(st, s[0]), s[1..]);
    }
  }

  lemma FinishShape(st: ScanState)
    requires ScanInv(st)
    ensures Finish(st).Some? ==> IsLabel(Finish(st).value)
  {
    var last := st.currentWord != "" && st.wordCount < WordLimit;
    var prefix := if last then Join(st.prefix, st.currentWord) else st.prefix;
    if Finish(st).Some? {
      if last {
        AppendWord(st.prefix, st.currentWord);
      }
      assert IsLabel(prefix);
      LabelTrimmed(prefix);
    }
  }

  // ---------------------------------------------------------------------
  // Worked examples

  lemma ShortTextHasNoLabel()
    ensures ContentPrefix("a") == None
  {
    var a := "a";
    assert AllLetters(a);
    RunLetters(Start, a);
    assert Run(Start, a) == ScanState("", 0, 0, a, false);
  }

  /** Scanning `a + b` is scanning `a`, then `b` from where `a` left off. */
  lemma {:induction false} RunAppend(st: ScanState, a: string, b: string)
    ensures Run(st, a + b) == Run(Run(st, a), b)
    decreases |a|
  {
    if !st.hasPrefix {
      if a == "" {
        assert a + b == b;
      } else {
        assert (a + b)[0] == a[0] && (a + b)[1..] == a[1..] + b;
        RunAppend(Step(st, a[0]), a[1..], b);
      }
    }
  }

  /** Characters that are neither letters, Chinese characters nor
      separators. */
  predicate IsIgnored(c: char) {
    !IsChineseChar(c) && !IsAsciiLetter(c) && !IsSeparator(c)
  }

  /** `s` without its ignored characters. */
  function Strip(s: string): (r: string)
    ensures |r| <= |s|
    ensures forall i :: 0 <= i < |r| ==> !IsIgnored(r[i])
  {
    if s == "" then ""
    else if IsIgnored(s[0]) then Strip(s[1..])
    else [s[0]] + Strip(s[1..])
  }

  /** Digits, punctuation and every other character outside the three
      classes are skipped without ending a word ("it's" reads as "its"). */
  lemma {:induction false} IgnoredCharactersSkipped(content: string)
    ensures ContentPrefix(content) == ContentPrefix(Strip(content))
  {
    RunStrip(Start, content);
  }

  lemma {:induction false} RunStrip(st: ScanState, s: string)
    ensures Run(st, s) == Run(st, Strip(s))
    decreases |s|
  {
    if !st.hasPrefix && s != "" {
      if !IsIgnored(s[0]) {
        RunStrip(Step(st, s[0]), s[1..]);
        var t := [s[0]] + Strip(s[1..]);
        assert t[0] == s[0] && t[1..] == Strip(s[1..]);
      } else {
        RunStrip(st, s[1..]);
      }
    }
  }

  /** A text made only of Chinese characters is labelled by its first ten. */
  lemma ChineseTextLabel(content: string)
    requires forall i :: 0 <= i < |content| ==> IsChineseChar(content[i])
    ensures |content| < ChineseLimit ==> ContentPrefix(content) == None
    ensures |content| >= ChineseLimit ==> ContentPrefix(content) == Some(content[..ChineseLimit])
  {
    RunChinese("", 0, content);
    if |content| >= ChineseLimit {
      var p := content[..ChineseLimit];
      assert "" + p == p;
      FinishTenChinese(p);
    } else {
      assert "" + content == content;
    }
  }

  lemma FinishTenChinese(p: string)
    requires |p| == ChineseLimit
    requires forall i :: 0 <= i < |p| ==> IsChineseChar(p[i])
    ensures Finish(ScanState(p, ChineseLimit, 0, "", true)) == Some(p)
  {
    assert IsChineseChar(p[0]) && IsChineseChar(p[|p| - 1]);
    assert !IsJsSpace(p[0]) && !IsJsSpace(p[|p| - 1]);
    assert Trim(p) == p;
  }

  lemma {:induction false} RunChinese(p: string, k: nat, s: string)
    requires k < ChineseLimit
    requires forall i :: 0 <= i < |s| ==> IsChineseChar(s[i])
    ensures Run(ScanState(p, k, 0, "", false), s)
            == if k + |s| >= ChineseLimit
               then ScanState(p + s[..ChineseLimit - k], ChineseLimit, 0, "", true)
               else ScanState(p + s, k + |s|, 0, "", false)
    decreases |s|
  {
    if s == "" {
      assert p + s == p;
    } else {
      var next := Step(ScanState(p, k, 0, "", false), s[0]);
      assert next == ScanState(p + [s[0]], k + 1, 0, "", k + 1 >= ChineseLimit);
      if k + 1 >= ChineseLimit {
        assert s[..ChineseLimit - k] == [s[0]];
      } else {
        RunChinese(p + [s[0]], k + 1, s[1..]);
        assert p + [s[0]] + s[1..] == p + s;
        if k + |s| >= ChineseLimit {
          assert p + [s[0]] + s[1..][..ChineseLimit - (k + 1)] == p + s[..ChineseLimit - k];
        }
      }
    }
  }

  lemma TenChineseCharacters(content: string)
    requires content == "测试测试测试测试测试"
    ensures ContentPrefix(content) == Some(content)
  {
    ChineseTextLabel(content);
    assert content[..ChineseLimit] == content;
  }

  /** Words separated by single spaces: `ws[0] + " " + ws[1] + ...`. */
  function Sentence(ws: seq<string>): string
    requires ws != []
  {
    if |ws| == 1 then ws[0] else ws[0] + " " + Sentence(ws[1..])
  }

  /** `Join` applied to each word of `ws` in turn. */
  function JoinAll(p: string, ws: seq<string>): string
    decreases |ws|
  {
    if ws == [] then p else JoinAll(Join(p, ws[0]), ws[1..])
  }

  predicate AreWords(ws: seq<string>) {
    forall i :: 0 <= i < |ws| ==> ws[i] != "" && AllLetters(ws[i])
  }

  /** Plain text of ASCII words separated by single spaces is labelled by
      its first five words, and has no label when it has fewer. */
  lemma PlainWordsLabel(ws: seq<string>)
    requires ws != [] && AreWords(ws)
    ensures |ws| < WordLimit ==> ContentPrefix(Sentence(ws)) == None
    ensures |ws| >= WordLimit ==> ContentPrefix(Sentence(ws)) == Some(Sentence(ws[..WordLimit]))
  {
    if |ws| > WordLimit {
      ManyWordsLabel(ws);
    } else if |ws| == WordLimit {
      FewWordsLabel(ws);
      assert ws[..WordLimit] == ws;
    } else {
      FewWordsLabel(ws);
    }
  }

  lemma ManyWordsLabel(ws: seq<string>)
    requires AreWords(ws) && |ws| > WordLimit
    ensures ContentPrefix(Sentence(ws)) == Some(Sentence(ws[..WordLimit]))
  {
    RunSentence("", 0, ws);
    var five := ws[..WordLimit];
    assert AreWords(five);
    JoinAllSentence("", five);
    SentenceEnds(five);
    FinishLetters(Sentence(five), ScanState(JoinAll("", five), 0, WordLimit, "", true));
  }

  lemma FewWordsLabel(ws: seq<string>)
    requires ws != [] && AreWords(ws) && |ws| <= WordLimit
    ensures |ws| < WordLimit ==> ContentPrefix(Sentence(ws)) == None
    ensures |ws| == WordLimit ==> ContentPrefix(Sentence(ws)) == Some(Sentence(ws))
  {
    var n := |ws|;
    var st := ScanState(JoinAll("", ws[..n - 1]), 0, n - 1, ws[n - 1], false);
    FewWordsRun(ws);
    if n == WordLimit {
      FullSentenceFinish(ws, st);
    }
  }

  /** Five words make the whole sentence the label. */
  lemma FullSentenceFinish(ws: seq<string>, st: ScanState)
    requires AreWords(ws) && |ws| == WordLimit
    requires st == ScanState(JoinAll("", ws[..WordLimit - 1]), 0, WordLimit - 1, ws[WordLimit - 1], false)
    ensures Finish(st) == Some(Sentence(ws))
  {
    var n := WordLimit;
    JoinAllSnoc("", ws[..n - 1], ws[n - 1]);
    assert ws[..n - 1] + [ws[n - 1]] == ws;
    JoinAllSentence("", ws);
    SentenceEnds(ws);
    FinishLetters(Sentence(ws), st);
  }

  lemma FewWordsRun(ws: seq<string>)
    requires ws != [] && AreWords(ws) && |ws| <= WordLimit
    ensures Run(Start, Sentence(ws))
            == ScanState(JoinAll("", ws[..|ws| - 1]), 0, |ws| - 1, ws[|ws| - 1], false)
  {
    RunSentence("", 0, ws);
  }

  /** `Finish` on a state whose final prefix starts and ends with a letter. */
  lemma FinishLetters(q: string, st: ScanState)
    requires q != "" && IsAsciiLetter(q[0]) && IsAsciiLetter(q[|q| - 1])
    requires st.currentWord != "" && st.wordCount < WordLimit ==> Join(st.prefix, st.currentWord) == q
    requires !(st.currentWord != "" && st.wordCount < WordLimit) ==> st.prefix == q
    ensures Finish(st).Some? ==> Finish(st) == Some(q)
  {
    assert !IsJsSpace(q[0]) && !IsJsSpace(q[|q| - 1]);
    assert Trim(q) == q;
  }

  lemma {:induction false} RunLetters(st: ScanState, w: string)
    requires !st.hasPrefix && AllLetters(w)
    ensures Run(st, w) == st.(currentWord := st.currentWord + w)
    decreases |w|
  {
    if w == "" {
      assert st.currentWord + w == st.currentWord;
    } else {
      RunLetters(st.(currentWord := st.currentWord + [w[0]]), w[1..]);
      assert st.currentWord + [w[0]] + w[1..] == st.currentWord + w;
    }
  }

  lemma {:induction false} RunSentence(p: string, k: nat, ws: seq<string>)
    requires k < WordLimit && ws != [] && AreWords(ws)
    ensures k + |ws| > WordLimit ==>
              Run(ScanState(p, 0, k, "", false), Sentence(ws))
              == ScanState(JoinAll(p, ws[..WordLimit - k]), 0, WordLimit, "", true)
    ensures k + |ws| <= WordLimit ==>
              Run(ScanState(p, 0, k, "", false), Sentence(ws))
              == ScanState(JoinAll(p, ws[..|ws| - 1]), 0, k + |ws| - 1, ws[|ws| - 1], false)
    decreases |ws|
  {
    if |ws| == 1 {
      OneWordSentence(p, k, ws);
    } else {
      var rest := Sentence(ws[1..]);
      SentenceCons(ws);
      FirstWordClosed(p, k, ws[0], rest);
      if k + 1 < WordLimit {
        RunSentence(Join(p, ws[0]), k + 1, ws[1..]);
        if k + |ws| > WordLimit {
          JoinAllFirst(p, ws, WordLimit - k);
        } else {
          JoinAllFirst(p, ws, |ws| - 1);
          assert ws[1..][|ws[1..]| - 1] == ws[|ws| - 1];
        }
      } else {
        JoinAllFirst(p, ws, 1);
        assert ws[1..][..0] == [];
      }
    }
  }

  lemma SentenceCons(ws: seq<string>)
    requires |ws| > 1
    ensures Sentence(ws) == ws[0] + " " + Sentence(ws[1..])
  {
  }

  lemma OneWordSentence(p: string, k: nat, ws: seq<string>)
    requires |ws| == 1 && ws[0] != "" && AllLetters(ws[0])
    ensures Run(ScanState(p, 0, k, "", false), Sentence(ws)) == ScanState(JoinAll(p, ws[..0]), 0, k, ws[0], false)
  {
    RunLetters(ScanState(p, 0, k, "", false), ws[0]);
    assert "" + ws[0] == ws[0];
    assert ws[..0] == [];
  }

  /** Joining the first `m` words starts by joining the first one. */
  lemma JoinAllFirst(p: string, ws: seq<string>, m: nat)
    requires 1 <= m <= |ws|
    ensures JoinAll(p, ws[..m]) == JoinAll(Join(p, ws[0]), ws[1..][..m - 1])
  {
    assert ws[..m][0] == ws[0];
    assert ws[..m][1..] == ws[1..][..m - 1];
  }

  /** The first word and the space after it close a word. */
  lemma FirstWordClosed(p: string, k: nat, w: string, rest: string)
    requires k < WordLimit && w != "" && AllLetters(w)
    ensures Run(ScanState(p, 0, k, "", false), w + " " + rest)
            == Run(ScanState(Join(p, w), 0, k + 1, "", k + 1 >= WordLimit), rest)
  {
    var st := ScanState(p, 0, k, "", false);
    RunAppend(st, w + " ", rest);
    WordThenSpace(st, w);
  }

  /** A word followed by a space closes the word. */
  lemma WordThenSpace(st: ScanState, w: string)
    requires !st.hasPrefix && st.currentWord == "" && st.chineseCount == 0
    requires w != "" && AllLetters(w)
    ensures Run(st, w + " ")
            == ScanState(Join(st.prefix, w), 0, st.wordCount + 1, "", st.wordCount + 1 >= WordLimit)
  {
    RunAppend(st, w, " ");
    RunLetters(st, w);
    var mid := st.(currentWord := st.currentWord + w);
    assert st.currentWord + w == w;
    assert Run(mid, " ") == Run(Step(mid, ' '), "");
  }

  lemma {:induction false} JoinAllSentence(p: string, ws: seq<string>)
    requires ws != [] && AreWords(ws)
    ensures JoinAll(p, ws) == Join(p, Sentence(ws))
    decreases |ws|
  {
    if |ws| > 1 {
      JoinAllSentence(Join(p, ws[0]), ws[1..]);
      assert Join(p, ws[0]) + " " + Sentence(ws[1..]) == Join(p, ws[0] + " " + Sentence(ws[1..]));
    }
  }

  lemma {:induction false} JoinAllSnoc(p: string, xs: seq<string>, w: string)
    ensures JoinAll(p, xs + [w]) == Join(JoinAll(p, xs), w)
    decreases |xs|
  {
    if xs == [] {
      assert xs + [w] == [w];
    } else {
      assert (xs + [w])[1..] == xs[1..] + [w];
      JoinAllSnoc(Join(p, xs[0]), xs[1..], w);
    }
  }

  lemma {:induction false} SentenceEnds(ws: seq<string>)
    requires ws != [] && AreWords(ws)
    ensures Sentence(ws) != ""
    ensures Sentence(ws)[0] == ws[0][0]
    ensures Sentence(ws)[|Sentence(ws)| - 1] == ws[|ws| - 1][|ws[|ws| - 1]| - 1]
    ensures IsAsciiLetter(Sentence(ws)[0]) && IsAsciiLetter(Sentence(ws)[|Sentence(ws)| - 1])
    decreases |ws|
  {
    if |ws| > 1 {
      SentenceEnds(ws[1..]);
    }
  }

  lemma FiveWords(content: string)
    requires content == "the quick brown fox jumps"
    ensures ContentPrefix(content) == Some(content)
  {
    var ws := ["the", "quick", "brown", "fox", "jumps"];
    FiveWordsSplit(ws);
    FewWordsLabel(ws);
  }

  lemma FiveWordsSplit(ws: seq<string>)
    requires ws == ["the", "quick", "brown", "fox", "jumps"]
    ensures AreWords(ws) && Sentence(ws) == "the quick brown fox jumps"
  {
    FiveWordsAreWords(ws);
    FiveWordsSentence(ws);
  }

  lemma FiveWordsAreWords(ws: seq<string>)
    requires ws == ["the", "quick", "brown", "fox", "jumps"]
    ensures AreWords(ws)
  {
    assert AllLetters(ws[0]) && AllLetters(ws[1]) && AllLetters(ws[2]);
    assert AllLetters(ws[3]) && AllLetters(ws[4]);
  }

  lemma FiveWordsSentence(ws: seq<string>)
    requires ws == ["the", "quick", "brown", "fox", "jumps"]
    ensures Sentence(ws) == "the quick brown fox jumps"
  {
    assert ws[2..] == ["brown", "fox", "jumps"];
    ThreeWordsSentence(ws[2..]);
    assert Sentence(ws[1..]) == "quick brown fox jumps";
  }

  lemma ThreeWordsSentence(ws: seq<string>)
    requires ws == ["brown", "fox", "jumps"]
    ensures Sentence(ws) == "brown fox jumps"
  {
    assert Sentence(ws[2..]) == "jumps";
    assert Sentence(ws[1..]) == "fox jumps";
  }

  /** A word ended by a Chinese character is counted but not kept: only the
      Chinese character reaches the label. */
  lemma WordCutByChinese(st: ScanState, w: string, c: char)
    requires !st.hasPrefix && st.currentWord == ""
    requires w != "" && AllLetters(w) && IsChineseChar(c)
    ensures Run(st, w + [c])
            == ScanState(st.prefix + [c], st.chineseCount + 1, st.wordCount + 1, "",
                         st.chineseCount + 1 >= ChineseLimit)
  {
    RunAppend(st, w, [c]);
    RunLetters(st, w);
    assert "" + w == w;
  }

  /** A 5th word closed by a Chinese character is counted without stopping
      the scan (below 10 Chinese characters), and a word still pending at the
      end is then dropped rather than appended. */
  lemma ChineseClosedFifthWord(st: ScanState, w: string, c: char, v: string)
    requires !st.hasPrefix && st.currentWord == ""
    requires st.wordCount == WordLimit - 1 && st.chineseCount + 1 < ChineseLimit
    requires w != "" && AllLetters(w) && IsChineseChar(c) && AllLetters(v)
    ensures Run(st, w + [c]).wordCount == WordLimit && !Run(st, w + [c]).hasPrefix
    ensures Finish(Run(st, w + [c] + v)) == Some(Trim(st.prefix + [c]))
  {
    WordCutByChinese(st, w, c);
    RunAppend(st, w + [c], v);
    RunLetters(Run(st, w + [c]), v);
  }

  /** After a 5th word closed by a Chinese character, the next word closed
      by a space, tab or newline is still appended, as the 6th word, and
      stops the scan. */
  lemma WordAfterChineseClosedFifth(st: ScanState, w: string, c: char, v: string, sep: char)
    requires !st.hasPrefix && st.currentWord == ""
    requires st.wordCount == WordLimit - 1 && st.chineseCount + 1 < ChineseLimit
    requires w != "" && AllLetters(w) && IsChineseChar(c)
    requires v != "" && AllLetters(v) && IsSeparator(sep)
    ensures Run(st, w + [c] + v + [sep])
            == ScanState(Join(st.prefix + [c], v), st.chineseCount + 1, WordLimit + 1, "", true)
  {
    WordCutByChinese(st, w, c);
    var mid := Run(st, w + [c]);
    RunAppend(st, w + [c], v + [sep]);
    RunAppend(mid, v, [sep]);
    RunLetters(mid, v);
    assert "" + v == v;
    assert (w + [c] + v + [sep]) == (w + [c]) + (v + [sep]);
  }
}
