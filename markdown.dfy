/**
 * The text handling of the AI message renderer (`MarkdownMessage.jsx`): the
 * content cleanup before Markdown parsing, and the three ways a code element
 * is rendered.
 */
module Markdown {
  import opened Wrappers
  import opened Strings

  const ResponsePrefix := "AI Response:"
  const LanguageTag := "language-"

  /**
   * `cleanContent`: an empty content stays empty; one "AI Response:" at the
   * very start is dropped together with the whitespace after it; the rest is
   * trimmed.
   */
  function CleanContent(content: string): (r: string)
    ensures r == [] || (!IsSpace(r[0]) && !IsSpace(r[|r| - 1]))
    ensures StartsWith(content, ResponsePrefix) ==> r == Trim(content[|ResponsePrefix|..])
    ensures !StartsWith(content, ResponsePrefix) ==> r == Trim(content)
  {
    if content == [] then []
    else if StartsWith(content, ResponsePrefix) then
      TrimAfterTrimStart(content[|ResponsePrefix|..]);
      Trim(TrimStart(content[|ResponsePrefix|..]))
    else Trim(content)
  }

  /** A prefix that appears anywhere but at the very start is kept. */
  lemma PrefixOnlyAtStart()
    ensures CleanContent(" AI Response: hi") == "AI Response: hi"
  {
    assert " AI Response: hi"[..|ResponsePrefix|][0] != ResponsePrefix[0];
    TrimOfTrimmed(" AI Response: hi"[1..]);
    assert TrimStart(" AI Response: hi") == " AI Response: hi"[1..];
  }

  /** A doubled prefix loses one copy per application, so cleaning is not idempotent. */
  lemma CleanNotIdempotent()
    ensures CleanContent("AI Response: AI Response: x") == "AI Response: x"
    ensures CleanContent(CleanContent("AI Response: AI Response: x")) == "x"
  {
    var s := "AI Response: AI Response: x";
    assert StartsWith(s, ResponsePrefix);
    assert s[|ResponsePrefix|..] == " AI Response: x";
    TrimOfTrimmed(" AI Response: x"[1..]);
    assert TrimStart(" AI Response: x") == " AI Response: x"[1..];
    var t := "AI Response: x";
    assert StartsWith(t, ResponsePrefix);
    assert t[|ResponsePrefix|..] == " x";
    TrimOfTrimmed("x");
    assert TrimStart(" x") == "x";
  }

  /** `String(children).replace(/\n$/, '')`: at most one final newline goes. */
  function CodeString(children: string): (r: string)
    ensures children == r || children == r + "\n"
    ensures children != [] && children[|children| - 1] == '\n' ==> children == r + "\n"
  {
    if children != [] && children[|children| - 1] == '\n' then children[..|children| - 1] else children
  }

  /** The `\w` class: ASCII letters, digits and the underscore. */
  predicate IsWordChar(c: char) {
    ('a' <= c <= 'z') || ('A' <= c <= 'Z') || ('0' <= c <= '9') || c == '_'
  }

  /** The longest run of word characters at the start of `s` (the greedy `\w+`). */
  function WordRun(s: string): (w: string)
    ensures |w| <= |s| && w == s[..|w|]
    ensures forall i :: 0 <= i < |w| ==> IsWordChar(w[i])
    ensures |w| == |s| || !IsWordChar(s[|w|])
  {
    if s != [] && IsWordChar(s[0]) then [s[0]] + WordRun(s[1..]) else []
  }

  /** `language-(\w+)` matches at position `k` of `s`. */
  predicate MatchesAt(s: string, k: int) {
    0 <= k && k + |LanguageTag| < |s| && s[k..k + |LanguageTag|] == LanguageTag
    && IsWordChar(s[k + |LanguageTag|])
  }

  /** The leftmost match position at or after `k`, as a regular-expression search finds it. */
  function FirstMatch(s: string, k: nat): (r: Option<nat>)
    requires k <= |s|
    ensures r.Some? ==> k <= r.value && MatchesAt(s, r.value)
    ensures r.Some? ==> forall j :: k <= j < r.value ==> !MatchesAt(s, j)
    ensures r.None? ==> forall j :: k <= j ==> !MatchesAt(s, j)
    decreases |s| - k
  {
    if k == |s| then None
    else if MatchesAt(s, k) then Some(k)
    else FirstMatch(s, k + 1)
  }

  /**
   * The highlighter language of a code element's `className`: the word run
   * after the leftmost "language-" that is followed by a word character.
   */
  function LanguageOf(className: string): (r: Option<string>)
    ensures r.None? <==> forall j :: 0 <= j ==> !MatchesAt(className, j)
    ensures r.Some? ==> r.value != [] && forall i :: 0 <= i < |r.value| ==> IsWordChar(r.value[i])
  {
    match FirstMatch(className, 0)
    case None => None
    case Some(k) => Some(WordRun(className[k + |LanguageTag|..]))
  }

  /** A class name that starts with the tag names the whole word run after it. */
  lemma {:induction false} LanguageOfTagged(word: string, rest: string)
    requires word != [] && forall i :: 0 <= i < |word| ==> IsWordChar(word[i])
    requires rest == [] || !IsWordChar(rest[0])
    ensures LanguageOf(LanguageTag + word + rest) == Some(word)
  {
    var s := LanguageTag + word + rest;
    assert s[..|LanguageTag|] == LanguageTag;
    assert s[|LanguageTag|] == word[0];
    assert MatchesAt(s, 0);
    assert s[|LanguageTag|..] == word + rest;
    WordRunOf(word, rest);
  }

  lemma {:induction false} WordRunOf(word: string, rest: string)
    requires forall i :: 0 <= i < |word| ==> IsWordChar(word[i])
    requires rest == [] || !IsWordChar(rest[0])
    ensures WordRun(word + rest) == word
    decreases |word|
  {
    if word != [] {
      assert (word + rest)[0] == word[0];
      assert (word + rest)[1..] == word[1..] + rest;
      WordRunOf(word[1..], rest);
    } else {
      assert word + rest == rest;
    }
  }

  /** How the `code` renderer draws an element; `copied` is what its copy button copies. */
  datatype Rendering =
    | InlineCode(shown: string)
    | Highlighted(language: string, shown: string, copied: string)
    | PlainBlock(shown: string, copied: string)

  /**
   * The `code` renderer: inline code as is; a block with a language through
   * the highlighter, showing the code without its final newline; any other
   * block in a plain `pre` that shows the children unchanged. Both blocks copy
   * the code without its final newline.
   */
  function RenderCode(inline: bool, className: string, children: string): (r: Rendering)
    ensures r.InlineCode? <==> inline
    ensures r.Highlighted? <==> !inline && LanguageOf(className).Some?
    ensures r.Highlighted? ==> r == Highlighted(LanguageOf(className).value, CodeString(children), CodeString(children))
    ensures r.PlainBlock? ==> r.shown == children && r.copied == CodeString(children)
    ensures r.InlineCode? ==> r.shown == children
  {
    if inline then InlineCode(children)
    else match LanguageOf(className)
      case Some(language) => Highlighted(language, CodeString(children), CodeString(children))
      case None => PlainBlock(children, CodeString(children))
  }
}
