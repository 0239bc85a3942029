/** The code-fence helper of the meal-analysis web service. */
module App {
  import opened Text

  /**
   * extract_json_from_code_block: when the text starts with a backtick
   * fence and its stripped form has at least three lines, the lines between
   * the first and the last; otherwise the stripped text.
   */
  function ExtractJsonFromCodeBlock(text: string): (r: string)
    ensures !("```" <= text) ==> r == Strip(text)
  {
    TaggedFenceIsFence(text);
    if "```json" <= text || "```" <= text then
      var lines := SplitOn(Strip(text), '\n');
      if |lines| >= 3 then Join(lines[1..|lines| - 1], '\n') else Strip(text)
    else Strip(text)
  }

  /** The first prefix test of the source implies the second. */
  lemma TaggedFenceIsFence(text: string)
    ensures "```json" <= text ==> "```" <= text
  {
    if "```json" <= text {
      assert text[..3] == "```json"[..3] == "```";
    }
  }

  /**
   * A fenced text loses exactly its first and its last line, whatever the
   * last line holds: the result is what lies between the first and the last
   * newline of the stripped text.
   */
  lemma DropsFirstAndLastLine(text: string, first: string, body: string, last: string)
    requires "```" <= text
    requires Strip(text) == first + "\n" + body + "\n" + last
    requires '\n' !in first && '\n' !in last
    ensures ExtractJsonFromCodeBlock(text) == body
  {
    var s := Strip(text);
    assert s == first + ['\n'] + body + ['\n'] + last;
    SplitMiddle(first, body, last, '\n');
    var lines := SplitOn(s, '\n');
    assert |lines| >= 3 && lines[1..|lines| - 1] == SplitOn(body, '\n');
    JoinSplit(body, '\n');
    assert Join(lines[1..|lines| - 1], '\n') == body;
  }

  /** A fenced text whose stripped form has fewer than two newlines is only stripped. */
  lemma ShortFenceIsStripped(text: string)
    requires "```" <= text
    requires CountChar(Strip(text), '\n') < 2
    ensures ExtractJsonFromCodeBlock(text) == Strip(text)
  {
    SplitLength(Strip(text), '\n');
  }

  /** Wrapping any body in a json-labelled fence and extracting gives the body back. */
  lemma RoundTrip(body: string)
    ensures ExtractJsonFromCodeBlock("```json\n" + body + "\n```") == body
  {
    var text := "```json\n" + body + "\n```";
    assert text == "```json" + "\n" + body + "\n" + "```";
    assert "```" <= text;
    StripUnchanged(text);
    DropsFirstAndLastLine(text, "```json", body, "```");
  }
}
