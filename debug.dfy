/** The code-fence helper of the debug copy of the web service. */
module Debug {
  import opened Text
  import App

  /**
   * extract_json_from_code_block, second copy: the same prefix test on the
   * unstripped text, then the same split, slice and join.
   */
  function ExtractJsonFromCodeBlock(text: string): (r: string)
    ensures !("```" <= text) ==> r == Strip(text)
  {
    App.TaggedFenceIsFence(text);
    if "```json" <= text || "```" <= text then
      var lines := SplitOn(Strip(text), '\n');
      if |lines| >= 3 then Join(lines[1..|lines| - 1], '\n') else Strip(text)
    else Strip(text)
  }

  /** Both copies compute the same result on every text. */
  lemma SameAsApp(text: string)
    ensures ExtractJsonFromCodeBlock(text) == App.ExtractJsonFromCodeBlock(text)
  {
  }

  /**
   * The fence test looks at the unstripped text: leading whitespace turns
   * fence removal off even when a fence follows it.
   */
  lemma LeadingWhitespaceKeepsFence(text: string)
    requires text != [] && IsSpace(text[0])
    ensures ExtractJsonFromCodeBlock(text) == Strip(text)
  {
    assert !("```" <= text);
    assert !("```json" <= text);
  }

  /** A fenced text with at least two newlines after stripping loses its first and last line. */
  lemma DropsFirstAndLastLine(text: string, first: string, body: string, last: string)
    requires "```" <= text
    requires Strip(text) == first + "\n" + body + "\n" + last
    requires '\n' !in first && '\n' !in last
    ensures ExtractJsonFromCodeBlock(text) == body
  {
    App.DropsFirstAndLastLine(text, first, body, last);
  }

  /** Wrapping any body in an unlabelled fence and extracting gives the body back. */
  lemma RoundTrip(body: string)
    ensures ExtractJsonFromCodeBlock("```\n" + body + "\n```") == body
  {
    var text := "```\n" + body + "\n```";
    assert text == "```" + "\n" + body + "\n" + "```";
    assert "```" <= text;
    StripUnchanged(text);
    DropsFirstAndLastLine(text, "```", body, "```");
  }
}
