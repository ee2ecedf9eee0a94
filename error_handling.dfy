/** `last_char_of_first_line`: the `?` operator on an `Option`. */
module ErrorHandling {
  import opened Prelude
  import opened Format

  predicate EndsWithCarriageReturn(s: string)
  {
    |s| > 0 && s[|s| - 1] == '\r'
  }

  /** `text.lines().next()`: the text up to the first `'\n'`, without a
      `'\r'` right before that `'\n'`; a text without `'\n'` is one line,
      and an empty text has no lines. */
  function FirstLine(text: string): (line: Option<string>)
    ensures line.None? <==> text == []
    ensures line.Some? ==> '\n' !in line.value && line.value <= text
    ensures text != [] && '\n' !in text ==> line == Some(text)
    ensures line.Some? && '\n' in text ==>
              (line.value + "\n" <= text && !EndsWithCarriageReturn(line.value)) || line.value + "\r\n" <= text
  {
    if text == [] then None
    else
      var k := IndexOf(text, '\n');
      assert k == |text| ==> text[..k] == text;
      if 0 < k < |text| && text[k - 1] == '\r' then
        assert text[..k - 1] + "\r\n" == text[..k + 1];
        Some(text[..k - 1])
      else
        assert k < |text| ==> text[..k] + "\n" == text[..k + 1];
        Some(text[..k])
  }

  /** `text.lines().next()?.chars().last()`: `None` when there is no first
      line or when that line is empty. */
  function LastCharOfFirstLine(text: string): (last: Option<char>)
    ensures text == [] ==> last.None?
    ensures last.None? <==> FirstLine(text).None? || FirstLine(text).value == []
    ensures last.Some? ==> last.value == FirstLine(text).value[|FirstLine(text).value| - 1]
    ensures last.Some? ==> last.value in text && last.value != '\n'
  {
    match FirstLine(text)
    case None => None
    case Some(line) => if line == [] then None else Some(line[|line| - 1])
  }

  /** A text that starts a new line at once has an empty first line. */
  lemma LeadingNewlineHasNoLastChar(rest: string)
    ensures LastCharOfFirstLine("\n" + rest) == None
    ensures LastCharOfFirstLine("\r\n" + rest) == None
  {
    assert IndexOf("\n" + rest, '\n') == 0;
    assert IndexOf("\r\n" + rest, '\n') == 1;
  }

  /** Characters after the first line break never matter; a `"\r\n"` break
      ends the line like a `'\n'` break, and a `'\r'` anywhere else stays in
      the line. */
  lemma OnlyFirstLineMatters(line: string, rest1: string, rest2: string)
    requires '\n' !in line
    ensures LastCharOfFirstLine(line + "\n" + rest1) == LastCharOfFirstLine(line + "\n" + rest2)
    ensures !EndsWithCarriageReturn(line) ==>
              LastCharOfFirstLine(line + "\n" + rest1) == (if line == [] then None else Some(line[|line| - 1]))
    ensures LastCharOfFirstLine(line + "\r\n" + rest1) == (if line == [] then None else Some(line[|line| - 1]))
  {
    assert line + "\n" + rest1 == line + ("\n" + rest1);
    assert line + "\n" + rest2 == line + ("\n" + rest2);
    assert line + "\r\n" + rest1 == line + ("\r\n" + rest1);
    FirstLineBeforeNewline(line, rest1);
    FirstLineBeforeNewline(line, rest2);
    FirstLineBeforeCarriageReturn(line, rest1);
  }

  lemma FirstLineBeforeNewline(line: string, rest: string)
    requires '\n' !in line
    ensures FirstLine(line + ("\n" + rest)) == Some(if EndsWithCarriageReturn(line) then line[..|line| - 1] else line)
  {
    var text := line + ("\n" + rest);
    var k := |line|;
    assert IndexOf("\n" + rest, '\n') == 0;
    IndexOfAfterPrefix(line, "\n" + rest, '\n');
    assert IndexOf(text, '\n') == k && k < |text|;
    if EndsWithCarriageReturn(line) {
      assert text[k - 1] == '\r';
      assert text[..k - 1] == line[..k - 1];
    } else {
      assert text[..k] == line;
      assert k > 0 ==> text[k - 1] == line[k - 1];
    }
  }

  lemma FirstLineBeforeCarriageReturn(line: string, rest: string)
    requires '\n' !in line
    ensures FirstLine(line + ("\r\n" + rest)) == Some(line)
  {
    var text := line + ("\r\n" + rest);
    IndexOfAfterPrefix(line, "\r\n" + rest, '\n');
    assert IndexOf("\r\n" + rest, '\n') == 1;
    assert IndexOf(text, '\n') == |line| + 1;
    assert text[|line|] == '\r';
    assert text[..|line|] == line;
  }

  /** A `'\r'` inside the first line is kept: `"x\ry\nz"` gives `'y'`. */
  lemma CarriageReturnInsideLine()
    ensures LastCharOfFirstLine("x\ry\nz") == Some('y')
  {
    assert "x\ry\nz" == "x\ry" + "\n" + "z";
    OnlyFirstLineMatters("x\ry", "z", "");
  }

  /** Without any `'\n'` the whole text is the first line, a trailing `'\r'`
      included. */
  lemma SingleLine(text: string)
    requires text != [] && '\n' !in text
    ensures LastCharOfFirstLine(text) == Some(text[|text| - 1])
  {
    assert text[..|text|] == text;
  }
}
