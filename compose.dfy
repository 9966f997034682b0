/**
  Composition of the outgoing notification text (server.js: formatString,
  buildMessage, the code block of the POST handler and the trailing URL).

  The text is a list of lines joined by single newlines: the bold title, the
  message, the fenced code block (POST only) and the URL, each present only
  when its parameter is a non-empty string.
*/
module Compose {
  import opened Wrappers

  /** JavaScript truthiness of an optional string parameter: present and non-empty. */
  predicate Truthy(s: Option<string>) {
    s.Some? && |s.value| > 0
  }

  /** The lines a present, non-empty parameter contributes: none or one. */
  function OptionalLine(s: Option<string>): (lines: seq<string>)
    ensures |lines| <= 1
    ensures Truthy(s) <==> s.Some? && lines == [s.value]
  {
    if Truthy(s) then [s.value] else []
  }

  /** formatString: its HTML escapes are disabled, so text passes through as given. */
  function FormatString(s: string): (r: string)
    ensures r == s
  {
    s
  }

  /** The title in Markdown bold emphasis. */
  function Bold(title: string): string {
    "*" + FormatString(title) + "*"
  }

  /** The lines buildMessage joins: the bold title, then the message, each only when non-empty. */
  function MessageLines(title: Option<string>, message: Option<string>): seq<string> {
    (if Truthy(title) then [Bold(title.value)] else [])
    + (if Truthy(message) then [FormatString(message.value)] else [])
  }

  /** Lines joined by single newline separators; nothing precedes the first line. */
  function JoinLines(lines: seq<string>): string {
    if |lines| == 0 then ""
    else if |lines| == 1 then lines[0]
    else JoinLines(lines[..|lines| - 1]) + "\n" + lines[|lines| - 1]
  }

  lemma JoinLinesAppend(lines: seq<string>, line: string)
    requires |lines| > 0
    ensures JoinLines(lines + [line]) == JoinLines(lines) + "\n" + line
  {
  }

  /**
    buildMessage: grows the text step by step, adding a newline before a part
    only when something precedes it.
  */
  method BuildMessage(title: Option<string>, message: Option<string>) returns (text: string)
    ensures text == JoinLines(MessageLines(title, message))
    ensures Truthy(title) && Truthy(message) ==> text == "*" + title.value + "*" + "\n" + message.value
    ensures Truthy(title) && !Truthy(message) ==> text == "*" + title.value + "*"
    ensures !Truthy(title) && Truthy(message) ==> text == message.value
    ensures !Truthy(title) && !Truthy(message) ==> text == ""
  {
    var bold: Option<string> := None;
    var body: Option<string> := None;
    text := "";
    if Truthy(title) {
      bold := Some("*" + FormatString(title.value) + "*");
    }
    if Truthy(message) {
      body := Some(FormatString(message.value));
    }
    if bold.Some? {
      if |text| > 0 {
        text := text + "\n";
      }
      text := text + bold.value;
    }
    if body.Some? {
      if |text| > 0 {
        text := text + "\n";
      }
      text := text + body.value;
    }
  }

  // ---------------------------------------------------------------------------
  // The code block of the POST handler

  /** The letter of an escaped newline: the pattern's `i` flag accepts both cases. */
  predicate IsLetterN(c: char) {
    c == 'n' || c == 'N'
  }

  /** No backslash in `s` is directly followed by the letter n, in either case. */
  predicate NoEscapedNewline(s: string) {
    forall i :: 0 <= i < |s| - 1 ==> !(s[i] == '\\' && IsLetterN(s[i + 1]))
  }

  /** No backslash in `s` is directly followed by a capital N. */
  predicate NoCapitalEscape(s: string) {
    forall i :: 0 <= i < |s| - 1 ==> !(s[i] == '\\' && s[i + 1] == 'N')
  }

  /**
    The global, case-insensitive replacement of a backslash followed by n or N
    by a newline, matching left to right without overlap, as the regular
    expression `/\\n/gim` does.
  */
  function UnescapeNewlines(code: string): (r: string)
    ensures |r| <= |code|
    ensures NoEscapedNewline(code) ==> r == code
  {
    if |code| >= 2 && code[0] == '\\' && IsLetterN(code[1]) then "\n" + UnescapeNewlines(code[2..])
    else if |code| == 0 then ""
    else [code[0]] + UnescapeNewlines(code[1..])
  }

  /** A capital N after a backslash is replaced too: a Windows path loses its backslash. */
  lemma CapitalEscapeIsReplaced()
    ensures UnescapeNewlines("C:\\New") == "C:\new"
  {
    assert UnescapeNewlines("ew") == "ew";
  }

  /** The inverse direction: every newline written as backslash-n. */
  function EscapeNewlines(s: string): (r: string)
    ensures |r| >= |s|
    ensures |s| > 0 ==> |r| > 0 && (r[0] == '\\' || r[0] == s[0])
  {
    if |s| == 0 then ""
    else (if s[0] == '\n' then "\\n" else [s[0]]) + EscapeNewlines(s[1..])
  }

  /** After the replacement no backslash-n or backslash-N sequence is left. */
  lemma {:induction false} UnescapeLeavesNoEscape(code: string)
    ensures NoEscapedNewline(UnescapeNewlines(code))
  {
    if |code| >= 2 && code[0] == '\\' && IsLetterN(code[1]) {
      UnescapeLeavesNoEscape(code[2..]);
    } else if |code| > 0 {
      UnescapeLeavesNoEscape(code[1..]);
      var rest := UnescapeNewlines(code[1..]);
      assert UnescapeNewlines(code) == [code[0]] + rest;
    }
  }

  /** Unescaping undoes escaping for every text without a literal backslash-n or backslash-N. */
  lemma {:induction false} UnescapeEscape(s: string)
    requires NoEscapedNewline(s)
    ensures UnescapeNewlines(EscapeNewlines(s)) == s
  {
    if |s| > 0 {
      var tail := EscapeNewlines(s[1..]);
      assert NoEscapedNewline(s[1..]) by {
        forall i | 0 <= i < |s[1..]| - 1
          ensures !(s[1..][i] == '\\' && IsLetterN(s[1..][i + 1]))
        {
          assert s[1..][i] == s[i + 1] && s[1..][i + 1] == s[i + 2];
        }
      }
      UnescapeEscape(s[1..]);
      if s[0] == '\n' {
        assert EscapeNewlines(s) == "\\n" + tail;
        assert ("\\n" + tail)[2..] == tail;
      } else {
        assert EscapeNewlines(s) == [s[0]] + tail;
        assert ([s[0]] + tail)[1..] == tail;
        if s[0] == '\\' && |s| > 1 {
          assert !IsLetterN(s[1]);
        }
      }
    }
  }

  /**
    Escaping undoes unescaping for every text without a raw newline and
    without a backslash-N: escaping writes the lower-case form only.
  */
  lemma {:induction false} EscapeUnescape(s: string)
    requires '\n' !in s
    requires NoCapitalEscape(s)
    ensures EscapeNewlines(UnescapeNewlines(s)) == s
  {
    if |s| >= 2 && s[0] == '\\' && IsLetterN(s[1]) {
      assert s[1] == 'n';
      assert NoCapitalEscape(s[2..]) by {
        forall i | 0 <= i < |s[2..]| - 1
          ensures !(s[2..][i] == '\\' && s[2..][i + 1] == 'N')
        {
          assert s[2..][i] == s[i + 2] && s[2..][i + 1] == s[i + 3];
        }
      }
      EscapeUnescape(s[2..]);
      var rest := UnescapeNewlines(s[2..]);
      assert ("\n" + rest)[1..] == rest;
      assert s == "\\n" + s[2..];
    } else if |s| > 0 {
      assert NoCapitalEscape(s[1..]) by {
        forall i | 0 <= i < |s[1..]| - 1
          ensures !(s[1..][i] == '\\' && s[1..][i + 1] == 'N')
        {
          assert s[1..][i] == s[i + 1] && s[1..][i + 1] == s[i + 2];
        }
      }
      EscapeUnescape(s[1..]);
      var rest := UnescapeNewlines(s[1..]);
      assert ([s[0]] + rest)[1..] == rest;
      assert s == [s[0]] + s[1..];
    }
  }

  /** The global replacement of one character by another. */
  function ReplaceChar(s: string, from: char, to: char): (r: string)
    ensures |r| == |s|
    ensures forall i :: 0 <= i < |s| ==> r[i] == (if s[i] == from then to else s[i])
  {
    if |s| == 0 then ""
    else [if s[0] == from then to else s[0]] + ReplaceChar(s[1..], from, to)
  }

  /** The quote replacement of the POST handler replaces '"' by '"': it changes nothing. */
  lemma QuoteReplacementIsIdentity(s: string)
    ensures ReplaceChar(s, '"', '"') == s
  {
  }

  /** The fenced code block the POST handler appends for a non-empty `code`. */
  function CodeBlock(code: string): string {
    "```\n" + ReplaceChar(UnescapeNewlines(code), '"', '"') + "\n```"
  }

  /** Appends the code block, when `code` is non-empty, on a line of its own. */
  function WithCode(text: string, code: Option<string>): string {
    if Truthy(code) then text + "\n" + CodeBlock(code.value) else text
  }

  /** Appends the URL, when non-empty, as the last line. */
  function WithUrl(text: string, url: Option<string>): string {
    if Truthy(url) then text + "\n" + url.value else text
  }

  /** The text the GET handler sends. */
  function GetText(title: Option<string>, message: Option<string>, url: Option<string>): string {
    WithUrl(JoinLines(MessageLines(title, message)), url)
  }

  /** The text the POST handler sends. */
  function PostText(title: Option<string>, message: Option<string>, code: Option<string>, url: Option<string>): string {
    WithUrl(WithCode(JoinLines(MessageLines(title, message)), code), url)
  }

  /**
    The code block's content is the code with every backslash-n and
    backslash-N turned into a newline; the quote replacement adds no change.
  */
  lemma CodeBlockContent(code: string)
    ensures CodeBlock(code) == "```\n" + UnescapeNewlines(code) + "\n```"
    ensures NoEscapedNewline(UnescapeNewlines(code))
  {
  }

  /**
    Once a title or message is present, the GET text is its lines joined by
    single newlines, with the URL as the last line.
  */
  lemma GetTextLines(title: Option<string>, message: Option<string>, url: Option<string>)
    requires Truthy(title) || Truthy(message)
    ensures GetText(title, message, url) == JoinLines(MessageLines(title, message) + OptionalLine(url))
  {
    var lines := MessageLines(title, message);
    if Truthy(url) {
      JoinLinesAppend(lines, url.value);
    } else {
      assert lines + [] == lines;
    }
  }

  /**
    Once a title or message is present, the POST text is its lines, then the
    code block, then the URL, joined by single newlines.
  */
  lemma PostTextLines(title: Option<string>, message: Option<string>, code: Option<string>, url: Option<string>)
    requires Truthy(title) || Truthy(message)
    ensures PostText(title, message, code, url)
         == JoinLines(MessageLines(title, message)
                      + (if Truthy(code) then [CodeBlock(code.value)] else [])
                      + OptionalLine(url))
  {
    var lines := MessageLines(title, message);
    var codeLines: seq<string> := if Truthy(code) then [CodeBlock(code.value)] else [];
    if Truthy(code) {
      JoinLinesAppend(lines, CodeBlock(code.value));
    } else {
      assert lines + codeLines == lines;
    }
    var withCode := lines + codeLines;
    assert JoinLines(withCode) == WithCode(JoinLines(lines), code);
    if Truthy(url) {
      JoinLinesAppend(withCode, url.value);
    } else {
      assert withCode + [] == withCode;
    }
  }

  /** Without a code block the POST handler sends exactly what the GET handler sends. */
  lemma PostWithoutCodeIsGet(title: Option<string>, message: Option<string>, code: Option<string>, url: Option<string>)
    requires !Truthy(code)
    ensures PostText(title, message, code, url) == GetText(title, message, url)
  {
  }
}
