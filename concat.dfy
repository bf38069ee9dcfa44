/** The input list `merge_videos` and `fast_merge_identical_videos`
    (helpers/merger.py) write for ffmpeg's concat demuxer: one
    `file '<absolute path>'` line per input. Alongside the writer, a model of
    how the demuxer reads such a list back: lines, the `file` keyword, and
    the path token read as ffmpeg's `av_get_token` reads it. */
module ConcatList {
  import opened Text

  /** `path.replace("'", replacement)`. */
  function ReplaceQuotes(path: string, replacement: string): (r: string)
    ensures '\'' !in path ==> r == path
  {
    if path == [] then []
    else (if path[0] == '\'' then replacement else [path[0]]) + ReplaceQuotes(path[1..], replacement)
  }

  /** The replacement as the source writes it: the Python literal `"'\''"`
      is three apostrophes. */
  const AsWrittenQuote: string := "'''"

  /** The replacement the list format needs: close the quotes, an escaped
      apostrophe, reopen the quotes. */
  const EscapedQuote: string := "'\\''"

  /** One line of the list, with `quote` in place of every apostrophe. */
  function LineWith(path: string, quote: string): string
  {
    "file '" + ReplaceQuotes(path, quote) + "'\n"
  }

  /** The lines of the paths in order. */
  function ListTextWith(paths: seq<string>, quote: string): string
  {
    if paths == [] then [] else LineWith(paths[0], quote) + ListTextWith(paths[1..], quote)
  }

  /** The list as the source writes it. */
  function ListText(paths: seq<string>): string
  {
    ListTextWith(paths, AsWrittenQuote)
  }

  /** The list with the corrected escape. */
  function ListTextCorrected(paths: seq<string>): string
  {
    ListTextWith(paths, EscapedQuote)
  }

  lemma {:induction false} ListTextAppend(paths: seq<string>, path: string, quote: string)
    ensures ListTextWith(paths + [path], quote) == ListTextWith(paths, quote) + LineWith(path, quote)
  {
    if paths != [] {
      assert (paths + [path])[1..] == paths[1..] + [path];
      ListTextAppend(paths[1..], path, quote);
    }
  }

  /** Writing the list file: one `f.write` per input path, each apostrophe
      replaced by `'''`. */
  method WriteConcatList(absPaths: seq<string>) returns (text: string)
    ensures text == ListText(absPaths)
  {
    text := [];
    for i := 0 to |absPaths|
      invariant text == ListTextWith(absPaths[..i], AsWrittenQuote)
    {
      ListTextAppend(absPaths[..i], absPaths[i], AsWrittenQuote);
      assert absPaths[..i + 1] == absPaths[..i] + [absPaths[i]];
      text := text + LineWith(absPaths[i], AsWrittenQuote);
    }
    assert absPaths[..|absPaths|] == absPaths;
  }

  // ---------------------------------------------------------------------------
  // Reading the list back
  // ---------------------------------------------------------------------------

  /** The characters that end an unquoted token. */
  const Blanks: set<char> := {' ', '\t', '\r', '\n'}

  /** `av_get_token`: unquoted blanks end the token, a backslash takes the
      next character as it is, and a quote groups everything up to the next
      quote with no escapes inside. */
  function Token(s: string): string
    decreases |s|
  {
    if s == [] || s[0] in Blanks then []
    else if s[0] == '\\' && |s| > 1 then [s[1]] + Token(s[2..])
    else if s[0] == '\'' then
      var q := Quoted(s[1..]);
      q.0 + Token(q.1)
    else [s[0]] + Token(s[1..])
  }

  /** The text up to the closing quote, and what follows it. */
  function Quoted(s: string): (r: (string, string))
    ensures |r.1| <= |s|
  {
    if s == [] then ([], [])
    else if s[0] == '\'' then ([], s[1..])
    else
      var t := Quoted(s[1..]);
      ([s[0]] + t.0, t.1)
  }

  /** The lines of a text (a final newline ends the last line). */
  function Lines(text: string): seq<string>
    decreases |text|
  {
    if text == [] then []
    else if '\n' in text then
      var parts := SplitAt(text, '\n');
      [parts.0] + Lines(parts.1)
    else [text]
  }

  /** The paths of the `file` lines of a list, in order. */
  function ReadPaths(lines: seq<string>): seq<string>
  {
    if lines == [] then []
    else if StartsWith(lines[0], "file ") then [Token(lines[0][5..])] + ReadPaths(lines[1..])
    else ReadPaths(lines[1..])
  }

  function ReadList(text: string): seq<string>
  {
    ReadPaths(Lines(text))
  }

  /** What is read after an opening quote: the quoted text, then the rest
      of the token. */
  function AfterQuote(s: string): string
  {
    var q := Quoted(s);
    q.0 + Token(q.1)
  }

  /** Inside quotes, any other character reads as itself. */
  lemma PlainCharStep(c: char, tail: string)
    requires c != '\''
    ensures AfterQuote([c] + tail) == [c] + AfterQuote(tail)
  {
    assert ([c] + tail)[1..] == tail;
  }

  // ---------------------------------------------------------------------------
  // The list splits into one line per path
  // ---------------------------------------------------------------------------

  /** The lines of a list without their newlines. */
  function BodyLines(paths: seq<string>, quote: string): (lines: seq<string>)
    ensures |lines| == |paths|
  {
    seq(|paths|, i requires 0 <= i < |paths| => "file '" + ReplaceQuotes(paths[i], quote) + "'")
  }

  /** Without newlines in the paths and the replacement, the list has one
      line per path, in order. */
  lemma {:induction false} ListLines(paths: seq<string>, quote: string)
    requires '\n' !in quote
    requires forall i :: 0 <= i < |paths| ==> '\n' !in paths[i]
    ensures Lines(ListTextWith(paths, quote)) == BodyLines(paths, quote)
  {
    if paths != [] {
      var first := "file '" + ReplaceQuotes(paths[0], quote) + "'";
      assert '\n' !in ReplaceQuotes(paths[0], quote) by {
        NoNewlineAfterReplace(paths[0], quote);
      }
      assert '\n' !in first;
      assert ListTextWith(paths, quote) == first + "\n" + ListTextWith(paths[1..], quote);
      SplitAtJoin(first, '\n', ListTextWith(paths[1..], quote));
      ListLines(paths[1..], quote);
      assert BodyLines(paths, quote) == [first] + BodyLines(paths[1..], quote);
    }
  }

  lemma {:induction false} NoNewlineAfterReplace(path: string, quote: string)
    requires '\n' !in path && '\n' !in quote
    ensures '\n' !in ReplaceQuotes(path, quote)
  {
    if path != [] {
      assert '\n' !in path[1..];
      NoNewlineAfterReplace(path[1..], quote);
    }
  }

  /** The token of each quoted path. */
  function QuotedTokens(paths: seq<string>, quote: string): (r: seq<string>)
    ensures |r| == |paths|
  {
    seq(|paths|, i requires 0 <= i < |paths| => Token("'" + ReplaceQuotes(paths[i], quote) + "'"))
  }

  /** Each body line is read as the token after `file `. */
  lemma {:induction false} ReadBodyLines(paths: seq<string>, quote: string)
    ensures ReadPaths(BodyLines(paths, quote)) == QuotedTokens(paths, quote)
  {
    if paths != [] {
      BodyLinesStep(paths, quote);
      ReadBodyLines(paths[1..], quote);
      assert QuotedTokens(paths, quote) ==
        [Token("'" + ReplaceQuotes(paths[0], quote) + "'")] + QuotedTokens(paths[1..], quote);
    }
  }

  /** The first body line is a `file` line with the first path, and the
      others are the body lines of the other paths. */
  lemma BodyLinesStep(paths: seq<string>, quote: string)
    requires paths != []
    ensures var lines := BodyLines(paths, quote);
      && StartsWith(lines[0], "file ")
      && lines[0][5..] == "'" + ReplaceQuotes(paths[0], quote) + "'"
      && lines[1..] == BodyLines(paths[1..], quote)
  {
  }

  // ---------------------------------------------------------------------------
  // The corrected escape round-trips
  // ---------------------------------------------------------------------------

  /** Inside quotes, the corrected escape gives the path back, then reading
      goes on after the closing quote. */
  lemma {:induction false} QuotedRoundTrip(path: string, rest: string)
    ensures AfterQuote(ReplaceQuotes(path, EscapedQuote) + "'" + rest) == path + Token(rest)
    decreases |path|
  {
    if path == [] {
      assert ReplaceQuotes(path, EscapedQuote) + "'" + rest == "'" + rest;
    } else {
      var r1 := ReplaceQuotes(path[1..], EscapedQuote);
      QuotedRoundTrip(path[1..], rest);
      if path[0] == '\'' {
        EscapedApostropheThen(path[1..], r1, rest);
        assert ReplaceQuotes(path, EscapedQuote) == EscapedQuote + r1;
      } else {
        PlainCharThen(path[0], path[1..], r1, rest);
        assert ReplaceQuotes(path, EscapedQuote) == [path[0]] + r1;
      }
      assert path == [path[0]] + path[1..];
    }
  }

  lemma EscapedApostropheThen(p1: string, r1: string, rest: string)
    requires AfterQuote(r1 + "'" + rest) == p1 + Token(rest)
    ensures AfterQuote(EscapedQuote + r1 + "'" + rest) == "'" + p1 + Token(rest)
  {
    Regroup(EscapedQuote, r1, "'", rest);
    Regroup3("'", p1, Token(rest));
    EscapedApostropheStep(r1 + "'" + rest);
  }

  lemma PlainCharThen(c: char, p1: string, r1: string, rest: string)
    requires c != '\''
    requires AfterQuote(r1 + "'" + rest) == p1 + Token(rest)
    ensures AfterQuote([c] + r1 + "'" + rest) == [c] + p1 + Token(rest)
  {
    Regroup([c], r1, "'", rest);
    Regroup3([c], p1, Token(rest));
    PlainCharStep(c, r1 + "'" + rest);
  }

  lemma Regroup(a: string, b: string, c: string, d: string)
    ensures a + b + c + d == a + (b + c + d)
  {
  }

  lemma Regroup3(a: string, b: string, c: string)
    ensures a + (b + c) == a + b + c
  {
  }

  /** Inside quotes, `'\''` reads as one apostrophe and reopens the quotes. */
  lemma EscapedApostropheStep(tail: string)
    ensures AfterQuote(EscapedQuote + tail) == "'" + AfterQuote(tail)
  {
    var s := EscapedQuote + tail;
    var afterOpen := "\\''" + tail;
    assert s[0] == '\'' && s[1..] == afterOpen;
    assert afterOpen[0] == '\\' && afterOpen[1] == '\'' && afterOpen[2..] == "'" + tail;
    assert Quoted(s) == ([], afterOpen);
    assert Token(afterOpen) == "'" + Token("'" + tail);
    assert ("'" + tail)[1..] == tail;
    assert Token("'" + tail) == AfterQuote(tail);
  }

  /** A corrected line reads back as its path, whatever the path holds. */
  lemma LineRoundTrip(path: string)
    ensures Token("'" + ReplaceQuotes(path, EscapedQuote) + "'") == path
  {
    var body := ReplaceQuotes(path, EscapedQuote) + "'";
    QuotedRoundTrip(path, []);
    assert body + [] == body;
    var s := "'" + ReplaceQuotes(path, EscapedQuote) + "'";
    assert s == "'" + body;
    assert s[0] == '\'' && s[1..] == body;
    assert Token([]) == [];
  }

  /** The corrected list round-trips: reading it gives back exactly the
      paths written, in order. */
  lemma ListRoundTrip(paths: seq<string>)
    requires forall i :: 0 <= i < |paths| ==> '\n' !in paths[i]
    ensures ReadList(ListTextCorrected(paths)) == paths
  {
    ListLines(paths, EscapedQuote);
    ReadBodyLines(paths, EscapedQuote);
    forall i | 0 <= i < |paths|
      ensures Token("'" + ReplaceQuotes(paths[i], EscapedQuote) + "'") == paths[i]
    {
      LineRoundTrip(paths[i]);
    }
  }

  // ---------------------------------------------------------------------------
  // The escape as written loses every apostrophe
  // ---------------------------------------------------------------------------

  /** The path with its apostrophes deleted. */
  function WithoutApostrophes(p: string): (r: string)
    ensures '\'' !in r
    ensures '\'' !in p ==> r == p
    ensures '\'' in p ==> |r| < |p|
  {
    if p == [] then []
    else (if p[0] == '\'' then [] else [p[0]]) + WithoutApostrophes(p[1..])
  }

  /** No character that ends or escapes an unquoted token. */
  predicate Plain(p: string)
  {
    forall i :: 0 <= i < |p| ==> p[i] !in Blanks && p[i] != '\\'
  }

  /** The reader inside quotes or outside them. */
  function ReadFrom(quoted: bool, s: string): string
  {
    if quoted then AfterQuote(s) else Token(s)
  }

  /** Three apostrophes switch between reading inside and outside quotes:
      each of them closes or opens a quoted part. */
  lemma TripleQuoteToggles(quoted: bool, tail: string)
    ensures ReadFrom(quoted, AsWrittenQuote + tail) == ReadFrom(!quoted, tail)
  {
    var s := AsWrittenQuote + tail;
    assert s[1..] == "''" + tail && ("''" + tail)[1..] == "'" + tail && ("'" + tail)[1..] == tail;
    if quoted {
      assert Quoted(s) == ([], "''" + tail);
      assert Token("''" + tail) == Token(tail);
    } else {
      assert Quoted("''" + tail) == ([], "'" + tail);
      assert Token("'" + tail) == AfterQuote(tail);
    }
  }

  /** Outside quotes, a plain character reads as itself. */
  lemma PlainTokenStep(c: char, tail: string)
    requires c !in Blanks && c != '\\' && c != '\''
    ensures Token([c] + tail) == [c] + Token(tail)
  {
    assert ([c] + tail)[1..] == tail;
  }

  /** Inside or outside quotes, the rest of an as-written line reads as its
      path without the apostrophes. */
  lemma {:induction false} AsWrittenReads(p: string, quoted: bool)
    requires Plain(p)
    ensures ReadFrom(quoted, ReplaceQuotes(p, AsWrittenQuote) + "'") == WithoutApostrophes(p)
    decreases |p|
  {
    if p == [] {
      assert ReplaceQuotes(p, AsWrittenQuote) + "'" == "'";
      assert Quoted("'") == ([], []);
    } else {
      var tail := ReplaceQuotes(p[1..], AsWrittenQuote) + "'";
      assert Plain(p[1..]) by {
        assert forall i :: 0 <= i < |p[1..]| ==> p[1..][i] == p[i + 1];
      }
      assert p[0] !in Blanks && p[0] != '\\' by {
        assert p[0] == p[0 + 0];
      }
      if p[0] == '\'' {
        assert ReplaceQuotes(p, AsWrittenQuote) + "'" == AsWrittenQuote + tail;
        TripleQuoteToggles(quoted, tail);
        AsWrittenReads(p[1..], !quoted);
      } else {
        assert ReplaceQuotes(p, AsWrittenQuote) + "'" == [p[0]] + tail;
        if quoted {
          PlainCharStep(p[0], tail);
        } else {
          PlainTokenStep(p[0], tail);
        }
        AsWrittenReads(p[1..], quoted);
      }
    }
  }

  /** An as-written line reads back as its path without the apostrophes. */
  lemma AsWrittenLineReads(p: string)
    requires Plain(p)
    ensures Token("'" + ReplaceQuotes(p, AsWrittenQuote) + "'") == WithoutApostrophes(p)
  {
    var body := ReplaceQuotes(p, AsWrittenQuote) + "'";
    assert "'" + ReplaceQuotes(p, AsWrittenQuote) + "'" == "'" + body;
    OpenQuote(body);
    AsWrittenReads(p, true);
  }

  /** An opening quote starts the quoted reading. */
  lemma OpenQuote(body: string)
    ensures Token("'" + body) == AfterQuote(body)
  {
    assert ("'" + body)[1..] == body;
  }

  /** The list as written is read back with every apostrophe deleted from
      every path (for paths without blanks or backslashes, which end or
      escape the unquoted parts the stray apostrophes open): a path holding
      an apostrophe never comes back as written. */
  lemma AsWrittenDropsApostrophes(paths: seq<string>)
    requires forall i :: 0 <= i < |paths| ==> Plain(paths[i])
    ensures var read := ReadList(ListText(paths));
      && |read| == |paths|
      && forall i :: 0 <= i < |paths| ==> read[i] == WithoutApostrophes(paths[i])
  {
    forall i | 0 <= i < |paths|
      ensures '\n' !in paths[i]
    {
      assert forall k :: 0 <= k < |paths[i]| ==> paths[i][k] != '\n';
    }
    ListLines(paths, AsWrittenQuote);
    ReadBodyLines(paths, AsWrittenQuote);
    forall i | 0 <= i < |paths|
      ensures Token("'" + ReplaceQuotes(paths[i], AsWrittenQuote) + "'") == WithoutApostrophes(paths[i])
    {
      AsWrittenLineReads(paths[i]);
    }
  }

  /** As written, an apostrophe is lost: the list for `a'b` reads back as
      `ab`. */
  lemma AsWrittenLosesApostrophe()
    ensures ReadList(ListText(["a'b"])) == ["ab"]
  {
    var p := "a'b";
    assert Plain(p);
    AsWrittenDropsApostrophes([p]);
    ExampleWithoutApostrophes();
    var read := ReadList(ListText([p]));
    assert |read| == 1 && read[0] == "ab";
  }

  lemma ExampleWithoutApostrophes()
    ensures WithoutApostrophes("a'b") == "ab"
  {
    assert "a'b"[1..] == "'b" && "'b"[1..] == "b" && "b"[1..] == [];
  }
}
