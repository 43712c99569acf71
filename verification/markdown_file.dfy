/**
 * markdown_file.py: the line-oriented segmenter that splits a Markdown
 * manuscript into prose, fenced source-code listings and `%%` comment
 * blocks, the validation done when a listing is constructed, and the
 * re-serialisation (`__repr__`) of each kind of block.
 *
 * The model follows the code as it is written, including three behaviours
 * that differ from the documented design: the opening fence line is not
 * part of the block handed to the listing constructor, a `%%` block ends at
 * its first line that is not `%%`, and languages outside python, rust, go
 * and text are accepted without any check.
 */
module MarkdownFile {
  import opened Wrappers
  import opened PyStr
  import Languages

  // ------------------------------------------------------------ separator

  /** The banner's head in this file's `separator`: `sep_char * 5 + " " + id`. */
  function SeparatorStart(id: string, sepChar: string): string {
    Repeat(sepChar, 5) + " " + id
  }

  /**
   * `separator(id, sep_char)` as markdown_file.py defines it: the head, a
   * space, `sep_char` repeated up to column 50 of the head, and a newline.
   */
  function Separator(id: string, sepChar: string): string {
    SeparatorStart(id, sepChar) + " " + Repeat(sepChar, 50 - |SeparatorStart(id, sepChar)|) + "\n"
  }

  /**
   * The banner opens with its head and a space and ends with a newline; a
   * head of 50 characters or more gets no padding.
   */
  lemma SeparatorShape(id: string, sepChar: string)
    ensures StartsWith(Separator(id, sepChar), SeparatorStart(id, sepChar) + " ")
    ensures EndsWith(Separator(id, sepChar), "\n")
    ensures |SeparatorStart(id, sepChar)| >= 50 ==>
      Separator(id, sepChar) == SeparatorStart(id, sepChar) + " \n"
  {
    var start := SeparatorStart(id, sepChar);
    RepeatSpec(sepChar, 50 - |start|);
    var r := Separator(id, sepChar);
    assert r == (start + " ") + Repeat(sepChar, 50 - |start|) + "\n";
    assert r[..|start| + 1] == start + " ";
  }

  /**
   * With a one-character `sep_char`, everything between the head's space and
   * the newline is `sep_char`, and an id of at most 44 characters yields a
   * 52-character line.
   */
  lemma SeparatorPadding(id: string, sepChar: string)
    requires |sepChar| == 1
    ensures |id| <= 44 ==> |Separator(id, sepChar)| == 52
    ensures forall i :: |SeparatorStart(id, sepChar)| + 1 <= i < |Separator(id, sepChar)| - 1 ==>
      Separator(id, sepChar)[i] == sepChar[0]
  {
    var start := SeparatorStart(id, sepChar);
    RepeatSpec(sepChar, 50 - |start|);
    RepeatSpec(sepChar, 5);
    var pad := Repeat(sepChar, 50 - |start|);
    var r := Separator(id, sepChar);
    assert |start| == 6 + |id|;
    assert r == (start + " ") + pad + "\n";
    assert forall i :: |start| + 1 <= i < |r| - 1 ==> r[i] == pad[i - |start| - 1];
  }

  // ------------------------------------------------------------ blocks

  /** The three kinds of block a manuscript is cut into. */
  datatype Block =
    | MarkdownText(text: string)
    | SourceCodeListing(originalCodeBlock: string, language: string, sourceFileName: string,
                        code: string, ignore: bool)
    | CodePath(comment: seq<string>, path: Option<string>)

  /** The exceptions parsing raises, each with the block or line it concerns. */
  datatype ParseError =
    | UnmatchedCodeBlock(startLine: nat)      // ValueError from SourceCodeListing.parse
    | EmptyLanguage(codeBlock: string)        // AssertionError in the listing constructor
    | MissingSourceFileName(codeBlock: string) // AssertionError in _validate_filename
    | IndexOutOfRange                         // IndexError from indexing a list past its end

  function ErrorMessage(e: ParseError): string {
    match e
    case UnmatchedCodeBlock(n) => "Unmatched code block starting at line " + NatToDecimal(n)
    case EmptyLanguage(b) => "Language cannot be empty in " + b
    case MissingSourceFileName(b) => "First line must contain source file name in " + b
    case IndexOutOfRange => "list index out of range"
  }

  // ------------------------------------------------------------ SourceCodeListing construction

  /** The language named on a stripped tag line: trailing "!" removed, first three characters dropped, stripped. */
  function LanguageOf(tagline: string): string {
    Strip(Drop(RStripChar(tagline, '!'), 3))
  }

  /** The stripped second line of a block, or "" when there is none. */
  function FilenameLine(lines: seq<string>): string {
    if |lines| > 1 then Strip(lines[1]) else ""
  }

  /** `"".join(lines[1:-1])`: every line strictly between the first and the last. */
  function InnerCode(lines: seq<string>): string {
    if |lines| < 2 then "" else Concat(lines[1..|lines| - 1])
  }

  /** The comment token and extension the constructor checks the slug line against, per language. */
  function SlugRule(language: string): Option<(string, string)> {
    match language
    case "python" => Some(("#", ".py"))
    case "rust" => Some(("//", ".rs"))
    case "go" => Some(("//", ".go"))
    case _ => None
  }

  /**
   * `SourceCodeListing(original_code_block)` with its `__post_init__`: reads
   * the ignore flag and the language from the block's first line, keeps the
   * lines between the first and the last as the code, and for a non-ignored
   * python, rust or go listing requires the second line to be the slug line.
   */
  function NewSourceCodeListing(codeBlock: string): (r: Result<Block, ParseError>)
    ensures r.Success? ==> r.value.SourceCodeListing? && r.value.originalCodeBlock == codeBlock
                           && r.value.language != ""
    ensures r.Success? && (r.value.ignore || SlugRule(r.value.language).None?) ==>
              r.value.sourceFileName == ""
  {
    var lines := SplitLinesKeepEnds(codeBlock);
    if lines == [] then Failure(IndexOutOfRange)
    else
      var tagline := Strip(lines[0]);
      var ignore := EndsWith(tagline, "!");
      var language := LanguageOf(tagline);
      var code := InnerCode(lines);
      if language == "" then Failure(EmptyLanguage(codeBlock))
      else if ignore then Success(SourceCodeListing(codeBlock, language, "", code, true))
      else
        match SlugRule(language)
        case None => Success(SourceCodeListing(codeBlock, language, "", code, false))
        case Some((comment, ext)) =>
          var line := FilenameLine(lines);
          if StartsWith(line, comment) && EndsWith(line, ext)
          then Success(SourceCodeListing(codeBlock, language, Strip(line[|comment|..]), code, false))
          else Failure(MissingSourceFileName(codeBlock))
  }

  /** `__repr__` of each kind of block. */
  function Repr(b: Block): string {
    match b
    case MarkdownText(text) => text
    case SourceCodeListing(_, language, _, code, ignore) =>
      "```" + language + (if ignore then " !" else "") + "\n" + code + "```\n"
    case CodePath(_, path) =>
      "%%\ncode: " + (if path.Some? then path.value else "None") + "\n%%\n"
  }

  // ------------------------------------------------------------ SourceCodeListing properties

  /**
   * An accepted listing has a first line; its ignore flag says whether that
   * line, stripped, ends with "!", its language is read off that line, and
   * its code is every line strictly between the first and the last.
   */
  lemma ListingFields(codeBlock: string)
    requires NewSourceCodeListing(codeBlock).Success?
    ensures SplitLinesKeepEnds(codeBlock) != []
    ensures var b := NewSourceCodeListing(codeBlock).value;
            var tagline := Strip(SplitLinesKeepEnds(codeBlock)[0]);
            (b.ignore <==> EndsWith(tagline, "!")) && b.language == LanguageOf(tagline)
            && b.code == InnerCode(SplitLinesKeepEnds(codeBlock))
  {
  }

  /**
   * The constructor raises the IndexError exactly for an empty block, and the
   * empty-language assertion exactly when the language read off the first
   * line is empty.
   */
  lemma ListingRejections(codeBlock: string)
    ensures NewSourceCodeListing(codeBlock) == Failure(IndexOutOfRange) <==> codeBlock == ""
    ensures NewSourceCodeListing(codeBlock) == Failure(EmptyLanguage(codeBlock)) <==>
      codeBlock != "" && LanguageOf(Strip(SplitLinesKeepEnds(codeBlock)[0])) == ""
  {
  }

  /**
   * A listing that is ignore-flagged, or whose language has no slug rule
   * (text, or any language outside python, rust and go), is accepted
   * whenever its language is not empty, and has no source file name.
   */
  lemma AcceptedWithoutSlug(codeBlock: string)
    requires SplitLinesKeepEnds(codeBlock) != []
    requires var tagline := Strip(SplitLinesKeepEnds(codeBlock)[0]);
             LanguageOf(tagline) != "" && (EndsWith(tagline, "!") || SlugRule(LanguageOf(tagline)).None?)
    ensures NewSourceCodeListing(codeBlock).Success?
    ensures NewSourceCodeListing(codeBlock).value.sourceFileName == ""
  {
  }

  /** No character of a registered extension is whitespace. */
  lemma ExtensionHasNoSpace(ext: string)
    requires ext in [".py", ".rs", ".go"]
    ensures forall i :: 0 <= i < |ext| ==> !IsSpaceChar(ext[i])
  {
    forall i | 0 <= i < |ext| ensures !IsSpaceChar(ext[i]) {
      VisibleAsciiNotSpace(ext[i]);
    }
  }

  /**
   * A line that starts with a slug comment token and ends with the matching
   * extension holds the extension after the token, so the name taken from
   * it is non-empty and ends with the extension.
   */
  lemma SlugNameEndsWithExtension(line: string, comment: string, ext: string)
    requires Some((comment, ext)) in [SlugRule("python"), SlugRule("rust"), SlugRule("go")]
    requires StartsWith(line, comment) && EndsWith(line, ext)
    ensures |comment| + |ext| <= |line|
    ensures Strip(line[|comment|..]) != "" && EndsWith(Strip(line[|comment|..]), ext)
  {
    assert line[|line| - |ext|] == ext[0] == '.';
    assert forall j :: 0 <= j < |comment| ==> line[j] == comment[j] != '.';
    var rest := line[|comment|..];
    assert rest[|rest| - |ext|..] == line[|line| - |ext|..];
    ExtensionHasNoSpace(ext);
    StripKeepsSuffix(rest, ext);
  }

  /**
   * A non-ignored python, rust or go listing is accepted exactly when its
   * stripped second line starts with the language's comment token and ends
   * with its extension, and is rejected naming the block otherwise; an
   * accepted one records the rest of that line after the token, stripped,
   * as a non-empty source file name ending with the extension.
   */
  lemma SlugLineChecked(codeBlock: string)
    requires SplitLinesKeepEnds(codeBlock) != []
    requires var tagline := Strip(SplitLinesKeepEnds(codeBlock)[0]);
             !EndsWith(tagline, "!") && SlugRule(LanguageOf(tagline)).Some?
    ensures var lines := SplitLinesKeepEnds(codeBlock);
            var (comment, ext) := SlugRule(LanguageOf(Strip(lines[0]))).value;
            var line := FilenameLine(lines);
            var r := NewSourceCodeListing(codeBlock);
            (r.Success? <==> StartsWith(line, comment) && EndsWith(line, ext))
            && (r.Failure? ==> r.error == MissingSourceFileName(codeBlock))
            && (r.Success? ==> r.value.sourceFileName == Strip(line[|comment|..])
                               && r.value.sourceFileName != "" && EndsWith(r.value.sourceFileName, ext))
  {
    var lines := SplitLinesKeepEnds(codeBlock);
    var language := LanguageOf(Strip(lines[0]));
    var (comment, ext) := SlugRule(language).value;
    var line := FilenameLine(lines);
    if StartsWith(line, comment) && EndsWith(line, ext) {
      assert Some((comment, ext)) in [SlugRule("python"), SlugRule("rust"), SlugRule("go")];
      SlugNameEndsWithExtension(line, comment, ext);
    }
  }

  /**
   * The slug rules are the registry's entries: a language has one exactly
   * when it is a registered language name, and the rule is that entry's
   * comment symbol and file extension.
   */
  lemma SlugRuleMatchesRegistry(language: string)
    ensures SlugRule(language).Some? <==>
      Languages.Lookup(Languages.Registered, language).Success?
      && Languages.Lookup(Languages.Registered, language).value.language == language
    ensures SlugRule(language).Some? ==>
      Languages.Lookup(Languages.Registered, language).value.commentSymbol == SlugRule(language).value.0
      && Languages.Lookup(Languages.Registered, language).value.fileExtension == SlugRule(language).value.1
  {
    if language == "python" {
      Languages.PythonRegistered();
      assert SlugRule(language) == Some(("#", ".py"));
      assert Languages.Registered[0] == Languages.LanguageInfo("python", ".py", "#", Languages.Registered[0].startSearch);
    } else if language == "rust" {
      Languages.RustRegistered();
      assert SlugRule(language) == Some(("//", ".rs"));
      assert Languages.Registered[1] == Languages.LanguageInfo("rust", ".rs", "//", Languages.Registered[1].startSearch);
    } else if language == "go" {
      Languages.GoRegistered();
      assert SlugRule(language) == Some(("//", ".go"));
      assert Languages.Registered[2] == Languages.LanguageInfo("go", ".go", "//", Languages.Registered[2].startSearch);
    } else {
      var r := Languages.Lookup(Languages.Registered, language);
      if r.Success? {
        var i :| 0 <= i < |Languages.Registered| && Languages.Registered[i] == r.value;
        assert r.value.language in ["python", "rust", "go"];
      }
    }
  }

  /** A stripped language written after "```" is read back unchanged and without the ignore flag. */
  lemma TagLineOf(language: string)
    requires language != [] && !IsSpaceChar(language[0]) && !IsSpaceChar(language[|language| - 1])
    requires language[|language| - 1] != '!'
    ensures Strip("```" + language + "\n") == "```" + language
    ensures !EndsWith("```" + language, "!")
    ensures LanguageOf("```" + language) == language
  {
    var tag := "```" + language;
    VisibleAsciiNotSpace('`');
    assert tag[|tag| - 1] == language[|language| - 1];
    StripTrailing(tag, "\n");
    assert RStripChar(tag, '!') == tag;
    assert Drop(tag, 3) == language;
    StripUnchanged(language);
  }

  /** The lines of a listing block of the documented shape, as `splitlines(True)` returns them. */
  lemma ListingBlockLines(first: string, body: seq<string>)
    requires IsLine(first) && first[|first| - 1] == '\n'
    requires forall i :: 0 <= i < |body| ==> IsLine(body[i]) && body[i][|body[i]| - 1] == '\n'
    ensures SplitLinesKeepEnds(first + Concat(body) + "```\n") == [first] + body + ["```\n"]
  {
    var ls := [first] + body + ["```\n"];
    ListingBlockWellFormed(first, body);
    ListingBlockConcat(first, body);
    SplitLinesKeepEndsOfConcat(ls);
  }

  lemma ListingBlockWellFormed(first: string, body: seq<string>)
    requires IsLine(first) && first[|first| - 1] == '\n'
    requires forall i :: 0 <= i < |body| ==> IsLine(body[i]) && body[i][|body[i]| - 1] == '\n'
    ensures WellFormedLines([first] + body + ["```\n"])
  {
    var ls := [first] + body + ["```\n"];
    forall i | 0 <= i < |ls| ensures IsLine(ls[i]) && ls[i][|ls[i]| - 1] == '\n' {
      if 0 < i < |ls| - 1 {
        assert ls[i] == body[i - 1];
      }
    }
  }

  lemma ListingBlockConcat(first: string, body: seq<string>)
    ensures Concat([first] + body + ["```\n"]) == first + Concat(body) + "```\n"
  {
    ConcatAppend([first] + body, ["```\n"]);
    ConcatAppend([first], body);
    ConcatSingle(first);
    ConcatSingle("```\n");
  }

  /**
   * A listing block of the documented shape, "```" and a stripped language
   * that is not ignore-flagged, then code lines, then "```", is reproduced
   * exactly by `__repr__` once the constructor accepts it, and a language
   * without a slug rule is always accepted.
   */
  lemma ListingReprRoundTrip(language: string, body: seq<string>)
    requires language != [] && !IsSpaceChar(language[0]) && !IsSpaceChar(language[|language| - 1])
    requires language[|language| - 1] != '!' && forall i :: 0 <= i < |language| ==> language[i] != '\n'
    requires forall i :: 0 <= i < |body| ==> IsLine(body[i]) && body[i][|body[i]| - 1] == '\n'
    ensures var block := "```" + language + "\n" + Concat(body) + "```\n";
      (NewSourceCodeListing(block).Success? ==> Repr(NewSourceCodeListing(block).value) == block)
      && (SlugRule(language).None? ==> NewSourceCodeListing(block).Success?)
  {
    var first := "```" + language + "\n";
    assert forall i :: 0 <= i < |first| - 1 ==> first[i] != '\n' by {
      forall i | 0 <= i < |first| - 1 ensures first[i] != '\n' {
        if i >= 3 {
          assert first[i] == language[i - 3];
        }
      }
    }
    ListingBlockLines(first, body);
    var block := first + Concat(body) + "```\n";
    var lines := [first] + body + ["```\n"];
    assert SplitLinesKeepEnds(block) == lines;
    assert lines[1..|lines| - 1] == body;
    assert InnerCode(lines) == Concat(body);
    TagLineOf(language);
    assert Strip(lines[0]) == "```" + language;
    if NewSourceCodeListing(block).Success? {
      ListingFields(block);
      var b := NewSourceCodeListing(block).value;
      assert b.language == language && !b.ignore && b.code == Concat(body);
      assert Repr(b) == "```" + language + "" + "\n" + Concat(body) + "```\n";
      assert "```" + language + "" == "```" + language;
      assert Repr(b) == block;
    }
    if SlugRule(language).None? {
      AcceptedWithoutSlug(block);
    }
  }

  // ------------------------------------------------------------ line classes

  /** A line that starts a listing. */
  predicate OpensListing(line: string) {
    StartsWith(line, "```")
  }

  /** A line that starts (or continues) a `%%` block. */
  predicate IsCommentMarker(line: string) {
    Strip(line) == "%%"
  }

  /** A line that closes a listing. */
  predicate IsClosingFence(line: string) {
    Strip(line) == "```"
  }

  // ------------------------------------------------------------ MarkdownText.parse

  /** A line that does not interrupt prose: it neither opens a listing nor is a `%%` marker. */
  predicate IsProse(line: string) {
    !OpensListing(line) && !IsCommentMarker(line)
  }

  /**
   * The scan of `MarkdownText.parse` from line `i`, with `textLines`
   * collected so far: the prose joined, and the index of the first line
   * that is not prose (or the end).
   */
  function TextFrom(source: seq<string>, i: nat, textLines: seq<string>): (r: (Block, nat))
    ensures r.0.MarkdownText? && i <= r.1
    ensures i <= |source| ==> r.1 <= |source|
    decreases |source| - i
  {
    if i < |source| && IsProse(source[i]) then TextFrom(source, i + 1, textLines + [source[i]])
    else (MarkdownText(Concat(textLines)), i)
  }

  /** What `MarkdownText.parse(source, start)` returns. */
  function TextStep(source: seq<string>, start: nat): (Block, nat) {
    TextFrom(source, start, [])
  }

  /** `MarkdownText.parse(source, start_line)`. */
  method ParseMarkdownText(source: seq<string>, startLine: nat) returns (block: Block, next: nat)
    ensures (block, next) == TextStep(source, startLine)
  {
    var textLines: seq<string> := [];
    var lineNumber := startLine;
    while lineNumber < |source| && !OpensListing(source[lineNumber])
          && !IsCommentMarker(source[lineNumber])
      invariant TextFrom(source, lineNumber, textLines) == TextStep(source, startLine)
      decreases |source| - lineNumber
    {
      textLines := textLines + [source[lineNumber]];
      lineNumber := lineNumber + 1;
    }
    block := MarkdownText(Concat(textLines));
    next := lineNumber;
  }

  /** Where prose starting at `start` stops: the first line from there on that is not prose, or the end. */
  function TextEnd(source: seq<string>, start: nat): (e: nat)
    ensures start <= e
    ensures start <= |source| ==> e <= |source|
    decreases |source| - start
  {
    if start < |source| && IsProse(source[start]) then TextEnd(source, start + 1) else start
  }

  /** Every line of the prose is prose, and the line that stops it is not. */
  lemma {:induction false} TextEndSpec(source: seq<string>, start: nat)
    ensures forall k :: start <= k < TextEnd(source, start) ==> k < |source| && IsProse(source[k])
    ensures TextEnd(source, start) < |source| ==> !IsProse(source[TextEnd(source, start)])
    decreases |source| - start
  {
    if start < |source| && IsProse(source[start]) {
      TextEndSpec(source, start + 1);
      var e := TextEnd(source, start);
      assert e == TextEnd(source, start + 1);
      forall k | start <= k < e
        ensures k < |source| && IsProse(source[k])
      {
        if k == start {
          assert IsProse(source[start]);
        }
      }
    } else {
      assert TextEnd(source, start) == start;
    }
  }

  /** `MarkdownText.parse` joins the lines from `start` up to where the prose stops, and resumes there. */
  lemma {:induction false} TextStepSpec(source: seq<string>, start: nat)
    requires start <= |source|
    ensures TextStep(source, start)
         == (MarkdownText(Concat(source[start..TextEnd(source, start)])), TextEnd(source, start))
  {
    TextFromSpec(source, start, start);
  }

  lemma {:induction false} TextFromSpec(source: seq<string>, start: nat, i: nat)
    requires start <= i <= |source|
    ensures TextFrom(source, i, source[start..i])
         == (MarkdownText(Concat(source[start..TextEnd(source, i)])), TextEnd(source, i))
    decreases |source| - i
  {
    if i < |source| && IsProse(source[i]) {
      assert source[start..i] + [source[i]] == source[start..i + 1];
      TextFromSpec(source, start, i + 1);
    }
  }

  // ------------------------------------------------------------ SourceCodeListing.parse

  /** A parsed block paired with the index parsing resumes at; an error passes through. */
  function WithNext(block: Result<Block, ParseError>, next: nat): (r: Result<(Block, nat), ParseError>)
    ensures r.Success? <==> block.Success?
    ensures r.Success? ==> r.value == (block.value, next)
    ensures r.Failure? ==> r.error == block.error
  {
    match block
    case Failure(e) => Failure(e)
    case Success(b) => Success((b, next))
  }

  /**
   * The scan of `SourceCodeListing.parse` from line `i`, with `codeLines`
   * collected so far: the lines of the block up to and including the
   * closing fence, and the index after the fence; none when the source ends
   * first.
   */
  function ListingLines(source: seq<string>, i: nat, codeLines: seq<string>)
    : (r: Option<(seq<string>, nat)>)
    ensures r.Some? ==> i < r.value.1 <= |source|
    decreases |source| - i
  {
    if i >= |source| then None
    else if IsClosingFence(source[i]) then Some((codeLines + [source[i]], i + 1))
    else ListingLines(source, i + 1, codeLines + [source[i]])
  }

  /**
   * What `SourceCodeListing.parse(source, start)` returns: the listing built
   * from the collected lines and the index after the fence, or the
   * ValueError when no fence closes the listing.
   */
  function ListingStep(source: seq<string>, start: nat): (r: Result<(Block, nat), ParseError>)
    ensures r.Success? ==> r.value.0.SourceCodeListing? && start + 1 < r.value.1 <= |source|
  {
    match ListingLines(source, start + 1, [])
    case None => Failure(UnmatchedCodeBlock(start))
    case Some((lines, next)) => WithNext(NewSourceCodeListing(Concat(lines)), next)
  }

  /** `SourceCodeListing.parse(source, start_line)`. */
  method ParseSourceCodeListing(source: seq<string>, startLine: nat)
    returns (r: Result<(Block, nat), ParseError>)
    ensures r == ListingStep(source, startLine)
  {
    var codeLines: seq<string> := [];
    var lineNumber := startLine + 1;
    while lineNumber < |source| && !IsClosingFence(source[lineNumber])
      invariant ListingLines(source, lineNumber, codeLines) == ListingLines(source, startLine + 1, [])
      decreases |source| - lineNumber
    {
      codeLines := codeLines + [source[lineNumber]];
      lineNumber := lineNumber + 1;
    }
    if lineNumber >= |source| {
      return Failure(UnmatchedCodeBlock(startLine));
    }
    codeLines := codeLines + [source[lineNumber]];  // the closing fence is part of the block
    r := WithNext(NewSourceCodeListing(Concat(codeLines)), lineNumber + 1);
  }

  /** The first line at or after `from` that closes a listing, if any. */
  function ClosingFence(source: seq<string>, from: nat): (r: Option<nat>)
    ensures r.Some? ==> from <= r.value < |source|
    decreases |source| - from
  {
    if from >= |source| then None
    else if IsClosingFence(source[from]) then Some(from)
    else ClosingFence(source, from + 1)
  }

  /** The fence found is the first closing line at or after `from`; none is found only when there is none. */
  lemma {:induction false} ClosingFenceSpec(source: seq<string>, from: nat)
    ensures ClosingFence(source, from).Some? ==>
      IsClosingFence(source[ClosingFence(source, from).value])
      && forall k :: from <= k < ClosingFence(source, from).value ==> !IsClosingFence(source[k])
    ensures ClosingFence(source, from).None? ==>
      forall k :: from <= k < |source| ==> !IsClosingFence(source[k])
    decreases |source| - from
  {
    if from < |source| && !IsClosingFence(source[from]) {
      ClosingFenceSpec(source, from + 1);
      assert ClosingFence(source, from) == ClosingFence(source, from + 1);
    } else if from < |source| {
      assert ClosingFence(source, from) == Some(from);
    }
  }

  /**
   * `SourceCodeListing.parse` collects the lines after the opening one up to
   * and including the first closing fence, and resumes after the fence;
   * without a closing fence it collects nothing.
   */
  lemma ListingLinesSpec(source: seq<string>, start: nat)
    ensures ListingLines(source, start + 1, []) ==
      match ClosingFence(source, start + 1)
      case None => None
      case Some(k) => Some((source[start + 1..k + 1], k + 1))
  {
    if start + 1 <= |source| {
      assert source[start + 1..start + 1] == [];
      ListingLinesFromSpec(source, start, start + 1);
    }
  }

  lemma {:induction false} ListingLinesFromSpec(source: seq<string>, start: nat, i: nat)
    requires start + 1 <= i <= |source|
    ensures ListingLines(source, i, source[start + 1..i]) ==
      match ClosingFence(source, i)
      case None => None
      case Some(k) => Some((source[start + 1..k + 1], k + 1))
    decreases |source| - i
  {
    if i < |source| {
      assert source[start + 1..i] + [source[i]] == source[start + 1..i + 1];
      if !IsClosingFence(source[i]) {
        ListingLinesFromSpec(source, start, i + 1);
      }
    }
  }

  // ------------------------------------------------------------ CodePath.parse

  /**
   * The loop of `CodePath.parse` from line `i`, with `comment` collected so
   * far: take the line, and stop after it unless it is a `%%` marker; the
   * IndexError when the source ends first.
   */
  function CodePathFrom(source: seq<string>, i: nat, comment: seq<string>)
    : (r: Result<(Block, nat), ParseError>)
    ensures r.Success? ==> r.value.0.CodePath? && r.value.0.path == None && i < r.value.1 <= |source|
    decreases |source| - i
  {
    if i >= |source| then Failure(IndexOutOfRange)
    else if !IsCommentMarker(source[i]) then Success((CodePath(comment + [source[i]], None), i + 1))
    else CodePathFrom(source, i + 1, comment + [source[i]])
  }

  /** What `CodePath.parse(source, start)` returns; `path` is never set. */
  function CodePathStep(source: seq<string>, start: nat): Result<(Block, nat), ParseError> {
    if start >= |source| then Failure(IndexOutOfRange)
    else CodePathFrom(source, start + 1, [source[start]])
  }

  /** `CodePath.parse(source, start_line)`: append a line, then stop if it was not `%%`. */
  method ParseCodePath(source: seq<string>, startLine: nat)
    returns (r: Result<(Block, nat), ParseError>)
    ensures r == CodePathStep(source, startLine)
  {
    if startLine >= |source| {
      return Failure(IndexOutOfRange);
    }
    var comment := [source[startLine]];
    var lineN := startLine + 1;
    var stop := false;
    while !stop
      invariant startLine + 1 <= lineN <= |source|
      invariant !stop ==> CodePathFrom(source, lineN, comment) == CodePathStep(source, startLine)
      invariant stop ==> CodePathStep(source, startLine) == Success((CodePath(comment, None), lineN))
      decreases |source| - lineN, if stop then 0 else 1
    {
      if lineN >= |source| {
        return Failure(IndexOutOfRange);
      }
      comment := comment + [source[lineN]];
      lineN := lineN + 1;
      stop := !IsCommentMarker(comment[|comment| - 1]);
    }
    r := Success((CodePath(comment, None), lineN));
  }

  /** The first line at or after `from` that is not a `%%` marker, if any. */
  function CommentEnd(source: seq<string>, from: nat): (r: Option<nat>)
    ensures r.Some? ==> from <= r.value < |source|
    decreases |source| - from
  {
    if from >= |source| then None
    else if !IsCommentMarker(source[from]) then Some(from)
    else CommentEnd(source, from + 1)
  }

  /** The line found is the first non-`%%` line at or after `from`; none is found only when every later line is `%%`. */
  lemma {:induction false} CommentEndSpec(source: seq<string>, from: nat)
    ensures CommentEnd(source, from).Some? ==>
      !IsCommentMarker(source[CommentEnd(source, from).value])
      && forall k :: from <= k < CommentEnd(source, from).value ==> IsCommentMarker(source[k])
    ensures CommentEnd(source, from).None? ==>
      forall k :: from <= k < |source| ==> IsCommentMarker(source[k])
    decreases |source| - from
  {
    if from < |source| && IsCommentMarker(source[from]) {
      CommentEndSpec(source, from + 1);
      assert CommentEnd(source, from) == CommentEnd(source, from + 1);
    } else if from < |source| {
      assert CommentEnd(source, from) == Some(from);
    }
  }

  /**
   * `CodePath.parse` keeps the opening line and every following line up to
   * and including the first that is not `%%`, and resumes after it; when the
   * source ends first it raises the IndexError.
   */
  lemma CodePathStepSpec(source: seq<string>, start: nat)
    requires start < |source|
    ensures CodePathStep(source, start) ==
      match CommentEnd(source, start + 1)
      case None => Failure(IndexOutOfRange)
      case Some(k) => Success((CodePath(source[start..k + 1], None), k + 1))
  {
    assert source[start..start + 1] == [source[start]];
    CodePathFromSpec(source, start, start + 1);
  }

  lemma {:induction false} CodePathFromSpec(source: seq<string>, start: nat, i: nat)
    requires start < i <= |source|
    ensures CodePathFrom(source, i, source[start..i]) ==
      match CommentEnd(source, i)
      case None => Failure(IndexOutOfRange)
      case Some(k) => Success((CodePath(source[start..k + 1], None), k + 1))
    decreases |source| - i
  {
    if i < |source| {
      assert source[start..i] + [source[i]] == source[start..i + 1];
      if IsCommentMarker(source[i]) {
        CodePathFromSpec(source, start, i + 1);
      }
    }
  }

  // ------------------------------------------------------------ MarkdownFile.parse

  /** One dispatch of `MarkdownFile.parse` on the line at `i`. */
  function Step(source: seq<string>, i: nat): (r: Result<(Block, nat), ParseError>)
    requires i < |source|
    ensures r.Success? ==> i < r.value.1 <= |source|
    ensures r.Success? ==> (r.value.0.SourceCodeListing? <==> OpensListing(source[i]))
    ensures r.Success? ==>
      (r.value.0.CodePath? <==> !OpensListing(source[i]) && IsCommentMarker(source[i]))
    ensures r.Success? && r.value.0.CodePath? ==> r.value.0.path == None
  {
    if OpensListing(source[i]) then ListingStep(source, i)
    else if IsCommentMarker(source[i]) then CodePathStep(source, i)
    else Success(TextStep(source, i))
  }

  /** A block together with the range of lines `[start, end)` it was parsed from. */
  datatype Segment = Segment(block: Block, start: nat, end: nat)

  /** The blocks parsed from line `i` onwards, with their line ranges, or the first error. */
  function Segments(source: seq<string>, i: nat): Result<seq<Segment>, ParseError>
    decreases |source| - i
  {
    if i >= |source| then Success([])
    else
      match Step(source, i)
      case Failure(e) => Failure(e)
      case Success((b, j)) =>
        match Segments(source, j)
        case Failure(e) => Failure(e)
        case Success(rest) => Success([Segment(b, i, j)] + rest)
  }

  /** The blocks of a run of segments, in order. */
  function Blocks(segs: seq<Segment>): (bs: seq<Block>)
  {
    if segs == [] then [] else [segs[0].block] + Blocks(segs[1..])
  }

  /** `list(MarkdownFile.parse(source))`: every block, or the exception that stops the generator. */
  function ParseDocument(source: seq<string>): Result<seq<Block>, ParseError> {
    match Segments(source, 0)
    case Failure(e) => Failure(e)
    case Success(segs) => Success(Blocks(segs))
  }

  /** `blocks` followed by what parsing from some line on yields. */
  function Prefixed(blocks: seq<Block>, rest: Result<seq<Segment>, ParseError>): Result<seq<Block>, ParseError> {
    match rest
    case Failure(e) => Failure(e)
    case Success(segs) => Success(blocks + Blocks(segs))
  }

  /** Taking one more block off the front of the rest keeps `blocks ++ rest` the same. */
  lemma PrefixedStep(source: seq<string>, blocks: seq<Block>, i: nat)
    requires i < |source| && Step(source, i).Success?
    ensures Prefixed(blocks, Segments(source, i))
         == Prefixed(blocks + [Step(source, i).value.0], Segments(source, Step(source, i).value.1))
  {
    var (block, next) := Step(source, i).value;
    match Segments(source, next)
    case Failure(e) =>
      assert Segments(source, i) == Failure(e);
    case Success(rest) =>
      var segs := [Segment(block, i, next)] + rest;
      assert Segments(source, i) == Success(segs);
      assert segs[1..] == rest;
      assert Blocks(segs) == [block] + Blocks(rest);
      assert blocks + ([block] + Blocks(rest)) == (blocks + [block]) + Blocks(rest);
  }

  /** `MarkdownFile.parse(source)`: dispatch on each line and advance to the index the sub-parser returns. */
  method Parse(source: seq<string>) returns (r: Result<seq<Block>, ParseError>)
    ensures r == ParseDocument(source)
  {
    ghost var document := ParseDocument(source);
    var blocks: seq<Block> := [];
    var lineNumber := 0;
    assert document == Prefixed([], Segments(source, 0)) by {
      if Segments(source, 0).Success? {
        assert [] + Blocks(Segments(source, 0).value) == Blocks(Segments(source, 0).value);
      }
    }
    while lineNumber < |source|
      invariant lineNumber <= |source|
      invariant document == Prefixed(blocks, Segments(source, lineNumber))
      decreases |source| - lineNumber
    {
      var line := source[lineNumber];
      var step: Result<(Block, nat), ParseError>;
      if OpensListing(line) {
        step := ParseSourceCodeListing(source, lineNumber);
      } else if IsCommentMarker(line) {
        step := ParseCodePath(source, lineNumber);
      } else {
        var text, next := ParseMarkdownText(source, lineNumber);
        step := Success((text, next));
      }
      assert step == Step(source, lineNumber);
      if step.Failure? {
        assert Segments(source, lineNumber) == Failure(step.error);
        return Failure(step.error);
      }
      var (block, next) := step.value;
      PrefixedStep(source, blocks, lineNumber);
      blocks := blocks + [block];
      lineNumber := next;
    }
    assert Segments(source, lineNumber) == Success([]);
    assert blocks + Blocks([]) == blocks;
    r := Success(blocks);
  }

  // ------------------------------------------------------------ tiling

  /**
   * The segments cover lines `[from, to)` back to back in order; each is
   * non-empty and holds the block that one dispatch at its first line yields.
   */
  predicate Tiles(source: seq<string>, segs: seq<Segment>, from: nat, to: nat)
    decreases |segs|
  {
    if segs == [] then from == to
    else
      segs[0].start == from < segs[0].end && from < |source|
      && Step(source, from) == Success((segs[0].block, segs[0].end))
      && Tiles(source, segs[1..], segs[0].end, to)
  }

  /** Parsing from line `i` either fails or cuts `[i, |source|)` into tiles. */
  lemma {:induction false} SegmentsTile(source: seq<string>, i: nat)
    requires i <= |source|
    ensures Segments(source, i).Success? ==> Tiles(source, Segments(source, i).value, i, |source|)
    decreases |source| - i
  {
    if i < |source| && Step(source, i).Success? {
      var (b, j) := Step(source, i).value;
      SegmentsTile(source, j);
      if Segments(source, j).Success? {
        var segs := [Segment(b, i, j)] + Segments(source, j).value;
        assert Segments(source, i) == Success(segs);
        assert segs[1..] == Segments(source, j).value;
      }
    }
  }

  /**
   * A failed parse reports the error of the first dispatch that fails: the
   * lines before it are cut into tiles by successful dispatches, and the
   * dispatch at the line where they end raises the error.
   */
  lemma {:induction false} SegmentsFailure(source: seq<string>, i: nat)
    requires Segments(source, i).Failure?
    ensures exists segs: seq<Segment>, k: nat ::
              i <= k < |source| && Tiles(source, segs, i, k)
              && Step(source, k) == Failure(Segments(source, i).error)
    decreases |source| - i
  {
    var e := Segments(source, i).error;
    if Step(source, i).Success? {
      var (b, j) := Step(source, i).value;
      SegmentsFailure(source, j);
      var segs: seq<Segment>, k: nat :| j <= k < |source| && Tiles(source, segs, j, k) && Step(source, k) == Failure(e);
      var all := [Segment(b, i, j)] + segs;
      assert all[1..] == segs;
      assert Tiles(source, all, i, k);
    } else {
      assert Tiles(source, [], i, i);
    }
  }

  /** There is one block per segment, in segment order. */
  lemma {:induction false} BlocksSpec(segs: seq<Segment>)
    ensures |Blocks(segs)| == |segs|
    ensures forall j :: 0 <= j < |segs| ==> Blocks(segs)[j] == segs[j].block
  {
    if segs != [] {
      BlocksSpec(segs[1..]);
    }
  }

  /**
   * `MarkdownFile.parse` either yields the blocks of a tiling of the whole
   * source, one per tile, each of the kind its first line selects, or raises
   * the error of the dispatch at the line where a tiling of the lines before
   * it ends.
   */
  lemma ParseDocumentTiles(source: seq<string>)
    ensures ParseDocument(source).Success? ==>
      Tiles(source, Segments(source, 0).value, 0, |source|)
      && ParseDocument(source).value == Blocks(Segments(source, 0).value)
    ensures ParseDocument(source).Failure? ==>
      exists segs: seq<Segment>, k: nat ::
        k < |source| && Tiles(source, segs, 0, k)
        && Step(source, k) == Failure(ParseDocument(source).error)
  {
    SegmentsTile(source, 0);
    if ParseDocument(source).Failure? {
      SegmentsFailure(source, 0);
    }
  }

  /** A source of prose lines only parses to a single text block holding all of it. */
  lemma ProseOnly(source: seq<string>)
    requires source != []
    requires forall k :: 0 <= k < |source| ==> IsProse(source[k])
    ensures ParseDocument(source) == Success([MarkdownText(Concat(source))])
  {
    ProseRunsToEnd(source, 0);
    TextStepSpec(source, 0);
    assert source[0..|source|] == source;
    assert IsProse(source[0]);
    assert Step(source, 0) == Success(TextStep(source, 0));
    SingleStep(source, MarkdownText(Concat(source)));
  }

  /** Prose that is never interrupted runs to the end of the source. */
  lemma {:induction false} ProseRunsToEnd(source: seq<string>, start: nat)
    requires start <= |source|
    requires forall k :: start <= k < |source| ==> IsProse(source[k])
    ensures TextEnd(source, start) == |source|
    decreases |source| - start
  {
    if start < |source| {
      ProseRunsToEnd(source, start + 1);
    }
  }

  /** A source whose first dispatch consumes every line parses to that one block. */
  lemma SingleStep(source: seq<string>, b: Block)
    requires source != [] && Step(source, 0) == Success((b, |source|))
    ensures ParseDocument(source) == Success([b])
  {
    var seg := Segment(b, 0, |source|);
    assert Segments(source, |source|) == Success([]);
    assert [seg] + [] == [seg];
    assert Segments(source, 0) == Success([seg]);
    assert [seg][1..] == [];
    assert [b] + [] == [b];
    assert Blocks([seg]) == [b];
  }

  /** A text block re-serialises to exactly the lines it was parsed from. */
  lemma TextBlockRepr(source: seq<string>, i: nat)
    requires i < |source| && IsProse(source[i])
    ensures Step(source, i).Success? && Step(source, i).value.0.MarkdownText?
    ensures Repr(Step(source, i).value.0) == Concat(source[i..Step(source, i).value.1])
  {
    TextStepSpec(source, i);
  }

  /** Every `%%` block the parser yields leaves `path` unset, so it re-serialises as "code: None". */
  lemma {:induction false} CodePathsUnset(source: seq<string>, i: nat)
    requires Segments(source, i).Success?
    ensures forall seg :: seg in Segments(source, i).value && seg.block.CodePath? ==>
      seg.block.path == None && Repr(seg.block) == "%%\ncode: None\n%%\n"
    decreases |source| - i
  {
    if i < |source| {
      var (b, j) := Step(source, i).value;
      CodePathsUnset(source, j);
      assert Segments(source, i).value == [Segment(b, i, j)] + Segments(source, j).value;
    }
  }

  /** No `%%` block of a parsed document has its `path` set. */
  lemma DocumentCodePathsUnset(source: seq<string>)
    ensures ParseDocument(source).Success? ==>
      forall b :: b in ParseDocument(source).value && b.CodePath? ==>
        b.path == None && Repr(b) == "%%\ncode: None\n%%\n"
  {
    if ParseDocument(source).Success? {
      var segs := Segments(source, 0).value;
      CodePathsUnset(source, 0);
      BlocksSpec(segs);
      forall b | b in Blocks(segs) && b.CodePath?
        ensures b.path == None && Repr(b) == "%%\ncode: None\n%%\n"
      {
        var j :| 0 <= j < |segs| && Blocks(segs)[j] == b;
        assert segs[j] in segs;
      }
    }
  }

  // ------------------------------------------------------------ examples

  /**
   * The block a python listing is reduced to once its opening fence is
   * dropped is read with the slug line as the tag line: the language comes
   * out as ".py", which has no slug rule, so it is accepted with no source
   * file name, and only the line before the closing fence is code.
   */
  lemma SlugLineReadAsTagLine(block: string)
    requires block == "# a.py\nprint(1)\n```\n"
    ensures NewSourceCodeListing(block) == Success(SourceCodeListing(block, ".py", "", "print(1)\n", false))
  {
    var first := "# a.py\n";
    var body := ["print(1)\n"];
    ConcatSingle("print(1)\n");
    assert block == first + Concat(body) + "```\n";
    ListingBlockLines(first, body);
    var lines := [first] + body + ["```\n"];
    assert SplitLinesKeepEnds(block) == lines && lines[0] == first;
    ExampleTagLine(first);
    AcceptedWithoutSlug(block);
    ListingFields(block);
    assert lines[1..|lines| - 1] == body;
  }

  /** The slug line of the example, read as a tag line, names the language ".py", which has no slug rule. */
  lemma ExampleTagLine(first: string)
    requires first == "# a.py\n"
    ensures Strip(first) == "# a.py" && !EndsWith("# a.py", "!")
    ensures LanguageOf("# a.py") == ".py" && SlugRule(".py").None?
  {
    StripLineEnd(first);
    assert first[..6] == "# a.py";
    assert RStripChar("# a.py", '!') == "# a.py";
    assert Drop("# a.py", 3) == ".py";
    VisibleAsciiNotSpace('.');
    VisibleAsciiNotSpace('y');
    StripUnchanged(".py");
  }

  /** The first line at or after 1 of the example listing that strips to "```" is line 3. */
  lemma ExampleClosingFence(source: seq<string>)
    requires source == ["```python\n", "# a.py\n", "print(1)\n", "```\n"]
    ensures ClosingFence(source, 1) == Some(3)
  {
    StripLineEnd(source[1]);
    StripLineEnd(source[2]);
    StripLineEnd(source[3]);
    assert source[3][..3] == "```";
    assert ClosingFence(source, 3) == Some(3);
    assert ClosingFence(source, 2) == Some(3);
  }

  /**
   * A whole python listing parses as one block from which the opening fence
   * is missing, so its slug line is taken as the tag line.
   */
  lemma OpeningFenceDropped(source: seq<string>)
    requires source == ["```python\n", "# a.py\n", "print(1)\n", "```\n"]
    ensures ParseDocument(source)
         == Success([SourceCodeListing("# a.py\nprint(1)\n```\n", ".py", "", "print(1)\n", false)])
  {
    ExampleClosingFence(source);
    var block := ExampleBlock(source);
    SlugLineReadAsTagLine(block);
    assert OpensListing(source[0]);
    ListingOnlyDocument(source);
  }

  /** The lines after the example's opening fence, joined. */
  lemma ExampleBlock(source: seq<string>) returns (block: string)
    requires source == ["```python\n", "# a.py\n", "print(1)\n", "```\n"]
    ensures block == Concat(source[1..]) == "# a.py\nprint(1)\n```\n"
  {
    assert source[1..] == [source[1]] + [source[2]] + [source[3]];
    ListingBlockConcat(source[1], [source[2]]);
    ConcatSingle(source[2]);
    block := Concat(source[1..]);
  }

  /**
   * A source that opens a listing on its first line and closes it only on
   * its last parses to the one listing built from every line but the first.
   */
  lemma ListingOnlyDocument(source: seq<string>)
    requires |source| >= 2 && OpensListing(source[0])
    requires ClosingFence(source, 1) == Some(|source| - 1)
    ensures ParseDocument(source) == match NewSourceCodeListing(Concat(source[1..]))
      case Failure(e) => Failure(e)
      case Success(b) => Success([b])
  {
    var r := NewSourceCodeListing(Concat(source[1..]));
    WholeListingStep(source);
    if r.Success? {
      SingleStep(source, r.value);
    } else {
      assert Segments(source, 0) == Failure(r.error);
    }
  }

  /** The first dispatch on such a source hands every line but the first to the constructor and resumes at the end. */
  lemma WholeListingStep(source: seq<string>)
    requires |source| >= 2 && OpensListing(source[0])
    requires ClosingFence(source, 1) == Some(|source| - 1)
    ensures Step(source, 0) == WithNext(NewSourceCodeListing(Concat(source[1..])), |source|)
  {
    ListingLinesSpec(source, 0);
    assert source[1..|source|] == source[1..];
    assert ListingLines(source, 1, []) == Some((source[1..], |source|));
  }

  /**
   * A `%%` block stops at its first line that is not `%%`, so the closing
   * `%%` of a comment starts a new block, which runs off the end of the
   * source and raises the IndexError.
   */
  lemma ClosingMarkerReopens(source: seq<string>)
    requires source == ["%%\n", "path: /tmp/src\n", "%%\n"]
    ensures Step(source, 0) == Success((CodePath([source[0], source[1]], None), 2))
    ensures ParseDocument(source) == Failure(IndexOutOfRange)
  {
    MarkerLine(source[0]);
    MarkerLine(source[2]);
    PathLine(source[1]);
    assert CodePathFrom(source, 3, [source[2]]) == Failure(IndexOutOfRange);
    assert Step(source, 2) == Failure(IndexOutOfRange);
    assert Segments(source, 2) == Failure(IndexOutOfRange);
    assert [source[0]] + [source[1]] == [source[0], source[1]];
    assert CodePathFrom(source, 1, [source[0]]) == Success((CodePath([source[0], source[1]], None), 2));
  }

  /** A `%%` line is a marker and does not open a listing. */
  lemma MarkerLine(l: string)
    requires l == "%%\n"
    ensures IsCommentMarker(l) && !OpensListing(l)
  {
    StripLineEnd(l);
    assert l[..2] == "%%";
  }

  /** The example's `path:` line is not a marker. */
  lemma PathLine(l: string)
    requires l == "path: /tmp/src\n"
    ensures !IsCommentMarker(l)
  {
    StripLineEnd(l);
  }

  /** A listing with no closing fence raises the ValueError naming the line it opened on. */
  lemma UnclosedListing(source: seq<string>)
    requires source == ["```python\n", "# a.py\n"]
    ensures ParseDocument(source) == Failure(UnmatchedCodeBlock(0))
  {
    StripLineEnd(source[1]);
    assert ClosingFence(source, 2) == None;
    assert ClosingFence(source, 1) == None;
    ListingLinesSpec(source, 0);
    assert OpensListing(source[0]);
    assert Step(source, 0) == Failure(UnmatchedCodeBlock(0));
  }

  // ------------------------------------------------------------ code_listings, code_paths

  /** `code_listings()`: the listings among the blocks, in document order. */
  function CodeListings(blocks: seq<Block>): (r: seq<Block>)
    ensures forall b :: b in r <==> b in blocks && b.SourceCodeListing?
  {
    if blocks == [] then []
    else (if blocks[0].SourceCodeListing? then [blocks[0]] else []) + CodeListings(blocks[1..])
  }

  /** `code_paths()`: the `%%` blocks among the blocks, in document order. */
  function CodePaths(blocks: seq<Block>): (r: seq<Block>)
    ensures forall b :: b in r <==> b in blocks && b.CodePath?
  {
    if blocks == [] then []
    else (if blocks[0].CodePath? then [blocks[0]] else []) + CodePaths(blocks[1..])
  }

  /** `code_listings` of consecutive runs of blocks is the listings of each run, in order. */
  lemma {:induction false} CodeListingsAppend(a: seq<Block>, b: seq<Block>)
    ensures CodeListings(a + b) == CodeListings(a) + CodeListings(b)
  {
    if a == [] {
      assert a + b == b;
    } else {
      assert (a + b)[1..] == a[1..] + b;
      CodeListingsAppend(a[1..], b);
    }
  }

  /** `code_paths` of consecutive runs of blocks is the `%%` blocks of each run, in order. */
  lemma {:induction false} CodePathsAppend(a: seq<Block>, b: seq<Block>)
    ensures CodePaths(a + b) == CodePaths(a) + CodePaths(b)
  {
    if a == [] {
      assert a + b == b;
    } else {
      assert (a + b)[1..] == a[1..] + b;
      CodePathsAppend(a[1..], b);
    }
  }
}
