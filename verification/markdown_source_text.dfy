/**
 * `MarkdownSourceText` of markdown_source_text.py: a Markdown file held as
 * its lines, delivered one at a time through a cursor, with the file's path
 * kept for error messages.
 */
module MarkdownSourceText {
  import opened Wrappers
  import opened PyStr

  /** The index of the last `c` in `s`, if any. */
  function LastIndexOf(s: string, c: char): (r: Option<nat>)
    ensures r.Some? ==> r.value < |s| && s[r.value] == c
    ensures r.Some? ==> forall k :: r.value < k < |s| ==> s[k] != c
    ensures r.None? ==> forall k :: 0 <= k < |s| ==> s[k] != c
  {
    if s == [] then None
    else if s[|s| - 1] == c then Some(|s| - 1)
    else LastIndexOf(s[..|s| - 1], c)
  }

  /** `Path.name`: the part of the path after its last "/". */
  function Name(path: string): string {
    match LastIndexOf(path, '/')
    case None => path
    case Some(i) => path[i + 1..]
  }

  /**
   * `Path.suffix`: the name from its last "." on, provided that dot is
   * neither the name's first nor its last character; "" otherwise.
   */
  function Suffix(path: string): string {
    var name := Name(path);
    match LastIndexOf(name, '.')
    case Some(i) => if 0 < i < |name| - 1 then name[i..] else ""
    case None => ""
  }

  /**
   * A path has the suffix ".md" exactly when its name ends with ".md" and
   * is more than that: "notes.md" qualifies, ".md" alone, "notes.MD" and
   * "notes.md.bak" do not.
   */
  lemma SuffixMd(path: string)
    ensures Suffix(path) == ".md" <==> EndsWith(Name(path), ".md") && |Name(path)| > 3
  {
    var name := Name(path);
    if EndsWith(name, ".md") && |name| > 3 {
      assert name[|name| - 3] == '.' && name[|name| - 2] != '.' && name[|name| - 1] != '.';
      assert LastIndexOf(name, '.') == Some(|name| - 3);
      assert name[|name| - 3..] == ".md";
    }
    if Suffix(path) == ".md" {
      var i := LastIndexOf(name, '.').value;
      assert name[i..] == ".md";
      assert i == |name| - 3;
    }
  }

  /** What the constructor learns about `file_path` from the file system: whether it exists, whether it is a directory, and its text. */
  datatype FileStatus = FileStatus(present: bool, isDir: bool, text: string)

  /** `_assert_true`'s message: the path in brackets, a space, then `msg`. */
  function ErrorMessage(path: string, msg: string): string {
    "ERROR [" + path + "] " + msg
  }

  /**
   * The exit `__post_init__` raises, if any: the checks run in the order
   * existence, directory, suffix, and the first that fails is reported.
   */
  function OpenError(path: string, status: FileStatus): (r: Option<string>)
    ensures r.None? <==> status.present && !status.isDir && Suffix(path) == ".md"
    ensures !status.present ==> r == Some(ErrorMessage(path, "does not exist"))
    ensures status.present && status.isDir ==> r == Some(ErrorMessage(path, "is a directory"))
    ensures status.present && !status.isDir && Suffix(path) != ".md" ==>
      r == Some(ErrorMessage(path, "does not end with '.md'"))
  {
    if !status.present then Some(ErrorMessage(path, "does not exist"))
    else if status.isDir then Some(ErrorMessage(path, "is a directory"))
    else if Suffix(path) != ".md" then Some(ErrorMessage(path, "does not end with '.md'"))
    else None
  }

  class MarkdownSourceText {
    var filePath: string
    var originalMarkdown: string
    var lines: seq<string>
    var currentLineNumber: int
    var startOfBlock: int

    /** The lines are the text split with their line ends kept, and the cursor stays within them. */
    ghost predicate Valid()
      reads this
    {
      lines == SplitLinesKeepEnds(originalMarkdown) && 0 <= currentLineNumber <= |lines|
    }

    /** The object `__post_init__` leaves behind once its checks pass: the text split into lines, the cursor at the start. */
    constructor (filePath: string, text: string)
      ensures Valid()
      ensures this.filePath == filePath && originalMarkdown == text
      ensures lines == SplitLinesKeepEnds(text) && Concat(lines) == text
      ensures currentLineNumber == 0 && startOfBlock == 0
    {
      this.filePath := filePath;
      originalMarkdown := text;
      lines := SplitLinesKeepEnds(text);
      currentLineNumber := 0;
      startOfBlock := 0;
      ConcatSplitLinesKeepEnds(text);
    }

    /** `MarkdownSourceText(file_path)`: the checks of `__post_init__`, then the text read and split. */
    static method Open(filePath: string, status: FileStatus) returns (r: Result<MarkdownSourceText, string>)
      ensures r.Failure? <==> OpenError(filePath, status).Some?
      ensures r.Failure? ==> r.error == OpenError(filePath, status).value
      ensures r.Success? ==> fresh(r.value) && r.value.Valid() && r.value.filePath == filePath
                             && r.value.originalMarkdown == status.text && r.value.currentLineNumber == 0
    {
      var error := OpenError(filePath, status);
      if error.Some? {
        return Failure(error.value);
      }
      var text := new MarkdownSourceText(filePath, status.text);
      r := Success(text);
    }

    /** `__bool__`: whether a line is left to deliver. */
    predicate HasNext()
      reads this
    {
      currentLineNumber < |lines|
    }

    /** `current_line()`: the line `__next__` would deliver, without moving the cursor, or None past the end. */
    function CurrentLine(): (r: Option<string>)
      reads this
      requires Valid()
      ensures r.Some? <==> HasNext()
      ensures r.Some? ==> r.value == lines[currentLineNumber]
    {
      if currentLineNumber >= |lines| then None else Some(lines[currentLineNumber])
    }

    /**
     * `__next__`: the current line, with the cursor moved on by one; at the
     * end, StopIteration (None) with the cursor left where it is.
     */
    method Next() returns (line: Option<string>)
      requires Valid()
      modifies this
      ensures Valid()
      ensures line == old(CurrentLine())
      ensures currentLineNumber == if old(HasNext()) then old(currentLineNumber) + 1 else old(currentLineNumber)
      ensures filePath == old(filePath) && originalMarkdown == old(originalMarkdown)
      ensures lines == old(lines) && startOfBlock == old(startOfBlock)
    {
      if currentLineNumber >= |lines| {
        return None;
      }
      line := Some(lines[currentLineNumber]);
      currentLineNumber := currentLineNumber + 1;
    }

    /**
     * `assert_true(condition, msg)`: nothing when the condition holds,
     * otherwise the exit whose message names the file and the line where the
     * current block started.
     */
    method AssertTrue(condition: bool, msg: string) returns (exit: Option<string>)
      ensures exit.None? <==> condition
      ensures exit.Some? ==>
        exit.value == ErrorMessage(filePath, " at line " + IntToDecimal(startOfBlock) + ":\n" + msg)
    {
      var startErr := " at line " + IntToDecimal(startOfBlock) + ":\n";
      exit := None;
      if !condition {
        exit := Some(ErrorMessage(filePath, startErr + msg));
      }
    }
  }

  /**
   * The message `assert_true` raises has two spaces between the bracketed
   * path and "at": one from `_assert_true`, one at the head of the line note.
   */
  lemma AssertMessageShape(path: string, line: int, msg: string)
    ensures StartsWith(ErrorMessage(path, " at line " + IntToDecimal(line) + ":\n" + msg),
                       "ERROR [" + path + "]  at line ")
    ensures EndsWith(ErrorMessage(path, " at line " + IntToDecimal(line) + ":\n" + msg), ":\n" + msg)
  {
    MessageParts(path, IntToDecimal(line), msg);
  }

  /** `AssertMessageShape` for any text in place of the line number. */
  lemma MessageParts(path: string, number: string, msg: string)
    ensures StartsWith(ErrorMessage(path, " at line " + number + ":\n" + msg), "ERROR [" + path + "]  at line ")
    ensures EndsWith(ErrorMessage(path, " at line " + number + ":\n" + msg), ":\n" + msg)
  {
    var head := "ERROR [" + path + "]  at line ";
    var full := ErrorMessage(path, " at line " + number + ":\n" + msg);
    assert full == head + (number + ":\n" + msg);
    PrefixOfConcat(head, number + ":\n" + msg);
    assert full == (head + number) + (":\n" + msg);
    SuffixOfConcat(head + number, ":\n" + msg);
  }

  /** Delivering every line, one `__next__` at a time, reproduces the file's text. */
  lemma LinesRebuildText(source: MarkdownSourceText)
    requires source.Valid()
    ensures Concat(source.lines) == source.originalMarkdown
    ensures forall i :: 0 <= i < |source.lines| ==> source.lines[i] != ""
  {
    ConcatSplitLinesKeepEnds(source.originalMarkdown);
    SplitLinesKeepEndsWellFormed(source.originalMarkdown);
  }
}
