/**
 * `ErrorReporter` of error_reporter.py: builds an error message out of
 * whatever context is known, and turns a failed condition into the exit
 * raised with that message.
 */
module ErrorReporter {
  import opened Wrappers
  import opened PyStr

  /**
   * The reporter's context. A present `mdSourceFile` is a `Path`, which Python
   * always treats as true; the other fields count only when they are truthy
   * (a non-empty string, a non-zero line). `markdownPart` is the text of the
   * part being analysed.
   */
  datatype Reporter = Reporter(
    mdSourceFile: Option<string>,
    klass: Option<string>,
    functionName: Option<string>,
    contextStart: Option<int>,
    markdownPart: Option<string>)

  function FilePart(r: Reporter): string {
    if r.mdSourceFile.Some? then " in " + r.mdSourceFile.value else ""
  }

  function ClassPart(r: Reporter): string {
    if r.klass.Some? && r.klass.value != "" then " in " + r.klass.value else ""
  }

  function FunctionPart(r: Reporter): string {
    if r.functionName.Some? && r.functionName.value != "" then " in " + r.functionName.value else ""
  }

  function LinePart(r: Reporter): string {
    if r.contextStart.Some? && r.contextStart.value != 0
    then " starting at line " + IntToDecimal(r.contextStart.value)
    else ""
  }

  function MarkdownPart(r: Reporter): string {
    if r.markdownPart.Some? && r.markdownPart.value != "" then "\n" + r.markdownPart.value else ""
  }

  /** The message head: "[ERROR]" and the known context in the order file, class, function, line, part. */
  function Heading(r: Reporter): string {
    "[ERROR]" + FilePart(r) + ClassPart(r) + FunctionPart(r) + LinePart(r) + MarkdownPart(r)
  }

  /** `format_error`: extends the message one known piece of context at a time. */
  method FormatError(reporter: Reporter, msg: string) returns (s: string)
    ensures s == Heading(reporter) + ":\n" + msg
  {
    var m := "[ERROR]";
    if reporter.mdSourceFile.Some? {
      m := m + (" in " + reporter.mdSourceFile.value);
    }
    ghost var h1 := m;
    assert h1 == "[ERROR]" + FilePart(reporter);
    if reporter.klass.Some? && reporter.klass.value != "" {
      m := m + (" in " + reporter.klass.value);
    }
    ghost var h2 := m;
    assert h2 == h1 + ClassPart(reporter);
    if reporter.functionName.Some? && reporter.functionName.value != "" {
      m := m + (" in " + reporter.functionName.value);
    }
    ghost var h3 := m;
    assert h3 == h2 + FunctionPart(reporter);
    if reporter.contextStart.Some? && reporter.contextStart.value != 0 {
      m := m + (" starting at line " + IntToDecimal(reporter.contextStart.value));
    }
    ghost var h4 := m;
    assert h4 == h3 + LinePart(reporter);
    if reporter.markdownPart.Some? && reporter.markdownPart.value != "" {
      m := m + ("\n" + reporter.markdownPart.value);
    }
    assert m == h4 + MarkdownPart(reporter);
    s := m + ":\n" + msg;
  }

  /** Every formatted message begins with "[ERROR]" and ends with ":\n" and the message itself. */
  lemma MessageShape(r: Reporter, msg: string)
    ensures StartsWith(Heading(r) + ":\n" + msg, "[ERROR]")
    ensures EndsWith(Heading(r) + ":\n" + msg, ":\n" + msg)
  {
    var rest := FilePart(r) + ClassPart(r) + FunctionPart(r) + LinePart(r) + MarkdownPart(r);
    PrefixOfConcat("[ERROR]", rest + ":\n" + msg);
    SuffixOfConcat(Heading(r), ":\n" + msg);
    assert Heading(r) + ":\n" + msg == Heading(r) + (":\n" + msg);
  }

  /** `assert_true`: no effect when the condition holds, otherwise the exit carrying `format_error(msg)`. */
  method AssertTrue(reporter: Reporter, condition: bool, msg: string) returns (exit: Option<string>)
    ensures exit.None? <==> condition
    ensures exit.Some? ==> exit.value == Heading(reporter) + ":\n" + msg
  {
    exit := None;
    if !condition {
      var m := FormatError(reporter, msg);
      exit := Some(m);
    }
  }

  /** A line number of zero is left out of the message, exactly as if it were unknown. */
  lemma ZeroLineOmitted(r: Reporter)
    ensures Heading(r.(contextStart := Some(0))) == Heading(r.(contextStart := None))
  {
  }

  /** Empty class and function names are left out, exactly as if they were unknown. */
  lemma EmptyNamesOmitted(r: Reporter)
    ensures Heading(r.(klass := Some(""), functionName := Some("")))
         == Heading(r.(klass := None, functionName := None))
  {
  }

  /** With no context at all the message is "[ERROR]:\n" followed by `msg`. */
  lemma NoContext()
    ensures Heading(Reporter(None, None, None, None, None)) == "[ERROR]"
  {
  }

  /** A known file always appears, first, right after "[ERROR]". */
  lemma FileNamedFirst(r: Reporter, path: string)
    requires r.mdSourceFile == Some(path)
    ensures StartsWith(Heading(r), "[ERROR] in " + path)
  {
    var head := "[ERROR]" + FilePart(r);
    assert head == "[ERROR] in " + path;
    var h1 := head + ClassPart(r);
    var h2 := h1 + FunctionPart(r);
    var h3 := h2 + LinePart(r);
    PrefixOfConcat(head, ClassPart(r));
    PrefixOfConcat(h1, FunctionPart(r));
    PrefixTransitive(h2, h1, head);
    PrefixOfConcat(h2, LinePart(r));
    PrefixTransitive(h3, h2, head);
    PrefixOfConcat(h3, MarkdownPart(r));
    PrefixTransitive(Heading(r), h3, head);
  }
}
