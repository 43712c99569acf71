# markdown_tools, modelled in Dafny

markdown_tools checks the code listings of book manuscripts written in
Markdown. This project models its core:

- `MarkdownFile` (markdown_file.py) cuts a manuscript, held as its lines, into
  three kinds of block:
  - prose (`MarkdownText`);
  - fenced code listings (`SourceCodeListing`), each with its language, its
    ignore flag `!`, its code and the source file named on its "slug line";
  - `%%` comment blocks (`CodePath`).
  It also reproduces each block's `__repr__` and filters the listings and
  comment blocks out of a parsed document.
- `MarkdownSourceText` (markdown_source_text.py) holds a file's text as its
  lines behind a cursor. It is a class whose methods move the cursor.
- `CompareStrings` (compare_strings.py) numbers and classifies the tagged
  lines of a line diff.
- `Languages` (languages.py) is the registry of languages. Lookup is
  first-match, by name or by file extension.
- `ErrorReporter` (error_reporter.py) builds error messages from whatever
  context is known.
- `Util` (util.py) makes the banner line `separator`.
- `VscodeOpen` (vscode_open.py) adds a file to a PowerShell script that
  opens the listed files in VS Code.
- `CheckCodeListings` (check_code_listings.py) lists the checked listings
  of a document.

Two more modules support the others:

- `PyStr` models the Python string operations the code relies on: `strip`,
  `rstrip`, `startswith`, `endswith`, `splitlines`, `join`, `isdigit`,
  `isspace`, and the decimal formatting of integers.
- `Wrappers` holds `Option` and `Result`.

Exceptions become `Result` failures. `typer.Exit` becomes an `Option`
holding the exit message.

Each parser loop of the source is a `method` with a `while` loop. Each one is
proved equal to a recursive function that mirrors the loop. Lemmas then
characterise that function on its own terms:

- the first closing fence;
- the first line that is not `%%`;
- the tiling of the whole source into blocks.

The model follows the code as written, including three behaviours that
come straight from it:

- `SourceCodeListing.parse` hands the constructor the lines after the
  opening fence. The slug line is therefore read as the tag line
  (`OpeningFenceDropped`).
- The closing `%%` of a comment block starts a new comment block
  (`ClosingMarkerReopens`).
- `compare_strings` calls `isspace` on the tagged line, so a blank-line
  change is still classified as a content difference (`Classification`).

## Model

A function that only computes a value is listed through the lemmas that
state its properties:
- `MarkdownFile.Repr` models the three `__repr__` methods (markdown_file.py:23-24, 128-136, 170-171). Its rows are `ListingReprRoundTrip`, `TextBlockRepr` and `CodePathsUnset`.
- `MarkdownFile.Separator` (markdown_file.py:8-12) is listed through `MarkdownFile.SeparatorShape` and `MarkdownFile.SeparatorPadding`.
- `Util.Separator` (util.py:4-8) is listed through `Util.SeparatorShape` and `Util.SeparatorPadding`.

| member | source | states |
|---|---|---|
| Languages.Lookup | src/markdown_tools/languages.py:28-35 | The result is the first entry whose name or extension equals the key. The KeyError message is raised exactly when no entry matches. |
| Languages.ContainsIffLookupSucceeds | src/markdown_tools/languages.py:37-41 | `key in Languages` holds exactly when `Languages[key]` does not raise. |
| Languages.NameAndExtensionAgree | src/markdown_tools/languages.py:28-35 | An entry whose name and extension no earlier entry uses is found both by its name and by its extension. |
| Languages.PythonRegistered | src/markdown_tools/languages.py:18-22 | "python" and ".py" both find the first entry, whose comment symbol is "#". |
| Languages.RustRegistered | src/markdown_tools/languages.py:18-22 | "rust" and ".rs" both find the second entry, whose comment symbol is "//". |
| Languages.GoRegistered | src/markdown_tools/languages.py:18-22 | "go" and ".go" both find the third entry, whose comment symbol is "//". |
| Languages.TextNotRegistered | src/markdown_tools/languages.py:18-41 | Looking up "text" raises the KeyError, and "text" is not in the registry. |
| Util.SeparatorShape | src/markdown_tools/util.py:4-8 | The banner starts with `sep_char * 5 + " " + id + " "` and ends with a newline. A head of 50 characters or more gets no padding. |
| Util.SeparatorPadding | src/markdown_tools/util.py:4-8 | With a one-character `sep_char`, everything between the head and the newline is `sep_char`. An id of at most 43 characters gives a 50-character line plus the newline. |
| ErrorReporter.FormatError | src/markdown_tools/error_reporter.py:28-40 | The message is "[ERROR]", then each truthy piece of context in the order file, class, function, line, part, then ":\n" and the message. |
| ErrorReporter.AssertTrue | src/markdown_tools/error_reporter.py:24-26 | There is no exit exactly when the condition holds. Otherwise the exit carries the formatted message. |
| ErrorReporter.MessageShape | src/markdown_tools/error_reporter.py:28-40 | Every message starts with "[ERROR]" and ends with ":\n" followed by the message. |
| ErrorReporter.ZeroLineOmitted | src/markdown_tools/error_reporter.py:36-37 | A context line of 0 is falsy, so it is left out exactly as an unknown line is. |
| ErrorReporter.EmptyNamesOmitted | src/markdown_tools/error_reporter.py:32-35 | Empty class and function names are left out exactly as unknown ones are. |
| ErrorReporter.NoContext | src/markdown_tools/error_reporter.py:29-39 | With no context at all, the heading is just "[ERROR]". |
| ErrorReporter.FileNamedFirst | src/markdown_tools/error_reporter.py:29-31 | A known file always appears first, right after "[ERROR]". |
| MarkdownSourceText.LastIndexOf | src/markdown_tools/markdown_source_text.py:32 | The index found holds the character and no later index does. None means the character does not occur. |
| MarkdownSourceText.SuffixMd | src/markdown_tools/markdown_source_text.py:32 | A path has the suffix ".md" exactly when its name ends with ".md" and is longer than ".md". |
| MarkdownSourceText.OpenError | src/markdown_tools/markdown_source_text.py:22-33 | The checks run in the order existence, directory, suffix. The first failing one gives the exit "ERROR [path] " plus its message. There is no exit exactly when all three pass. |
| MarkdownSourceText.MarkdownSourceText.constructor | src/markdown_tools/markdown_source_text.py:34-37 | The object holds the text and its lines with their ends kept. The lines join back to the text, and the cursor and block start are 0. |
| MarkdownSourceText.MarkdownSourceText.Open | src/markdown_tools/markdown_source_text.py:26-37 | Construction fails exactly when a check fails, with that check's message. Otherwise the new object holds the file's text with the cursor at the start. |
| MarkdownSourceText.MarkdownSourceText.CurrentLine | src/markdown_tools/markdown_source_text.py:49-59 | The result is the line at the cursor. It is present exactly when `__bool__` (the predicate `HasNext`) holds, and is None past the end. |
| MarkdownSourceText.MarkdownSourceText.Next | src/markdown_tools/markdown_source_text.py:42-47 | Returns the current line and moves the cursor on by one. At the end it returns StopIteration (None) and leaves the cursor where it is. Nothing else changes. |
| MarkdownSourceText.MarkdownSourceText.AssertTrue | src/markdown_tools/markdown_source_text.py:61-63 | There is no exit exactly when the condition holds. Otherwise the exit names the file and the line where the block started. |
| MarkdownSourceText.AssertMessageShape | src/markdown_tools/markdown_source_text.py:22-24 | The message has two spaces between the bracketed path and "at line", and ends with ":\n" followed by the message. |
| MarkdownSourceText.LinesRebuildText | src/markdown_tools/markdown_source_text.py:37-47 | Delivering every line reproduces the file's text, and no delivered line is empty. |
| CompareStrings.Compare | src/markdown_tools/compare_strings.py:19-49 | The loop's result equals the left-to-right run of one step per tagged line, starting with both counters at 1. |
| CompareStrings.Counters | src/markdown_tools/compare_strings.py:27-47 | Each counter stands one past the number of lines of its text seen so far. "  " lines move both counters, "- " lines the left one and "+ " lines the right one. |
| CompareStrings.FinalCounters | src/markdown_tools/compare_strings.py:24-31 | When the diff accounts for every line of both texts, each counter ends one past its text's line count. |
| CompareStrings.Reports | src/markdown_tools/compare_strings.py:27-42 | One report per "  ", "- " or "+ " line, in order. Each report starts with its line's tag and ends with the line. "? " hints are not reported. |
| CompareStrings.FormatShape | src/markdown_tools/compare_strings.py:29-42 | A report starts with the tag of the line it reports and ends with that line. |
| CompareStrings.ReportsOnlyGrow | src/markdown_tools/compare_strings.py:24-47 | Running over more lines only appends reports. |
| CompareStrings.StepAppends | src/markdown_tools/compare_strings.py:27-47 | One iteration changes no earlier report. |
| CompareStrings.Numbering | src/markdown_tools/compare_strings.py:27-42 | The report of a line carries the counters as they stood before that line. |
| CompareStrings.Classification | src/markdown_tools/compare_strings.py:22-47 | The result is NONE exactly when no "- " or "+ " line occurs. BLANK_LINES is never the final result, because `isspace` sees the tag. |
| CompareStrings.ResultSticky | src/markdown_tools/compare_strings.py:36-47 | Once the result has left NONE, any longer run ends as CONTENT. |
| CompareStrings.ChangedLine | src/markdown_tools/compare_strings.py:32-47 | A run whose result has left NONE contains a "- " or "+ " line. |
| MarkdownFile.SeparatorShape | src/markdown_tools/markdown_file.py:8-12 | The banner starts with its head `sep_char * 5 + " " + id` and a space, and ends with a newline. A head of 50 characters or more gets a bare space and newline. |
| MarkdownFile.SeparatorPadding | src/markdown_tools/markdown_file.py:8-12 | With a one-character `sep_char`, all padding is `sep_char`. An id of at most 44 characters gives a 52-character line. |
| MarkdownFile.NewSourceCodeListing | src/markdown_tools/markdown_file.py:67-92 | An accepted block is a listing that keeps the original block and has a non-empty language. An ignored listing, or one with no slug rule, has no source file name. |
| MarkdownFile.ListingFields | src/markdown_tools/markdown_file.py:68-75 | An accepted listing's ignore flag says whether the stripped first line ends with "!". Its language is read off that line, and its code is the lines strictly between the first and the last. |
| MarkdownFile.ListingRejections | src/markdown_tools/markdown_file.py:68-79 | The IndexError is raised exactly for an empty block. The empty-language assertion fails exactly when the language read is empty. |
| MarkdownFile.AcceptedWithoutSlug | src/markdown_tools/markdown_file.py:77-92 | A listing that is ignored, or whose language is not python, rust or go, is accepted whenever its language is non-empty. It has no source file name. |
| MarkdownFile.SlugLineChecked | src/markdown_tools/markdown_file.py:81-92 | A non-ignored python, rust or go listing is accepted exactly when its stripped second line starts with the comment token and ends with the extension. Otherwise it fails naming the block. The file name is the rest of the line, stripped, non-empty and ending with the extension. |
| MarkdownFile.SlugNameEndsWithExtension | src/markdown_tools/markdown_file.py:120-126 | A slug line yields a non-empty file name ending with the extension. |
| MarkdownFile.ExtensionHasNoSpace | src/markdown_tools/markdown_file.py:86-90 | No registered extension contains whitespace, so stripping keeps it. |
| MarkdownFile.SlugRuleMatchesRegistry | src/markdown_tools/markdown_file.py:84-90 | The three slug rules are exactly the registry's languages, with their comment symbols and extensions. |
| MarkdownFile.TagLineOf | src/markdown_tools/markdown_file.py:69-74 | A stripped language after "```" is read back unchanged, without the ignore flag. |
| MarkdownFile.ListingReprRoundTrip | src/markdown_tools/markdown_file.py:128-136 | A listing block of the documented shape is reproduced exactly by `__repr__` once accepted. A language without a slug rule is always accepted. |
| MarkdownFile.TextFrom | src/markdown_tools/markdown_file.py:33-44 | The scan yields a text block and stops at or after its start, within the source. |
| MarkdownFile.ParseMarkdownText | src/markdown_tools/markdown_file.py:29-44 | The loop returns what the prose scan from the start line returns. |
| MarkdownFile.TextEnd | src/markdown_tools/markdown_file.py:36-42 | The prose end lies between the start and the end of the source. |
| MarkdownFile.TextEndSpec | src/markdown_tools/markdown_file.py:36-40 | Every line before the prose end is prose, and the line that stops it is not. |
| MarkdownFile.TextStepSpec | src/markdown_tools/markdown_file.py:29-44 | The text block joins the lines from the start up to the prose end, and parsing resumes there. |
| MarkdownFile.TextFromSpec | src/markdown_tools/markdown_file.py:33-44 | The same, from any point of the scan, with the lines collected so far. |
| MarkdownFile.WithNext | src/markdown_tools/markdown_file.py:118 | A built block is paired with the resume index, and a constructor error passes through unchanged. |
| MarkdownFile.ListingLines | src/markdown_tools/markdown_file.py:105-117 | The scan resumes after its start and within the source. |
| MarkdownFile.ListingStep | src/markdown_tools/markdown_file.py:94-118 | A successful step yields a listing and resumes at least two lines on. |
| MarkdownFile.ParseSourceCodeListing | src/markdown_tools/markdown_file.py:94-118 | The loop returns what the listing scan returns: the listing and the index after the fence, or the ValueError. |
| MarkdownFile.ClosingFence | src/markdown_tools/markdown_file.py:105-108 | The fence found lies at or after the starting point. |
| MarkdownFile.ClosingFenceSpec | src/markdown_tools/markdown_file.py:105-108 | The fence found is the first closing line. None means there is no closing line. |
| MarkdownFile.ListingLinesSpec | src/markdown_tools/markdown_file.py:98-118 | The listing collects the lines after the opening one, up to and including the first closing fence, and resumes after it. Without a fence the listing fails. |
| MarkdownFile.ListingLinesFromSpec | src/markdown_tools/markdown_file.py:105-117 | The same, from any point of the scan. |
| MarkdownFile.CodePathFrom | src/markdown_tools/markdown_file.py:180-188 | A successful scan yields a `%%` block with no path and resumes after its start. |
| MarkdownFile.ParseCodePath | src/markdown_tools/markdown_file.py:176-188 | The loop returns what the `%%` scan from the start line returns. |
| MarkdownFile.CommentEnd | src/markdown_tools/markdown_file.py:182-186 | The line found lies at or after the starting point. |
| MarkdownFile.CommentEndSpec | src/markdown_tools/markdown_file.py:182-186 | The line found is the first line that is not `%%`. None means every later line is `%%`. |
| MarkdownFile.CodePathStepSpec | src/markdown_tools/markdown_file.py:176-188 | A `%%` block keeps the opening line and every line up to and including the first that is not `%%`, and resumes after it. Running off the end raises the IndexError. |
| MarkdownFile.CodePathFromSpec | src/markdown_tools/markdown_file.py:180-188 | The same, from any point of the scan. |
| MarkdownFile.Step | src/markdown_tools/markdown_file.py:210-234 | One dispatch moves forward. It yields a listing exactly for a "```" line, a `%%` block exactly for a `%%` line that does not open a listing, and prose otherwise. |
| MarkdownFile.Parse | src/markdown_tools/markdown_file.py:204-234 | The generator loop yields the blocks of the whole document, or the first exception. |
| MarkdownFile.PrefixedStep | src/markdown_tools/markdown_file.py:210-234 | Taking one block off the rest keeps the blocks produced so far plus the rest unchanged. |
| MarkdownFile.SegmentsTile | src/markdown_tools/markdown_file.py:210-234 | A successful parse cuts the remaining lines into back-to-back non-empty tiles, each holding one dispatch's block. |
| MarkdownFile.SegmentsFailure | src/markdown_tools/markdown_file.py:210-234 | A failed parse reports the error of the first dispatch that fails. The lines before that dispatch are cut into tiles by successful dispatches, and the dispatch at the line where the tiles end raises the error. |
| MarkdownFile.BlocksSpec | src/markdown_tools/markdown_file.py:198-202 | There is one block per tile, in order. |
| MarkdownFile.ParseDocumentTiles | src/markdown_tools/markdown_file.py:198-234 | Parsing either yields the blocks of a tiling of the whole source, one per tile, or raises the error of the first failing dispatch. That dispatch sits at the line where a tiling of the earlier lines ends. |
| MarkdownFile.ProseOnly | src/markdown_tools/markdown_file.py:29-44 | A source of prose lines only parses to one text block holding all of it. |
| MarkdownFile.ProseRunsToEnd | src/markdown_tools/markdown_file.py:36-42 | Uninterrupted prose runs to the end of the source. |
| MarkdownFile.SingleStep | src/markdown_tools/markdown_file.py:210-234 | A source consumed by its first dispatch parses to that one block. |
| MarkdownFile.TextBlockRepr | src/markdown_tools/markdown_file.py:23-44 | A text block's `__repr__` is exactly the lines it was parsed from. |
| MarkdownFile.CodePathsUnset | src/markdown_tools/markdown_file.py:170-188 | Every `%%` block the parser yields has no path and reprs as "code: None". |
| MarkdownFile.DocumentCodePathsUnset | src/markdown_tools/markdown_file.py:170-234 | No `%%` block of a parsed document has its path set. |
| MarkdownFile.SlugLineReadAsTagLine | src/markdown_tools/markdown_file.py:67-92 | The example block, without its opening fence, is accepted with language ".py" and no file name. |
| MarkdownFile.ExampleTagLine | src/markdown_tools/markdown_file.py:69-74 | The slug line read as a tag line names the language ".py", which has no slug rule. |
| MarkdownFile.ExampleClosingFence | src/markdown_tools/markdown_file.py:105-108 | In the example listing, the closing fence is line 3. |
| MarkdownFile.OpeningFenceDropped | src/markdown_tools/markdown_file.py:98-118 | A whole python listing parses to one block that lacks its opening fence, so its slug line is taken as the tag line. |
| MarkdownFile.ExampleBlock | src/markdown_tools/markdown_file.py:109-118 | The example's lines after the opening fence, joined. |
| MarkdownFile.ListingOnlyDocument | src/markdown_tools/markdown_file.py:204-217 | A source that opens a listing on its first line and closes it on its last parses to the listing built from every line but the first. |
| MarkdownFile.WholeListingStep | src/markdown_tools/markdown_file.py:213-217 | The first dispatch of such a source hands every line but the first to the constructor. |
| MarkdownFile.ClosingMarkerReopens | src/markdown_tools/markdown_file.py:176-188 | The closing `%%` of a comment starts a new block. That block runs off the end and raises the IndexError. |
| MarkdownFile.MarkerLine | src/markdown_tools/markdown_file.py:213-218 | "%%\n" is a marker line and does not open a listing. |
| MarkdownFile.PathLine | src/markdown_tools/markdown_file.py:185 | The example's `path:` line is not a marker. |
| MarkdownFile.UnclosedListing | src/markdown_tools/markdown_file.py:112-115 | A listing without a closing fence raises the ValueError naming its opening line. |
| MarkdownFile.CodeListings | src/markdown_tools/markdown_file.py:241-246 | The result holds exactly the listings among the blocks. |
| MarkdownFile.CodePaths | src/markdown_tools/markdown_file.py:248-249 | The result holds exactly the `%%` blocks among the blocks. |
| MarkdownFile.CodeListingsAppend | src/markdown_tools/markdown_file.py:241-246 | The listings of consecutive runs of blocks are each run's listings, in order. |
| MarkdownFile.CodePathsAppend | src/markdown_tools/markdown_file.py:248-249 | The `%%` blocks of consecutive runs are each run's `%%` blocks, in order. |
| CheckCodeListings.CheckCodeBlock | src/markdown_tools/check_code_listings.py:6-9 | The result is None exactly for "text" listings and ignored ones. Otherwise it is "language: file name". |
| CheckCodeListings.CheckCodeListingsOf | src/markdown_tools/check_code_listings.py:12-17 | The printed lines are the checks of the document's listings that give a line, in order. |
| CheckCodeListings.ResultTruthy | src/markdown_tools/check_code_listings.py:16 | A result that is not None is never empty, so `if r:` prints every such result. |
| CheckCodeListings.ReportLength | src/markdown_tools/check_code_listings.py:13-17 | One line is printed per listing whose check gives a line. |
| CheckCodeListings.ReportOnlyGrows | src/markdown_tools/check_code_listings.py:13-17 | Checking more listings only appends lines. |
| CheckCodeListings.ReportOrder | src/markdown_tools/check_code_listings.py:13-17 | A listing's line comes right after the lines of the listings before it, and is its own check's line. |
| CheckCodeListings.SilentListing | src/markdown_tools/check_code_listings.py:7-8 | A "text" or ignored listing adds nothing to the output. |
| CheckCodeListings.ReportAppend | src/markdown_tools/check_code_listings.py:13-17 | The lines for consecutive runs of listings are each run's lines, in order. |
| VscodeOpen.MaxFileNumber | src/markdown_tools/vscode_open.py:21-28 | No numbered variable has a larger number than the result. A non-zero result is the number of one of them (default 0). |
| VscodeOpen.VscodeOpen | src/markdown_tools/vscode_open.py:5-50 | The text written is the rewrite of the script's lines (or of the template's) joined by "\n" with a final "\n". |
| VscodeOpen.FileVarsAppend | src/markdown_tools/vscode_open.py:16-20 | The file variables of consecutive runs of lines are each run's variables, in order. |
| VscodeOpen.DropCodeAppend | src/markdown_tools/vscode_open.py:36-38 | Removing editor lines works line by line, keeping order. |
| VscodeOpen.DropCodeSpec | src/markdown_tools/vscode_open.py:36-38 | No editor line is left, only input lines remain, and a script without editor lines is unchanged. |
| VscodeOpen.FileLineNotCode | src/markdown_tools/vscode_open.py:19-37 | A "$file" line is never removed as an editor line. |
| VscodeOpen.FileVarsOfDropCode | src/markdown_tools/vscode_open.py:36-45 | Removing editor lines removes no file variable. |
| VscodeOpen.FileVarNumber | src/markdown_tools/vscode_open.py:23-31 | `$file<k>` is numbered and its number is `k`. |
| VscodeOpen.NewLineShape | src/markdown_tools/vscode_open.py:31-32 | The new line is a file line, not an editor line, and assigns `$file<k>`. |
| VscodeOpen.CodeLineShape | src/markdown_tools/vscode_open.py:46 | The editor line starts with "code " and is not a file line. |
| VscodeOpen.RewriteShape | src/markdown_tools/vscode_open.py:15-47 | One call keeps every non-editor line in order. It then appends the assignment to one more than the largest number in use, and the editor line opening every file variable, the new one last. |
| VscodeOpen.OneCodeLineLast | src/markdown_tools/vscode_open.py:36-47 | After one call the script has exactly one editor line, and it is the last line. |
| VscodeOpen.WrittenReadsBack | src/markdown_tools/vscode_open.py:8-50 | A script whose lines hold no "\n" reads back the same lines once written. |
| VscodeOpen.TemplatePlain | src/markdown_tools/vscode_open.py:10-13 | The template's lines assign no file, run no editor and hold no "\n". |
| VscodeOpen.FirstCall | src/markdown_tools/vscode_open.py:10-47 | The first call on a new script assigns the path to `$file1` and opens it. |
| VscodeOpen.NextCall | src/markdown_tools/vscode_open.py:15-47 | One more call adds its path as the next variable and reopens all of them. |
| VscodeOpen.SuccessiveCalls | src/markdown_tools/vscode_open.py:54-62 | Starting with no script, opening k files in turn gives the template, the assignments `$file1` … `$file<k>` in order, then "code $file1 … $file<k>". |
| PyStr.LStripSpec | src/markdown_tools/markdown_file.py:69 | `lstrip` removes exactly the leading whitespace. |
| PyStr.RStripSpec | src/markdown_tools/markdown_file.py:69 | `rstrip` removes exactly the trailing whitespace. |
| PyStr.RStripCharSpec | src/markdown_tools/markdown_file.py:73 | `rstrip("!")` removes exactly the trailing "!" characters. |
| PyStr.ConcatSplitLinesKeepEnds | src/markdown_tools/markdown_source_text.py:37 | Joining `splitlines(True)` gives back the text. |
| PyStr.SplitLinesKeepEndsOfConcat | src/markdown_tools/markdown_file.py:68 | Splitting the join of well-formed lines gives back the lines. |
| PyStr.SplitLinesOfJoin | src/markdown_tools/vscode_open.py:8-50 | `splitlines()` of lines joined by "\n" with a final "\n" gives back the lines. |
| PyStr.NatToDecimal | src/markdown_tools/vscode_open.py:23-31 | The decimal text is all digits and reads back as the number. |
| PyStr.Pad4Spec | src/markdown_tools/compare_strings.py:29-42 | `{n:4}` right-aligns the number in at least four characters, padding with spaces. |
| PyStr.FirstField | src/markdown_tools/vscode_open.py:17 | `split("=")[0]` is a prefix without "=", stopped by the first "=" if any. |

## Left out

- File I/O is not modelled. Each effect instead becomes a parameter or a result:
  - `MarkdownSourceText.Open` is given the path's existence, its directory status and its text;
  - `VscodeOpen` is given the script's text, or nothing when the script does not exist, and returns the text it would write;
  - `MarkdownFile.__init__` is `Parse` over the text's lines.
- `print` is left out. Printed output becomes a returned sequence: `check_code_listings` returns its lines.
- The debugging output of `CodePath.__post_init__` (markdown_file.py:161-165), its `print` calls and its `pprint` of the comment, is left out.
- `__str__` of each block is left out. It gives the banner, which `MarkdownFile.Separator` models, then `repr`. For a listing (markdown_file.py:138-144) it adds a line with its `source_file_name` and a line with its `language` and `ignore` fields.
- `difflib.Differ` is not part of this model. Its tagged output is the input of `CompareStrings.Compare`. `FinalCounters` states what the counters give once the Differ accounts for both texts.
- `typer.Exit` is not modelled as an exception. It is the exit message, returned as an `Option`.
- Paths are strings, with "/" as the only separator. `Path.as_posix()` is the identity. The `__main__` demo of languages.py is left out; its lookups are what `PythonRegistered` states.
- `MarkdownSourceText.OpenError`, `MarkdownSourceText.Name` and `MarkdownSourceText.Suffix` do not model the normalisation `pathlib.Path` applies to a path. Python merges repeated "/", drops "." segments and drops a trailing "/"; the model uses the path as given. So for "./notes.txt" the model's message reads "ERROR [./notes.txt] …" where Python prints "ERROR [notes.txt] …". For "a.md/" the model finds no name and no suffix where Python finds "a.md" and ".md".
- `PyStr.SplitLinesKeepEnds` and `PyStr.SplitLines` break only at "\n". Python's `splitlines` also breaks at "\r", "\r\n", "\v", "\f", "\x1c"–"\x1e", "\x85", "\u2028" and "\u2029".
- `PyStr.IsDigits` accepts ASCII digits only. Python's `isdigit` also accepts other Unicode digits, and `int()` would read some of them.
- `ErrorReporter.Reporter`: `markdown_part` may hold any value in Python. It is modelled as optional text, truthy when non-empty.
- `CheckCodeListings.CheckCodeListingsOf`: check_code_listings.py imports `SourceCode` from markdown_file.py, which defines no such name. As written, importing the module fails. The model assumes `SourceCode` names `SourceCodeListing`, the class whose instances `code_listings` returns. Under that assumption the `isinstance` assertion always holds, so it is not modelled.
- `VscodeOpen.SuccessiveCalls` requires paths without "\n". A path holding one would be split into several lines when the script is read back.
