/**
 * `vscode_open` of vscode_open.py: adds a file to a PowerShell script that
 * opens a list of files in VS Code. The script assigns each file to a
 * variable, one `$fileN = "<path>"` line per file, and ends with one
 * `code $file1 $file2 …` line that opens them all.
 *
 * Reading and writing the script are left to the caller: the script's text
 * comes in (None when there is no script yet), and the text to write goes out.
 */
module VscodeOpen {
  import opened Wrappers
  import opened PyStr

  /** The comment that heads a new script, written in three pieces to keep the literals short. */
  const Header: string := "# PowerShell script " + "to open a list of " + "files in VS Code"

  /** The lines a script starts from when it does not exist yet: the header comment and a blank line. */
  const Template: seq<string> := [Header, ""]

  /** The script's lines: its text split into lines, or the template when there is no script. */
  function InitialLines(script: Option<string>): seq<string> {
    match script
    case Some(text) => SplitLines(text)
    case None => Template
  }

  /** A line that assigns a file variable. */
  predicate IsFileLine(line: string) {
    StartsWith(line, "$file")
  }

  /** A line that runs the editor, leading whitespace aside. */
  predicate IsCodeLine(line: string) {
    StartsWith(Strip(line), "code")
  }

  /** `line.split("=")[0].strip()`: the variable a file line assigns. */
  function VarName(line: string): string {
    Strip(FirstField(line, '='))
  }

  /** The variables the file lines assign, in order. */
  function FileVars(lines: seq<string>): seq<string>
    decreases |lines|
  {
    if lines == [] then []
    else
      var last := lines[|lines| - 1];
      FileVars(lines[..|lines| - 1]) + if IsFileLine(last) then [VarName(last)] else []
  }

  /** A variable whose name after "$file" is made of ASCII digits. */
  predicate IsNumbered(v: string) {
    StartsWith(v, "$file") && IsDigits(v[5..])
  }

  /** `int(var[5:])`. */
  function Number(v: string): nat
    requires IsNumbered(v)
  {
    DecimalValue(v[5..])
  }

  /**
   * `max(..., default=0)` over the numbers of the numbered variables: no
   * numbered variable has a larger number, and a non-zero result is the
   * number of one of them.
   */
  function MaxFileNumber(vars: seq<string>): (m: nat)
    ensures forall i :: 0 <= i < |vars| && IsNumbered(vars[i]) ==> Number(vars[i]) <= m
    ensures m == 0 || exists i :: 0 <= i < |vars| && IsNumbered(vars[i]) && Number(vars[i]) == m
    decreases |vars|
  {
    if vars == [] then 0
    else
      var init := vars[..|vars| - 1];
      var m := MaxFileNumber(init);
      var v := vars[|vars| - 1];
      assert forall i :: 0 <= i < |init| ==> vars[i] == init[i];
      if IsNumbered(v) && Number(v) > m then Number(v) else m
  }

  /** The number of the variable a new file is assigned to: one more than the largest in use. */
  function NextNumber(lines: seq<string>): nat {
    MaxFileNumber(FileVars(lines)) + 1
  }

  /** The variable `$file<k>`. */
  function FileVar(k: nat): string {
    "$file" + NatToDecimal(k)
  }

  /** The line that assigns the file at `path` to `$file<k>`. */
  function NewLine(k: nat, path: string): string {
    FileVar(k) + " = \"" + path + "\""
  }

  /** A line that `vscode_open` keeps: one that does not run the editor. */
  predicate IsKept(line: string) {
    !IsCodeLine(line)
  }

  /** `[line for line in lines if keep(line)]`. */
  function Filter(lines: seq<string>, keep: string -> bool): seq<string>
    decreases |lines|
  {
    if lines == [] then []
    else
      var last := lines[|lines| - 1];
      Filter(lines[..|lines| - 1], keep) + if keep(last) then [last] else []
  }

  /** The lines that do not run the editor. */
  function DropCode(lines: seq<string>): seq<string> {
    Filter(lines, IsKept)
  }

  /** The line that opens the variables' files. */
  function CodeLine(vars: seq<string>): string {
    "code " + Join(vars, " ")
  }

  /**
   * The script's lines after adding the file at `path` (in POSIX form): the
   * new assignment appended with the next free number, the editor lines
   * removed, and a new editor line appended that opens every file variable.
   */
  function Rewrite(lines: seq<string>, path: string): seq<string> {
    var added := lines + [NewLine(NextNumber(lines), path)];
    var kept := DropCode(added);
    kept + [CodeLine(FileVars(kept))]
  }

  /** The text written for the lines: joined by "\n", with a final "\n". */
  function Written(lines: seq<string>): string {
    Join(lines, "\n") + "\n"
  }

  /** `vscode_open(opener_ps1, file_to_open)`: the text to write, given the script's text if it exists. */
  method VscodeOpen(script: Option<string>, path: string) returns (written: string)
    ensures written == Written(Rewrite(InitialLines(script), path))
  {
    var lines := InitialLines(script);
    var fileVars := FileVars(lines);
    var maxFileVarNumber := MaxFileNumber(fileVars);
    lines := lines + [NewLine(maxFileVarNumber + 1, path)];
    lines := DropCode(lines);
    fileVars := FileVars(lines);
    lines := lines + [CodeLine(fileVars)];
    written := Written(lines);
  }

  // ---------------------------------------------------------------- lines and variables

  lemma {:induction false} FileVarsAppend(a: seq<string>, b: seq<string>)
    ensures FileVars(a + b) == FileVars(a) + FileVars(b)
    decreases |b|
  {
    if b == [] {
      assert a + b == a;
    } else {
      var c := a + b;
      assert c[..|c| - 1] == a + b[..|b| - 1];
      FileVarsAppend(a, b[..|b| - 1]);
    }
  }

  /** Filtering keeps the kept lines in their order: it works line by line. */
  lemma {:induction false} FilterAppend(a: seq<string>, b: seq<string>, keep: string -> bool)
    ensures Filter(a + b, keep) == Filter(a, keep) + Filter(b, keep)
    decreases |b|
  {
    if b == [] {
      assert a + b == a;
    } else {
      var c := a + b;
      assert c[..|c| - 1] == a + b[..|b| - 1];
      FilterAppend(a, b[..|b| - 1], keep);
    }
  }

  /** Filtering leaves only kept lines, all of them lines of the input. */
  lemma {:induction false} FilterKeeps(lines: seq<string>, keep: string -> bool)
    ensures forall i :: 0 <= i < |Filter(lines, keep)| ==> keep(Filter(lines, keep)[i]) && Filter(lines, keep)[i] in lines
    decreases |lines|
  {
    if lines != [] {
      var init := lines[..|lines| - 1];
      FilterKeeps(init, keep);
      assert forall i :: 0 <= i < |init| ==> init[i] in lines;
    }
  }

  /** Filtering lines that are all kept leaves them as they are. */
  lemma {:induction false} FilterAllKept(lines: seq<string>, keep: string -> bool)
    requires forall i :: 0 <= i < |lines| ==> keep(lines[i])
    ensures Filter(lines, keep) == lines
    decreases |lines|
  {
    if lines != [] {
      var init := lines[..|lines| - 1];
      FilterAllKept(init, keep);
      InitAndLast(lines);
    }
  }

  /** Removing the editor lines keeps the others in their order: it works line by line. */
  lemma DropCodeAppend(a: seq<string>, b: seq<string>)
    ensures DropCode(a + b) == DropCode(a) + DropCode(b)
  {
    FilterAppend(a, b, IsKept);
  }

  lemma FileVarsSingle(line: string)
    ensures FileVars([line]) == if IsFileLine(line) then [VarName(line)] else []
  {
    assert [line][..0] == [];
  }

  lemma DropCodeSingle(line: string)
    ensures DropCode([line]) == if IsCodeLine(line) then [] else [line]
  {
    assert [line][..0] == [];
    assert Filter([line], IsKept) == Filter([], IsKept) + if IsKept(line) then [line] else [];
  }

  /**
   * Removing the editor lines leaves none, keeps only lines of the input,
   * and leaves a script without editor lines as it is.
   */
  lemma DropCodeSpec(lines: seq<string>)
    ensures forall i :: 0 <= i < |DropCode(lines)| ==> !IsCodeLine(DropCode(lines)[i]) && DropCode(lines)[i] in lines
    ensures (forall i :: 0 <= i < |lines| ==> !IsCodeLine(lines[i])) ==> DropCode(lines) == lines
  {
    FilterKeeps(lines, IsKept);
    if forall i :: 0 <= i < |lines| ==> !IsCodeLine(lines[i]) {
      FilterAllKept(lines, IsKept);
    }
  }

  /** A line that begins with a visible character other than "c" is not an editor line. */
  lemma VisibleFirstNotCode(line: string)
    requires line != [] && '!' <= line[0] <= '~' && line[0] != 'c'
    ensures !IsCodeLine(line)
  {
    assert line[..1] == [line[0]];
    StripKeepsPrefix(line, [line[0]]);
    assert Strip(line)[0] == line[0];
  }

  /** A file line never counts as an editor line. */
  lemma FileLineNotCode(line: string)
    requires IsFileLine(line)
    ensures !IsCodeLine(line)
  {
    assert line[..5][0] == '$';
    VisibleFirstNotCode(line);
  }

  /** Removing the editor lines removes no file variable. */
  lemma {:induction false} FileVarsOfDropCode(lines: seq<string>)
    ensures FileVars(DropCode(lines)) == FileVars(lines)
    decreases |lines|
  {
    if lines != [] {
      var init := lines[..|lines| - 1];
      var last := lines[|lines| - 1];
      FileVarsOfDropCode(init);
      DropCodeSingle(last);
      FileVarsSingle(last);
      FileVarsAppend(DropCode(init), DropCode([last]));
      if IsFileLine(last) {
        FileLineNotCode(last);
      }
    }
  }

  /** The variable `$file<k>` is numbered `k`. */
  lemma FileVarNumber(k: nat)
    ensures IsNumbered(FileVar(k)) && Number(FileVar(k)) == k
  {
    assert FileVar(k)[5..] == NatToDecimal(k);
  }

  /** The new line is a file line, not an editor line, and assigns `$file<k>`. */
  lemma NewLineShape(k: nat, path: string)
    ensures IsFileLine(NewLine(k, path)) && !IsCodeLine(NewLine(k, path))
    ensures VarName(NewLine(k, path)) == FileVar(k)
  {
    var v := FileVar(k);
    var s := NewLine(k, path);
    var head := v + " ";
    assert s == head + ("= \"" + path + "\"");
    assert s[..5] == "$file";
    FileLineNotCode(s);
    assert '=' !in head;
    assert s[|head|] == '=';
    var r := FirstField(s, '=');
    assert r == head by {
      assert s[..|head|] == head;
    }
    var digits := NatToDecimal(k);
    VisibleAsciiNotSpace('$');
    VisibleAsciiNotSpace(digits[|digits| - 1]);
    assert v[|v| - 1] == digits[|digits| - 1];
    StripTrailing(v, " ");
  }

  /** The editor line is one, and not a file line. */
  lemma CodeLineShape(vars: seq<string>)
    ensures IsCodeLine(CodeLine(vars)) && !IsFileLine(CodeLine(vars))
    ensures StartsWith(CodeLine(vars), "code ")
  {
    var s := CodeLine(vars);
    assert s[..5] == "code ";
    assert s[..4] == "code";
    StripKeepsPrefix(s, "code");
  }

  // ---------------------------------------------------------------- one call

  /**
   * One call keeps every non-editor line in its order, then appends the new
   * assignment to `$file<n>`, one more than the largest number in use, and
   * the editor line that opens every file variable, the new one last.
   */
  lemma RewriteShape(lines: seq<string>, path: string)
    ensures Rewrite(lines, path) == DropCode(lines) + [NewLine(NextNumber(lines), path)]
                                 + [CodeLine(FileVars(lines) + [FileVar(NextNumber(lines))])]
  {
    var n := NextNumber(lines);
    var line := NewLine(n, path);
    NewLineShape(n, path);
    var kept := DropCode(lines + [line]);
    assert kept == DropCode(lines) + [line] by {
      DropCodeAppend(lines, [line]);
      DropCodeSingle(line);
    }
    assert FileVars(kept) == FileVars(lines) + [FileVar(n)] by {
      FileVarsAppend(DropCode(lines), [line]);
      FileVarsSingle(line);
      FileVarsOfDropCode(lines);
    }
  }

  /** After one call the script has exactly one editor line, and it is the last line. */
  lemma OneCodeLineLast(lines: seq<string>, path: string)
    ensures |Rewrite(lines, path)| >= 2
    ensures IsCodeLine(Rewrite(lines, path)[|Rewrite(lines, path)| - 1])
    ensures StartsWith(Rewrite(lines, path)[|Rewrite(lines, path)| - 1], "code ")
    ensures forall i :: 0 <= i < |Rewrite(lines, path)| - 1 ==> !IsCodeLine(Rewrite(lines, path)[i])
  {
    RewriteShape(lines, path);
    var n := NextNumber(lines);
    var kept, added, code := DropCode(lines), NewLine(n, path), CodeLine(FileVars(lines) + [FileVar(n)]);
    NewLineShape(n, path);
    CodeLineShape(FileVars(lines) + [FileVar(n)]);
    DropCodeSpec(lines);
    var r := Rewrite(lines, path);
    assert r == kept + [added] + [code];
    assert r[|r| - 1] == code;
    forall i | 0 <= i < |r| - 1
      ensures !IsCodeLine(r[i])
    {
      if i < |kept| {
        assert r[i] == kept[i];
      } else {
        assert r[i] == added;
      }
    }
  }

  /** A script with lines free of "\n" reads back, after being written, as the same lines. */
  lemma WrittenReadsBack(lines: seq<string>)
    requires lines != [] && forall i :: 0 <= i < |lines| ==> '\n' !in lines[i]
    ensures SplitLines(Written(lines)) == lines
    ensures InitialLines(Some(Written(lines))) == lines
  {
    SplitLinesOfJoin(lines);
  }

  // ---------------------------------------------------------------- successive calls

  /** The script after opening each of `paths` in turn, starting with no script. */
  function Calls(paths: seq<string>): Option<string>
    decreases |paths|
  {
    if paths == [] then None
    else Some(Written(Rewrite(InitialLines(Calls(paths[..|paths| - 1])), paths[|paths| - 1])))
  }

  /** `$file1` … `$file<k>`. */
  function Vars(k: nat): (r: seq<string>)
    ensures |r| == k && forall i :: 0 <= i < k ==> r[i] == FileVar(i + 1)
  {
    if k == 0 then [] else Vars(k - 1) + [FileVar(k)]
  }

  /** The assignment of each path to its variable, the `i`-th path to `$file<i+1>`. */
  function FileLines(paths: seq<string>): (r: seq<string>)
    ensures |r| == |paths| && forall i :: 0 <= i < |paths| ==> r[i] == NewLine(i + 1, paths[i])
    decreases |paths|
  {
    if paths == [] then []
    else
      var init := paths[..|paths| - 1];
      var r := FileLines(init) + [NewLine(|paths|, paths[|paths| - 1])];
      assert forall i :: 0 <= i < |init| ==> init[i] == paths[i];
      r
  }

  /** The lines after the calls for `paths`, when the first call started from the lines `base`. */
  function Expected(base: seq<string>, paths: seq<string>): seq<string> {
    base + FileLines(paths) + [CodeLine(Vars(|paths|))]
  }

  /** Lines without file assignments, editor lines or "\n", as the template's are. */
  predicate Plain(base: seq<string>) {
    FileVars(base) == [] && DropCode(base) == base && forall i :: 0 <= i < |base| ==> '\n' !in base[i]
  }

  /** Neither template line assigns a file or runs the editor, and neither holds "\n". */
  lemma TemplatePlain(base: seq<string>)
    requires base == Template
    ensures Plain(base)
  {
    var header := base[0];
    HeaderLine(header);
    assert base == [header] + [""];
    assert Strip("") == "";
    FileVarsSingle(header);
    FileVarsSingle("");
    FileVarsAppend([header], [""]);
    DropCodeSingle(header);
    DropCodeSingle("");
    DropCodeAppend([header], [""]);
  }

  lemma HeaderLine(header: string)
    requires header == Header
    ensures !IsFileLine(header) && !IsCodeLine(header) && '\n' !in header
  {
    HeaderStart(header);
    VisibleFirstNotCode(header);
    HeaderNoNewline(header);
  }

  lemma HeaderStart(header: string)
    requires header == Header
    ensures header != [] && header[0] == '#' && !IsFileLine(header)
  {
    assert header[0] == '#';
  }

  lemma HeaderNoNewline(header: string)
    requires header == Header
    ensures '\n' !in header
  {
  }

  lemma {:induction false} FileVarsOfFileLines(paths: seq<string>)
    ensures FileVars(FileLines(paths)) == Vars(|paths|)
    ensures DropCode(FileLines(paths)) == FileLines(paths)
    decreases |paths|
  {
    if paths != [] {
      var init := paths[..|paths| - 1];
      var line := NewLine(|paths|, paths[|paths| - 1]);
      FileVarsOfFileLines(init);
      NewLineShape(|paths|, paths[|paths| - 1]);
      FileVarsSingle(line);
      FileVarsAppend(FileLines(init), [line]);
      DropCodeSingle(line);
      DropCodeAppend(FileLines(init), [line]);
    }
  }

  lemma {:induction false} MaxOfVars(k: nat)
    ensures MaxFileNumber(Vars(k)) == k
  {
    if k > 0 {
      MaxOfVars(k - 1);
      assert Vars(k)[..k - 1] == Vars(k - 1);
      FileVarNumber(k);
    }
  }

  /** No variable `$file<k>` holds "\n". */
  lemma FileVarAvoidsNewline(k: nat)
    ensures '\n' !in FileVar(k)
  {
    var digits := NatToDecimal(k);
    assert forall j :: 0 <= j < |digits| ==> digits[j] != '\n';
  }

  /** The lines after the calls hold no "\n" when the paths and `base` hold none. */
  lemma ExpectedAvoidsNewline(base: seq<string>, paths: seq<string>)
    requires Plain(base)
    requires forall i :: 0 <= i < |paths| ==> '\n' !in paths[i]
    ensures forall i :: 0 <= i < |Expected(base, paths)| ==> '\n' !in Expected(base, paths)[i]
  {
    var lines := FileLines(paths);
    forall i | 0 <= i < |lines| ensures '\n' !in lines[i] {
      FileVarAvoidsNewline(i + 1);
    }
    var vars := Vars(|paths|);
    forall i | 0 <= i < |vars| ensures '\n' !in vars[i] {
      FileVarAvoidsNewline(i + 1);
    }
    JoinAvoids(vars, " ", '\n');
  }

  /** The first call, from `base`, assigns the path to `$file1` and opens it. */
  lemma FirstCall(base: seq<string>, path: string)
    requires Plain(base)
    ensures Rewrite(base, path) == Expected(base, [path])
  {
    RewriteShape(base, path);
    assert NextNumber(base) == 1 by {
      MaxOfVars(0);
    }
    assert FileLines([path]) == [NewLine(1, path)];
    assert FileVars(base) + [FileVar(1)] == Vars(1);
  }

  /** The file variables and the kept lines of the lines after the calls for `init`. */
  lemma ExpectedParts(base: seq<string>, init: seq<string>)
    requires Plain(base)
    ensures FileVars(Expected(base, init)) == Vars(|init|)
    ensures DropCode(Expected(base, init)) == base + FileLines(init)
  {
    var code := CodeLine(Vars(|init|));
    var body := base + FileLines(init);
    FileVarsOfFileLines(init);
    CodeLineShape(Vars(|init|));
    FileVarsSingle(code);
    FileVarsAppend(base, FileLines(init));
    FileVarsAppend(body, [code]);
    DropCodeSingle(code);
    DropCodeAppend(base, FileLines(init));
    DropCodeAppend(body, [code]);
  }

  /** One more call, for `path`, after the calls for `init`, adds `path` as the next variable. */
  lemma NextCall(base: seq<string>, init: seq<string>, path: string)
    requires Plain(base) && init != []
    ensures Rewrite(Expected(base, init), path) == Expected(base, init + [path])
  {
    var k := |init|;
    ExpectedParts(base, init);
    MaxOfVars(k);
    RewriteWith(Expected(base, init), path, base + FileLines(init), Vars(k));
    Extend(init, path);
    AppendAssoc(base, FileLines(init), [NewLine(k + 1, path)]);
  }

  /** `RewriteShape` for lines whose kept lines and file variables are known. */
  lemma RewriteWith(lines: seq<string>, path: string, kept: seq<string>, vars: seq<string>)
    requires DropCode(lines) == kept && FileVars(lines) == vars
    ensures Rewrite(lines, path) == kept + [NewLine(MaxFileNumber(vars) + 1, path)]
                                    + [CodeLine(vars + [FileVar(MaxFileNumber(vars) + 1)])]
  {
    RewriteShape(lines, path);
  }

  /** One more path adds one assignment and one variable. */
  lemma Extend(init: seq<string>, path: string)
    ensures FileLines(init + [path]) == FileLines(init) + [NewLine(|init| + 1, path)]
    ensures Vars(|init| + 1) == Vars(|init|) + [FileVar(|init| + 1)]
  {
    assert (init + [path])[..|init|] == init;
  }

  lemma InitAndLast(s: seq<string>)
    requires s != []
    ensures s[..|s| - 1] + [s[|s| - 1]] == s
  {
  }

  lemma AppendAssoc(a: seq<string>, b: seq<string>, c: seq<string>)
    ensures (a + b) + c == a + (b + c)
  {
  }

  /** Any call after the calls for `init`, the first one included. */
  lemma AnyCall(base: seq<string>, init: seq<string>, path: string)
    requires Plain(base)
    ensures Rewrite(if init == [] then base else Expected(base, init), path) == Expected(base, init + [path])
  {
    if init == [] {
      FirstCall(base, path);
      assert init + [path] == [path];
    } else {
      NextCall(base, init, path);
    }
  }

  /** A call writes the rewrite of the lines the script held before it. */
  lemma CallWrites(paths: seq<string>, before: seq<string>)
    requires paths != [] && InitialLines(Calls(paths[..|paths| - 1])) == before
    ensures Calls(paths) == Some(Written(Rewrite(before, paths[|paths| - 1])))
  {
  }

  /** The lines a call starts from when the calls for `paths` came before it. */
  lemma {:induction false} LinesBeforeCall(base: seq<string>, paths: seq<string>)
    requires base == Template
    requires forall i :: 0 <= i < |paths| ==> '\n' !in paths[i]
    ensures InitialLines(Calls(paths)) == if paths == [] then base else Expected(base, paths)
    decreases |paths|, 1
  {
    if paths != [] {
      SuccessiveCalls(base, paths);
      TemplatePlain(base);
      ExpectedAvoidsNewline(base, paths);
      WrittenReadsBack(Expected(base, paths));
    }
  }

  /**
   * Starting from no script, opening `k` files in turn assigns them to
   * `$file1` … `$file<k>` in order, after the template's lines, and ends the
   * script with the editor line "code $file1 … $file<k>".
   */
  lemma {:induction false} SuccessiveCalls(base: seq<string>, paths: seq<string>)
    requires base == Template
    requires paths != [] && forall i :: 0 <= i < |paths| ==> '\n' !in paths[i]
    ensures Calls(paths) == Some(Written(Expected(base, paths)))
    decreases |paths|, 0
  {
    var init := paths[..|paths| - 1];
    var path := paths[|paths| - 1];
    LinesBeforeCall(base, init);
    TemplatePlain(base);
    AnyCall(base, init, path);
    InitAndLast(paths);
    CallWrites(paths, if init == [] then base else Expected(base, init));
  }
}
