/**
 * The fixed language registry of languages.py: a list of frozen records
 * searched first-match by language name or by file extension.
 */
module Languages {
  import opened Wrappers

  datatype LanguageInfo = LanguageInfo(
    language: string,
    fileExtension: string,
    commentSymbol: string,
    startSearch: string)

  /** `_languages`: the registered languages, in lookup order. */
  const Registered: seq<LanguageInfo> := [
    LanguageInfo("python", ".py", "#", "C:/git/python-experiments"),
    LanguageInfo("rust", ".rs", "//", "C:/git/rust-experiments"),
    LanguageInfo("go", ".go", "//", "C:/git/go-experiments")
  ]

  /** An entry answers to a key equal to its language name or to its file extension. */
  predicate Matches(info: LanguageInfo, key: string) {
    info.language == key || info.fileExtension == key
  }

  /** The message of the `KeyError` raised when no entry matches. */
  function NotFoundMessage(key: string): string {
    "No LanguageInfo found for key: " + key
  }

  /**
   * `LanguageMeta.__getitem__` over a table: the first entry that matches the
   * key, or the `KeyError` when none does.
   */
  function Lookup(table: seq<LanguageInfo>, key: string): (r: Result<LanguageInfo, string>)
    ensures r.Success? ==>
      exists i :: 0 <= i < |table| && table[i] == r.value && Matches(table[i], key)
                  && forall j :: 0 <= j < i ==> !Matches(table[j], key)
    ensures r.Failure? <==> forall i :: 0 <= i < |table| ==> !Matches(table[i], key)
    ensures r.Failure? ==> r.error == NotFoundMessage(key)
  {
    if table == [] then Failure(NotFoundMessage(key))
    else if Matches(table[0], key) then Success(table[0])
    else
      var r := Lookup(table[1..], key);
      assert forall j :: 1 <= j < |table| ==> table[j] == table[1..][j - 1];
      r
  }

  /** `LanguageMeta.__contains__` over a table: some entry has the key as name or extension. */
  predicate Contains(table: seq<LanguageInfo>, key: string) {
    exists info :: info in table && key in [info.language, info.fileExtension]
  }

  /** `key in Languages` holds exactly when `Languages[key]` does not raise. */
  lemma ContainsIffLookupSucceeds(table: seq<LanguageInfo>, key: string)
    ensures Contains(table, key) <==> Lookup(table, key).Success?
  {
    if Contains(table, key) {
      var info :| info in table && key in [info.language, info.fileExtension];
      var i :| 0 <= i < |table| && table[i] == info;
      assert Matches(table[i], key);
    }
  }

  /**
   * An entry whose name and extension no earlier entry uses is found both by
   * its name and by its extension.
   */
  lemma {:induction false} NameAndExtensionAgree(table: seq<LanguageInfo>, i: nat)
    requires i < |table|
    requires forall j :: 0 <= j < i ==>
      !Matches(table[j], table[i].language) && !Matches(table[j], table[i].fileExtension)
    ensures Lookup(table, table[i].language) == Success(table[i])
    ensures Lookup(table, table[i].fileExtension) == Success(table[i])
  {
    if i > 0 {
      NameAndExtensionAgree(table[1..], i - 1);
    }
  }

  /** python is the first entry, found by name and by ".py" alike, with "#" comments. */
  lemma PythonRegistered()
    ensures Lookup(Registered, "python") == Success(Registered[0])
    ensures Lookup(Registered, ".py") == Success(Registered[0])
    ensures Registered[0].commentSymbol == "#"
  {
    NameAndExtensionAgree(Registered, 0);
  }

  /** rust is the second entry, found by name and by ".rs" alike, with "//" comments. */
  lemma RustRegistered()
    ensures Lookup(Registered, "rust") == Success(Registered[1])
    ensures Lookup(Registered, ".rs") == Success(Registered[1])
    ensures Registered[1].commentSymbol == "//"
  {
    assert ".py"[1] != ".rs"[1];
    NameAndExtensionAgree(Registered, 1);
  }

  /** go is the third entry, found by name and by ".go" alike, with "//" comments. */
  lemma GoRegistered()
    ensures Lookup(Registered, "go") == Success(Registered[2])
    ensures Lookup(Registered, ".go") == Success(Registered[2])
    ensures Registered[2].commentSymbol == "//"
  {
    assert ".py"[1] != ".go"[1] && ".rs"[1] != ".go"[1];
    NameAndExtensionAgree(Registered, 2);
  }

  /** "text" is not registered: looking it up raises and membership is false. */
  lemma TextNotRegistered()
    ensures Lookup(Registered, "text") == Failure(NotFoundMessage("text"))
    ensures !Contains(Registered, "text")
  {
    ContainsIffLookupSucceeds(Registered, "text");
  }
}
