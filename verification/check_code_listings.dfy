/**
 * check_code_listings.py: lists the listings of a Markdown document that
 * are checked against a source file, one "<language>: <file name>" line per
 * listing, skipping program output ("text") and listings flagged "!".
 *
 * The document's blocks come in already parsed; the printed lines go out as
 * a sequence.
 */
module CheckCodeListings {
  import opened Wrappers
  import opened PyStr
  import opened MarkdownFile

  /** `check_code_block(scl)`: nothing for output and ignored listings, otherwise the language and the file name. */
  function CheckCodeBlock(listing: Block): (r: Option<string>)
    requires listing.SourceCodeListing?
    ensures r.None? <==> listing.language == "text" || listing.ignore
    ensures r.Some? ==> StartsWith(r.value, listing.language + ": ") && EndsWith(r.value, listing.sourceFileName)
    ensures r.Some? ==> |r.value| == |listing.language| + 2 + |listing.sourceFileName|
  {
    if listing.language == "text" || listing.ignore then None
    else
      var line := listing.language + ": " + listing.sourceFileName;
      PrefixOfConcat(listing.language + ": ", listing.sourceFileName);
      SuffixOfConcat(listing.language + ": ", listing.sourceFileName);
      Some(line)
  }

  /** The lines printed for the listings, in order. */
  function Report(listings: seq<Block>): seq<string>
    requires forall i :: 0 <= i < |listings| ==> listings[i].SourceCodeListing?
    decreases |listings|
  {
    if listings == [] then []
    else
      var last := listings[|listings| - 1];
      Report(listings[..|listings| - 1]) + match CheckCodeBlock(last) { case Some(line) => [line] case None => [] }
  }

  /** How many of the listings print a line. */
  function Printing(listings: seq<Block>): nat
    requires forall i :: 0 <= i < |listings| ==> listings[i].SourceCodeListing?
    decreases |listings|
  {
    if listings == [] then 0
    else Printing(listings[..|listings| - 1]) + if CheckCodeBlock(listings[|listings| - 1]).Some? then 1 else 0
  }

  /** `check_code_listings(md)`: the lines printed for the document's blocks. */
  method CheckCodeListingsOf(blocks: seq<Block>) returns (printed: seq<string>)
    ensures printed == Report(CodeListings(blocks))
  {
    var listings := CodeListings(blocks);
    printed := [];
    for i := 0 to |listings|
      invariant printed == Report(listings[..i])
    {
      assert listings[..i + 1][..i] == listings[..i];
      var r := CheckCodeBlock(listings[i]);
      if r.Some? {
        printed := printed + [r.value];
      }
    }
    assert listings[..|listings|] == listings;
  }

  // ---------------------------------------------------------------- properties

  /** A printed line is never empty, so `if r:` prints exactly the results that are not None. */
  lemma ResultTruthy(listing: Block)
    requires listing.SourceCodeListing? && CheckCodeBlock(listing).Some?
    ensures CheckCodeBlock(listing).value != ""
  {
  }

  /** One line is printed per listing whose check gives a line. */
  lemma {:induction false} ReportLength(listings: seq<Block>)
    requires forall i :: 0 <= i < |listings| ==> listings[i].SourceCodeListing?
    ensures |Report(listings)| == Printing(listings)
    decreases |listings|
  {
    if listings != [] {
      ReportLength(listings[..|listings| - 1]);
    }
  }

  /** Printing for more listings only appends lines. */
  lemma {:induction false} ReportOnlyGrows(listings: seq<Block>, k: nat)
    requires forall i :: 0 <= i < |listings| ==> listings[i].SourceCodeListing?
    requires k <= |listings|
    ensures Report(listings[..k]) <= Report(listings)
    decreases |listings|
  {
    if k < |listings| {
      var init := listings[..|listings| - 1];
      ReportOnlyGrows(init, k);
      assert init[..k] == listings[..k];
      PrefixChain(Report(listings[..k]), Report(init), Report(listings));
    } else {
      assert listings[..k] == listings;
    }
  }

  /**
   * In document order: the line of the listing at `i`, when it prints one,
   * comes after the lines of the listings before it and is its own check's
   * line.
   */
  lemma ReportOrder(listings: seq<Block>, i: nat)
    requires forall j :: 0 <= j < |listings| ==> listings[j].SourceCodeListing?
    requires i < |listings| && CheckCodeBlock(listings[i]).Some?
    ensures Printing(listings[..i]) < |Report(listings)|
    ensures Report(listings)[Printing(listings[..i])] == CheckCodeBlock(listings[i]).value
  {
    var before := listings[..i];
    assert listings[..i + 1][..i] == before;
    ReportLength(before);
    ReportOnlyGrows(listings, i + 1);
  }

  /** A listing that prints nothing adds nothing, whatever comes before it. */
  lemma SilentListing(listings: seq<Block>, listing: Block)
    requires forall j :: 0 <= j < |listings| ==> listings[j].SourceCodeListing?
    requires listing.SourceCodeListing? && (listing.language == "text" || listing.ignore)
    ensures Report(listings + [listing]) == Report(listings)
  {
    assert (listings + [listing])[..|listings|] == listings;
  }

  /** The lines for the listings of consecutive runs of blocks are the lines of each run, in order. */
  lemma {:induction false} ReportAppend(a: seq<Block>, b: seq<Block>)
    requires forall j :: 0 <= j < |a| ==> a[j].SourceCodeListing?
    requires forall j :: 0 <= j < |b| ==> b[j].SourceCodeListing?
    ensures Report(a + b) == Report(a) + Report(b)
    decreases |b|
  {
    if b == [] {
      assert a + b == a;
    } else {
      var c := a + b;
      assert c[..|c| - 1] == a + b[..|b| - 1];
      ReportAppend(a, b[..|b| - 1]);
    }
  }
}
