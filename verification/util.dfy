/** The banner line `separator` of util.py. */
module Util {
  import opened PyStr

  const Begin := 5
  const Width := 50

  /** The banner's fixed head: `sep_char * BEGIN + " " + id + " "`. */
  function SeparatorHead(id: string, sepChar: string): string {
    Repeat(sepChar, Begin) + " " + id + " "
  }

  /**
   * `separator(id, sep_char)`: the head, then `sep_char` repeated until the
   * line is `Width` characters long (nothing when the head is already that
   * long), then a newline.
   */
  function Separator(id: string, sepChar: string): string {
    SeparatorHead(id, sepChar) + Repeat(sepChar, Width - |SeparatorHead(id, sepChar)|) + "\n"
  }

  /**
   * The banner opens with its head and ends with a newline; a head of
   * `Width` characters or more gets no padding.
   */
  lemma SeparatorShape(id: string, sepChar: string)
    ensures StartsWith(Separator(id, sepChar), SeparatorHead(id, sepChar))
    ensures EndsWith(Separator(id, sepChar), "\n")
    ensures |SeparatorHead(id, sepChar)| >= Width ==>
      Separator(id, sepChar) == SeparatorHead(id, sepChar) + "\n"
  {
    var start := SeparatorHead(id, sepChar);
    RepeatSpec(sepChar, Width - |start|);
    var r := Separator(id, sepChar);
    assert r[..|start|] == start;
  }

  /**
   * With a one-character `sep_char`, everything between the head and the
   * newline is `sep_char`, and an id of at most 43 characters yields a line
   * of `Width` characters plus the newline.
   */
  lemma SeparatorPadding(id: string, sepChar: string)
    requires |sepChar| == 1
    ensures |id| <= Width - Begin - 2 ==> |Separator(id, sepChar)| == Width + 1
    ensures forall i :: |SeparatorHead(id, sepChar)| <= i < |Separator(id, sepChar)| - 1 ==>
      Separator(id, sepChar)[i] == sepChar[0]
  {
    var start := SeparatorHead(id, sepChar);
    RepeatSpec(sepChar, Width - |start|);
    RepeatSpec(sepChar, Begin);
    var pad := Repeat(sepChar, Width - |start|);
    var r := Separator(id, sepChar);
    assert forall i :: |start| <= i < |r| - 1 ==> r[i] == pad[i - |start|];
  }
}
