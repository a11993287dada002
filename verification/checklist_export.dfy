/** The plain-text packing list that "copy" puts on the clipboard and
    "download" saves, and the name of the downloaded file. */
module ChecklistExport {
  import opened JsText
  import opened ChecklistTypes
  import opened ChecklistItems

  const CheckedMark: char := '\U{2611}'
  const UncheckedMark: char := '\U{2610}'

  /** One line per row: the ballot box, ticked when checked, a space, the
      row's text and a line break. */
  function ItemLine(item: ChecklistItem): string {
    [if item.checked then CheckedMark else UncheckedMark] + " " + item.text + "\n"
  }

  /** A line is the mark matching the row's state, a space, the row's text
      unchanged, and one line break. */
  lemma ItemLineShape(item: ChecklistItem)
    ensures |ItemLine(item)| == |item.text| + 3
    ensures ItemLine(item)[0] == (if item.checked then CheckedMark else UncheckedMark)
    ensures ItemLine(item)[1] == ' ' && ItemLine(item)[|item.text| + 2] == '\n'
    ensures ItemLine(item)[2..|item.text| + 2] == item.text
  {
  }

  /** The lines of all rows, in list order. */
  function ItemLines(items: seq<ChecklistItem>): (r: string)
    ensures r == [] <==> items == []
    ensures r != [] ==> r[|r| - 1] == '\n'
  {
    if items == [] then [] else ItemLines(items[..|items| - 1]) + ItemLine(items[|items| - 1])
  }

  /** The header: destination in capitals, the date range, the weather and
      the cultural tips, separated by blank lines. */
  function ExportHeader(destination: string, startDate: string, endDate: string, data: PackingListData): (r: string)
    ensures |r| >= 17 && r[..17] == "PACKING LIST FOR " && r[|r| - 2..] == "\n\n"
  {
    "PACKING LIST FOR " + ToUpper(destination) + "\n"
    + startDate + " to " + endDate + "\n\n"
    + "WEATHER: " + data.weatherContext + "\n\n"
    + "CULTURAL TIPS: " + data.culturalTips + "\n\n"
  }

  /** The whole exported text: header, then the item lines. */
  function ExportDocument(destination: string, startDate: string, endDate: string,
                          data: PackingListData, items: seq<ChecklistItem>): (r: string)
    ensures |r| >= 17 && r[..17] == "PACKING LIST FOR "
    ensures r == ExportHeader(destination, startDate, endDate, data) <==> items == []
  {
    ExportHeader(destination, startDate, endDate, data) + ItemLines(items)
  }

  /** The `forEach` that appends one line per row to the text being built. */
  method WriteItemLines(text: string, items: seq<ChecklistItem>) returns (out: string)
    ensures out == text + ItemLines(items)
  {
    out := text;
    var i := 0;
    while i < |items|
      invariant 0 <= i <= |items|
      invariant out == text + ItemLines(items[..i])
    {
      out := out + ItemLine(items[i]);
      assert items[..i + 1][..i] == items[..i];
      i := i + 1;
    }
    assert items[..|items|] == items;
  }

  /** The download name: "packing-list-", the destination in lower case with
      each run of white space turned into "-", then ".txt". */
  function ExportFileName(destination: string): (name: string)
    ensures |name| >= 17 && name[..13] == "packing-list-" && name[|name| - 4..] == ".txt"
  {
    "packing-list-" + ReplaceWhitespaceRuns(ToLower(destination), "-") + ".txt"
  }

  /** The fixed parts of the download name hold no white space. */
  lemma FileNameAffixesPlain()
    ensures NoWhitespace("packing-list-") && NoWhitespace(".txt")
  {
    var prefix := "packing-list-";
    forall i | 0 <= i < |prefix| ensures '!' <= prefix[i] <= '~' {
    }
  }

  /** The download name never contains white space. */
  lemma FileNameHasNoWhitespace(destination: string)
    ensures NoWhitespace(ExportFileName(destination))
  {
    var middle := ReplaceWhitespaceRuns(ToLower(destination), "-");
    ReplaceWhitespaceRunsLeavesNone(ToLower(destination), "-");
    FileNameAffixesPlain();
    NoWhitespaceConcat("packing-list-", middle);
    NoWhitespaceConcat("packing-list-" + middle, ".txt");
  }

  /** A destination without white space only has its capitals lowered. */
  lemma FileNameOfSingleWord(destination: string)
    requires NoWhitespace(destination)
    ensures ExportFileName(destination) == "packing-list-" + ToLower(destination) + ".txt"
  {
    var lower := ToLower(destination);
    forall i | 0 <= i < |lower| ensures !IsWhitespace(lower[i]) {
      LowerKeepsWhitespace(destination[i]);
    }
    ReplaceWhitespaceRunsKeepsPlain(lower, "-");
  }

  /** Lowering case keeps a white-space-free string free of white space. */
  lemma LowerStaysPlain(s: string)
    requires NoWhitespace(s)
    ensures NoWhitespace(ToLower(s))
  {
    var lower := ToLower(s);
    forall i | 0 <= i < |lower| ensures !IsWhitespace(lower[i]) {
      LowerKeepsWhitespace(s[i]);
    }
  }

  /** Two words with a run of white space between them, however long, give
      the two words lowered and joined by a single "-". */
  lemma FileNameJoinsWords(first: string, gap: string, second: string)
    requires NoWhitespace(first) && NoWhitespace(second)
    requires gap != [] && AllWhitespace(gap)
    ensures ExportFileName(first + gap + second)
            == "packing-list-" + ToLower(first) + "-" + ToLower(second) + ".txt"
  {
    var x, w, y := ToLower(first), ToLower(gap), ToLower(second);
    ToLowerConcat(first + gap, second);
    ToLowerConcat(first, gap);
    LowerStaysPlain(first);
    LowerStaysPlain(second);
    forall i | 0 <= i < |w| ensures IsWhitespace(w[i]) {
      LowerKeepsWhitespace(gap[i]);
    }
    ReplaceWhitespaceRunsJoin(x, w, y, "-");
    ReplaceWhitespaceRunsKeepsPlain(x, "-");
    ReplaceWhitespaceRunsKeepsPlain(y, "-");
  }

  /** The words of "New  York", one by one. */
  lemma NewYorkWords()
    ensures NoWhitespace("New") && NoWhitespace("York") && AllWhitespace("  ")
    ensures ToLower("New") == "new" && ToLower("York") == "york"
  {
  }

  /** The download name for a trip to "New  York". */
  lemma FileNameForNewYork()
    ensures ExportFileName("New  York") == "packing-list-new-york.txt"
  {
    NewYorkWords();
    FileNameJoinsWords("New", "  ", "York");
    assert "New" + "  " + "York" == "New  York";
    assert "packing-list-" + "new" + "-" + "york" + ".txt" == "packing-list-new-york.txt";
  }

  /** How often `c` occurs in `s`. */
  function CountChar(s: string, c: char): nat {
    if s == [] then 0 else CountChar(s[..|s| - 1], c) + (if s[|s| - 1] == c then 1 else 0)
  }

  lemma {:induction false} CountCharAppend(a: string, b: string, c: char)
    ensures CountChar(a + b, c) == CountChar(a, c) + CountChar(b, c)
    decreases |b|
  {
    if b == [] {
      assert a + b == a;
    } else {
      var n := |b| - 1;
      assert (a + b)[..|a| + n] == a + b[..n];
      CountCharAppend(a, b[..n], c);
    }
  }

  lemma {:induction false} CountCharAbsent(s: string, c: char)
    requires c !in s
    ensures CountChar(s, c) == 0
  {
    if s != [] {
      CountCharAbsent(s[..|s| - 1], c);
    }
  }

  /** A row's line carries one ticked box when the row is checked and none
      otherwise, provided its text has none of its own. */
  lemma TickedInLine(x: ChecklistItem)
    requires CheckedMark !in x.text
    ensures CountChar(ItemLine(x), CheckedMark) == if x.checked then 1 else 0
  {
    var box := [if x.checked then CheckedMark else UncheckedMark];
    assert ItemLine(x) == (box + " ") + (x.text + "\n");
    CountCharAppend(box + " ", x.text + "\n", CheckedMark);
    CountCharAppend(box, " ", CheckedMark);
    CountCharAppend(x.text, "\n", CheckedMark);
    CountCharAbsent(x.text, CheckedMark);
    assert box[..0] == [];
    assert " "[..0] == [];
    assert "\n"[..0] == [];
  }

  /** When no row's text contains the ticked box, the item lines carry exactly
      as many ticked boxes as the list has checked rows: the export agrees with
      the progress figure. */
  lemma {:induction false} TickedLinesMatchProgress(items: seq<ChecklistItem>)
    requires forall i :: 0 <= i < |items| ==> CheckedMark !in items[i].text
    ensures CountChar(ItemLines(items), CheckedMark) == CheckedCount(items)
  {
    if items != [] {
      var n := |items| - 1;
      var front := items[..n];
      assert forall i :: 0 <= i < |front| ==> front[i] == items[i];
      TickedLinesMatchProgress(front);
      CountCharAppend(ItemLines(front), ItemLine(items[n]), CheckedMark);
      TickedInLine(items[n]);
    }
  }
}
