/** The README normaliser of the gallery agent.  Text is a sequence of bytes, one char each. */
module GalleryText {
  import opened Sequences
  import opened Strings

  const BLANKS := {' ', '\t'}
  const LINE_END := {' ', '\t', '\r'}
  const NEWLINE := {'\n'}
  const MARGIN := {' ', '\t', '\n'}

  // ---------- cleanTextContent ----------

  // Trailing blanks removed from every line, and of a run of empty lines only the first kept.
  function CleanLines(lines: seq<string>): seq<string> {
    if lines == [] then []
    else
      var front, trimmed := lines[..|lines| - 1], TrimRight(lines[|lines| - 1], LINE_END);
      if trimmed == "" && front != [] && TrimRight(front[|front| - 1], LINE_END) == "" then CleanLines(front)
      else CleanLines(front) + [trimmed]
  }

  function CleanText(text: string): string {
    TrimRight(Join(CleanLines(Split(text, '\n')), '\n'), NEWLINE)
  }

  method CleanTextContent(text: string) returns (r: string)
    ensures r == CleanText(text)
  {
    var lines := Split(text, '\n');
    var cleaned: seq<string> := [];
    var prevEmpty := false;
    for i := 0 to |lines|
      invariant cleaned == CleanLines(lines[..i])
      invariant prevEmpty <==> i > 0 && TrimRight(lines[i - 1], LINE_END) == ""
    {
      assert lines[..i + 1][..i] == lines[..i];
      var trimmed := TrimRight(lines[i], LINE_END);
      if trimmed == "" {
        if !prevEmpty {
          cleaned := cleaned + [""];
        }
        prevEmpty := true;
      } else {
        cleaned := cleaned + [trimmed];
        prevEmpty := false;
      }
    }
    assert lines[..|lines|] == lines;
    r := TrimRight(Join(cleaned, '\n'), NEWLINE);
  }

  predicate IsTrimmed(line: string) {
    IsPart(line, '\n') && (line == "" || (var c := line[|line| - 1]; c != ' ' && c != '\t' && c != '\r'))
  }

  ghost predicate AreClean(lines: seq<string>) {
    && (forall i | 0 <= i < |lines| :: IsTrimmed(lines[i]))
    && (forall i | 0 < i < |lines| :: lines[i - 1] != "" || lines[i] != "")
  }

  lemma {:induction false} CleanLinesAreClean(lines: seq<string>)
    requires AreParts(lines, '\n')
    ensures AreClean(CleanLines(lines))
    ensures lines != [] ==>
              CleanLines(lines) != [] && CleanLines(lines)[|CleanLines(lines)| - 1] == TrimRight(lines[|lines| - 1], LINE_END)
  {
    if lines != [] {
      CleanLinesAreClean(lines[..|lines| - 1]);
    }
  }

  lemma {:induction false} CleanLinesFixed(lines: seq<string>)
    requires AreClean(lines)
    ensures CleanLines(lines) == lines
  {
    if lines != [] {
      var front := lines[..|lines| - 1];
      CleanLinesFixed(front);
      assert lines == front + [lines[|lines| - 1]];
    }
  }

  function WithContent(lines: seq<string>): seq<string> {
    if lines == [] then []
    else
      var trimmed := TrimRight(lines[|lines| - 1], LINE_END);
      WithContent(lines[..|lines| - 1]) + (if trimmed == "" then [] else [trimmed])
  }

  /** No line with content is lost, changed beyond its trailing blanks, or moved. */
  lemma {:induction false} ContentIsKept(lines: seq<string>)
    requires AreParts(lines, '\n')
    ensures WithContent(CleanLines(lines)) == WithContent(lines)
  {
    if lines != [] {
      var front, trimmed := lines[..|lines| - 1], TrimRight(lines[|lines| - 1], LINE_END);
      ContentIsKept(front);
      assert (CleanLines(front) + [trimmed])[..|CleanLines(front)|] == CleanLines(front);
    }
  }

  // Removing trailing newlines from joined lines is removing trailing empty lines.
  function DropEmptyTail(lines: seq<string>): seq<string> {
    if |lines| > 1 && lines[|lines| - 1] == "" then DropEmptyTail(lines[..|lines| - 1]) else lines
  }

  lemma {:induction false} JoinEndsLikeLastLine(lines: seq<string>)
    requires lines != [] && lines[|lines| - 1] != ""
    ensures Join(lines, '\n') != "" && Join(lines, '\n')[|Join(lines, '\n')| - 1] == lines[|lines| - 1][|lines[|lines| - 1]| - 1]
  {}

  lemma {:induction false} TrimRightOfJoin(lines: seq<string>)
    requires lines != [] && AreParts(lines, '\n')
    ensures TrimRight(Join(lines, '\n'), NEWLINE) == Join(DropEmptyTail(lines), '\n')
  {
    var last := lines[|lines| - 1];
    if |lines| > 1 && last == "" {
      var front := lines[..|lines| - 1];
      TrimRightOfJoin(front);
      assert Join(lines, '\n') == Join(front, '\n') + "\n";
      assert Join(lines, '\n')[..|Join(lines, '\n')| - 1] == Join(front, '\n');
    } else if last != "" {
      JoinEndsLikeLastLine(lines);
    }
  }

  lemma {:induction false} DropEmptyTailKeepsClean(lines: seq<string>)
    requires lines != [] && AreClean(lines)
    ensures var r := DropEmptyTail(lines);
            r != [] && AreClean(r) && DropEmptyTail(r) == r && AreParts(r, '\n')
  {
    if |lines| > 1 && lines[|lines| - 1] == "" {
      DropEmptyTailKeepsClean(lines[..|lines| - 1]);
    }
  }

  // The lines of a cleaned text.
  lemma LinesOfCleanText(text: string) returns (lines: seq<string>)
    ensures lines == Split(CleanText(text), '\n') && AreClean(lines) && DropEmptyTail(lines) == lines
    ensures CleanText(text) == Join(lines, '\n')
  {
    SplitGivesParts(text, '\n');
    var cleaned := CleanLines(Split(text, '\n'));
    CleanLinesAreClean(Split(text, '\n'));
    TrimRightOfJoin(cleaned);
    DropEmptyTailKeepsClean(cleaned);
    lines := DropEmptyTail(cleaned);
    SplitUndoesJoin(lines, '\n');
  }

  /** A cleaned text has no trailing blanks on any line and no two adjacent empty lines. */
  lemma CleanTextIsClean(text: string)
    ensures AreClean(Split(CleanText(text), '\n'))
  {
    var lines := LinesOfCleanText(text);
  }

  /** Cleaning twice is cleaning once. */
  lemma CleaningIsIdempotent(text: string)
    ensures CleanText(CleanText(text)) == CleanText(text)
  {
    var lines := LinesOfCleanText(text);
    CleanLinesFixed(lines);
    TrimRightOfJoin(lines);
  }

  // ---------- Lines by position ----------

  predicate LineStartsAt(text: string, i: nat)
    requires i <= |text|
  {
    i == 0 || text[i - 1] == '\n'
  }

  predicate EmptyLineAt(text: string, i: nat)
    requires i <= |text|
  {
    LineStartsAt(text, i) && (i == |text| || text[i] == '\n')
  }

  predicate EmptyPairAt(text: string, i: nat)
    requires i < |text|
  {
    EmptyLineAt(text, i) && EmptyLineAt(text, i + 1)
  }

  ghost predicate NoIndentedLine(text: string) {
    forall i | 0 <= i < |text| :: LineStartsAt(text, i) ==> text[i] != ' ' && text[i] != '\t'
  }

  ghost predicate NoAdjacentEmptyLines(text: string) {
    forall i | 0 <= i < |text| :: !EmptyPairAt(text, i)
  }

  ghost predicate IsUnindented(lines: seq<string>) {
    forall i | 0 <= i < |lines| :: lines[i] == "" || lines[i][0] !in BLANKS
  }

  lemma {:induction false} JoinEndsAtLineStartIff(lines: seq<string>)
    requires lines != [] && AreParts(lines, '\n')
    ensures LineStartsAt(Join(lines, '\n'), |Join(lines, '\n')|) <==> lines[|lines| - 1] == ""
  {
    if lines[|lines| - 1] != "" {
      JoinEndsLikeLastLine(lines);
    }
  }

  lemma {:induction false} PositionsOfJoin(lines: seq<string>)
    requires lines != [] && AreClean(lines) && IsUnindented(lines)
    ensures NoIndentedLine(Join(lines, '\n')) && NoAdjacentEmptyLines(Join(lines, '\n'))
  {
    if |lines| > 1 {
      var front, last := lines[..|lines| - 1], lines[|lines| - 1];
      PositionsOfJoin(front);
      JoinEndsAtLineStartIff(front);
      AppendLine(Join(front, '\n'), last, front[|front| - 1] == "");
    }
  }

  lemma AppendLine(text: string, last: string, endsEmpty: bool)
    requires NoIndentedLine(text) && NoAdjacentEmptyLines(text)
    requires endsEmpty <==> LineStartsAt(text, |text|)
    requires IsPart(last, '\n') && (last == "" || last[0] !in BLANKS) && !(endsEmpty && last == "")
    ensures NoIndentedLine(text + "\n" + last) && NoAdjacentEmptyLines(text + "\n" + last)
  {
    var r, m := text + "\n" + last, |text|;
    assert forall i | 0 <= i < m :: r[i] == text[i];
    assert r[m] == '\n';
    assert forall i | m < i < |r| :: r[i] == last[i - m - 1] != '\n';
    forall i | 0 <= i < |r|
      ensures LineStartsAt(r, i) ==> r[i] !in BLANKS
      ensures !EmptyPairAt(r, i)
    {
      if i < m {
        assert LineStartsAt(r, i) <==> LineStartsAt(text, i);
        assert EmptyLineAt(r, i) <==> EmptyLineAt(text, i);
        assert EmptyLineAt(r, i + 1) ==> EmptyLineAt(text, i + 1);
        assert !EmptyPairAt(text, i);
      }
    }
  }

  // ---------- extractDescription, from the line pass on ----------

  // Table lines and horizontal rules.
  // The prefixes "|", ":--", "---" and "===".
  predicate IsTableOrRule(ts: string) {
    || (|ts| >= 1 && ts[0] == '|')
    || (|ts| >= 3 && ts[0] == ':' && ts[1] == ts[2] == '-')
    || (|ts| >= 3 && ts[0] == ts[1] == ts[2] == '-')
    || (|ts| >= 3 && ts[0] == ts[1] == ts[2] == '=')
  }

  predicate IsDropped(line: string) {
    IsTableOrRule(TrimSpace(line))
  }

  const MAX_LEN := 1200

  predicate ParagraphBreakAt(s: string, i: nat) {
    i + 1 < |s| && s[i] == '\n' && s[i + 1] == '\n'
  }

  // strings.LastIndex(s, "\n\n")
  method LastParagraphBreak(s: string) returns (cut: int)
    ensures cut >= -1
    ensures cut >= 0 ==> ParagraphBreakAt(s, cut)
    ensures forall i: nat | ParagraphBreakAt(s, i) :: i <= cut
  {
    cut := |s| - 2;
    while cut >= 0 && !ParagraphBreakAt(s, cut)
      invariant cut >= -2
      invariant forall i: nat | ParagraphBreakAt(s, i) :: i <= cut
    {
      cut := cut - 1;
    }
    if cut < 0 {
      cut := -1;
    }
  }

  // A line flattened to the left margin, or nothing if it is dropped.
  function KeptLine(line: string): seq<string> {
    var t := TrimLeft(line, BLANKS);
    if IsDropped(t) then [] else [t]
  }

  function KeptLines(lines: seq<string>): seq<string> {
    if lines == [] then []
    else KeptLines(lines[..|lines| - 1]) + KeptLine(lines[|lines| - 1])
  }

  lemma TrimLeftOfLine(line: string)
    requires IsPart(line, '\n')
    ensures IsPart(TrimLeft(line, BLANKS), '\n')
  {
    var t := TrimLeft(line, BLANKS);
    TrimLeftIsSuffix(line, BLANKS);
    assert forall i | 0 <= i < |t| :: t[i] == line[|line| - |t| + i];
  }

  lemma KeptLineIsUnindented(line: string)
    requires IsPart(line, '\n')
    ensures AreParts(KeptLine(line), '\n') && IsUnindented(KeptLine(line))
  {
    TrimLeftOfLine(line);
  }

  lemma UnindentedConcat(a: seq<string>, b: seq<string>)
    requires AreParts(a, '\n') && IsUnindented(a) && AreParts(b, '\n') && IsUnindented(b)
    ensures AreParts(a + b, '\n') && IsUnindented(a + b)
  {}

  lemma {:induction false} KeptLinesAreUnindented(lines: seq<string>)
    requires AreParts(lines, '\n')
    ensures AreParts(KeptLines(lines), '\n') && IsUnindented(KeptLines(lines))
  {
    if lines != [] {
      var front := lines[..|lines| - 1];
      KeptLinesAreUnindented(front);
      KeptLineIsUnindented(lines[|lines| - 1]);
      UnindentedConcat(KeptLines(front), KeptLine(lines[|lines| - 1]));
    }
  }

  lemma KeptLinesOneMore(lines: seq<string>, i: nat)
    requires i < |lines|
    ensures var t := TrimLeft(lines[i], BLANKS);
            KeptLines(lines[..i + 1]) == KeptLines(lines[..i]) + (if IsDropped(t) then [] else [t])
  {
    assert lines[..i + 1][..i] == lines[..i];
  }

  method KeepLines(s: string) returns (kept: seq<string>)
    ensures kept == KeptLines(Split(s, '\n'))
  {
    var lines := Split(s, '\n');
    kept := [];
    for i := 0 to |lines|
      invariant kept == KeptLines(lines[..i])
    {
      KeptLinesOneMore(lines, i);
      var t := TrimLeft(lines[i], BLANKS);
      var dropped := IsDropped(t);
      if dropped {
        continue;
      }
      kept := kept + [t];
    }
    assert lines[..|lines|] == lines;
  }

  lemma {:induction false} CleanLinesUnindented(lines: seq<string>)
    requires IsUnindented(lines)
    ensures IsUnindented(CleanLines(lines))
  {
    if lines != [] {
      CleanLinesUnindented(lines[..|lines| - 1]);
    }
  }

  lemma {:induction false} DropEmptyTailUnindented(lines: seq<string>)
    requires IsUnindented(lines)
    ensures IsUnindented(DropEmptyTail(lines))
  {
    if |lines| > 1 && lines[|lines| - 1] == "" {
      DropEmptyTailUnindented(lines[..|lines| - 1]);
    }
  }

  lemma CleanedLinesByPosition(kept: seq<string>)
    requires AreParts(kept, '\n') && IsUnindented(kept)
    ensures NoIndentedLine(CleanText(Join(kept, '\n'))) && NoAdjacentEmptyLines(CleanText(Join(kept, '\n')))
  {
    var lines := if kept == [] then [""] else kept;
    assert Split(Join(kept, '\n'), '\n') == lines by {
      if kept != [] {
        SplitUndoesJoin(kept, '\n');
      }
    }
    var cleaned := CleanLines(lines);
    CleanLinesAreClean(lines);
    CleanLinesUnindented(lines);
    TrimRightOfJoin(cleaned);
    DropEmptyTailKeepsClean(cleaned);
    DropEmptyTailUnindented(cleaned);
    PositionsOfJoin(DropEmptyTail(cleaned));
  }

  lemma SuffixByPosition(s: string, r: string)
    requires NoIndentedLine(s) && NoAdjacentEmptyLines(s)
    requires |r| <= |s| && r == s[|s| - |r|..] && (r != "" ==> r[0] !in MARGIN)
    ensures NoIndentedLine(r) && NoAdjacentEmptyLines(r)
  {
    var k := |s| - |r|;
    forall i | 0 <= i < |r|
      ensures LineStartsAt(r, i) ==> r[i] !in BLANKS
      ensures !EmptyPairAt(r, i)
    {
      if i > 0 {
        assert LineStartsAt(r, i) <==> LineStartsAt(s, i + k);
        assert EmptyLineAt(r, i) <==> EmptyLineAt(s, i + k);
        assert EmptyLineAt(r, i + 1) <==> EmptyLineAt(s, i + k + 1);
        assert !EmptyPairAt(s, i + k);
      }
    }
  }

  lemma EllipsisByPosition(s: string, r: string)
    requires NoIndentedLine(s) && NoAdjacentEmptyLines(s)
    requires r <= s && r != "" && r[|r| - 1] !in MARGIN
    ensures NoIndentedLine(r + "\n\n...") && NoAdjacentEmptyLines(r + "\n\n...")
  {
    var out, k := r + "\n\n...", |r|;
    assert forall i | 0 <= i < k :: out[i] == s[i];
    assert out[k..] == "\n\n...";
    assert out[k] == '\n' && out[k + 1] == '\n' && out[k + 2] == out[k + 3] == out[k + 4] == '.';
    forall i | 0 <= i < |out|
      ensures LineStartsAt(out, i) ==> out[i] !in BLANKS
      ensures !EmptyPairAt(out, i)
    {
      if i < k {
        assert LineStartsAt(out, i) <==> LineStartsAt(s, i);
        assert EmptyLineAt(out, i) <==> EmptyLineAt(s, i);
        assert i + 1 < k ==> (EmptyLineAt(out, i + 1) <==> EmptyLineAt(s, i + 1));
        assert !EmptyPairAt(s, i);
      }
    }
  }

  // The text before truncation.
  function Flattened(s: string): string {
    TrimLeft(CleanText(Join(KeptLines(Split(s, '\n')), '\n')), MARGIN)
  }

  method FlattenDescription(s: string) returns (flat: string)
    ensures flat == Flattened(s)
    ensures NoIndentedLine(flat) && NoAdjacentEmptyLines(flat)
    ensures flat != "" ==> flat[0] !in MARGIN
  {
    var kept := KeepLines(s);
    SplitGivesParts(s, '\n');
    KeptLinesAreUnindented(Split(s, '\n'));
    var cleaned := CleanTextContent(Join(kept, '\n'));
    CleanedLinesByPosition(kept);
    flat := TrimLeft(cleaned, MARGIN);
    TrimLeftIsSuffix(cleaned, MARGIN);
    SuffixByPosition(cleaned, flat);
  }

  // ---------- Which lines survive ----------

  // A line is left out if, but for white space around it, it begins like a table row or a rule.
  predicate IsMarked(line: string) {
    var ts := TrimSpace(line);
    "|" <= ts || ":--" <= ts || "---" <= ts || "===" <= ts
  }

  function Unindented(lines: seq<string>): (r: seq<string>)
    ensures |r| == |lines| && forall i | 0 <= i < |lines| :: r[i] == TrimLeft(lines[i], {' ', '\t'})
  {
    seq(|lines|, i requires 0 <= i < |lines| => TrimLeft(lines[i], {' ', '\t'}))
  }

  lemma DroppedIffMarked(line: string)
    ensures IsDropped(line) <==> IsMarked(line)
  {
    var ts := TrimSpace(line);
    assert "|"[0] == '|' && ":--"[0] == ':' && ":--"[1] == ":--"[2] == '-';
    assert "|" <= ts <==> |ts| >= 1 && ts[0] == '|';
    assert ":--" <= ts <==> |ts| >= 3 && ts[0] == ':' && ts[1] == ts[2] == '-';
    assert "---" <= ts <==> |ts| >= 3 && ts[0] == ts[1] == ts[2] == '-';
    assert "===" <= ts <==> |ts| >= 3 && ts[0] == ts[1] == ts[2] == '=';
  }

  /** The line pass keeps every line that is not marked, without its indentation, and no other, in order. */
  lemma {:induction false} KeptLinesAreUnmarked(lines: seq<string>)
    ensures Picks(KeptLines(lines), Unindented(lines), line => !IsMarked(line))
  {
    if lines == [] {
      PicksNone((line: string) => !IsMarked(line));
    } else {
      var front, t := lines[..|lines| - 1], TrimLeft(lines[|lines| - 1], {' ', '\t'});
      KeptLinesAreUnmarked(front);
      PicksOneMore(KeptLines(front), Unindented(front), line => !IsMarked(line), t);
      DroppedIffMarked(t);
      assert Unindented(lines) == Unindented(front) + [t];
    }
  }

  lemma {:induction false} EmptyTailHasNoContent(lines: seq<string>)
    ensures WithContent(DropEmptyTail(lines)) == WithContent(lines)
  {
    if |lines| > 1 && lines[|lines| - 1] == "" {
      EmptyTailHasNoContent(lines[..|lines| - 1]);
    }
  }

  lemma {:induction false} EmptyHeadHasNoContent(lines: seq<string>)
    ensures WithContent([""] + lines) == WithContent(lines)
  {
    if lines == [] {
      assert ([""] + lines)[..0] == [];
    } else {
      var n := |lines| - 1;
      assert ([""] + lines)[..n + 1] == [""] + lines[..n];
      EmptyHeadHasNoContent(lines[..n]);
    }
  }

  lemma RestIsUnindented(text: string)
    requires NoIndentedLine(text) && text != "" && text[0] in MARGIN
    ensures text == ['\n'] + text[1..] && NoIndentedLine(text[1..])
  {
    var rest := text[1..];
    assert LineStartsAt(text, 0);
    forall i | 0 <= i < |rest| && LineStartsAt(rest, i)
      ensures rest[i] != ' ' && rest[i] != '\t'
    {
      assert LineStartsAt(text, i + 1) && rest[i] == text[i + 1];
    }
  }

  lemma EmptyLineInFront(rest: string)
    ensures WithContent(Split(['\n'] + rest, '\n')) == WithContent(Split(rest, '\n'))
  {
    assert ['\n'][..0] == "" && Split(['\n'], '\n') == [""] + [""];
    SplitOfConcat(['\n'], rest, '\n');
    var parts := Split(rest, '\n');
    assert "" + parts[0] == parts[0];
    assert Seam([""] + [""], parts) == [""] + parts;
    EmptyHeadHasNoContent(parts);
  }

  // Without indented lines, trimming the margin takes away empty lines only.
  lemma {:induction false} MarginHasNoContent(text: string)
    requires NoIndentedLine(text)
    ensures WithContent(Split(TrimLeft(text, MARGIN), '\n')) == WithContent(Split(text, '\n'))
  {
    if text != "" && text[0] in MARGIN {
      RestIsUnindented(text);
      MarginHasNoContent(text[1..]);
      EmptyLineInFront(text[1..]);
    }
  }

  /** The description before the cut has exactly the content of the lines that are not marked: they are
      all there, unchanged but for blanks at either end, in order, and nothing else is. */
  lemma DescriptionKeepsContent(s: string)
    ensures WithContent(Split(Flattened(s), '\n')) == WithContent(KeptLines(Split(s, '\n')))
  {
    var kept := KeptLines(Split(s, '\n'));
    SplitGivesParts(s, '\n');
    KeptLinesAreUnindented(Split(s, '\n'));
    CleanedLinesByPosition(kept);
    MarginHasNoContent(CleanText(Join(kept, '\n')));
    CleanedContent(kept);
  }

  lemma CleanedContent(kept: seq<string>)
    requires AreParts(kept, '\n')
    ensures WithContent(Split(CleanText(Join(kept, '\n')), '\n')) == WithContent(kept)
  {
    var lines := if kept == [] then [""] else kept;
    assert Split(Join(kept, '\n'), '\n') == lines by {
      if kept != [] {
        SplitUndoesJoin(kept, '\n');
      }
    }
    var cleaned := CleanLines(lines);
    CleanLinesAreClean(lines);
    ContentIsKept(lines);
    TrimRightOfJoin(cleaned);
    DropEmptyTailKeepsClean(cleaned);
    EmptyTailHasNoContent(cleaned);
    SplitUndoesJoin(DropEmptyTail(cleaned), '\n');
  }

  // Where a long text is cut: at the last paragraph break within the limit, unless that would leave
  // less than a third, and else at the limit.
  ghost predicate IsCut(s: string, cut: nat) {
    && MAX_LEN / 3 <= cut <= MAX_LEN
    && (cut < MAX_LEN ==> ParagraphBreakAt(s, cut))
    && forall i: nat | MAX_LEN / 3 <= i < MAX_LEN - 1 && ParagraphBreakAt(s, i) :: i <= cut < MAX_LEN
  }

  /** A cut is made at the last paragraph break from byte 400 on that fits into 1200 bytes, or at byte 1200
      if there is none. */
  lemma CutPlace(s: string, cut: nat)
    requires |s| > 1200 && IsCut(s, cut)
    ensures 400 <= cut <= 1200
    ensures cut < 1200 ==> s[cut] == s[cut + 1] == '\n'
    ensures forall i: nat | 400 <= i < 1199 && s[i] == '\n' && s[i + 1] == '\n' :: i <= cut < 1200
  {
    forall i: nat | 400 <= i < 1199 && s[i] == '\n' && s[i + 1] == '\n'
      ensures i <= cut < 1200
    {
      assert ParagraphBreakAt(s, i);
    }
  }

  ghost predicate IsTruncation(r: string, s: string) {
    if |s| <= MAX_LEN then r == s
    else exists cut: nat :: cut <= |s| && IsCut(s, cut) && r == TrimRight(s[..cut], MARGIN) + "\n\n..."
  }

  method Truncate(s: string) returns (r: string)
    requires NoIndentedLine(s) && NoAdjacentEmptyLines(s) && (s != "" ==> s[0] !in MARGIN)
    ensures IsTruncation(r, s)
    ensures |r| <= MAX_LEN + 5
    ensures NoIndentedLine(r) && NoAdjacentEmptyLines(r) && (r != "" ==> r[0] !in MARGIN)
  {
    r := s;
    if |s| > MAX_LEN {
      var cut := LastParagraphBreak(s[..MAX_LEN]);
      assert forall i: nat | i < MAX_LEN - 1 :: ParagraphBreakAt(s[..MAX_LEN], i) <==> ParagraphBreakAt(s, i);
      if cut < MAX_LEN / 3 {
        cut := MAX_LEN;
      }
      assert IsCut(s, cut);
      var body := TrimRight(s[..cut], MARGIN);
      assert body != "" && body[0] == s[0] by {
        assert s[..cut][0] == s[0] && s[0] !in MARGIN;
      }
      EllipsisByPosition(s, body);
      r := body + "\n\n...";
    }
  }

  /** Whatever the earlier stages of extractDescription hand over, the description has at most 1205
      bytes, no line that starts with a space or tab, no leading empty line and no two adjacent empty
      lines. */
  method ExtractDescription(s: string) returns (r: string)
    ensures IsTruncation(r, Flattened(s))
    ensures |r| <= 1205
    ensures NoIndentedLine(r) && NoAdjacentEmptyLines(r)
    ensures r != "" ==> !EmptyLineAt(r, 0)
  {
    var flat := FlattenDescription(s);
    r := Truncate(flat);
  }

  // ---------- Is a description clean? ----------

  lemma CleanLinesStay(r: string)
    requires AreClean(Split(r, '\n')) && (r == "" || r[|r| - 1] != '\n')
    ensures CleanText(r) == r
  {
    CleanLinesFixed(Split(r, '\n'));
    JoinUndoesSplit(r, '\n');
  }

  lemma CleanTextFixedIff(r: string)
    ensures CleanText(r) == r <==> AreClean(Split(r, '\n')) && (r == "" || r[|r| - 1] != '\n')
  {
    if CleanText(r) == r {
      CleanTextIsClean(r);
    } else if AreClean(Split(r, '\n')) && (r == "" || r[|r| - 1] != '\n') {
      CleanLinesStay(r);
      assert false;
    }
  }

  lemma LastPartOfSplit(u: string)
    requires u != "" && u[|u| - 1] != '\n'
    ensures var last := Split(u, '\n')[|Split(u, '\n')| - 1]; last != "" && last[|last| - 1] == u[|u| - 1]
  {}

  lemma {:induction false} FirstPartOfSplit(v: string)
    requires v != "" && v[0] != '\n'
    ensures Split(v, '\n')[0] != ""
  {
    if |v| > 1 {
      FirstPartOfSplit(v[..|v| - 1]);
    }
  }

  lemma SeamAt(a: seq<string>, b: seq<string>)
    requires a != [] && b != []
    ensures forall i | 0 <= i < |a| - 1 :: Seam(a, b)[i] == a[i]
    ensures Seam(a, b)[|a| - 1] == a[|a| - 1] + b[0]
    ensures forall i | 0 < i < |b| :: Seam(a, b)[|a| - 1 + i] == b[i]
  {}

  lemma EndOfTrimmed(x: string, y: string)
    requires IsTrimmed(x + y)
    ensures IsTrimmed(y)
  {
    var line := x + y;
    assert forall i | 0 <= i < |y| :: y[i] == line[|x| + i];
    assert y != "" ==> y[|y| - 1] == line[|line| - 1];
  }

  lemma SeamEndIsClean(a: seq<string>, b: seq<string>)
    requires a != [] && b != [] && AreClean(Seam(a, b)) && (b[0] != "" || |b| == 1)
    ensures AreClean(b)
  {
    SeamAt(a, b);
    var all, k := Seam(a, b), |a| - 1;
    assert IsTrimmed(all[k]);
    EndOfTrimmed(a[k], b[0]);
    forall i | 0 <= i < |b|
      ensures IsTrimmed(b[i]) && (i > 0 ==> b[i - 1] != "" || b[i] != "")
    {
      if i > 0 {
        assert IsTrimmed(all[k + i]);
      }
      if i > 1 {
        assert all[k + i - 1] != "" || all[k + i] != "";
      }
    }
  }

  // What follows the leading blank lines of a clean text is clean.
  lemma SuffixIsClean(u: string, v: string)
    requires AreClean(Split(u + v, '\n')) && (v != "" ==> v[0] !in MARGIN)
    ensures AreClean(Split(v, '\n'))
  {
    SplitOfConcat(u, v, '\n');
    if v != "" {
      FirstPartOfSplit(v);
    }
    SeamEndIsClean(Split(u, '\n'), Split(v, '\n'));
  }

  lemma TrimLeftKeepsClean(clean: string)
    requires CleanText(clean) == clean
    ensures CleanText(TrimLeft(clean, MARGIN)) == TrimLeft(clean, MARGIN)
  {
    var flat := TrimLeft(clean, MARGIN);
    var margin := clean[..|clean| - |flat|];
    TrimLeftIsSuffix(clean, MARGIN);
    assert clean == margin + flat;
    CleanTextFixedIff(clean);
    SuffixIsClean(margin, flat);
    CleanTextFixedIff(flat);
  }

  /** A description that was not cut is clean. */
  lemma FlattenedIsClean(s: string)
    ensures CleanText(Flattened(s)) == Flattened(s)
    ensures Flattened(s) != "" ==> Flattened(s)[0] !in MARGIN
  {
    var joined := Join(KeptLines(Split(s, '\n')), '\n');
    CleaningIsIdempotent(joined);
    TrimLeftKeepsClean(CleanText(joined));
  }

  lemma EllipsisLines(body: string)
    ensures Split(body + "\n\n...", '\n') == Split(body, '\n') + ["", "..."]
  {
    var b1 := body + ['\n'];
    var b2 := b1 + ['\n'];
    SplitOneMore(body, '\n', '\n');
    SplitOneMore(b1, '\n', '\n');
    assert IsPart("...", '\n');
    SplitAppendsPart(b2, "...", '\n');
    assert body + "\n\n..." == b2 + "...";
    assert "" + "..." == "...";
  }

  lemma SeamStartIsCleanIff(a: seq<string>, b: seq<string>)
    requires a != [] && b != [] && AreClean(Seam(a, b)) && a[|a| - 1] != ""
    ensures AreClean(a) <==> IsTrimmed(a[|a| - 1])
  {
    SeamAt(a, b);
    var all, k := Seam(a, b), |a| - 1;
    forall i | 0 <= i < k
      ensures IsTrimmed(a[i]) && (i > 0 ==> a[i - 1] != "" || a[i] != "")
    {
      assert IsTrimmed(all[i]);
      if i > 0 {
        assert all[i - 1] != "" || all[i] != "";
      }
    }
  }

  lemma WithEllipsisCleanIff(a: seq<string>)
    requires a != [] && a[|a| - 1] != ""
    ensures AreClean(a + ["", "..."]) <==> AreClean(a)
  {
    var lines, n := a + ["", "..."], |a|;
    assert forall i | 0 <= i < n :: lines[i] == a[i];
    assert lines[n] == "" && lines[n + 1] == "...";
    assert IsTrimmed("") && IsTrimmed("...");
    if AreClean(a) {
      forall i | 0 < i < n + 2
        ensures IsTrimmed(lines[i]) && (lines[i - 1] != "" || lines[i] != "")
      {
        if i < n {
          assert IsTrimmed(a[i]) && (a[i - 1] != "" || a[i] != "");
        }
      }
      assert IsTrimmed(lines[0]);
    }
    if AreClean(lines) {
      forall i | 0 <= i < n
        ensures IsTrimmed(a[i]) && (i > 0 ==> a[i - 1] != "" || a[i] != "")
      {
        assert IsTrimmed(lines[i]);
      }
    }
  }

  // A piece of a clean text that ends within a line, with the ellipsis, is clean unless it ends in
  // a carriage return.
  lemma CutIsCleanIff(body: string, rest: string)
    requires AreClean(Split(body + rest, '\n')) && body != "" && body[|body| - 1] !in MARGIN
    ensures AreClean(Split(body + "\n\n...", '\n')) <==> body[|body| - 1] != '\r'
  {
    var a := Split(body, '\n');
    SplitOfConcat(body, rest, '\n');
    EllipsisLines(body);
    LastPartOfSplit(body);
    SplitGivesParts(body, '\n');
    SeamStartIsCleanIff(a, Split(rest, '\n'));
    WithEllipsisCleanIff(a);
  }

  lemma CutTextIsCleanIff(flat: string, body: string)
    requires CleanText(flat) == flat && body <= flat && body != "" && body[|body| - 1] !in MARGIN
    ensures CleanText(body + "\n\n...") == body + "\n\n..." <==> body[|body| - 1] != '\r'
  {
    var r := body + "\n\n...";
    CleanTextFixedIff(flat);
    assert flat == body + flat[|body|..];
    CutIsCleanIff(body, flat[|body|..]);
    CleanTextFixedIff(r);
    assert r[|r| - 1] == '.';
  }

  lemma TruncationIsCleanIff(flat: string, cut: nat)
    requires CleanText(flat) == flat && flat != "" && flat[0] !in MARGIN && 0 < cut <= |flat|
    ensures var body := TrimRight(flat[..cut], MARGIN);
            body != "" && (CleanText(body + "\n\n...") == body + "\n\n..." <==> body[|body| - 1] != '\r')
  {
    var body := TrimRight(flat[..cut], MARGIN);
    assert flat[..cut][0] == flat[0];
    CutTextIsCleanIff(flat, body);
  }

  /** A description that was cut is clean, so that cleaning it again changes nothing, exactly when the
      text before the ellipsis does not end in a carriage return. */
  lemma TruncatedIsCleanIff(s: string, cut: nat)
    ensures var flat := Flattened(s);
            |flat| > MAX_LEN && cut <= |flat| && IsCut(flat, cut) ==>
              var body := TrimRight(flat[..cut], MARGIN);
              body != "" && (CleanText(body + "\n\n...") == body + "\n\n..." <==> body[|body| - 1] != '\r')
  {
    FlattenedIsClean(s);
    var flat := Flattened(s);
    if |flat| > MAX_LEN && cut <= |flat| && IsCut(flat, cut) {
      TruncationIsCleanIff(flat, cut);
    }
  }

  // ---------- A text whose description is not clean ----------

  function Xs(n: nat): string {
    seq(n, i => 'x')
  }

  function YLine(): string {
    seq(2, i => if i == 0 then '\r' else 'y')
  }

  // 1198 letters, a line feed, a carriage return and one more letter
  function CarriageReturnAtCut(): string {
    Xs(1198) + ['\n'] + YLine()
  }

  lemma XLineIsKept(n: nat)
    requires n > 0
    ensures KeptLine(Xs(n)) == [Xs(n)] && IsTrimmed(Xs(n)) && Xs(n)[0] !in MARGIN
  {
    var x := Xs(n);
    assert x[0] == 'x' && x[n - 1] == 'x';
    assert TrimSpaceLeft(x) == x && TrimSpaceRight(x) == x;
  }

  lemma YLineIsTrimmed(y: string)
    requires |y| == 2 && y[0] == '\r' && y[1] == 'y'
    ensures TrimSpace(y) == y[1..]
  {
    var t := y[1..];
    assert |t| == 1 && t[0] == 'y';
    assert LeadingSpace(y) == 1 && LeadingSpace(t) == 0 && TrailingSpace(t) == 0;
    assert TrimSpaceLeft(y) == TrimSpaceLeft(y[LeadingSpace(y)..]);
  }

  lemma YLineIsKept(y: string)
    requires |y| == 2 && y[0] == '\r' && y[1] == 'y'
    ensures KeptLine(y) == [y] && IsTrimmed(y)
  {
    YLineIsTrimmed(y);
    assert TrimLeft(y, BLANKS) == y;
  }

  lemma TwoLinesAreKept(x: string, y: string)
    requires KeptLine(x) == [x] && KeptLine(y) == [y]
    ensures KeptLines([x, y]) == [x, y]
  {
    assert [x, y][..1] == [x] && [x][..0] == [];
    assert KeptLines([x]) == KeptLines([]) + KeptLine(x);
    assert KeptLines([x, y]) == KeptLines([x]) + KeptLine(y);
  }

  lemma TwoLinesAreClean(x: string, y: string)
    requires IsTrimmed(x) && IsTrimmed(y) && x != "" && y != ""
    ensures var s := x + ['\n'] + y; s == Join([x, y], '\n') && Split(s, '\n') == [x, y] && CleanText(s) == s
  {
    var lines, s := [x, y], x + ['\n'] + y;
    assert lines[..1] == [x];
    SplitUndoesJoin(lines, '\n');
    assert AreClean(lines);
    CleanTextFixedIff(s);
    assert s[|s| - 1] == y[|y| - 1];
  }

  lemma CleanIsFlat(s: string, lines: seq<string>)
    requires s == Join(lines, '\n') && Split(s, '\n') == lines && KeptLines(lines) == lines
    requires CleanText(s) == s && s != "" && s[0] !in MARGIN
    ensures Flattened(s) == s
  {}

  lemma CarriageReturnIsFlat()
    ensures Flattened(CarriageReturnAtCut()) == CarriageReturnAtCut()
  {
    XLineIsKept(1198);
    assert |YLine()| == 2 && YLine()[0] == '\r' && YLine()[1] == 'y';
    YLineIsKept(YLine());
    TwoLinesAreKept(Xs(1198), YLine());
    TwoLinesAreClean(Xs(1198), YLine());
    assert CarriageReturnAtCut()[0] == 'x';
    CleanIsFlat(CarriageReturnAtCut(), [Xs(1198), YLine()]);
  }

  lemma CarriageReturnIsCut()
    ensures var s := CarriageReturnAtCut();
            |s| == 1201 && IsCut(s, 1200) && TrimRight(s[..1200], MARGIN) == s[..1200] && s[1199] == '\r'
  {
    var s := CarriageReturnAtCut();
    assert s[..1200][1199] == '\r';
    assert forall i: nat | i < 1198 :: s[i] == 'x';
    assert forall i: nat :: !ParagraphBreakAt(s, i);
  }

  lemma CutTextIsTruncation(flat: string, cut: nat)
    requires |flat| > MAX_LEN && cut <= |flat| && IsCut(flat, cut) && TrimRight(flat[..cut], MARGIN) == flat[..cut]
    ensures IsTruncation(flat[..cut] + "\n\n...", flat)
  {}

  /** It is cut after the carriage return, and cleaning its description again would change it. */
  lemma CutCanLeaveCarriageReturn()
    ensures var s := CarriageReturnAtCut();
            |s| == 1201 && IsTruncation(s[..1200] + "\n\n...", Flattened(s)) &&
            CleanText(s[..1200] + "\n\n...") != s[..1200] + "\n\n..."
  {
    var s := CarriageReturnAtCut();
    CarriageReturnIsFlat();
    CarriageReturnIsCut();
    CutTextIsTruncation(s, 1200);
    TruncatedIsCleanIff(s, 1200);
    assert s[..1200][1199] == s[1199];
  }
}
