/** Splitting a text at a one-character separator, joining it again, and trimming.

    The functions stand for Split, Join, TrimRight and TrimSpace of Go's strings package, and Split
    for the split of JavaScript's strings as well.  A text is a sequence of chars; for Go it is the
    bytes of UTF-8, one char each, so that TrimSpace has to look at up to three chars to find a
    white-space rune. */
module Strings {
  function Split(text: string, sep: char): (parts: seq<string>)
    ensures parts != []
  {
    if text == "" then [""]
    else
      var parts, c := Split(text[..|text| - 1], sep), text[|text| - 1];
      if c == sep then parts + [""]
      else parts[|parts| - 1 := parts[|parts| - 1] + [c]]
  }

  function Join(parts: seq<string>, sep: char): string {
    if parts == [] then ""
    else if |parts| == 1 then parts[0]
    else Join(parts[..|parts| - 1], sep) + [sep] + parts[|parts| - 1]
  }

  predicate IsPart(part: string, sep: char) {
    forall i | 0 <= i < |part| :: part[i] != sep
  }

  ghost predicate AreParts(parts: seq<string>, sep: char) {
    forall i | 0 <= i < |parts| :: IsPart(parts[i], sep)
  }

  lemma {:induction false} SplitGivesParts(text: string, sep: char)
    ensures AreParts(Split(text, sep), sep)
  {
    if text != "" {
      SplitGivesParts(text[..|text| - 1], sep);
    }
  }

  // Appending c to the last part.
  function Longer(parts: seq<string>, c: char): (r: seq<string>)
    requires parts != []
    ensures r != []
  {
    parts[|parts| - 1 := parts[|parts| - 1] + [c]]
  }

  lemma SplitOneMore(text: string, c: char, sep: char)
    ensures Split(text + [c], sep) == if c == sep then Split(text, sep) + [""] else Longer(Split(text, sep), c)
  {
    assert (text + [c])[..|text|] == text;
  }

  lemma LongerTwice(parts: seq<string>, front: string, c: char)
    requires parts != []
    ensures var last := |parts| - 1;
            Longer(parts[last := parts[last] + front], c) == parts[last := parts[last] + (front + [c])]
  {
    var last := |parts| - 1;
    assert parts[last] + front + [c] == parts[last] + (front + [c]);
  }

  // Appending a part's characters one by one only grows the last part.
  lemma {:induction false} SplitAppendsPart(text: string, part: string, sep: char)
    requires IsPart(part, sep)
    ensures var parts := Split(text, sep);
            Split(text + part, sep) == parts[|parts| - 1 := parts[|parts| - 1] + part]
  {
    var parts := Split(text, sep);
    if part == "" {
      assert text + part == text;
      assert parts[|parts| - 1] + part == parts[|parts| - 1];
    } else {
      var front, c := part[..|part| - 1], part[|part| - 1];
      SplitAppendsPart(text, front, sep);
      assert part == front + [c] && text + part == (text + front) + [c];
      SplitOneMore(text + front, c, sep);
      LongerTwice(parts, front, c);
    }
  }

  // A separator ends the last part, and the text up to the next one is a new part.
  lemma SplitOfOneMore(text: string, part: string, sep: char)
    requires IsPart(part, sep)
    ensures Split(text + [sep] + part, sep) == Split(text, sep) + [part]
  {
    var closed := text + [sep];
    assert closed[..|closed| - 1] == text;
    SplitAppendsPart(closed, part, sep);
    assert "" + part == part;
  }

  lemma {:induction false} SplitUndoesJoin(parts: seq<string>, sep: char)
    requires parts != [] && AreParts(parts, sep)
    ensures Split(Join(parts, sep), sep) == parts
  {
    var front, last := parts[..|parts| - 1], parts[|parts| - 1];
    if |parts| == 1 {
      SplitAppendsPart("", last, sep);
      assert "" + last == last;
    } else {
      SplitUndoesJoin(front, sep);
      SplitOfOneMore(Join(front, sep), last, sep);
    }
    assert parts == front + [last];
  }

  lemma {:induction false} JoinWithLongerLast(parts: seq<string>, c: char, sep: char)
    requires parts != []
    ensures var last := |parts| - 1;
            Join(parts[last := parts[last] + [c]], sep) == Join(parts, sep) + [c]
  {
    var last := |parts| - 1;
    var longer := parts[last := parts[last] + [c]];
    assert longer[..last] == parts[..last];
  }

  lemma {:induction false} JoinUndoesSplit(text: string, sep: char)
    ensures Join(Split(text, sep), sep) == text
  {
    if text != "" {
      var front, c := text[..|text| - 1], text[|text| - 1];
      JoinUndoesSplit(front, sep);
      if c == sep {
        var parts := Split(front, sep) + [""];
        assert parts[..|parts| - 1] == Split(front, sep);
      } else {
        JoinWithLongerLast(Split(front, sep), c, sep);
      }
    }
  }

  // Two lists of parts, with the last of the one and the first of the other put together.
  function Seam(a: seq<string>, b: seq<string>): (r: seq<string>)
    requires a != [] && b != []
    ensures |r| == |a| + |b| - 1
  {
    a[..|a| - 1] + [a[|a| - 1] + b[0]] + b[1..]
  }

  lemma SeamGrows(a: seq<string>, b: seq<string>, c: char)
    requires a != [] && b != []
    ensures Seam(a, b + [""]) == Seam(a, b) + [""]
    ensures Seam(a, Longer(b, c)) == Longer(Seam(a, b), c)
  {
    assert (b + [""])[1..] == b[1..] + [""];
    if |b| == 1 {
      assert a[|a| - 1] + b[0] + [c] == a[|a| - 1] + (b[0] + [c]);
    } else {
      assert Longer(b, c)[1..] == Longer(b[1..], c);
    }
  }

  /** Splitting a concatenation: only the part across the seam is put together. */
  lemma {:induction false} SplitOfConcat(u: string, v: string, sep: char)
    ensures Split(u + v, sep) == Seam(Split(u, sep), Split(v, sep))
  {
    if v == "" {
      assert u + v == u;
      var a := Split(u, sep);
      assert a[|a| - 1] + "" == a[|a| - 1];
    } else {
      var front, c := v[..|v| - 1], v[|v| - 1];
      SplitOfConcat(u, front, sep);
      assert u + v == (u + front) + [c] && v == front + [c];
      SplitOneMore(u + front, c, sep);
      SplitOneMore(front, c, sep);
      SeamGrows(Split(u, sep), Split(front, sep), c);
    }
  }

  function TrimRight(s: string, cut: set<char>): (r: string)
    ensures r <= s
    ensures r != "" ==> r[|r| - 1] !in cut
    ensures forall i | |r| <= i < |s| :: s[i] in cut
  {
    if s == "" || s[|s| - 1] !in cut then s else TrimRight(s[..|s| - 1], cut)
  }

  function TrimLeft(s: string, cut: set<char>): (r: string)
    ensures |r| <= |s|
    ensures r != "" ==> r[0] !in cut
  {
    if s == "" || s[0] !in cut then s else TrimLeft(s[1..], cut)
  }

  /** Trimming takes away characters of the cut set at the front and nothing else. */
  lemma {:induction false} TrimLeftIsSuffix(s: string, cut: set<char>)
    ensures var r := TrimLeft(s, cut);
            r == s[|s| - |r|..] && forall i | 0 <= i < |s| - |r| :: s[i] in cut
  {
    if s != "" && s[0] in cut {
      TrimLeftIsSuffix(s[1..], cut);
      var r := TrimLeft(s, cut);
      assert s[1..][|s| - 1 - |r|..] == s[|s| - |r|..];
      assert forall i | 0 < i < |s| - |r| :: s[i] == s[1..][i - 1];
    }
  }

  // ---------- strings.TrimSpace, on the bytes of UTF-8 ----------

  predicate IsOneByteSpace(c: char) {
    c == ' ' || '\t' <= c <= '\r'
  }

  // U+0085 and U+00A0
  predicate IsTwoByteSpace(b0: char, b1: char) {
    b0 == '\U{C2}' && (b1 == '\U{85}' || b1 == '\U{A0}')
  }

  // U+1680, U+2000 to U+200A, U+2028, U+2029, U+202F, U+205F and U+3000
  predicate IsThreeByteSpace(b0: char, b1: char, b2: char) {
    || (b0 == '\U{E1}' && b1 == '\U{9A}' && b2 == '\U{80}')
    || (b0 == '\U{E2}' && b1 == '\U{80}' &&
        ('\U{80}' <= b2 <= '\U{8A}' || b2 == '\U{A8}' || b2 == '\U{A9}' || b2 == '\U{AF}'))
    || (b0 == '\U{E2}' && b1 == '\U{81}' && b2 == '\U{9F}')
    || (b0 == '\U{E3}' && b1 == '\U{80}' && b2 == '\U{80}')
  }

  // Number of bytes of a white-space rune at the front, and at the end; 0 if there is none.
  function LeadingSpace(s: string): (n: nat)
    ensures n <= |s|
  {
    if s != "" && IsOneByteSpace(s[0]) then 1
    else if |s| >= 2 && IsTwoByteSpace(s[0], s[1]) then 2
    else if |s| >= 3 && IsThreeByteSpace(s[0], s[1], s[2]) then 3
    else 0
  }

  function TrailingSpace(s: string): (n: nat)
    ensures n <= |s|
  {
    var k := |s|;
    if k >= 1 && IsOneByteSpace(s[k - 1]) then 1
    else if k >= 2 && IsTwoByteSpace(s[k - 2], s[k - 1]) then 2
    else if k >= 3 && IsThreeByteSpace(s[k - 3], s[k - 2], s[k - 1]) then 3
    else 0
  }

  function TrimSpaceLeft(s: string): string
    decreases |s|
  {
    if LeadingSpace(s) == 0 then s else TrimSpaceLeft(s[LeadingSpace(s)..])
  }

  function TrimSpaceRight(s: string): string
    decreases |s|
  {
    if TrailingSpace(s) == 0 then s else TrimSpaceRight(s[..|s| - TrailingSpace(s)])
  }

  function TrimSpace(s: string): string {
    TrimSpaceRight(TrimSpaceLeft(s))
  }

  lemma LeadingSpaceStays(a: string, b: string)
    requires LeadingSpace(a) > 0
    ensures LeadingSpace(a + b) == LeadingSpace(a)
  {
    assert forall i | 0 <= i < |a| :: (a + b)[i] == a[i];
  }

  lemma TrailingSpaceStays(a: string, b: string)
    requires TrailingSpace(b) > 0
    ensures TrailingSpace(a + b) == TrailingSpace(b)
  {
    assert forall i | 0 <= i < |b| :: (a + b)[|a| + i] == b[i];
  }

  lemma {:induction false} LeftTrimmed(blank: string, s: string)
    requires TrimSpaceLeft(blank) == "" && LeadingSpace(s) == 0
    ensures TrimSpaceLeft(blank + s) == s
    decreases |blank|
  {
    if blank == "" {
      assert blank + s == s;
    } else {
      var n := LeadingSpace(blank);
      LeadingSpaceStays(blank, s);
      assert (blank + s)[n..] == blank[n..] + s;
      LeftTrimmed(blank[n..], s);
    }
  }

  lemma CutTail(s: string, blank: string, n: nat)
    requires n <= |blank|
    ensures (s + blank)[..|s + blank| - n] == s + blank[..|blank| - n]
  {}

  lemma {:induction false} RightTrimmed(s: string, blank: string)
    requires TrimSpaceRight(blank) == "" && TrailingSpace(s) == 0
    ensures TrimSpaceRight(s + blank) == s
    decreases |blank|
  {
    if blank == "" {
      assert s + blank == s;
    } else {
      var n := TrailingSpace(blank);
      TrailingSpaceStays(s, blank);
      CutTail(s, blank, n);
      RightTrimmed(s, blank[..|blank| - n]);
    }
  }
}
