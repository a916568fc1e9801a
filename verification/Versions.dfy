/** The version comparison that decides whether the desktop app offers an update: numeric components
    read as the JavaScript parser reads them, and their lexicographic order with missing ones as 0. */
module Versions {
  import opened Decimals
  import opened Strings
  import opened Wrappers

  // ---------- parseInt(s, 10) ----------

  // White space and line terminators of ECMAScript.
  predicate IsSpace(c: char) {
    c in {'\t', '\n', '\r', ' ', '\U{000B}', '\U{000C}', '\U{00A0}', '\U{FEFF}', '\U{1680}', '\U{2028}', '\U{2029}',
          '\U{202F}', '\U{205F}', '\U{3000}'} || '\U{2000}' <= c <= '\U{200A}'
  }

  function SkipSpace(s: string): string {
    if s == "" || !IsSpace(s[0]) then s else SkipSpace(s[1..])
  }

  // None is NaN. What follows the digits is ignored.
  function ParseInt(s: string): Option<int> {
    var t := SkipSpace(s);
    var negative := t != "" && t[0] == '-';
    var u := if t != "" && t[0] in {'+', '-'} then t[1..] else t;
    var n := LeadingDigits(u);
    if n == 0 then None
    else
      var v := Value(u[..n]);
      Some(if negative then -v else v)
  }

  function Number(part: string): int {
    var n := ParseInt(part);
    if n.Some? then n.value else 0
  }

  function Numbers(parts: seq<string>): seq<int> {
    seq(|parts|, i requires 0 <= i < |parts| => Number(parts[i]))
  }

  // A missing version reads as the empty one.
  function Components(version: Option<string>): (p: seq<int>)
    ensures p != []
  {
    Numbers(Split(if version.Some? then version.value else "", '.'))
  }

  // ---------- compareVersions ----------

  function At(p: seq<int>, i: nat): int {
    if i < |p| then p[i] else 0
  }

  // p and q differ first at i, and p is smaller there; a missing component counts as 0.
  ghost predicate SmallerAt(p: seq<int>, q: seq<int>, i: nat) {
    At(p, i) < At(q, i) && forall j: nat | j < i :: At(p, j) == At(q, j)
  }

  ghost predicate Smaller(p: seq<int>, q: seq<int>) {
    exists i: nat :: SmallerAt(p, q, i)
  }

  ghost predicate SameAt(p: seq<int>, q: seq<int>) {
    forall i: nat :: At(p, i) == At(q, i)
  }

  /** The result is the lexicographic order of the zero-padded components: each sign exactly when that
      order says so. */
  method CompareVersions(a: Option<string>, b: Option<string>) returns (c: int)
    ensures c in {-1, 0, 1}
    ensures c == -1 <==> Smaller(Components(a), Components(b))
    ensures c == 1 <==> Smaller(Components(b), Components(a))
    ensures c == 0 <==> SameAt(Components(a), Components(b))
  {
    var pa, pb := Components(a), Components(b);
    var len := if |pa| > |pb| then |pa| else |pb|;
    for i := 0 to len
      invariant forall j: nat | j < i :: At(pa, j) == At(pb, j)
    {
      var x, y := At(pa, i), At(pb, i);
      if x > y {
        assert SmallerAt(pb, pa, i);
        AtMostOneWay(pb, pa);
        return 1;
      }
      if x < y {
        assert SmallerAt(pa, pb, i);
        AtMostOneWay(pa, pb);
        return -1;
      }
    }
    assert SameAt(pa, pb);
    AtMostOneWay(pa, pb);
    AtMostOneWay(pb, pa);
    return 0;
  }

  lemma AtMostOneWay(p: seq<int>, q: seq<int>)
    ensures Smaller(p, q) ==> !Smaller(q, p) && !SameAt(p, q)
  {
    if i: nat :| SmallerAt(p, q, i) {
      assert !SameAt(p, q);
    }
  }

  // ---------- The order ----------

  // The first place where p and q differ, or the longer length.
  function FirstDifference(p: seq<int>, q: seq<int>, from: nat): (i: nat)
    ensures forall j: nat | from <= j < i :: At(p, j) == At(q, j)
    ensures At(p, i) != At(q, i) || (i >= |p| && i >= |q|)
    decreases |p| + |q| - from
  {
    if At(p, from) != At(q, from) || (from >= |p| && from >= |q|) then from
    else FirstDifference(p, q, from + 1)
  }

  /** The order is total: of any two versions one is smaller, or they are the same. */
  lemma OrderIsTotal(p: seq<int>, q: seq<int>)
    ensures Smaller(p, q) || Smaller(q, p) || SameAt(p, q)
  {
    var i := FirstDifference(p, q, 0);
    if At(p, i) < At(q, i) {
      assert SmallerAt(p, q, i);
    } else if At(p, i) > At(q, i) {
      assert SmallerAt(q, p, i);
    } else {
      assert SameAt(p, q);
    }
  }

  /** It is transitive, and a chain is strict as soon as one of its links is. */
  lemma OrderIsTransitive(p: seq<int>, q: seq<int>, r: seq<int>)
    requires Smaller(p, q) || SameAt(p, q)
    requires Smaller(q, r) || SameAt(q, r)
    ensures Smaller(p, r) || SameAt(p, r)
    ensures SameAt(p, r) <==> SameAt(p, q) && SameAt(q, r)
  {
    if Smaller(p, q) && Smaller(q, r) {
      var i: nat :| SmallerAt(p, q, i);
      var j: nat :| SmallerAt(q, r, j);
      assert SmallerAt(p, r, if i < j then i else j);
    } else if Smaller(p, q) {
      var i: nat :| SmallerAt(p, q, i);
      assert SmallerAt(p, r, i);
    } else if Smaller(q, r) {
      var j: nat :| SmallerAt(q, r, j);
      assert SmallerAt(p, r, j);
    }
    AtMostOneWay(p, q);
    AtMostOneWay(q, r);
    AtMostOneWay(p, r);
  }

  function DropZeros(p: seq<int>): (r: seq<int>)
    ensures r <= p
    ensures r != [] ==> r[|r| - 1] != 0
    ensures forall i | |r| <= i < |p| :: p[i] == 0
  {
    if p == [] || p[|p| - 1] != 0 then p else DropZeros(p[..|p| - 1])
  }

  lemma LongerDiffers(p: seq<int>, q: seq<int>)
    requires SameAt(p, q)
    ensures |DropZeros(q)| <= |DropZeros(p)|
  {
    var s := DropZeros(q);
    if s != [] {
      var last: nat := |s| - 1;
      assert At(p, last) == At(q, last) == s[last];
    }
  }

  /** Two versions compare as equal exactly when they agree after dropping trailing zeros. */
  lemma SameIffTrailingZeros(p: seq<int>, q: seq<int>)
    ensures SameAt(p, q) <==> DropZeros(p) == DropZeros(q)
  {
    var r, s := DropZeros(p), DropZeros(q);
    if SameAt(p, q) {
      LongerDiffers(p, q);
      LongerDiffers(q, p);
      assert forall i | 0 <= i < |r| :: r[i] == At(p, i) && s[i] == At(q, i);
    }
    if r == s {
      forall i: nat ensures At(p, i) == At(q, i) {
        assert At(p, i) == At(r, i) && At(q, i) == At(s, i);
      }
    }
  }

  // ---------- Written versions ----------

  lemma ParseIntOfDecimal(n: nat, rest: string)
    requires rest != "" ==> !IsDigit(rest[0])
    ensures Number(Decimal(n) + rest) == n
  {
    var s := Decimal(n) + rest;
    assert IsDigit(s[0]);
    DigitsThenOther(Decimal(n), rest);
    ValueOfDecimal(n);
    assert s[..|Decimal(n)|] == Decimal(n);
  }

  lemma {:induction false} SpaceIsSkipped(blank: string, s: string)
    requires (forall i | 0 <= i < |blank| :: IsSpace(blank[i])) && (s != "" ==> !IsSpace(s[0]))
    ensures SkipSpace(blank + s) == s
  {
    if blank == "" {
      assert blank + s == s;
    } else {
      assert (blank + s)[1..] == blank[1..] + s;
      SpaceIsSkipped(blank[1..], s);
    }
  }

  /** White space before a number and a sign are accepted, whatever follows the digits is ignored, and
      a part without digits counts as 0. */
  lemma PartReads(blank: string, sign: string, digits: string, rest: string)
    requires forall i | 0 <= i < |blank| :: IsSpace(blank[i])
    requires sign in {"", "+", "-"} && AllDigits(digits)
    requires rest != "" ==> !IsDigit(rest[0])
    requires rest != "" && digits == sign == "" ==> !IsSpace(rest[0]) && rest[0] !in {'+', '-'}
    ensures Number(blank + (sign + (digits + rest))) == (if sign == "-" then -Value(digits) else Value(digits))
  {
    var t := sign + (digits + rest);
    assert t != "" ==> t[0] == if sign != "" then sign[0] else if digits != "" then digits[0] else rest[0];
    SpaceIsSkipped(blank, t);
    DigitsThenOther(digits, rest);
    assert sign != "" ==> t[1..] == digits + rest;
    assert sign == "" ==> t == digits + rest;
    assert (digits + rest)[..|digits|] == digits;
  }

  function WrittenParts(p: seq<nat>): (parts: seq<string>)
    ensures |parts| == |p| && forall i | 0 <= i < |p| :: parts[i] == Decimal(p[i])
  {
    seq(|p|, i requires 0 <= i < |p| => Decimal(p[i]))
  }

  function Written(p: seq<nat>): string {
    Join(WrittenParts(p), '.')
  }

  lemma SplitOfWritten(p: seq<nat>, suffix: string)
    requires p != [] && IsPart(suffix, '.')
    ensures var parts, last := WrittenParts(p), |p| - 1;
            Split(Written(p) + suffix, '.') == parts[last := parts[last] + suffix]
  {
    SplitUndoesJoin(WrittenParts(p), '.');
    SplitAppendsPart(Written(p), suffix, '.');
  }

  /** Reading a written version gives its numbers back, and a suffix such as "-beta" that holds no dot
      and does not start with a digit changes nothing. */
  lemma WrittenVersionReadsBack(p: seq<nat>, suffix: string)
    requires p != [] && IsPart(suffix, '.') && (suffix != "" ==> !IsDigit(suffix[0]))
    ensures Components(Some(Written(p) + suffix)) == p
  {
    var parts, last := WrittenParts(p), |p| - 1;
    SplitOfWritten(p, suffix);
    var split := parts[last := parts[last] + suffix];
    forall i | 0 <= i < |p| ensures Number(split[i]) == p[i] {
      ParseIntOfDecimal(p[i], if i == last then suffix else "");
      assert Decimal(p[i]) + "" == Decimal(p[i]);
    }
  }

  /** A missing version counts as version 0, and so does one without any number. */
  lemma MissingVersionIsZero(text: string)
    requires forall i | 0 <= i < |text| :: !IsDigit(text[i]) && text[i] != '.'
    ensures Components(None) == [0] == Components(Some(text))
  {
    SplitUndoesJoin([text], '.');
    assert Join([text], '.') == text;
    TextIsNoNumber(text);
    TextIsNoNumber("");
  }

  lemma TextIsNoNumber(text: string)
    requires forall i | 0 <= i < |text| :: !IsDigit(text[i])
    ensures Number(text) == 0
  {
    SkipSpaceIsSuffix(text);
  }

  lemma {:induction false} SkipSpaceIsSuffix(text: string)
    ensures |SkipSpace(text)| <= |text| && SkipSpace(text) == text[|text| - |SkipSpace(text)|..]
  {
    if text != "" && IsSpace(text[0]) {
      SkipSpaceIsSuffix(text[1..]);
    }
  }
}
