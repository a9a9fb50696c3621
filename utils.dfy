/** Width canonicalisation, the claim-number range codec ("1-3,5,7-9"),
    first-occurrence de-duplication, zero padding and reason-title keys. */
module Utils {
  import opened Text

  // ---------------------------------------------------------------
  // normalizeText
  // ---------------------------------------------------------------

  predicate IsFullwidthDigit(c: char) { '\U{FF10}' <= c <= '\U{FF19}' }
  predicate IsFullwidthUpper(c: char) { '\U{FF21}' <= c <= '\U{FF3A}' }
  predicate IsFullwidthLower(c: char) { '\U{FF41}' <= c <= '\U{FF5A}' }

  /** The dash class `[‐\-‒–—―－−]`; the long-vowel mark `ー` is not in it. */
  predicate IsDash(c: char) {
    || c == '\U{2010}' || c == '-' || c == '\U{2012}' || c == '\U{2013}'
    || c == '\U{2014}' || c == '\U{2015}' || c == '\U{FF0D}' || c == '\U{2212}'
  }

  /** One character of `normalizeText`. The five replacement passes of the
      source are applied in order; none of them touches a character that an
      earlier pass produced, so they collapse into this per-character map. */
  function NormalizeChar(c: char): char {
    if IsFullwidthDigit(c) || IsFullwidthUpper(c) || IsFullwidthLower(c) then
      (c as int - 0xFEE0) as char
    else if c == '\U{FF3B}' || c == '\U{3010}' then '['
    else if c == '\U{FF3D}' || c == '\U{3011}' then ']'
    else if IsDash(c) then '-'
    else if c == '\U{00A0}' || c == '\U{3000}' then ' '
    else c
  }

  predicate IsNormalized(s: string) {
    forall i :: 0 <= i < |s| ==> NormalizeChar(s[i]) == s[i]
  }

  /** `normalizeText`: one character for one character, so every offset
      computed on the result is an offset into the input. */
  function NormalizeText(s: string): (r: string)
    ensures |r| == |s|
    ensures IsNormalized(r)
  {
    seq(|s|, i requires 0 <= i < |s| => NormalizeChar(s[i]))
  }

  lemma NormalizeIdempotent(s: string)
    ensures NormalizeText(NormalizeText(s)) == NormalizeText(s)
  {
  }

  lemma NormalizedIsFixedPoint(s: string)
    requires IsNormalized(s)
    ensures NormalizeText(s) == s
  {
  }

  /** What each character class becomes; everything else is left alone. */
  lemma NormalizeCharCases(c: char)
    ensures IsFullwidthDigit(c) ==> NormalizeChar(c) as int == c as int - 0xFEE0 && IsDigit(NormalizeChar(c))
    ensures IsFullwidthUpper(c) ==> NormalizeChar(c) as int == c as int - 0xFEE0 && 'A' <= NormalizeChar(c) <= 'Z'
    ensures IsFullwidthLower(c) ==> NormalizeChar(c) as int == c as int - 0xFEE0 && 'a' <= NormalizeChar(c) <= 'z'
    ensures c == '\U{FF3B}' || c == '\U{3010}' ==> NormalizeChar(c) == '['
    ensures c == '\U{FF3D}' || c == '\U{3011}' ==> NormalizeChar(c) == ']'
    ensures IsDash(c) ==> NormalizeChar(c) == '-'
    ensures c == '\U{00A0}' || c == '\U{3000}' ==> NormalizeChar(c) == ' '
    ensures c == '\U{FF08}' || c == '\U{FF09}' || c == '\U{30FC}' ==> NormalizeChar(c) == c
    ensures (!(IsFullwidthDigit(c) || IsFullwidthUpper(c) || IsFullwidthLower(c) || IsDash(c))
             && c !in {'\U{FF3B}', '\U{3010}', '\U{FF3D}', '\U{3011}', '\U{00A0}', '\U{3000}'}) ==> NormalizeChar(c) == c
    ensures c as int < 0x80 ==> NormalizeChar(c) == c
  {
  }

  // ---------------------------------------------------------------
  // normReasonTitleKey
  // ---------------------------------------------------------------

  function DashToLongVowel(s: string): (r: string)
    ensures |r| == |s|
  {
    seq(|s|, i requires 0 <= i < |s| => if IsDash(s[i]) then '\U{30FC}' else s[i])
  }

  /** `normReasonTitleKey`: normalise, turn every dash into `ー`, drop all
      whitespace. */
  function NormReasonTitleKey(t: string): (r: string)
    ensures NoSpace(r)
    ensures forall i :: 0 <= i < |r| ==> !IsDash(r[i])
  {
    RemoveSpacesKeeps(DashToLongVowel(NormalizeText(t)));
    RemoveSpaces(DashToLongVowel(NormalizeText(t)))
  }

  /** `replace(/\s+/g, "")` works character by character. */
  lemma {:induction false} RemoveSpacesAppend(a: string, b: string)
    ensures RemoveSpaces(a + b) == RemoveSpaces(a) + RemoveSpaces(b)
    decreases |a|
  {
    if |a| > 0 {
      assert (a + b)[1..] == a[1..] + b;
      RemoveSpacesAppend(a[1..], b);
    } else {
      assert a + b == b;
    }
  }

  /** The title key is computed character by character: the key of a
      concatenation is the concatenation of the keys. */
  lemma NormReasonTitleKeyAppend(a: string, b: string)
    ensures NormReasonTitleKey(a + b) == NormReasonTitleKey(a) + NormReasonTitleKey(b)
  {
    assert NormalizeText(a + b) == NormalizeText(a) + NormalizeText(b);
    assert DashToLongVowel(NormalizeText(a + b)) == DashToLongVowel(NormalizeText(a)) + DashToLongVowel(NormalizeText(b));
    RemoveSpacesAppend(DashToLongVowel(NormalizeText(a)), DashToLongVowel(NormalizeText(b)));
  }

  /** The key of one character: nothing for white space once normalised,
      `ー` for a dash once normalised, else the normalised character. */
  lemma NormReasonTitleKeyChar(c: char)
    ensures IsSpace(NormalizeChar(c)) ==> NormReasonTitleKey([c]) == ""
    ensures !IsSpace(NormalizeChar(c)) && IsDash(NormalizeChar(c)) ==> NormReasonTitleKey([c]) == "\U{30FC}"
    ensures !IsSpace(NormalizeChar(c)) && !IsDash(NormalizeChar(c)) ==> NormReasonTitleKey([c]) == [NormalizeChar(c)]
  {
    assert NormalizeText([c]) == [NormalizeChar(c)];
    assert !IsSpace('\U{30FC}');
  }

  /** Removing whitespace keeps only characters of the input. */
  lemma {:induction false} RemoveSpacesKeeps(s: string)
    ensures forall i :: 0 <= i < |RemoveSpaces(s)| ==> RemoveSpaces(s)[i] in s
  {
    if |s| > 0 {
      RemoveSpacesKeeps(s[1..]);
      forall i | 0 <= i < |RemoveSpaces(s)| ensures RemoveSpaces(s)[i] in s {
        if !IsSpace(s[0]) && i > 0 {
          assert RemoveSpaces(s)[i] == RemoveSpaces(s[1..])[i - 1];
        }
      }
    }
  }

  // ---------------------------------------------------------------
  // parseNumberRanges
  // ---------------------------------------------------------------

  /** `〜`/`~` become `-`, `，`/`、` become `,`. */
  function RangeChar(c: char): char {
    if c == '\U{301C}' || c == '~' then '-'
    else if c == '\U{FF0C}' || c == '\U{3001}' then ','
    else c
  }

  /** The text `parseNumberRanges` splits: normalised, then the two
      replacements. */
  function RangeText(s: string): (r: string)
    ensures |r| == |s|
  {
    var n := NormalizeText(s);
    seq(|n|, i requires 0 <= i < |n| => RangeChar(n[i]))
  }

  predicate IsFieldSep(c: char) { IsSpace(c) || c == ',' }

  function FieldEnd(s: string, i: nat): (j: nat)
    requires i <= |s|
    ensures i <= j <= |s|
    ensures forall k :: i <= k < j ==> !IsFieldSep(s[k])
    ensures j == |s| || IsFieldSep(s[j])
    decreases |s| - i
  {
    if i < |s| && !IsFieldSep(s[i]) then FieldEnd(s, i + 1) else i
  }

  function SepEnd(s: string, i: nat): (j: nat)
    requires i <= |s|
    ensures i <= j <= |s|
    ensures forall k :: i <= k < j ==> IsFieldSep(s[k])
    ensures j == |s| || !IsFieldSep(s[j])
    decreases |s| - i
  {
    if i < |s| && IsFieldSep(s[i]) then SepEnd(s, i + 1) else i
  }

  /** `s.split(/[\s,]+/)` from offset `i`: the pieces between maximal runs of
      separators, with an empty first or last piece when `s` starts or ends
      with a separator. */
  function SplitFieldsFrom(s: string, i: nat): (r: seq<string>)
    requires i <= |s|
    ensures |r| >= 1
    decreases |s| - i
  {
    var j := FieldEnd(s, i);
    if j == |s| then [s[i..]] else [s[i..j]] + SplitFieldsFrom(s, SepEnd(s, j))
  }

  function SplitFields(s: string): seq<string> {
    SplitFieldsFrom(s, 0)
  }

  /** `p.match(/^(\d+)(?:-(\d+))?$/)`, giving the two numbers. */
  function ParseRangeToken(p: string): Option<(nat, nat)> {
    var d := DigitsEnd(p, 0);
    if d == 0 then None
    else if d == |p| then Some((DigitsValue(p), DigitsValue(p)))
    else if p[d] == '-' && d + 1 < |p| && DigitsEnd(p, d + 1) == |p| then
      Some((DigitsValue(p[..d]), DigitsValue(p[d + 1..])))
    else None
  }

  /** A token of digits, optionally followed by a hyphen and more digits. */
  predicate IsPairAt(p: string, d: int) {
    0 < d < |p| - 1 && AllDigits(p[..d]) && p[d] == '-' && AllDigits(p[d + 1..])
  }

  /** The token is accepted exactly when it is a number or two numbers
      joined by a hyphen, and then those are the numbers it gives. */
  lemma ParseRangeTokenShape(p: string)
    ensures ParseRangeToken(p).Some? <==> (|p| > 0 && AllDigits(p)) || (exists d :: IsPairAt(p, d))
    ensures |p| > 0 && AllDigits(p) ==> ParseRangeToken(p) == Some((DigitsValue(p), DigitsValue(p)))
    ensures forall d :: IsPairAt(p, d) ==> ParseRangeToken(p) == Some((DigitsValue(p[..d]), DigitsValue(p[d + 1..])))
  {
    var d := DigitsEnd(p, 0);
    assert AllDigits(p[..d]);
    assert d == |p| ==> p[..d] == p;
    forall e | IsPairAt(p, e) ensures e == d {
      assert !IsDigit(p[e]);
      var pre := p[..e];
      assert forall i :: 0 <= i < e ==> pre[i] == p[i];
    }
    assert AllDigits(p) ==> d == |p|;
    if 0 < d < |p| && p[d] == '-' && d + 1 < |p| {
      DigitsToEnd(p, d + 1);
      if DigitsEnd(p, d + 1) == |p| {
        assert IsPairAt(p, d);
      }
    }
  }

  lemma DigitsToEnd(t: string, i: nat)
    requires i <= |t|
    ensures AllDigits(t[i..]) <==> DigitsEnd(t, i) == |t|
  {
    var k := DigitsEnd(t, i);
    var rest := t[i..];
    if k < |t| {
      assert rest[k - i] == t[k];
    } else {
      forall j | 0 <= j < |rest| ensures IsDigit(rest[j]) {
        assert rest[j] == t[i + j];
      }
    }
  }

  /** The half-open run `lo, lo + 1, ..., end - 1`. */
  function Span(lo: nat, end: nat): (r: seq<nat>)
    ensures |r| == if end <= lo then 0 else end - lo
    ensures forall k :: 0 <= k < |r| ==> r[k] == lo + k
  {
    if end <= lo then [] else seq(end - lo, k requires 0 <= k < end - lo => lo + k)
  }

  lemma SpanSnoc(lo: nat, n: nat)
    requires lo <= n
    ensures Span(lo, n + 1) == Span(lo, n) + [n]
  {
    var l := Span(lo, n + 1);
    var r := Span(lo, n) + [n];
    assert |l| == |r|;
    forall k | 0 <= k < |l| ensures l[k] == r[k] {
      if k < n - lo { assert r[k] == Span(lo, n)[k]; }
    }
  }

  /** What one piece of the split contributes: nothing unless it is `n` or
      `a-b`; a reversed pair is swapped and expanded inclusively. */
  function PieceNumbers(piece: string): seq<nat> {
    var p := Trim(piece);
    if p == "" then []
    else match ParseRangeToken(p)
      case None => []
      case Some((a, b)) => if b < a then Span(b, a + 1) else Span(a, b + 1)
  }

  /** `f` applied to every element, the results concatenated in order. */
  function FlatMap<T>(f: T -> seq<nat>, xs: seq<T>): seq<nat> {
    if |xs| == 0 then [] else FlatMap(f, xs[..|xs| - 1]) + f(xs[|xs| - 1])
  }

  lemma FlatMapAppend<T>(f: T -> seq<nat>, a: seq<T>, b: seq<T>)
    ensures FlatMap(f, a + b) == FlatMap(f, a) + FlatMap(f, b)
    decreases |b|
  {
    if |b| > 0 {
      var b' := b[..|b| - 1];
      assert (a + b)[..|a + b| - 1] == a + b';
      assert (a + b)[|a + b| - 1] == b[|b| - 1];
      FlatMapAppend(f, a, b');
    } else {
      assert a + b == a;
    }
  }

  lemma FlatMapSnoc<T>(f: T -> seq<nat>, xs: seq<T>, i: nat)
    requires i < |xs|
    ensures FlatMap(f, xs[..i + 1]) == FlatMap(f, xs[..i]) + f(xs[i])
  {
    assert xs[..i + 1][..i] == xs[..i];
  }

  function NumbersOfPieces(pieces: seq<string>): seq<nat> {
    FlatMap(PieceNumbers, pieces)
  }

  /** The value `parseNumberRanges` returns. */
  function NumberRangesOf(s: string): seq<nat> {
    NumbersOfPieces(SplitFields(RangeText(s)))
  }

  /** The inner loop of `parseNumberRanges`: push `a`, ..., `b` in order. */
  method PushRange(out: seq<nat>, a: nat, b: nat) returns (r: seq<nat>)
    requires a <= b
    ensures r == out + Span(a, b + 1)
  {
    r := out;
    var n := a;
    while n <= b
      invariant a <= n <= b + 1
      invariant r == out + Span(a, n)
    {
      SpanSnoc(a, n);
      r := r + [n];
      n := n + 1;
    }
  }

  /** `parseNumberRanges`. */
  method ParseNumberRanges(s: string) returns (out: seq<nat>)
    ensures out == NumberRangesOf(s)
  {
    var t := RangeText(s);
    var parts := SplitFields(t);
    out := [];
    for i := 0 to |parts|
      invariant out == FlatMap(PieceNumbers, parts[..i])
    {
      FlatMapSnoc(PieceNumbers, parts, i);
      var p := Trim(parts[i]);
      if p == "" {
        continue;
      }
      var m := ParseRangeToken(p);
      if m.None? {
        continue;
      }
      var a, b := m.value.0, m.value.1;
      if b < a {
        a, b := b, a;
      }
      assert PieceNumbers(parts[i]) == Span(a, b + 1);
      out := PushRange(out, a, b);
    }
    assert parts[..|parts|] == parts;
  }

  /** A well-formed token always contributes, and a reversed pair yields the
      same numbers as the ordered one. */
  lemma PieceNumbersOfPair(a: nat, b: nat)
    ensures PieceNumbers(NatToString(a) + "-" + NatToString(b)) == PieceNumbers(NatToString(b) + "-" + NatToString(a))
    ensures a <= b ==> PieceNumbers(NatToString(a) + "-" + NatToString(b)) == Span(a, b + 1)
  {
    PairParses(a, b);
    PairParses(b, a);
    PieceOfRange(NatToString(a) + "-" + NatToString(b), a, b);
    PieceOfRange(NatToString(b) + "-" + NatToString(a), b, a);
  }

  /** A trimmed piece read as `a`..`b` contributes the inclusive span between them. */
  lemma PieceOfRange(p: string, a: nat, b: nat)
    requires Trim(p) == p && ParseRangeToken(p) == Some((a, b))
    ensures PieceNumbers(p) == if b < a then Span(b, a + 1) else Span(a, b + 1)
  {
  }

  lemma PairParses(a: nat, b: nat)
    ensures Trim(NatToString(a) + "-" + NatToString(b)) == NatToString(a) + "-" + NatToString(b)
    ensures ParseRangeToken(NatToString(a) + "-" + NatToString(b)) == Some((a, b))
  {
    NatToStringValue(a);
    NatToStringValue(b);
    PairTokenParses(NatToString(a), NatToString(b));
  }

  /** Two digit runs joined by a hyphen read as the pair of their values. */
  lemma PairTokenParses(x: string, y: string)
    requires |x| > 0 && AllDigits(x) && |y| > 0 && AllDigits(y)
    ensures Trim(x + "-" + y) == x + "-" + y
    ensures ParseRangeToken(x + "-" + y) == Some((DigitsValue(x), DigitsValue(y)))
  {
    var p := x + "-" + y;
    ThreeParts(x, '-', y);
    assert IsPairAt(p, |x|);
    ParseRangeTokenShape(p);
    assert IsDigit(p[0]) && IsDigit(p[|p| - 1]);
    TrimNoSpace(p);
  }

  lemma SingleParses(a: nat)
    ensures Trim(NatToString(a)) == NatToString(a)
    ensures ParseRangeToken(NatToString(a)) == Some((a, a))
  {
    NatToStringValue(a);
    ParseRangeTokenShape(NatToString(a));
    TrimNoSpace(NatToString(a));
  }

  lemma TrimNoSpace(s: string)
    requires |s| > 0 && !IsSpace(s[0]) && !IsSpace(s[|s| - 1])
    ensures Trim(s) == s
  {
  }

  // ---------------------------------------------------------------
  // uniq
  // ---------------------------------------------------------------

  /** The value `uniq` returns: each value at its first occurrence. */
  function UniqOf<T(==)>(s: seq<T>): (r: seq<T>)
    ensures |r| <= |s| && (|s| > 0 ==> |r| > 0)
  {
    if |s| == 0 then []
    else
      var r := UniqOf(s[..|s| - 1]);
      if s[|s| - 1] in r then r else r + [s[|s| - 1]]
  }

  /** `uniq`: keeps the first occurrence of every value, in input order. */
  method Uniq<T(==)>(arr: seq<T>) returns (out: seq<T>)
    ensures out == UniqOf(arr)
  {
    var seen: set<T> := {};
    out := [];
    for i := 0 to |arr|
      invariant out == UniqOf(arr[..i])
      invariant forall x :: x in seen <==> x in out
    {
      assert arr[..i + 1][..i] == arr[..i];
      var k := arr[i];
      if k in seen {
        continue;
      }
      seen := seen + {k};
      out := out + [k];
    }
    assert arr[..|arr|] == arr;
  }

  /** `uniq` of a sequence grown by one value. */
  lemma UniqSnoc<T>(s: seq<T>, x: T)
    ensures UniqOf(s + [x]) == if x in UniqOf(s) then UniqOf(s) else UniqOf(s) + [x]
  {
    assert (s + [x])[..|s|] == s;
  }

  /** The index of the first occurrence of `x` in `s`. */
  function FirstIndex<T(==)>(s: seq<T>, x: T): (k: nat)
    requires x in s
    ensures k < |s| && s[k] == x
    ensures forall i :: 0 <= i < k ==> s[i] != x
  {
    if s[0] == x then 0 else FirstIndex(s[1..], x) + 1
  }

  /** `uniq` has no duplicates, the same values as its input, and lists them
      in the order of their first occurrences. */
  lemma {:induction false} UniqProperties<T>(s: seq<T>)
    ensures NoDuplicates(UniqOf(s))
    ensures forall x :: x in UniqOf(s) <==> x in s
    ensures forall i, j :: 0 <= i < j < |UniqOf(s)| ==> FirstIndex(s, UniqOf(s)[i]) < FirstIndex(s, UniqOf(s)[j])
  {
    if |s| > 0 {
      var init := s[..|s| - 1];
      var x := s[|s| - 1];
      UniqProperties(init);
      assert s == init + [x];
      var r := UniqOf(init);
      forall y | y in init ensures FirstIndex(s, y) == FirstIndex(init, y) {
        FirstIndexPrefix(init, [x], y);
      }
      if x !in r {
        assert x !in init;
        assert FirstIndex(s, x) == |s| - 1 by {
          assert forall k :: 0 <= k < |s| - 1 ==> s[k] == init[k];
        }
        forall i, j | 0 <= i < j < |UniqOf(s)| ensures FirstIndex(s, UniqOf(s)[i]) < FirstIndex(s, UniqOf(s)[j]) {
          assert UniqOf(s)[i] == r[i];
          assert r[i] in r;
          if j < |r| { assert UniqOf(s)[j] == r[j]; assert r[j] in r; }
        }
      }
    }
  }

  lemma FirstIndexPrefix<T>(a: seq<T>, b: seq<T>, x: T)
    requires x in a
    ensures FirstIndex(a + b, x) == FirstIndex(a, x)
  {
    var k := FirstIndex(a, x);
    var k' := FirstIndex(a + b, x);
    assert (a + b)[k] == x;
    assert forall i :: 0 <= i < |a| ==> (a + b)[i] == a[i];
  }

  // ---------------------------------------------------------------
  // Runs of consecutive numbers
  // ---------------------------------------------------------------

  /** A group of numbers given by the value it starts with and the value it
      ends with, in the order the numbers were visited. */
  datatype Run = Run(first: nat, last: nat)

  /** Whether `x` continues a run whose latest value is `prev`, when the
      numbers are visited ascending (`x - prev == 1`) or descending
      (`prev - x == 1`). */
  predicate Continues(prev: nat, x: nat, desc: bool) {
    if desc then prev - x == 1 else x - prev == 1
  }

  /** The runs the greedy merge loops build: walking `xs` left to right, a
      value that continues the current run extends it, any other value
      starts a new one. */
  function RunsOf(xs: seq<nat>, desc: bool): (r: seq<Run>)
    ensures |r| > 0 <==> |xs| > 0
    ensures |r| <= |xs|
    ensures |xs| > 0 ==> r[0].first == xs[0] && r[|r| - 1].last == xs[|xs| - 1]
  {
    if |xs| == 0 then []
    else if |xs| == 1 then [Run(xs[0], xs[0])]
    else Extend(RunsOf(xs[..|xs| - 1], desc), xs[|xs| - 1], desc)
  }

  /** Visiting `x` after the runs `r`: it extends the last run when it
      continues it, and starts a new run otherwise. */
  function Extend(r: seq<Run>, x: nat, desc: bool): (r': seq<Run>)
    requires |r| > 0
    ensures |r'| > 0 && r'[0].first == r[0].first && r'[|r'| - 1].last == x
    ensures |r'| <= |r| + 1
  {
    var l := r[|r| - 1];
    if Continues(l.last, x, desc) then r[..|r| - 1] + [Run(l.first, x)] else r + [Run(x, x)]
  }

  /** One step of the merge loops, isolated so that the loops can cite it. */
  lemma RunsOfSnoc(xs: seq<nat>, x: nat, desc: bool)
    requires |xs| > 0
    ensures RunsOf(xs + [x], desc) == Extend(RunsOf(xs, desc), x, desc)
  {
    assert (xs + [x])[..|xs|] == xs;
  }

  lemma RunsOfPrefix(xs: seq<nat>, i: nat, desc: bool)
    requires 0 < i < |xs|
    ensures RunsOf(xs[..i + 1], desc) == Extend(RunsOf(xs[..i], desc), xs[i], desc)
  {
    assert xs[..i + 1] == xs[..i] + [xs[i]];
    RunsOfSnoc(xs[..i], xs[i], desc);
  }

  /** A value that continues the last run of a prefix extends that run. */
  lemma RunsContinue(xs: seq<nat>, i: nat, desc: bool, r: seq<Run>, first: nat, last: nat)
    requires 0 < i < |xs| && RunsOf(xs[..i], desc) == r + [Run(first, last)] && Continues(last, xs[i], desc)
    ensures RunsOf(xs[..i + 1], desc) == r + [Run(first, xs[i])]
  {
    RunsOfPrefix(xs, i, desc);
    var rr := r + [Run(first, last)];
    assert rr[..|rr| - 1] == r;
  }

  /** A value that does not continue the last run of a prefix starts a new one. */
  lemma RunsBreak(xs: seq<nat>, i: nat, desc: bool, r: seq<Run>)
    requires 0 < i < |xs| && RunsOf(xs[..i], desc) == r && |r| > 0 && !Continues(r[|r| - 1].last, xs[i], desc)
    ensures RunsOf(xs[..i + 1], desc) == r + [Run(xs[i], xs[i])]
  {
    RunsOfPrefix(xs, i, desc);
  }

  /** Visiting `x` before the ascending runs `rs`: it joins the first run
      when that run starts at `x + 1`. */
  function Cons(x: nat, rs: seq<Run>): seq<Run> {
    if |rs| > 0 && rs[0].first == x + 1 then [Run(x, rs[0].last)] + rs[1..] else [Run(x, x)] + rs
  }

  lemma ExtendCons(x: nat, rs: seq<Run>, y: nat)
    requires |rs| > 0
    ensures Extend(Cons(x, rs), y, false) == Cons(x, Extend(rs, y, false))
  {
    if |rs| > 1 {
      var t := rs[1..];
      assert rs == [rs[0]] + t;
      ConsAfterFirst(x, rs[0], t);
      ExtendAppend(ConsHead(x, rs[0]), t, y, false);
      ExtendAppend([rs[0]], t, y, false);
      ConsAfterFirst(x, rs[0], Extend(t, y, false));
    }
  }

  /** What `Cons` puts in front of the runs after the first. */
  function ConsHead(x: nat, r0: Run): seq<Run> {
    if r0.first == x + 1 then [Run(x, r0.last)] else [Run(x, x), r0]
  }

  lemma ConsAfterFirst(x: nat, r0: Run, u: seq<Run>)
    ensures Cons(x, [r0] + u) == ConsHead(x, r0) + u
  {
    assert ([r0] + u)[1..] == u;
  }

  /** Extending concerns only the last run. */
  lemma ExtendAppend(pre: seq<Run>, t: seq<Run>, y: nat, desc: bool)
    requires |t| > 0
    ensures Extend(pre + t, y, desc) == pre + Extend(t, y, desc)
  {
    var s := pre + t;
    assert s[|s| - 1] == t[|t| - 1];
    assert s[..|s| - 1] == pre + t[..|t| - 1];
  }

  /** The ascending runs of `[x] + ys` are those of `ys` with `x` put in
      front. */
  lemma {:induction false} RunsOfCons(x: nat, ys: seq<nat>)
    ensures RunsOf([x] + ys, false) == Cons(x, RunsOf(ys, false))
    decreases |ys|
  {
    if |ys| == 1 {
      RunsOfSnoc([x], ys[0], false);
      assert [x] + ys == [x] + [ys[0]];
    } else if |ys| > 1 {
      var init := ys[..|ys| - 1];
      var y := ys[|ys| - 1];
      assert ys == init + [y];
      assert [x] + ys == ([x] + init) + [y];
      RunsOfCons(x, init);
      RunsOfSnoc([x] + init, y, false);
      RunsOfSnoc(init, y, false);
      ExtendCons(x, RunsOf(init, false), y);
    } else {
      assert [x] + ys == [x];
    }
  }

  /** A run read the other way round. */
  function Flip(r: Run): Run { Run(r.last, r.first) }

  /** Runs listed last to first, each read the other way round. */
  function Mirror(rs: seq<Run>): (m: seq<Run>)
    ensures |m| == |rs|
    ensures forall i :: 0 <= i < |rs| ==> m[i] == Flip(rs[|rs| - 1 - i])
  {
    seq(|rs|, i requires 0 <= i < |rs| => Flip(rs[|rs| - 1 - i]))
  }

  lemma MirrorCons(x: nat, rs: seq<Run>)
    requires |rs| > 0
    ensures Extend(Mirror(rs), x, true) == Mirror(Cons(x, rs))
  {
    var m := Mirror(rs);
    var n := |rs|;
    if rs[0].first == x + 1 {
      assert Mirror(Cons(x, rs)) == m[..n - 1] + [Run(rs[0].last, x)];
    } else {
      assert Mirror(Cons(x, rs)) == m + [Run(x, x)];
    }
  }

  /** Walking the reversed list downwards gives the ascending runs in the
      opposite order, each read from its high end: the descending walk of
      the legacy formatter and the grouped formatter with both orders
      reversed agree. */
  lemma {:induction false} DescendingRunsMirror(xs: seq<nat>)
    ensures RunsOf(Reverse(xs), true) == Mirror(RunsOf(xs, false))
  {
    if |xs| == 1 {
      assert Reverse(xs) == xs;
    } else if |xs| > 1 {
      var ys := xs[1..];
      assert xs == [xs[0]] + ys;
      DescendingRunsMirror(ys);
      assert Reverse(xs) == Reverse(ys) + [xs[0]];
      RunsOfSnoc(Reverse(ys), xs[0], true);
      RunsOfCons(xs[0], ys);
      MirrorCons(xs[0], RunsOf(ys, false));
    } else {
      assert Reverse(xs) == [];
    }
  }

  /** The numbers a run stands for, ascending. */
  function Expand(r: Run): seq<nat> {
    Span(r.first, r.last + 1)
  }

  function ExpandAll(rs: seq<Run>): seq<nat> {
    FlatMap(Expand, rs)
  }

  /** Runs in ascending order that are well formed and separated by a gap:
      every run goes up, and the next run starts at least two above. */
  predicate SeparatedRuns(rs: seq<Run>) {
    && (forall i :: 0 <= i < |rs| ==> rs[i].first <= rs[i].last)
    && (forall i :: 0 <= i < |rs| - 1 ==> rs[i].last + 1 < rs[i + 1].first)
  }

  /** For ascending input the runs are exactly the maximal blocks of
      consecutive numbers: they are separated, and expanding them gives the
      input back. */
  lemma AscendingRunsAreMaximal(xs: seq<nat>)
    requires StrictlyIncreasing(xs)
    ensures SeparatedRuns(RunsOf(xs, false))
    ensures ExpandAll(RunsOf(xs, false)) == xs
  {
    AscendingRunsSeparated(xs);
    RunsExpandBack(xs);
  }

  lemma {:induction false} AscendingRunsSeparated(xs: seq<nat>)
    requires StrictlyIncreasing(xs)
    ensures SeparatedRuns(RunsOf(xs, false))
  {
    if |xs| > 1 {
      var init := xs[..|xs| - 1];
      var x := xs[|xs| - 1];
      assert xs == init + [x];
      AscendingRunsSeparated(init);
      var r := RunsOf(init, false);
      RunsOfSnoc(init, x, false);
      assert x > r[|r| - 1].last;
      ExtendSeparated(r, x);
    }
  }

  /** A value above the last run keeps ascending runs separated. */
  lemma ExtendSeparated(r: seq<Run>, x: nat)
    requires |r| > 0 && SeparatedRuns(r) && x > r[|r| - 1].last
    ensures SeparatedRuns(Extend(r, x, false))
  {
    var l := r[|r| - 1];
    var r' := Extend(r, x, false);
    if Continues(l.last, x, false) {
      assert r' == r[..|r| - 1] + [Run(l.first, x)];
      forall i | 0 <= i < |r'| - 1 ensures r'[i].last + 1 < r'[i + 1].first {
        assert r'[i] == r[i];
        if i + 1 < |r'| - 1 { assert r'[i + 1] == r[i + 1]; }
      }
    } else {
      assert r' == r + [Run(x, x)];
      forall i | 0 <= i < |r'| - 1 ensures r'[i].last + 1 < r'[i + 1].first {
        assert r'[i] == r[i];
        if i + 1 < |r'| - 1 { assert r'[i + 1] == r[i + 1]; }
      }
    }
  }

  /** Expanding the runs of any list gives the list back: a value joins a
      run only when it is the next number after the run's last one. */
  lemma {:induction false} RunsExpandBack(xs: seq<nat>)
    ensures ExpandAll(RunsOf(xs, false)) == xs
  {
    if |xs| == 1 {
      FlatMapSingle(Expand, Run(xs[0], xs[0]));
      SpanSnoc(xs[0], xs[0]);
      assert xs == [xs[0]];
    } else if |xs| > 1 {
      var init := xs[..|xs| - 1];
      var x := xs[|xs| - 1];
      assert xs == init + [x];
      RunsExpandBack(init);
      RunsOfSnoc(init, x, false);
      var r := RunsOf(init, false);
      RunsFirstLeLast(init, |r| - 1);
      ExtendExpand(r, x);
    }
  }

  /** Extending ascending runs by a value appends that value to their
      expansion. */
  lemma ExtendExpand(r: seq<Run>, x: nat)
    requires |r| > 0 && r[|r| - 1].first <= r[|r| - 1].last
    ensures ExpandAll(Extend(r, x, false)) == ExpandAll(r) + [x]
  {
    var l := r[|r| - 1];
    var rinit := r[..|r| - 1];
    assert r == rinit + [l];
    FlatMapAppend(Expand, rinit, [l]);
    FlatMapSingle(Expand, l);
    if Continues(l.last, x, false) {
      FlatMapAppend(Expand, rinit, [Run(l.first, x)]);
      FlatMapSingle(Expand, Run(l.first, x));
      SpanSnoc(l.first, x);
    } else {
      FlatMapAppend(Expand, r, [Run(x, x)]);
      FlatMapSingle(Expand, Run(x, x));
      SpanSnoc(x, x);
    }
  }

  lemma FlatMapSingle<T>(f: T -> seq<nat>, x: T)
    ensures FlatMap(f, [x]) == f(x)
  {
    assert [x][..0] == [];
  }

  /** Every run of an ascending walk goes up from its first value to its
      last. */
  lemma {:induction false} RunsFirstLeLast(xs: seq<nat>, i: nat)
    requires i < |RunsOf(xs, false)|
    ensures RunsOf(xs, false)[i].first <= RunsOf(xs, false)[i].last
  {
    if |xs| > 1 {
      var init := xs[..|xs| - 1];
      var x := xs[|xs| - 1];
      assert xs == init + [x];
      RunsOfSnoc(init, x, false);
      var r := RunsOf(init, false);
      if i < |r| - 1 {
        RunsFirstLeLast(init, i);
      } else if i == |r| - 1 {
        RunsFirstLeLast(init, i);
      }
    }
  }

  /** The runs partition the input: a number is in `xs` exactly when it lies
      in one run, and no two runs overlap or touch. */
  lemma RunsPartition(xs: seq<nat>, v: nat)
    requires StrictlyIncreasing(xs)
    ensures v in xs <==> InSomeRun(RunsOf(xs, false), v)
  {
    var rs := RunsOf(xs, false);
    AscendingRunsAreMaximal(xs);
    assert ExpandAll(rs) == xs;
    ExpandAllMembers(rs, v);
  }

  /** `v` lies between the first and last number of one of the runs. */
  predicate InSomeRun(rs: seq<Run>, v: nat) {
    exists i :: 0 <= i < |rs| && rs[i].first <= v <= rs[i].last
  }

  lemma {:induction false} ExpandAllMembers(rs: seq<Run>, v: nat)
    ensures v in ExpandAll(rs) <==> InSomeRun(rs, v)
  {
    if |rs| > 0 {
      var init := rs[..|rs| - 1];
      ExpandAllMembers(init, v);
      var l := rs[|rs| - 1];
      if l.first <= v <= l.last {
        assert Expand(l)[v - l.first] == v;
      }
      if exists i :: 0 <= i < |init| && init[i].first <= v <= init[i].last {
        var i :| 0 <= i < |init| && init[i].first <= v <= init[i].last;
        assert rs[i] == init[i];
      }
      if exists i :: 0 <= i < |rs| && rs[i].first <= v <= rs[i].last {
        var i :| 0 <= i < |rs| && rs[i].first <= v <= rs[i].last;
        if i < |init| { assert init[i] == rs[i]; }
      }
    }
  }

  lemma SeparatedRunsDisjoint(rs: seq<Run>, i: nat, j: nat)
    requires SeparatedRuns(rs)
    requires 0 <= i < j < |rs|
    ensures rs[i].last + 1 < rs[j].first
    decreases j - i
  {
    if j > i + 1 {
      SeparatedRunsDisjoint(rs, i + 1, j);
    }
  }

  // ---------------------------------------------------------------
  // claimsToCompactRanges
  // ---------------------------------------------------------------

  /** `"a"` for a singleton run, `"a-b"` otherwise. */
  function RenderClaimRun(r: Run): string {
    if r.first == r.last then NatToString(r.first)
    else NatToString(r.first) + "-" + NatToString(r.last)
  }

  function RenderClaimRuns(rs: seq<Run>): (r: seq<string>)
    ensures |r| == |rs|
  {
    seq(|rs|, i requires 0 <= i < |rs| => RenderClaimRun(rs[i]))
  }

  /** The sorted, de-duplicated claim numbers. */
  function SortedUnique(claims: seq<nat>): seq<nat> {
    SortAsc(UniqOf(claims))
  }

  lemma SortedUniqueProperties(claims: seq<nat>)
    ensures StrictlyIncreasing(SortedUnique(claims))
    ensures forall x :: x in SortedUnique(claims) <==> x in claims
    ensures |claims| > 0 ==> |SortedUnique(claims)| > 0
  {
    var u := UniqOf(claims);
    UniqProperties(claims);
    var r := SortAsc(u);
    assert forall x :: x in r <==> x in multiset(r);
    assert forall x :: x in u <==> x in multiset(u);
    forall x | x in multiset(u) ensures multiset(u)[x] == 1 {
      NoDuplicatesCount(u, x);
    }
    SortedDistinctIncreasing(r);
  }

  lemma {:induction false} NoDuplicatesCount<T>(s: seq<T>, x: T)
    requires NoDuplicates(s) && x in s
    ensures multiset(s)[x] == 1
  {
    var k :| 0 <= k < |s| && s[k] == x;
    assert s == s[..k] + [x] + s[k + 1..];
    assert x !in s[..k] by {
      forall j | 0 <= j < k ensures s[..k][j] != x { }
    }
    var tail := s[k + 1..];
    assert x !in tail by {
      forall j | 0 <= j < |tail| ensures tail[j] != x {
        assert tail[j] == s[k + 1 + j];
      }
    }
    assert multiset(s) == multiset(s[..k]) + multiset{x} + multiset(s[k + 1..]);
  }

  /** The value `claimsToCompactRanges` returns. */
  function CompactOf(claims: seq<nat>): string {
    if |claims| == 0 then "" else Join(RenderClaimRuns(RunsOf(SortedUnique(claims), false)), ",")
  }

  /** `claimsToCompactRanges`. */
  method ClaimsToCompactRanges(claims: seq<nat>) returns (s: string)
    ensures s == CompactOf(claims)
  {
    if |claims| == 0 {
      return "";
    }
    var u := Uniq(claims);
    var arr := SortAsc(u);
    var out := ClaimRunLabels(arr);
    s := Join(out, ",");
  }

  /** The run-merging loop of `claimsToCompactRanges`: one label per run of
      consecutive numbers. */
  method ClaimRunLabels(arr: seq<nat>) returns (out: seq<string>)
    requires |arr| > 0
    ensures out == RenderClaimRuns(RunsOf(arr, false))
  {
    out := [];
    var start, prev := arr[0], arr[0];
    ghost var done: seq<Run> := [];
    assert arr[..1] == [arr[0]];
    for i := 1 to |arr|
      invariant RunsOf(arr[..i], false) == done + [Run(start, prev)]
      invariant out == RenderClaimRuns(done)
    {
      out, done, start, prev := ClaimRunStep(arr, i, out, done, start, prev);
    }
    ClaimRunClosed(out, done, Run(start, prev));
    out := out + [RenderClaimRun(Run(start, prev))];
    assert arr[..|arr|] == arr;
  }

  /** One pass of the run-merging loop: `arr[i]` either extends the current
      run or closes it, emitting its label, and starts the next one. */
  method ClaimRunStep(arr: seq<nat>, i: nat, out: seq<string>, ghost done: seq<Run>, start: nat, prev: nat)
    returns (out': seq<string>, ghost done': seq<Run>, start': nat, prev': nat)
    requires 0 < i < |arr|
    requires RunsOf(arr[..i], false) == done + [Run(start, prev)] && out == RenderClaimRuns(done)
    ensures RunsOf(arr[..i + 1], false) == done' + [Run(start', prev')] && out' == RenderClaimRuns(done')
  {
    var x := arr[i];
    if x == prev + 1 {
      RunsContinue(arr, i, false, done, start, prev);
      return out, done, start, x;
    }
    RunsBreak(arr, i, false, done + [Run(start, prev)]);
    ClaimRunClosed(out, done, Run(start, prev));
    out' := out + [RenderClaimRun(Run(start, prev))];
    done' := done + [Run(start, prev)];
    start', prev' := x, x;
  }

  lemma RenderClaimRunsSnoc(rs: seq<Run>, r: Run)
    ensures RenderClaimRuns(rs + [r]) == RenderClaimRuns(rs) + [RenderClaimRun(r)]
  {
  }

  /** Closing a run appends its label to the labels of the runs before it. */
  lemma ClaimRunClosed(out: seq<string>, done: seq<Run>, r: Run)
    requires out == RenderClaimRuns(done)
    ensures out + [RenderClaimRun(r)] == RenderClaimRuns(done + [r])
  {
    RenderClaimRunsSnoc(done, r);
  }

  /** On a sorted, duplicate-free list the compact form is the run labels
      joined by commas. */
  lemma CompactOfIncreasing(xs: seq<nat>)
    requires |xs| > 0 && StrictlyIncreasing(xs)
    ensures CompactOf(xs) == Join(RenderClaimRuns(RunsOf(xs, false)), ",")
  {
    SortedUniqueProperties(xs);
    IncreasingUnique(SortedUnique(xs), xs);
  }

  /** Step of `CompactExample`: the three runs. */
  lemma RunsExample(xs: seq<nat>)
    requires xs == [1, 2, 3, 5, 7, 8, 9]
    ensures RunsOf(xs, false) == [Run(1, 3), Run(5, 5), Run(7, 9)]
  {
    assert xs[..1] == [1];
    RunsContinue(xs, 1, false, [], 1, 1);
    RunsContinue(xs, 2, false, [], 1, 2);
    RunsBreak(xs, 3, false, [Run(1, 3)]);
    RunsBreak(xs, 4, false, [Run(1, 3), Run(5, 5)]);
    RunsContinue(xs, 5, false, [Run(1, 3), Run(5, 5)], 7, 7);
    RunsContinue(xs, 6, false, [Run(1, 3), Run(5, 5)], 7, 8);
    assert xs[..7] == xs;
  }

  /** Example from the repository's tests. */
  lemma CompactExample(xs: seq<nat>)
    requires xs == [1, 2, 3, 5, 7, 8, 9]
    ensures CompactOf(xs) == "1-3,5,7-9"
  {
    CompactOfIncreasing(xs);
    RunsExample(xs);
    RenderExample();
  }

  /** Step of `CompactExample`: the three run labels joined. */
  lemma RenderExample()
    ensures Join(RenderClaimRuns([Run(1, 3), Run(5, 5), Run(7, 9)]), ",") == "1-3,5,7-9"
  {
    var rs := [Run(1, 3), Run(5, 5), Run(7, 9)];
    assert RenderClaimRun(rs[0]) == "1-3";
    assert RenderClaimRun(rs[1]) == "5";
    assert RenderClaimRun(rs[2]) == "7-9";
    assert RenderClaimRuns(rs) == ["1-3", "5", "7-9"];
  }

  // ---------------------------------------------------------------
  // Round trip of the codec
  // ---------------------------------------------------------------

  /** Characters the compact form is made of. */
  predicate CompactChar(c: char) { IsDigit(c) || c == '-' || c == ',' }

  lemma CompactTextIsFixed(s: string)
    requires forall i :: 0 <= i < |s| ==> CompactChar(s[i])
    ensures RangeText(s) == s
  {
  }

  lemma JoinChars(parts: seq<string>, sep: string, P: char -> bool)
    requires forall c :: c in sep ==> P(c)
    requires forall k, i :: 0 <= k < |parts| && 0 <= i < |parts[k]| ==> P(parts[k][i])
    ensures forall i :: 0 <= i < |Join(parts, sep)| ==> P(Join(parts, sep)[i])
    decreases |parts|
  {
    if |parts| > 1 {
      JoinChars(parts[1..], sep, P);
      var j := Join(parts, sep);
      forall i | 0 <= i < |j| ensures P(j[i]) {
        if i < |parts[0]| {
        } else if i < |parts[0]| + |sep| {
          assert j[i] == sep[i - |parts[0]|];
          assert sep[i - |parts[0]|] in sep;
        } else {
          assert j[i] == Join(parts[1..], sep)[i - |parts[0]| - |sep|];
        }
      }
    }
  }

  /** A piece with no separator inside. */
  predicate Field(p: string) {
    |p| > 0 && forall i :: 0 <= i < |p| ==> !IsFieldSep(p[i])
  }

  /** Fields joined by commas, read from where they start, split back into
      the fields. */
  lemma {:induction false} SplitJoinAt(parts: seq<string>, s: string, i: nat)
    requires |parts| > 0 && i <= |s|
    requires forall k :: 0 <= k < |parts| ==> Field(parts[k])
    requires s[i..] == Join(parts, ",")
    ensures SplitFieldsFrom(s, i) == parts
    decreases |parts|
  {
    if |parts| == 1 {
      LastField(s, i, parts[0]);
      assert parts == [parts[0]];
    } else {
      assert Field(parts[0]) && Field(parts[1]);
      var j := SplitJoinCons(parts, s, i);
      SplitJoinAt(parts[1..], s, j);
      assert parts == [parts[0]] + parts[1..];
    }
  }

  /** The first of several joined fields, and the offset of the next. */
  lemma SplitJoinCons(parts: seq<string>, s: string, i: nat) returns (j: nat)
    requires |parts| > 1 && i <= |s|
    requires Field(parts[0]) && |parts[1]| > 0 && !IsFieldSep(parts[1][0])
    requires s[i..] == Join(parts, ",")
    ensures j <= |s| && s[j..] == Join(parts[1..], ",")
    ensures SplitFieldsFrom(s, i) == [parts[0]] + SplitFieldsFrom(s, j)
  {
    var p0 := parts[0];
    var rest := Join(parts[1..], ",");
    JoinFirst(parts[1..], ",");
    FieldCommaShape(s, i, p0, rest);
    SplitAtField(s, i, p0);
    j := i + |p0| + 1;
  }

  lemma LastField(s: string, i: nat, p: string)
    requires i <= |s| && s[i..] == p && Field(p)
    ensures SplitFieldsFrom(s, i) == [p]
  {
    assert s[i..i + |p|] == p;
    FieldEndOfField(s, i, p);
  }

  /** Where a field, a comma and the rest lie in `s`. */
  lemma FieldCommaShape(s: string, i: nat, p: string, rest: string)
    requires i <= |s| && s[i..] == p + "," + rest && |rest| > 0
    ensures i + |p| + 1 < |s| && s[i..i + |p|] == p && s[i + |p|] == ','
    ensures s[i + |p| + 1] == rest[0] && s[i + |p| + 1..] == rest
  {
    var t := s[i..];
    assert t[..|p|] == p;
    assert t[|p|] == ',';
    assert t[|p| + 1..] == rest;
    assert s[i..i + |p|] == t[..|p|];
    assert s[i + |p| + 1..] == t[|p| + 1..];
  }

  /** A field followed by one comma and then a field character. */
  lemma SplitAtField(s: string, i: nat, p: string)
    requires Field(p) && i + |p| + 1 < |s| && s[i..i + |p|] == p
    requires s[i + |p|] == ',' && !IsFieldSep(s[i + |p| + 1])
    ensures SplitFieldsFrom(s, i) == [p] + SplitFieldsFrom(s, i + |p| + 1)
  {
    FieldEndOfField(s, i, p);
    var j := i + |p|;
    assert SepEnd(s, j + 1) == j + 1;
    assert SepEnd(s, j) == j + 1;
  }

  lemma JoinFirst(parts: seq<string>, sep: string)
    requires |parts| > 0 && |parts[0]| > 0
    ensures |Join(parts, sep)| > 0 && Join(parts, sep)[0] == parts[0][0]
  {
  }

  lemma FieldEndOfField(s: string, i: nat, p: string)
    requires Field(p) && i + |p| <= |s| && s[i..i + |p|] == p
    requires i + |p| == |s| || IsFieldSep(s[i + |p|])
    ensures FieldEnd(s, i) == i + |p|
  {
    assert forall k :: i <= k < i + |p| ==> s[k] == p[k - i];
  }

  lemma {:induction false} RenderedRunsParse(rs: seq<Run>)
    requires forall i :: 0 <= i < |rs| ==> rs[i].first <= rs[i].last
    ensures NumbersOfPieces(RenderClaimRuns(rs)) == ExpandAll(rs)
  {
    if |rs| > 0 {
      var init := rs[..|rs| - 1];
      var l := rs[|rs| - 1];
      var parts := RenderClaimRuns(rs);
      assert parts[..|parts| - 1] == RenderClaimRuns(init);
      RenderedRunsParse(init);
      RenderedRunParses(l);
      assert FlatMap(PieceNumbers, parts) == FlatMap(PieceNumbers, RenderClaimRuns(init)) + PieceNumbers(parts[|parts| - 1]);
    }
  }

  /** The label of one run parses back to the run's numbers. */
  lemma RenderedRunParses(r: Run)
    requires r.first <= r.last
    ensures PieceNumbers(RenderClaimRun(r)) == Expand(r)
  {
    if r.first == r.last {
      SingleParses(r.first);
    } else {
      PairParses(r.first, r.last);
    }
  }

  lemma RenderedRunChars(r: Run, i: nat)
    requires i < |RenderClaimRun(r)|
    ensures CompactChar(RenderClaimRun(r)[i]) && RenderClaimRun(r)[i] != ','
  {
    var a := NatToString(r.first);
    if r.first != r.last && i > |a| {
      assert RenderClaimRun(r)[i] == NatToString(r.last)[i - |a| - 1];
    }
  }

  lemma RenderedRunIsField(r: Run)
    ensures Field(RenderClaimRun(r))
  {
    forall i | 0 <= i < |RenderClaimRun(r)| ensures !IsFieldSep(RenderClaimRun(r)[i]) {
      RenderedRunChars(r, i);
    }
  }

  /** Parsing the compact form of a claim list gives back its sorted,
      de-duplicated numbers. */
  lemma CompactRoundTrip(claims: seq<nat>)
    ensures NumberRangesOf(CompactOf(claims)) == SortedUnique(claims)
    ensures StrictlyIncreasing(NumberRangesOf(CompactOf(claims)))
    ensures forall x :: x in NumberRangesOf(CompactOf(claims)) <==> x in claims
  {
    SortedUniqueProperties(claims);
    if |claims| == 0 {
      assert SplitFields(RangeText("")) == [""];
      assert NumbersOfPieces([""]) == FlatMap(PieceNumbers, []) + PieceNumbers("");
    } else {
      RunsRoundTrip(SortedUnique(claims));
    }
  }

  /** The run labels of ascending numbers, joined by commas, parse back to
      those numbers. */
  lemma RunsRoundTrip(ys: seq<nat>)
    requires |ys| > 0 && StrictlyIncreasing(ys)
    ensures NumberRangesOf(Join(RenderClaimRuns(RunsOf(ys, false)), ",")) == ys
  {
    var rs := RunsOf(ys, false);
    AscendingRunsAreMaximal(ys);
    RenderedRunsRead(rs);
  }

  /** Rendered runs, joined by commas, read back as their numbers. */
  lemma RenderedRunsRead(rs: seq<Run>)
    requires |rs| > 0
    requires forall i :: 0 <= i < |rs| ==> rs[i].first <= rs[i].last
    ensures NumberRangesOf(Join(RenderClaimRuns(rs), ",")) == ExpandAll(rs)
  {
    RenderedRunsAreFields(rs);
    JoinedFieldsParse(RenderClaimRuns(rs));
    RenderedRunsParse(rs);
  }

  /** Every rendered run is one field made only of characters the compact
      text keeps. */
  lemma RenderedRunsAreFields(rs: seq<Run>)
    ensures forall k :: 0 <= k < |RenderClaimRuns(rs)| ==> Field(RenderClaimRuns(rs)[k])
    ensures forall k, i :: 0 <= k < |RenderClaimRuns(rs)| && 0 <= i < |RenderClaimRuns(rs)[k]| ==> CompactChar(RenderClaimRuns(rs)[k][i])
  {
    var parts := RenderClaimRuns(rs);
    forall k | 0 <= k < |parts| ensures Field(parts[k]) { RenderedRunIsField(rs[k]); }
    forall k, i | 0 <= k < |parts| && 0 <= i < |parts[k]| ensures CompactChar(parts[k][i]) {
      RenderedRunChars(rs[k], i);
    }
  }

  /** Fields of kept characters joined by commas are read back piece by piece. */
  lemma JoinedFieldsParse(parts: seq<string>)
    requires |parts| > 0
    requires forall k :: 0 <= k < |parts| ==> Field(parts[k])
    requires forall k, i :: 0 <= k < |parts| && 0 <= i < |parts[k]| ==> CompactChar(parts[k][i])
    ensures NumberRangesOf(Join(parts, ",")) == NumbersOfPieces(parts)
  {
    var s := Join(parts, ",");
    JoinChars(parts, ",", CompactChar);
    CompactTextIsFixed(s);
    assert s[0..] == s;
    SplitJoinAt(parts, s, 0);
  }

  /** For a list that is already sorted and duplicate-free the codec is
      lossless. */
  lemma CompactRoundTripSorted(xs: seq<nat>)
    requires StrictlyIncreasing(xs)
    ensures NumberRangesOf(CompactOf(xs)) == xs
  {
    CompactRoundTrip(xs);
    IncreasingUnique(NumberRangesOf(CompactOf(xs)), xs);
  }

  // ---------------------------------------------------------------
  // pad4
  // ---------------------------------------------------------------

  /** `s` left-padded with zeros to at least four characters. */
  function Padded(s: string): (r: string)
    ensures |r| == if |s| < 4 then 4 else |s|
    ensures r[|r| - |s|..] == s
    ensures forall i :: 0 <= i < |r| - |s| ==> r[i] == '0'
  {
    if |s| >= 4 then s else seq(4 - |s|, _ => '0') + s
  }

  /** `pad4`. */
  method Pad4(n: string) returns (r: string)
    ensures r == Padded(n)
  {
    r := n;
    while |r| < 4
      invariant |r| >= |n|
      invariant r == seq(|r| - |n|, _ => '0') + n
      invariant |n| < 4 ==> |r| <= 4
      invariant |n| >= 4 ==> r == n
      decreases 4 - |r|
    {
      r := "0" + r;
    }
  }

  /** Padding a digit string keeps its value. */
  lemma PaddedValue(s: string)
    requires AllDigits(s)
    ensures AllDigits(Padded(s)) && DigitsValue(Padded(s)) == DigitsValue(s)
  {
    if |s| < 4 {
      var z := seq(4 - |s|, _ => '0');
      assert Padded(s) == z + s;
      ZerosValue(z, s);
    }
  }

  /** Leading zeros do not change the value of a digit string. */
  lemma {:induction false} ZerosValue(z: string, s: string)
    requires forall i :: 0 <= i < |z| ==> z[i] == '0'
    requires AllDigits(s)
    ensures AllDigits(z + s) && DigitsValue(z + s) == DigitsValue(s)
    decreases |z|
  {
    var zs := z + s;
    forall i | 0 <= i < |zs| ensures IsDigit(zs[i]) {
      if i >= |z| { assert zs[i] == s[i - |z|]; }
    }
    if |z| > 0 {
      var rest := z[1..] + s;
      ZerosValue(z[1..], s);
      ConsSplit(z, s);
      assert [z[0]] == "0";
      LeadingZeroValue(rest);
    } else {
      assert zs == s;
    }
  }
}
