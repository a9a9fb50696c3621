/** Character classes, slicing helpers, decimal conversion and the string
    orders that the analysis core relies on. A string is a `seq<char>`. */
module Text {

  datatype Option<T> = None | Some(value: T)

  /** The characters JavaScript's `\s` matches; `String.prototype.trim`
      strips exactly the same set from both ends. */
  predicate IsSpace(c: char) {
    || c == ' ' || c == '\t' || c == '\n' || c == '\r'
    || c == '\U{000B}' || c == '\U{000C}' || c == '\U{00A0}' || c == '\U{1680}'
    || ('\U{2000}' <= c <= '\U{200A}')
    || c == '\U{2028}' || c == '\U{2029}' || c == '\U{202F}' || c == '\U{205F}'
    || c == '\U{3000}' || c == '\U{FEFF}'
  }

  /** `[ \t　]`: the horizontal blanks the plain heading pattern allows. */
  predicate IsBlank(c: char) {
    c == ' ' || c == '\t' || c == '\U{3000}'
  }

  /** JavaScript `\d` (ASCII digits only). */
  predicate IsDigit(c: char) {
    '0' <= c <= '9'
  }

  /** The characters that the regular-expression `.` does not match. */
  predicate IsLineTerminator(c: char) {
    c == '\n' || c == '\r' || c == '\U{2028}' || c == '\U{2029}'
  }

  predicate AllDigits(s: string) {
    forall i :: 0 <= i < |s| ==> IsDigit(s[i])
  }

  predicate NoSpace(s: string) {
    forall i :: 0 <= i < |s| ==> !IsSpace(s[i])
  }

  predicate AllSpace(s: string) {
    forall i :: 0 <= i < |s| ==> IsSpace(s[i])
  }

  // ---------------------------------------------------------------
  // Scanning positions
  // ---------------------------------------------------------------

  /** The end of the maximal run of `\s` characters starting at `i`. */
  function SkipSpaces(t: string, i: nat): (j: nat)
    requires i <= |t|
    ensures i <= j <= |t|
    ensures forall k :: i <= k < j ==> IsSpace(t[k])
    ensures j == |t| || !IsSpace(t[j])
    decreases |t| - i
  {
    if i < |t| && IsSpace(t[i]) then SkipSpaces(t, i + 1) else i
  }

  /** The end of the maximal run of `[ \t　]` characters starting at `i`. */
  function SkipBlanks(t: string, i: nat): (j: nat)
    requires i <= |t|
    ensures i <= j <= |t|
    ensures forall k :: i <= k < j ==> IsBlank(t[k])
    ensures j == |t| || !IsBlank(t[j])
    decreases |t| - i
  {
    if i < |t| && IsBlank(t[i]) then SkipBlanks(t, i + 1) else i
  }

  /** The end of the maximal run of ASCII digits starting at `i`. */
  function DigitsEnd(t: string, i: nat): (j: nat)
    requires i <= |t|
    ensures i <= j <= |t|
    ensures forall k :: i <= k < j ==> IsDigit(t[k])
    ensures j == |t| || !IsDigit(t[j])
    decreases |t| - i
  {
    if i < |t| && IsDigit(t[i]) then DigitsEnd(t, i + 1) else i
  }

  /** The position of the first line feed at or after `i`, or the end. */
  function LineEnd(t: string, i: nat): (j: nat)
    requires i <= |t|
    ensures i <= j <= |t|
    ensures forall k :: i <= k < j ==> t[k] != '\n'
    ensures j == |t| || t[j] == '\n'
    decreases |t| - i
  {
    if i < |t| && t[i] != '\n' then LineEnd(t, i + 1) else i
  }

  /** Whether `pat` occurs in `t` at offset `i`. */
  predicate HasAt(t: string, i: nat, pat: string) {
    i + |pat| <= |t| && t[i..i + |pat|] == pat
  }

  /** The first offset at or after `from` where `pat` occurs (`indexOf`). */
  function IndexOfFrom(t: string, pat: string, from: nat): (r: Option<nat>)
    ensures r.Some? ==> from <= r.value && HasAt(t, r.value, pat)
    ensures r.Some? ==> forall k :: from <= k < r.value ==> !HasAt(t, k, pat)
    ensures r.None? ==> forall k :: from <= k ==> !HasAt(t, k, pat)
    decreases |t| - from
  {
    if from + |pat| > |t| then None
    else if HasAt(t, from, pat) then Some(from)
    else IndexOfFrom(t, pat, from + 1)
  }

  function IndexOf(t: string, pat: string): Option<nat> {
    IndexOfFrom(t, pat, 0)
  }

  /** `t.indexOf(pat) >= 0`. */
  predicate Contains(t: string, pat: string) {
    IndexOf(t, pat).Some?
  }

  lemma ContainsAt(t: string, pat: string, i: nat)
    requires HasAt(t, i, pat)
    ensures Contains(t, pat)
  {
  }

  // ---------------------------------------------------------------
  // Trimming, splitting, joining
  // ---------------------------------------------------------------

  /** The end of `s` once trailing `\s` characters are dropped. */
  function TrimEndIndex(s: string, j: nat): (k: nat)
    requires j <= |s|
    ensures k <= j
    ensures forall i :: k <= i < j ==> IsSpace(s[i])
    ensures k == 0 || !IsSpace(s[k - 1])
  {
    if j > 0 && IsSpace(s[j - 1]) then TrimEndIndex(s, j - 1) else j
  }

  /** `String.prototype.trim`. */
  function Trim(s: string): (r: string)
    ensures |r| <= |s|
    ensures r == "" || (!IsSpace(r[0]) && !IsSpace(r[|r| - 1]))
    ensures AllSpace(s) ==> r == ""
  {
    var i := SkipSpaces(s, 0);
    if i == |s| then "" else s[i..TrimEndIndex(s, |s|)]
  }

  /** `trim()` removes white space from the two ends and nothing else: the
      result is a slice of the input with only white space around it. */
  lemma TrimSlice(s: string)
    ensures exists i, j :: 0 <= i <= j <= |s| && Trim(s) == s[i..j] && AllSpace(s[..i]) && AllSpace(s[j..])
  {
    var i := SkipSpaces(s, 0);
    if i == |s| {
      assert Trim(s) == s[|s|..|s|] && AllSpace(s[..|s|]) && AllSpace(s[|s|..]);
    } else {
      var j := TrimEndIndex(s, |s|);
      assert Trim(s) == s[i..j] && AllSpace(s[..i]) && AllSpace(s[j..]);
    }
  }

  /** `s.slice(a, b)` for non-negative offsets: both are clamped to the
      length, and a reversed pair gives the empty string. */
  function Slice(s: string, a: nat, b: nat): (r: string)
    ensures a <= b <= |s| ==> r == s[a..b]
  {
    var lo := if a < |s| then a else |s|;
    var hi := if b < |s| then b else |s|;
    if lo >= hi then "" else s[lo..hi]
  }

  /** Trimming keeps only characters of the input. */
  lemma TrimKeeps(s: string)
    ensures forall i :: 0 <= i < |Trim(s)| ==> Trim(s)[i] in s
  {
    var a := SkipSpaces(s, 0);
    if a < |s| {
      forall i | 0 <= i < |Trim(s)| ensures Trim(s)[i] in s {
        assert Trim(s)[i] == s[a + i];
      }
    }
  }

  /** A trimmed string is its own trim. */
  lemma TrimIdempotent(s: string)
    ensures Trim(Trim(s)) == Trim(s)
  {
    var r := Trim(s);
    if r != "" {
      assert SkipSpaces(r, 0) == 0;
      assert TrimEndIndex(r, |r|) == |r|;
      assert r[0..|r|] == r;
    }
  }

  /** `s.split(c)` for a one-character separator. */
  function Split(s: string, c: char): (r: seq<string>)
    ensures |r| >= 1
    decreases |s|
  {
    match IndexOf(s, [c])
    case None => [s]
    case Some(i) => [s[..i]] + Split(s[i + 1..], c)
  }

  /** `parts.join(sep)`. */
  function Join(parts: seq<string>, sep: string): string {
    if |parts| == 0 then ""
    else if |parts| == 1 then parts[0]
    else parts[0] + sep + Join(parts[1..], sep)
  }

  /** `s.replace(/\s+/g, "")`. */
  function RemoveSpaces(s: string): (r: string)
    ensures NoSpace(r)
    ensures |r| <= |s|
  {
    if |s| == 0 then ""
    else if IsSpace(s[0]) then RemoveSpaces(s[1..])
    else [s[0]] + RemoveSpaces(s[1..])
  }

  // ---------------------------------------------------------------
  // Decimal numbers
  // ---------------------------------------------------------------

  /** `parseInt(s, 10)` on a string of ASCII digits. */
  function DigitsValue(s: string): nat
    requires AllDigits(s)
  {
    if |s| == 0 then 0
    else DigitsValue(s[..|s| - 1]) * 10 + (s[|s| - 1] as int - '0' as int)
  }

  /** `parseInt(s, 10)`: the value of the leading run of digits (every
      string it is applied to here starts with a digit). */
  function ParseInt(s: string): nat {
    var d := DigitsEnd(s, 0);
    assert AllDigits(s[..d]) by {
      forall k | 0 <= k < d ensures IsDigit(s[..d][k]) {
        assert s[..d][k] == s[k];
      }
    }
    DigitsValue(s[..d])
  }

  lemma ParseIntDigits(s: string)
    requires AllDigits(s)
    ensures ParseInt(s) == DigitsValue(s)
  {
    assert DigitsEnd(s, 0) == |s|;
    assert s[..|s|] == s;
  }

  /** `String(n)` for a non-negative integer. */
  function NatToString(n: nat): (r: string)
    ensures |r| >= 1 && AllDigits(r)
    ensures n >= 10 ==> r[0] != '0'
  {
    if n < 10 then [('0' as int + n) as char]
    else NatToString(n / 10) + [('0' as int + n % 10) as char]
  }

  lemma {:induction false} NatToStringValue(n: nat)
    ensures DigitsValue(NatToString(n)) == n
  {
    var r := NatToString(n);
    if n >= 10 {
      NatToStringValue(n / 10);
      assert r[..|r| - 1] == NatToString(n / 10);
    }
  }

  /** Leading zeros do not change the value of a digit string. */
  lemma {:induction false} LeadingZeroValue(s: string)
    requires AllDigits(s)
    ensures DigitsValue("0" + s) == DigitsValue(s)
  {
    if |s| > 0 {
      LeadingZeroValue(s[..|s| - 1]);
      assert ("0" + s)[..|s|] == "0" + s[..|s| - 1];
    }
  }

  /** `String(n)` never contains a comma or a hyphen. */
  lemma NatToStringHasNoSeparator(n: nat, i: nat)
    requires i < |NatToString(n)|
    ensures NatToString(n)[i] != ',' && NatToString(n)[i] != '-' && !IsSpace(NatToString(n)[i])
  {
  }

  // ---------------------------------------------------------------
  // Orders and sorting
  // ---------------------------------------------------------------

  predicate Sorted(s: seq<nat>) {
    forall i, j :: 0 <= i < j < |s| ==> s[i] <= s[j]
  }

  predicate StrictlyIncreasing(s: seq<nat>) {
    forall i, j :: 0 <= i < j < |s| ==> s[i] < s[j]
  }

  predicate NoDuplicates<T(==)>(s: seq<T>) {
    forall i, j :: 0 <= i < j < |s| ==> s[i] != s[j]
  }

  function Reverse<T>(s: seq<T>): (r: seq<T>)
    ensures |r| == |s|
    ensures forall i :: 0 <= i < |s| ==> r[i] == s[|s| - 1 - i]
  {
    if |s| == 0 then [] else Reverse(s[1..]) + [s[0]]
  }

  function InsertAsc(x: nat, s: seq<nat>): (r: seq<nat>)
    requires Sorted(s)
    ensures |r| == |s| + 1
    ensures forall y :: y in r <==> y == x || y in s
    ensures Sorted(r) && multiset(r) == multiset(s) + multiset{x}
  {
    if |s| == 0 then [x]
    else if x <= s[0] then [x] + s
    else
      var rest := InsertAsc(x, s[1..]);
      InsertAscHead(x, s, rest);
      [s[0]] + rest
  }

  /** The head of a sorted sequence stays in front of `x` inserted into its
      tail. */
  lemma InsertAscHead(x: nat, s: seq<nat>, rest: seq<nat>)
    requires Sorted(s) && |s| > 0 && s[0] < x
    requires Sorted(rest) && forall y :: y in rest <==> y == x || y in s[1..]
    requires multiset(rest) == multiset(s[1..]) + multiset{x}
    ensures Sorted([s[0]] + rest)
    ensures forall y :: y in [s[0]] + rest <==> y == x || y in s
    ensures multiset([s[0]] + rest) == multiset(s) + multiset{x}
  {
    assert s == [s[0]] + s[1..];
    forall i | 0 <= i < |rest| ensures s[0] <= rest[i] {
      assert rest[i] in rest;
      if rest[i] != x {
        var k :| 0 <= k < |s[1..]| && s[1..][k] == rest[i];
        assert s[k + 1] == rest[i];
      }
    }
    var r := [s[0]] + rest;
    forall i, j | 0 <= i < j < |r| ensures r[i] <= r[j] {
      if i > 0 { assert r[i] == rest[i - 1] && r[j] == rest[j - 1]; }
      else { assert r[j] == rest[j - 1]; }
    }
  }

  /** `arr.sort(function (a, b) { return a - b; })`. */
  function SortAsc(s: seq<nat>): (r: seq<nat>)
    ensures Sorted(r) && multiset(r) == multiset(s)
    ensures |r| == |s|
  {
    if |s| == 0 then []
    else
      assert s == s[..|s| - 1] + [s[|s| - 1]];
      InsertAsc(s[|s| - 1], SortAsc(s[..|s| - 1]))
  }

  /** A sorted sequence without duplicates is strictly increasing. */
  lemma DuplicateCount(s: seq<nat>, i: nat, j: nat)
    requires 0 <= i < j < |s| && s[i] == s[j]
    ensures multiset(s)[s[i]] >= 2
  {
    var before := s[..j];
    assert s == before + s[j..];
    assert s[i] in before;
    assert multiset(s) == multiset(before) + multiset(s[j..]);
    assert s[j..][0] == s[j];
  }

  /** A sorted sequence without duplicates is strictly increasing. */
  lemma SortedDistinctIncreasing(s: seq<nat>)
    requires Sorted(s)
    requires forall x :: x in multiset(s) ==> multiset(s)[x] == 1
    ensures StrictlyIncreasing(s)
  {
    forall i, j | 0 <= i < j < |s| ensures s[i] < s[j] {
      if s[i] == s[j] {
        DuplicateCount(s, i, j);
        assert false;
      }
    }
  }

  lemma MinWitness(s: set<nat>) returns (m: nat)
    requires s != {}
    ensures m in s && forall y :: y in s ==> m <= y
    decreases |s|
  {
    var x :| x in s;
    if s == {x} {
      m := x;
      forall y | y in s ensures m <= y { assert y in {x}; }
    } else {
      var m' := MinWitness(s - {x});
      m := if x < m' then x else m';
      forall y | y in s ensures m <= y { if y != x { assert y in s - {x}; } }
    }
  }

  lemma MinExists(s: set<nat>)
    requires s != {}
    ensures exists m :: m in s && forall y :: y in s ==> m <= y
  {
    var m := MinWitness(s);
  }

  /** The smallest element of a non-empty finite set of numbers. */
  function MinOf(s: set<nat>): (m: nat)
    requires s != {}
    ensures m in s && forall y :: y in s ==> m <= y
  {
    MinExists(s);
    var m :| m in s && forall y :: y in s ==> m <= y;
    m
  }

  /** The elements of a finite set of numbers in ascending order. */
  function SortedElems(s: set<nat>): (r: seq<nat>)
    ensures StrictlyIncreasing(r)
    ensures |r| == |s|
    ensures forall x :: x in r <==> x in s
    decreases |s|
  {
    if s == {} then []
    else
      var m := MinOf(s);
      var rest := SortedElems(s - {m});
      assert forall i :: 0 <= i < |rest| ==> m < rest[i] by {
        forall i | 0 <= i < |rest| ensures m < rest[i] { assert rest[i] in rest; }
      }
      [m] + rest
  }

  /** Where the three parts of `x + [m] + y` sit. */
  lemma ThreeParts<T>(x: seq<T>, m: T, y: seq<T>)
    ensures var p := x + [m] + y;
            |p| == |x| + 1 + |y| && p[..|x|] == x && p[|x|] == m && p[|x| + 1..] == y
  {
  }

  /** Splitting off the first element of the left operand of a concatenation. */
  lemma ConsSplit<T>(z: seq<T>, s: seq<T>)
    requires |z| > 0
    ensures z + s == [z[0]] + (z[1..] + s)
  {
  }

  /** A suffix is the slice up to a later point followed by the rest. */
  lemma PrefixSuffix<T>(s: seq<T>, a: nat)
    requires a <= |s|
    ensures s[..a] + s[a..] == s
  {
  }

  lemma SuffixSplit<T>(s: seq<T>, a: nat, b: nat)
    requires a <= b <= |s|
    ensures s[a..] == s[a..b] + s[b..]
  {
  }

  /** Two sequences that agree at every index are equal. */
  lemma SameElements<T>(a: seq<T>, b: seq<T>)
    requires |a| == |b| && forall k :: 0 <= k < |a| ==> a[k] == b[k]
    ensures a == b
  {
  }

  /** A sequence that extends `parts` by `x` is `parts + [x]`. */
  lemma SnocAt<T>(parts: seq<T>, r: seq<T>, x: T)
    requires |r| == |parts| + 1 && r[|parts|] == x
    requires forall k :: 0 <= k < |parts| ==> r[k] == parts[k]
    ensures parts + [x] == r
  {
  }

  /** Two four-element sequences that agree at every index are equal. */
  lemma FourElements<T>(r: seq<T>, e: seq<T>)
    requires |r| == 4 && |e| == 4
    requires r[0] == e[0] && r[1] == e[1] && r[2] == e[2] && r[3] == e[3]
    ensures r == e
  {
  }

  /** Each element below the next makes the sequence strictly increasing. */
  lemma {:induction false} StepwiseIncreasing(s: seq<nat>)
    requires forall i :: 0 <= i < |s| - 1 ==> s[i] < s[i + 1]
    ensures StrictlyIncreasing(s)
    decreases |s|
  {
    if |s| > 1 {
      var tail := s[1..];
      StepwiseIncreasing(tail);
      forall i, j | 0 <= i < j < |s| ensures s[i] < s[j] {
        if i > 0 {
          assert s[i] == tail[i - 1] && s[j] == tail[j - 1];
        } else if j > 1 {
          assert s[1] == tail[0] && s[j] == tail[j - 1];
        }
      }
    }
  }

  /** Two strictly increasing sequences with the same elements are equal. */
  lemma {:induction false} IncreasingUnique(a: seq<nat>, b: seq<nat>)
    requires StrictlyIncreasing(a) && StrictlyIncreasing(b)
    requires forall x :: x in a <==> x in b
    ensures a == b
    decreases |a|
  {
    if |a| > 0 { assert a[0] in a; }
    if |b| > 0 { assert b[0] in b; }
    if |a| > 0 && |b| > 0 {
      assert a[0] in b && b[0] in a;
      assert a[0] == b[0];
      forall x ensures x in a[1..] <==> x in b[1..] {
        if x in a[1..] {
          var k :| 1 <= k < |a| && a[k] == x;
          assert x in b;
          var l :| 0 <= l < |b| && b[l] == x;
          assert l != 0;
          assert b[1..][l - 1] == x;
        }
        if x in b[1..] {
          var k :| 1 <= k < |b| && b[k] == x;
          assert x in a;
          var l :| 0 <= l < |a| && a[l] == x;
          assert l != 0;
          assert a[1..][l - 1] == x;
        }
      }
      IncreasingUnique(a[1..], b[1..]);
    }
  }

  /** The default `Array.prototype.sort` order on strings: code point by code point (README, "## Left out", notes the UTF-16 difference). */
  predicate LexLess(a: string, b: string) {
    if |a| == 0 then |b| > 0
    else if |b| == 0 then false
    else if a[0] == b[0] then LexLess(a[1..], b[1..])
    else a[0] < b[0]
  }

  lemma {:induction false} LexIrreflexive(a: string)
    ensures !LexLess(a, a)
  {
    if |a| > 0 { LexIrreflexive(a[1..]); }
  }

  lemma {:induction false} LexTrichotomy(a: string, b: string)
    ensures a == b || LexLess(a, b) || LexLess(b, a)
    ensures !(LexLess(a, b) && LexLess(b, a))
  {
    if |a| > 0 && |b| > 0 && a[0] == b[0] {
      LexTrichotomy(a[1..], b[1..]);
      if a[1..] == b[1..] {
        assert a == [a[0]] + a[1..] && b == [b[0]] + b[1..];
      }
    }
  }

  lemma {:induction false} LexTransitive(a: string, b: string, c: string)
    requires LexLess(a, b) && LexLess(b, c)
    ensures LexLess(a, c)
  {
    if |a| > 0 && |b| > 0 && |c| > 0 && a[0] == b[0] && b[0] == c[0] {
      LexTransitive(a[1..], b[1..], c[1..]);
    }
  }

  predicate LexLeq(a: string, b: string) {
    a == b || LexLess(a, b)
  }

  lemma LexMinWitness(s: set<string>) returns (m: string)
    requires s != {}
    ensures m in s && forall y :: y in s ==> LexLeq(m, y)
    decreases |s|
  {
    var x :| x in s;
    if s == {x} {
      m := x;
      forall y | y in s ensures LexLeq(m, y) { assert y in {x}; }
    } else {
      var m' := LexMinWitness(s - {x});
      LexTrichotomy(x, m');
      m := if LexLess(x, m') then x else m';
      forall y | y in s ensures LexLeq(m, y) {
        if y != x {
          assert y in s - {x};
          if m == x && m' != y { LexTransitive(x, m', y); }
        }
      }
    }
  }

  lemma LexMinExists(s: set<string>)
    requires s != {}
    ensures exists m :: m in s && forall y :: y in s ==> LexLeq(m, y)
  {
    var m := LexMinWitness(s);
  }

  lemma LexMinUnique(s: set<string>, m: string, m': string)
    requires m in s && forall y :: y in s ==> LexLeq(m, y)
    requires m' in s && forall y :: y in s ==> LexLeq(m', y)
    ensures m == m'
  {
    assert LexLeq(m, m') && LexLeq(m', m);
    LexTrichotomy(m, m');
  }

  predicate LexSorted(s: seq<string>) {
    forall i, j :: 0 <= i < j < |s| ==> LexLess(s[i], s[j])
  }

  /** The lexicographically smallest string of a non-empty finite set. */
  function LexMinOf(s: set<string>): (m: string)
    requires s != {}
    ensures m in s && forall y :: y in s ==> LexLeq(m, y)
  {
    LexMinExists(s);
    LexMinIsUnique(s);
    var m :| m in s && forall y :: y in s ==> LexLeq(m, y);
    m
  }

  lemma LexMinIsUnique(s: set<string>)
    ensures forall m, m' | m in s && (forall y :: y in s ==> LexLeq(m, y)) && m' in s && (forall y :: y in s ==> LexLeq(m', y)) :: m == m'
  {
    forall m, m' | m in s && (forall y :: y in s ==> LexLeq(m, y)) && m' in s && (forall y :: y in s ==> LexLeq(m', y)) ensures m == m' {
      LexMinUnique(s, m, m');
    }
  }

  /** `Object.keys(set).sort()` for a set of strings. */
  function SortedStrings(s: set<string>): (r: seq<string>)
    ensures LexSorted(r)
    ensures |r| == |s|
    ensures forall x :: x in r <==> x in s
    decreases |s|
  {
    if s == {} then []
    else
      var m := LexMinOf(s);
      var rest := SortedStrings(s - {m});
      assert forall i :: 0 <= i < |rest| ==> LexLess(m, rest[i]) by {
        forall i | 0 <= i < |rest| ensures LexLess(m, rest[i]) { assert rest[i] in rest; }
      }
      [m] + rest
  }
}
