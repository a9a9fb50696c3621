/** The regular expressions of the rejection parser, each written out as a
    scanner over the text. `MatchAt` says whether, and how, a pattern
    matches at one start position, with the greedy and backtracking choices
    of the JavaScript engine resolved by hand; `FindFrom` is the leftmost
    match at or after a position (`exec` with `lastIndex`, `match`,
    `search`); `AllFrom` is the sequence of matches a global `exec` loop
    visits. */
module Scan {
  import opened Text

  /** A capture group: the half-open span `[lo, hi)` of the text. */
  datatype Cap = Cap(lo: nat, hi: nat)

  /** A match: its start, the position just after the `(^|\n)` prefix
      (`lead`, equal to `start` for unanchored patterns), its end, and up to
      two capture groups. */
  datatype Match = Match(start: nat, lead: nat, end: nat, g1: Cap, g2: Cap)

  /** What a pattern's body matches after its `(^|\n)` prefix. */
  datatype Tail = Tail(end: nat, g1: Cap, g2: Cap)

  predicate CapIn(c: Cap, lo: nat, hi: nat) {
    lo <= c.lo <= c.hi <= hi
  }

  /** Every match is non-empty and lies inside the text. */
  predicate WellFormed(m: Match, n: nat) {
    m.start <= m.lead < m.end <= n && CapIn(m.g1, m.lead, m.end) && CapIn(m.g2, m.lead, m.end)
  }

  predicate TailIn(r: Tail, j: nat, n: nat) {
    j < r.end <= n && CapIn(r.g1, j, r.end) && CapIn(r.g2, j, r.end)
  }

  function Group(t: string, c: Cap): string
    requires c.lo <= c.hi <= |t|
  {
    t[c.lo..c.hi]
  }

  // ---------------------------------------------------------------
  // Character classes
  // ---------------------------------------------------------------

  /** `[●・]` (and `[・●]`). */
  predicate IsBullet(c: char) { c == '●' || c == '・' }

  /** `[\.．]`. */
  predicate IsDot(c: char) { c == '.' || c == '．' }

  /** The characters `[^\)）]` excludes. */
  predicate IsCloser(c: char) { c == ')' || c == '）' }

  /** `[（(]`. */
  predicate IsOpener(c: char) { c == '（' || c == '(' }

  /** `[\d,\- \t、，〜~]`. */
  predicate IsListChar(c: char) {
    IsDigit(c) || c == ',' || c == '-' || c == ' ' || c == '\t' || c == '、' || c == '，' || c == '〜' || c == '~'
  }

  // ---------------------------------------------------------------
  // Scanning helpers
  // ---------------------------------------------------------------

  /** The last line feed in `[lo, hi)`. */
  function LastLineFeed(t: string, lo: nat, hi: nat): (r: Option<nat>)
    requires lo <= hi <= |t|
    ensures r.Some? ==> lo <= r.value < hi && t[r.value] == '\n'
    ensures r.Some? ==> forall k :: r.value < k < hi ==> t[k] != '\n'
    ensures r.None? ==> forall k :: lo <= k < hi ==> t[k] != '\n'
    decreases hi
  {
    if hi == lo then None
    else if t[hi - 1] == '\n' then Some(hi - 1)
    else LastLineFeed(t, lo, hi - 1)
  }

  /** The last character in `[lo, hi)` that is not a line feed. */
  function LastNonLineFeed(t: string, lo: nat, hi: nat): (r: Option<nat>)
    requires lo <= hi <= |t|
    ensures r.Some? ==> lo <= r.value < hi && t[r.value] != '\n'
    ensures r.Some? ==> forall k :: r.value < k < hi ==> t[k] == '\n'
    ensures r.None? ==> forall k :: lo <= k < hi ==> t[k] == '\n'
    decreases hi
  {
    if hi == lo then None
    else if t[hi - 1] != '\n' then Some(hi - 1)
    else LastNonLineFeed(t, lo, hi - 1)
  }

  /** The first `)` or `）` at or after `i`. */
  function CloserFrom(t: string, i: nat): (r: Option<nat>)
    requires i <= |t|
    ensures r.Some? ==> i <= r.value < |t| && IsCloser(t[r.value])
    ensures r.Some? ==> forall k :: i <= k < r.value ==> !IsCloser(t[k])
    ensures r.None? ==> forall k :: i <= k < |t| ==> !IsCloser(t[k])
    decreases |t| - i
  {
    if i == |t| then None
    else if IsCloser(t[i]) then Some(i)
    else CloserFrom(t, i + 1)
  }

  /** The end of the run of `[\d,\- \t、，〜~]` starting at `i`. */
  function ListEnd(t: string, i: nat): (j: nat)
    requires i <= |t|
    ensures i <= j <= |t|
    ensures forall k :: i <= k < j ==> IsListChar(t[k])
    ensures j == |t| || !IsListChar(t[j])
    decreases |t| - i
  {
    if i < |t| && IsListChar(t[i]) then ListEnd(t, i + 1) else i
  }

  /** `\s*([^\n]+)` after position `lo` whose `\s*` run ends at `c`
      (optionally followed by `(?=\n|$)`, which the capture always
      satisfies): the rest of the line from `c`; when the run reaches the
      end of the text the engine backtracks and the capture is the last
      character of the run that is not a line feed. */
  function LineTail(t: string, lo: nat, c: nat): (r: Option<Cap>)
    requires lo <= c <= |t|
    requires c == |t| || !IsSpace(t[c])
    ensures r.Some? ==> lo <= r.value.lo < r.value.hi <= |t|
    ensures r.Some? ==> forall k :: r.value.lo <= k < r.value.hi ==> t[k] != '\n'
    ensures r.Some? ==> r.value.hi == |t| || t[r.value.hi] == '\n'
  {
    if c < |t| then Some(Cap(c, LineEnd(t, c)))
    else
      match LastNonLineFeed(t, lo, c)
      case None => None
      case Some(q) => Some(Cap(q, q + 1))
  }

  /** `（([^\)）]+)）` at `c`: the capture runs to the first closing
      parenthesis of either width, which must be the full-width one. */
  function ParenAt(t: string, c: nat): (r: Option<Tail>)
    requires c <= |t|
    ensures r.Some? ==> TailIn(r.value, c, |t|)
  {
    if c < |t| && t[c] == '（' then
      match CloserFrom(t, c + 1)
      case None => None
      case Some(k) => if k > c + 1 && t[k] == '）' then Some(Tail(k + 1, Cap(c + 1, k), Cap(c + 1, k))) else None
    else None
  }

  // ---------------------------------------------------------------
  // The patterns
  // ---------------------------------------------------------------

  function CitedListRest(t: string, j: nat): (r: Option<Tail>)
    requires j <= |t|
    ensures r.Some? ==> TailIn(r.value, j, |t|)
  {
    var a := SkipSpaces(t, j);
    var d := DigitsEnd(t, a);
    if d == a then None
    else
      var b := SkipSpaces(t, d);
      if b == |t| || !IsDot(t[b]) then None
      else
        var c := SkipSpaces(t, b + 1);
        match LineTail(t, b + 1, c)
        case None => None
        case Some(g) => Some(Tail(g.hi, Cap(a, d), g))
  }

  /** `\s*KEY\s*(?=\n)`: the match ends at the last line feed of the space
      run after the keyword. */
  function StandaloneRest(t: string, j: nat, key: string): (r: Option<Tail>)
    requires j <= |t| && |key| > 0
    ensures r.Some? ==> TailIn(r.value, j, |t|)
  {
    var a := SkipSpaces(t, j);
    if !HasAt(t, a, key) then None
    else
      var b := a + |key|;
      var c := SkipSpaces(t, b);
      match LastLineFeed(t, b, c)
      case None => None
      case Some(q) => Some(Tail(q, Cap(q, q), Cap(q, q)))
  }

  function SummaryHeadRest(t: string, j: nat): (r: Option<Tail>)
    requires j <= |t|
    ensures r.Some? ==> TailIn(r.value, j, |t|)
  {
    var a := SkipSpaces(t, j);
    var d := DigitsEnd(t, a);
    if d == a then None
    else
      var b := SkipSpaces(t, d);
      if b == |t| || !IsDot(t[b]) then None
      else
        match ParenAt(t, SkipSpaces(t, b + 1))
        case None => None
        case Some(p) => Some(Tail(p.end, Cap(a, d), p.g1))
  }

  function BulletHeadRest(t: string, j: nat): (r: Option<Tail>)
    requires j <= |t|
    ensures r.Some? ==> TailIn(r.value, j, |t|)
  {
    var a := SkipSpaces(t, j);
    if a == |t| || !IsBullet(t[a]) then None
    else
      var b := SkipSpaces(t, a + 1);
      if !HasAt(t, b, "理由") then None
      else
        var c := SkipSpaces(t, b + 2);
        var d := DigitsEnd(t, c);
        if d == c then None
        else
          match ParenAt(t, SkipSpaces(t, d))
          case None => None
          case Some(p) => Some(Tail(p.end, Cap(c, d), p.g1))
  }

  function PlainHeadRest(t: string, j: nat): (r: Option<Tail>)
    requires j <= |t|
    ensures r.Some? ==> TailIn(r.value, j, |t|)
  {
    var a := SkipBlanks(t, j);
    if !HasAt(t, a, "理由") then None
    else
      var c := SkipBlanks(t, a + 2);
      var d := DigitsEnd(t, c);
      if d == c then None
      else
        var b := SkipBlanks(t, d);
        if b == |t| || !IsDot(t[b]) then None
        else
          match ParenAt(t, SkipBlanks(t, b + 1))
          case None => None
          case Some(p) => Some(Tail(p.end, Cap(c, d), p.g1))
  }

  /** `\s*[・●]\s*KEY`: the position after the keyword. */
  function BulletKeyEnd(t: string, j: nat, key: string): (r: Option<nat>)
    requires j <= |t| && |key| > 0
    ensures r.Some? ==> j < r.value <= |t|
  {
    BulletAt(t, SkipSpaces(t, j), key)
  }

  /** `[・●]\s*KEY` at `a`. */
  function BulletAt(t: string, a: nat, key: string): (r: Option<nat>)
    requires a <= |t| && |key| > 0
    ensures r.Some? ==> a < r.value <= |t|
  {
    if a == |t| || !IsBullet(t[a]) then None else KeyAt(t, SkipSpaces(t, a + 1), key)
  }

  /** `KEY` at `b`: the position after it. */
  function KeyAt(t: string, b: nat, key: string): (r: Option<nat>)
    requires b <= |t| && |key| > 0
    ensures r.Some? ==> b < r.value <= |t|
  {
    if HasAt(t, b, key) then Some(b + |key|) else None
  }

  /** `\s*[・●]\s*KEY\s*([^\n]+)`, with or without `(?=\n|$)`. */
  function BulletLineRest(t: string, j: nat, key: string): (r: Option<Tail>)
    requires j <= |t| && |key| > 0
    ensures r.Some? ==> TailIn(r.value, j, |t|)
  {
    match BulletKeyEnd(t, j, key)
    case None => None
    case Some(k) =>
      match LineTail(t, k, SkipSpaces(t, k))
      case None => None
      case Some(g) => Some(Tail(g.hi, g, g))
  }

  function ClaimMarkerRest(t: string, j: nat): (r: Option<Tail>)
    requires j <= |t|
    ensures r.Some? ==> TailIn(r.value, j, |t|)
  {
    match BulletKeyEnd(t, j, "請求項")
    case None => None
    case Some(k) => var e := SkipSpaces(t, k); Some(Tail(e, Cap(e, e), Cap(e, e)))
  }

  /** `\s*[・●]\s*備考\s*(?:\n|$)`: the match ends at the end of the text
      when the space run reaches it, and otherwise just after the run's last
      line feed. */
  function NoteMarkerRest(t: string, j: nat): (r: Option<Tail>)
    requires j <= |t|
    ensures r.Some? ==> TailIn(r.value, j, |t|)
  {
    match BulletKeyEnd(t, j, "備考")
    case None => None
    case Some(k) => LineBreakAfter(t, k)
  }

  /** `\s*(?:\n|$)` from `k`. */
  function LineBreakAfter(t: string, k: nat): (r: Option<Tail>)
    requires k <= |t|
    ensures r.Some? ==> k <= r.value.end <= |t| && CapIn(r.value.g1, k, r.value.end) && CapIn(r.value.g2, k, r.value.end)
  {
    var c := SkipSpaces(t, k);
    if c == |t| then Some(Tail(c, Cap(c, c), Cap(c, c)))
    else
      match LastLineFeed(t, k, c)
      case None => None
      case Some(q) => Some(Tail(q + 1, Cap(q + 1, q + 1), Cap(q + 1, q + 1)))
  }

  /** `\[(\d+)\]` at `i`. */
  function BracketAt(t: string, i: nat): (r: Option<Tail>)
    requires i <= |t|
    ensures r.Some? ==> TailIn(r.value, i, |t|)
    ensures r.Some? ==> r.value.g1 == r.value.g2 && r.value.g1.lo == i + 1 && r.value.end == r.value.g1.hi + 1
  {
    if i < |t| && t[i] == '[' then
      var d := DigitsEnd(t, i + 1);
      if d > i + 1 && d < |t| && t[d] == ']' then Some(Tail(d + 1, Cap(i + 1, d), Cap(i + 1, d))) else None
    else None
  }

  function ParaRangeAt(t: string, i: nat): (r: Option<Tail>)
    requires i <= |t|
    ensures r.Some? ==> TailIn(r.value, i, |t|)
  {
    match BracketAt(t, i)
    case None => None
    case Some(x) =>
      var b := SkipSpaces(t, x.end);
      if b == |t| || t[b] != '-' then None
      else
        match BracketAt(t, SkipSpaces(t, b + 1))
        case None => None
        case Some(y) => Some(Tail(y.end, x.g1, y.g1))
  }

  /** `KEY\s*(\d+)` at `i`. */
  function KeyNumberAt(t: string, i: nat, key: string): (r: Option<Tail>)
    requires i <= |t| && |key| > 0
    ensures r.Some? ==> TailIn(r.value, i, |t|)
  {
    if !HasAt(t, i, key) then None
    else
      var a := SkipSpaces(t, i + |key|);
      var d := DigitsEnd(t, a);
      if d == a then None else Some(Tail(d, Cap(a, d), Cap(a, d)))
  }

  /** `\s*第\s*\d+\s*KEY` from `i`: the position after the keyword. */
  function OrdinalEnd(t: string, i: nat, key: string): (r: Option<nat>)
    requires i <= |t| && |key| > 0
    ensures r.Some? ==> i < r.value <= |t|
  {
    var a := SkipSpaces(t, i);
    if !HasAt(t, a, "第") then None
    else
      var b := SkipSpaces(t, a + 1);
      var d := DigitsEnd(t, b);
      if d == b then None
      else
        var c := SkipSpaces(t, d);
        if HasAt(t, c, key) then Some(c + |key|) else None
  }

  /** The statute citation; the optional paragraph part is taken when it is
      there. */
  function ArticleAt(t: string, i: nat): (r: Option<Tail>)
    requires i <= |t|
    ensures r.Some? ==> TailIn(r.value, i, |t|)
  {
    if !HasAt(t, i, "特許法") then None
    else
      match OrdinalEnd(t, i + 3, "条")
      case None => None
      case Some(e) =>
        var e' := match OrdinalEnd(t, e, "項") case Some(f) => f case None => e;
        Some(Tail(e', Cap(i, e'), Cap(i, e')))
  }

  /** The open-claims list: after `請求項`, spaces and an optional opening
      parenthesis, a digit followed by list characters. */
  function OpenListAt(t: string, i: nat): (r: Option<Tail>)
    requires i <= |t|
    ensures r.Some? ==> TailIn(r.value, i, |t|)
  {
    if !HasAt(t, i, "請求項") then None
    else
      var a := SkipSpaces(t, i + 3);
      var p := if a < |t| && IsOpener(t[a]) then a + 1 else a;
      var b := SkipSpaces(t, p);
      if b == |t| || !IsDigit(t[b]) then None
      else
        var g := ListEnd(t, b + 1);
        var e := SkipSpaces(t, g);
        var e' := if e < |t| && IsCloser(t[e]) then e + 1 else e;
        Some(Tail(e', Cap(b, g), Cap(b, g)))
  }

  // ---------------------------------------------------------------
  // Patterns as values
  // ---------------------------------------------------------------

  /** A body never matches beyond the text and always consumes input. */
  ghost predicate Sound(f: (string, nat) -> Option<Tail>) {
    forall t: string, j: nat :: f(t, j).Some? ==> TailIn(f(t, j).value, j, |t|)
  }

  function NoTail(t: string, j: nat): Option<Tail> { None }

  /** What a pattern matches after its optional `(^|\n)` prefix. */
  type Body = f: (string, nat) -> Option<Tail> | Sound(f) witness NoTail

  /** A regular expression: its body, and whether it starts with `(^|\n)`. */
  datatype Pattern = Pattern(body: Body, anchored: bool)

  /** `(^|\n)\s*(\d+)\s*[\.．]\s*([^\n]+?)(?=\n|$)` */
  const CitedList := Pattern((t: string, j: nat) => if j <= |t| then CitedListRest(t, j) else None, true)

  /** `(^|\n)\s*理由\s*(?=\n)` */
  const ReasonLine := Pattern((t: string, j: nat) => if j <= |t| then StandaloneRest(t, j, "理由") else None, true)

  /** `(^|\n)\s*記\s*(?=\n)` */
  const KiLine := Pattern((t: string, j: nat) => if j <= |t| then StandaloneRest(t, j, "記") else None, true)

  /** `(^|\n)\s*(\d+)\s*[\.．]\s*（([^\)）]+)）` */
  const SummaryHead := Pattern((t: string, j: nat) => if j <= |t| then SummaryHeadRest(t, j) else None, true)

  /** `(^|\n)\s*[●・]\s*理由\s*(\d+)\s*（([^\)）]+)）` */
  const BulletHead := Pattern((t: string, j: nat) => if j <= |t| then BulletHeadRest(t, j) else None, true)

  /** `(^|\n)[ \t　]*理由[ \t　]*(\d+)[ \t　]*[\.．][ \t　]*（([^\)）]+)）` */
  const PlainHead := Pattern((t: string, j: nat) => if j <= |t| then PlainHeadRest(t, j) else None, true)

  /** `(^|\n)\s*[・●]\s*請求項\s*([^\n]+)(?=\n|$)` */
  const ClaimLine := Pattern((t: string, j: nat) => if j <= |t| then BulletLineRest(t, j, "請求項") else None, true)

  /** `(^|\n)\s*[・●]\s*請求項\s*` */
  const ClaimMarker := Pattern((t: string, j: nat) => if j <= |t| then ClaimMarkerRest(t, j) else None, true)

  /** `(^|\n)\s*[・●]\s*引用文献等\s*([^\n]+)` */
  const RefsLine := Pattern((t: string, j: nat) => if j <= |t| then BulletLineRest(t, j, "引用文献等") else None, true)

  /** `(^|\n)\s*[・●]\s*備考\s*(?:\n|$)` */
  const NoteMarker := Pattern((t: string, j: nat) => if j <= |t| then NoteMarkerRest(t, j) else None, true)

  /** `\[(\d+)\]\s*-\s*\[(\d+)\]` */
  const ParaRangeTok := Pattern((t: string, j: nat) => if j <= |t| then ParaRangeAt(t, j) else None, false)

  /** `\[(\d+)\]` */
  const ParaTok := Pattern((t: string, j: nat) => if j <= |t| then BracketAt(t, j) else None, false)

  /** `図\s*([0-9]+)` */
  const FigureRef := Pattern((t: string, j: nat) => if j <= |t| then KeyNumberAt(t, j, "図") else None, false)

  /** `引用文献\s*(\d+)` */
  const CiteMarker := Pattern((t: string, j: nat) => if j <= |t| then KeyNumberAt(t, j, "引用文献") else None, false)

  /** `特許法\s*第\s*\d+\s*条(?:\s*第\s*\d+\s*項)?` */
  const ArticleRef := Pattern((t: string, j: nat) => if j <= |t| then ArticleAt(t, j) else None, false)

  /** `請求項\s*[（(]?\s*(\d[\d,\- \t、，〜~]*)\s*[）)]?` */
  const OpenList := Pattern((t: string, j: nat) => if j <= |t| then OpenListAt(t, j) else None, false)

  /** `（([^\)）]+)）` */
  const ParenTitle := Pattern((t: string, j: nat) => if j <= |t| then ParenAt(t, j) else None, false)

  /** The match starting at `i`. For `(^|\n)`, the empty alternative is
      tried first and only at the start of the text; otherwise a line feed
      at `i` is consumed. */
  function MatchAt(p: Pattern, t: string, i: nat): (r: Option<Match>)
    requires i <= |t|
    ensures r.Some? ==> WellFormed(r.value, |t|) && r.value.start == i
    ensures r.Some? && !p.anchored ==> r.value.lead == i
    ensures r.Some? && p.anchored ==> r.value.lead == i || (i < |t| && t[i] == '\n' && r.value.lead == i + 1)
  {
    if !p.anchored then
      match p.body(t, i)
      case None => None
      case Some(r) => Some(Match(i, i, r.end, r.g1, r.g2))
    else if i == 0 && p.body(t, 0).Some? then
      var r := p.body(t, 0).value;
      Some(Match(0, 0, r.end, r.g1, r.g2))
    else if i < |t| && t[i] == '\n' then
      match p.body(t, i + 1)
      case None => None
      case Some(r) => Some(Match(i, i + 1, r.end, r.g1, r.g2))
    else None
  }

  /** A match is the pattern's body read at the match's lead. */
  lemma MatchAtBody(p: Pattern, t: string, i: nat)
    requires i <= |t| && MatchAt(p, t, i).Some?
    ensures var m := MatchAt(p, t, i).value;
      m.lead <= |t| && p.body(t, m.lead) == Some(Tail(m.end, Cap(m.g1.lo, m.g1.hi), Cap(m.g2.lo, m.g2.hi)))
  {
  }

  /** The plain heading body runs on one line up to its opening
      parenthesis. */
  lemma PlainHeadRestOneLine(t: string, j: nat)
    requires j <= |t| && PlainHeadRest(t, j).Some?
    ensures forall k :: j <= k < PlainHeadRest(t, j).value.g2.lo ==> t[k] != '\n'
  {
    var a := SkipBlanks(t, j);
    assert HasAt(t, a, "理由");
    var c := SkipBlanks(t, a + 2);
    var d := DigitsEnd(t, c);
    var b := SkipBlanks(t, d);
    var q := SkipBlanks(t, b + 1);
    assert PlainHeadRest(t, j).value.g2.lo == q + 1 && t[q] == '（';
    forall k | j <= k < q + 1 ensures t[k] != '\n' {
      if k < a { assert IsBlank(t[k]); }
      else if k < a + 2 { assert t[a..a + 2][k - a] == t[k]; }
      else if k < c { assert IsBlank(t[k]); }
      else if k < d { assert IsDigit(t[k]); }
      else if k < b { assert IsBlank(t[k]); }
      else if k == b { assert IsDot(t[k]); }
      else if k < q { assert IsBlank(t[k]); }
    }
  }

  /** The digits of `\[(\d+)\]`. */
  lemma BracketDigits(t: string, i: nat)
    requires i <= |t| && BracketAt(t, i).Some?
    ensures var g := BracketAt(t, i).value.g1; g.lo < g.hi && AllDigits(t[g.lo..g.hi])
  {
    var d := DigitsEnd(t, i + 1);
    var run := t[i + 1..d];
    forall k | 0 <= k < |run| ensures IsDigit(run[k]) {
      assert run[k] == t[i + 1 + k];
    }
  }

  /** Both groups of `\[(\d+)\]\s*-\s*\[(\d+)\]` are digit runs. */
  lemma ParaRangeDigits(t: string, i: nat)
    requires i <= |t| && ParaRangeAt(t, i).Some?
    ensures var r := ParaRangeAt(t, i).value;
      r.g1.lo < r.g1.hi && AllDigits(t[r.g1.lo..r.g1.hi]) && r.g2.lo < r.g2.hi && AllDigits(t[r.g2.lo..r.g2.hi])
  {
    var x := BracketAt(t, i).value;
    BracketDigits(t, i);
    var b := SkipSpaces(t, x.end);
    BracketDigits(t, SkipSpaces(t, b + 1));
  }

  /** The number of `KEY\s*(\d+)` is a digit run. */
  lemma KeyNumberDigits(t: string, i: nat, key: string)
    requires i <= |t| && |key| > 0 && KeyNumberAt(t, i, key).Some?
    ensures var g := KeyNumberAt(t, i, key).value.g1; g.lo < g.hi && AllDigits(t[g.lo..g.hi])
  {
    var a := SkipSpaces(t, i + |key|);
    var d := DigitsEnd(t, a);
    var run := t[a..d];
    forall k | 0 <= k < |run| ensures IsDigit(run[k]) {
      assert run[k] == t[a + k];
    }
  }

  // ---------------------------------------------------------------
  // Matching on a suffix (`t.slice(s)`)
  // ---------------------------------------------------------------

  /** `n - s`, for a position `n` at or after offset `s`. */
  function Back(n: nat, s: nat): nat { if n >= s then n - s else 0 }

  /** A tail read on `t`, its positions made relative to offset `s`. */
  function ShiftTail(r: Option<Tail>, s: nat): Option<Tail> {
    match r
    case None => None
    case Some(x) => Some(Tail(Back(x.end, s), Cap(Back(x.g1.lo, s), Back(x.g1.hi, s)), Cap(Back(x.g2.lo, s), Back(x.g2.hi, s))))
  }

  lemma {:induction false} SkipSpacesShift(t: string, s: nat, j: nat)
    requires s <= j <= |t|
    ensures SkipSpaces(t[s..], j - s) == SkipSpaces(t, j) - s
    decreases |t| - j
  {
    if j < |t| {
      assert t[s..][j - s] == t[j];
      if IsSpace(t[j]) {
        SkipSpacesShift(t, s, j + 1);
      }
    }
  }

  lemma HasAtShift(t: string, s: nat, j: nat, pat: string)
    requires s <= j <= |t|
    ensures HasAt(t[s..], j - s, pat) == HasAt(t, j, pat)
  {
    if j + |pat| <= |t| {
      assert t[s..][j - s..j - s + |pat|] == t[j..j + |pat|];
    }
  }

  lemma {:induction false} LastLineFeedShift(t: string, s: nat, lo: nat, hi: nat)
    requires s <= lo <= hi <= |t|
    ensures LastLineFeed(t[s..], lo - s, hi - s) == match LastLineFeed(t, lo, hi) case None => None case Some(q) => Some(q - s)
    decreases hi
  {
    if hi > lo {
      assert t[s..][hi - 1 - s] == t[hi - 1];
      if t[hi - 1] != '\n' {
        LastLineFeedShift(t, s, lo, hi - 1);
      }
    }
  }

  /** An optional position made relative to offset `s`. */
  function BackOpt(r: Option<nat>, s: nat): Option<nat> {
    match r case None => None case Some(k) => Some(Back(k, s))
  }

  lemma KeyAtShift(t: string, s: nat, b: nat, key: string)
    requires s <= b <= |t| && |key| > 0
    ensures KeyAt(t[s..], b - s, key) == BackOpt(KeyAt(t, b, key), s)
  {
    HasAtShift(t, s, b, key);
  }

  lemma BulletAtShift(t: string, s: nat, a: nat, key: string)
    requires s <= a <= |t| && |key| > 0
    ensures BulletAt(t[s..], a - s, key) == BackOpt(BulletAt(t, a, key), s)
  {
    if a < |t| {
      assert t[s..][a - s] == t[a];
      SkipSpacesShift(t, s, a + 1);
      KeyAtShift(t, s, SkipSpaces(t, a + 1), key);
    }
  }

  lemma BulletKeyEndShift(t: string, s: nat, j: nat, key: string)
    requires s <= j <= |t| && |key| > 0
    ensures BulletKeyEnd(t[s..], j - s, key) == BackOpt(BulletKeyEnd(t, j, key), s)
  {
    SkipSpacesShift(t, s, j);
    BulletAtShift(t, s, SkipSpaces(t, j), key);
  }

  /** A leading `\s` character is absorbed by the `\s*` before the bullet. */
  lemma BulletKeyEndSpace(t: string, j: nat, key: string)
    requires j < |t| && IsSpace(t[j]) && |key| > 0
    ensures BulletKeyEnd(t, j, key) == BulletKeyEnd(t, j + 1, key)
  {
    assert SkipSpaces(t, j) == SkipSpaces(t, j + 1);
  }

  /** A note marker read after a leading `\s` character is the same. */
  lemma NoteMarkerRestSpace(t: string, j: nat)
    requires j < |t| && IsSpace(t[j])
    ensures NoteMarkerRest(t, j) == NoteMarkerRest(t, j + 1)
  {
    BulletKeyEndSpace(t, j, "備考");
  }

  lemma LineBreakAfterShift(t: string, s: nat, k: nat)
    requires s <= k <= |t|
    ensures LineBreakAfter(t[s..], k - s) == ShiftTail(LineBreakAfter(t, k), s)
  {
    SkipSpacesShift(t, s, k);
    var c := SkipSpaces(t, k);
    if c < |t| {
      LastLineFeedShift(t, s, k, c);
    }
  }

  lemma NoteMarkerRestShift(t: string, s: nat, j: nat)
    requires s <= j <= |t|
    ensures NoteMarkerRest(t[s..], j - s) == ShiftTail(NoteMarkerRest(t, j), s)
  {
    BulletKeyEndShift(t, s, j, "備考");
    match BulletKeyEnd(t, j, "備考")
    case None =>
    case Some(k) =>
      LineBreakAfterShift(t, s, k);
  }

  /** Past the start of the text, an anchored pattern matches only at a
      line feed, with its body read just after it. */
  lemma AnchoredAt(p: Pattern, t: string, i: nat)
    requires p.anchored && 0 < i <= |t| && MatchAt(p, t, i).Some?
    ensures i < |t| && t[i] == '\n' && MatchAt(p, t, i).value.lead == i + 1
    ensures p.body(t, i + 1) == Some(Tail(MatchAt(p, t, i).value.end, MatchAt(p, t, i).value.g1, MatchAt(p, t, i).value.g2))
  {
  }

  /** An anchored pattern matches at a line feed its body follows. */
  lemma AnchoredMatch(p: Pattern, t: string, i: nat)
    requires p.anchored && i < |t| && t[i] == '\n' && p.body(t, i + 1).Some?
    ensures MatchAt(p, t, i).Some?
  {
  }

  /** An anchored pattern whose body matches at the very start matches
      there. */
  lemma AnchoredAtZero(p: Pattern, t: string)
    requires p.anchored && p.body(t, 0).Some?
    ensures MatchAt(p, t, 0).Some? && MatchAt(p, t, 0).value.end == p.body(t, 0).value.end
  {
  }

  /** A `・備考` marker line found on the text is found again, ending at the
      same place, at the start of the text cut where the match starts. */
  lemma NoteMarkerAtCut(t: string, i: nat)
    requires i <= |t| && MatchAt(NoteMarker, t, i).Some?
    ensures MatchAt(NoteMarker, t[i..], 0).Some?
    ensures MatchAt(NoteMarker, t[i..], 0).value.end == MatchAt(NoteMarker, t, i).value.end - i
  {
    var m := MatchAt(NoteMarker, t, i).value;
    var u := t[i..];
    if i == 0 {
      assert u == t;
    } else {
      AnchoredAt(NoteMarker, t, i);
      assert NoteMarkerRest(t, i + 1) == Some(Tail(m.end, m.g1, m.g2));
      assert u[0] == t[i];
      NoteMarkerRestSpace(u, 0);
      NoteMarkerRestShift(t, i, i + 1);
      assert NoteMarker.body(u, 0) == NoteMarkerRest(u, 0);
      AnchoredAtZero(NoteMarker, u);
    }
  }

  /** `line` and `marker` are anchored, every match of `line`'s body
      starts with the bullet and `請求項`, and `marker`'s body matches
      wherever those do. */
  ghost predicate MarksClaims(line: Pattern, marker: Pattern) {
    && line.anchored && marker.anchored
    && (forall u: string, j: nat :: line.body(u, j).Some? ==> j <= |u| && BulletKeyEnd(u, j, "請求項").Some?)
    && (forall u: string, j: nat :: j <= |u| && BulletKeyEnd(u, j, "請求項").Some? ==> marker.body(u, j).Some?)
  }

  /** The claim line and the claim marker of `extractMiniItemsFromBlock`. */
  lemma ClaimPatterns()
    ensures MarksClaims(ClaimLine, ClaimMarker)
  {
  }

  /** Where a claim line starts, at or after offset `s > 0`, the claim
      marker matches on the text cut at `s`. */
  lemma MarkerInSuffix(line: Pattern, marker: Pattern, t: string, s: nat, p: nat)
    requires MarksClaims(line, marker)
    requires 0 < s <= p <= |t| && MatchAt(line, t, p).Some?
    ensures MatchAt(marker, t[s..], p - s).Some?
  {
    AnchoredAt(line, t, p);
    assert BulletKeyEnd(t, p + 1, "請求項").Some?;
    BulletKeyEndShift(t, s, p + 1, "請求項");
    assert t[s..][p - s] == t[p];
    assert marker.body(t[s..], p - s + 1).Some?;
    AnchoredMatch(marker, t[s..], p - s);
  }

  /** The pattern matches at no position of `[lo, hi)`. */
  predicate NoMatchIn(p: Pattern, t: string, lo: nat, hi: nat)
    requires hi <= |t| + 1
    decreases hi - lo
  {
    lo >= hi || (MatchAt(p, t, lo).None? && NoMatchIn(p, t, lo + 1, hi))
  }

  lemma {:induction false} NoMatchInAt(p: Pattern, t: string, lo: nat, hi: nat, k: nat)
    requires hi <= |t| + 1 && NoMatchIn(p, t, lo, hi) && lo <= k < hi
    ensures MatchAt(p, t, k).None?
    decreases hi - lo
  {
    if lo < k {
      NoMatchInAt(p, t, lo + 1, hi, k);
    }
  }

  /** The leftmost match at or after `from`. */
  function FindFrom(p: Pattern, t: string, from: nat): (r: Option<Match>)
    ensures r.Some? ==> WellFormed(r.value, |t|)
    ensures r.Some? ==> from <= r.value.start && MatchAt(p, t, r.value.start) == r
    ensures r.Some? ==> NoMatchIn(p, t, from, r.value.start)
    ensures r.None? && from <= |t| ==> NoMatchIn(p, t, from, |t| + 1)
    decreases |t| - from
  {
    if from > |t| then None
    else
      var m := MatchAt(p, t, from);
      if m.Some? then m else FindFrom(p, t, from + 1)
  }

  /** `FindFrom` finds the leftmost match: none starts between `from` and
      the one it returns, and when it returns none, none starts at or after
      `from`. */
  lemma Leftmost(p: Pattern, t: string, from: nat, k: nat)
    requires from <= k <= |t|
    ensures FindFrom(p, t, from).Some? && k < FindFrom(p, t, from).value.start ==> MatchAt(p, t, k).None?
    ensures FindFrom(p, t, from).None? ==> MatchAt(p, t, k).None?
  {
    var r := FindFrom(p, t, from);
    if r.Some? && k < r.value.start {
      NoMatchInAt(p, t, from, r.value.start, k);
    } else if r.None? {
      NoMatchInAt(p, t, from, |t| + 1, k);
    }
  }

  /** The first match (`match`, `search`). */
  function Find(p: Pattern, t: string): Option<Match> {
    FindFrom(p, t, 0)
  }

  /** The matches a global `exec` loop visits from `lastIndex = from`: each
      search resumes where the previous match ended. */
  function AllFrom(p: Pattern, t: string, from: nat): (r: seq<Match>)
    requires from <= |t|
    ensures forall k :: 0 <= k < |r| ==> WellFormed(r[k], |t|) && from <= r[k].start
    decreases |t| - from
  {
    match FindFrom(p, t, from)
    case None => []
    case Some(m) => [m] + AllFrom(p, t, m.end)
  }

  function All(p: Pattern, t: string): seq<Match> {
    AllFrom(p, t, 0)
  }

  /** One turn of a global `exec` loop: the match found at `pos` is the
      next visited one, and the loop resumes at its end. */
  lemma ExecStep(p: Pattern, t: string, pos: nat, done: seq<Match>)
    requires pos <= |t| && FindFrom(p, t, pos).Some? && done + AllFrom(p, t, pos) == All(p, t)
    ensures var x := FindFrom(p, t, pos).value;
      x.end <= |t| && (done + [x]) + AllFrom(p, t, x.end) == All(p, t)
  {
    var x := FindFrom(p, t, pos).value;
    assert AllFrom(p, t, pos) == [x] + AllFrom(p, t, x.end);
    assert (done + [x]) + AllFrom(p, t, x.end) == done + ([x] + AllFrom(p, t, x.end));
  }

  /** The visited matches are in document order and do not overlap. */
  lemma {:induction false} AllFromOrdered(p: Pattern, t: string, from: nat)
    requires from <= |t|
    ensures forall k :: 0 <= k < |AllFrom(p, t, from)| - 1 ==> AllFrom(p, t, from)[k].end <= AllFrom(p, t, from)[k + 1].start
    decreases |t| - from
  {
    match FindFrom(p, t, from)
    case None =>
    case Some(m) =>
      AllFromOrdered(p, t, m.end);
      var rest := AllFrom(p, t, m.end);
      assert AllFrom(p, t, from) == [m] + rest;
      if |rest| > 0 {
        assert m.end <= rest[0].start;
      }
  }

  /** No match is skipped: every position at which the pattern matches and
      that is not inside an earlier visited match is visited. */
  lemma {:induction false} AllFromComplete(p: Pattern, t: string, from: nat, i: nat)
    requires from <= i <= |t| && MatchAt(p, t, i).Some?
    ensures exists k :: 0 <= k < |AllFrom(p, t, from)| && AllFrom(p, t, from)[k].start <= i < AllFrom(p, t, from)[k].end
    decreases |t| - from
  {
    Leftmost(p, t, from, i);
    var r := FindFrom(p, t, from);
    assert r.Some?;
    var m := r.value;
    var rest := AllFrom(p, t, m.end);
    var all := AllFrom(p, t, from);
    assert all == [m] + rest;
    if i < m.end {
      assert all[0].start <= i < all[0].end;
    } else {
      AllFromComplete(p, t, m.end, i);
      var k :| 0 <= k < |rest| && rest[k].start <= i < rest[k].end;
      assert all[k + 1] == rest[k];
    }
  }

  /** Every visited match is the pattern's match at its own start. */
  lemma {:induction false} AllFromMatchAt(p: Pattern, t: string, from: nat, k: nat)
    requires from <= |t| && k < |AllFrom(p, t, from)|
    ensures AllFrom(p, t, from)[k].start <= |t| && MatchAt(p, t, AllFrom(p, t, from)[k].start) == Some(AllFrom(p, t, from)[k])
    decreases |t| - from
  {
    var m := FindFrom(p, t, from).value;
    assert AllFrom(p, t, from) == [m] + AllFrom(p, t, m.end);
    if k > 0 {
      AllFromMatchAt(p, t, m.end, k - 1);
    }
  }

  /** `[digits]` matches `\[(\d+)\]` exactly where it stands. */
  lemma ParaTokAt(t: string, i: nat)
    requires i <= |t|
    ensures MatchAt(ParaTok, t, i) == match BracketAt(t, i) case None => None case Some(r) => Some(Match(i, i, r.end, r.g1, r.g2))
  {
  }

  /** Inside a `[digits]` match there is no `[`: only digits and the
      closing bracket. */
  lemma NoBracketInside(t: string, s: nat, i: nat)
    requires s < i <= |t| && BracketAt(t, s).Some? && i < BracketAt(t, s).value.end
    ensures t[i] != '['
  {
    var g := BracketAt(t, s).value.g1;
    BracketDigits(t, s);
    if i < g.hi {
      assert t[g.lo..g.hi][i - g.lo] == t[i];
    }
  }

  /** No `[digits]` is skipped by the `exec` loop over `\[(\d+)\]`, since
      no such match can start inside another. */
  lemma BracketVisited(t: string, i: nat)
    requires i <= |t| && BracketAt(t, i).Some?
    ensures MatchAt(ParaTok, t, i).Some? && MatchAt(ParaTok, t, i).value in All(ParaTok, t)
  {
    ParaTokAt(t, i);
    AllFromComplete(ParaTok, t, 0, i);
    var all := All(ParaTok, t);
    var k :| 0 <= k < |all| && all[k].start <= i < all[k].end;
    AllFromMatchAt(ParaTok, t, 0, k);
    var s := all[k].start;
    ParaTokAt(t, s);
    if s < i {
      NoBracketInside(t, s, i);
    }
    assert all[k] == MatchAt(ParaTok, t, i).value;
  }

  /** A `[a]-[b]` match is made of two `[digits]` matches: one where it
      starts, whose digits are its first group, and one at `q`, whose digits
      are its second. */
  lemma RangeBrackets(t: string, i: nat) returns (q: nat)
    requires i <= |t| && MatchAt(ParaRangeTok, t, i).Some?
    ensures BracketAt(t, i).Some? && BracketAt(t, i).value.g1 == MatchAt(ParaRangeTok, t, i).value.g1
    ensures q <= |t| && BracketAt(t, q).Some? && BracketAt(t, q).value.g1 == MatchAt(ParaRangeTok, t, i).value.g2
  {
    var x := BracketAt(t, i).value;
    var b := SkipSpaces(t, x.end);
    q := SkipSpaces(t, b + 1);
  }
}
