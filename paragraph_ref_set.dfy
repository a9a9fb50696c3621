/** The accumulator of paragraph numbers and figure labels cited against a
    reference, and its two text formatters. */
module ParagraphRefs {
  import opened Text
  import opened Utils

  // ---------------------------------------------------------------
  // Tokens
  // ---------------------------------------------------------------

  /** What a trimmed token stands for: a figure label, a paragraph range
      (possibly a single paragraph, possibly reversed), or nothing. */
  datatype RefToken = FigToken(name: string) | ParaRange(a: nat, b: nat) | Junk

  predicate NoLineTerminator(s: string) {
    forall i :: 0 <= i < |s| ==> !IsLineTerminator(s[i])
  }

  /** `^FIG:\[(.+)\]$`: the label is at least one character and, `.` not
      matching line terminators, has none. */
  predicate IsFigToken(t: string) {
    |t| >= 7 && t[..5] == "FIG:[" && t[|t| - 1] == ']' && NoLineTerminator(t[5..|t| - 1])
  }

  /** `^\[(\d+)\](?:-\[(\d+)\])?$`. */
  function ParseBracketToken(t: string): RefToken {
    if |t| < 3 || t[0] != '[' then Junk
    else
      var d := DigitsEnd(t, 1);
      assert AllDigits(t[1..d]) by { DigitsEndSlice(t, 1); }
      if d == 1 || d == |t| || t[d] != ']' then Junk
      else if d + 1 == |t| then ParaRange(DigitsValue(t[1..d]), DigitsValue(t[1..d]))
      else if d + 3 < |t| && t[d + 1] == '-' && t[d + 2] == '[' then
        var e := DigitsEnd(t, d + 3);
        assert AllDigits(t[d + 3..e]) by { DigitsEndSlice(t, d + 3); }
        if e > d + 3 && e == |t| - 1 && t[e] == ']' then ParaRange(DigitsValue(t[1..d]), DigitsValue(t[d + 3..e]))
        else Junk
      else Junk
  }

  /** The two matches of `addToken`, the figure form tried first. */
  function ParseRefToken(t: string): RefToken {
    if IsFigToken(t) then FigToken(t[5..|t| - 1]) else ParseBracketToken(t)
  }

  function BracketText(digits: string): string { "[" + digits + "]" }

  lemma DigitsEndSlice(t: string, i: nat)
    requires i <= |t|
    ensures AllDigits(t[i..DigitsEnd(t, i)])
  {
    var run := t[i..DigitsEnd(t, i)];
    forall k | 0 <= k < |run| ensures IsDigit(run[k]) {
      assert run[k] == t[i + k];
    }
  }

  /** A token not starting with `F` is not a figure token. */
  lemma NotFigToken(t: string)
    requires |t| > 0 && t[0] != 'F'
    ensures !IsFigToken(t)
  {
    if |t| >= 7 {
      assert t[..5][0] == t[0];
    }
  }

  /** `[digits]` is read as the one-paragraph range. */
  lemma SingleBracketForm(d1: string)
    requires |d1| > 0 && AllDigits(d1)
    ensures ParseRefToken(BracketText(d1)) == ParaRange(DigitsValue(d1), DigitsValue(d1))
  {
    var s := BracketText(d1);
    NotFigToken(s);
    assert s[1..|d1| + 1] == d1;
    DigitsEndAt(s, 1, d1);
  }

  /** `[digits]-[digits]` is read as the range between the two. */
  lemma PairBracketForm(d1: string, d2: string)
    requires |d1| > 0 && AllDigits(d1) && |d2| > 0 && AllDigits(d2)
    ensures ParseRefToken(BracketText(d1) + "-" + BracketText(d2)) == ParaRange(DigitsValue(d1), DigitsValue(d2))
  {
    var t := BracketText(d1) + "-" + BracketText(d2);
    var p := |d1| + 1;
    var e := p + 3 + |d2|;
    PairBracketLayout(d1, d2);
    NotFigToken(t);
    DigitsEndAt(t, 1, d1);
    DigitsEndAt(t, p + 3, d2);
    BracketPairAt(t, p, e);
    assert t[1..p] == d1 && t[p + 3..e] == d2;
    assert ParseRefToken(t) == ParseBracketToken(t);
  }

  /** Where the brackets, the hyphen and the two digit runs sit in
      `[d1]-[d2]`. */
  lemma PairBracketLayout(d1: string, d2: string)
    ensures var t := BracketText(d1) + "-" + BracketText(d2);
            var p := |d1| + 1;
            |t| == p + 4 + |d2| && t[0] == '[' && t[1..p] == d1 && t[p] == ']' && t[p + 1] == '-' && t[p + 2] == '['
            && t[p + 3..p + 3 + |d2|] == d2 && t[p + 3 + |d2|] == ']'
  {
    var t := BracketText(d1) + "-" + BracketText(d2);
    assert t == "[" + d1 + "]-[" + d2 + "]";
  }

  /** The second branch of `ParseBracketToken`, read off the two digit runs. */
  lemma BracketPairAt(t: string, p: nat, e: nat)
    requires 1 < p && p + 3 < e == |t| - 1 && t[0] == '['
    requires DigitsEnd(t, 1) == p && t[p] == ']' && t[p + 1] == '-' && t[p + 2] == '['
    requires DigitsEnd(t, p + 3) == e && t[e] == ']'
    ensures ParseBracketToken(t) == ParaRange(DigitsValue(t[1..p]), DigitsValue(t[p + 3..e]))
  {
  }

  /** The labels the formatters print read back as the paragraphs they
      name. */
  lemma ParaLabelParses(a: nat, b: nat)
    ensures ParseRefToken(ParaLabel(a)) == ParaRange(a, a)
    ensures ParseRefToken(ParaLabel(a) + "-" + ParaLabel(b)) == ParaRange(a, b)
  {
    NatToStringValue(a);
    PaddedValue(NatToString(a));
    NatToStringValue(b);
    PaddedValue(NatToString(b));
    SingleBracketForm(Padded(NatToString(a)));
    PairBracketForm(Padded(NatToString(a)), Padded(NatToString(b)));
  }

  function DigitChar(d: nat): char
    requires d < 10
  {
    ('0' as int + d) as char
  }

  /** The label of a two-digit paragraph number, character by character. */
  lemma ParaLabelTwoDigits(n: nat)
    requires 10 <= n < 100
    ensures ParaLabel(n) == ['[', '0', '0', DigitChar(n / 10), DigitChar(n % 10), ']']
  {
    var d := NatToString(n);
    assert NatToString(n / 10) == [DigitChar(n / 10)];
    assert d == [DigitChar(n / 10), DigitChar(n % 10)];
    var l := ParaLabel(n);
    assert l == "[" + Padded(d) + "]";
    assert |l| == 6 && l[1] == '0' && l[2] == '0' && l[3] == d[0] && l[4] == d[1];
  }

  lemma FigTokenForm(fig: string)
    requires |fig| > 0 && NoLineTerminator(fig)
    ensures ParseRefToken("FIG:[" + fig + "]") == FigToken(fig)
  {
    var t := "FIG:[" + fig + "]";
    assert t[..5] == "FIG:[";
    assert t[5..|t| - 1] == fig;
  }

  lemma DigitsEndAt(t: string, i: nat, d: string)
    requires i + |d| <= |t| && t[i..i + |d|] == d && AllDigits(d)
    requires i + |d| == |t| || !IsDigit(t[i + |d|])
    ensures DigitsEnd(t, i) == i + |d|
  {
    assert forall k :: i <= k < i + |d| ==> t[k] == d[k - i];
  }

  /** Nothing else is accepted as a figure: a figure token is `FIG:[label]`. */
  lemma FigTokenShape(t: string)
    requires ParseRefToken(t).FigToken?
    ensures t == FigPart(ParseRefToken(t).name)
    ensures |ParseRefToken(t).name| > 0 && NoLineTerminator(ParseRefToken(t).name)
  {
    assert t == t[..5] + t[5..|t| - 1] + [t[|t| - 1]];
  }

  /** Nothing else is accepted as paragraphs: a paragraph token is
      `[digits]` or `[digits]-[digits]`, read as the numbers the digits
      spell. */
  lemma ParaTokenShape(t: string)
    requires ParseRefToken(t).ParaRange?
    ensures exists d1: string, d2: string :: |d1| > 0 && AllDigits(d1) && |d2| > 0 && AllDigits(d2) &&
              ParseRefToken(t).a == DigitsValue(d1) &&
              ((t == BracketText(d1) && ParseRefToken(t).b == DigitsValue(d1)) ||
               (t == BracketText(d1) + "-" + BracketText(d2) && ParseRefToken(t).b == DigitsValue(d2)))
  {
    NotFigStart(t);
    var d := DigitsEnd(t, 1);
    var d1 := t[1..d];
    assert AllDigits(d1) by { DigitsEndSlice(t, 1); }
    if d + 1 == |t| {
      assert t == [t[0]] + d1 + [t[d]];
      assert t == BracketText(d1);
    } else {
      var e := DigitsEnd(t, d + 3);
      var d2 := t[d + 3..e];
      assert AllDigits(d2) by { DigitsEndSlice(t, d + 3); }
      assert t == [t[0]] + d1 + [t[d]] + [t[d + 1]] + [t[d + 2]] + d2 + [t[e]];
      assert t == BracketText(d1) + "-" + BracketText(d2);
    }
  }

  /** A paragraph token is not a figure token. */
  lemma NotFigStart(t: string)
    requires ParseRefToken(t).ParaRange?
    ensures !IsFigToken(t) && |t| >= 3 && t[0] == '['
  {
  }

  /** The paragraphs `[min(a,b)..max(a,b)]`. */
  function Between(a: nat, b: nat): (s: set<nat>)
    ensures forall n :: n in s <==> (a <= n <= b || b <= n <= a)
  {
    if a <= b then NatsFrom(a, b + 1) else NatsFrom(b, a + 1)
  }

  /** The numbers `lo <= n < end`. */
  function NatsFrom(lo: nat, end: nat): (s: set<nat>)
    ensures forall n :: n in s <==> lo <= n < end
    decreases end
  {
    if end <= lo then {} else NatsFrom(lo, end - 1) + {end - 1}
  }

  /** The paragraphs a token adds. */
  function TokenParas(tok: string): set<nat> {
    match ParseRefToken(Trim(tok))
    case ParaRange(a, b) => Between(a, b)
    case _ => {}
  }

  /** The figure labels a token adds. */
  function TokenFigs(tok: string): set<string> {
    match ParseRefToken(Trim(tok))
    case FigToken(l) => {l}
    case _ => {}
  }

  /** A token adds to at most one of the two sets, and a token of no
      accepted form adds to neither. */
  lemma TokenAddsToOneSet(tok: string)
    ensures TokenParas(tok) == {} || TokenFigs(tok) == {}
    ensures ParseRefToken(Trim(tok)).Junk? ==> TokenParas(tok) == {} && TokenFigs(tok) == {}
    ensures ParseRefToken(Trim(tok)).ParaRange? ==> TokenParas(tok) != {}
    ensures ParseRefToken(Trim(tok)).FigToken? ==> |TokenFigs(tok)| == 1
  {
    var t := ParseRefToken(Trim(tok));
    if t.ParaRange? {
      assert t.a in Between(t.a, t.b);
    }
  }

  /** The overlapping tokens of the repository's test collapse into one
      range of paragraphs. */
  lemma OverlappingTokensAbsorbed()
    ensures TokenParas("[0058]-[0061]") + TokenParas("[0060]") + TokenParas("[0061]") == Between(58, 61)
  {
    PairTokenExample();
    SingleTokenExample();
  }

  /** Step of `OverlappingTokensAbsorbed`: the range token. */
  lemma PairTokenExample()
    ensures TokenParas("[0058]-[0061]") == Between(58, 61)
  {
    Labels58To61();
    PairLabelParas(58, 61);
  }

  /** Step of `OverlappingTokensAbsorbed`: the two single tokens. */
  lemma SingleTokenExample()
    ensures TokenParas("[0060]") == {60} && TokenParas("[0061]") == {61}
  {
    Labels58To61();
    SingleLabelParas(60);
    SingleLabelParas(61);
  }

  /** A printed range label, as a token, adds the paragraphs it names. */
  lemma PairLabelParas(a: nat, b: nat)
    ensures TokenParas(ParaLabel(a) + "-" + ParaLabel(b)) == Between(a, b)
  {
    ParaLabelParses(a, b);
    var t := ParaLabel(a) + "-" + ParaLabel(b);
    assert t[0] == '[' && t[|t| - 1] == ']';
    TrimNoSpace(t);
  }

  /** A printed one-paragraph label, as a token, adds that paragraph. */
  lemma SingleLabelParas(a: nat)
    ensures TokenParas(ParaLabel(a)) == {a}
  {
    ParaLabelParses(a, a);
    var t := ParaLabel(a);
    assert t[0] == '[' && t[|t| - 1] == ']';
    TrimNoSpace(t);
    assert Between(a, a) == {a};
  }

  /** `[d1]-[d2]` with both digit runs padded, as a token, adds the
      paragraphs between their values. */
  lemma PaddedPairParas(d1: string, d2: string)
    requires |d1| > 0 && AllDigits(d1) && |d2| > 0 && AllDigits(d2)
    ensures TokenParas(BracketText(Padded(d1)) + "-" + BracketText(Padded(d2))) == Between(ParseInt(d1), ParseInt(d2))
    ensures TokenFigs(BracketText(Padded(d1)) + "-" + BracketText(Padded(d2))) == {}
  {
    PaddedValue(d1);
    PaddedValue(d2);
    ParseIntDigits(d1);
    ParseIntDigits(d2);
    PairBracketForm(Padded(d1), Padded(d2));
    var tok := BracketText(Padded(d1)) + "-" + BracketText(Padded(d2));
    assert tok[0] == '[' && tok[|tok| - 1] == ']';
    TrimNoSpace(tok);
  }

  /** `[d]` with the digit run padded, as a token, adds the paragraph of its
      value. */
  lemma PaddedSingleParas(d: string)
    requires |d| > 0 && AllDigits(d)
    ensures TokenParas(BracketText(Padded(d))) == {ParseInt(d)}
    ensures TokenFigs(BracketText(Padded(d))) == {}
  {
    PaddedValue(d);
    ParseIntDigits(d);
    SingleBracketForm(Padded(d));
    var tok := BracketText(Padded(d));
    assert tok[0] == '[' && tok[|tok| - 1] == ']';
    TrimNoSpace(tok);
    var v := ParseInt(d);
    assert Between(v, v) == {v};
  }

  /** Step of `OverlappingTokensAbsorbed` and `LegacyDescExample`: the padded labels used. */
  lemma Labels58To61()
    ensures ParaLabel(58) == "[0058]" && ParaLabel(60) == "[0060]" && ParaLabel(61) == "[0061]"
    ensures ParaLabel(58) + "-" + ParaLabel(61) == "[0058]-[0061]"
    ensures ParaLabel(61) + "-" + ParaLabel(58) == "[0061]-[0058]"
  {
    ParaLabelTwoDigits(58);
    ParaLabelTwoDigits(60);
    ParaLabelTwoDigits(61);
  }

  // ---------------------------------------------------------------
  // Rendering
  // ---------------------------------------------------------------

  /** `"[" + pad4(n) + "]"`. */
  function ParaLabel(n: nat): string {
    "[" + Padded(NatToString(n)) + "]"
  }

  /** A legacy run: `[first]` for one paragraph, `[first]-[last]` for more,
      in the order the run was walked. */
  function RenderRun(r: Run): string {
    if r.first == r.last then ParaLabel(r.first) else ParaLabel(r.first) + "-" + ParaLabel(r.last)
  }

  /** A group: `[lo]` for one paragraph, `[hi]-[lo]` under a descending range
      direction, `[lo]-[hi]` otherwise. */
  function RenderGroup(g: Run, rangeDesc: bool): string {
    if g.first == g.last then ParaLabel(g.first)
    else if rangeDesc then ParaLabel(g.last) + "-" + ParaLabel(g.first)
    else ParaLabel(g.first) + "-" + ParaLabel(g.last)
  }

  function RenderRuns(rs: seq<Run>): (r: seq<string>)
    ensures |r| == |rs|
  {
    seq(|rs|, i requires 0 <= i < |rs| => RenderRun(rs[i]))
  }

  function RenderGroups(gs: seq<Run>, rangeDesc: bool): (r: seq<string>)
    ensures |r| == |gs|
  {
    seq(|gs|, i requires 0 <= i < |gs| => RenderGroup(gs[i], rangeDesc))
  }

  function FigPart(fig: string): string { "FIG:[" + fig + "]" }

  function FigParts(labels: seq<string>): (r: seq<string>)
    ensures |r| == |labels|
  {
    seq(|labels|, i requires 0 <= i < |labels| => FigPart(labels[i]))
  }

  /** The paragraph parts on one line, then the figure parts on a second
      line when multiline output is asked for and both are present;
      otherwise all parts space-joined on one line. */
  function Assemble(parts: seq<string>, figParts: seq<string>, multiline: bool): string {
    if multiline && |parts| > 0 && |figParts| > 0 then Join(parts, " ") + "\n" + Join(figParts, " ")
    else Join(parts + figParts, " ")
  }

  /** The paragraph numbers in the legacy walk order. */
  function LegacyNumbers(paras: set<nat>, desc: bool): seq<nat> {
    if desc then Reverse(SortedElems(paras)) else SortedElems(paras)
  }

  /** The figure labels in lexical order, reversed when `desc`. */
  function FigureOrder(figs: set<string>, desc: bool): seq<string> {
    if desc then Reverse(SortedStrings(figs)) else SortedStrings(figs)
  }

  function LegacyParts(paras: set<nat>, desc: bool): seq<string> {
    RenderRuns(RunsOf(LegacyNumbers(paras, desc), desc))
  }

  /** The groups of the grouped formatter, in display order. */
  function Groups(paras: set<nat>, groupDesc: bool): seq<Run> {
    if groupDesc then Reverse(RunsOf(SortedElems(paras), false)) else RunsOf(SortedElems(paras), false)
  }

  function GroupedParts(paras: set<nat>, groupDesc: bool, rangeDesc: bool): seq<string> {
    RenderGroups(Groups(paras, groupDesc), rangeDesc)
  }

  /** The text the legacy formatter returns. */
  function LegacyText(paras: set<nat>, figs: set<string>, desc: bool, multiline: bool): string {
    Assemble(LegacyParts(paras, desc), FigParts(FigureOrder(figs, desc)), multiline)
  }

  /** The text the grouped formatter returns. */
  function GroupedText(paras: set<nat>, figs: set<string>, groupDesc: bool, rangeDesc: bool, multiline: bool): string {
    Assemble(GroupedParts(paras, groupDesc, rangeDesc), FigParts(FigureOrder(figs, groupDesc)), multiline)
  }

  // ---------------------------------------------------------------
  // Options
  // ---------------------------------------------------------------

  /** The options object of `format`: `desc` may be absent (as opposed to
      false), the two grouping options may be absent. */
  datatype FormatOptions = FormatOptions(desc: Option<bool>, multiline: bool,
                                         groupOrder: Option<string>, rangeDirection: Option<string>)

  /** A string option counts as given when present and non-empty. */
  predicate Supplied(o: Option<string>) { o.Some? && o.value != "" }

  /** An absent option falls back to `"asc"`, so only `"desc"` reverses. */
  predicate IsDesc(o: Option<string>) { o == Some("desc") }

  /** The option string used in place of `o` (`"asc"` when not supplied) is
      `"desc"` exactly when `o` is. */
  lemma DescOption(o: Option<string>, used: string)
    requires used == if Supplied(o) then o.value else "asc"
    ensures used == "desc" <==> IsDesc(o)
  {
    if !Supplied(o) {
      assert "asc"[0] != "desc"[0];
    }
  }

  predicate UsesGrouped(opts: FormatOptions) {
    Supplied(opts.groupOrder) || Supplied(opts.rangeDirection)
  }

  function LegacyDesc(opts: FormatOptions): bool {
    opts.desc == Some(true)
  }

  /** The text `format` returns. */
  function FormatOf(paras: set<nat>, figs: set<string>, opts: FormatOptions): string {
    if UsesGrouped(opts) then GroupedText(paras, figs, IsDesc(opts.groupOrder), IsDesc(opts.rangeDirection), opts.multiline)
    else LegacyText(paras, figs, LegacyDesc(opts), opts.multiline)
  }

  // ---------------------------------------------------------------
  // The accumulator
  // ---------------------------------------------------------------

  class ParagraphRefSet {
    var paras: set<nat>
    var figs: set<string>

    /** Every stored figure label is one a figure token can carry. */
    ghost predicate Valid()
      reads this
    {
      forall l :: l in figs ==> |l| > 0 && NoLineTerminator(l)
    }

    constructor ()
      ensures paras == {} && figs == {}
      ensures Valid()
    {
      paras := {};
      figs := {};
    }

    /** `addToken`. */
    method AddToken(tok: string)
      requires Valid()
      modifies this
      ensures Valid()
      ensures paras == old(paras) + TokenParas(tok)
      ensures figs == old(figs) + TokenFigs(tok)
    {
      var t := Trim(tok);
      if t == "" {
        return;
      }
      var tk := ParseRefToken(t);
      if tk.FigToken? {
        FigTokenShape(t);
        figs := figs + {tk.name};
        return;
      }
      if tk.Junk? {
        return;
      }
      var a, b := tk.a, tk.b;
      if b < a {
        a, b := b, a;
      }
      AddParas(a, b);
    }

    /** The inner loop of `addToken`: adds `a`, ..., `b` one by one. */
    method AddParas(a: nat, b: nat)
      requires a <= b
      modifies this
      ensures paras == old(paras) + Between(a, b)
      ensures figs == old(figs)
    {
      var n := a;
      while n <= b
        invariant a <= n <= b + 1
        invariant paras == old(paras) + NatsFrom(a, n)
        invariant figs == old(figs)
      {
        paras := paras + {n};
        n := n + 1;
      }
      assert NatsFrom(a, n) == Between(a, b);
    }

    /** `format`: the grouped formatter when a grouping option is given, the
        legacy one otherwise. */
    method Format(opts: FormatOptions) returns (r: string)
      ensures r == FormatOf(paras, figs, opts)
    {
      if Supplied(opts.groupOrder) || Supplied(opts.rangeDirection) {
        r := FormatGrouped(opts);
        return;
      }
      var desc := opts.desc == Some(true);
      r := FormatLegacy(desc, opts.multiline);
    }

    /** The legacy formatter: `desc` chooses both the walk direction and the
        figure order. */
    method FormatLegacy(desc: bool, multiline: bool) returns (r: string)
      ensures r == LegacyText(paras, figs, desc, multiline)
    {
      var nums := SortedElems(paras);
      if desc {
        nums := Reverse(nums);
      }
      var parts: seq<string> := [];
      if |nums| > 0 {
        parts := RunLabels(nums, desc);
      }
      var figKeys := SortedStrings(figs);
      if desc {
        figKeys := Reverse(figKeys);
      }
      var figParts := FigureParts(figKeys);
      if multiline && |parts| > 0 && |figParts| > 0 {
        r := Join(parts, " ") + "\n" + Join(figParts, " ");
      } else {
        r := Join(parts + figParts, " ");
      }
    }

    /** `_formatGrouped`. */
    method FormatGrouped(opts: FormatOptions) returns (r: string)
      ensures r == GroupedText(paras, figs, IsDesc(opts.groupOrder), IsDesc(opts.rangeDirection), opts.multiline)
    {
      var groupOrder := if Supplied(opts.groupOrder) then opts.groupOrder.value else "asc";
      var rangeDir := if Supplied(opts.rangeDirection) then opts.rangeDirection.value else "asc";
      DescOption(opts.groupOrder, groupOrder);
      DescOption(opts.rangeDirection, rangeDir);
      var nums := SortedElems(paras);
      var groups: seq<Run> := [];
      if |nums| > 0 {
        groups := GroupRuns(nums);
      }
      if groupOrder == "desc" {
        groups := Reverse(groups);
      }
      var parts := GroupLabels(groups, rangeDir == "desc");
      var figKeys := SortedStrings(figs);
      if groupOrder == "desc" {
        figKeys := Reverse(figKeys);
      }
      var figParts := FigureParts(figKeys);
      if opts.multiline && |parts| > 0 && |figParts| > 0 {
        r := Join(parts, " ") + "\n" + Join(figParts, " ");
      } else {
        r := Join(parts + figParts, " ");
      }
      assert r == Assemble(parts, figParts, opts.multiline);
      assert parts == GroupedParts(paras, IsDesc(opts.groupOrder), IsDesc(opts.rangeDirection));
      assert figParts == FigParts(FigureOrder(figs, IsDesc(opts.groupOrder)));
    }
  }

  /** The `rs`/`rp` loop of the legacy formatter. */
  method RunLabels(nums: seq<nat>, desc: bool) returns (parts: seq<string>)
    requires |nums| > 0
    ensures parts == RenderRuns(RunsOf(nums, desc))
  {
    parts := [];
    var rs, rp := nums[0], nums[0];
    ghost var done: seq<Run> := [];
    assert nums[..1] == [nums[0]];
    for j := 1 to |nums|
      invariant RunsOf(nums[..j], desc) == done + [Run(rs, rp)]
      invariant parts == RenderRuns(done)
    {
      parts, done, rs, rp := RunStep(nums, desc, j, parts, done, rs, rp);
    }
    RunClosed(parts, done, Run(rs, rp));
    parts := parts + [if rs == rp then ParaLabel(rs) else ParaLabel(rs) + "-" + ParaLabel(rp)];
    assert nums[..|nums|] == nums;
  }

  /** One pass of the legacy loop: `nums[j]` either continues the current run
      in the walk direction or closes it, emitting its label. */
  method RunStep(nums: seq<nat>, desc: bool, j: nat, parts: seq<string>, ghost done: seq<Run>, rs: nat, rp: nat)
    returns (parts': seq<string>, ghost done': seq<Run>, rs': nat, rp': nat)
    requires 0 < j < |nums|
    requires RunsOf(nums[..j], desc) == done + [Run(rs, rp)] && parts == RenderRuns(done)
    ensures RunsOf(nums[..j + 1], desc) == done' + [Run(rs', rp')] && parts' == RenderRuns(done')
  {
    var diff: int := if desc then rp as int - nums[j] as int else nums[j] as int - rp as int;
    if diff == 1 {
      RunsContinue(nums, j, desc, done, rs, rp);
      return parts, done, rs, nums[j];
    }
    RunsBreak(nums, j, desc, done + [Run(rs, rp)]);
    RunClosed(parts, done, Run(rs, rp));
    parts' := parts + [if rs == rp then ParaLabel(rs) else ParaLabel(rs) + "-" + ParaLabel(rp)];
    done' := done + [Run(rs, rp)];
    rs', rp' := nums[j], nums[j];
  }

  lemma RenderRunsSnoc(rs: seq<Run>, r: Run)
    ensures RenderRuns(rs + [r]) == RenderRuns(rs) + [RenderRun(r)]
  {
  }

  /** Closing a run appends its label to the labels of the runs before it. */
  lemma RunClosed(parts: seq<string>, done: seq<Run>, r: Run)
    requires parts == RenderRuns(done)
    ensures parts + [if r.first == r.last then ParaLabel(r.first) else ParaLabel(r.first) + "-" + ParaLabel(r.last)] == RenderRuns(done + [r])
  {
    RenderRunsSnoc(done, r);
  }

  /** The `gs`/`ge` loop of the grouped formatter. */
  method GroupRuns(nums: seq<nat>) returns (groups: seq<Run>)
    requires |nums| > 0
    ensures groups == RunsOf(nums, false)
  {
    groups := [];
    var gs, ge := nums[0], nums[0];
    assert nums[..1] == [nums[0]];
    for j := 1 to |nums|
      invariant RunsOf(nums[..j], false) == groups + [Run(gs, ge)]
    {
      if nums[j] as int - ge as int == 1 {
        RunsContinue(nums, j, false, groups, gs, ge);
        ge := nums[j];
      } else {
        RunsBreak(nums, j, false, groups + [Run(gs, ge)]);
        groups := groups + [Run(gs, ge)];
        gs, ge := nums[j], nums[j];
      }
    }
    groups := groups + [Run(gs, ge)];
    assert nums[..|nums|] == nums;
  }

  /** The loop of the grouped formatter that labels each group. */
  method GroupLabels(groups: seq<Run>, rangeDesc: bool) returns (parts: seq<string>)
    ensures parts == RenderGroups(groups, rangeDesc)
  {
    parts := [];
    for g := 0 to |groups|
      invariant parts == RenderGroups(groups[..g], rangeDesc)
    {
      var lo, hi := groups[g].first, groups[g].last;
      var part: string;
      if lo == hi {
        part := ParaLabel(lo);
      } else if rangeDesc {
        part := ParaLabel(hi) + "-" + ParaLabel(lo);
      } else {
        part := ParaLabel(lo) + "-" + ParaLabel(hi);
      }
      GroupClosed(parts, groups, g, rangeDesc);
      parts := parts + [part];
    }
    assert groups[..|groups|] == groups;
  }

  /** Labelling group `g` extends the labels of the groups before it. */
  lemma GroupClosed(parts: seq<string>, groups: seq<Run>, g: nat, rangeDesc: bool)
    requires g < |groups| && parts == RenderGroups(groups[..g], rangeDesc)
    ensures parts + [RenderGroup(groups[g], rangeDesc)] == RenderGroups(groups[..g + 1], rangeDesc)
  {
    var r := RenderGroups(groups[..g + 1], rangeDesc);
    forall k | 0 <= k < g ensures r[k] == parts[k] {
      RenderGroupAt(groups[..g + 1], rangeDesc, k);
      RenderGroupAt(groups[..g], rangeDesc, k);
      assert groups[..g + 1][k] == groups[..g][k];
    }
    RenderGroupAt(groups[..g + 1], rangeDesc, g);
    SnocAt(parts, r, RenderGroup(groups[g], rangeDesc));
  }

  /** The `figParts` loop. */
  method FigureParts(figKeys: seq<string>) returns (figParts: seq<string>)
    ensures figParts == FigParts(figKeys)
  {
    figParts := [];
    for k := 0 to |figKeys|
      invariant figParts == FigParts(figKeys[..k])
    {
      figParts := figParts + ["FIG:[" + figKeys[k] + "]"];
    }
    assert figKeys[..|figKeys|] == figKeys;
  }

  /** `compactParaTokens`' set-building step: a fresh set fed every token. */
  method CollectTokens(tokens: seq<string>) returns (refs: ParagraphRefSet)
    ensures fresh(refs) && refs.Valid()
    ensures refs.paras == AllTokenParas(tokens) && refs.figs == AllTokenFigs(tokens)
  {
    refs := new ParagraphRefSet();
    for i := 0 to |tokens|
      invariant refs.Valid()
      invariant refs.paras == AllTokenParas(tokens[..i]) && refs.figs == AllTokenFigs(tokens[..i])
    {
      assert tokens[..i + 1][..i] == tokens[..i];
      refs.AddToken(tokens[i]);
    }
    assert tokens[..|tokens|] == tokens;
  }

  function AllTokenParas(tokens: seq<string>): set<nat> {
    if |tokens| == 0 then {} else AllTokenParas(tokens[..|tokens| - 1]) + TokenParas(tokens[|tokens| - 1])
  }

  function AllTokenFigs(tokens: seq<string>): set<string> {
    if |tokens| == 0 then {} else AllTokenFigs(tokens[..|tokens| - 1]) + TokenFigs(tokens[|tokens| - 1])
  }

  // ---------------------------------------------------------------
  // Properties of the formatters
  // ---------------------------------------------------------------

  /** The legacy formatter with `desc` is the grouped formatter with both
      group order and range direction set to the same direction. */
  lemma LegacyIsGrouped(paras: set<nat>, desc: bool)
    ensures LegacyParts(paras, desc) == GroupedParts(paras, desc, desc)
  {
    var xs := SortedElems(paras);
    var rs := RunsOf(xs, false);
    if desc {
      DescendingRunsMirror(xs);
      MirrorRendersReversed(rs);
    } else {
      assert RenderRuns(rs) == RenderGroups(rs, false);
    }
  }

  /** Walking a mirrored list of runs prints each reversed group as a
      descending range. */
  lemma MirrorRendersReversed(rs: seq<Run>)
    ensures RenderRuns(Mirror(rs)) == RenderGroups(Reverse(rs), true)
  {
    var m := Mirror(rs);
    var g := Reverse(rs);
    forall i | 0 <= i < |m| ensures RenderRuns(m)[i] == RenderGroups(g, true)[i] {
      assert m[i] == Flip(rs[|rs| - 1 - i]);
      assert g[i] == rs[|rs| - 1 - i];
    }
  }

  /** Hence `format` without grouping options gives the same text as with
      `groupOrder` and `rangeDirection` both set to the `desc` flag's
      direction. */
  lemma LegacyModeIsGroupedMode(paras: set<nat>, figs: set<string>, opts: FormatOptions)
    requires !UsesGrouped(opts)
    ensures var d := if LegacyDesc(opts) then "desc" else "asc";
            FormatOf(paras, figs, opts) == FormatOf(paras, figs, opts.(groupOrder := Some(d), rangeDirection := Some(d)))
  {
    LegacyIsGrouped(paras, LegacyDesc(opts));
  }

  /** In grouped mode an absent option behaves as `"asc"`. */
  lemma GroupedDefaultsToAsc(paras: set<nat>, figs: set<string>, opts: FormatOptions)
    requires UsesGrouped(opts)
    ensures !Supplied(opts.groupOrder) ==>
              FormatOf(paras, figs, opts) == FormatOf(paras, figs, opts.(groupOrder := Some("asc")))
    ensures !Supplied(opts.rangeDirection) ==>
              FormatOf(paras, figs, opts) == FormatOf(paras, figs, opts.(rangeDirection := Some("asc")))
  {
  }

  /** The groups are the maximal runs of consecutive paragraph numbers: they
      partition the set, are ascending, and no two of them are adjacent. */
  lemma GroupsPartition(paras: set<nat>, v: nat)
    ensures SeparatedRuns(RunsOf(SortedElems(paras), false))
    ensures v in paras <==> InSomeRun(RunsOf(SortedElems(paras), false), v)
  {
    var xs := SortedElems(paras);
    AscendingRunsAreMaximal(xs);
    RunsPartition(xs, v);
  }

  /** Under `groupOrder=desc` the groups appear highest first. */
  lemma DescendingGroupOrder(paras: set<nat>, i: nat, j: nat)
    requires 0 <= i < j < |Groups(paras, true)|
    ensures Groups(paras, true)[j].last + 1 < Groups(paras, true)[i].first
  {
    var xs := SortedElems(paras);
    AscendingRunsAreMaximal(xs);
    ReversedRunsDescend(RunsOf(xs, false), i, j);
  }

  lemma ReversedRunsDescend(gs: seq<Run>, i: nat, j: nat)
    requires SeparatedRuns(gs)
    requires 0 <= i < j < |gs|
    ensures Reverse(gs)[j].last + 1 < Reverse(gs)[i].first
  {
    SeparatedRunsDisjoint(gs, |gs| - 1 - j, |gs| - 1 - i);
  }

  lemma ParaLabelNoNewline(n: nat)
    ensures '\n' !in ParaLabel(n) && '\n' !in RenderRun(Run(n, n))
  {
    var p := Padded(NatToString(n));
    PaddedValue(NatToString(n));
    assert forall i :: 0 <= i < |p| ==> IsDigit(p[i]);
  }

  lemma PartsNoNewline(rs: seq<Run>, gs: seq<Run>, rangeDesc: bool, labels: seq<string>)
    requires forall l :: l in labels ==> NoLineTerminator(l)
    ensures forall k :: 0 <= k < |rs| ==> '\n' !in RenderRuns(rs)[k]
    ensures forall k :: 0 <= k < |gs| ==> '\n' !in RenderGroups(gs, rangeDesc)[k]
    ensures forall k :: 0 <= k < |labels| ==> '\n' !in FigParts(labels)[k]
  {
    forall k | 0 <= k < |rs| ensures '\n' !in RenderRuns(rs)[k] {
      ParaLabelNoNewline(rs[k].first);
      ParaLabelNoNewline(rs[k].last);
    }
    forall k | 0 <= k < |gs| ensures '\n' !in RenderGroups(gs, rangeDesc)[k] {
      ParaLabelNoNewline(gs[k].first);
      ParaLabelNoNewline(gs[k].last);
    }
    forall k | 0 <= k < |labels| ensures '\n' !in FigParts(labels)[k] {
      var l := labels[k];
      assert l in labels;
      assert forall i :: 0 <= i < |l| ==> l[i] != '\n';
    }
  }

  lemma {:induction false} JoinNoNewline(parts: seq<string>, sep: string)
    requires '\n' !in sep
    requires forall k :: 0 <= k < |parts| ==> '\n' !in parts[k]
    ensures '\n' !in Join(parts, sep)
    decreases |parts|
  {
    if |parts| > 1 {
      JoinNoNewline(parts[1..], sep);
    }
  }

  lemma AssembleNewline(parts: seq<string>, figParts: seq<string>, multiline: bool)
    requires forall k :: 0 <= k < |parts| ==> '\n' !in parts[k]
    requires forall k :: 0 <= k < |figParts| ==> '\n' !in figParts[k]
    ensures '\n' in Assemble(parts, figParts, multiline) <==> multiline && |parts| > 0 && |figParts| > 0
  {
    JoinNoNewline(parts, " ");
    JoinNoNewline(figParts, " ");
    var all := parts + figParts;
    forall k | 0 <= k < |all| ensures '\n' !in all[k] {
      if k >= |parts| { assert all[k] == figParts[k - |parts|]; }
    }
    JoinNoNewline(all, " ");
    if multiline && |parts| > 0 && |figParts| > 0 {
      var j := Join(parts, " ");
      assert Assemble(parts, figParts, multiline)[|j|] == '\n';
    }
  }

  /** `format` breaks the line exactly when multiline output is asked for and
      there are both paragraphs and figures. */
  lemma FormatNewline(paras: set<nat>, figs: set<string>, opts: FormatOptions)
    requires forall l :: l in figs ==> NoLineTerminator(l)
    ensures '\n' in FormatOf(paras, figs, opts) <==> opts.multiline && paras != {} && figs != {}
  {
    if UsesGrouped(opts) {
      GroupedNewline(paras, figs, IsDesc(opts.groupOrder), IsDesc(opts.rangeDirection), opts.multiline);
    } else {
      LegacyNewline(paras, figs, LegacyDesc(opts), opts.multiline);
    }
  }

  lemma GroupedNewline(paras: set<nat>, figs: set<string>, groupDesc: bool, rangeDesc: bool, multiline: bool)
    requires forall l :: l in figs ==> NoLineTerminator(l)
    ensures '\n' in GroupedText(paras, figs, groupDesc, rangeDesc, multiline) <==> multiline && paras != {} && figs != {}
  {
    var fs := FigureOrder(figs, groupDesc);
    assert forall l :: l in fs ==> l in figs;
    assert |fs| == |figs|;
    var xs := SortedElems(paras);
    assert |xs| == |paras|;
    var gs := Groups(paras, groupDesc);
    assert |gs| > 0 <==> |xs| > 0;
    PartsNoNewline([], gs, rangeDesc, fs);
    AssembleNewline(GroupedParts(paras, groupDesc, rangeDesc), FigParts(fs), multiline);
  }

  lemma LegacyNewline(paras: set<nat>, figs: set<string>, desc: bool, multiline: bool)
    requires forall l :: l in figs ==> NoLineTerminator(l)
    ensures '\n' in LegacyText(paras, figs, desc, multiline) <==> multiline && paras != {} && figs != {}
  {
    var fs := FigureOrder(figs, desc);
    assert forall l :: l in fs ==> l in figs;
    assert |fs| == |figs|;
    var xs := SortedElems(paras);
    assert |xs| == |paras|;
    var rs := RunsOf(LegacyNumbers(paras, desc), desc);
    assert |rs| > 0 <==> |xs| > 0;
    PartsNoNewline(rs, [], false, fs);
    AssembleNewline(LegacyParts(paras, desc), FigParts(fs), multiline);
  }

  /** An empty accumulator formats as the empty string. */
  lemma EmptyFormatsEmpty(opts: FormatOptions)
    ensures FormatOf({}, {}, opts) == ""
  {
    assert SortedElems({}) == [];
    assert SortedStrings({}) == [];
  }

  // ---------------------------------------------------------------
  // The repository's two formatter tests, and the steps that compute
  // them (the lemmas marked "Step of")
  // ---------------------------------------------------------------

  /** `[0058]-[0061]`, `[0060]`, `[0061]` printed with `desc` give
      `[0061]-[0058]`. */
  lemma LegacyDescExample(paras: set<nat>)
    requires paras == Between(58, 61)
    ensures LegacyText(paras, {}, true, false) == "[0061]-[0058]"
  {
    LegacyPartsExample(paras);
    var parts := LegacyParts(paras, true);
    NoFigures(true);
    assert LegacyText(paras, {}, true, false) == Join(parts + [], " ");
    assert parts + [] == parts;
    assert Join(parts, " ") == parts[0];
    Labels58To61();
  }

  /** Step of `LegacyDescExample`: the single descending part. */
  lemma LegacyPartsExample(paras: set<nat>)
    requires paras == Between(58, 61)
    ensures LegacyParts(paras, true) == [ParaLabel(61) + "-" + ParaLabel(58)]
  {
    SortedExample(paras);
    ReverseExample(SortedElems(paras));
    DescRunsExample();
    assert LegacyNumbers(paras, true) == [61, 60, 59, 58];
    var rs := RunsOf(LegacyNumbers(paras, true), true);
    assert rs == [Run(61, 58)];
    RenderOneRun(rs, 61, 58);
  }

  /** Step of `LegacyDescExample`: a single run of several paragraphs renders as one `[first]-[last]` part. */
  lemma RenderOneRun(rs: seq<Run>, first: nat, last: nat)
    requires rs == [Run(first, last)] && first != last
    ensures RenderRuns(rs) == [ParaLabel(first) + "-" + ParaLabel(last)]
  {
  }

  /** Step of `LegacyDescExample`: the paragraphs reversed. */
  lemma ReverseExample(xs: seq<nat>)
    requires xs == [58, 59, 60, 61]
    ensures Reverse(xs) == [61, 60, 59, 58]
  {
    var r := Reverse(xs);
    assert r[0] == 61 && r[1] == 60 && r[2] == 59 && r[3] == 58;
  }

  /** Step of both examples: without figures there are no figure parts. */
  lemma NoFigures(desc: bool)
    ensures FigParts(FigureOrder({}, desc)) == []
  {
    assert SortedStrings({}) == [];
  }

  /** Step of `LegacyDescExample`: the paragraphs in ascending order. */
  lemma SortedExample(paras: set<nat>)
    requires paras == Between(58, 61)
    ensures SortedElems(paras) == [58, 59, 60, 61]
  {
    var xs: seq<nat> := [58, 59, 60, 61];
    forall x ensures x in xs <==> x in paras {
      assert x in paras <==> 58 <= x <= 61;
    }
    StepwiseIncreasing(xs);
    IncreasingUnique(SortedElems(paras), xs);
  }

  /** Step of `LegacyDescExample`: the descending walk is one run. */
  lemma DescRunsExample()
    ensures RunsOf([61, 60, 59, 58], true) == [Run(61, 58)]
  {
    var ys: seq<nat> := [61, 60, 59, 58];
    assert ys[..1] == [61];
    RunsContinue(ys, 1, true, [], 61, 61);
    RunsContinue(ys, 2, true, [], 61, 60);
    RunsContinue(ys, 3, true, [], 61, 59);
    assert ys[..4] == ys;
  }

  /** `{11, 17..20, 23, 27}` in ascending group order with descending ranges
      gives `[0011] [0020]-[0017] [0023] [0027]`. */
  lemma GroupedExample(paras: set<nat>)
    requires paras == {11, 17, 18, 19, 20, 23, 27}
    ensures GroupedText(paras, {}, false, true, true) == "[0011] [0020]-[0017] [0023] [0027]"
  {
    GroupedSortExample(paras);
    AscRunsExample(SortedElems(paras));
    var gs := [Run(11, 11), Run(17, 20), Run(23, 23), Run(27, 27)];
    var parts := GroupedParts(paras, false, true);
    assert parts == RenderGroups(gs, true);
    NoFigures(false);
    assert GroupedText(paras, {}, false, true, true) == Join(parts + [], " ");
    assert parts + [] == parts;
    GroupLabelsExample();
  }

  /** Step of `GroupedExample`: the paragraphs in ascending order. */
  lemma GroupedSortExample(s: set<nat>)
    requires s == {11, 17, 18, 19, 20, 23, 27}
    ensures SortedElems(s) == [11, 17, 18, 19, 20, 23, 27]
  {
    var xs: seq<nat> := [11, 17, 18, 19, 20, 23, 27];
    assert forall x :: x in xs <==> x in s;
    StepwiseIncreasing(xs);
    IncreasingUnique(SortedElems(s), xs);
  }

  /** Step of `GroupedExample`: the four groups. */
  lemma AscRunsExample(xs: seq<nat>)
    requires xs == [11, 17, 18, 19, 20, 23, 27]
    ensures RunsOf(xs, false) == [Run(11, 11), Run(17, 20), Run(23, 23), Run(27, 27)]
  {
    assert xs[..1] == [11];
    RunsBreak(xs, 1, false, [Run(11, 11)]);
    RunsContinue(xs, 2, false, [Run(11, 11)], 17, 17);
    RunsContinue(xs, 3, false, [Run(11, 11)], 17, 18);
    RunsContinue(xs, 4, false, [Run(11, 11)], 17, 19);
    RunsBreak(xs, 5, false, [Run(11, 11), Run(17, 20)]);
    RunsBreak(xs, 6, false, [Run(11, 11), Run(17, 20), Run(23, 23)]);
    assert xs[..7] == xs;
  }

  /** Step of `GroupedExample`: the labels of the four groups. */
  lemma RenderGroupsExample()
    ensures RenderGroups([Run(11, 11), Run(17, 20), Run(23, 23), Run(27, 27)], true) == ["[0011]", "[0020]-[0017]", "[0023]", "[0027]"]
  {
    RenderFourGroups([Run(11, 11), Run(17, 20), Run(23, 23), Run(27, 27)], true);
    Labels11To27();
    RangeGroupExample();
  }

  /** Step of `GroupedExample`: four groups render one label each. */
  lemma RenderFourGroups(gs: seq<Run>, rangeDesc: bool)
    requires |gs| == 4
    ensures RenderGroups(gs, rangeDesc)
            == [RenderGroup(gs[0], rangeDesc), RenderGroup(gs[1], rangeDesc), RenderGroup(gs[2], rangeDesc), RenderGroup(gs[3], rangeDesc)]
  {
    var r := RenderGroups(gs, rangeDesc);
    var e := [RenderGroup(gs[0], rangeDesc), RenderGroup(gs[1], rangeDesc), RenderGroup(gs[2], rangeDesc), RenderGroup(gs[3], rangeDesc)];
    RenderGroupAt(gs, rangeDesc, 0);
    RenderGroupAt(gs, rangeDesc, 1);
    RenderGroupAt(gs, rangeDesc, 2);
    RenderGroupAt(gs, rangeDesc, 3);
    FourElements(r, e);
  }

  /** Step of `GroupedExample`: the label of group `k`. */
  lemma RenderGroupAt(gs: seq<Run>, rangeDesc: bool, k: nat)
    requires k < |gs|
    ensures RenderGroups(gs, rangeDesc)[k] == RenderGroup(gs[k], rangeDesc)
  {
  }

  /** Step of `GroupedExample`: the descending range label. */
  lemma RangeGroupExample()
    ensures RenderGroup(Run(17, 20), true) == "[0020]-[0017]"
  {
    Labels11To27();
  }

  /** Step of `GroupedExample`: the four labels joined. */
  lemma JoinExample()
    ensures Join(["[0011]", "[0020]-[0017]", "[0023]", "[0027]"], " ") == "[0011] [0020]-[0017] [0023] [0027]"
  {
    JoinFour("[0011]", "[0020]-[0017]", "[0023]", "[0027]", " ");
  }

  /** Step of `GroupedExample`: joining four parts. */
  lemma JoinFour(a: string, b: string, c: string, d: string, sep: string)
    ensures Join([a, b, c, d], sep) == a + sep + b + sep + c + sep + d
  {
    var p := [a, b, c, d];
    assert p[1..][1..][1..] == [d];
    assert p[1..][1..] == [c, d];
    assert Join([c, d], sep) == c + sep + d;
    assert p[1..] == [b, c, d];
    assert Join([b, c, d], sep) == b + sep + (c + sep + d);
  }

  /** Step of `GroupedExample`: the padded labels used. */
  lemma Labels11To27()
    ensures ParaLabel(11) == "[0011]" && ParaLabel(17) == "[0017]" && ParaLabel(20) == "[0020]"
    ensures ParaLabel(23) == "[0023]" && ParaLabel(27) == "[0027]"
  {
    ParaLabelTwoDigits(11);
    ParaLabelTwoDigits(17);
    ParaLabelTwoDigits(20);
    ParaLabelTwoDigits(23);
    ParaLabelTwoDigits(27);
  }

  /** Step of `GroupedExample`: the labels joined into the expected text. */
  lemma GroupLabelsExample()
    ensures Join(RenderGroups([Run(11, 11), Run(17, 20), Run(23, 23), Run(27, 27)], true), " ")
            == "[0011] [0020]-[0017] [0023] [0027]"
  {
    var gs := [Run(11, 11), Run(17, 20), Run(23, 23), Run(27, 27)];
    Labels11To27();
    RenderGroupsExample();
    JoinExample();
  }
}
