/** `RejectionAnalyzer`: classifies the reason blocks of a notice, fills in
    and cleans their statute articles, turns every per-claim item of a block
    into a row of the novelty / inventive-step table or of the table of the
    other reasons, and reconciles the claims those rows cover with the open
    claims. */
module Analyzer {
  import opened Text
  import opened Utils
  import opened Parser
  import ParagraphRefs

  // ---------------------------------------------------------------
  // isOtherReasonTitle
  // ---------------------------------------------------------------

  /** The title keywords of the reasons that are neither novelty nor
      inventive step: support, clarity, the description requirements,
      enablement and the extension of the claims. */
  const OtherReasonKeywords: seq<string> := ["サポート", "明確", "記載要件", "実施可能", "拡張"]

  /** Some keyword of `keys` occurs in `t`. */
  predicate MentionsAny(t: string, keys: seq<string>) {
    exists k :: 0 <= k < |keys| && Contains(t, keys[k])
  }

  /** `isOtherReasonTitle`. */
  function IsOtherReasonTitle(title: string): bool {
    var t := NormReasonTitleKey(title);
    Contains(t, "サポート") || Contains(t, "明確") || Contains(t, "記載要件")
    || Contains(t, "実施可能") || Contains(t, "拡張")
  }

  /** A title is an other-reason title exactly when its normalized key
      contains one of the other-reason keywords. */
  lemma OtherReasonTitleKeywords(title: string)
    ensures IsOtherReasonTitle(title) <==> MentionsAny(NormReasonTitleKey(title), OtherReasonKeywords)
  {
    assert OtherReasonKeywords[0] == "サポート" && OtherReasonKeywords[1] == "明確" && OtherReasonKeywords[2] == "記載要件";
    assert OtherReasonKeywords[3] == "実施可能" && OtherReasonKeywords[4] == "拡張";
  }

  /** A title read with ASCII hyphen in place of the long vowel mark still
      names the support requirement. */
  lemma OcrDashTitle(title: string)
    requires title == "サポ-ト要件"
    ensures IsOtherReasonTitle(title)
  {
    var key := NormReasonTitleKey(title);
    assert NormalizeText(title) == title;
    var d := DashToLongVowel(title);
    assert d == "サポート要件";
    assert RemoveSpaces(d) == [d[0]] + RemoveSpaces(d[1..]);
    assert RemoveSpaces(d[1..]) == [d[1]] + RemoveSpaces(d[2..]);
    assert RemoveSpaces(d[2..]) == [d[2]] + RemoveSpaces(d[3..]);
    assert RemoveSpaces(d[3..]) == [d[3]] + RemoveSpaces(d[4..]);
    assert HasAt(key, 0, "サポート");
    ContainsAt(key, "サポート", 0);
  }

  // ---------------------------------------------------------------
  // classifyBlock
  // ---------------------------------------------------------------

  /** The three kinds of reason. */
  datatype Kind = Novelty | Inventive | Other

  const NoveltyArticle := "特許法第29条第1項"
  const InventiveArticle := "特許法第29条第2項"

  /** The article of a block, `""` for no block. */
  function BlockArticle(block: Option<Block>): string {
    if block.Some? then block.value.article else ""
  }

  /** The normalized key of the effective title contains `word`. */
  predicate TitleSays(block: Option<Block>, word: string) {
    Contains(NormReasonTitleKey(GetEffectiveTitle(block)), word)
  }

  predicate OtherTitle(block: Option<Block>) {
    IsOtherReasonTitle(GetEffectiveTitle(block))
  }

  /** `classifyBlock`. */
  function ClassifyBlock(block: Option<Block>): Kind {
    var title := GetEffectiveTitle(block);
    if IsOtherReasonTitle(title) then Other
    else
      var key := NormReasonTitleKey(title);
      if Contains(key, "新規性") then Novelty
      else if Contains(key, "進歩性") then Inventive
      else
        var a := BlockArticle(block);
        if Contains(a, NoveltyArticle) then Novelty
        else if Contains(a, InventiveArticle) then Inventive
        else Other
  }

  /** The order of the checks: an other-reason title decides first,
      whatever the article; then the title's novelty or inventive-step
      keyword; only a title with neither lets the article's paragraph of
      Article 29 decide. A patentability kind is always backed by its
      keyword in the title or its paragraph in the article. */
  lemma ClassifyBlockOrder(block: Option<Block>)
    ensures OtherTitle(block) ==> ClassifyBlock(block) == Other
    ensures !OtherTitle(block) && TitleSays(block, "新規性") ==> ClassifyBlock(block) == Novelty
    ensures !OtherTitle(block) && !TitleSays(block, "新規性") && TitleSays(block, "進歩性") ==> ClassifyBlock(block) == Inventive
    ensures !OtherTitle(block) && !TitleSays(block, "新規性") && !TitleSays(block, "進歩性") ==>
      (ClassifyBlock(block) == Novelty <==> Contains(BlockArticle(block), NoveltyArticle))
      && (ClassifyBlock(block) == Inventive <==> !Contains(BlockArticle(block), NoveltyArticle) && Contains(BlockArticle(block), InventiveArticle))
    ensures ClassifyBlock(block) == Novelty ==> TitleSays(block, "新規性") || Contains(BlockArticle(block), NoveltyArticle)
    ensures ClassifyBlock(block) == Inventive ==> TitleSays(block, "進歩性") || Contains(BlockArticle(block), InventiveArticle)
  {
  }

  /** When the title decides, the article does not matter. */
  lemma TitleDecides(b: Block, article: string)
    requires OtherTitle(Some(b)) || TitleSays(Some(b), "新規性") || TitleSays(Some(b), "進歩性")
    ensures ClassifyBlock(Some(b.(article := article))) == ClassifyBlock(Some(b))
  {
    assert GetEffectiveTitle(Some(b.(article := article))) == GetEffectiveTitle(Some(b));
  }

  // ---------------------------------------------------------------
  // compactParaTokens, buildParaLabel
  // ---------------------------------------------------------------

  /** An options object with nothing set: `{}`. */
  const NoOptions := ParagraphRefs.FormatOptions(None, false, None, None)

  /** The options `buildParaLabel` uses when none are given: ascending
      groups, descending ranges, figures on a line of their own. */
  const LabelOptions := ParagraphRefs.FormatOptions(None, true, Some("asc"), Some("desc"))

  /** The options `compactParaTokens` hands to `format`: when neither a
      grouping option nor `desc` is given, ascending groups of descending
      ranges. */
  function CompactOptions(opts: ParagraphRefs.FormatOptions): ParagraphRefs.FormatOptions {
    if !ParagraphRefs.Supplied(opts.groupOrder) && !ParagraphRefs.Supplied(opts.rangeDirection) && opts.desc.None?
    then opts.(groupOrder := Some("asc"), rangeDirection := Some("desc"))
    else opts
  }

  /** The text `compactParaTokens` returns. */
  function CompactParaText(tokens: seq<string>, opts: Option<ParagraphRefs.FormatOptions>): string {
    if |tokens| == 0 then ""
    else
      var o := if opts.Some? then opts.value else NoOptions;
      ParagraphRefs.FormatOf(ParagraphRefs.AllTokenParas(tokens), ParagraphRefs.AllTokenFigs(tokens), CompactOptions(o))
  }

  /** `compactParaTokens`: every token goes into one accumulator, which is
      then formatted. */
  method CompactParaTokens(tokens: seq<string>, opts: Option<ParagraphRefs.FormatOptions>) returns (r: string)
    ensures r == CompactParaText(tokens, opts)
  {
    var o := if opts.Some? then opts.value else NoOptions;
    if |tokens| == 0 {
      return "";
    }
    var refs := ParagraphRefs.CollectTokens(tokens);
    if !ParagraphRefs.Supplied(o.groupOrder) && !ParagraphRefs.Supplied(o.rangeDirection) && o.desc.None? {
      o := o.(groupOrder := Some("asc"), rangeDirection := Some("desc"));
    }
    r := refs.Format(o);
  }

  /** Without options the tokens are printed by the grouped formatter,
      groups ascending and ranges descending, on a single line. */
  lemma CompactWithoutOptions(tokens: seq<string>)
    requires |tokens| > 0
    ensures CompactParaText(tokens, None)
         == ParagraphRefs.GroupedText(ParagraphRefs.AllTokenParas(tokens), ParagraphRefs.AllTokenFigs(tokens), false, true, false)
  {
    assert !ParagraphRefs.IsDesc(Some("asc"));
  }

  /** The union of `f(x)` over the elements `x` of `xs`. */
  function UnionOver<T, U>(f: T -> set<U>, xs: seq<T>): set<U> {
    if |xs| == 0 then {} else UnionOver(f, xs[..|xs| - 1]) + f(xs[|xs| - 1])
  }

  lemma {:induction false} UnionOverMembers<T, U>(f: T -> set<U>, xs: seq<T>, u: U)
    ensures u in UnionOver(f, xs) <==> exists i :: 0 <= i < |xs| && u in f(xs[i])
  {
    if |xs| > 0 {
      var pre := xs[..|xs| - 1];
      UnionOverMembers(f, pre, u);
      if u in UnionOver(f, pre) {
        var i :| 0 <= i < |pre| && u in f(pre[i]);
        assert xs[i] == pre[i];
      }
      if exists i :: 0 <= i < |xs| && u in f(xs[i]) {
        var i :| 0 <= i < |xs| && u in f(xs[i]);
        if i < |pre| {
          assert pre[i] == xs[i];
        }
      }
    }
  }

  /** The union depends only on which elements occur. */
  lemma UnionOverSameElements<T, U>(f: T -> set<U>, a: seq<T>, b: seq<T>)
    requires forall x :: x in a <==> x in b
    ensures UnionOver(f, a) == UnionOver(f, b)
  {
    forall u | u in UnionOver(f, a) ensures u in UnionOver(f, b) {
      UnionOverMembers(f, a, u);
      UnionOverMembers(f, b, u);
      var i :| 0 <= i < |a| && u in f(a[i]);
      assert a[i] in b;
      var j :| 0 <= j < |b| && b[j] == a[i];
    }
    forall u | u in UnionOver(f, b) ensures u in UnionOver(f, a) {
      UnionOverMembers(f, a, u);
      UnionOverMembers(f, b, u);
      var i :| 0 <= i < |b| && u in f(b[i]);
      assert b[i] in a;
      var j :| 0 <= j < |a| && a[j] == b[i];
    }
  }

  /** The accumulated paragraphs and figures are unions over the tokens. */
  lemma {:induction false} TokenSetsUnion(tokens: seq<string>)
    ensures ParagraphRefs.AllTokenParas(tokens) == UnionOver(ParagraphRefs.TokenParas, tokens)
    ensures ParagraphRefs.AllTokenFigs(tokens) == UnionOver(ParagraphRefs.TokenFigs, tokens)
  {
    if |tokens| > 0 {
      TokenSetsUnion(tokens[..|tokens| - 1]);
    }
  }

  /** The compacted text depends only on which tokens occur: not on their
      order and not on how often each is repeated. */
  lemma CompactTokenSetOnly(a: seq<string>, b: seq<string>, opts: Option<ParagraphRefs.FormatOptions>)
    requires forall x :: x in a <==> x in b
    ensures CompactParaText(a, opts) == CompactParaText(b, opts)
  {
    if |a| > 0 {
      assert a[0] in b;
    }
    if |b| > 0 {
      assert b[0] in a;
    }
    TokenSetsUnion(a);
    TokenSetsUnion(b);
    UnionOverSameElements(ParagraphRefs.TokenParas, a, b);
    UnionOverSameElements(ParagraphRefs.TokenFigs, a, b);
  }

  /** Tokens that cite nothing compact to the empty text. */
  lemma CompactNothing(tokens: seq<string>, opts: Option<ParagraphRefs.FormatOptions>)
    requires ParagraphRefs.AllTokenParas(tokens) == {} && ParagraphRefs.AllTokenFigs(tokens) == {}
    ensures CompactParaText(tokens, opts) == ""
  {
    if |tokens| > 0 {
      var o := if opts.Some? then opts.value else NoOptions;
      ParagraphRefs.EmptyFormatsEmpty(CompactOptions(o));
    }
  }

  /** The label `buildParaLabel` returns. */
  function ParaLabelOf(refNo: nat, tokens: seq<string>, opts: Option<ParagraphRefs.FormatOptions>): string {
    var compacted := CompactParaText(tokens, if opts.Some? then opts else Some(LabelOptions));
    if compacted == "" then ""
    else if refNo == 0 then compacted
    else NatToString(refNo) + ":" + compacted
  }

  /** `buildParaLabel`. */
  method BuildParaLabel(refNo: nat, tokens: seq<string>, opts: Option<ParagraphRefs.FormatOptions>) returns (r: string)
    ensures r == ParaLabelOf(refNo, tokens, opts)
  {
    var o := if opts.Some? then opts else Some(LabelOptions);
    var compacted := CompactParaTokens(tokens, o);
    if compacted == "" {
      return "";
    }
    if refNo == 0 {
      return compacted;
    }
    r := NatToString(refNo) + ":" + compacted;
  }

  /** `String(n)` followed by a colon reads back as `n`. */
  lemma NumberPrefix(n: nat, rest: string)
    requires |rest| > 0 && rest[0] == ':'
    ensures ParseInt(NatToString(n) + rest) == n
  {
    var d := NatToString(n);
    var s := d + rest;
    assert s[..|d|] == d;
    ParagraphRefs.DigitsEndAt(s, 0, d);
    NatToStringValue(n);
  }

  /** A paragraph label is empty exactly when the compacted text is; the
      label of reference 0 is the compacted text alone, and the label of
      any other reference starts with its number, which reads back, and ends
      with the compacted text. */
  lemma ParaLabelShape(refNo: nat, tokens: seq<string>, opts: Option<ParagraphRefs.FormatOptions>)
    ensures var compacted := CompactParaText(tokens, if opts.Some? then opts else Some(LabelOptions));
      var lbl := ParaLabelOf(refNo, tokens, opts);
      (lbl == "" <==> compacted == "")
      && (refNo == 0 ==> lbl == compacted)
      && (refNo != 0 && compacted != "" ==>
            ParseInt(lbl) == refNo && |compacted| < |lbl| && lbl[|lbl| - |compacted|..] == compacted)
  {
    var compacted := CompactParaText(tokens, if opts.Some? then opts else Some(LabelOptions));
    if refNo != 0 && compacted != "" {
      NumberPrefix(refNo, ":" + compacted);
      assert NatToString(refNo) + ":" + compacted == NatToString(refNo) + (":" + compacted);
    }
  }

  // ---------------------------------------------------------------
  // inferMaxClaim
  // ---------------------------------------------------------------

  /** The largest element of `xs`, 0 for none. */
  function MaxOf(xs: seq<nat>): (m: nat)
    ensures forall i :: 0 <= i < |xs| ==> xs[i] <= m
    ensures |xs| > 0 ==> m in xs
  {
    if |xs| == 0 then 0
    else
      var rest := MaxOf(xs[..|xs| - 1]);
      assert forall x :: x in xs[..|xs| - 1] ==> x in xs;
      if xs[|xs| - 1] > rest then xs[|xs| - 1] else rest
  }

  /** Sequences with the same elements have the same maximum. */
  lemma MaxOfSameElements(a: seq<nat>, b: seq<nat>)
    requires forall x :: x in a <==> x in b
    ensures MaxOf(a) == MaxOf(b)
  {
    if |a| > 0 {
      assert a[0] in b;
    }
    if |b| > 0 {
      assert b[0] in a;
    }
  }

  /** A list that may be absent (`null`), read as empty then. */
  function Listed(o: Option<seq<nat>>): seq<nat> {
    if o.Some? then o.value else []
  }

  /** `inferMaxClaim`: the largest claim number in either list, 0 when
      both are empty or absent. */
  method InferMaxClaim(allClaims: Option<seq<nat>>, openClaims: Option<seq<nat>>) returns (max: nat)
    ensures forall x :: x in Listed(allClaims) + Listed(openClaims) ==> x <= max
    ensures max == 0 || max in Listed(allClaims) + Listed(openClaims)
    ensures max == MaxOf(Listed(allClaims) + Listed(openClaims))
  {
    max := 0;
    if allClaims.Some? {
      max := RaiseMax(allClaims.value, max);
    }
    if openClaims.Some? {
      max := RaiseMax(openClaims.value, max);
    }
    var xs := Listed(allClaims) + Listed(openClaims);
    if |xs| > 0 {
      assert MaxOf(xs) in xs;
    }
  }

  /** One loop of `inferMaxClaim`: raises the running maximum to every
      element of `xs`. */
  method RaiseMax(xs: seq<nat>, max0: nat) returns (max: nat)
    ensures max0 <= max
    ensures forall i :: 0 <= i < |xs| ==> xs[i] <= max
    ensures max == max0 || max in xs
  {
    max := max0;
    for i := 0 to |xs|
      invariant max0 <= max
      invariant forall k :: 0 <= k < i ==> xs[k] <= max
      invariant max == max0 || max in xs[..i]
    {
      if xs[i] > max {
        max := xs[i];
      }
    }
  }

  // ---------------------------------------------------------------
  // analyze: article propagation
  // ---------------------------------------------------------------

  /** The normalized effective title of a block. */
  function TitleKey(b: Block): string {
    NormReasonTitleKey(GetEffectiveTitle(Some(b)))
  }

  /** The key of `articleByKey`: `String(no) + ":" + ` the normalized
      effective title. */
  function ArticleKey(b: Block): string {
    NatToString(b.no) + ":" + TitleKey(b)
  }

  /** `String(n) + ":" + k` determines both `n` and `k`. */
  lemma NumberKeyInjective(n: nat, k: string, n': nat, k': string)
    ensures NatToString(n) + ":" + k == NatToString(n') + ":" + k' <==> n == n' && k == k'
  {
    var s, s' := NatToString(n) + ":" + k, NatToString(n') + ":" + k';
    if s == s' {
      NumberPrefix(n, ":" + k);
      NumberPrefix(n', ":" + k');
      assert s == NatToString(n) + (":" + k);
      assert s' == NatToString(n') + (":" + k');
      assert n == n';
      assert s[|NatToString(n)| + 1..] == k;
      assert s'[|NatToString(n')| + 1..] == k';
    }
  }

  /** Two blocks share a key exactly when they share the reason number and
      the normalized title: the number never contains the colon. */
  lemma ArticleKeyInjective(a: Block, b: Block)
    ensures ArticleKey(a) == ArticleKey(b) <==> a.no == b.no && TitleKey(a) == TitleKey(b)
  {
    NumberKeyInjective(a.no, TitleKey(a), b.no, TitleKey(b));
  }

  /** A block that records its article: it has a number and an article. */
  predicate Records(b: Block) {
    b.no != 0 && b.article != ""
  }

  /** `articleByKey` after the first loop over `bs`, with `key` computing
      each block's key. */
  function ArticleTable(bs: seq<Block>, key: Block -> string): map<string, string> {
    if |bs| == 0 then map[]
    else
      var m := ArticleTable(bs[..|bs| - 1], key);
      var b := bs[|bs| - 1];
      if Records(b) then m[key(b) := b.article] else m
  }

  /** Block `i` is the last block of `bs` that records an article under
      `k`. */
  predicate LastRecorder(bs: seq<Block>, key: Block -> string, k: string, i: nat) {
    i < |bs| && Records(bs[i]) && key(bs[i]) == k
    && forall j :: i < j < |bs| ==> !(Records(bs[j]) && key(bs[j]) == k)
  }

  /** The table holds a key exactly when some block records an article
      under it, and then the article of the last such block. */
  lemma {:induction false} ArticleTableLastWins(bs: seq<Block>, key: Block -> string, k: string)
    ensures k in ArticleTable(bs, key) <==> exists i :: 0 <= i < |bs| && Records(bs[i]) && key(bs[i]) == k
    ensures k in ArticleTable(bs, key) ==> exists i: nat :: LastRecorder(bs, key, k, i) && ArticleTable(bs, key)[k] == bs[i].article
  {
    if |bs| > 0 {
      var pre := bs[..|bs| - 1];
      var b := bs[|bs| - 1];
      ArticleTableLastWins(pre, key, k);
      assert forall i :: 0 <= i < |pre| ==> pre[i] == bs[i];
      if Records(b) && key(b) == k {
        assert LastRecorder(bs, key, k, |bs| - 1);
      } else if k in ArticleTable(pre, key) {
        var i: nat :| LastRecorder(pre, key, k, i) && ArticleTable(pre, key)[k] == pre[i].article;
        assert LastRecorder(bs, key, k, i);
      }
    }
  }

  /** There is at most one last recorder. */
  lemma LastRecorderUnique(bs: seq<Block>, key: Block -> string, k: string, i: nat, j: nat)
    requires LastRecorder(bs, key, k, i) && LastRecorder(bs, key, k, j)
    ensures i == j
  {
  }

  /** One block after the second loop. */
  function Propagated(b: Block, table: map<string, string>, key: Block -> string): Block {
    if b.article == "" && b.no != 0 && key(b) in table && table[key(b)] != "" then b.(article := table[key(b)]) else b
  }

  /** The blocks after both propagation loops. */
  function PropagatedAll(bs: seq<Block>): (r: seq<Block>)
    ensures |r| == |bs|
  {
    var table := ArticleTable(bs, ArticleKey);
    seq(|bs|, i requires 0 <= i < |bs| => Propagated(bs[i], table, ArticleKey))
  }

  /** The propagation loops of `analyze`: `articleByKey` is filled from the
      blocks as they are, then every block without an article takes the one
      recorded under its key. */
  method PropagateArticles(blocks: array<Block>)
    modifies blocks
    ensures blocks[..] == PropagatedAll(old(blocks[..]))
  {
    ghost var bs := blocks[..];
    var table := RecordArticles(blocks);
    for j := 0 to blocks.Length
      invariant forall k :: 0 <= k < j ==> blocks[k] == Propagated(bs[k], table, ArticleKey)
      invariant forall k :: j <= k < blocks.Length ==> blocks[k] == bs[k]
    {
      var b := FillArticle(blocks[j], table);
      blocks[j] := b;
    }
  }

  /** The first propagation loop. */
  method RecordArticles(blocks: array<Block>) returns (table: map<string, string>)
    ensures table == ArticleTable(blocks[..], ArticleKey)
  {
    table := map[];
    for i := 0 to blocks.Length
      invariant table == ArticleTable(blocks[..i], ArticleKey)
    {
      assert blocks[..i + 1][..i] == blocks[..i];
      var k := ArticleKey(blocks[i]);
      if blocks[i].no != 0 && blocks[i].article != "" {
        table := table[k := blocks[i].article];
      }
    }
    assert blocks[..blocks.Length] == blocks[..];
  }

  /** The body of the second propagation loop. */
  method FillArticle(b: Block, table: map<string, string>) returns (b': Block)
    ensures b' == Propagated(b, table, ArticleKey)
  {
    var k := ArticleKey(b);
    b' := b;
    if b.article == "" && b.no != 0 && k in table && table[k] != "" {
      b' := b.(article := table[k]);
    }
  }

  /** Propagation with any key function changes the article of a block and
      nothing else, and only of a block with a number and no article. Such
      a block takes the article of the last block recording one under the
      same key, and keeps its empty article when there is none. */
  lemma PropagationBy(bs: seq<Block>, key: Block -> string, i: nat)
    requires i < |bs|
    ensures var r := Propagated(bs[i], ArticleTable(bs, key), key);
      r == bs[i].(article := r.article)
      && (bs[i].article != "" || bs[i].no == 0 ==> r == bs[i])
      && (bs[i].article == "" && bs[i].no != 0 ==>
            ((forall j :: 0 <= j < |bs| && Records(bs[j]) ==> key(bs[j]) != key(bs[i])) ==> r == bs[i])
            && forall j: nat :: LastRecorder(bs, key, key(bs[i]), j) ==> r.article == bs[j].article)
  {
    var k := key(bs[i]);
    ArticleTableLastWins(bs, key, k);
    forall j: nat | LastRecorder(bs, key, k, j) && k in ArticleTable(bs, key)
      ensures ArticleTable(bs, key)[k] == bs[j].article
    {
      var j': nat :| LastRecorder(bs, key, k, j') && ArticleTable(bs, key)[k] == bs[j'].article;
      LastRecorderUnique(bs, key, k, j, j');
    }
  }

  /** The propagation of `analyze`, where two blocks share a key exactly
      when they share number and normalized title (`ArticleKeyInjective`):
      only a block with a number and no article changes, and only in its
      article, which becomes that of the last block with an article under
      its key; with no such block it stays empty. */
  lemma PropagationEffect(bs: seq<Block>, i: nat)
    requires i < |bs|
    ensures var r := PropagatedAll(bs)[i];
      r == bs[i].(article := r.article)
      && (bs[i].article != "" || bs[i].no == 0 ==> r == bs[i])
      && (bs[i].article == "" && bs[i].no != 0 ==>
            ((forall j :: 0 <= j < |bs| && Records(bs[j]) ==> ArticleKey(bs[j]) != ArticleKey(bs[i])) ==> r == bs[i])
            && forall j: nat :: LastRecorder(bs, ArticleKey, ArticleKey(bs[i]), j) ==> r.article == bs[j].article)
  {
    PropagationBy(bs, ArticleKey, i);
  }

  // ---------------------------------------------------------------
  // analyze: sanitisation
  // ---------------------------------------------------------------

  const Article29 := "特許法第29条"

  /** An other-reason block that carries an Article 29 article. */
  predicate Misfiled(b: Block) {
    IsOtherReasonTitle(GetEffectiveTitle(Some(b))) && Contains(b.article, Article29)
  }

  function Sanitized(b: Block): Block {
    if Misfiled(b) then b.(article := "") else b
  }

  /** `f` applied to every block. */
  function MapBlocks(bs: seq<Block>, f: Block -> Block): (r: seq<Block>)
    ensures |r| == |bs|
    ensures forall i :: 0 <= i < |bs| ==> r[i] == f(bs[i])
  {
    seq(|bs|, i requires 0 <= i < |bs| => f(bs[i]))
  }

  /** A loop that replaces every block by `f` of it, in place. */
  method UpdateEach(blocks: array<Block>, f: Block -> Block)
    modifies blocks
    ensures blocks[..] == MapBlocks(old(blocks[..]), f)
  {
    ghost var bs := blocks[..];
    for s := 0 to blocks.Length
      invariant forall k :: 0 <= k < s ==> blocks[k] == f(bs[k])
      invariant forall k :: s <= k < blocks.Length ==> blocks[k] == bs[k]
    {
      blocks[s] := f(blocks[s]);
    }
  }

  /** The blocks after the sanitisation loop. */
  function SanitizedAll(bs: seq<Block>): (r: seq<Block>)
    ensures |r| == |bs|
  {
    MapBlocks(bs, Sanitized)
  }

  /** The sanitisation loop of `analyze`: each block's title is looked up
      and a misfiled block's article cleared. */
  method SanitizeArticles(blocks: array<Block>)
    modifies blocks
    ensures blocks[..] == SanitizedAll(old(blocks[..]))
  {
    UpdateEach(blocks, Sanitized);
  }

  /** Sanitisation clears the article of exactly the misfiled blocks and
      leaves every other block as it was; afterwards no block is misfiled,
      so a second pass changes nothing; and no block changes its kind. */
  lemma SanitizeEffect(bs: seq<Block>, i: nat)
    requires i < |bs|
    ensures var r := SanitizedAll(bs)[i];
      (Misfiled(bs[i]) ==> r == bs[i].(article := ""))
      && (!Misfiled(bs[i]) ==> r == bs[i])
      && !Misfiled(r)
      && ClassifyBlock(Some(r)) == ClassifyBlock(Some(bs[i]))
  {
    var r := SanitizedAll(bs)[i];
    assert GetEffectiveTitle(Some(r)) == GetEffectiveTitle(Some(bs[i]));
  }

  // ---------------------------------------------------------------
  // analyze: skipped summary blocks
  // ---------------------------------------------------------------

  /** `nonSummaryNos`: the reason numbers of the blocks that are not of the
      summary style. */
  function NonSummaryNos(bs: seq<Block>): set<nat> {
    if |bs| == 0 then {}
    else NonSummaryNos(bs[..|bs| - 1]) + (if bs[|bs| - 1].style != Summary then {bs[|bs| - 1].no} else {})
  }

  /** A summary block whose number some other block carries. */
  predicate Skipped(b: Block, nos: set<nat>) {
    b.style == Summary && b.no in nos
  }

  method NonSummaryNumbers(blocks: array<Block>) returns (nos: set<nat>)
    ensures nos == NonSummaryNos(blocks[..])
  {
    nos := {};
    for i := 0 to blocks.Length
      invariant nos == NonSummaryNos(blocks[..i])
    {
      assert blocks[..i + 1][..i] == blocks[..i];
      if blocks[i].style != Summary {
        nos := nos + {blocks[i].no};
      }
    }
    assert blocks[..blocks.Length] == blocks[..];
  }

  lemma {:induction false} NonSummaryNosMembers(bs: seq<Block>, n: nat)
    ensures n in NonSummaryNos(bs) <==> exists j :: 0 <= j < |bs| && bs[j].style != Summary && bs[j].no == n
  {
    if |bs| > 0 {
      var pre := bs[..|bs| - 1];
      NonSummaryNosMembers(pre, n);
      assert forall j :: 0 <= j < |pre| ==> pre[j] == bs[j];
    }
  }

  /** A summary block is skipped exactly when a block of another style has
      the same reason number; a block of another style is never skipped. */
  lemma SkippedIff(bs: seq<Block>, i: nat)
    requires i < |bs|
    ensures Skipped(bs[i], NonSummaryNos(bs))
        <==> bs[i].style == Summary && exists j :: 0 <= j < |bs| && bs[j].style != Summary && bs[j].no == bs[i].no
  {
    NonSummaryNosMembers(bs, bs[i].no);
  }

  // ---------------------------------------------------------------
  // analyze: rows
  // ---------------------------------------------------------------


  /** A mini-item together with the block it was read from. */
  datatype Entry = Entry(block: Block, item: MiniItem)

  /** The entries of one block, one per mini-item, in order. */
  function BlockEntries(b: Block): (r: seq<Entry>)
    ensures |r| == |MiniItemsOf(b.body)|
    ensures forall i :: 0 <= i < |r| ==> r[i] == Entry(b, MiniItemsOf(b.body)[i])
  {
    var items := MiniItemsOf(b.body);
    seq(|items|, i requires 0 <= i < |items| => Entry(b, items[i]))
  }

  /** The entries of the blocks that are not skipped, block by block, with
      `items` giving the entries of one block. */
  function EntriesWith(bs: seq<Block>, nos: set<nat>, items: Block -> seq<Entry>): seq<Entry> {
    if |bs| == 0 then []
    else EntriesWith(bs[..|bs| - 1], nos, items) + (if Skipped(bs[|bs| - 1], nos) then [] else items(bs[|bs| - 1]))
  }

  lemma {:induction false} EntriesWithMembers(bs: seq<Block>, nos: set<nat>, items: Block -> seq<Entry>, e: Entry)
    ensures e in EntriesWith(bs, nos, items) <==> exists i :: 0 <= i < |bs| && !Skipped(bs[i], nos) && e in items(bs[i])
  {
    if |bs| > 0 {
      var pre := bs[..|bs| - 1];
      EntriesWithMembers(pre, nos, items, e);
      assert forall i :: 0 <= i < |pre| ==> pre[i] == bs[i];
    }
  }

  /** The entries of the blocks that are not skipped. */
  function Entries(bs: seq<Block>, nos: set<nat>): seq<Entry> {
    EntriesWith(bs, nos, BlockEntries)
  }

  /** An entry comes from a block that is not skipped, and every mini-item
      of such a block is an entry. */
  lemma EntriesMembers(bs: seq<Block>, nos: set<nat>, e: Entry)
    ensures e in Entries(bs, nos) <==> exists i :: 0 <= i < |bs| && !Skipped(bs[i], nos) && e in BlockEntries(bs[i])
  {
    EntriesWithMembers(bs, nos, BlockEntries, e);
  }

  function EntryKind(e: Entry): Kind {
    ClassifyBlock(Some(e.block))
  }

  predicate IsPatentability(k: Kind) {
    k == Novelty || k == Inventive
  }

  /** A row of the novelty / inventive-step table. */
  datatype NoveltyRow = NoveltyRow(claims: string, reason: string, article: string, cited: string, paragraphs: string)

  /** A row of the table of other reasons. */
  datatype OtherRow = OtherRow(claims: string, title: string, article: string)

  function OrUnknown(s: string): string {
    if s == "" then "(unknown)" else s
  }

  /** The label of a cited reference: its number, then its name when the
      list of cited references has one. */
  function RefLabel(n: nat, refMap: map<nat, string>): string {
    if n in refMap && refMap[n] != "" then NatToString(n) + ":" + refMap[n] else NatToString(n)
  }

  /** A reference label reads back as its number. */
  lemma RefLabelNumber(n: nat, refMap: map<nat, string>)
    ensures ParseInt(RefLabel(n, refMap)) == n
  {
    if n in refMap && refMap[n] != "" {
      NumberPrefix(n, ":" + refMap[n]);
      assert NatToString(n) + ":" + refMap[n] == NatToString(n) + (":" + refMap[n]);
    } else {
      ParseIntDigits(NatToString(n));
      NatToStringValue(n);
    }
  }

  function RefLabels(refs: seq<nat>, refMap: map<nat, string>): (r: seq<string>)
    ensures |r| == |refs|
    ensures forall i :: 0 <= i < |refs| ==> r[i] == RefLabel(refs[i], refMap)
  {
    if |refs| == 0 then [] else RefLabels(refs[..|refs| - 1], refMap) + [RefLabel(refs[|refs| - 1], refMap)]
  }

  /** The tokens printed for reference `n`: its own, or those of key 0 when
      its own list is absent or empty (a present key-0 list is used even
      when it is itself empty). */
  function RefTokens(paraByRef: map<nat, seq<string>>, n: nat): (r: seq<string>)
    ensures n in paraByRef && |paraByRef[n]| > 0 ==> r == paraByRef[n]
    ensures (n !in paraByRef || |paraByRef[n]| == 0) && 0 in paraByRef ==> r == paraByRef[0]
    ensures (n !in paraByRef || |paraByRef[n]| == 0) && 0 !in paraByRef ==> r == []
  {
    var own := if n in paraByRef then paraByRef[n] else [];
    if |own| == 0 && 0 in paraByRef then paraByRef[0] else own
  }

  /** The paragraph labels of the listed references, skipping those with
      nothing to print. */
  function RefParaLabels(refs: seq<nat>, paraByRef: map<nat, seq<string>>): seq<string> {
    if |refs| == 0 then []
    else
      var n := refs[|refs| - 1];
      RefParaLabels(refs[..|refs| - 1], paraByRef)
      + (if |RefTokens(paraByRef, n)| > 0 then [ParaLabelOf(n, RefTokens(paraByRef, n), None)] else [])
  }

  /** At most one paragraph label per reference, and exactly one each when
      key 0 has tokens to fall back on. */
  lemma {:induction false} RefParaLabelsCount(refs: seq<nat>, paraByRef: map<nat, seq<string>>)
    ensures |RefParaLabels(refs, paraByRef)| <= |refs|
    ensures 0 in paraByRef && |paraByRef[0]| > 0 ==> |RefParaLabels(refs, paraByRef)| == |refs|
  {
    if |refs| > 0 {
      RefParaLabelsCount(refs[..|refs| - 1], paraByRef);
    }
  }

  /** The paragraph labels of an item: per listed reference; without listed
      references, the key-0 tokens unprefixed. */
  function ParaLabels(refs: seq<nat>, paraByRef: map<nat, seq<string>>): seq<string> {
    if |refs| > 0 then RefParaLabels(refs, paraByRef)
    else if 0 in paraByRef && |paraByRef[0]| > 0 then [ParaLabelOf(0, paraByRef[0], None)]
    else []
  }

  function NoveltyRowOf(e: Entry, refMap: map<nat, string>): NoveltyRow {
    var paraByRef := RefsByCitationOf(e.item.noteText);
    NoveltyRow(CompactOf(e.item.claims), if EntryKind(e) == Novelty then "新規性" else "進歩性",
               OrUnknown(e.block.article), Join(RefLabels(e.item.refs, refMap), "\n"),
               Join(ParaLabels(e.item.refs, paraByRef), "\n"))
  }

  function OtherRowOf(e: Entry): OtherRow {
    OtherRow(CompactOf(e.item.claims), OrUnknown(GetEffectiveTitle(Some(e.block))), OrUnknown(e.block.article))
  }

  /** The two tables and the claims seen so far (`assignedClaims` and
      `allClaimsSeen` receive the same claims, so one sequence stands for
      both). */
  datatype Tables = Tables(novelty: seq<NoveltyRow>, other: seq<OtherRow>, claims: seq<nat>)

  const NoTables := Tables([], [], [])

  predicate PatentabilityEntry(e: Entry) {
    IsPatentability(EntryKind(e))
  }

  /** One item: its claims are seen, and it yields a row in the table its
      block's kind selects. */
  function WithEntry(acc: Tables, e: Entry, refMap: map<nat, string>): Tables {
    var claims := acc.claims + e.item.claims;
    if PatentabilityEntry(e) then acc.(novelty := acc.novelty + [NoveltyRowOf(e, refMap)], claims := claims)
    else acc.(other := acc.other + [OtherRowOf(e)], claims := claims)
  }

  function RowStep(refMap: map<nat, string>): (Tables, Entry) -> Tables {
    (acc: Tables, e: Entry) => WithEntry(acc, e, refMap)
  }

  function NoveltyRowFn(refMap: map<nat, string>): Entry -> NoveltyRow {
    (e: Entry) => NoveltyRowOf(e, refMap)
  }

  /** `step` applied to the entries in order. */
  function FoldEntries<A>(acc: A, es: seq<Entry>, step: (A, Entry) -> A): A {
    if |es| == 0 then acc else step(FoldEntries(acc, es[..|es| - 1], step), es[|es| - 1])
  }

  /** Folding consecutive runs of entries is folding their concatenation. */
  lemma {:induction false} FoldAppend<A>(acc: A, a: seq<Entry>, b: seq<Entry>, step: (A, Entry) -> A)
    ensures FoldEntries(acc, a + b, step) == FoldEntries(FoldEntries(acc, a, step), b, step)
  {
    if |b| == 0 {
      assert a + b == a;
    } else {
      FoldAppend(acc, a, b[..|b| - 1], step);
      assert (a + b)[..|a + b| - 1] == a + b[..|b| - 1];
    }
  }

  lemma FoldPrefixStep<A>(acc: A, es: seq<Entry>, i: nat, step: (A, Entry) -> A)
    requires i < |es|
    ensures FoldEntries(acc, es[..i + 1], step) == step(FoldEntries(acc, es[..i], step), es[i])
  {
    assert es[..i + 1][..i] == es[..i];
  }

  /** The rows and claims of the entries, in order. */
  function RowsOf(es: seq<Entry>, refMap: map<nat, string>): Tables {
    FoldEntries(NoTables, es, RowStep(refMap))
  }

  /** The claims of all entries, in order (`allClaimsSeen` before `uniq`). */
  function ClaimsSeen(es: seq<Entry>): seq<nat> {
    if |es| == 0 then [] else ClaimsSeen(es[..|es| - 1]) + es[|es| - 1].item.claims
  }

  /** A claim is seen exactly when some entry lists it. */
  lemma {:induction false} ClaimsSeenMembers(es: seq<Entry>, c: nat)
    ensures c in ClaimsSeen(es) <==> exists k :: 0 <= k < |es| && c in es[k].item.claims
  {
    if |es| > 0 {
      var pre := es[..|es| - 1];
      ClaimsSeenMembers(pre, c);
      assert forall k :: 0 <= k < |pre| ==> pre[k] == es[k];
    }
  }

  /** `step` adds the entry's claims and one row: `rowN(e)` to the first
      table when `keep(e)`, `rowO(e)` to the second otherwise. */
  ghost predicate RoutesBy(step: (Tables, Entry) -> Tables, keep: Entry -> bool,
                     rowN: Entry -> NoveltyRow, rowO: Entry -> OtherRow) {
    forall acc: Tables, e: Entry ::
      step(acc, e)
      == if keep(e) then Tables(acc.novelty + [rowN(e)], acc.other, acc.claims + e.item.claims)
         else Tables(acc.novelty, acc.other + [rowO(e)], acc.claims + e.item.claims)
  }

  lemma {:induction false} FoldRouting(acc: Tables, es: seq<Entry>, step: (Tables, Entry) -> Tables,
                                       keep: Entry -> bool, rowN: Entry -> NoveltyRow, rowO: Entry -> OtherRow)
    requires RoutesBy(step, keep, rowN, rowO)
    ensures var t := FoldEntries(acc, es, step);
      |t.novelty| + |t.other| == |acc.novelty| + |acc.other| + |es|
      && t.claims == acc.claims + ClaimsSeen(es)
      && (forall k :: 0 <= k < |es| && keep(es[k]) ==> rowN(es[k]) in t.novelty)
      && (forall k :: 0 <= k < |es| && !keep(es[k]) ==> rowO(es[k]) in t.other)
      && (forall r :: r in t.novelty ==> r in acc.novelty || exists k :: 0 <= k < |es| && keep(es[k]) && r == rowN(es[k]))
      && (forall r :: r in t.other ==> r in acc.other || exists k :: 0 <= k < |es| && !keep(es[k]) && r == rowO(es[k]))
  {
    if |es| > 0 {
      var pre := es[..|es| - 1];
      FoldRouting(acc, pre, step, keep, rowN, rowO);
      assert forall k :: 0 <= k < |pre| ==> pre[k] == es[k];
    }
  }

  lemma RowStepRoutes(refMap: map<nat, string>)
    ensures RoutesBy(RowStep(refMap), PatentabilityEntry, NoveltyRowFn(refMap), OtherRowOf)
  {
  }

  /** Every entry yields exactly one row: a patentability entry its row in
      the novelty table, any other entry its row in the other table, and
      no row comes from anywhere else; the claims are those of the entries,
      in order. */
  lemma RowsOfProperties(es: seq<Entry>, refMap: map<nat, string>)
    ensures var t := RowsOf(es, refMap);
      |t.novelty| + |t.other| == |es|
      && t.claims == ClaimsSeen(es)
      && (forall k :: 0 <= k < |es| && PatentabilityEntry(es[k]) ==> NoveltyRowOf(es[k], refMap) in t.novelty)
      && (forall k :: 0 <= k < |es| && !PatentabilityEntry(es[k]) ==> OtherRowOf(es[k]) in t.other)
      && (forall r :: r in t.novelty ==> exists k :: 0 <= k < |es| && PatentabilityEntry(es[k]) && r == NoveltyRowOf(es[k], refMap))
      && (forall r :: r in t.other ==> exists k :: 0 <= k < |es| && !PatentabilityEntry(es[k]) && r == OtherRowOf(es[k]))
  {
    RowStepRoutes(refMap);
    FoldRouting(NoTables, es, RowStep(refMap), PatentabilityEntry, NoveltyRowFn(refMap), OtherRowOf);
  }

  /** The claims cell of a row, read back with `parseNumberRanges`, is the
      item's claims, each once, in increasing order. */
  lemma ClaimsCellRoundTrip(e: Entry, refMap: map<nat, string>)
    ensures NumberRangesOf(NoveltyRowOf(e, refMap).claims) == SortedUnique(e.item.claims)
    ensures NumberRangesOf(OtherRowOf(e).claims) == SortedUnique(e.item.claims)
  {
    CompactRoundTrip(e.item.claims);
  }

  /** The article cell is the block's article, or `(unknown)` when it has
      none; the reason cell of a patentability row names the block's kind;
      the title cell of another row is the effective title, or `(unknown)`. */
  lemma RowCells(e: Entry, refMap: map<nat, string>)
    ensures e.block.article != "" ==> NoveltyRowOf(e, refMap).article == e.block.article && OtherRowOf(e).article == e.block.article
    ensures e.block.article == "" ==> NoveltyRowOf(e, refMap).article == "(unknown)" && OtherRowOf(e).article == "(unknown)"
    ensures PatentabilityEntry(e) ==>
      (NoveltyRowOf(e, refMap).reason == "新規性" <==> EntryKind(e) == Novelty)
      && (NoveltyRowOf(e, refMap).reason == "進歩性" <==> EntryKind(e) == Inventive)
    ensures GetEffectiveTitle(Some(e.block)) != "" ==> OtherRowOf(e).title == GetEffectiveTitle(Some(e.block))
    ensures GetEffectiveTitle(Some(e.block)) == "" ==> OtherRowOf(e).title == "(unknown)"
  {
  }

  /** The rows of one item of a patentability block. */
  method NoveltyRowAt(e: Entry, kind: Kind, refMap: map<nat, string>) returns (row: NoveltyRow)
    requires kind == EntryKind(e)
    ensures row == NoveltyRowOf(e, refMap)
  {
    var paraByRef := ExtractParagraphRefsByCitation(e.item.noteText);
    var refs := e.item.refs;
    var refLabels: seq<string> := [];
    var paraLabels: seq<string> := [];
    if |refs| > 0 {
      refLabels, paraLabels := ReferenceLabels(refs, refMap, paraByRef);
    } else if 0 in paraByRef && |paraByRef[0]| > 0 {
      var lbl := BuildParaLabel(0, paraByRef[0], None);
      paraLabels := [lbl];
    }
    var claimsText := ClaimsToCompactRanges(e.item.claims);
    row := NoveltyRow(claimsText, if kind == Novelty then "新規性" else "進歩性", OrUnknown(e.block.article),
                      Join(refLabels, "\n"), Join(paraLabels, "\n"));
  }

  /** The loop over the listed references of an item. */
  method ReferenceLabels(refs: seq<nat>, refMap: map<nat, string>, paraByRef: map<nat, seq<string>>)
    returns (refLabels: seq<string>, paraLabels: seq<string>)
    ensures refLabels == RefLabels(refs, refMap)
    ensures paraLabels == RefParaLabels(refs, paraByRef)
  {
    refLabels, paraLabels := [], [];
    for r := 0 to |refs|
      invariant refLabels == RefLabels(refs[..r], refMap)
      invariant paraLabels == RefParaLabels(refs[..r], paraByRef)
    {
      assert refs[..r + 1][..r] == refs[..r];
      var lbl, p := ReferenceLabel(refs[r], refMap, paraByRef);
      refLabels := refLabels + [lbl];
      paraLabels := paraLabels + p;
    }
    assert refs[..|refs|] == refs;
  }

  /** One turn of that loop: the reference's label, and its paragraph label
      when it has tokens to print. */
  method ReferenceLabel(n: nat, refMap: map<nat, string>, paraByRef: map<nat, seq<string>>)
    returns (lbl: string, p: seq<string>)
    ensures lbl == RefLabel(n, refMap)
    ensures p == if |RefTokens(paraByRef, n)| > 0 then [ParaLabelOf(n, RefTokens(paraByRef, n), None)] else []
  {
    lbl := if n in refMap && refMap[n] != "" then NatToString(n) + ":" + refMap[n] else NatToString(n);
    var refsText := if n in paraByRef then paraByRef[n] else [];
    if |refsText| == 0 && 0 in paraByRef {
      refsText := paraByRef[0];
    }
    p := [];
    if |refsText| > 0 {
      var q := BuildParaLabel(n, refsText, None);
      p := [q];
    }
  }

  /** One item: its claims are seen, and it yields a row in the table its
      block's kind selects. */
  method ItemRow(e: Entry, kind: Kind, refMap: map<nat, string>, acc: Tables) returns (acc': Tables)
    requires kind == EntryKind(e)
    ensures acc' == RowStep(refMap)(acc, e)
  {
    var claims := acc.claims + e.item.claims;
    if kind == Novelty || kind == Inventive {
      var row := NoveltyRowAt(e, kind, refMap);
      acc' := acc.(novelty := acc.novelty + [row], claims := claims);
    } else {
      var claimsText := ClaimsToCompactRanges(e.item.claims);
      var row := OtherRow(claimsText, OrUnknown(GetEffectiveTitle(Some(e.block))), OrUnknown(e.block.article));
      acc' := acc.(other := acc.other + [row], claims := claims);
    }
  }

  /** The loop over the mini-items of a block that is not skipped. */
  method BlockRows(blk: Block, kind: Kind, minis: seq<MiniItem>, refMap: map<nat, string>, acc: Tables)
    returns (acc': Tables)
    requires kind == ClassifyBlock(Some(blk))
    requires minis == MiniItemsOf(blk.body)
    ensures acc' == FoldEntries(acc, BlockEntries(blk), RowStep(refMap))
  {
    ghost var es := BlockEntries(blk);
    acc' := acc;
    for mi := 0 to |minis|
      invariant acc' == FoldEntries(acc, es[..mi], RowStep(refMap))
    {
      var e := Entry(blk, minis[mi]);
      FoldPrefixStep(acc, es, mi, RowStep(refMap));
      acc' := ItemRow(e, kind, refMap, acc');
    }
    assert es[..|minis|] == es;
  }

  /** One step of the loop over the blocks: a skipped summary block adds
      nothing. */
  method BlockStep(bs: seq<Block>, nos: set<nat>, refMap: map<nat, string>, b: nat, acc: Tables)
    returns (acc': Tables)
    requires b < |bs|
    requires acc == RowsOf(Entries(bs[..b], nos), refMap)
    ensures acc' == RowsOf(Entries(bs[..b + 1], nos), refMap)
  {
    var blk := bs[b];
    EntriesStep(bs, nos, b);
    var kind := ClassifyBlock(Some(blk));
    if blk.style == Summary && blk.no in nos {
      return acc;
    }
    var minis := ExtractMiniItemsFromBlock(blk.body);
    acc' := BlockRows(blk, kind, minis, refMap, acc);
    FoldAppend(NoTables, Entries(bs[..b], nos), BlockEntries(blk), RowStep(refMap));
  }

  lemma EntriesStep(bs: seq<Block>, nos: set<nat>, b: nat)
    requires b < |bs|
    ensures Skipped(bs[b], nos) ==> Entries(bs[..b + 1], nos) == Entries(bs[..b], nos)
    ensures !Skipped(bs[b], nos) ==> Entries(bs[..b + 1], nos) == Entries(bs[..b], nos) + BlockEntries(bs[b])
  {
    assert bs[..b + 1][..b] == bs[..b];
    if Skipped(bs[b], nos) {
      assert Entries(bs[..b], nos) + [] == Entries(bs[..b], nos);
    }
  }

  /** The loop over the blocks of `analyze`. */
  method CollectRows(bs: seq<Block>, nos: set<nat>, refMap: map<nat, string>) returns (acc: Tables)
    ensures acc == RowsOf(Entries(bs, nos), refMap)
  {
    acc := NoTables;
    for b := 0 to |bs|
      invariant acc == RowsOf(Entries(bs[..b], nos), refMap)
    {
      acc := BlockStep(bs, nos, refMap, b, acc);
    }
    assert bs[..|bs|] == bs;
  }

  // ---------------------------------------------------------------
  // analyze: open claims
  // ---------------------------------------------------------------

  /** The numbers `1..maxC` not in `assignedNos`, in increasing order. */
  function Unassigned(assignedNos: seq<nat>, maxC: nat): seq<nat> {
    if maxC == 0 then []
    else Unassigned(assignedNos, maxC - 1) + (if maxC in assignedNos then [] else [maxC])
  }

  lemma {:induction false} UnassignedProperties(assignedNos: seq<nat>, maxC: nat)
    ensures forall c :: c in Unassigned(assignedNos, maxC) <==> 1 <= c <= maxC && c !in assignedNos
    ensures StrictlyIncreasing(Unassigned(assignedNos, maxC))
    ensures forall c :: c in Unassigned(assignedNos, maxC) ==> c <= maxC
  {
    if maxC > 0 {
      UnassignedProperties(assignedNos, maxC - 1);
      var pre := Unassigned(assignedNos, maxC - 1);
      if maxC !in assignedNos {
        var r := pre + [maxC];
        forall i, j | 0 <= i < j < |r|
          ensures r[i] < r[j]
        {
          if j == |r| - 1 {
            assert r[i] in pre;
          }
        }
      }
    }
  }

  /** `openClaims`: the explicit list when the notice has one, even an
      empty one; otherwise the claims up to the largest claim seen that no
      item covers. */
  function OpenClaimsChosen(explicitOpen: Option<seq<nat>>, assignedNos: seq<nat>, allSeen: seq<nat>): seq<nat> {
    if explicitOpen.Some? then explicitOpen.value
    else
      var maxC := MaxOf(allSeen);
      if maxC > 0 then Unassigned(assignedNos, maxC) else []
  }

  /** The reconciliation at the end of `analyze`. */
  method ReconcileOpenClaims(explicitOpen: Option<seq<nat>>, assignedNos: seq<nat>, allSeen: seq<nat>) returns (openClaims: seq<nat>)
    ensures openClaims == OpenClaimsChosen(explicitOpen, assignedNos, allSeen)
  {
    if explicitOpen.Some? {
      return explicitOpen.value;
    }
    var maxC := InferMaxClaim(Some(allSeen), None);
    assert Listed(Some(allSeen)) + Listed(None) == allSeen;
    if maxC > 0 {
      openClaims := UnassignedUpTo(assignedNos, maxC);
    } else {
      openClaims := [];
    }
  }

  /** The loop collecting the claims no item covers. */
  method UnassignedUpTo(assignedNos: seq<nat>, maxC: nat) returns (openClaims: seq<nat>)
    ensures openClaims == Unassigned(assignedNos, maxC)
  {
    openClaims := [];
    for c := 1 to maxC + 1
      invariant openClaims == Unassigned(assignedNos, c - 1)
    {
      if c !in assignedNos {
        openClaims := openClaims + [c];
      }
    }
  }

  /** With the assigned claims the sorted distinct claims seen: an explicit
      list is taken as it is; otherwise a claim is open exactly when it lies
      between 1 and the largest claim seen and no item lists it, the open
      claims come in increasing order, and there are none when no claim was
      seen. */
  lemma OpenClaimsRule(explicitOpen: Option<seq<nat>>, seen: seq<nat>)
    ensures var assignedNos := SortedUnique(seen);
      var r := OpenClaimsChosen(explicitOpen, assignedNos, assignedNos);
      (explicitOpen.Some? ==> r == explicitOpen.value)
      && (explicitOpen.None? ==>
            (forall c :: c in r <==> 1 <= c <= MaxOf(seen) && c !in seen)
            && StrictlyIncreasing(r)
            && (|seen| == 0 ==> r == []))
  {
    var u := SortedUnique(seen);
    SortedUniqueProperties(seen);
    MaxOfSameElements(u, seen);
    UnassignedProperties(u, MaxOf(u));
  }

  // ---------------------------------------------------------------
  // analyze
  // ---------------------------------------------------------------

  /** What `analyze` returns (the debug record of the attribution maps is
      not part of it). */
  datatype Analysis = Analysis(refMap: map<nat, string>, blocks: seq<Block>,
                               rowsNovelty: seq<NoveltyRow>, rowsOther: seq<OtherRow>,
                               assignedClaims: seq<nat>, explicitOpen: Option<seq<nat>>,
                               openClaims: seq<nat>)

  /** The blocks of a normalized text after propagation and sanitisation. */
  function CleanBlocks(text: string): (r: seq<Block>)
    ensures |r| == |ReasonBlocksOf(text)|
  {
    SanitizedAll(PropagatedAll(ReasonBlocksOf(text)))
  }

  /** The entries that become rows. */
  function RowEntries(text: string): seq<Entry> {
    var bs := CleanBlocks(text);
    Entries(bs, NonSummaryNos(bs))
  }

  function AnalysisOf(rawText: string): Analysis {
    var text := NormalizeText(rawText);
    var refMap := CitedReferencesOf(text);
    var t := RowsOf(RowEntries(text), refMap);
    var assignedNos := SortedUnique(t.claims);
    var explicitOpen := OpenClaimsOf(text);
    Analysis(refMap, CleanBlocks(text), t.novelty, t.other, assignedNos, explicitOpen,
             OpenClaimsChosen(explicitOpen, assignedNos, assignedNos))
  }

  /** The blocks of `analyze`: parsed into an array whose articles the
      propagation and sanitisation passes overwrite in place. */
  method CleanedBlocks(text: string) returns (blocks: array<Block>)
    ensures blocks[..] == CleanBlocks(text)
  {
    var parsed := ParseReasonBlocks(text);
    blocks := new Block[|parsed|](i requires 0 <= i < |parsed| => parsed[i]);
    assert blocks[..] == parsed;
    PropagateArticles(blocks);
    SanitizeArticles(blocks);
  }

  /** `analyze`. */
  method Analyze(rawText: string) returns (res: Analysis)
    ensures res == AnalysisOf(rawText)
  {
    var text := NormalizeText(rawText);
    var refMap := ExtractCitedReferencesList(text);
    var blocks := CleanedBlocks(text);
    var explicitOpen := OpenClaimsOf(text);
    var nos := NonSummaryNumbers(blocks);
    var t := CollectRows(blocks[..], nos, refMap);
    assert t == RowsOf(RowEntries(text), refMap);
    var u := Uniq(t.claims);
    var assignedNos := SortAsc(u);
    var u2 := Uniq(t.claims);
    var allSeen := SortAsc(u2);
    assert assignedNos == allSeen == SortedUnique(t.claims);
    var openClaims := ReconcileOpenClaims(explicitOpen, assignedNos, allSeen);
    res := Analysis(refMap, blocks[..], t.novelty, t.other, assignedNos, explicitOpen, openClaims);
  }

  /** Every item of a block that is not skipped yields one row, and the
      assigned claims are the claims those items list, each once, in
      increasing order; inferred open claims are never assigned. */
  lemma AnalysisRowsAndClaims(rawText: string)
    ensures var res := AnalysisOf(rawText);
      var es := RowEntries(NormalizeText(rawText));
      |res.rowsNovelty| + |res.rowsOther| == |es|
      && StrictlyIncreasing(res.assignedClaims)
      && (forall c :: c in res.assignedClaims <==> exists k :: 0 <= k < |es| && c in es[k].item.claims)
      && (res.explicitOpen.None? ==> forall c :: c in res.openClaims ==> c !in res.assignedClaims)
  {
    var text := NormalizeText(rawText);
    var es := RowEntries(text);
    var refMap := CitedReferencesOf(text);
    RowsOfProperties(es, refMap);
    var seen := ClaimsSeen(es);
    SortedUniqueProperties(seen);
    forall c ensures c in seen <==> exists k :: 0 <= k < |es| && c in es[k].item.claims {
      ClaimsSeenMembers(es, c);
    }
    OpenClaimsRule(OpenClaimsOf(text), seen);
  }
}
