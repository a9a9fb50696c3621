/** `RejectionParser`: reads the reason headings, the per-claim items, the
    paragraph and figure citations and the open claims out of the text of a
    notice of reasons for refusal. Every input is first put through
    `normalizeText`; every regular expression is a pattern of module `Scan`
    and every `exec` loop walks the matches `Scan.All` lists. */
module Parser {
  import opened Text
  import opened Utils
  import opened Scan
  import ParagraphRefs

  /** Every match in `ms` lies inside a text of length `n`. */
  predicate AllWellFormed(ms: seq<Match>, n: nat) {
    forall k :: 0 <= k < |ms| ==> WellFormed(ms[k], n)
  }

  lemma AllMatchesWellFormed(p: Pattern, t: string)
    ensures AllWellFormed(All(p, t), |t|)
  {
  }

  // ---------------------------------------------------------------
  // extractCitedReferencesList
  // ---------------------------------------------------------------

  /** The text the list is read from: from the first `引用文献等一覧`, else
      from the first `引用文献一覧`, else all of it. */
  function CitedTail(t: string): (r: string)
    ensures IndexOf(t, "引用文献等一覧").Some? ==> r == t[IndexOf(t, "引用文献等一覧").value..]
    ensures IndexOf(t, "引用文献等一覧").None? && IndexOf(t, "引用文献一覧").Some? ==> r == t[IndexOf(t, "引用文献一覧").value..]
    ensures IndexOf(t, "引用文献等一覧").None? && IndexOf(t, "引用文献一覧").None? ==> r == t
  {
    match IndexOf(t, "引用文献等一覧")
    case Some(i) => t[i..]
    case None =>
      match IndexOf(t, "引用文献一覧")
      case Some(i) => t[i..]
      case None => t
  }

  /** What one numbered line contributes: its number and trimmed name, when
      the number is not zero and the name is not blank. */
  function CitedEntry(t: string, m: Match): Option<(nat, string)>
    requires WellFormed(m, |t|)
  {
    var no := ParseInt(Group(t, m.g1));
    var name := Trim(Group(t, m.g2));
    if no != 0 && name != "" then Some((no, name)) else None
  }

  /** The entries of the lines `ms`, in order. */
  function CitedEntries(t: string, ms: seq<Match>): (r: seq<Option<(nat, string)>>)
    requires AllWellFormed(ms, |t|)
    ensures |r| == |ms|
    ensures forall k :: 0 <= k < |ms| ==> r[k] == CitedEntry(t, ms[k])
  {
    seq(|ms|, k requires 0 <= k < |ms| => CitedEntry(t, ms[k]))
  }

  /** The object the loop builds from the entries `es`. */
  function EntryMap(es: seq<Option<(nat, string)>>): map<nat, string> {
    if |es| == 0 then map[]
    else
      var out := EntryMap(es[..|es| - 1]);
      match es[|es| - 1]
      case None => out
      case Some(e) => out[e.0 := e.1]
  }

  /** The value `extractCitedReferencesList` returns. */
  function CitedReferencesOf(text: string): map<nat, string> {
    var tail := CitedTail(NormalizeText(text));
    EntryMap(CitedEntries(tail, All(CitedList, tail)))
  }

  /** `extractCitedReferencesList`. */
  method ExtractCitedReferencesList(text: string) returns (out: map<nat, string>)
    ensures out == CitedReferencesOf(text)
  {
    var t := NormalizeText(text);
    var idx := IndexOf(t, "引用文献等一覧");
    if idx.None? {
      idx := IndexOf(t, "引用文献一覧");
    }
    var tail := if idx.Some? then t[idx.value..] else t;
    assert tail == CitedTail(t);
    out := CitedLoop(CitedList, tail);
  }

  /** The `exec` loop of `extractCitedReferencesList` over the expression
      `re`. */
  method CitedLoop(re: Pattern, tail: string) returns (out: map<nat, string>)
    ensures out == EntryMap(CitedEntries(tail, All(re, tail)))
  {
    out := map[];
    var pos := 0;
    ghost var done: seq<Match> := [];
    ghost var es: seq<Option<(nat, string)>> := [];
    var m := FindFrom(re, tail, 0);
    while m.Some?
      invariant pos <= |tail|
      invariant m == FindFrom(re, tail, pos)
      invariant done + AllFrom(re, tail, pos) == All(re, tail)
      invariant EntriesSoFar(tail, done, es)
      invariant out == EntryMap(es)
      decreases |tail| - pos
    {
      var x := m.value;
      out := AddEntry(out, tail, x);
      EntriesStep(tail, done, es, x);
      ExecStep(re, tail, pos, done);
      es := es + [CitedEntry(tail, x)];
      done := done + [x];
      pos := x.end;
      m := FindFrom(re, tail, pos);
    }
    assert done == All(re, tail);
    EntriesAll(tail, done, es);
  }

  lemma EntriesAll(t: string, done: seq<Match>, es: seq<Option<(nat, string)>>)
    requires EntriesSoFar(t, done, es)
    ensures es == CitedEntries(t, done)
  {
  }

  /** One turn of the loop: a numbered line with a non-zero number and a
      non-blank name sets that number's entry. */
  method AddEntry(out: map<nat, string>, t: string, x: Match) returns (out': map<nat, string>)
    requires WellFormed(x, |t|)
    ensures out' == match CitedEntry(t, x) case None => out case Some(e) => out[e.0 := e.1]
  {
    out' := out;
    var no := ParseInt(Group(t, x.g1));
    var name := Trim(Group(t, x.g2));
    if no != 0 && name != "" {
      out' := out'[no := name];
    }
  }

  /** `es` holds the entries of the lines `done`. */
  predicate EntriesSoFar(t: string, done: seq<Match>, es: seq<Option<(nat, string)>>) {
    AllWellFormed(done, |t|) && |es| == |done| && forall k :: 0 <= k < |done| ==> es[k] == CitedEntry(t, done[k])
  }

  lemma EntriesStep(t: string, done: seq<Match>, es: seq<Option<(nat, string)>>, x: Match)
    requires EntriesSoFar(t, done, es) && WellFormed(x, |t|)
    ensures EntriesSoFar(t, done + [x], es + [CitedEntry(t, x)])
    ensures EntryMap(es + [CitedEntry(t, x)]) == match CitedEntry(t, x) case None => EntryMap(es) case Some(e) => EntryMap(es)[e.0 := e.1]
  {
    var done', es' := done + [x], es + [CitedEntry(t, x)];
    forall k | 0 <= k < |done'| ensures WellFormed(done'[k], |t|) && es'[k] == CitedEntry(t, done'[k]) {
      if k < |done| { assert done'[k] == done[k] && es'[k] == es[k]; }
    }
    assert es'[..|es|] == es;
  }

  /** A number is listed exactly when some entry carries it, and it maps to
      the name of the last such entry. */
  lemma {:induction false} EntryMapLastWins(es: seq<Option<(nat, string)>>, no: nat)
    ensures no in EntryMap(es) <==> exists i :: 0 <= i < |es| && es[i].Some? && es[i].value.0 == no
    ensures no in EntryMap(es) ==>
      exists i :: 0 <= i < |es| && es[i] == Some((no, EntryMap(es)[no])) &&
        forall j :: i < j < |es| ==> es[j].None? || es[j].value.0 != no
  {
    if |es| > 0 {
      var n := |es| - 1;
      var init := es[..n];
      assert forall k :: 0 <= k < n ==> init[k] == es[k];
      EntryMapLastWins(init, no);
      if es[n].Some? && es[n].value.0 == no {
        assert EntryMap(es)[no] == es[n].value.1;
        assert es[n] == Some((no, EntryMap(es)[no]));
      } else {
        assert (no in EntryMap(es)) == (no in EntryMap(init));
        if no in EntryMap(init) {
          assert EntryMap(es)[no] == EntryMap(init)[no];
          var i :| 0 <= i < n && init[i] == Some((no, EntryMap(init)[no]))
                   && forall j :: i < j < n ==> init[j].None? || init[j].value.0 != no;
          assert es[i] == init[i];
        }
      }
    }
  }

  /** Every entry has a non-zero number and a trimmed name that is not
      blank. */
  lemma CitedEntryShape(t: string, m: Match)
    requires WellFormed(m, |t|) && CitedEntry(t, m).Some?
    ensures CitedEntry(t, m).value.0 != 0 && CitedEntry(t, m).value.1 != ""
    ensures !IsSpace(CitedEntry(t, m).value.1[0]) && Trim(CitedEntry(t, m).value.1) == CitedEntry(t, m).value.1
  {
    TrimIdempotent(Group(t, m.g2));
  }

  /** `extractCitedReferencesList` lists a number exactly when some numbered
      line carries it with a name that is not blank, under the name of the
      last such line. */
  lemma CitedReferencesLastWins(text: string, no: nat)
    ensures var tail := CitedTail(NormalizeText(text));
      var ms := All(CitedList, tail);
      (no in CitedReferencesOf(text) <==> exists i :: 0 <= i < |ms| && CitedEntry(tail, ms[i]).Some? && CitedEntry(tail, ms[i]).value.0 == no) &&
      (no in CitedReferencesOf(text) ==>
        exists i :: 0 <= i < |ms| && CitedEntry(tail, ms[i]) == Some((no, CitedReferencesOf(text)[no])) &&
          forall j :: i < j < |ms| ==> CitedEntry(tail, ms[j]).None? || CitedEntry(tail, ms[j]).value.0 != no)
  {
    var tail := CitedTail(NormalizeText(text));
    var ms := All(CitedList, tail);
    var es := CitedEntries(tail, ms);
    EntryMapLastWins(es, no);
  }

  // ---------------------------------------------------------------
  // Reason headings
  // ---------------------------------------------------------------

  datatype Style = Bullet | Summary | Plain

  /** A reason heading: where its line starts, its style, its reason number
      and its trimmed title. */
  datatype Head = Head(idx: nat, style: Style, no: nat, title: string)

  /** The heading a match records; `base` is the offset of the text the
      pattern ran on within the whole text. */
  function HeadAt(t: string, m: Match, style: Style, base: nat): Head
    requires WellFormed(m, |t|)
  {
    Head(base + m.lead, style, ParseInt(Group(t, m.g1)), Trim(Group(t, m.g2)))
  }

  function HeadsOf(t: string, ms: seq<Match>, style: Style, base: nat): (r: seq<Head>)
    requires AllWellFormed(ms, |t|)
    ensures |r| == |ms|
    ensures forall k :: 0 <= k < |ms| ==> r[k] == HeadAt(t, ms[k], style, base)
  {
    seq(|ms|, k requires 0 <= k < |ms| => HeadAt(t, ms[k], style, base))
  }

  /** One heading `exec` loop: a heading for every match of `p` in `t`. */
  method CollectHeads(p: Pattern, t: string, style: Style, base: nat) returns (heads: seq<Head>)
    ensures heads == HeadsOf(t, All(p, t), style, base)
  {
    heads := [];
    var pos := 0;
    ghost var done: seq<Match> := [];
    var m := FindFrom(p, t, 0);
    while m.Some?
      invariant pos <= |t|
      invariant m == FindFrom(p, t, pos)
      invariant done + AllFrom(p, t, pos) == All(p, t)
      invariant HeadsSoFar(t, style, base, done, heads)
      decreases |t| - pos
    {
      var x := m.value;
      var h := Head(base + x.lead, style, ParseInt(Group(t, x.g1)), Trim(Group(t, x.g2)));
      HeadsStep(t, style, base, done, heads, x);
      ExecStep(p, t, pos, done);
      heads := heads + [h];
      done := done + [x];
      pos := x.end;
      m := FindFrom(p, t, pos);
    }
    assert done == All(p, t);
  }

  /** `heads` holds the headings of the matches `done`. */
  predicate HeadsSoFar(t: string, style: Style, base: nat, done: seq<Match>, heads: seq<Head>) {
    AllWellFormed(done, |t|) && |heads| == |done| && forall k :: 0 <= k < |done| ==> heads[k] == HeadAt(t, done[k], style, base)
  }

  lemma HeadsStep(t: string, style: Style, base: nat, done: seq<Match>, heads: seq<Head>, x: Match)
    requires HeadsSoFar(t, style, base, done, heads) && WellFormed(x, |t|)
    ensures HeadsSoFar(t, style, base, done + [x], heads + [HeadAt(t, x, style, base)])
  {
    var done', heads' := done + [x], heads + [HeadAt(t, x, style, base)];
    forall k | 0 <= k < |done'| ensures WellFormed(done'[k], |t|) && heads'[k] == HeadAt(t, done'[k], style, base) {
      if k < |done| { assert done'[k] == done[k] && heads'[k] == heads[k]; }
    }
  }

  /** The section after the first match of `open`: from the end of that
      match (found again on the text from its start) to the start of the
      next match of `close`, or to the end of the text. */
  function SectionOf(open: Pattern, close: Pattern, t: string): (r: Option<(nat, nat)>)
    ensures r.Some? ==> r.value.0 <= r.value.1 <= |t|
    ensures r.None? <==> Find(open, t).None?
  {
    match Find(open, t)
    case None => None
    case Some(mr) =>
      var s := mr.start;
      var m2 := Find(open, t[s..]);
      var base := s + (if m2.Some? then m2.value.end else 0);
      var end := match Find(close, t[base..]) case Some(k) => base + k.start case None => |t|;
      Some((base, end))
  }

  /** The summary section: after the first standalone `理由` line, up to the
      next standalone `記` line or the end of the text; there is none
      without a `理由` line. */
  function SummarySection(t: string): Option<(nat, nat)> {
    SectionOf(ReasonLine, KiLine, t)
  }

  /** The value `_scanSummaryReasonHeads` returns. */
  function SummaryHeadsOf(t: string): seq<Head> {
    match SummarySection(t)
    case None => []
    case Some(sec) =>
      var summary := t[sec.0..sec.1];
      HeadsOf(summary, All(SummaryHead, summary), Summary, sec.0)
  }

  /** The section bounds of `_scanSummaryReasonHeads`, for the expressions
      `reReason` and `reKi`. The second test of the source (`search`
      failing after `match` succeeded) cannot hold, the two running the same
      expression on the same text. */
  method SectionBounds(reReason: Pattern, reKi: Pattern, t: string) returns (sec: Option<(nat, nat)>)
    ensures sec == SectionOf(reReason, reKi, t)
  {
    var mReason := Find(reReason, t);
    if mReason.None? {
      return None;
    }
    var startReasonIdx := mReason.value.start;
    var m2 := Find(reReason, t[startReasonIdx..]);
    var base := startReasonIdx + (if m2.Some? then m2.value.end else 0);
    var tail := t[base..];
    var mKi := Find(reKi, tail);
    var end := if mKi.Some? then base + mKi.value.start else |t|;
    return Some((base, end));
  }

  /** `_scanSummaryReasonHeads`. */
  method ScanSummaryReasonHeads(t: string) returns (heads: seq<Head>)
    ensures heads == SummaryHeadsOf(t)
  {
    var sec := SectionBounds(ReasonLine, KiLine, t);
    if sec.None? {
      return [];
    }
    var base, end := sec.value.0, sec.value.1;
    var summary := t[base..end];
    heads := CollectHeads(SummaryHead, summary, Summary, base);
  }

  /** Summary headings are only taken inside the summary section. */
  lemma SummaryHeadsInSection(t: string)
    ensures Find(ReasonLine, t).None? ==> SummaryHeadsOf(t) == []
    ensures forall h :: h in SummaryHeadsOf(t) ==>
      h.style == Summary && SummarySection(t).Some? && SummarySection(t).value.0 <= h.idx < SummarySection(t).value.1
  {
    match SummarySection(t)
    case None =>
    case Some(sec) =>
      var summary := t[sec.0..sec.1];
      var ms := All(SummaryHead, summary);
      forall h | h in SummaryHeadsOf(t)
        ensures h.style == Summary && sec.0 <= h.idx < sec.1
      {
        var k :| 0 <= k < |ms| && h == HeadsOf(summary, ms, Summary, sec.0)[k];
        assert WellFormed(ms[k], |summary|);
      }
  }

  /** A plain heading is on one line: nothing between the start of its line
      and its opening parenthesis is a line feed. */
  lemma PlainHeadOneLine(t: string, i: nat)
    requires i <= |t| && MatchAt(PlainHead, t, i).Some?
    ensures forall k :: MatchAt(PlainHead, t, i).value.lead <= k < MatchAt(PlainHead, t, i).value.g2.lo ==> t[k] != '\n'
  {
    var m := MatchAt(PlainHead, t, i).value;
    MatchAtBody(PlainHead, t, i);
    assert PlainHead.body(t, m.lead) == PlainHeadRest(t, m.lead);
    PlainHeadRestOneLine(t, m.lead);
  }

  /** Every heading points into the text. */
  lemma {:induction false} HeadsOfBelow(t: string, ms: seq<Match>, style: Style, base: nat, n: nat)
    requires AllWellFormed(ms, |t|) && base + |t| <= n
    ensures forall h :: h in HeadsOf(t, ms, style, base) ==> h.idx < n
  {
    forall h | h in HeadsOf(t, ms, style, base) ensures h.idx < n {
      var k :| 0 <= k < |ms| && h == HeadsOf(t, ms, style, base)[k];
      assert WellFormed(ms[k], |t|);
    }
  }

  // ---------------------------------------------------------------
  // Ordering and de-duplication of headings
  // ---------------------------------------------------------------

  /** The tie-break priorities of the comparator. */
  function Pri(s: Style): nat {
    match s
    case Bullet => 3
    case Summary => 2
    case Plain => 1
  }

  /** The comparator is negative: `a` sorts strictly before `b`. */
  predicate Before(a: Head, b: Head) {
    a.idx < b.idx || (a.idx == b.idx && Pri(a.style) > Pri(b.style))
  }

  predicate HeadsOrdered(hs: seq<Head>) {
    forall i, j :: 0 <= i < j < |hs| ==> !Before(hs[j], hs[i])
  }

  /** All headings, in the order the three scans produce them. */
  function RawHeads(t: string): seq<Head> {
    HeadsOf(t, All(BulletHead, t), Bullet, 0) + SummaryHeadsOf(t) + HeadsOf(t, All(PlainHead, t), Plain, 0)
  }

  /** Insertion of `h` after every heading that does not sort after it. */
  function InsertHead(h: Head, s: seq<Head>): (r: seq<Head>)
    ensures multiset(r) == multiset(s) + multiset{h}
  {
    if |s| == 0 || !Before(h, s[|s| - 1]) then s + [h]
    else
      assert s == s[..|s| - 1] + [s[|s| - 1]];
      InsertHead(h, s[..|s| - 1]) + [s[|s| - 1]]
  }

  lemma {:induction false} InsertHeadOrdered(h: Head, s: seq<Head>)
    requires HeadsOrdered(s)
    ensures HeadsOrdered(InsertHead(h, s))
  {
    if |s| == 0 || !Before(h, s[|s| - 1]) {
      forall i | 0 <= i < |s| ensures !Before(h, s[i]) {
        if i < |s| - 1 {
          assert !Before(s[|s| - 1], s[i]);
        }
      }
      var r := s + [h];
      forall i, j | 0 <= i < j < |r| ensures !Before(r[j], r[i]) {
        if j == |s| {
          assert r[i] == s[i];
        }
      }
    } else {
      var init := s[..|s| - 1];
      var last := s[|s| - 1];
      assert s == init + [last];
      InsertHeadOrdered(h, init);
      var q := InsertHead(h, init);
      forall x | x in q ensures !Before(last, x) {
        assert x in multiset(q);
        if x != h {
          assert x in multiset(init);
          var k :| 0 <= k < |init| && init[k] == x;
          assert s[k] == x;
        }
      }
      var r := q + [last];
      forall i, j | 0 <= i < j < |r| ensures !Before(r[j], r[i]) {
        if j == |q| {
          assert r[i] == q[i] && q[i] in q;
        }
      }
    }
  }

  /** `heads.sort(...)`: ordered by offset, bullet before summary before
      plain at the same offset, equal headings kept in input order. */
  function SortHeads(hs: seq<Head>): (r: seq<Head>)
    ensures HeadsOrdered(r)
    ensures multiset(r) == multiset(hs)
  {
    if |hs| == 0 then []
    else
      assert hs == hs[..|hs| - 1] + [hs[|hs| - 1]];
      var sorted := SortHeads(hs[..|hs| - 1]);
      InsertHeadOrdered(hs[|hs| - 1], sorted);
      InsertHead(hs[|hs| - 1], sorted)
  }

  /** The de-duplication key: offset, reason number and style. */
  function HeadKey(h: Head): (nat, nat, Style) {
    (h.idx, h.no, h.style)
  }

  function KeysOf(hs: seq<Head>): set<(nat, nat, Style)> {
    set h | h in hs :: HeadKey(h)
  }

  /** The headings the de-duplication loop keeps: each one whose key was not
      seen before. */
  function DedupHeads(hs: seq<Head>): seq<Head> {
    if |hs| == 0 then []
    else
      var r := DedupHeads(hs[..|hs| - 1]);
      if HeadKey(hs[|hs| - 1]) in KeysOf(r) then r else r + [hs[|hs| - 1]]
  }

  /** The de-duplication loop of `parseReasonBlocks`. */
  method DedupByKey(heads: seq<Head>) returns (uniq: seq<Head>)
    ensures uniq == DedupHeads(heads)
  {
    uniq := [];
    var seen: set<(nat, nat, Style)> := {};
    for i := 0 to |heads|
      invariant uniq == DedupHeads(heads[..i])
      invariant seen == KeysOf(uniq)
    {
      assert heads[..i + 1][..i] == heads[..i];
      var k := HeadKey(heads[i]);
      if k in seen {
        continue;
      }
      seen := seen + {k};
      uniq := uniq + [heads[i]];
    }
    assert heads[..|heads|] == heads;
  }

  /** The kept headings have pairwise distinct keys, cover every key, come
      from the input and keep its order. */
  lemma {:induction false} DedupProperties(hs: seq<Head>)
    ensures forall i, j :: 0 <= i < j < |DedupHeads(hs)| ==> HeadKey(DedupHeads(hs)[i]) != HeadKey(DedupHeads(hs)[j])
    ensures KeysOf(DedupHeads(hs)) == KeysOf(hs)
    ensures forall h :: h in DedupHeads(hs) ==> h in hs
    ensures HeadsOrdered(hs) ==> HeadsOrdered(DedupHeads(hs))
  {
    if |hs| > 0 {
      var init := hs[..|hs| - 1];
      var last := hs[|hs| - 1];
      assert hs == init + [last];
      DedupProperties(init);
      var r := DedupHeads(init);
      KeysOfSnoc(init, last);
      if HeadKey(last) !in KeysOf(r) {
        KeysOfSnoc(r, last);
        SnocDistinct(r, last);
        if HeadsOrdered(hs) {
          assert HeadsOrdered(init);
          SnocOrdered(r, init, last);
        }
      }
    }
  }

  lemma KeysOfSnoc(s: seq<Head>, x: Head)
    ensures KeysOf(s + [x]) == KeysOf(s) + {HeadKey(x)}
  {
    forall k ensures k in KeysOf(s + [x]) <==> k in KeysOf(s) + {HeadKey(x)} {
      if k in KeysOf(s + [x]) {
        var h :| h in s + [x] && HeadKey(h) == k;
        assert h in s || h == x;
      }
      if k in KeysOf(s) {
        var h :| h in s && HeadKey(h) == k;
        assert h in s + [x];
      }
      assert x in s + [x];
    }
  }

  lemma SnocDistinct(r: seq<Head>, x: Head)
    requires forall i, j :: 0 <= i < j < |r| ==> HeadKey(r[i]) != HeadKey(r[j])
    requires HeadKey(x) !in KeysOf(r)
    ensures forall i, j :: 0 <= i < j < |r + [x]| ==> HeadKey((r + [x])[i]) != HeadKey((r + [x])[j])
  {
    var r' := r + [x];
    forall i, j | 0 <= i < j < |r'| ensures HeadKey(r'[i]) != HeadKey(r'[j]) {
      if j == |r| {
        assert r'[i] == r[i] && r[i] in r;
      }
    }
  }

  lemma SnocOrdered(r: seq<Head>, init: seq<Head>, x: Head)
    requires HeadsOrdered(init + [x]) && HeadsOrdered(r)
    requires forall h :: h in r ==> h in init
    ensures HeadsOrdered(r + [x])
  {
    var r', hs := r + [x], init + [x];
    forall i, j | 0 <= i < j < |r'| ensures !Before(r'[j], r'[i]) {
      if j == |r| {
        assert r'[i] == r[i] && r[i] in r;
        var k :| 0 <= k < |init| && init[k] == r[i];
        assert hs[k] == r[i] && hs[|init|] == x;
      }
    }
  }

  /** The headings `parseReasonBlocks` slices the text at. */
  function ReasonHeads(t: string): seq<Head> {
    DedupHeads(SortHeads(RawHeads(t)))
  }

  /** The headings come out ordered, with distinct keys, covering the key of
      every heading any of the three scans found, and all inside the text. */
  lemma ReasonHeadsProperties(t: string)
    ensures HeadsOrdered(ReasonHeads(t))
    ensures forall i, j :: 0 <= i < j < |ReasonHeads(t)| ==> HeadKey(ReasonHeads(t)[i]) != HeadKey(ReasonHeads(t)[j])
    ensures KeysOf(ReasonHeads(t)) == KeysOf(RawHeads(t))
    ensures forall h :: h in ReasonHeads(t) ==> h.idx < |t|
  {
    var raw := RawHeads(t);
    var sorted := SortHeads(raw);
    DedupProperties(sorted);
    assert forall h :: h in sorted <==> h in raw by {
      forall h ensures h in sorted <==> h in raw {
        assert h in sorted <==> h in multiset(sorted);
      }
    }
    assert KeysOf(sorted) == KeysOf(raw);
    HeadsOfBelow(t, All(BulletHead, t), Bullet, 0, |t|);
    HeadsOfBelow(t, All(PlainHead, t), Plain, 0, |t|);
    SummaryHeadsInSection(t);
  }

  // ---------------------------------------------------------------
  // Blocks
  // ---------------------------------------------------------------

  /** A reason block: the text from one heading to the next. */
  datatype Block = Block(no: nat, style: Style, headerLine: string, reasonTitle: string, article: string, body: string)

  function ChunkEnd(t: string, heads: seq<Head>, j: nat): nat
    requires j < |heads|
  {
    if j + 1 < |heads| then heads[j + 1].idx else |t|
  }

  /** The text of block `j`. */
  function Chunk(t: string, heads: seq<Head>, j: nat): string
    requires j < |heads|
  {
    Slice(t, heads[j].idx, ChunkEnd(t, heads, j))
  }

  /** The trimmed first line, from `k` on, that is not blank. */
  function FirstNonBlank(lines: seq<string>, k: nat): string
    decreases |lines| - k
  {
    if k >= |lines| then ""
    else if Trim(lines[k]) != "" then Trim(lines[k])
    else FirstNonBlank(lines, k + 1)
  }

  function HeaderLine(chunk: string): string {
    FirstNonBlank(Split(chunk, '\n'), 0)
  }

  /** The first 1200 characters, `slice(0, 1200)`. */
  function HeadPart(chunk: string): string {
    chunk[..if |chunk| < 1200 then |chunk| else 1200]
  }

  /** The first match of `re` in the head part, spaces removed. */
  function ArticleWith(re: Pattern, chunk: string): string {
    var head := HeadPart(chunk);
    match Find(re, head)
    case None => ""
    case Some(m) => RemoveSpaces(head[m.start..m.end])
  }

  /** The first statute citation of the head part, spaces removed. */
  function ArticleOf(chunk: string): string {
    ArticleWith(ArticleRef, chunk)
  }

  function BlockWith(re: Pattern, t: string, heads: seq<Head>, j: nat): Block
    requires j < |heads|
  {
    var c := Chunk(t, heads, j);
    Block(heads[j].no, heads[j].style, HeaderLine(c), heads[j].title, ArticleWith(re, c), Trim(c))
  }

  function BlockOf(t: string, heads: seq<Head>, j: nat): Block
    requires j < |heads|
  {
    BlockWith(ArticleRef, t, heads, j)
  }

  function BlocksWith(re: Pattern, t: string, heads: seq<Head>): (r: seq<Block>)
    ensures |r| == |heads|
  {
    seq(|heads|, j requires 0 <= j < |heads| => BlockWith(re, t, heads, j))
  }

  function BlocksOf(t: string, heads: seq<Head>): (r: seq<Block>)
    ensures |r| == |heads|
  {
    BlocksWith(ArticleRef, t, heads)
  }

  /** The value `parseReasonBlocks` returns. */
  function ReasonBlocksOf(rawText: string): seq<Block> {
    var t := NormalizeText(rawText);
    BlocksOf(t, ReasonHeads(t))
  }

  /** The header-line loop: the first line that is not blank, trimmed. */
  method FirstNonBlankLine(lines: seq<string>) returns (headerLine: string)
    ensures headerLine == FirstNonBlank(lines, 0)
  {
    headerLine := "";
    var k2 := 0;
    while k2 < |lines|
      invariant k2 <= |lines|
      invariant FirstNonBlank(lines, k2) == FirstNonBlank(lines, 0)
    {
      if Trim(lines[k2]) != "" {
        headerLine := Trim(lines[k2]);
        break;
      }
      k2 := k2 + 1;
    }
  }

  /** The headings `parseReasonBlocks` finds, orders and de-duplicates. */
  method ScanHeads(t: string) returns (heads: seq<Head>)
    ensures heads == ReasonHeads(t)
  {
    var bullets := CollectHeads(BulletHead, t, Bullet, 0);
    var summaryHeads := ScanSummaryReasonHeads(t);
    var plains := CollectHeads(PlainHead, t, Plain, 0);
    heads := bullets + summaryHeads + plains;
    heads := SortHeads(heads);
    heads := DedupByKey(heads);
  }

  /** The block loop of `parseReasonBlocks`, the article read with `re`. */
  method SliceBlocks(re: Pattern, t: string, heads: seq<Head>) returns (blocks: seq<Block>)
    ensures blocks == BlocksWith(re, t, heads)
  {
    blocks := [];
    for j := 0 to |heads|
      invariant |blocks| == j
      invariant forall k :: 0 <= k < j ==> blocks[k] == BlockWith(re, t, heads, k)
    {
      var b := SliceBlock(re, t, heads, j);
      ghost var prev := blocks;
      blocks := blocks + [b];
      forall k | 0 <= k < j + 1 ensures blocks[k] == BlockWith(re, t, heads, k) {
        if k < j { assert blocks[k] == prev[k]; } else { assert blocks[k] == b; }
      }
    }
  }

  /** One turn of the block loop: the chunk up to the next heading, its
      first non-blank line, its article and its trimmed text. */
  method SliceBlock(re: Pattern, t: string, heads: seq<Head>, j: nat) returns (b: Block)
    requires j < |heads|
    ensures b == BlockWith(re, t, heads, j)
  {
    var start := heads[j].idx;
    var end2 := if j + 1 < |heads| then heads[j + 1].idx else |t|;
    var chunk := Slice(t, start, end2);
    var lines := Split(chunk, '\n');
    var headerLine := FirstNonBlankLine(lines);
    var headPart := HeadPart(chunk);
    var am := Find(re, headPart);
    var article := if am.Some? then RemoveSpaces(headPart[am.value.start..am.value.end]) else "";
    var body := Trim(chunk);
    b := Block(heads[j].no, heads[j].style, headerLine, heads[j].title, article, body);
  }

  /** `parseReasonBlocks`. */
  method ParseReasonBlocks(rawText: string) returns (blocks: seq<Block>)
    ensures blocks == ReasonBlocksOf(rawText)
  {
    var t := NormalizeText(rawText);
    var heads := ScanHeads(t);
    blocks := SliceBlocks(ArticleRef, t, heads);
  }

  /** The chunks from block `j` on, put back together. */
  function ChunksFrom(t: string, heads: seq<Head>, j: nat): string
    decreases |heads| - j
  {
    if j >= |heads| then "" else Chunk(t, heads, j) + ChunksFrom(t, heads, j + 1)
  }

  /** With ordered headings inside the text, the chunks tile the text from
      the first heading to the end. */
  lemma {:induction false} ChunksTile(t: string, heads: seq<Head>, j: nat)
    requires HeadsOrdered(heads) && forall h :: h in heads ==> h.idx <= |t|
    requires j < |heads|
    ensures ChunksFrom(t, heads, j) == t[heads[j].idx..]
    decreases |heads| - j
  {
    var a := heads[j].idx;
    NextHeadBound(t, heads, j);
    if j + 1 < |heads| {
      var b := heads[j + 1].idx;
      assert Chunk(t, heads, j) == t[a..b];
      ChunksTile(t, heads, j + 1);
      SuffixSplit(t, a, b);
    } else {
      assert Chunk(t, heads, j) == t[a..];
    }
  }

  /** A heading starts inside the text, and no later than the next one. */
  lemma NextHeadBound(t: string, heads: seq<Head>, j: nat)
    requires HeadsOrdered(heads) && forall h :: h in heads ==> h.idx <= |t|
    requires j < |heads|
    ensures heads[j].idx <= |t|
    ensures j + 1 < |heads| ==> heads[j].idx <= heads[j + 1].idx <= |t|
  {
    assert heads[j] in heads;
    if j + 1 < |heads| {
      assert heads[j + 1] in heads;
      assert !Before(heads[j + 1], heads[j]);
    }
  }

  /** Block `j` carries heading `j`'s number, style and title, and the
      trimmed chunk as its body. */
  lemma BlocksCarryHeads(t: string, heads: seq<Head>)
    ensures forall j :: 0 <= j < |heads| ==>
      var b := BlocksOf(t, heads)[j];
      b.no == heads[j].no && b.style == heads[j].style && b.reasonTitle == heads[j].title && b.body == Trim(Chunk(t, heads, j))
  {
    forall j | 0 <= j < |heads|
      ensures var b := BlocksOf(t, heads)[j];
        b.no == heads[j].no && b.style == heads[j].style && b.reasonTitle == heads[j].title && b.body == Trim(Chunk(t, heads, j))
    {
      assert BlocksOf(t, heads)[j] == BlockWith(ArticleRef, t, heads, j);
    }
  }

  /** `parseReasonBlocks` yields one block per surviving heading, carrying its
      number, style and title; the block bodies are the trimmed chunks, and
      the chunks tile the text from the first heading to the end. */
  lemma ReasonBlocksTile(rawText: string, t: string, heads: seq<Head>)
    requires t == NormalizeText(rawText) && heads == ReasonHeads(t)
    ensures |ReasonBlocksOf(rawText)| == |heads|
    ensures forall j :: 0 <= j < |heads| ==>
      var b := ReasonBlocksOf(rawText)[j];
      b.no == heads[j].no && b.style == heads[j].style && b.reasonTitle == heads[j].title && b.body == Trim(Chunk(t, heads, j))
    ensures |heads| > 0 ==> heads[0].idx <= |t| && ChunksFrom(t, heads, 0) == t[heads[0].idx..]
  {
    assert ReasonBlocksOf(rawText) == BlocksOf(t, heads);
    BlocksCarryHeads(t, heads);
    ReasonHeadsProperties(t);
    if |heads| > 0 {
      ChunksTile(t, heads, 0);
    }
  }

  /** The article is empty exactly when the head part has no statute
      citation; otherwise it starts with `特許法` and has no white space. */
  lemma ArticleShape(chunk: string)
    ensures ArticleOf(chunk) == "" <==> Find(ArticleRef, HeadPart(chunk)).None?
    ensures ArticleOf(chunk) != "" ==> NoSpace(ArticleOf(chunk)) && HasAt(ArticleOf(chunk), 0, "特許法")
  {
    var head := HeadPart(chunk);
    match Find(ArticleRef, head)
    case None =>
    case Some(m) =>
      assert MatchAt(ArticleRef, head, m.start) == Some(m);
      assert ArticleAt(head, m.start).Some?;
      var s := head[m.start..m.end];
      assert s[..3] == "特許法";
      RemoveSpacesPrefix(s);
  }

  /** Removing spaces keeps a leading `特許法`. */
  lemma RemoveSpacesPrefix(s: string)
    requires |s| >= 3 && s[..3] == "特許法"
    ensures HasAt(RemoveSpaces(s), 0, "特許法")
  {
    assert s[0] == '特' && s[1] == '許' && s[2] == '法';
    assert RemoveSpaces(s) == [s[0]] + RemoveSpaces(s[1..]);
    assert RemoveSpaces(s[1..]) == [s[1]] + RemoveSpaces(s[2..]);
    assert RemoveSpaces(s[2..]) == [s[2]] + RemoveSpaces(s[3..]);
  }

  // ---------------------------------------------------------------
  // getEffectiveTitle
  // ---------------------------------------------------------------

  /** `getEffectiveTitle`: the trimmed reason title, else the trimmed text
      of the first full-width parenthesis of the header line, else empty. */
  function GetEffectiveTitle(block: Option<Block>): (r: string)
    ensures block.None? ==> r == ""
    ensures block.Some? && Trim(block.value.reasonTitle) != "" ==> r == Trim(block.value.reasonTitle)
    ensures Trim(r) == r
  {
    match block
    case None => ""
    case Some(b) =>
      var title := Trim(b.reasonTitle);
      TrimIdempotent(b.reasonTitle);
      if title != "" then title
      else
        match Find(ParenTitle, b.headerLine)
        case None => ""
        case Some(m) =>
          TrimIdempotent(Group(b.headerLine, m.g1));
          Trim(Group(b.headerLine, m.g1))
  }

  /** A title taken from the header line is the trimmed inside of a
      full-width parenthesis there: it has no closing parenthesis, and when
      the header line has no such parenthesis the title is empty. */
  lemma EffectiveTitleFromHeader(b: Block)
    requires Trim(b.reasonTitle) == ""
    ensures Find(ParenTitle, b.headerLine).None? ==> GetEffectiveTitle(Some(b)) == ""
    ensures forall k :: 0 <= k < |GetEffectiveTitle(Some(b))| ==> !IsCloser(GetEffectiveTitle(Some(b))[k])
  {
    match Find(ParenTitle, b.headerLine)
    case None =>
    case Some(m) =>
      var h := b.headerLine;
      assert MatchAt(ParenTitle, h, m.start) == Some(m);
      var c := m.start;
      assert ParenAt(h, c).Some?;
      var inside := Group(h, m.g1);
      assert forall k :: 0 <= k < |inside| ==> inside[k] == h[c + 1 + k];
      TrimKeeps(inside);
      forall k | 0 <= k < |Trim(inside)| ensures !IsCloser(Trim(inside)[k]) {
        var x := Trim(inside)[k];
        var i :| 0 <= i < |inside| && inside[i] == x;
      }
  }

  // ---------------------------------------------------------------
  // extractMiniItemsFromBlock
  // ---------------------------------------------------------------

  /** One claim item of a reason block: the trimmed claim text, the claim
      numbers it lists, the reference numbers of its `・引用文献等` line, and
      its note. */
  datatype MiniItem = MiniItem(claimsText: string, claims: seq<nat>, refs: seq<nat>, noteText: string)

  /** Where the item opened by claim line `m` ends: at the start of the first
      claim marker after the line, or at the end of the text. */
  function ItemEndWith(marker: Pattern, t: string, m: Match): (e: nat)
    requires WellFormed(m, |t|)
    ensures m.end <= e <= |t|
  {
    match Find(marker, t[m.end..])
    case None => |t|
    case Some(n) => m.end + n.start
  }

  /** The reference numbers of the first `・引用文献等` line of a chunk. */
  function RefsWith(refsRe: Pattern, chunk: string): seq<nat> {
    match Find(refsRe, chunk)
    case None => []
    case Some(rm) => NumberRangesOf(Group(chunk, rm.g1))
  }

  /** The note of a chunk: with a `・備考` line, the rest of the chunk from
      that line with the line removed, trimmed; otherwise the whole chunk. */
  function NoteWith(noteRe: Pattern, chunk: string): string {
    match Find(noteRe, chunk)
    case None => chunk
    case Some(bm) =>
      var rest := chunk[bm.start..];
      match Find(noteRe, rest)
      case None => Trim(rest)
      case Some(x) => Trim(rest[..x.start] + rest[x.end..])
  }

  /** The item claim line `m` opens. */
  function ItemWith(marker: Pattern, refsRe: Pattern, noteRe: Pattern, t: string, m: Match): MiniItem
    requires WellFormed(m, |t|)
  {
    var claimsText := Trim(Group(t, m.g1));
    var chunk := t[m.start..ItemEndWith(marker, t, m)];
    MiniItem(claimsText, NumberRangesOf(claimsText), RefsWith(refsRe, chunk), NoteWith(noteRe, chunk))
  }

  function ItemsWith(marker: Pattern, refsRe: Pattern, noteRe: Pattern, t: string, ms: seq<Match>): (r: seq<MiniItem>)
    requires AllWellFormed(ms, |t|)
    ensures |r| == |ms|
    ensures forall k :: 0 <= k < |ms| ==> r[k] == ItemWith(marker, refsRe, noteRe, t, ms[k])
  {
    seq(|ms|, k requires 0 <= k < |ms| => ItemWith(marker, refsRe, noteRe, t, ms[k]))
  }

  /** The value `extractMiniItemsFromBlock` returns: one item per claim
      line. */
  function MiniItemsOf(blockBody: string): seq<MiniItem> {
    var t := NormalizeText(blockBody);
    ItemsWith(ClaimMarker, RefsLine, NoteMarker, t, All(ClaimLine, t))
  }

  /** `extractMiniItemsFromBlock`. */
  method ExtractMiniItemsFromBlock(blockBody: string) returns (out: seq<MiniItem>)
    ensures out == MiniItemsOf(blockBody)
  {
    var t := NormalizeText(blockBody);
    out := MiniItemLoop(ClaimLine, ClaimMarker, RefsLine, NoteMarker, t);
  }

  /** The `exec` loop of `extractMiniItemsFromBlock` over the claim line
      expression `re`. */
  method MiniItemLoop(re: Pattern, marker: Pattern, refsRe: Pattern, noteRe: Pattern, t: string) returns (out: seq<MiniItem>)
    ensures out == ItemsWith(marker, refsRe, noteRe, t, All(re, t))
  {
    out := [];
    var pos := 0;
    ghost var done: seq<Match> := [];
    var m := FindFrom(re, t, 0);
    while m.Some?
      invariant pos <= |t|
      invariant m == FindFrom(re, t, pos)
      invariant done + AllFrom(re, t, pos) == All(re, t)
      invariant ItemsSoFar(marker, refsRe, noteRe, t, done, out)
      decreases |t| - pos
    {
      var x := m.value;
      var item := MiniItemAt(marker, refsRe, noteRe, t, x);
      ItemsStep(marker, refsRe, noteRe, t, done, out, x, item);
      ExecStep(re, t, pos, done);
      out := out + [item];
      done := done + [x];
      pos := x.end;
      m := FindFrom(re, t, pos);
    }
    assert done == All(re, t);
  }

  /** `out` holds the items of the matches `done`. */
  predicate ItemsSoFar(marker: Pattern, refsRe: Pattern, noteRe: Pattern, t: string, done: seq<Match>, out: seq<MiniItem>) {
    AllWellFormed(done, |t|) && |out| == |done| && forall k :: 0 <= k < |done| ==> out[k] == ItemWith(marker, refsRe, noteRe, t, done[k])
  }

  lemma ItemsStep(marker: Pattern, refsRe: Pattern, noteRe: Pattern, t: string, done: seq<Match>, out: seq<MiniItem>, x: Match, item: MiniItem)
    requires ItemsSoFar(marker, refsRe, noteRe, t, done, out)
    requires WellFormed(x, |t|) && item == ItemWith(marker, refsRe, noteRe, t, x)
    ensures ItemsSoFar(marker, refsRe, noteRe, t, done + [x], out + [item])
  {
    var done', out' := done + [x], out + [item];
    forall k | 0 <= k < |done'| ensures WellFormed(done'[k], |t|) && out'[k] == ItemWith(marker, refsRe, noteRe, t, done'[k]) {
      if k < |done| { assert done'[k] == done[k] && out'[k] == out[k]; }
    }
  }

  /** One turn of the loop: the claim text and numbers, the chunk up to the
      next claim marker, its reference numbers and its note. */
  method MiniItemAt(marker: Pattern, refsRe: Pattern, noteRe: Pattern, t: string, m: Match) returns (item: MiniItem)
    requires WellFormed(m, |t|)
    ensures item == ItemWith(marker, refsRe, noteRe, t, m)
  {
    var claimsText := Trim(Group(t, m.g1));
    var claims := ParseNumberRanges(claimsText);
    var start := m.start;
    var end := |t|;
    var skip := m.end;
    var next := Find(marker, t[skip..]);
    if next.Some? {
      end := skip + next.value.start;
    }
    assert end == ItemEndWith(marker, t, m);
    var chunk := t[start..end];
    var refs := ChunkRefs(refsRe, chunk);
    var noteText := ChunkNote(noteRe, chunk);
    item := MiniItem(claimsText, claims, refs, noteText);
  }

  method ChunkRefs(refsRe: Pattern, chunk: string) returns (refs: seq<nat>)
    ensures refs == RefsWith(refsRe, chunk)
  {
    refs := [];
    var rm := Find(refsRe, chunk);
    if rm.Some? {
      refs := ParseNumberRanges(Group(chunk, rm.value.g1));
    }
  }

  method ChunkNote(noteRe: Pattern, chunk: string) returns (noteText: string)
    ensures noteText == NoteWith(noteRe, chunk)
  {
    var bm := Find(noteRe, chunk);
    if bm.Some? {
      var bidx := Find(noteRe, chunk).value.start;
      var rest := chunk[bidx..];
      var x := Find(noteRe, rest);
      noteText := Trim(if x.Some? then rest[..x.value.start] + rest[x.value.end..] else rest);
    } else {
      noteText := chunk;
    }
  }

  // ---------------------------------------------------------------
  // extractParagraphStrings
  // ---------------------------------------------------------------

  /** The two `exec` loops of `extractParagraphStrings`: over `[a]-[b]`
      ranges and over single `[n]` brackets. */
  datatype LabelForm = RangeForm | SingleForm

  /** The lbl one match contributes, its numbers padded with `pad4`. */
  function LabelOf(form: LabelForm, t: string, m: Match): string
    requires WellFormed(m, |t|)
  {
    match form
    case RangeForm => ParagraphRefs.BracketText(Padded(Group(t, m.g1))) + "-" + ParagraphRefs.BracketText(Padded(Group(t, m.g2)))
    case SingleForm => ParagraphRefs.BracketText(Padded(Group(t, m.g1)))
  }

  function Labels(form: LabelForm, t: string, ms: seq<Match>): (r: seq<string>)
    requires AllWellFormed(ms, |t|)
    ensures |r| == |ms|
    ensures forall k :: 0 <= k < |ms| ==> r[k] == LabelOf(form, t, ms[k])
  {
    seq(|ms|, k requires 0 <= k < |ms| => LabelOf(form, t, ms[k]))
  }

  /** The labels of a normalized text: every range, then every bracket. */
  function ParagraphStringsIn(t: string): seq<string> {
    Labels(RangeForm, t, All(ParaRangeTok, t)) + Labels(SingleForm, t, All(ParaTok, t))
  }

  /** The value `extractParagraphStrings` returns. */
  function ParagraphStringsOf(noteText: string): seq<string> {
    ParagraphStringsIn(NormalizeText(noteText))
  }

  /** `extractParagraphStrings`. */
  method ExtractParagraphStrings(noteText: string) returns (out: seq<string>)
    ensures out == ParagraphStringsOf(noteText)
  {
    var t := NormalizeText(noteText);
    ghost var ranges := Labels(RangeForm, t, All(ParaRangeTok, t));
    out := LabelLoop(ParaRangeTok, RangeForm, t, []);
    assert out == ranges by {
      assert [] + ranges == ranges;
    }
    out := LabelLoop(ParaTok, SingleForm, t, out);
  }

  /** One `exec` loop of `extractParagraphStrings`, pushing onto `out0`. */
  method LabelLoop(re: Pattern, form: LabelForm, t: string, out0: seq<string>) returns (out: seq<string>)
    ensures out == out0 + Labels(form, t, All(re, t))
  {
    out := out0;
    var pos := 0;
    ghost var done: seq<Match> := [];
    var m := FindFrom(re, t, 0);
    while m.Some?
      invariant pos <= |t|
      invariant m == FindFrom(re, t, pos)
      invariant done + AllFrom(re, t, pos) == All(re, t)
      invariant LabelsSoFar(form, t, done, out0, out)
      decreases |t| - pos
    {
      var x := m.value;
      var lbl := LabelAt(form, t, x);
      LabelsStep(form, t, done, out0, out, x, lbl);
      ExecStep(re, t, pos, done);
      out := out + [lbl];
      done := done + [x];
      pos := x.end;
      m := FindFrom(re, t, pos);
    }
    assert done == All(re, t);
    LabelsAll(form, t, done, out0, out);
  }

  /** `out` is `out0` followed by the labels of the matches `done`. */
  predicate LabelsSoFar(form: LabelForm, t: string, done: seq<Match>, out0: seq<string>, out: seq<string>) {
    AllWellFormed(done, |t|) && |out| == |out0| + |done| && out[..|out0|] == out0
    && forall k :: 0 <= k < |done| ==> out[|out0| + k] == LabelOf(form, t, done[k])
  }

  lemma LabelsStep(form: LabelForm, t: string, done: seq<Match>, out0: seq<string>, out: seq<string>, x: Match, lbl: string)
    requires LabelsSoFar(form, t, done, out0, out)
    requires WellFormed(x, |t|) && lbl == LabelOf(form, t, x)
    ensures LabelsSoFar(form, t, done + [x], out0, out + [lbl])
  {
    var done', out' := done + [x], out + [lbl];
    assert out'[..|out0|] == out[..|out0|];
    forall k | 0 <= k < |done'| ensures WellFormed(done'[k], |t|) && out'[|out0| + k] == LabelOf(form, t, done'[k]) {
      if k < |done| { assert done'[k] == done[k] && out'[|out0| + k] == out[|out0| + k]; }
    }
  }

  lemma LabelsAll(form: LabelForm, t: string, done: seq<Match>, out0: seq<string>, out: seq<string>)
    requires LabelsSoFar(form, t, done, out0, out)
    ensures out == out0 + Labels(form, t, done)
  {
    var r := out0 + Labels(form, t, done);
    forall k | 0 <= k < |out| ensures out[k] == r[k] {
      if k < |out0| { assert out[k] == out[..|out0|][k]; }
    }
  }

  /** One turn of either loop: the numbers of the match, padded. */
  method LabelAt(form: LabelForm, t: string, x: Match) returns (lbl: string)
    requires WellFormed(x, |t|)
    ensures lbl == LabelOf(form, t, x)
  {
    var a := Pad4(Group(t, x.g1));
    if form == RangeForm {
      var b := Pad4(Group(t, x.g2));
      lbl := "[" + a + "]" + "-" + "[" + b + "]";
    } else {
      lbl := "[" + a + "]";
    }
  }

  /** A range label, fed to `addToken`, adds exactly the paragraphs between
      the two numbers its match read, and no figure. */
  lemma RangeLabelParas(t: string, k: nat)
    requires k < |All(ParaRangeTok, t)|
    ensures var m := All(ParaRangeTok, t)[k];
      ParagraphRefs.TokenParas(LabelOf(RangeForm, t, m)) == ParagraphRefs.Between(ParseInt(Group(t, m.g1)), ParseInt(Group(t, m.g2)))
      && ParagraphRefs.TokenFigs(LabelOf(RangeForm, t, m)) == {}
  {
    var m := All(ParaRangeTok, t)[k];
    AllFromMatchAt(ParaRangeTok, t, 0, k);
    var q := RangeBrackets(t, m.start);
    BracketDigits(t, m.start);
    BracketDigits(t, q);
    ParagraphRefs.PaddedPairParas(Group(t, m.g1), Group(t, m.g2));
  }

  /** A single label, fed to `addToken`, adds exactly the paragraph its
      match read, and no figure. */
  lemma SingleLabelParas(t: string, k: nat)
    requires k < |All(ParaTok, t)|
    ensures var m := All(ParaTok, t)[k];
      ParagraphRefs.TokenParas(LabelOf(SingleForm, t, m)) == {ParseInt(Group(t, m.g1))}
      && ParagraphRefs.TokenFigs(LabelOf(SingleForm, t, m)) == {}
  {
    var m := All(ParaTok, t)[k];
    AllFromMatchAt(ParaTok, t, 0, k);
    ParaTokAt(t, m.start);
    BracketDigits(t, m.start);
    ParagraphRefs.PaddedSingleParas(Group(t, m.g1));
  }

  /** The single label of the bracket at `i`, which the second loop
      visits. */
  lemma BracketLabelled(t: string, i: nat)
    requires i <= |t| && BracketAt(t, i).Some?
    ensures ParagraphRefs.BracketText(Padded(Group(t, BracketAt(t, i).value.g1))) in Labels(SingleForm, t, All(ParaTok, t))
  {
    BracketVisited(t, i);
    ParaTokAt(t, i);
    var all := All(ParaTok, t);
    var mm := MatchAt(ParaTok, t, i).value;
    var j :| 0 <= j < |all| && all[j] == mm;
    assert Labels(SingleForm, t, all)[j] == LabelOf(SingleForm, t, mm);
  }

  /** Both ends of every range are also emitted as single labels: the
      second loop visits every bracket, including those of the ranges. */
  lemma RangeEndsRepeated(t: string, k: nat)
    requires k < |All(ParaRangeTok, t)|
    ensures var m := All(ParaRangeTok, t)[k];
      ParagraphRefs.BracketText(Padded(Group(t, m.g1))) in Labels(SingleForm, t, All(ParaTok, t))
      && ParagraphRefs.BracketText(Padded(Group(t, m.g2))) in Labels(SingleForm, t, All(ParaTok, t))
  {
    var m := All(ParaRangeTok, t)[k];
    AllFromMatchAt(ParaRangeTok, t, 0, k);
    var q := RangeBrackets(t, m.start);
    BracketLabelled(t, m.start);
    BracketLabelled(t, q);
  }

  // ---------------------------------------------------------------
  // extractFigureTokens
  // ---------------------------------------------------------------

  /** The key of a figure reference: `図` and its digits as written. */
  function FigKey(t: string, m: Match): string
    requires WellFormed(m, |t|)
  {
    "図" + Group(t, m.g1)
  }

  function FigKeys(t: string, ms: seq<Match>): (r: seq<string>)
    requires AllWellFormed(ms, |t|)
    ensures |r| == |ms|
    ensures forall k :: 0 <= k < |ms| ==> r[k] == FigKey(t, ms[k])
  {
    seq(|ms|, k requires 0 <= k < |ms| => FigKey(t, ms[k]))
  }

  /** The tokens of a normalized text: one per distinct key, at its first
      occurrence. */
  function FigureTokensIn(t: string): seq<string> {
    ParagraphRefs.FigParts(UniqOf(FigKeys(t, All(FigureRef, t))))
  }

  /** The value `extractFigureTokens` returns. */
  function FigureTokensOf(noteText: string): seq<string> {
    FigureTokensIn(NormalizeText(noteText))
  }

  /** `extractFigureTokens`. */
  method ExtractFigureTokens(noteText: string) returns (out: seq<string>)
    ensures out == FigureTokensOf(noteText)
  {
    var t := NormalizeText(noteText);
    out := FigureLoop(FigureRef, t);
  }

  /** The `exec` loop of `extractFigureTokens` over `re`, with its `seen`
      table. */
  method FigureLoop(re: Pattern, t: string) returns (out: seq<string>)
    ensures out == ParagraphRefs.FigParts(UniqOf(FigKeys(t, All(re, t))))
  {
    out := [];
    var seen: set<string> := {};
    var pos := 0;
    ghost var done: seq<Match> := [];
    var m := FindFrom(re, t, 0);
    while m.Some?
      invariant pos <= |t|
      invariant m == FindFrom(re, t, pos)
      invariant done + AllFrom(re, t, pos) == All(re, t)
      invariant AllWellFormed(done, |t|)
      invariant out == ParagraphRefs.FigParts(UniqOf(FigKeys(t, done)))
      invariant forall k :: k in seen <==> k in UniqOf(FigKeys(t, done))
      decreases |t| - pos
    {
      var x := m.value;
      out, seen := FigureStep(t, x, out, seen, done);
      ExecStep(re, t, pos, done);
      done := done + [x];
      pos := x.end;
      m := FindFrom(re, t, pos);
    }
    assert done == All(re, t);
  }

  /** One turn of the loop: a key not seen before is recorded and its token
      pushed. */
  method FigureStep(t: string, x: Match, out: seq<string>, seen: set<string>, ghost done: seq<Match>)
    returns (out': seq<string>, seen': set<string>)
    requires AllWellFormed(done, |t|) && WellFormed(x, |t|)
    requires out == ParagraphRefs.FigParts(UniqOf(FigKeys(t, done)))
    requires forall k :: k in seen <==> k in UniqOf(FigKeys(t, done))
    ensures AllWellFormed(done + [x], |t|)
    ensures out' == ParagraphRefs.FigParts(UniqOf(FigKeys(t, done + [x])))
    ensures forall k :: k in seen' <==> k in UniqOf(FigKeys(t, done + [x]))
  {
    var key := "図" + Group(t, x.g1);
    ghost var ks := FigKeys(t, done);
    FigKeysSnoc(t, done, x);
    UniqSnoc(ks, key);
    if key in seen {
      out', seen' := out, seen;
    } else {
      seen' := seen + {key};
      out' := out + ["FIG:[" + key + "]"];
      FigPartsSnoc(UniqOf(ks), key);
    }
  }

  lemma FigKeysSnoc(t: string, done: seq<Match>, x: Match)
    requires AllWellFormed(done, |t|) && WellFormed(x, |t|)
    ensures AllWellFormed(done + [x], |t|)
    ensures FigKeys(t, done + [x]) == FigKeys(t, done) + [FigKey(t, x)]
  {
    assert forall k :: 0 <= k < |done| ==> (done + [x])[k] == done[k];
  }

  lemma FigPartsSnoc(ks: seq<string>, key: string)
    ensures ParagraphRefs.FigParts(ks + [key]) == ParagraphRefs.FigParts(ks) + [ParagraphRefs.FigPart(key)]
  {
    var a, b := ParagraphRefs.FigParts(ks + [key]), ParagraphRefs.FigParts(ks) + [ParagraphRefs.FigPart(key)];
    forall i | 0 <= i < |a| ensures a[i] == b[i] {
      if i < |ks| { assert (ks + [key])[i] == ks[i]; }
    }
  }

  /** `FIG:[...]` is injective. */
  lemma FigPartInjective(a: string, b: string)
    requires ParagraphRefs.FigPart(a) == ParagraphRefs.FigPart(b)
    ensures a == b
  {
    var fa := ParagraphRefs.FigPart(a);
    assert fa[5..|fa| - 1] == a;
    assert ParagraphRefs.FigPart(b)[5..|fa| - 1] == b;
  }

  /** Each figure key of the text is named by exactly one token and no
      token names a key the text lacks. */
  lemma FigureTokensProperties(t: string)
    ensures NoDuplicates(FigureTokensIn(t))
    ensures forall key :: ParagraphRefs.FigPart(key) in FigureTokensIn(t) <==> key in FigKeys(t, All(FigureRef, t))
  {
    var keys := FigKeys(t, All(FigureRef, t));
    UniqProperties(keys);
    FigPartsDistinct(UniqOf(keys));
    forall key ensures ParagraphRefs.FigPart(key) in FigureTokensIn(t) <==> key in keys {
      FigPartsMember(UniqOf(keys), key);
    }
  }

  lemma FigPartsDistinct(u: seq<string>)
    requires NoDuplicates(u)
    ensures NoDuplicates(ParagraphRefs.FigParts(u))
  {
    var r := ParagraphRefs.FigParts(u);
    forall i, j | 0 <= i < j < |r| ensures r[i] != r[j] {
      if r[i] == r[j] {
        FigPartInjective(u[i], u[j]);
      }
    }
  }

  lemma FigPartsMember(u: seq<string>, key: string)
    ensures ParagraphRefs.FigPart(key) in ParagraphRefs.FigParts(u) <==> key in u
  {
    var r := ParagraphRefs.FigParts(u);
    if ParagraphRefs.FigPart(key) in r {
      var i :| 0 <= i < |r| && r[i] == ParagraphRefs.FigPart(key);
      FigPartInjective(u[i], key);
    }
    if key in u {
      var i :| 0 <= i < |u| && u[i] == key;
      assert r[i] == ParagraphRefs.FigPart(key);
    }
  }

  /** Each key, as `addToken` input in its token form, adds exactly that
      label to the figure set and no paragraph. */
  lemma FigKeyToken(t: string, k: nat)
    requires k < |All(FigureRef, t)|
    ensures var key := FigKey(t, All(FigureRef, t)[k]);
      ParagraphRefs.TokenFigs(ParagraphRefs.FigPart(key)) == {key} && ParagraphRefs.TokenParas(ParagraphRefs.FigPart(key)) == {}
  {
    var m := All(FigureRef, t)[k];
    AllFromMatchAt(FigureRef, t, 0, k);
    KeyNumberDigits(t, m.start, "図");
    FigLabelToken(Group(t, m.g1));
  }

  /** `FIG:[図digits]` is read as the figure `図digits`. */
  lemma FigLabelToken(d: string)
    requires AllDigits(d)
    ensures ParagraphRefs.TokenFigs(ParagraphRefs.FigPart("図" + d)) == {"図" + d}
    ensures ParagraphRefs.TokenParas(ParagraphRefs.FigPart("図" + d)) == {}
  {
    var key := "図" + d;
    forall i | 0 <= i < |key| ensures !IsLineTerminator(key[i]) {
      if i > 0 { assert key[i] == d[i - 1]; }
    }
    ParagraphRefs.FigTokenForm(key);
    var tok := ParagraphRefs.FigPart(key);
    assert tok[0] == 'F' && tok[|tok| - 1] == ']';
    TrimNoSpace(tok);
  }

  // ---------------------------------------------------------------
  // extractParagraphRefsByCitation
  // ---------------------------------------------------------------

  /** A citation marker `引用文献N`: where it starts and its number. */
  datatype Mark = Mark(idx: nat, refNo: nat)

  function MarkOf(t: string, m: Match): Mark
    requires WellFormed(m, |t|)
  {
    Mark(m.start, ParseInt(Group(t, m.g1)))
  }

  function MarksOf(t: string, ms: seq<Match>): (r: seq<Mark>)
    requires AllWellFormed(ms, |t|)
    ensures |r| == |ms|
    ensures forall k :: 0 <= k < |ms| ==> r[k] == MarkOf(t, ms[k])
  {
    seq(|ms|, k requires 0 <= k < |ms| => MarkOf(t, ms[k]))
  }

  /** The tokens a piece of text contributes: its paragraph labels, then its
      figure tokens. */
  function CiteTokens(s: string): seq<string> {
    ParagraphStringsOf(s) + FigureTokensOf(s)
  }

  /** Where marker `i`'s segment ends: at the next marker, or at the end of
      the text. */
  function SegmentEnd(t: string, marks: seq<Mark>, i: nat): nat
    requires i < |marks|
  {
    if i + 1 < |marks| then marks[i + 1].idx else |t|
  }

  function Segment(t: string, marks: seq<Mark>, i: nat): string
    requires i < |marks|
  {
    Slice(t, marks[i].idx, SegmentEnd(t, marks, i))
  }

  /** The text before the first marker. */
  function Prologue(t: string, marks: seq<Mark>): string
    requires |marks| > 0
  {
    Slice(t, 0, marks[0].idx)
  }

  /** The result before the loop: the prologue's tokens under key 0 when it
      has any. */
  function PrologueMap(t: string, marks: seq<Mark>): map<nat, seq<string>>
    requires |marks| > 0
  {
    var pre := Prologue(t, marks);
    if |ParagraphStringsOf(pre)| > 0 || |FigureTokensOf(pre)| > 0 then map[0 := CiteTokens(pre)] else map[]
  }

  /** The markers' numbers. */
  function RefNos(marks: seq<Mark>): (r: seq<nat>)
    ensures |r| == |marks| && forall i :: 0 <= i < |marks| ==> r[i] == marks[i].refNo
  {
    seq(|marks|, i requires 0 <= i < |marks| => marks[i].refNo)
  }

  /** The tokens of each marker's segment. */
  function SegmentLists(t: string, marks: seq<Mark>): (r: seq<seq<string>>)
    ensures |r| == |marks| && forall i :: 0 <= i < |marks| ==> r[i] == CiteTokens(Segment(t, marks, i))
  {
    seq(|marks|, i requires 0 <= i < |marks| => CiteTokens(Segment(t, marks, i)))
  }

  /** The result after the first `n` markers, numbered `nos` with segment
      tokens `segs`: each appends its tokens to its number's list, creating
      the list when absent. */
  function Attributed(nos: seq<nat>, segs: seq<seq<string>>, n: nat, init: map<nat, seq<string>>): map<nat, seq<string>>
    requires n <= |nos| == |segs|
  {
    if n == 0 then init
    else Appended(Attributed(nos, segs, n - 1, init), nos[n - 1], segs[n - 1])
  }

  /** `out[no]` extended by `tokens`, an absent list counting as empty. */
  function Appended(out: map<nat, seq<string>>, no: nat, tokens: seq<string>): map<nat, seq<string>> {
    out[no := (if no in out then out[no] else []) + tokens]
  }

  /** The attribution of a normalized text. */
  function RefsByCitationIn(t: string): map<nat, seq<string>> {
    var marks := MarksOf(t, All(CiteMarker, t));
    if |marks| == 0 then
      var all := CiteTokens(t);
      if |all| > 0 then map[0 := all] else map[]
    else Attributed(RefNos(marks), SegmentLists(t, marks), |marks|, PrologueMap(t, marks))
  }

  /** The value `extractParagraphRefsByCitation` returns. */
  function RefsByCitationOf(noteText: string): map<nat, seq<string>> {
    RefsByCitationIn(NormalizeText(noteText))
  }

  /** `extractParagraphRefsByCitation`. */
  method ExtractParagraphRefsByCitation(noteText: string) returns (out: map<nat, seq<string>>)
    ensures out == RefsByCitationOf(noteText)
  {
    var t := NormalizeText(noteText);
    var marks := CollectMarks(CiteMarker, t);
    if |marks| == 0 {
      out := WholeTextMap(t);
      return;
    }
    out := PrologueTokens(t, marks);
    out := AttributeSegments(t, marks, out);
  }

  /** Without markers: every token under key 0, when there is any. */
  method WholeTextMap(t: string) returns (out: map<nat, seq<string>>)
    ensures out == if |CiteTokens(t)| > 0 then map[0 := CiteTokens(t)] else map[]
  {
    out := map[];
    var paras := ExtractParagraphStrings(t);
    var figs := ExtractFigureTokens(t);
    var all := paras + figs;
    if |all| > 0 {
      out := out[0 := all];
    }
  }

  /** The prologue's tokens under key 0, when it has any. */
  method PrologueTokens(t: string, marks: seq<Mark>) returns (out: map<nat, seq<string>>)
    requires |marks| > 0
    ensures out == PrologueMap(t, marks)
  {
    out := map[];
    var prolog := Slice(t, 0, marks[0].idx);
    var preParas := ExtractParagraphStrings(prolog);
    var preFigs := ExtractFigureTokens(prolog);
    if |preParas| > 0 || |preFigs| > 0 {
      out := out[0 := preParas + preFigs];
    }
  }

  /** The loop over the markers. */
  method AttributeSegments(t: string, marks: seq<Mark>, init: map<nat, seq<string>>) returns (out: map<nat, seq<string>>)
    ensures out == Attributed(RefNos(marks), SegmentLists(t, marks), |marks|, init)
  {
    out := init;
    for i := 0 to |marks|
      invariant out == Attributed(RefNos(marks), SegmentLists(t, marks), i, init)
    {
      out := AttributeSegment(t, marks, i, out);
    }
  }

  /** One turn: marker `i`'s segment's tokens appended to its number's
      list. */
  method AttributeSegment(t: string, marks: seq<Mark>, i: nat, out: map<nat, seq<string>>) returns (out': map<nat, seq<string>>)
    requires i < |marks|
    ensures out' == Appended(out, RefNos(marks)[i], SegmentLists(t, marks)[i])
  {
    var start := marks[i].idx;
    var end := if i + 1 < |marks| then marks[i + 1].idx else |t|;
    var segment := Slice(t, start, end);
    var refNo := marks[i].refNo;
    var tokens := SegmentTokens(segment);
    assert segment == Segment(t, marks, i);
    out' := out;
    if refNo !in out' {
      out' := out'[refNo := []];
    }
    AppendedStep(out, out', refNo, tokens);
    out' := out'[refNo := out'[refNo] + tokens];
  }

  lemma AppendedStep(out: map<nat, seq<string>>, created: map<nat, seq<string>>, no: nat, tokens: seq<string>)
    requires created == if no in out then out else out[no := []]
    ensures no in created && created[no := created[no] + tokens] == Appended(out, no, tokens)
  {
  }

  /** `segParas.concat(segFigs)`. */
  method SegmentTokens(segment: string) returns (tokens: seq<string>)
    ensures tokens == CiteTokens(segment)
  {
    var segParas := ExtractParagraphStrings(segment);
    var segFigs := ExtractFigureTokens(segment);
    tokens := segParas + segFigs;
  }

  /** The `exec` loop of `extractParagraphRefsByCitation` over `re`,
      recording each marker. */
  method CollectMarks(re: Pattern, t: string) returns (marks: seq<Mark>)
    ensures marks == MarksOf(t, All(re, t))
  {
    marks := [];
    var pos := 0;
    ghost var done: seq<Match> := [];
    var m := FindFrom(re, t, 0);
    while m.Some?
      invariant pos <= |t|
      invariant m == FindFrom(re, t, pos)
      invariant done + AllFrom(re, t, pos) == All(re, t)
      invariant MarksSoFar(t, done, marks)
      decreases |t| - pos
    {
      var x := m.value;
      var mark := Mark(x.start, ParseInt(Group(t, x.g1)));
      MarksStep(t, done, marks, x, mark);
      ExecStep(re, t, pos, done);
      marks := marks + [mark];
      done := done + [x];
      pos := x.end;
      m := FindFrom(re, t, pos);
    }
    assert done == All(re, t);
  }

  predicate MarksSoFar(t: string, done: seq<Match>, marks: seq<Mark>) {
    AllWellFormed(done, |t|) && |marks| == |done| && forall k :: 0 <= k < |done| ==> marks[k] == MarkOf(t, done[k])
  }

  lemma MarksStep(t: string, done: seq<Match>, marks: seq<Mark>, x: Match, mark: Mark)
    requires MarksSoFar(t, done, marks)
    requires WellFormed(x, |t|) && mark == MarkOf(t, x)
    ensures MarksSoFar(t, done + [x], marks + [mark])
  {
    var done', marks' := done + [x], marks + [mark];
    forall k | 0 <= k < |done'| ensures WellFormed(done'[k], |t|) && marks'[k] == MarkOf(t, done'[k]) {
      if k < |done| { assert done'[k] == done[k] && marks'[k] == marks[k]; }
    }
  }

  /** The tokens of the segments, among the first `n`, whose marker is
      numbered `no`, in marker order. */
  function TokensFor(nos: seq<nat>, segs: seq<seq<string>>, n: nat, no: nat): seq<string>
    requires n <= |nos| == |segs|
  {
    if n == 0 then []
    else TokensFor(nos, segs, n - 1, no) + (if nos[n - 1] == no then segs[n - 1] else [])
  }

  /** Some marker among the first `n` is numbered `no`. */
  predicate Numbered(nos: seq<nat>, n: nat, no: nat)
    requires n <= |nos|
  {
    exists i :: 0 <= i < n && nos[i] == no
  }

  lemma {:induction false} TokensForUnnumbered(nos: seq<nat>, segs: seq<seq<string>>, n: nat, no: nat)
    requires n <= |nos| == |segs| && !Numbered(nos, n, no)
    ensures TokensFor(nos, segs, n, no) == []
  {
    if n > 0 {
      NumberedSnoc(nos, n, no);
      TokensForUnnumbered(nos, segs, n - 1, no);
    }
  }

  lemma NumberedSnoc(nos: seq<nat>, n: nat, no: nat)
    requires 0 < n <= |nos|
    ensures Numbered(nos, n, no) <==> Numbered(nos, n - 1, no) || nos[n - 1] == no
  {
    if Numbered(nos, n, no) && nos[n - 1] != no {
      var i :| 0 <= i < n && nos[i] == no;
      assert 0 <= i < n - 1;
    }
    if Numbered(nos, n - 1, no) {
      var i :| 0 <= i < n - 1 && nos[i] == no;
      assert 0 <= i < n;
    }
    if nos[n - 1] == no {
      assert 0 <= n - 1 < n;
    }
  }

  /** Key by key, the loop's result: a number is a key exactly when it was
      one before the loop or some marker carries it, and its list is what
      it held before followed by the tokens of its own segments. */
  lemma {:induction false} AttributedPerKey(nos: seq<nat>, segs: seq<seq<string>>, n: nat, init: map<nat, seq<string>>, no: nat)
    requires n <= |nos| == |segs|
    ensures no in Attributed(nos, segs, n, init) <==> no in init || Numbered(nos, n, no)
    ensures no in Attributed(nos, segs, n, init) ==>
      Attributed(nos, segs, n, init)[no] == (if no in init then init[no] else []) + TokensFor(nos, segs, n, no)
  {
    if n > 0 {
      AttributedPerKey(nos, segs, n - 1, init, no);
      NumberedSnoc(nos, n, no);
      var prev := Attributed(nos, segs, n - 1, init);
      if nos[n - 1] == no && no !in prev {
        TokensForUnnumbered(nos, segs, n - 1, no);
      }
      AttributedStep(prev, init, no, nos[n - 1], TokensFor(nos, segs, n - 1, no), segs[n - 1]);
    }
  }

  /** One marker's effect on key `no`, given the key's state before it. */
  lemma AttributedStep(prev: map<nat, seq<string>>, init: map<nat, seq<string>>, no: nat, refNo: nat, before: seq<string>, seg: seq<string>)
    requires no in prev ==> prev[no] == (if no in init then init[no] else []) + before
    requires refNo == no && no !in prev ==> before == [] && no !in init
    ensures var next := Appended(prev, refNo, seg);
      var after := before + (if refNo == no then seg else []);
      (no in next <==> no in prev || refNo == no) && (no in next ==> next[no] == (if no in init then init[no] else []) + after)
  {
    var base := if no in init then init[no] else [];
    if refNo == no && no in prev {
      assert (base + before) + seg == base + (before + seg);
    }
    if refNo != no {
      assert before + [] == before;
    }
  }

  /** Without any `引用文献N` marker, every token goes under key 0, and key 0
      exists only when there is a token. */
  lemma RefsWithoutMarkers(t: string, no: nat)
    requires |All(CiteMarker, t)| == 0
    ensures no in RefsByCitationIn(t) <==> no == 0 && |CiteTokens(t)| > 0
    ensures no in RefsByCitationIn(t) ==> RefsByCitationIn(t)[no] == CiteTokens(t)
  {
  }

  /** With markers, every marker's number is a key, even when its segments
      hold no token; key 0 is one besides only when the prologue has tokens
      (or a marker carries 0); and each key holds the tokens of its own
      segments in order, after the prologue's for key 0. */
  lemma RefsWithMarkers(t: string, no: nat)
    requires |All(CiteMarker, t)| > 0
    ensures var marks := MarksOf(t, All(CiteMarker, t));
      no in RefsByCitationIn(t) <==> (no == 0 && |CiteTokens(Prologue(t, marks))| > 0) || Numbered(RefNos(marks), |marks|, no)
    ensures var marks := MarksOf(t, All(CiteMarker, t));
      no in RefsByCitationIn(t) ==>
        RefsByCitationIn(t)[no] == (if no == 0 then CiteTokens(Prologue(t, marks)) else []) + TokensFor(RefNos(marks), SegmentLists(t, marks), |marks|, no)
  {
    var marks := MarksOf(t, All(CiteMarker, t));
    var init := PrologueMap(t, marks);
    assert RefsByCitationIn(t) == Attributed(RefNos(marks), SegmentLists(t, marks), |marks|, init);
    AttributedPerKey(RefNos(marks), SegmentLists(t, marks), |marks|, init, no);
    PrologueMapKeys(t, marks, no);
  }

  lemma PrologueMapKeys(t: string, marks: seq<Mark>, no: nat)
    requires |marks| > 0
    ensures no in PrologueMap(t, marks) <==> no == 0 && |CiteTokens(Prologue(t, marks))| > 0
    ensures no in PrologueMap(t, marks) ==> PrologueMap(t, marks)[no] == CiteTokens(Prologue(t, marks))
  {
  }

  // Segments

  /** The segments from marker `i` on, put back together. */
  function SegmentsFrom(t: string, marks: seq<Mark>, i: nat): string
    decreases |marks| - i
  {
    if i >= |marks| then "" else Segment(t, marks, i) + SegmentsFrom(t, marks, i + 1)
  }

  /** Markers inside a text of length `n`, in order. */
  predicate MarksOrdered(marks: seq<Mark>, n: nat) {
    (forall k :: 0 <= k < |marks| ==> marks[k].idx <= n)
    && forall k :: 0 <= k < |marks| - 1 ==> marks[k].idx <= marks[k + 1].idx
  }

  lemma CiteMarksOrdered(t: string)
    ensures MarksOrdered(MarksOf(t, All(CiteMarker, t)), |t|)
  {
    var ms := All(CiteMarker, t);
    var marks := MarksOf(t, ms);
    AllFromOrdered(CiteMarker, t, 0);
    forall k | 0 <= k < |marks| - 1 ensures marks[k].idx <= marks[k + 1].idx {
      assert marks[k].idx == ms[k].start && marks[k + 1].idx == ms[k + 1].start;
    }
  }

  lemma {:induction false} SegmentsTile(t: string, marks: seq<Mark>, i: nat)
    requires MarksOrdered(marks, |t|) && i < |marks|
    ensures SegmentsFrom(t, marks, i) == t[marks[i].idx..]
    decreases |marks| - i
  {
    var a := marks[i].idx;
    if i + 1 < |marks| {
      var b := marks[i + 1].idx;
      assert Segment(t, marks, i) == t[a..b];
      SegmentsTile(t, marks, i + 1);
      SuffixSplit(t, a, b);
    } else {
      assert Segment(t, marks, i) == t[a..];
    }
  }

  /** The prologue and the segments tile the text: every character is read
      by exactly one of them. */
  lemma CitationSegmentsTile(t: string)
    requires |All(CiteMarker, t)| > 0
    ensures var marks := MarksOf(t, All(CiteMarker, t)); Prologue(t, marks) + SegmentsFrom(t, marks, 0) == t
  {
    var marks := MarksOf(t, All(CiteMarker, t));
    CiteMarksOrdered(t);
    PrologueTile(t, marks);
  }

  lemma PrologueTile(t: string, marks: seq<Mark>)
    requires MarksOrdered(marks, |t|) && |marks| > 0
    ensures Prologue(t, marks) + SegmentsFrom(t, marks, 0) == t
  {
    SegmentsTile(t, marks, 0);
    PrefixSuffix(t, marks[0].idx);
  }

  // ---------------------------------------------------------------
  // extractOpenClaims
  // ---------------------------------------------------------------

  /** The heading of the section listing the claims with no reason for
      refusal. */
  const OpenClaimsHeading := "拒絶の理由を発見しない請求項"

  /** How many characters from the heading on are searched for the list. */
  const OpenClaimsWindow := 1200

  /** The open claims of a normalized text: none without the heading; with
      it, the numbers of the first claim list in the window that starts at
      the heading, and the empty list when the window holds none. */
  function OpenClaimsIn(t: string): (r: Option<seq<nat>>)
    ensures r.None? <==> !Contains(t, OpenClaimsHeading)
    ensures r.Some? ==> var idx := IndexOf(t, OpenClaimsHeading).value;
      var window := Slice(t, idx, idx + OpenClaimsWindow);
      HasAt(t, idx, OpenClaimsHeading) && |window| <= OpenClaimsWindow
      && (Find(OpenList, window).None? ==> r.value == [])
      && (Find(OpenList, window).Some? ==> r.value == NumberRangesOf(Group(window, Find(OpenList, window).value.g1)))
  {
    match IndexOf(t, OpenClaimsHeading)
    case None => None
    case Some(idx) =>
      var window := Slice(t, idx, idx + OpenClaimsWindow);
      match Find(OpenList, window)
      case None => Some([])
      case Some(m) => Some(NumberRangesOf(Group(window, m.g1)))
  }

  /** `extractOpenClaims` (`null` is `None`). */
  function OpenClaimsOf(text: string): Option<seq<nat>> {
    OpenClaimsIn(NormalizeText(text))
  }

  /** The repository's test of a text without the section. */
  lemma OpenClaimsAbsentExample(text: string)
    requires text == "何もない文章"
    ensures OpenClaimsOf(text) == None
  {
    assert |NormalizeText(text)| == 6;
  }
}
