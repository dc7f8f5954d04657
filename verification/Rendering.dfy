/**
 Budgeted rendering: a two-pass greedy packer over titled sections, join-length arithmetic and a truncation
 suffix. The specification packs tagged items, so that where each rendered line comes from can be stated.
 */
module Rendering {
  import opened Text

  const SUFFIX := "... [deterministically compacted]"
  const MAX_RENDERED_LINE_CHARS := 360

  datatype Section = Section(heading: string, lines: seq<string>, minimumLines: nat)

  // ---------------------------------------------------------------- joining and fitting

  function Join(lines: seq<string>): string {
    if lines == [] then [] else if |lines| == 1 then lines[0] else Join(lines[..|lines| - 1]) + "\n" + lines[|lines| - 1]
  }

  /** Total length of the lines, each with the separator after it. */
  function Size(lines: seq<string>): nat {
    if lines == [] then 0 else Size(lines[..|lines| - 1]) + |lines[|lines| - 1]| + 1
  }

  lemma {:induction false} JoinLength(lines: seq<string>)
    ensures |Join(lines)| == if lines == [] then 0 else Size(lines) - 1
    decreases |lines|
  {
    if |lines| == 1 {
      assert lines[..0] == [];
    } else if lines != [] {
      JoinLength(lines[..|lines| - 1]);
    }
  }

  lemma {:induction false} SizeAdds(a: seq<string>, b: seq<string>)
    ensures Size(a + b) == Size(a) + Size(b)
    decreases |b|
  {
    if b == [] {
      assert a + b == a;
    } else {
      SizeAdds(a, b[..|b| - 1]);
      assert (a + b)[..|a + b| - 1] == a + b[..|b| - 1];
    }
  }

  function Max(a: int, b: int): int { if a > b then a else b }

  /** The source's estimate of whether `additions` still fit after `existing`. */
  predicate Fits(existing: seq<string>, additions: seq<string>, maxChars: nat) {
    (Size(existing) - |existing|) + Max(0, |existing| - 1) + Size(additions) <= maxChars
  }

  lemma {:induction false} SizeCovers(lines: seq<string>)
    ensures Size(lines) >= |lines|
    decreases |lines|
  {
    if lines != [] { SizeCovers(lines[..|lines| - 1]); }
  }

  /** What is judged to fit does fit once joined. */
  lemma FitsIsSound(existing: seq<string>, additions: seq<string>, maxChars: nat)
    requires Fits(existing, additions, maxChars)
    ensures |Join(existing + additions)| <= maxChars
  {
    JoinLength(existing + additions);
    SizeAdds(existing, additions);
  }

  /** The estimate is exact after a first line, and one character too high before it. */
  lemma FitsIff(existing: seq<string>, additions: seq<string>, maxChars: nat)
    requires additions != []
    ensures Fits(existing, additions, maxChars) <==>
      |Join(existing + additions)| + (if existing == [] then 1 else 0) <= maxChars
  {
    JoinLength(existing + additions);
    SizeAdds(existing, additions);
  }

  // ---------------------------------------------------------------- the suffix

  predicate EndsWith(s: string, end: string) {
    |s| >= |end| && s[|s| - |end|..] == end
  }

  function Take(s: string, n: int): string { if n >= |s| then s else if n <= 0 then [] else s[..n] }

  function Available(maxChars: nat): nat { Max(0, maxChars - |SUFFIX| - 1) }

  function AppendCompactionSuffix(content: string, maxChars: nat): string {
    if EndsWith(content, SUFFIX) then content
    else
      var prefix := TrimEnd(Take(content, Available(maxChars)));
      if prefix == [] then Take(SUFFIX, maxChars) else prefix + "\n" + SUFFIX
  }

  /** The suffixed text exceeds the budget exactly when the text was too long and already carried the suffix. */
  lemma SuffixFitsIff(content: string, maxChars: nat)
    ensures |AppendCompactionSuffix(content, maxChars)| <= maxChars <==> !(EndsWith(content, SUFFIX) && |content| > maxChars)
  {
  }

  /** The whole text, up to trailing white space, followed by the suffix. */
  function WithSuffix(content: string): string { TrimEnd(content) + ("\n" + SUFFIX) }

  lemma CancelRight(a: string, b: string, c: string)
    requires a + c == b + c
    ensures a == b
  {
    assert |a| == |b|;
    assert a == (a + c)[..|a|] && b == (b + c)[..|b|];
  }

  /** A text is trimmed to one result only. */
  lemma {:induction false} TrimEndIsUnique(s: string, e: string)
    requires e <= s && (e == [] || !IsSpace(e[|e| - 1])) && IsBlank(s[|e|..])
    ensures TrimEnd(s) == e
    decreases |s|
  {
    if |s| > |e| {
      assert s[|e|..][|s| - |e| - 1] in s[|e|..];
      assert s[..|s| - 1][|e|..] == s[|e|..][..|s| - |e| - 1];
      TrimEndIsUnique(s[..|s| - 1], e);
    }
  }

  /** Cutting a text behind its last character that is not white space, and only there, leaves it the same once trimmed. */
  lemma TrimTakenIff(s: string, n: nat)
    ensures TrimEnd(Take(s, n)) == TrimEnd(s) <==> |TrimEnd(s)| <= n
  {
    var e := TrimEnd(s);
    if |e| <= n {
      assert Take(s, n)[|e|..] <= s[|e|..];
      TrimEndIsUnique(Take(s, n), e);
    }
  }

  /** A text that does not carry the suffix yet loses nothing but trailing white space exactly when it leaves room for
      the suffix, its own trailing white space not counted. */
  lemma SuffixKeepsIff(content: string, maxChars: nat)
    requires !EndsWith(content, SUFFIX) && !IsBlank(content)
    ensures AppendCompactionSuffix(content, maxChars) == WithSuffix(content) <==> |TrimEnd(content)| <= Available(maxChars)
  {
    AppendShape(content, maxChars);
    var prefix := TrimEnd(Take(content, Available(maxChars)));
    var r := AppendCompactionSuffix(content, maxChars);
    SuffixedTaken(content, prefix, r);
    TrimTakenIff(content, Available(maxChars));
  }

  lemma AppendShape(content: string, maxChars: nat)
    requires !EndsWith(content, SUFFIX)
    ensures var prefix, r := TrimEnd(Take(content, Available(maxChars))), AppendCompactionSuffix(content, maxChars);
            if prefix == [] then |r| <= |SUFFIX| else r == prefix + "\n" + SUFFIX
  {
  }

  lemma SuffixedTaken(content: string, prefix: string, r: string)
    requires TrimEnd(content) != []
    requires if prefix == [] then |r| <= |SUFFIX| else r == prefix + "\n" + SUFFIX
    ensures r == WithSuffix(content) <==> TrimEnd(content) == prefix
  {
    if prefix == [] {
      assert |WithSuffix(content)| > |SUFFIX|;
    } else {
      assert r == prefix + ("\n" + SUFFIX);
      if r == WithSuffix(content) { CancelRight(prefix, TrimEnd(content), "\n" + SUFFIX); }
    }
  }

  // ---------------------------------------------------------------- packing

  /** Where a rendered line comes from. */
  datatype Item = HeaderLine(i: nat) | Blank(s: nat) | Heading(s: nat) | Line(s: nat, k: nat)

  datatype Packed = Packed(items: seq<Item>, counts: seq<nat>)

  function TextOf(header: seq<string>, sections: seq<Section>, x: Item): string {
    match x
    case HeaderLine(i) => if i < |header| then header[i] else ""
    case Blank(_) => ""
    case Heading(s) => if s < |sections| then sections[s].heading else ""
    case Line(s, k) => if s < |sections| && k < |sections[s].lines| then sections[s].lines[k] else ""
  }

  function Texts(header: seq<string>, sections: seq<Section>, items: seq<Item>): (r: seq<string>)
    ensures |r| == |items| && forall j :: 0 <= j < |items| ==> r[j] == TextOf(header, sections, items[j])
  {
    seq(|items|, j requires 0 <= j < |items| => TextOf(header, sections, items[j]))
  }

  /** The lines `from..to` of a section. */
  function LineItems(s: nat, from: nat, to: nat): (r: seq<Item>)
    requires from <= to
    ensures |r| == to - from && forall j :: 0 <= j < |r| ==> r[j] == Line(s, from + j)
  {
    seq(to - from, j requires 0 <= j < to - from => Line(s, from + j))
  }

  /** A section's blank line, heading and first `n` lines. */
  function Block(s: nat, n: nat): (r: seq<Item>)
    ensures |r| == n + 2
  {
    [Blank(s), Heading(s)] + LineItems(s, 0, n)
  }

  function FitsItems(header: seq<string>, sections: seq<Section>, items: seq<Item>, additions: seq<Item>, budget: nat): bool {
    Fits(Texts(header, sections, items), Texts(header, sections, additions), budget)
  }

  /** The minimum of one section, if it fits. */
  function Give(header: seq<string>, sections: seq<Section>, budget: nat, s: nat, p: Packed): Packed
    requires s < |sections|
  {
    var minimum := if sections[s].minimumLines < |sections[s].lines| then sections[s].minimumLines else |sections[s].lines|;
    if minimum > 0 && FitsItems(header, sections, p.items, Block(s, minimum), budget)
    then Packed(p.items + Block(s, minimum), p.counts + [minimum])
    else p.(counts := p.counts + [0])
  }

  /** The first pass gives every section its minimum if that fits. */
  function FirstPass(header: seq<string>, sections: seq<Section>, budget: nat, s: nat, p: Packed): (r: Packed)
    requires |p.counts| == s <= |sections|
    ensures |r.counts| == |sections|
    decreases |sections| - s
  {
    if s == |sections| then p else FirstPass(header, sections, budget, s + 1, Give(header, sections, budget, s, p))
  }

  /** Further lines of a section that already has its heading. */
  function Extend(header: seq<string>, sections: seq<Section>, budget: nat, s: nat, count: nat, items: seq<Item>): (nat, seq<Item>)
    requires s < |sections|
    decreases |sections[s].lines| - count
  {
    if count < |sections[s].lines| && FitsItems(header, sections, items, [Line(s, count)], budget)
    then Extend(header, sections, budget, s, count + 1, items + [Line(s, count)])
    else (count, items)
  }

  /** The second pass opens sections that have no line yet and fills each as far as it goes. */
  function SecondPass(header: seq<string>, sections: seq<Section>, budget: nat, s: nat, p: Packed): (r: Packed)
    requires |p.counts| == |sections|
    ensures |r.counts| == |sections|
    decreases |sections| - s
  {
    if s >= |sections| then p
    else SecondPass(header, sections, budget, s + 1, Filled(header, sections, budget, s, p))
  }

  function Filled(header: seq<string>, sections: seq<Section>, budget: nat, s: nat, p: Packed): (r: Packed)
    requires |p.counts| == |sections| && s < |sections|
    ensures |r.counts| == |sections|
  {
    var (count, items) := Fill(header, sections, budget, s, p.counts[s], p.items);
    Packed(items, p.counts[s := count])
  }

  /** The second pass over one section. */
  function Fill(header: seq<string>, sections: seq<Section>, budget: nat, s: nat, count: nat, items: seq<Item>): (nat, seq<Item>)
    requires s < |sections|
  {
    if count == 0 && sections[s].lines != [] then
      if FitsItems(header, sections, items, Block(s, 1), budget)
      then Extend(header, sections, budget, s, 1, items + Block(s, 1))
      else (0, items)
    else Extend(header, sections, budget, s, count, items)
  }

  function HeaderItems(n: nat): (r: seq<Item>)
    ensures |r| == n && forall j :: 0 <= j < n ==> r[j] == HeaderLine(j)
  {
    seq(n, j requires 0 <= j < n => HeaderLine(j))
  }

  function Pack(header: seq<string>, sections: seq<Section>, budget: nat): (r: Packed)
    ensures |r.counts| == |sections|
  {
    SecondPass(header, sections, budget, 0, FirstPass(header, sections, budget, 0, Packed(HeaderItems(|header|), [])))
  }

  function Omitted(sections: seq<Section>, counts: seq<nat>): int
    requires |counts| == |sections|
  {
    if sections == [] then 0
    else Omitted(sections[..|sections| - 1], counts[..|sections| - 1]) + |sections[|sections| - 1].lines| - counts[|sections| - 1]
  }

  // ---------------------------------------------------------------- what a packing looks like

  /** The line numbers of section `s` in rendering order. */
  function LinesOf(items: seq<Item>, s: nat): seq<nat> {
    if items == [] then []
    else
      var last := items[|items| - 1];
      LinesOf(items[..|items| - 1], s) + (if last.Line? && last.s == s then [last.k] else [])
  }

  function HeadingsOf(items: seq<Item>, s: nat): nat {
    if items == [] then 0
    else HeadingsOf(items[..|items| - 1], s) + (if items[|items| - 1] == Heading(s) then 1 else 0)
  }

  function UpTo(n: nat): (r: seq<nat>)
    ensures |r| == n && forall j :: 0 <= j < n ==> r[j] == j
  {
    seq(n, j requires 0 <= j < n => j)
  }

  lemma {:induction false} LinesOfAdds(a: seq<Item>, b: seq<Item>, s: nat)
    ensures LinesOf(a + b, s) == LinesOf(a, s) + LinesOf(b, s)
    ensures HeadingsOf(a + b, s) == HeadingsOf(a, s) + HeadingsOf(b, s)
    decreases |b|
  {
    if b == [] {
      assert a + b == a;
    } else {
      LinesOfAdds(a, b[..|b| - 1], s);
      assert (a + b)[..|a + b| - 1] == a + b[..|b| - 1];
    }
  }

  lemma {:induction false} LinesOfNone(items: seq<Item>, s: nat)
    requires forall j :: 0 <= j < |items| ==> !(items[j].Line? && items[j].s == s) && items[j] != Heading(s)
    ensures LinesOf(items, s) == [] && HeadingsOf(items, s) == 0
    decreases |items|
  {
    if items != [] { LinesOfNone(items[..|items| - 1], s); }
  }

  lemma {:induction false} LinesOfLineItems(s: nat, n: nat)
    ensures LinesOf(LineItems(s, 0, n), s) == UpTo(n) && HeadingsOf(LineItems(s, 0, n), s) == 0
    decreases n
  {
    if n > 0 {
      assert LineItems(s, 0, n)[..n - 1] == LineItems(s, 0, n - 1);
      LinesOfLineItems(s, n - 1);
      assert UpTo(n - 1) + [n - 1] == UpTo(n);
    }
  }

  lemma BlockLines(s: nat, n: nat, u: nat)
    ensures LinesOf(Block(s, n), u) == (if u == s then UpTo(n) else [])
    ensures HeadingsOf(Block(s, n), u) == (if u == s then 1 else 0)
  {
    if u == s {
      LinesOfAdds([Blank(s), Heading(s)], LineItems(s, 0, n), s);
      LinesOfLineItems(s, n);
      assert [Blank(s), Heading(s)][..1] == [Blank(s)];
      LinesOfNone([Blank(s)], s);
      assert LinesOf([Blank(s), Heading(s)], s) == [] && HeadingsOf([Blank(s), Heading(s)], s) == 1;
    } else {
      LinesOfNone(Block(s, n), u);
    }
  }

  /** Section `s` shows its heading once and its first `count` lines in order, or nothing at all. */
  ghost predicate ShowsPrefix(items: seq<Item>, s: nat, count: nat) {
    LinesOf(items, s) == UpTo(count) && HeadingsOf(items, s) == (if count > 0 then 1 else 0)
  }

  /** The first pass has settled sections below `s` and shows nothing of the rest. */
  ghost predicate Laid(header: seq<string>, sections: seq<Section>, budget: nat, items: seq<Item>, counts: seq<nat>) {
    && |counts| <= |sections|
    && (forall u :: 0 <= u < |counts| ==> counts[u] <= |sections[u].lines| && ShowsPrefix(items, u, counts[u]))
    && (forall u: nat :: |counts| <= u ==> LinesOf(items, u) == [] && HeadingsOf(items, u) == 0)
    && |items| >= |header| && (forall j :: 0 <= j < |header| ==> items[j] == HeaderLine(j))
    && (|items| > |header| ==> |Join(Texts(header, sections, items))| <= budget)
  }

  lemma TextsAdd(header: seq<string>, sections: seq<Section>, a: seq<Item>, b: seq<Item>)
    ensures Texts(header, sections, a + b) == Texts(header, sections, a) + Texts(header, sections, b)
  {
  }

  lemma AddKeepsLaid(header: seq<string>, sections: seq<Section>, budget: nat, items: seq<Item>, additions: seq<Item>,
                     counts: seq<nat>, counts': seq<nat>)
    requires Laid(header, sections, budget, items, counts) && additions != []
    requires FitsItems(header, sections, items, additions, budget)
    requires |counts| <= |counts'| <= |sections|
    requires forall u :: 0 <= u < |counts'| ==> counts'[u] <= |sections[u].lines| && ShowsPrefix(items + additions, u, counts'[u])
    requires forall u: nat :: |counts'| <= u ==> LinesOf(items + additions, u) == [] && HeadingsOf(items + additions, u) == 0
    ensures Laid(header, sections, budget, items + additions, counts')
  {
    TextsAdd(header, sections, items, additions);
    FitsIsSound(Texts(header, sections, items), Texts(header, sections, additions), budget);
  }

  /** Opening section `s` with its first `n` lines. */
  lemma OpenKeepsLaid(header: seq<string>, sections: seq<Section>, budget: nat, items: seq<Item>, counts: seq<nat>, s: nat, n: nat)
    requires Laid(header, sections, budget, items, counts) && 0 < n && s < |sections| && n <= |sections[s].lines|
    requires s <= |counts| && (s < |counts| ==> counts[s] == 0)
    requires FitsItems(header, sections, items, Block(s, n), budget)
    ensures Laid(header, sections, budget, items + Block(s, n), if s < |counts| then counts[s := n] else counts + [n])
  {
    var counts' := if s < |counts| then counts[s := n] else counts + [n];
    forall u: nat ensures LinesOf(items + Block(s, n), u) == LinesOf(items, u) + (if u == s then UpTo(n) else [])
                       && HeadingsOf(items + Block(s, n), u) == HeadingsOf(items, u) + (if u == s then 1 else 0) {
      LinesOfAdds(items, Block(s, n), u);
      BlockLines(s, n, u);
    }
    AddKeepsLaid(header, sections, budget, items, Block(s, n), counts, counts');
  }

  lemma SkipKeepsLaid(header: seq<string>, sections: seq<Section>, budget: nat, items: seq<Item>, counts: seq<nat>)
    requires Laid(header, sections, budget, items, counts) && |counts| < |sections|
    ensures Laid(header, sections, budget, items, counts + [0])
  {
    assert UpTo(0) == [];
  }

  lemma GiveKeepsLaid(header: seq<string>, sections: seq<Section>, budget: nat, s: nat, p: Packed)
    requires |p.counts| == s < |sections| && Laid(header, sections, budget, p.items, p.counts)
    ensures var r := Give(header, sections, budget, s, p); Laid(header, sections, budget, r.items, r.counts)
  {
    var minimum := if sections[s].minimumLines < |sections[s].lines| then sections[s].minimumLines else |sections[s].lines|;
    if minimum > 0 && FitsItems(header, sections, p.items, Block(s, minimum), budget) {
      OpenKeepsLaid(header, sections, budget, p.items, p.counts, s, minimum);
    } else {
      SkipKeepsLaid(header, sections, budget, p.items, p.counts);
    }
  }

  lemma {:induction false} FirstPassLaid(header: seq<string>, sections: seq<Section>, budget: nat, s: nat, p: Packed)
    requires |p.counts| == s <= |sections| && Laid(header, sections, budget, p.items, p.counts)
    ensures var r := FirstPass(header, sections, budget, s, p); Laid(header, sections, budget, r.items, r.counts)
    decreases |sections| - s
  {
    if s < |sections| {
      GiveKeepsLaid(header, sections, budget, s, p);
      FirstPassLaid(header, sections, budget, s + 1, Give(header, sections, budget, s, p));
    }
  }

  /** One more line of an opened section. */
  lemma LineKeepsLaid(header: seq<string>, sections: seq<Section>, budget: nat, items: seq<Item>, counts: seq<nat>, s: nat)
    requires Laid(header, sections, budget, items, counts) && s < |counts| == |sections|
    requires 0 < counts[s] < |sections[s].lines|
    requires FitsItems(header, sections, items, [Line(s, counts[s])], budget)
    ensures Laid(header, sections, budget, items + [Line(s, counts[s])], counts[s := counts[s] + 1])
  {
    var c := counts[s];
    assert [Line(s, c)][..0] == [];
    forall u: nat ensures LinesOf(items + [Line(s, c)], u) == LinesOf(items, u) + (if u == s then [c] else [])
                       && HeadingsOf(items + [Line(s, c)], u) == HeadingsOf(items, u) {
      LinesOfAdds(items, [Line(s, c)], u);
    }
    assert UpTo(c) + [c] == UpTo(c + 1);
    AddKeepsLaid(header, sections, budget, items, [Line(s, c)], counts, counts[s := c + 1]);
  }

  /** What could not be added later cannot be added to a longer text either. */
  ghost predicate Exhausted(header: seq<string>, sections: seq<Section>, budget: nat, s: nat, count: nat, items: seq<Item>)
    requires s < |sections|
  {
    count < |sections[s].lines| ==>
      !FitsItems(header, sections, items, if count == 0 then Block(s, 1) else [Line(s, count)], budget)
  }

  lemma FitsShrinks(header: seq<string>, sections: seq<Section>, budget: nat, items: seq<Item>, more: seq<Item>, additions: seq<Item>)
    requires FitsItems(header, sections, items + more, additions, budget)
    ensures FitsItems(header, sections, items, additions, budget)
  {
    TextsAdd(header, sections, items, more);
    SizeAdds(Texts(header, sections, items), Texts(header, sections, more));
    SizeCovers(Texts(header, sections, more));
  }

  lemma StaysExhausted(header: seq<string>, sections: seq<Section>, budget: nat, s: nat, count: nat, items: seq<Item>, items': seq<Item>)
    requires s < |sections| && Exhausted(header, sections, budget, s, count, items) && items <= items'
    ensures Exhausted(header, sections, budget, s, count, items')
  {
    var more := items'[|items|..];
    assert items' == items + more;
    var additions := if count == 0 then Block(s, 1) else [Line(s, count)];
    if FitsItems(header, sections, items', additions, budget) {
      FitsShrinks(header, sections, budget, items, more, additions);
    }
  }

  /** Adding lines one by one extends the items and only stops when the section is used up or the next line does not fit. */
  lemma {:induction false} ExtendStops(header: seq<string>, sections: seq<Section>, budget: nat, s: nat, count: nat, items: seq<Item>)
    requires s < |sections| && count <= |sections[s].lines| && (count > 0 || sections[s].lines == [])
    ensures var (count', items') := Extend(header, sections, budget, s, count, items);
      && items <= items' && count <= count' <= |sections[s].lines| && Exhausted(header, sections, budget, s, count', items')
    decreases |sections[s].lines| - count
  {
    if count < |sections[s].lines| && FitsItems(header, sections, items, [Line(s, count)], budget) {
      ExtendStops(header, sections, budget, s, count + 1, items + [Line(s, count)]);
    }
  }

  lemma {:induction false} ExtendKeepsLaid(header: seq<string>, sections: seq<Section>, budget: nat, s: nat, counts: seq<nat>, items: seq<Item>)
    requires Laid(header, sections, budget, items, counts) && s < |counts| == |sections|
    requires counts[s] > 0 || sections[s].lines == []
    ensures var (count, items') := Extend(header, sections, budget, s, counts[s], items);
      Laid(header, sections, budget, items', counts[s := count])
    decreases |sections[s].lines| - counts[s]
  {
    var c := counts[s];
    if c < |sections[s].lines| && FitsItems(header, sections, items, [Line(s, c)], budget) {
      var counts' := counts[s := c + 1];
      LineKeepsLaid(header, sections, budget, items, counts, s);
      ExtendKeepsLaid(header, sections, budget, s, counts', items + [Line(s, c)]);
      var count := Extend(header, sections, budget, s, c, items).0;
      assert counts'[s := count] == counts[s := count];
    } else {
      assert counts[s := c] == counts;
    }
  }

  lemma ExtendLaid(header: seq<string>, sections: seq<Section>, budget: nat, s: nat, counts: seq<nat>, items: seq<Item>)
    requires Laid(header, sections, budget, items, counts) && s < |counts| == |sections|
    requires counts[s] > 0 || sections[s].lines == []
    ensures var (count, items') := Extend(header, sections, budget, s, counts[s], items);
      && Laid(header, sections, budget, items', counts[s := count]) && items <= items'
      && counts[s] <= count <= |sections[s].lines| && Exhausted(header, sections, budget, s, count, items')
  {
    ExtendStops(header, sections, budget, s, counts[s], items);
    ExtendKeepsLaid(header, sections, budget, s, counts, items);
  }

  lemma FillLaid(header: seq<string>, sections: seq<Section>, budget: nat, s: nat, counts: seq<nat>, items: seq<Item>)
    requires Laid(header, sections, budget, items, counts) && s < |counts| == |sections|
    ensures var (count, items') := Fill(header, sections, budget, s, counts[s], items);
      && Laid(header, sections, budget, items', counts[s := count]) && items <= items'
      && Exhausted(header, sections, budget, s, count, items')
  {
    if counts[s] == 0 && sections[s].lines != [] {
      if FitsItems(header, sections, items, Block(s, 1), budget) {
        OpenKeepsLaid(header, sections, budget, items, counts, s, 1);
        ExtendLaid(header, sections, budget, s, counts[s := 1], items + Block(s, 1));
        var count := Fill(header, sections, budget, s, counts[s], items).0;
        assert counts[s := 1][s := count] == counts[s := count];
      } else {
        assert counts[s := 0] == counts;
      }
    } else {
      ExtendLaid(header, sections, budget, s, counts, items);
    }
  }

  /** The second pass is through with the sections below `s`. */
  ghost predicate DoneBelow(header: seq<string>, sections: seq<Section>, budget: nat, s: nat, p: Packed) {
    && |p.counts| == |sections| && s <= |sections| && Laid(header, sections, budget, p.items, p.counts)
    && forall u :: 0 <= u < s ==> Exhausted(header, sections, budget, u, p.counts[u], p.items)
  }

  lemma FillDone(header: seq<string>, sections: seq<Section>, budget: nat, s: nat, p: Packed)
    requires DoneBelow(header, sections, budget, s, p) && s < |sections|
    ensures DoneBelow(header, sections, budget, s + 1, Filled(header, sections, budget, s, p))
  {
    FillLaid(header, sections, budget, s, p.counts, p.items);
    var (count, items) := Fill(header, sections, budget, s, p.counts[s], p.items);
    forall u | 0 <= u < s ensures Exhausted(header, sections, budget, u, p.counts[u], items) {
      StaysExhausted(header, sections, budget, u, p.counts[u], p.items, items);
    }
  }

  lemma {:induction false} SecondPassDone(header: seq<string>, sections: seq<Section>, budget: nat, s: nat, p: Packed)
    returns (r: Packed)
    requires DoneBelow(header, sections, budget, s, p)
    ensures r == SecondPass(header, sections, budget, s, p) && DoneBelow(header, sections, budget, |sections|, r)
    decreases |sections| - s
  {
    r := p;
    if s < |sections| {
      FillDone(header, sections, budget, s, p);
      r := SecondPassDone(header, sections, budget, s + 1, Filled(header, sections, budget, s, p));
    }
  }

  /** The packing: the header comes first, every section shows nothing or its heading once and a prefix of its lines
      in order, anything beyond the header fits the budget once joined, and no section could have shown one more. */
  lemma PackingIsPrefixAndMaximal(header: seq<string>, sections: seq<Section>, budget: nat)
    ensures var p := Pack(header, sections, budget);
      && |p.counts| == |sections| && |p.items| >= |header|
      && (forall j :: 0 <= j < |header| ==> p.items[j] == HeaderLine(j))
      && (forall s :: 0 <= s < |sections| ==> p.counts[s] <= |sections[s].lines| && ShowsPrefix(p.items, s, p.counts[s]))
      && (forall s: nat :: |sections| <= s ==> LinesOf(p.items, s) == [])
      && (|p.items| > |header| ==> |Join(Texts(header, sections, p.items))| <= budget)
      && (forall s :: 0 <= s < |sections| ==> Exhausted(header, sections, budget, s, p.counts[s], p.items))
  {
    var start := Packed(HeaderItems(|header|), []);
    forall u: nat ensures LinesOf(start.items, u) == [] && HeadingsOf(start.items, u) == 0 { LinesOfNone(start.items, u); }
    FirstPassLaid(header, sections, budget, 0, start);
    var packed := SecondPassDone(header, sections, budget, 0, FirstPass(header, sections, budget, 0, start));
  }

  // ---------------------------------------------------------------- counting

  /** Section lines among the rendered lines. */
  function LineCount(items: seq<Item>): nat {
    if items == [] then 0 else LineCount(items[..|items| - 1]) + (if items[|items| - 1].Line? then 1 else 0)
  }

  function TotalLines(sections: seq<Section>): nat {
    if sections == [] then 0 else TotalLines(sections[..|sections| - 1]) + |sections[|sections| - 1].lines|
  }

  function Sum(counts: seq<nat>): nat {
    if counts == [] then 0 else Sum(counts[..|counts| - 1]) + counts[|counts| - 1]
  }

  /** The lines of the first `n` sections among the rendered lines. */
  function LinesBelow(items: seq<Item>, n: nat): nat {
    if n == 0 then 0 else LinesBelow(items, n - 1) + |LinesOf(items, n - 1)|
  }

  lemma LinesOfOneMore(items: seq<Item>, last: Item, s: nat)
    ensures |LinesOf(items + [last], s)| == |LinesOf(items, s)| + (if last.Line? && last.s == s then 1 else 0)
  {
    assert (items + [last])[..|items|] == items;
  }

  lemma {:induction false} LinesBelowGrow(items: seq<Item>, last: Item, n: nat)
    ensures LinesBelow(items + [last], n) == LinesBelow(items, n) + (if last.Line? && last.s < n then 1 else 0)
    decreases n
  {
    if n > 0 {
      LinesBelowGrow(items, last, n - 1);
      LinesOfOneMore(items, last, n - 1);
    }
  }

  lemma {:induction false} NoLinesBelow(n: nat)
    ensures LinesBelow([], n) == 0
    decreases n
  {
    if n > 0 { NoLinesBelow(n - 1); }
  }

  lemma {:induction false} CountedBySection(items: seq<Item>, n: nat)
    requires forall x :: x in items && x.Line? ==> x.s < n
    ensures LineCount(items) == LinesBelow(items, n)
    decreases |items|
  {
    if items == [] {
      NoLinesBelow(n);
    } else {
      var front, last := items[..|items| - 1], items[|items| - 1];
      assert items == front + [last];
      CountedBySection(front, n);
      LinesBelowGrow(front, last, n);
    }
  }

  lemma {:induction false} LineIsListed(items: seq<Item>, x: Item)
    requires x in items && x.Line?
    ensures LinesOf(items, x.s) != []
    decreases |items|
  {
    var front, last := items[..|items| - 1], items[|items| - 1];
    assert items == front + [last];
    if last != x { LineIsListed(front, x); }
  }

  lemma {:induction false} SumOfShown(items: seq<Item>, counts: seq<nat>)
    requires forall s :: 0 <= s < |counts| ==> |LinesOf(items, s)| == counts[s]
    ensures LinesBelow(items, |counts|) == Sum(counts)
    decreases |counts|
  {
    if counts != [] { SumOfShown(items, counts[..|counts| - 1]); }
  }

  lemma {:induction false} OmittedIsRest(sections: seq<Section>, counts: seq<nat>)
    requires |counts| == |sections|
    ensures Omitted(sections, counts) + Sum(counts) == TotalLines(sections)
    decreases |sections|
  {
    if sections != [] { OmittedIsRest(sections[..|sections| - 1], counts[..|sections| - 1]); }
  }

  /** The section lines rendered and the ones reported as omitted are all lines. */
  lemma OmittedCounts(header: seq<string>, sections: seq<Section>, budget: nat)
    ensures var p := Pack(header, sections, budget);
      LineCount(p.items) + Omitted(sections, p.counts) == TotalLines(sections) && Omitted(sections, p.counts) >= 0
  {
    var p := Pack(header, sections, budget);
    PackingIsPrefixAndMaximal(header, sections, budget);
    forall x | x in p.items && x.Line? ensures x.s < |sections| { LineIsListed(p.items, x); }
    forall s | 0 <= s < |sections| ensures |LinesOf(p.items, s)| == p.counts[s] {
      assert ShowsPrefix(p.items, s, p.counts[s]);
    }
    CountedBySection(p.items, |sections|);
    SumOfShown(p.items, p.counts);
    OmittedIsRest(sections, p.counts);
    OmittedIsNone(sections, p.counts);
  }

  lemma {:induction false} OmittedIsNone(sections: seq<Section>, counts: seq<nat>)
    requires |counts| == |sections| && forall s :: 0 <= s < |sections| ==> counts[s] <= |sections[s].lines|
    ensures 0 <= Omitted(sections, counts)
    ensures Omitted(sections, counts) == 0 <==> forall s :: 0 <= s < |sections| ==> counts[s] == |sections[s].lines|
    decreases |sections|
  {
    if sections != [] {
      var n := |sections| - 1;
      OmittedIsNone(sections[..n], counts[..n]);
    }
  }

  /** The rendered text of a packing. */
  function Rendered(header: seq<string>, sections: seq<Section>, maxChars: nat): string {
    Join(Texts(header, sections, Pack(header, sections, Available(maxChars)).items))
  }

  /** A header too long for the budget leaves no room for anything else. */
  lemma LongHeaderIsAll(header: seq<string>, sections: seq<Section>, maxChars: nat)
    ensures |Rendered(header, sections, maxChars)| > maxChars <==> |Join(header)| > maxChars
    ensures |Join(header)| > maxChars ==> Rendered(header, sections, maxChars) == Join(header)
  {
    var items := Pack(header, sections, Available(maxChars)).items;
    PackingIsPrefixAndMaximal(header, sections, Available(maxChars));
    var texts := Texts(header, sections, items);
    assert texts[..|header|] == header;
    var rest := texts[|header|..];
    assert texts == header + rest;
    JoinLength(texts);
    JoinLength(header);
    SizeAdds(header, rest);
    SizeCovers(rest);
    if |items| == |header| { assert texts == header; }
  }

  /** The budget is kept, except when the header alone exceeds it and happens to end with the suffix. */
  lemma BudgetKeptIff(header: seq<string>, sections: seq<Section>, maxChars: nat)
    ensures |AppendCompactionSuffix(Rendered(header, sections, maxChars), maxChars)| <= maxChars
      <==> !(EndsWith(Join(header), SUFFIX) && |Join(header)| > maxChars)
  {
    LongHeaderIsAll(header, sections, maxChars);
    SuffixFitsIff(Rendered(header, sections, maxChars), maxChars);
  }

  /** If any section line is shown, the suffix step cuts nothing but trailing white space. */
  lemma ShownLinesSurvive(header: seq<string>, sections: seq<Section>, maxChars: nat, s: nat)
    requires s < |sections| && Pack(header, sections, Available(maxChars)).counts[s] > 0
    requires !IsBlank(Rendered(header, sections, maxChars))
    ensures var content, r := Rendered(header, sections, maxChars), AppendCompactionSuffix(Rendered(header, sections, maxChars), maxChars);
            r == (if EndsWith(content, SUFFIX) then content else WithSuffix(content))
  {
    var p := Pack(header, sections, Available(maxChars));
    PackingIsPrefixAndMaximal(header, sections, Available(maxChars));
    assert ShowsPrefix(p.items, s, p.counts[s]);
    if |p.items| == |header| { LinesOfNone(p.items, s); }
    var content := Rendered(header, sections, maxChars);
    if !EndsWith(content, SUFFIX) { SuffixKeepsIff(content, maxChars); }
  }
}
