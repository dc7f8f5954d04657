/** The compactor: the snapshot header, packing sections under a budget and sorting page text into buckets. */
module Compactor {
  import opened Wrappers
  import opened Text
  import opened Decimal
  import opened BrowserTypes
  import opened Rendering

  method RenderBudgetedSections(header: seq<string>, sections: seq<Section>, maxChars: nat)
    returns (content: string, omittedItems: int)
    ensures content == AppendCompactionSuffix(Rendered(header, sections, maxChars), maxChars)
    ensures omittedItems == Omitted(sections, Pack(header, sections, Available(maxChars)).counts)
    ensures omittedItems >= 0
  {
    var contentBudget := Available(maxChars);
    assert header == Texts(header, sections, HeaderItems(|header|));
    ghost var first := FirstPass(header, sections, contentBudget, 0, Packed(HeaderItems(|header|), []));
    var lines, included := GiveMinimums(header, sections, contentBudget);
    lines, included := FillSections(header, sections, contentBudget, lines, included, first.items);
    omittedItems := CountOmitted(sections, included);
    PackingIsPrefixAndMaximal(header, sections, contentBudget);
    OmittedCounts(header, sections, contentBudget);
    content := AppendCompactionSuffix(Join(lines), maxChars);
  }

  lemma BlockTexts(header: seq<string>, sections: seq<Section>, s: nat, n: nat)
    requires s < |sections| && n <= |sections[s].lines|
    ensures Texts(header, sections, Block(s, n)) == ["", sections[s].heading] + sections[s].lines[..n]
  {
  }

  method GiveMinimums(header: seq<string>, sections: seq<Section>, budget: nat) returns (lines: seq<string>, included: seq<nat>)
    ensures var first := FirstPass(header, sections, budget, 0, Packed(HeaderItems(|header|), []));
            included == first.counts && lines == Texts(header, sections, first.items)
  {
    lines, included := header, [];
    ghost var items := HeaderItems(|header|);
    ghost var first := FirstPass(header, sections, budget, 0, Packed(items, []));
    for s := 0 to |sections|
      invariant |included| == s && lines == Texts(header, sections, items)
      invariant first == FirstPass(header, sections, budget, s, Packed(items, included))
    {
      var entry := sections[s];
      var minimum := if entry.minimumLines < |entry.lines| then entry.minimumLines else |entry.lines|;
      var block := ["", entry.heading] + entry.lines[..minimum];
      BlockTexts(header, sections, s, minimum);
      if minimum > 0 && Fits(lines, block, budget) {
        lines := lines + block;
        TextsAdd(header, sections, items, Block(s, minimum));
        items := items + Block(s, minimum);
        included := included + [minimum];
      } else {
        included := included + [0];
      }
    }
  }

  method FillSections(header: seq<string>, sections: seq<Section>, budget: nat, start: seq<string>, counts: seq<nat>,
                      ghost startItems: seq<Item>) returns (lines: seq<string>, included: seq<nat>)
    requires |counts| == |sections| && start == Texts(header, sections, startItems)
    ensures var packed := SecondPass(header, sections, budget, 0, Packed(startItems, counts));
            included == packed.counts && lines == Texts(header, sections, packed.items)
  {
    lines, included := start, counts;
    ghost var items := startItems;
    ghost var packed := SecondPass(header, sections, budget, 0, Packed(items, included));
    for s := 0 to |sections|
      invariant |included| == |sections| && lines == Texts(header, sections, items)
      invariant packed == SecondPass(header, sections, budget, s, Packed(items, included))
    {
      ghost var filled := Fill(header, sections, budget, s, included[s], items);
      var count: nat;
      count, lines := FillSection(header, sections, budget, s, included[s], lines, items);
      items := filled.1;
      included := included[s := count];
    }
  }

  method FillSection(header: seq<string>, sections: seq<Section>, budget: nat, s: nat, shown: nat, start: seq<string>,
                     ghost startItems: seq<Item>) returns (count: nat, lines: seq<string>)
    requires s < |sections| && start == Texts(header, sections, startItems)
    ensures var filled := Fill(header, sections, budget, s, shown, startItems);
            count == filled.0 && lines == Texts(header, sections, filled.1)
  {
    var entry := sections[s];
    count, lines := shown, start;
    ghost var items := startItems;
    if count == 0 && entry.lines != [] {
      var block := ["", entry.heading, entry.lines[0]];
      BlockTexts(header, sections, s, 1);
      assert block == ["", entry.heading] + entry.lines[..1];
      if !Fits(lines, block, budget) { return; }
      lines := lines + block;
      TextsAdd(header, sections, items, Block(s, 1));
      items := items + Block(s, 1);
      count := 1;
    }
    count, lines := ExtendSection(header, sections, budget, s, count, lines, items);
  }

  method ExtendSection(header: seq<string>, sections: seq<Section>, budget: nat, s: nat, shown: nat, start: seq<string>,
                       ghost startItems: seq<Item>) returns (count: nat, lines: seq<string>)
    requires s < |sections| && start == Texts(header, sections, startItems)
    ensures var extended := Extend(header, sections, budget, s, shown, startItems);
            count == extended.0 && lines == Texts(header, sections, extended.1)
  {
    var entry := sections[s];
    count, lines := shown, start;
    ghost var items := startItems;
    ghost var extended := Extend(header, sections, budget, s, shown, startItems);
    while count < |entry.lines| && Fits(lines, [entry.lines[count]], budget)
      invariant lines == Texts(header, sections, items)
      invariant extended == Extend(header, sections, budget, s, count, items)
      decreases |entry.lines| - count
    {
      assert [entry.lines[count]] == Texts(header, sections, [Line(s, count)]);
      lines := lines + [entry.lines[count]];
      TextsAdd(header, sections, items, [Line(s, count)]);
      items := items + [Line(s, count)];
      count := count + 1;
    }
    if count < |entry.lines| { assert [entry.lines[count]] == Texts(header, sections, [Line(s, count)]); }
  }

  method CountOmitted(sections: seq<Section>, included: seq<nat>) returns (omitted: int)
    requires |included| == |sections|
    ensures omitted == Omitted(sections, included)
  {
    omitted := 0;
    for s := 0 to |sections|
      invariant omitted == Omitted(sections[..s], included[..s])
    {
      assert sections[..s + 1][..s] == sections[..s] && included[..s + 1][..s] == included[..s];
      omitted := omitted + |sections[s].lines| - included[s];
    }
    assert sections[..|sections|] == sections && included[..|sections|] == included;
  }

  // ---------------------------------------------------------------- page text

  /** The text functions the buckets depend on: redaction, key normalisation and the three patterns. */
  datatype TextRules = TextRules(
    safe: string -> string,
    key: string -> string,
    isError: string -> bool,
    isAuthentication: string -> bool,
    isHeading: string -> bool)

  datatype PageText = PageText(
    authentication: seq<string>, errors: seq<string>, headings: seq<string>, context: seq<string>,
    omitted: nat, sourceReduced: bool, truncated: bool)

  const NO_TEXT := PageText([], [], [], [], 0, false, false)

  function BoundLine(s: string): string { Take(s, MAX_RENDERED_LINE_CHARS) }

  /** The fragments that have any text left after redaction, bounded. */
  function Kept(fragments: seq<string>, rules: TextRules): seq<string> {
    if fragments == [] then []
    else
      var safe := rules.safe(fragments[|fragments| - 1]);
      Kept(fragments[..|fragments| - 1], rules) + (if safe == [] then [] else [BoundLine(safe)])
  }

  function AllBuckets(t: PageText): seq<string> { t.authentication + t.errors + t.headings + t.context }

  ghost predicate DistinctKeys(lines: seq<string>, key: string -> string) {
    forall i, j :: 0 <= i < j < |lines| ==> key(lines[i]) != key(lines[j])
  }

  /** Every entry is in the bucket its text calls for, errors first. */
  ghost predicate Sorted(t: PageText, rules: TextRules) {
    && (forall b :: b in t.errors ==> rules.isError(b))
    && (forall b :: b in t.authentication ==> rules.isAuthentication(b) && !rules.isError(b))
    && (forall b :: b in t.headings ==> rules.isHeading(b) && !rules.isError(b) && !rules.isAuthentication(b))
    && (forall b :: b in t.context ==> !rules.isHeading(b) && !rules.isError(b) && !rules.isAuthentication(b))
  }

  datatype Bucket = ErrorText | AuthenticationText | HeadingText | ContextText

  function BucketOf(line: string, rules: TextRules): Bucket {
    if rules.isError(line) then ErrorText
    else if rules.isAuthentication(line) then AuthenticationText
    else if rules.isHeading(line) then HeadingText
    else ContextText
  }

  function Into(t: PageText, line: string, b: Bucket): PageText {
    match b
    case ErrorText => t.(errors := t.errors + [line])
    case AuthenticationText => t.(authentication := t.authentication + [line])
    case HeadingText => t.(headings := t.headings + [line])
    case ContextText => t.(context := t.context + [line])
  }

  /** The lines that no element shows, each key once, where it comes first. */
  function Unseen(kept: seq<string>, elementKeys: set<string>, key: string -> string): seq<string> {
    if kept == [] then []
    else
      var before, line := Unseen(kept[..|kept| - 1], elementKeys, key), kept[|kept| - 1];
      if key(line) in elementKeys || exists y :: y in before && key(y) == key(line) then before else before + [line]
  }

  /** The lines of one bucket, in order. */
  function Only(lines: seq<string>, rules: TextRules, b: Bucket): seq<string> {
    if lines == [] then []
    else
      Only(lines[..|lines| - 1], rules, b)
      + if BucketOf(lines[|lines| - 1], rules) == b then [lines[|lines| - 1]] else []
  }

  /** The buckets hold the lines, each in its own and in order. */
  ghost predicate Holds(t: PageText, lines: seq<string>, rules: TextRules) {
    && t.errors == Only(lines, rules, ErrorText) && t.authentication == Only(lines, rules, AuthenticationText)
    && t.headings == Only(lines, rules, HeadingText) && t.context == Only(lines, rules, ContextText)
  }

  lemma {:induction false} OnlyHolds(lines: seq<string>, rules: TextRules, b: Bucket)
    ensures forall y :: y in Only(lines, rules, b) <==> y in lines && BucketOf(y, rules) == b
  {
    if lines != [] {
      OnlyHolds(lines[..|lines| - 1], rules, b);
      assert lines == lines[..|lines| - 1] + [lines[|lines| - 1]];
    }
  }

  lemma HeldAreLines(t: PageText, lines: seq<string>, rules: TextRules)
    requires Holds(t, lines, rules)
    ensures forall y :: y in AllBuckets(t) <==> y in lines
  {
    OnlyHolds(lines, rules, ErrorText);
    OnlyHolds(lines, rules, AuthenticationText);
    OnlyHolds(lines, rules, HeadingText);
    OnlyHolds(lines, rules, ContextText);
  }

  lemma HoldsOneMore(t: PageText, lines: seq<string>, line: string, rules: TextRules)
    requires Holds(t, lines, rules)
    ensures Holds(Into(t, line, BucketOf(line, rules)), lines + [line], rules)
  {
    assert (lines + [line])[..|lines|] == lines;
  }

  lemma UnseenGrows(kept: seq<string>, line: string, elementKeys: set<string>, key: string -> string)
    ensures var before := Unseen(kept, elementKeys, key);
      Unseen(kept + [line], elementKeys, key) ==
        if key(line) in elementKeys || exists y :: y in before && key(y) == key(line) then before else before + [line]
  {
    assert (kept + [line])[..|kept|] == kept;
  }

  lemma DistinctOneMore(a: seq<string>, b: seq<string>, x: string, key: string -> string)
    requires DistinctKeys(a + b, key) && forall y :: y in a + b ==> key(y) != key(x)
    ensures DistinctKeys(a + [x] + b, key)
    ensures forall y :: y in a + [x] + b <==> y in a + b || y == x
  {
    var r := a + [x] + b;
    forall i, j | 0 <= i < j < |r| ensures key(r[i]) != key(r[j]) {
      var i', j' := if i > |a| then i - 1 else i, if j > |a| then j - 1 else j;
      assert i != |a| ==> r[i] == (a + b)[i'];
      assert j != |a| ==> r[j] == (a + b)[j'];
    }
    forall y | y in a + b || y == x ensures y in r {
      if y in a + b {
        var i :| 0 <= i < |a + b| && (a + b)[i] == y;
        assert r[if i < |a| then i else i + 1] == y;
      } else {
        assert r[|a|] == x;
      }
    }
  }

  /** A line whose key is new goes into the bucket its text calls for. */
  lemma AddKeeps(t: PageText, line: string, rules: TextRules)
    requires DistinctKeys(AllBuckets(t), rules.key) && Sorted(t, rules)
    requires forall b :: b in AllBuckets(t) ==> rules.key(b) != rules.key(line)
    ensures var r := Into(t, line, BucketOf(line, rules));
      && DistinctKeys(AllBuckets(r), rules.key) && Sorted(r, rules) && |AllBuckets(r)| == |AllBuckets(t)| + 1
      && (forall b :: b in AllBuckets(r) <==> b in AllBuckets(t) || b == line)
  {
    var r := Into(t, line, BucketOf(line, rules));
    BucketsGrow(t, r, line);
    OneMoreKey(AllBuckets(t), AllBuckets(r), line, rules.key);
  }

  /** `r` is `s` with `x` put in somewhere. */
  ghost predicate OneMore(s: seq<string>, r: seq<string>, x: string) {
    exists i :: 0 <= i <= |s| && r == s[..i] + [x] + s[i..]
  }

  lemma BucketsGrow(t: PageText, r: PageText, line: string)
    requires || r == t.(errors := t.errors + [line]) || r == t.(authentication := t.authentication + [line])
             || r == t.(headings := t.headings + [line]) || r == t.(context := t.context + [line])
    ensures OneMore(AllBuckets(t), AllBuckets(r), line)
  {
    var i :=
      if r == t.(errors := t.errors + [line]) then |t.authentication| + |t.errors|
      else if r == t.(authentication := t.authentication + [line]) then |t.authentication|
      else if r == t.(headings := t.headings + [line]) then |t.authentication| + |t.errors| + |t.headings|
      else |AllBuckets(t)|;
    assert AllBuckets(r) == AllBuckets(t)[..i] + [line] + AllBuckets(t)[i..];
  }

  lemma OneMoreKey(s: seq<string>, r: seq<string>, x: string, key: string -> string)
    requires OneMore(s, r, x) && DistinctKeys(s, key) && forall y :: y in s ==> key(y) != key(x)
    ensures DistinctKeys(r, key) && |r| == |s| + 1
    ensures forall y :: y in r <==> y in s || y == x
  {
    var i :| 0 <= i <= |s| && r == s[..i] + [x] + s[i..];
    assert s == s[..i] + s[i..];
    DistinctOneMore(s[..i], s[i..], x, key);
  }

  /** Every kept line is shown by an element, or its key has been seen. */
  ghost predicate Covered(lines: seq<string>, seen: set<string>, elementKeys: set<string>, key: string -> string) {
    forall b :: b in lines ==> key(b) in elementKeys || key(b) in seen
  }

  /** `seen` is exactly the set of bucket keys. */
  ghost predicate SeenKeys(t: PageText, seen: set<string>, key: string -> string) {
    && (forall b :: b in AllBuckets(t) ==> key(b) in seen)
    && (forall k :: k in seen ==> exists b :: b in AllBuckets(t) && key(b) == k)
  }

  /** Sorting conserves the fragments: each kept one is in exactly one bucket or counted as omitted, bucket entries
      have pairwise distinct keys that no element already shows, and every omitted key is shown somewhere. */
  method CompactPageText(fragments: seq<string>, elementKeys: set<string>, rules: TextRules) returns (t: PageText)
    ensures |AllBuckets(t)| + t.omitted == |Kept(fragments, rules)|
    ensures DistinctKeys(AllBuckets(t), rules.key)
    ensures forall b :: b in AllBuckets(t) ==> b in Kept(fragments, rules) && rules.key(b) !in elementKeys
    ensures forall b :: b in Kept(fragments, rules) ==>
              rules.key(b) in elementKeys || exists c :: c in AllBuckets(t) && rules.key(c) == rules.key(b)
    ensures Sorted(t, rules)
    ensures Holds(t, Unseen(Kept(fragments, rules), elementKeys, rules.key), rules)
    ensures t.sourceReduced <==> t.omitted > 0 || t.truncated
    ensures t.truncated <==> exists f :: f in fragments && |rules.safe(f)| > MAX_RENDERED_LINE_CHARS
  {
    t := SortFragments(fragments, elementKeys, rules);
    PlacedConserves(fragments, elementKeys, rules);
    t := t.(sourceReduced := t.omitted > 0 || t.truncated);
  }

  /** The buckets and the keys seen after one more fragment. */
  function Placed(t: PageText, seen: set<string>, fragment: string, elementKeys: set<string>, rules: TextRules): (PageText, set<string>) {
    var safe := rules.safe(fragment);
    var line := BoundLine(safe);
    if safe == [] then (t, seen)
    else
      var marked := t.(truncated := t.truncated || |line| < |safe|);
      if rules.key(line) in seen || rules.key(line) in elementKeys then (marked.(omitted := marked.omitted + 1), seen)
      else (Into(marked, line, BucketOf(line, rules)), seen + {rules.key(line)})
  }

  function PlacedAll(fragments: seq<string>, elementKeys: set<string>, rules: TextRules): (PageText, set<string>) {
    if fragments == [] then (NO_TEXT, {})
    else
      var (t, seen) := PlacedAll(fragments[..|fragments| - 1], elementKeys, rules);
      Placed(t, seen, fragments[|fragments| - 1], elementKeys, rules)
  }

  method SortFragments(fragments: seq<string>, elementKeys: set<string>, rules: TextRules) returns (t: PageText)
    ensures t == PlacedAll(fragments, elementKeys, rules).0
  {
    t := NO_TEXT;
    var seen: set<string> := {};
    for i := 0 to |fragments|
      invariant (t, seen) == PlacedAll(fragments[..i], elementKeys, rules)
    {
      assert fragments[..i + 1][..i] == fragments[..i];
      var safe := rules.safe(fragments[i]);
      if safe == [] { continue; }
      var bounded := BoundLine(safe);
      if |bounded| < |safe| { t := t.(truncated := true); }
      var key := rules.key(bounded);
      if key in seen || key in elementKeys {
        t := t.(omitted := t.omitted + 1);
        continue;
      }
      seen := seen + {key};
      if rules.isError(bounded) {
        t := t.(errors := t.errors + [bounded]);
      } else if rules.isAuthentication(bounded) {
        t := t.(authentication := t.authentication + [bounded]);
      } else if rules.isHeading(bounded) {
        t := t.(headings := t.headings + [bounded]);
      } else {
        t := t.(context := t.context + [bounded]);
      }
    }
    assert fragments[..|fragments|] == fragments;
  }

  lemma NothingConserves(elementKeys: set<string>, rules: TextRules)
    ensures Conserves(NO_TEXT, {}, [], elementKeys, rules) && Holds(NO_TEXT, [], rules) && !SomeCut([], rules)
  {}

  lemma {:induction false} PlacedConserves(fragments: seq<string>, elementKeys: set<string>, rules: TextRules)
    ensures var (t, seen) := PlacedAll(fragments, elementKeys, rules);
      && Conserves(t, seen, Kept(fragments, rules), elementKeys, rules)
      && Holds(t, Unseen(Kept(fragments, rules), elementKeys, rules.key), rules)
      && (t.truncated <==> SomeCut(fragments, rules))
  {
    if fragments == [] {
      NothingConserves(elementKeys, rules);
    } else {
      var front := fragments[..|fragments| - 1];
      PlacedConserves(front, elementKeys, rules);
      PlacedNext(front, fragments[|fragments| - 1], elementKeys, rules);
      assert fragments == front + [fragments[|fragments| - 1]];
    }
  }

  lemma PlacedNext(front: seq<string>, fragment: string, elementKeys: set<string>, rules: TextRules)
    requires var (t, seen) := PlacedAll(front, elementKeys, rules);
      && Conserves(t, seen, Kept(front, rules), elementKeys, rules)
      && Holds(t, Unseen(Kept(front, rules), elementKeys, rules.key), rules)
      && (t.truncated <==> SomeCut(front, rules))
    ensures var (r, seen') := PlacedAll(front + [fragment], elementKeys, rules);
      && Conserves(r, seen', Kept(front + [fragment], rules), elementKeys, rules)
      && Holds(r, Unseen(Kept(front + [fragment], rules), elementKeys, rules.key), rules)
      && (r.truncated <==> SomeCut(front + [fragment], rules))
  {
    var (t, seen) := PlacedAll(front, elementKeys, rules);
    assert (front + [fragment])[..|front|] == front;
    CutOneMore(front, fragment, rules);
    KeptGrows(front, fragment, rules);
    PlaceConserves(t, seen, fragment, elementKeys, rules, Kept(front, rules));
    PlaceHolds(t, seen, fragment, elementKeys, rules, Kept(front, rules));
  }

  function WithLine(kept: seq<string>, fragment: string, rules: TextRules): seq<string> {
    kept + if rules.safe(fragment) == [] then [] else [BoundLine(rules.safe(fragment))]
  }

  lemma PlaceConserves(t: PageText, seen: set<string>, fragment: string, elementKeys: set<string>, rules: TextRules, kept: seq<string>)
    requires Conserves(t, seen, kept, elementKeys, rules)
    ensures var (r, seen') := Placed(t, seen, fragment, elementKeys, rules);
      && Conserves(r, seen', WithLine(kept, fragment, rules), elementKeys, rules)
      && r.truncated == (t.truncated || |rules.safe(fragment)| > MAX_RENDERED_LINE_CHARS)
  {
    var safe := rules.safe(fragment);
    if safe == [] {
      assert kept + [] == kept;
    } else {
      var line := BoundLine(safe);
      MarkConserves(t, seen, kept, |line| < |safe|, elementKeys, rules);
      LineKeeps(t.(truncated := t.truncated || |line| < |safe|), seen, line, elementKeys, rules, kept);
    }
  }

  lemma MarkConserves(t: PageText, seen: set<string>, kept: seq<string>, cut: bool, elementKeys: set<string>, rules: TextRules)
    requires Conserves(t, seen, kept, elementKeys, rules)
    ensures Conserves(t.(truncated := t.truncated || cut), seen, kept, elementKeys, rules)
  {
    assert AllBuckets(t.(truncated := t.truncated || cut)) == AllBuckets(t);
  }

  lemma PlaceHolds(t: PageText, seen: set<string>, fragment: string, elementKeys: set<string>, rules: TextRules, kept: seq<string>)
    requires SeenKeys(t, seen, rules.key) && Holds(t, Unseen(kept, elementKeys, rules.key), rules)
    ensures Holds(Placed(t, seen, fragment, elementKeys, rules).0,
                  Unseen(WithLine(kept, fragment, rules), elementKeys, rules.key), rules)
  {
    var safe := rules.safe(fragment);
    if safe == [] {
      assert kept + [] == kept;
    } else {
      var line := BoundLine(safe);
      var marked := t.(truncated := t.truncated || |line| < |safe|);
      assert AllBuckets(marked) == AllBuckets(t);
      UnseenNext(marked, seen, kept, line, elementKeys, rules);
    }
  }

  lemma LineKeeps(t: PageText, seen: set<string>, line: string, elementKeys: set<string>, rules: TextRules, kept: seq<string>)
    requires Conserves(t, seen, kept, elementKeys, rules)
    ensures if rules.key(line) in seen || rules.key(line) in elementKeys
      then Conserves(t.(omitted := t.omitted + 1), seen, kept + [line], elementKeys, rules)
      else Conserves(Into(t, line, BucketOf(line, rules)), seen + {rules.key(line)}, kept + [line], elementKeys, rules)
  {
    if rules.key(line) in seen || rules.key(line) in elementKeys {
      assert AllBuckets(t.(omitted := t.omitted + 1)) == AllBuckets(t);
    } else {
      AddKeeps(t, line, rules);
      assert line in AllBuckets(Into(t, line, BucketOf(line, rules)));
    }
  }

  /** Some fragment is longer than a rendered line. */
  ghost predicate SomeCut(fragments: seq<string>, rules: TextRules) {
    exists f :: f in fragments && |rules.safe(f)| > MAX_RENDERED_LINE_CHARS
  }

  lemma CutOneMore(before: seq<string>, fragment: string, rules: TextRules)
    ensures SomeCut(before + [fragment], rules) <==>
      SomeCut(before, rules) || |rules.safe(fragment)| > MAX_RENDERED_LINE_CHARS
  {
    var all := before + [fragment];
    assert all[|before|] == fragment;
    assert forall f :: f in before ==> f in all;
  }

  lemma KeptGrows(fragments: seq<string>, f: string, rules: TextRules)
    ensures Kept(fragments + [f], rules) == Kept(fragments, rules) + (if rules.safe(f) == [] then [] else [BoundLine(rules.safe(f))])
  {
    assert (fragments + [f])[..|fragments|] == fragments;
  }

  /** The state of sorting after the kept lines `kept`. */
  ghost predicate Conserves(t: PageText, seen: set<string>, kept: seq<string>, elementKeys: set<string>, rules: TextRules) {
    && |AllBuckets(t)| + t.omitted == |kept|
    && DistinctKeys(AllBuckets(t), rules.key) && Sorted(t, rules)
    && (forall b :: b in AllBuckets(t) ==> b in kept && rules.key(b) !in elementKeys)
    && SeenKeys(t, seen, rules.key) && Covered(kept, seen, elementKeys, rules.key)
  }

  /** A line is new exactly when its key is no element's and was not seen. */
  lemma UnseenNext(t: PageText, seen: set<string>, kept: seq<string>, line: string, elementKeys: set<string>, rules: TextRules)
    requires SeenKeys(t, seen, rules.key) && Holds(t, Unseen(kept, elementKeys, rules.key), rules)
    ensures var next := Unseen(kept + [line], elementKeys, rules.key);
      if rules.key(line) in seen || rules.key(line) in elementKeys then next == Unseen(kept, elementKeys, rules.key)
      else Holds(Into(t, line, BucketOf(line, rules)), next, rules)
  {
    UnseenGrows(kept, line, elementKeys, rules.key);
    HeldAreLines(t, Unseen(kept, elementKeys, rules.key), rules);
    HoldsOneMore(t, Unseen(kept, elementKeys, rules.key), line, rules);
  }

  // ---------------------------------------------------------------- the header

  /** What the header of a snapshot is made of; the address and the tab are given as the page redacts them. */
  datatype PageFacts = PageFacts(
    identity: Identity, observedAt: string, url: string, title: Option<string>, readiness: Option<string>,
    tab: Option<string>, openedTabs: seq<string>)

  function Labelled(label_: string, value: Option<string>): seq<string> {
    if value.Some? then [label_ + value.value] else []
  }

  function Listed(refs: seq<string>, safe: string -> string): string {
    if refs == [] then ""
    else if |refs| == 1 then safe(refs[0])
    else safe(refs[0]) + ", " + Listed(refs[1..], safe)
  }

  function IdentityLine(i: Identity): string {
    "Identity: documentEpoch=" + PrintInt(i.documentEpoch) + " actionRevision=" + PrintInt(i.actionRevision)
    + " observationId=" + PrintInt(i.observationId)
  }

  function RawHeader(p: PageFacts, safe: string -> string): seq<string> {
    ["[Compact viewport snapshot]", IdentityLine(p.identity), "Observed: " + safe(p.observedAt), "URL: " + p.url]
    + Labelled("Title: ", if p.title.Some? then Some(safe(p.title.value)) else None) + Labelled("Readiness: ", p.readiness)
    + Labelled("Controlled tab: ", p.tab)
    + Labelled("Opened tabs: ", if p.openedTabs == [] then None else Some(Listed(p.openedTabs, safe)))
  }

  function SnapshotHeader(p: PageFacts, safe: string -> string): (r: seq<string>)
    ensures |r| >= 4 && forall line :: line in r ==> |line| <= MAX_RENDERED_LINE_CHARS
  {
    var raw := RawHeader(p, safe);
    seq(|raw|, i requires 0 <= i < |raw| => BoundLine(safe(raw[i])))
  }

  // ---------------------------------------------------------------- the budget branches

  const MINIMUM_BUDGET := 256

  datatype Compaction = Compaction(
    content: string, compacted: bool, truncated: bool, inputChars: nat, outputChars: nat, omittedItems: int)

  /** The whole page without a budget. */
  function Exhaustive(header: seq<string>, sections: seq<Section>): string {
    Join(header + FlattenSections(sections))
  }

  function FlattenSections(sections: seq<Section>): seq<string> {
    if sections == [] then [] else ["", sections[0].heading] + sections[0].lines + FlattenSections(sections[1..])
  }

  /** The larger of what the caller measured before any reduction, if anything, and the whole page. */
  function Measured(exhaustive: string, inputChars: Option<nat>): nat {
    if inputChars.Some? && inputChars.value > |exhaustive| then inputChars.value else |exhaustive|
  }

  /** Something was dropped before the page was rendered. */
  predicate SourceReduced(exhaustive: string, text: PageText, inputChars: Option<nat>) {
    text.sourceReduced || (inputChars.Some? && inputChars.value > |exhaustive|)
  }

  function Compacted(header: seq<string>, sections: seq<Section>, text: PageText, inputChars: Option<nat>, maxChars: nat): Compaction {
    var exhaustive := Exhaustive(header, sections);
    var reduced := SourceReduced(exhaustive, text, inputChars);
    if |exhaustive| <= maxChars then
      var content := if reduced then AppendCompactionSuffix(exhaustive, maxChars) else exhaustive;
      Compaction(content, reduced, text.truncated, Measured(exhaustive, inputChars), |content|, text.omitted)
    else
      var content := AppendCompactionSuffix(Rendered(header, sections, maxChars), maxChars);
      Compaction(content, true, true, Measured(exhaustive, inputChars), |content|,
                 text.omitted + Omitted(sections, Pack(header, sections, Available(maxChars)).counts))
  }

  /** The page exceeds the budget just when its header alone does and ends with the suffix. A page that fits is marked
      compacted just when its source was reduced, and is untouched otherwise; of a page that does not fit, the section
      lines rendered and the omitted ones are all lines. */
  method CompactSnapshot(header: seq<string>, sections: seq<Section>, text: PageText, inputChars: Option<nat>, maxChars: nat)
    returns (r: Compaction)
    ensures r == Compacted(header, sections, text, inputChars, maxChars)
    ensures |r.content| > maxChars <==> EndsWith(Join(header), SUFFIX) && |Join(header)| > maxChars
    ensures !r.compacted ==> r.content == Exhaustive(header, sections) && r.omittedItems == text.omitted
    ensures |Exhaustive(header, sections)| > maxChars ==>
              && r.compacted && r.truncated && r.content == AppendCompactionSuffix(Rendered(header, sections, maxChars), maxChars)
              && r.omittedItems - text.omitted + LineCount(Pack(header, sections, Available(maxChars)).items) == TotalLines(sections)
    ensures |Exhaustive(header, sections)| <= maxChars ==>
              && |r.content| <= maxChars && r.truncated == text.truncated && r.omittedItems == text.omitted
              && (r.compacted <==>
                    text.sourceReduced || (inputChars.Some? && inputChars.value > |Exhaustive(header, sections)|))
              && r.content == (if r.compacted then AppendCompactionSuffix(Exhaustive(header, sections), maxChars)
                               else Exhaustive(header, sections))
  {
    var exhaustive := Exhaustive(header, sections);
    var measured := if inputChars.Some? && inputChars.value > |exhaustive| then inputChars.value else |exhaustive|;
    var sourceReduced := text.sourceReduced || measured > |exhaustive|;
    HeaderIsShorter(header, sections);
    if |exhaustive| <= maxChars {
      SuffixFitsIff(exhaustive, maxChars);
      var content := if sourceReduced then AppendCompactionSuffix(exhaustive, maxChars) else exhaustive;
      return Compaction(content, sourceReduced, text.truncated, measured, |content|, text.omitted);
    }
    var content, omitted := RenderBudgetedSections(header, sections, maxChars);
    BudgetKeptIff(header, sections, maxChars);
    OmittedCounts(header, sections, Available(maxChars));
    r := Compaction(content, true, true, measured, |content|, text.omitted + omitted);
  }

  lemma HeaderIsShorter(header: seq<string>, sections: seq<Section>)
    ensures |Join(header)| <= |Exhaustive(header, sections)|
  {
    var rest := FlattenSections(sections);
    JoinLength(header);
    JoinLength(header + rest);
    SizeAdds(header, rest);
    SizeCovers(rest);
  }

  /** When the whole page fits but its source was already reduced, the suffix step may cut text, and the result is marked
      truncated only if the page text was: it loses nothing but trailing white space exactly when the page leaves room
      for the suffix. */
  lemma ReducedPageKeptIff(header: seq<string>, sections: seq<Section>, text: PageText, inputChars: Option<nat>, maxChars: nat)
    requires |Exhaustive(header, sections)| <= maxChars && SourceReduced(Exhaustive(header, sections), text, inputChars)
    requires !EndsWith(Exhaustive(header, sections), SUFFIX) && !IsBlank(Exhaustive(header, sections))
    ensures var r := Compacted(header, sections, text, inputChars, maxChars);
      && (r.content == WithSuffix(Exhaustive(header, sections)) <==> |TrimEnd(Exhaustive(header, sections))| <= Available(maxChars))
      && r.truncated == text.truncated
  {
    SuffixKeepsIff(Exhaustive(header, sections), maxChars);
  }

  // ---------------------------------------------------------------- two pages

  /** A page with an address, a title and nothing else, on which redaction finds nothing. */
  function TitledPage(title: string): PageFacts {
    PageFacts(Identity(1, 0, 1), "2025-01-01T00:00:00.000Z", "https://example.com/", Some(title), None, None, [])
  }

  const PLAIN: string -> string := s => s

  function TitledHeader(title: string): seq<string> { SnapshotHeader(TitledPage(title), PLAIN) }

  function TitledFront(): seq<string> {
    ["[Compact viewport snapshot]", IdentityLine(Identity(1, 0, 1)), "Observed: " + "2025-01-01T00:00:00.000Z",
     "URL: " + "https://example.com/"]
  }

  lemma TitledFrontLength()
    ensures |Join(TitledFront())| == 147
    ensures forall line :: line in TitledFront() ==> |line| <= 58
  {
    var f := TitledFront();
    JoinLength(f);
    assert f[..3][..2] == f[..2] && f[..2][..1] == f[..1] && f[..1][..0] == [];
    IdentityLength();
    assert Size(f[..1]) == 28;
    assert Size(f[..2]) == 87;
    assert Size(f[..3]) == 122;
  }

  lemma IdentityLength()
    ensures |IdentityLine(Identity(1, 0, 1))| == 58
  {
    assert |PrintInt(1)| == 1 && |PrintInt(0)| == 1;
  }

  lemma JoinOneMore(lines: seq<string>, last: string)
    requires lines != []
    ensures Join(lines + [last]) == Join(lines) + "\n" + last
  {
    assert (lines + [last])[..|lines|] == lines;
  }

  /** The page is its header, which ends with the title. */
  lemma TitledText(title: string)
    requires |title| <= 200
    ensures Exhaustive(TitledHeader(title), []) == Join(TitledHeader(title)) == Join(TitledFront()) + "\n" + ("Title: " + title)
    ensures |Join(TitledHeader(title))| == 155 + |title|
  {
    TitledFrontLength();
    TitledLines(title);
    JoinOneMore(TitledFront(), "Title: " + title);
    assert TitledHeader(title) + [] == TitledHeader(title);
  }

  /** Short lines in which redaction finds nothing are the header as they are. */
  lemma PlainHeader(p: PageFacts)
    requires forall line :: line in RawHeader(p, PLAIN) ==> |line| <= MAX_RENDERED_LINE_CHARS
    ensures SnapshotHeader(p, PLAIN) == RawHeader(p, PLAIN)
  {
    PlainLines(RawHeader(p, PLAIN), SnapshotHeader(p, PLAIN));
  }

  lemma PlainLines(raw: seq<string>, header: seq<string>)
    requires forall line :: line in raw ==> |line| <= MAX_RENDERED_LINE_CHARS
    requires |header| == |raw| && forall i :: 0 <= i < |raw| ==> header[i] == BoundLine(raw[i])
    ensures header == raw
  {}

  lemma TitledRaw(title: string)
    ensures RawHeader(TitledPage(title), PLAIN) == TitledFront() + ["Title: " + title]
  {
    assert Labelled("Title: ", Some(title)) == ["Title: " + title];
  }

  lemma TitledLines(title: string)
    requires |title| <= 200
    ensures TitledHeader(title) == TitledFront() + ["Title: " + title]
  {
    TitledRaw(title);
    TitledFrontLength();
    PlainHeader(TitledPage(title));
  }

  lemma CutAtText(page: string, maxChars: nat)
    requires 0 < Available(maxChars) < |page| && page[|page| - 1] != ']'
    requires !IsSpace(page[Available(maxChars) - 1])
    ensures AppendCompactionSuffix(page, maxChars) == page[..Available(maxChars)] + "\n" + SUFFIX
    ensures !EndsWith(page, SUFFIX)
  {
    var n := |page| - |SUFFIX|;
    assert SUFFIX[|SUFFIX| - 1] == ']';
    assert !EndsWith(page, SUFFIX) by {
      if n >= 0 { assert page[n..][|SUFFIX| - 1] == page[|page| - 1]; }
    }
    TrimEndIsUnique(page[..Available(maxChars)], page[..Available(maxChars)]);
  }

  /** The characters from position 155 on are the title's. */
  lemma TitledTail(title: string, i: nat)
    requires |title| <= 200 && i < |title|
    ensures |Exhaustive(TitledHeader(title), [])| == 155 + |title|
    ensures Exhaustive(TitledHeader(title), [])[155 + i] == title[i]
  {
    TitledText(title);
    TitledFrontLength();
    var page := Exhaustive(TitledHeader(title), []);
    assert page[148..] == "Title: " + title;
    assert page[148..][7 + i] == title[i];
  }

  /** A page that fits, whose source was reduced, is cut at a character of text. */
  lemma ReducedCut(header: seq<string>, measured: nat, maxChars: nat)
    requires var page := Exhaustive(header, []);
      && 0 < Available(maxChars) < |page| <= maxChars && |page| < measured
      && page[|page| - 1] != ']' && !IsSpace(page[Available(maxChars) - 1])
    ensures var page, r := Exhaustive(header, []), Compacted(header, [], NO_TEXT, Some(measured), maxChars);
      r.compacted && !r.truncated && r.omittedItems == 0 && r.content == page[..Available(maxChars)] + "\n" + SUFFIX
  {
    CutAtText(Exhaustive(header, []), maxChars);
  }

  lemma LongSuffixedHeader(header: seq<string>, sections: seq<Section>, text: PageText, inputChars: Option<nat>, maxChars: nat)
    requires EndsWith(Join(header), SUFFIX) && |Join(header)| > maxChars
    ensures Compacted(header, sections, text, inputChars, maxChars).content == Join(header)
  {
    HeaderIsShorter(header, sections);
    LongHeaderIsAll(header, sections, maxChars);
  }

  /** A title of 90 characters makes a page of 245: it fits the smallest budget, but once the caller has measured more
      than that, the last 23 characters of the title are cut, and the result is not marked truncated. */
  lemma ReducedPageLosesText(title: string)
    requires |title| == 90 && forall c :: c in title ==> c == 'x'
    ensures var page, r := Exhaustive(TitledHeader(title), []),
                           Compacted(TitledHeader(title), [], NO_TEXT, Some(1000), MINIMUM_BUDGET);
      && |page| == 245 && r.compacted && !r.truncated && r.omittedItems == 0
      && r.content == page[..222] + "\n" + SUFFIX
  {
    TitledEnds(title);
    SmallestRoom();
    ReducedCut(TitledHeader(title), 1000, MINIMUM_BUDGET);
  }

  lemma TitledEnds(title: string)
    requires |title| == 90 && forall c :: c in title ==> c == 'x'
    ensures var page := Exhaustive(TitledHeader(title), []);
      |page| == 245 && page[244] != ']' && !IsSpace(page[221])
  {
    TitledTail(title, 89);
    TitledTail(title, 66);
    assert title[89] in title && title[66] in title;
  }

  lemma SmallestRoom()
    ensures Available(MINIMUM_BUDGET) == 222
  {}

  lemma LastPartEnds(a: string, b: string, c: string, end: string)
    ensures EndsWith(a + (b + (c + end)), end)
  {
    assert (a + (b + (c + end)))[|a| + |b| + |c|..] == end;
  }

  lemma SuffixedTitle(title: string)
    requires |title| <= 150
    ensures var header := TitledHeader(title + SUFFIX); EndsWith(Join(header), SUFFIX) && |Join(header)| == 188 + |title|
  {
    assert |SUFFIX| == 33;
    TitledText(title + SUFFIX);
    LastPartEnds(Join(TitledFront()) + "\n", "Title: ", title, SUFFIX);
  }

  /** A title that ends with the suffix makes a header that is too long and taken for compacted already. */
  lemma SuffixedTitleExceeds(title: string)
    requires |title| == 80
    ensures |Compacted(TitledHeader(title + SUFFIX), [], NO_TEXT, None, MINIMUM_BUDGET).content| == 268 > MINIMUM_BUDGET
  {
    SuffixedTitle(title);
    LongSuffixedHeader(TitledHeader(title + SUFFIX), [], NO_TEXT, None, MINIMUM_BUDGET);
  }
}
