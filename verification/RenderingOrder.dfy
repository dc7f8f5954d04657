/** The packed page line by line: which sections get their minimum, what the second round adds to each in turn, and where
    the suffix step cuts. Together these determine the rendered text. */
module RenderingOrder {
  import opened Text
  import opened Rendering
  import opened Wrappers
  import Compactor

  /** What a section is owed before any other gets more. */
  function Least(x: Section): nat { if x.minimumLines <= |x.lines| then x.minimumLines else |x.lines| }

  /** The lines still fit once joined; a text that starts with them is charged one character more. */
  predicate Room(existing: seq<string>, additions: seq<string>, budget: nat) {
    |Join(existing + additions)| + (if existing == [] then 1 else 0) <= budget
  }

  function Opening(x: Section, n: nat): seq<string>
    requires n <= |x.lines|
  {
    ["", x.heading] + x.lines[..n]
  }

  /** The page after the first round over the first `n` sections. */
  function Given(header: seq<string>, sections: seq<Section>, chosen: seq<bool>, n: nat): seq<string>
    requires n <= |sections| && n <= |chosen|
  {
    if n == 0 then header
    else Given(header, sections, chosen, n - 1)
         + if chosen[n - 1] then Opening(sections[n - 1], Least(sections[n - 1])) else []
  }

  function Start(x: Section, chosen: bool): nat { if chosen then Least(x) else 0 }

  /** What the second round adds to a section that shows `from` lines and ends with `to`. */
  function Added(x: Section, from: nat, to: nat): seq<string>
    requires from <= to <= |x.lines|
  {
    if from == 0 && to > 0 then Opening(x, to) else x.lines[from..to]
  }

  predicate Between(sections: seq<Section>, chosen: seq<bool>, counts: seq<nat>) {
    && |chosen| == |counts| == |sections|
    && forall s :: 0 <= s < |sections| ==> Start(sections[s], chosen[s]) <= counts[s] <= |sections[s].lines|
  }

  /** The page after the second round over the first `n` sections. */
  function Shown(header: seq<string>, sections: seq<Section>, chosen: seq<bool>, counts: seq<nat>, n: nat): seq<string>
    requires Between(sections, chosen, counts) && n <= |sections|
  {
    if n == 0 then Given(header, sections, chosen, |sections|)
    else Shown(header, sections, chosen, counts, n - 1)
         + Added(sections[n - 1], Start(sections[n - 1], chosen[n - 1]), counts[n - 1])
  }

  /** A section gets its minimum exactly when there is one and it fits behind what was given before. */
  predicate RightAt(header: seq<string>, sections: seq<Section>, chosen: seq<bool>, budget: nat, s: nat)
    requires s < |sections| && s < |chosen|
  {
    chosen[s] <==>
      Least(sections[s]) > 0 && Room(Given(header, sections, chosen, s), Opening(sections[s], Least(sections[s])), budget)
  }

  predicate FirstRound(header: seq<string>, sections: seq<Section>, chosen: seq<bool>, budget: nat) {
    |chosen| == |sections| && forall s :: 0 <= s < |sections| ==> RightAt(header, sections, chosen, budget, s)
  }

  function NextLines(x: Section, count: nat): seq<string>
    requires count < |x.lines|
  {
    if count == 0 then Opening(x, 1) else [x.lines[count]]
  }

  /** A section that shows `from` lines behind a page is gone on with up to `count` of them: each of these still fits, the
      next one does not. */
  predicate StopsAt(before: seq<string>, x: Section, from: nat, count: nat, budget: nat) {
    && from <= count <= |x.lines|
    && (count > from ==> Room(before, NextLines(x, from), budget) && |Join(before + Added(x, from, count))| <= budget)
    && (count < |x.lines| ==> !Room(before + Added(x, from, count), NextLines(x, count), budget))
  }

  predicate FilledAt(header: seq<string>, sections: seq<Section>, chosen: seq<bool>, counts: seq<nat>, budget: nat, s: nat)
    requires Between(sections, chosen, counts) && s < |sections|
  {
    StopsAt(Shown(header, sections, chosen, counts, s), sections[s], Start(sections[s], chosen[s]), counts[s], budget)
  }

  /** The second round fills the sections in turn. */
  predicate SecondRound(header: seq<string>, sections: seq<Section>, chosen: seq<bool>, counts: seq<nat>, budget: nat, n: nat)
    requires Between(sections, chosen, counts) && n <= |sections|
  {
    forall s :: 0 <= s < n ==> FilledAt(header, sections, chosen, counts, budget, s)
  }

  // ---------------------------------------------------------------- the first round

  lemma OpeningIsBlock(header: seq<string>, sections: seq<Section>, s: nat, n: nat)
    requires s < |sections| && n <= |sections[s].lines|
    ensures Texts(header, sections, Block(s, n)) == Opening(sections[s], n)
  {}

  lemma {:induction false} GivenAgrees(header: seq<string>, sections: seq<Section>, a: seq<bool>, b: seq<bool>, n: nat)
    requires n <= |sections| && n <= |a| && n <= |b| && a[..n] == b[..n]
    ensures Given(header, sections, a, n) == Given(header, sections, b, n)
    decreases n
  {
    if n > 0 {
      assert a[..n - 1] == a[..n][..n - 1] && b[..n - 1] == b[..n][..n - 1];
      assert a[n - 1] == a[..n][n - 1] && b[n - 1] == b[..n][n - 1];
      GivenAgrees(header, sections, a, b, n - 1);
    }
  }

  /** The first sections were treated as the first round says, and `p` is where it stands. */
  ghost predicate GivenSoFar(header: seq<string>, sections: seq<Section>, budget: nat, chosen: seq<bool>, p: Packed) {
    && |chosen| == |p.counts| <= |sections|
    && Texts(header, sections, p.items) == Given(header, sections, chosen, |chosen|)
    && (forall u :: 0 <= u < |chosen| ==> p.counts[u] == Start(sections[u], chosen[u]))
    && (forall u :: 0 <= u < |chosen| ==> RightAt(header, sections, chosen, budget, u))
  }

  lemma GiveText(header: seq<string>, sections: seq<Section>, budget: nat, s: nat, p: Packed, yes: bool)
    requires s < |sections|
    requires yes <==> Least(sections[s]) > 0
                      && Room(Texts(header, sections, p.items), Opening(sections[s], Least(sections[s])), budget)
    ensures var r := Give(header, sections, budget, s, p);
      && Texts(header, sections, r.items)
         == Texts(header, sections, p.items) + (if yes then Opening(sections[s], Least(sections[s])) else [])
      && r.counts == p.counts + [Start(sections[s], yes)]
  {
    var least := Least(sections[s]);
    OpeningIsBlock(header, sections, s, least);
    FitsIff(Texts(header, sections, p.items), Opening(sections[s], least), budget);
    TextsAdd(header, sections, p.items, Block(s, least));
  }

  lemma RightStays(header: seq<string>, sections: seq<Section>, budget: nat, chosen: seq<bool>, more: seq<bool>)
    requires |chosen| < |sections| && |more| == |chosen| + 1 && more[..|chosen|] == chosen
    requires forall u :: 0 <= u < |chosen| ==> RightAt(header, sections, chosen, budget, u)
    ensures forall u :: 0 <= u < |chosen| ==> RightAt(header, sections, more, budget, u)
  {
    GivenLonger(header, sections, chosen, more);
    forall u | 0 <= u < |chosen| ensures RightAt(header, sections, more, budget, u) {
      assert RightAt(header, sections, chosen, budget, u);
    }
  }

  lemma GiveOne(header: seq<string>, sections: seq<Section>, budget: nat, chosen: seq<bool>, p: Packed) returns (more: seq<bool>)
    requires GivenSoFar(header, sections, budget, chosen, p) && |chosen| < |sections|
    ensures GivenSoFar(header, sections, budget, more, Give(header, sections, budget, |chosen|, p))
    ensures |more| == |chosen| + 1
  {
    var x, given := sections[|chosen|], Given(header, sections, chosen, |chosen|);
    var yes := Least(x) > 0 && Room(given, Opening(x, Least(x)), budget);
    more := chosen + [yes];
    GiveText(header, sections, budget, |chosen|, p, yes);
    GivenNext(header, sections, budget, chosen, p, yes, Give(header, sections, budget, |chosen|, p));
  }

  lemma GivenNext(header: seq<string>, sections: seq<Section>, budget: nat, chosen: seq<bool>, p: Packed, yes: bool, r: Packed)
    requires GivenSoFar(header, sections, budget, chosen, p) && |chosen| < |sections|
    requires var x, given := sections[|chosen|], Given(header, sections, chosen, |chosen|);
      && (yes <==> Least(x) > 0 && Room(given, Opening(x, Least(x)), budget))
      && Texts(header, sections, r.items) == given + (if yes then Opening(x, Least(x)) else [])
      && r.counts == p.counts + [Start(x, yes)]
    ensures GivenSoFar(header, sections, budget, chosen + [yes], r)
  {
    RightStays(header, sections, budget, chosen, chosen + [yes]);
    RightNext(header, sections, budget, chosen, yes);
    StartsNext(sections, chosen, yes, p.counts, r.counts);
  }

  lemma StartsNext(sections: seq<Section>, chosen: seq<bool>, yes: bool, counts: seq<nat>, next: seq<nat>)
    requires |chosen| == |counts| < |sections| && next == counts + [Start(sections[|chosen|], yes)]
    requires forall u :: 0 <= u < |chosen| ==> counts[u] == Start(sections[u], chosen[u])
    ensures forall u :: 0 <= u <= |chosen| ==> next[u] == Start(sections[u], (chosen + [yes])[u])
  {}

  lemma RightNext(header: seq<string>, sections: seq<Section>, budget: nat, chosen: seq<bool>, yes: bool)
    requires |chosen| < |sections|
    requires var x, given := sections[|chosen|], Given(header, sections, chosen, |chosen|);
      yes <==> Least(x) > 0 && Room(given, Opening(x, Least(x)), budget)
    ensures RightAt(header, sections, chosen + [yes], budget, |chosen|)
    ensures Given(header, sections, chosen + [yes], |chosen| + 1) == Given(header, sections, chosen, |chosen|)
      + if yes then Opening(sections[|chosen|], Least(sections[|chosen|])) else []
  {
    GivenLonger(header, sections, chosen, chosen + [yes]);
  }

  lemma GivenLonger(header: seq<string>, sections: seq<Section>, chosen: seq<bool>, more: seq<bool>)
    requires |chosen| < |sections| && |more| == |chosen| + 1 && more[..|chosen|] == chosen
    ensures forall u: nat :: u <= |chosen| ==> Given(header, sections, more, u) == Given(header, sections, chosen, u)
    ensures forall u :: 0 <= u < |chosen| ==> more[u] == chosen[u]
  {
    forall u: nat | u <= |chosen| ensures Given(header, sections, more, u) == Given(header, sections, chosen, u) {
      assert more[..u] == more[..|chosen|][..u];
      GivenAgrees(header, sections, more, chosen, u);
    }
    forall u | 0 <= u < |chosen| ensures more[u] == chosen[u] { assert more[..|chosen|][u] == more[u]; }
  }

  lemma {:induction false} FirstPassGives(header: seq<string>, sections: seq<Section>, budget: nat, chosen: seq<bool>, p: Packed)
    returns (all: seq<bool>)
    requires GivenSoFar(header, sections, budget, chosen, p)
    ensures |all| == |sections|
    ensures GivenSoFar(header, sections, budget, all, FirstPass(header, sections, budget, |chosen|, p))
    decreases |sections| - |chosen|
  {
    all := chosen;
    if |chosen| < |sections| {
      var more := GiveOne(header, sections, budget, chosen, p);
      all := FirstPassGives(header, sections, budget, more, Give(header, sections, budget, |chosen|, p));
    }
  }

  // ---------------------------------------------------------------- the second round

  lemma LineText(header: seq<string>, sections: seq<Section>, s: nat, k: nat)
    requires s < |sections| && k < |sections[s].lines|
    ensures Texts(header, sections, [Line(s, k)]) == [sections[s].lines[k]]
  {}

  /** A line that fits, and then where the section stops. */
  lemma StopsLater(before: seq<string>, x: Section, count: nat, to: nat, budget: nat)
    requires 0 < count < |x.lines| && Room(before, [x.lines[count]], budget)
    requires StopsAt(before + [x.lines[count]], x, count + 1, to, budget)
    ensures StopsAt(before, x, count, to, budget)
    ensures before + [x.lines[count]] + Added(x, count + 1, to) == before + Added(x, count, to)
  {
    assert x.lines[count..to] == [x.lines[count]] + x.lines[count + 1..to];
    assert before + [x.lines[count]] + Added(x, count + 1, to) == before + Added(x, count, to);
    if to == count + 1 { assert before + Added(x, count, to) == before + [x.lines[count]]; }
  }

  lemma StopsHere(before: seq<string>, x: Section, count: nat, budget: nat)
    requires count <= |x.lines| && (count < |x.lines| ==> !Room(before, NextLines(x, count), budget))
    ensures StopsAt(before, x, count, count, budget) && before + Added(x, count, count) == before
  {
    assert before + Added(x, count, count) == before;
  }

  lemma {:induction false} ExtendText(header: seq<string>, sections: seq<Section>, budget: nat, s: nat, count: nat, items: seq<Item>)
    requires s < |sections| && 0 < count <= |sections[s].lines|
    ensures var (to, items') := Extend(header, sections, budget, s, count, items);
      && StopsAt(Texts(header, sections, items), sections[s], count, to, budget)
      && Texts(header, sections, items') == Texts(header, sections, items) + Added(sections[s], count, to)
    decreases |sections[s].lines| - count
  {
    var x, t := sections[s], Texts(header, sections, items);
    if count < |x.lines| {
      LineText(header, sections, s, count);
      FitsIff(t, [x.lines[count]], budget);
      TextsAdd(header, sections, items, [Line(s, count)]);
    }
    if count < |x.lines| && Room(t, [x.lines[count]], budget) {
      ExtendText(header, sections, budget, s, count + 1, items + [Line(s, count)]);
      StopsLater(t, x, count, Extend(header, sections, budget, s, count, items).0, budget);
    } else {
      StopsHere(t, x, count, budget);
    }
  }

  lemma FillText(header: seq<string>, sections: seq<Section>, budget: nat, s: nat, count: nat, items: seq<Item>)
    requires s < |sections| && count <= |sections[s].lines|
    ensures var (to, items') := Fill(header, sections, budget, s, count, items);
      && StopsAt(Texts(header, sections, items), sections[s], count, to, budget)
      && Texts(header, sections, items') == Texts(header, sections, items) + Added(sections[s], count, to)
  {
    var x, t := sections[s], Texts(header, sections, items);
    if count > 0 {
      ExtendText(header, sections, budget, s, count, items);
    } else {
      if x.lines != [] {
        OpeningIsBlock(header, sections, s, 1);
        FitsIff(t, Opening(x, 1), budget);
      }
      if x.lines != [] && Room(t, Opening(x, 1), budget) {
        OpenText(header, sections, budget, s, items);
      } else {
        StopsHere(t, x, 0, budget);
      }
    }
  }

  /** An opening that fits, and then where the section stops. */
  lemma OpensAndStops(before: seq<string>, x: Section, to: nat, budget: nat)
    requires x.lines != [] && Room(before, Opening(x, 1), budget) && StopsAt(before + Opening(x, 1), x, 1, to, budget)
    ensures StopsAt(before, x, 0, to, budget)
    ensures before + Opening(x, 1) + Added(x, 1, to) == before + Added(x, 0, to)
  {
    assert x.lines[..1] + x.lines[1..to] == x.lines[..to];
    assert before + Opening(x, 1) + Added(x, 1, to) == before + Added(x, 0, to);
    if to == 1 { assert before + Added(x, 0, to) == before + Opening(x, 1); }
  }

  lemma OpenText(header: seq<string>, sections: seq<Section>, budget: nat, s: nat, items: seq<Item>)
    requires s < |sections| && sections[s].lines != [] && Room(Texts(header, sections, items), Opening(sections[s], 1), budget)
    ensures var (to, items') := Extend(header, sections, budget, s, 1, items + Block(s, 1));
      && StopsAt(Texts(header, sections, items), sections[s], 0, to, budget)
      && Texts(header, sections, items') == Texts(header, sections, items) + Added(sections[s], 0, to)
  {
    OpeningIsBlock(header, sections, s, 1);
    TextsAdd(header, sections, items, Block(s, 1));
    ExtendText(header, sections, budget, s, 1, items + Block(s, 1));
    var to := Extend(header, sections, budget, s, 1, items + Block(s, 1)).0;
    OpensAndStops(Texts(header, sections, items), sections[s], to, budget);
  }

  lemma {:induction false} ShownAgrees(header: seq<string>, sections: seq<Section>, chosen: seq<bool>, a: seq<nat>, b: seq<nat>, n: nat)
    requires Between(sections, chosen, a) && Between(sections, chosen, b) && n <= |sections|
    requires forall s :: 0 <= s < n ==> a[s] == b[s]
    ensures Shown(header, sections, chosen, a, n) == Shown(header, sections, chosen, b, n)
    decreases n
  {
    if n > 0 { ShownAgrees(header, sections, chosen, a, b, n - 1); }
  }

  /** The first `n` sections are filled, the others still show what the first round gave them. */
  ghost predicate ShownSoFar(header: seq<string>, sections: seq<Section>, budget: nat, chosen: seq<bool>, n: nat, p: Packed) {
    && Between(sections, chosen, p.counts) && n <= |sections|
    && (forall s :: n <= s < |sections| ==> p.counts[s] == Start(sections[s], chosen[s]))
    && Texts(header, sections, p.items) == Shown(header, sections, chosen, p.counts, n)
    && SecondRound(header, sections, chosen, p.counts, budget, n)
  }

  lemma FilledAgrees(header: seq<string>, sections: seq<Section>, chosen: seq<bool>, a: seq<nat>, b: seq<nat>, budget: nat, s: nat)
    requires Between(sections, chosen, a) && Between(sections, chosen, b) && s < |sections|
    requires forall u :: 0 <= u <= s ==> a[u] == b[u]
    requires FilledAt(header, sections, chosen, a, budget, s)
    ensures FilledAt(header, sections, chosen, b, budget, s)
  {
    ShownAgrees(header, sections, chosen, a, b, s);
  }

  lemma RoundAgrees(header: seq<string>, sections: seq<Section>, chosen: seq<bool>, a: seq<nat>, b: seq<nat>, budget: nat, n: nat)
    requires Between(sections, chosen, a) && Between(sections, chosen, b) && n <= |sections|
    requires forall s :: 0 <= s < n ==> a[s] == b[s]
    requires SecondRound(header, sections, chosen, a, budget, n)
    ensures SecondRound(header, sections, chosen, b, budget, n)
  {
    forall s | 0 <= s < n ensures FilledAt(header, sections, chosen, b, budget, s) {
      FilledAgrees(header, sections, chosen, a, b, budget, s);
    }
  }

  lemma FillOne(header: seq<string>, sections: seq<Section>, budget: nat, chosen: seq<bool>, n: nat, p: Packed)
    requires ShownSoFar(header, sections, budget, chosen, n, p) && n < |sections|
    ensures ShownSoFar(header, sections, budget, chosen, n + 1, Filled(header, sections, budget, n, p))
  {
    var r := Filled(header, sections, budget, n, p);
    FillText(header, sections, budget, n, p.counts[n], p.items);
    assert forall s :: 0 <= s < |sections| && s != n ==> r.counts[s] == p.counts[s];
    assert Between(sections, chosen, r.counts);
    ShownAgrees(header, sections, chosen, p.counts, r.counts, n);
    RoundAgrees(header, sections, chosen, p.counts, r.counts, budget, n);
  }

  lemma {:induction false} SecondPassShows(header: seq<string>, sections: seq<Section>, budget: nat, chosen: seq<bool>, n: nat,
                                           p: Packed, r: Packed)
    requires ShownSoFar(header, sections, budget, chosen, n, p) && r == SecondPass(header, sections, budget, n, p)
    ensures ShownSoFar(header, sections, budget, chosen, |sections|, r)
    decreases |sections| - n
  {
    if n < |sections| {
      FillOne(header, sections, budget, chosen, n, p);
      SecondPassShows(header, sections, budget, chosen, n + 1, Filled(header, sections, budget, n, p), r);
    }
  }

  // ---------------------------------------------------------------- the whole page

  /** The packed page: after the header the minimums of the sections for which they fit, in order, then for each section
      in turn the lines it still shows, opened by its heading if it had none. */
  ghost predicate IsPacking(header: seq<string>, sections: seq<Section>, chosen: seq<bool>, counts: seq<nat>, budget: nat) {
    && FirstRound(header, sections, chosen, budget) && Between(sections, chosen, counts)
    && SecondRound(header, sections, chosen, counts, budget, |sections|)
  }

  /** The rendered page is the packing for the budget that leaves room for the suffix and a line break. */
  lemma RenderedIs(header: seq<string>, sections: seq<Section>, maxChars: nat) returns (chosen: seq<bool>, counts: seq<nat>)
    ensures IsPacking(header, sections, chosen, counts, RoomForPage(maxChars))
    ensures counts == Pack(header, sections, Available(maxChars)).counts
    ensures Rendered(header, sections, maxChars) == Join(Shown(header, sections, chosen, counts, |sections|))
  {
    RoomIs(maxChars);
    chosen, counts := PackIs(header, sections, Available(maxChars));
  }

  lemma PackIs(header: seq<string>, sections: seq<Section>, budget: nat) returns (chosen: seq<bool>, counts: seq<nat>)
    ensures IsPacking(header, sections, chosen, counts, budget) && counts == Pack(header, sections, budget).counts
    ensures Texts(header, sections, Pack(header, sections, budget).items) == Shown(header, sections, chosen, counts, |sections|)
  {
    var start := Packed(HeaderItems(|header|), []);
    assert Texts(header, sections, start.items) == header;
    chosen := FirstPassGives(header, sections, budget, [], start);
    var first := FirstPass(header, sections, budget, 0, start);
    var packed := SecondPass(header, sections, budget, 0, first);
    SecondPassShows(header, sections, budget, chosen, 0, first, packed);
    counts := packed.counts;
    assert FirstRound(header, sections, chosen, budget);
  }

  /** What the suffix, 33 characters, and a line break leave of the budget. */
  function RoomForPage(maxChars: nat): nat { if maxChars >= 34 then maxChars - 34 else 0 }

  /** There is one packing only: a page that keeps both rounds is the rendered one. */
  lemma PackingIsUnique(header: seq<string>, sections: seq<Section>, a: seq<bool>, c: seq<nat>, b: seq<bool>, d: seq<nat>, budget: nat)
    requires IsPacking(header, sections, a, c, budget) && IsPacking(header, sections, b, d, budget)
    ensures a == b && c == d
  {
    ChosenAgree(header, sections, a, b, budget, |sections|);
    assert a[..|sections|] == a && b[..|sections|] == b;
    CountsAgree(header, sections, a, c, d, budget, |sections|);
  }

  lemma {:induction false} ChosenAgree(header: seq<string>, sections: seq<Section>, a: seq<bool>, b: seq<bool>, budget: nat, n: nat)
    requires FirstRound(header, sections, a, budget) && FirstRound(header, sections, b, budget) && n <= |sections|
    ensures a[..n] == b[..n]
    decreases n
  {
    if n > 0 {
      ChosenAgree(header, sections, a, b, budget, n - 1);
      GivenAgrees(header, sections, a, b, n - 1);
      assert RightAt(header, sections, a, budget, n - 1) && RightAt(header, sections, b, budget, n - 1);
      assert a[..n] == a[..n - 1] + [a[n - 1]] && b[..n] == b[..n - 1] + [b[n - 1]];
    }
  }

  lemma {:induction false} CountsAgree(header: seq<string>, sections: seq<Section>, chosen: seq<bool>, c: seq<nat>, d: seq<nat>,
                                       budget: nat, n: nat)
    requires Between(sections, chosen, c) && Between(sections, chosen, d) && n <= |sections|
    requires SecondRound(header, sections, chosen, c, budget, n) && SecondRound(header, sections, chosen, d, budget, n)
    ensures forall s :: 0 <= s < n ==> c[s] == d[s]
    decreases n
  {
    if n > 0 {
      CountsAgree(header, sections, chosen, c, d, budget, n - 1);
      OneCount(header, sections, chosen, c, d, budget, n - 1);
    }
  }

  lemma OneCount(header: seq<string>, sections: seq<Section>, chosen: seq<bool>, c: seq<nat>, d: seq<nat>, budget: nat, s: nat)
    requires Between(sections, chosen, c) && Between(sections, chosen, d) && s < |sections|
    requires forall u :: 0 <= u < s ==> c[u] == d[u]
    requires FilledAt(header, sections, chosen, c, budget, s) && FilledAt(header, sections, chosen, d, budget, s)
    ensures c[s] == d[s]
  {
    ShownAgrees(header, sections, chosen, c, d, s);
    StopsOnce(Shown(header, sections, chosen, c, s), sections[s], Start(sections[s], chosen[s]), c[s], d[s], budget);
  }

  lemma StopsOnce(before: seq<string>, x: Section, from: nat, c: nat, d: nat, budget: nat)
    requires StopsAt(before, x, from, c, budget) && StopsAt(before, x, from, d, budget)
    ensures c == d
  {
    if c < d {
      NotLonger(before, x, from, c, d, budget);
    } else if d < c {
      NotLonger(before, x, from, d, c, budget);
    }
  }

  /** A section cannot stop at two places. */
  lemma NotLonger(before: seq<string>, x: Section, from: nat, c: nat, d: nat, budget: nat)
    requires c < d && StopsAt(before, x, from, c, budget)
    ensures !StopsAt(before, x, from, d, budget)
  {
    if c == from {
      StopsHereOnly(before, x, from, budget);
    } else if d <= |x.lines| {
      LongerIsTooLong(before, x, from, c, d, budget);
    }
  }

  lemma StopsHereOnly(before: seq<string>, x: Section, from: nat, budget: nat)
    requires StopsAt(before, x, from, from, budget)
    ensures from < |x.lines| ==> !Room(before, NextLines(x, from), budget)
  {
    assert before + Added(x, from, from) == before;
  }

  lemma LongerIsTooLong(before: seq<string>, x: Section, from: nat, c: nat, d: nat, budget: nat)
    requires from < c < d <= |x.lines| && StopsAt(before, x, from, c, budget)
    ensures |Join(before + Added(x, from, d))| > budget
  {
    AddedSplits(x, from, c, d);
    Regrouped(before, Added(x, from, c), NextLines(x, c), x.lines[c + 1..d]);
    JoinGrows(before + Added(x, from, c) + NextLines(x, c), x.lines[c + 1..d]);
    SomethingAdded(before, x, from, c);
  }

  lemma Regrouped(a: seq<string>, b: seq<string>, c: seq<string>, d: seq<string>)
    ensures a + (b + c + d) == a + b + c + d
  {}

  lemma SomethingAdded(before: seq<string>, x: Section, from: nat, c: nat)
    requires from < c <= |x.lines|
    ensures before + Added(x, from, c) != []
  {}

  lemma JoinGrows(lines: seq<string>, rest: seq<string>)
    ensures |Join(lines + rest)| >= |Join(lines)|
  {
    JoinLength(lines);
    JoinLength(lines + rest);
    SizeAdds(lines, rest);
    if lines == [] { assert lines + rest == rest; }
  }

  lemma AddedSplits(x: Section, from: nat, c: nat, d: nat)
    requires from <= c < d <= |x.lines|
    ensures Added(x, from, d) == Added(x, from, c) + NextLines(x, c) + x.lines[c + 1..d]
  {
    assert x.lines[c..d] == [x.lines[c]] + x.lines[c + 1..d];
    if from == 0 {
      assert x.lines[..d] == x.lines[..c] + x.lines[c..d];
      if c == 0 { assert x.lines[..1] == [x.lines[0]]; }
    } else {
      assert x.lines[from..d] == x.lines[from..c] + x.lines[c..d];
    }
  }

  // ---------------------------------------------------------------- the suffix

  lemma RoomIs(maxChars: nat)
    ensures |SUFFIX| == 33 && Available(maxChars) == RoomForPage(maxChars)
  {}

  lemma CarriesIff(content: string, end: string, n: nat)
    requires |end| == n
    ensures EndsWith(content, end) <==> |content| >= n && content[|content| - n..] == end
  {}

  /** What the suffix step makes of a text that does not carry the suffix: as much of its start as leaves room, white
      space at the cut taken off, and the suffix on a line of its own; or the suffix alone, as far as it fits. */
  lemma SuffixedIs(content: string, maxChars: nat)
    requires !(|content| >= 33 && content[|content| - 33..] == SUFFIX)
    ensures AppendCompactionSuffix(content, maxChars) == Suffixed(content, RoomForPage(maxChars), SUFFIX, maxChars)
  {
    RoomIs(maxChars);
    CarriesIff(content, SUFFIX, 33);
    SuffixJoins(TrimEnd(Take(content, Available(maxChars))), SUFFIX);
  }

  lemma SuffixJoins(start: string, end: string)
    ensures start + "\n" + end == start + ("\n" + end)
  {}

  function Suffixed(content: string, room: nat, end: string, maxChars: nat): string {
    var start := TrimEnd(if |content| <= room then content else content[..room]);
    if start != "" then start + ("\n" + end) else if maxChars >= |end| then end else end[..maxChars]
  }

  // ---------------------------------------------------------------- the page without a budget

  function Whole(header: seq<string>, sections: seq<Section>, n: nat): seq<string>
    requires n <= |sections|
  {
    if n == 0 then header else Whole(header, sections, n - 1) + Opening(sections[n - 1], |sections[n - 1].lines|)
  }

  lemma {:induction false} WholeRest(header: seq<string>, sections: seq<Section>, n: nat)
    requires n <= |sections|
    ensures header + Compactor.FlattenSections(sections) == Whole(header, sections, n) + Compactor.FlattenSections(sections[n..])
    decreases n
  {
    if n == 0 {
      assert sections[0..] == sections;
    } else {
      WholeRest(header, sections, n - 1);
      var x := sections[n - 1];
      assert sections[n - 1..][0] == x && sections[n - 1..][1..] == sections[n..];
      assert x.lines[..|x.lines|] == x.lines;
    }
  }

  /** The page that is measured against the budget is the header and every section, each opened by a blank line and its
      heading; the sizes reported are the larger of that page and what the caller measured, and that of the result. */
  lemma MeasuredIs(header: seq<string>, sections: seq<Section>, text: Compactor.PageText, inputChars: Option<nat>, maxChars: nat)
    ensures var whole := Join(Whole(header, sections, |sections|));
      var r := Compactor.Compacted(header, sections, text, inputChars, maxChars);
      && Compactor.Exhaustive(header, sections) == whole
      && r.inputChars >= |whole| && (inputChars.Some? ==> r.inputChars >= inputChars.value)
      && (r.inputChars == |whole| || inputChars == Some(r.inputChars))
      && r.outputChars == |r.content|
  {
    WholeRest(header, sections, |sections|);
    assert sections[|sections|..] == [];
    assert Whole(header, sections, |sections|) + [] == Whole(header, sections, |sections|);
  }
}
