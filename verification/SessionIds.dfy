/** Session ids handed out per channel key, across restarts and failing files. The sequence is a double; how doubles of
    more than 2^53 are printed is a parameter, as is whether a session is stale. */
module SessionIds {
  import opened Wrappers
  import opened Decimal
  import opened Doubles
  import opened SessionKeys

  datatype Disk = Absent | File(entries: map<string, string>) | Torn

  /** What a write of the file does: all of it, nothing, or half of it. */
  datatype Flush = Written | Refused | Broken

  /** `handed` records every id a call returned, with the key it was for; `top` the greatest sequence at which one was. */
  datatype State = State(loaded: bool, entries: map<string, string>, sequence: nat, disk: Disk,
                         handed: seq<(Normalized, string)>, top: nat)

  const Initial := State(false, map[], 0, Absent, [], 0)

  /** The text of a double: a numeral up to 2^53. */
  ghost predicate ShowOk(show: nat -> string) {
    && (forall n: nat :: n <= EXACT ==> show(n) == Print(n))
    && (forall m: nat, n: nat :: show(m) == show(n) ==> m == n)
  }

  function Numbered(base: string, text: string): string { base + "-" + text }

  /** The digits a text ends in. */
  function DigitTail(s: string): string {
    if s == "" || !IsDigit(s[|s| - 1]) then "" else DigitTail(s[..|s| - 1]) + [s[|s| - 1]]
  }

  function Suffix(id: string): nat {
    var d := DigitTail(id);
    if d != "" && |id| > |d| && id[|id| - |d| - 1] == '-' then Double(DigitsValue(d)) else 0
  }

  lemma {:induction false} TailOfNumbered(base: string, d: string)
    requires AllDigits(d)
    ensures DigitTail(Numbered(base, d)) == d
  {
    var s := Numbered(base, d);
    if d == "" {
      assert s[|s| - 1] == '-';
    } else {
      assert d[|d| - 1] in d;
      assert s[..|s| - 1] == Numbered(base, d[..|d| - 1]);
      TailOfNumbered(base, d[..|d| - 1]);
    }
  }

  /** Reading a number off an id inverts writing it. */
  lemma SuffixInverts(base: string, d: string)
    requires AllDigits(d) && d != ""
    ensures Suffix(Numbered(base, d)) == Double(DigitsValue(d))
  {
    TailOfNumbered(base, d);
    var s := Numbered(base, d);
    assert s[|s| - |d| - 1] == '-';
  }

  lemma SuffixOfPrinted(base: string, n: nat)
    requires n <= EXACT
    ensures Suffix(Numbered(base, Print(n))) == n
  {
    PrintParses(n);
    SuffixInverts(base, Print(n));
    if n < EXACT { SmallIsExact(n); } else { ExactIsDouble(); }
  }

  // ---------------------------------------------------------------- loading

  function Max(a: nat, b: nat): nat { if a >= b then a else b }

  ghost predicate IsTop(entries: map<string, string>, n: nat) {
    && (forall k :: k in entries ==> Suffix(entries[k]) <= n)
    && (n == 0 || exists k :: k in entries && Suffix(entries[k]) == n)
  }

  lemma {:induction false} GreatestExists(s: set<nat>)
    ensures exists n: nat :: IsGreatest(s, n)
    decreases |s|
  {
    if s == {} {
      assert IsGreatest(s, 0);
    } else {
      var x :| x in s;
      GreatestExists(s - {x});
      var n: nat :| IsGreatest(s - {x}, n);
      forall y | y in s ensures y <= Max(n, x) { assert y == x || y in s - {x}; }
      assert IsGreatest(s, Max(n, x));
    }
  }

  predicate IsGreatest(s: set<nat>, n: nat) { (forall x :: x in s ==> x <= n) && (n == 0 || n in s) }

  lemma TopExists(entries: map<string, string>)
    ensures exists n: nat :: IsTop(entries, n)
  {
    var numbers: set<nat> := set k | k in entries :: Suffix(entries[k]);
    GreatestExists(numbers);
    var n: nat :| IsGreatest(numbers, n);
    forall k | k in entries ensures Suffix(entries[k]) <= n { assert Suffix(entries[k]) in numbers; }
    assert IsTop(entries, n);
  }

  /** The greatest number any saved id ends in. */
  ghost function TopSuffix(entries: map<string, string>): (n: nat)
    ensures IsTop(entries, n)
  {
    TopExists(entries);
    var n: nat :| IsTop(entries, n);
    n
  }

  predicate LoadFails(st: State, readable: bool) { !st.loaded && (!readable || st.disk == Torn) }

  /** The mark is set before the file is read, so a failure is not tried again. */
  ghost function Load(st: State, readable: bool): State {
    if st.loaded then st
    else if LoadFails(st, readable) || st.disk == Absent then st.(loaded := true)
    else st.(loaded := true, entries := st.entries + st.disk.entries, sequence := Max(st.sequence, TopSuffix(st.disk.entries)))
  }

  // ---------------------------------------------------------------- operations

  function Write(st: State, flush: Flush): State {
    match flush
    case Written => st.(disk := File(st.entries))
    case Refused => st
    case Broken => st.(disk := Torn)
  }

  /** Files the id and saves; only a saved id is returned. */
  function Return(st: State, n: Normalized, id: string, flush: Flush): (State, Option<string>) {
    var filed := Write(st.(entries := st.entries[Stable(n) := id]), flush);
    if flush == Written then (filed.(handed := st.handed + [(n, id)], top := Max(st.top, st.sequence)), Some(id))
    else (filed, None)
  }

  function NewId(st: State, n: Normalized, flush: Flush, show: nat -> string): (State, Option<string>) {
    var next := Inc(st.sequence);
    Return(st.(sequence := next), n, Numbered(Base(n), show(next)), flush)
  }

  /** `stale` is the automatic reset decision for an existing entry. */
  datatype Op =
    | Get(key: Normalized, stale: bool, readable: bool, flush: Flush)
    | Reset(key: Normalized, readable: bool, flush: Flush)
    | Restart

  predicate Renews(st: State, op: Op) {
    op.Reset? || (op.Get? && op.stale && Stable(op.key) in st.entries)
  }

  ghost function Apply(st: State, op: Op, show: nat -> string): (State, Option<string>) {
    if op.Restart? then (st.(loaded := false, entries := map[], sequence := 0), None)
    else
      var ready := Load(st, op.readable);
      if LoadFails(st, op.readable) then (ready, None)
      else if Renews(ready, op) then NewId(ready, op.key, op.flush, show)
      else if Stable(op.key) in ready.entries then Return(ready, op.key, ready.entries[Stable(op.key)], op.flush)
      else Return(ready, op.key, Base(op.key), op.flush)
  }

  ghost function Run(ops: seq<Op>, show: nat -> string): State {
    if ops == [] then Initial else Apply(Run(ops[..|ops| - 1], show), ops[|ops| - 1], show).0
  }

  // ---------------------------------------------------------------- what a sound run keeps

  /** No two of the keys are filed under the same text. */
  ghost predicate Apart(keys: set<Normalized>) {
    forall a, b :: a in keys && b in keys && Stable(a) == Stable(b) ==> a == b
  }

  /** An id of this key: its base, or the base with a number from 1 to the bound. */
  ghost predicate IdOf(n: Normalized, id: string, bound: nat) {
    id == Base(n) || exists m: nat :: 1 <= m <= bound && m <= EXACT && id == Numbered(Base(n), Print(m))
  }

  ghost predicate EntriesOk(entries: map<string, string>, keys: set<Normalized>, bound: nat) {
    forall n :: n in keys && Stable(n) in entries ==> IdOf(n, entries[Stable(n)], bound)
  }

  /** Some entry's number is at least this one. */
  ghost predicate Covers(entries: map<string, string>, n: nat) {
    n == 0 || exists k :: k in entries && Suffix(entries[k]) >= n
  }

  ghost predicate Inv(st: State, keys: set<Normalized>) {
    && (forall h :: h in st.handed ==> h.0 in keys && IdOf(h.0, h.1, st.top))
    && (st.loaded ==> st.top <= st.sequence && EntriesOk(st.entries, keys, st.sequence) && Covers(st.entries, st.sequence))
    && (!st.loaded ==> st.entries == map[] && st.sequence == 0)
    && (st.disk.File? ==> EntriesOk(st.disk.entries, keys, EXACT) && Covers(st.disk.entries, st.top))
    && (st.disk.Absent? ==> st.handed == [] && st.top == 0)
  }

  /** What a caller can check before each call: the file can be read if it has to be, and a renewal finds the sequence
      below 2^53. */
  ghost predicate Sound(st: State, op: Op, keys: set<Normalized>) {
    op.Restart? ||
    (&& op.key in keys && !LoadFails(st, op.readable)
     && (Renews(Load(st, op.readable), op) ==> Load(st, op.readable).sequence < EXACT))
  }

  lemma IdOfGrows(n: Normalized, id: string, a: nat, b: nat)
    requires IdOf(n, id, a) && a <= b
    ensures IdOf(n, id, b)
  {}

  lemma IdOfSuffix(n: Normalized, id: string, bound: nat)
    requires IdOf(n, id, bound)
    ensures IdOf(n, id, Suffix(id))
  {
    if id != Base(n) {
      var m: nat :| 1 <= m <= bound && m <= EXACT && id == Numbered(Base(n), Print(m));
      SuffixOfPrinted(Base(n), m);
    }
  }

  /** Loading brings the sequence up to every saved number, so also to every number handed out. */
  lemma LoadKeeps(st: State, keys: set<Normalized>, readable: bool)
    requires Inv(st, keys) && !LoadFails(st, readable)
    ensures Inv(Load(st, readable), keys) && Load(st, readable).loaded
  {
    if !st.loaded && st.disk.File? {
      var f := st.disk.entries;
      var r := Load(st, readable);
      assert r.entries == f && r.sequence == TopSuffix(f);
      forall n | n in keys && Stable(n) in f ensures IdOf(n, f[Stable(n)], r.sequence) {
        IdOfSuffix(n, f[Stable(n)], EXACT);
        IdOfGrows(n, f[Stable(n)], Suffix(f[Stable(n)]), r.sequence);
      }
    }
  }

  lemma EntriesGrow(entries: map<string, string>, keys: set<Normalized>, a: nat, b: nat)
    requires EntriesOk(entries, keys, a) && a <= b
    ensures EntriesOk(entries, keys, b)
  {
    forall n | n in keys && Stable(n) in entries ensures IdOf(n, entries[Stable(n)], b) {
      IdOfGrows(n, entries[Stable(n)], a, b);
    }
  }

  /** The part of the invariant a returned id needs. */
  ghost predicate Ready(st: State, keys: set<Normalized>, n: Normalized, id: string) {
    && n in keys && Apart(keys) && st.loaded && st.top <= st.sequence
    && (forall h :: h in st.handed ==> h.0 in keys && IdOf(h.0, h.1, st.top))
    && (st.disk.File? ==> EntriesOk(st.disk.entries, keys, EXACT) && Covers(st.disk.entries, st.top))
    && (st.disk.Absent? ==> st.handed == [] && st.top == 0)
    && EntriesOk(st.entries, keys, st.sequence)
    && IdOf(n, id, st.sequence)
    && Covers(st.entries[Stable(n) := id], st.sequence)
  }

  lemma ReturnKeeps(st: State, keys: set<Normalized>, n: Normalized, id: string, flush: Flush)
    requires Ready(st, keys, n, id)
    ensures Inv(Return(st, n, id, flush).0, keys)
  {
    var r := Return(st, n, id, flush).0;
    assert r.entries == st.entries[Stable(n) := id];
    assert EntriesOk(r.entries, keys, st.sequence);
    if flush == Written {
      SavedIsBounded(r.entries, keys, st.sequence);
      forall h | h in r.handed ensures h.0 in keys && IdOf(h.0, h.1, r.top) {
        if h in st.handed { IdOfGrows(h.0, h.1, st.top, r.top); } else { assert h == (n, id); }
      }
    }
  }

  /** Numbers in entries never pass 2^53. */
  lemma SavedIsBounded(entries: map<string, string>, keys: set<Normalized>, bound: nat)
    requires EntriesOk(entries, keys, bound)
    ensures EntriesOk(entries, keys, EXACT)
  {
    forall n | n in keys && Stable(n) in entries ensures IdOf(n, entries[Stable(n)], EXACT) {
      if entries[Stable(n)] != Base(n) {
        var m: nat :| 1 <= m <= bound && m <= EXACT && entries[Stable(n)] == Numbered(Base(n), Print(m));
        assert 1 <= m <= EXACT && m <= EXACT;
      }
    }
  }

  lemma NewIdReady(st: State, keys: set<Normalized>, n: Normalized, show: nat -> string)
    requires Inv(st, keys) && st.loaded && st.sequence < EXACT && n in keys && Apart(keys) && ShowOk(show)
    ensures Inc(st.sequence) == st.sequence + 1
    ensures Ready(st.(sequence := st.sequence + 1), keys, n, Numbered(Base(n), show(st.sequence + 1)))
  {
    IncCounts(st.sequence);
    var next := st.sequence + 1;
    var id := Numbered(Base(n), show(next));
    assert id == Numbered(Base(n), Print(next));
    SuffixOfPrinted(Base(n), next);
    EntriesGrow(st.entries, keys, st.sequence, next);
    assert Stable(n) in st.entries[Stable(n) := id];
  }

  lemma OldIdReady(st: State, keys: set<Normalized>, n: Normalized)
    requires Inv(st, keys) && st.loaded && n in keys && Apart(keys)
    ensures var id := if Stable(n) in st.entries then st.entries[Stable(n)] else Base(n);
      Ready(st, keys, n, id)
  {
    var id := if Stable(n) in st.entries then st.entries[Stable(n)] else Base(n);
    if st.sequence > 0 {
      var k :| k in st.entries && Suffix(st.entries[k]) >= st.sequence;
      assert k in st.entries[Stable(n) := id] && st.entries[Stable(n) := id][k] == st.entries[k];
    }
  }

  lemma ApplyKeeps(st: State, op: Op, keys: set<Normalized>, show: nat -> string)
    requires Inv(st, keys) && Sound(st, op, keys) && Apart(keys) && ShowOk(show)
    ensures Inv(Apply(st, op, show).0, keys)
  {
    if !op.Restart? {
      LoadKeeps(st, keys, op.readable);
      var ready := Load(st, op.readable);
      if Renews(ready, op) {
        NewIdReady(ready, keys, op.key, show);
        ReturnKeeps(ready.(sequence := ready.sequence + 1), keys, op.key,
                    Numbered(Base(op.key), show(ready.sequence + 1)), op.flush);
      } else {
        OldIdReady(ready, keys, op.key);
        ReturnKeeps(ready, keys, op.key,
                    if Stable(op.key) in ready.entries then ready.entries[Stable(op.key)] else Base(op.key), op.flush);
      }
    }
  }

  ghost predicate SoundRun(ops: seq<Op>, keys: set<Normalized>, show: nat -> string) {
    Apart(keys) && ShowOk(show) && forall i :: 0 <= i < |ops| ==> Sound(Run(ops[..i], show), ops[i], keys)
  }

  lemma {:induction false} RunKeeps(ops: seq<Op>, keys: set<Normalized>, show: nat -> string)
    requires SoundRun(ops, keys, show)
    ensures Inv(Run(ops, show), keys)
  {
    if ops != [] {
      var n := |ops| - 1;
      assert forall i :: 0 <= i <= n ==> ops[..n][..i] == ops[..i];
      RunKeeps(ops[..n], keys, show);
      ApplyKeeps(Run(ops[..n], show), ops[n], keys, show);
    }
  }

  lemma NewIsUnused(n: Normalized, m: nat, bound: nat)
    requires bound < m <= EXACT
    ensures !IdOf(n, Numbered(Base(n), Print(m)), bound)
  {
    var id := Numbered(Base(n), Print(m));
    forall j: nat | 1 <= j <= bound && j <= EXACT ensures id != Numbered(Base(n), Print(j)) {
      PrintIsInjective(j, m);
      assert id[|Base(n)| + 1..] == Print(m) && Numbered(Base(n), Print(j))[|Base(n)| + 1..] == Print(j);
    }
    assert |id| > |Base(n)|;
  }

  /** Over any run, with any restarts and failing writes, a renewal returns an id that was never handed out before for
      its key, as long as files can be read and the sequence is below 2^53. */
  lemma RenewalsAreFresh(ops: seq<Op>, op: Op, keys: set<Normalized>, show: nat -> string)
    requires SoundRun(ops, keys, show) && Sound(Run(ops, show), op, keys) && !op.Restart?
    requires Renews(Load(Run(ops, show), op.readable), op)
    requires Apply(Run(ops, show), op, show).1.Some?
    ensures (op.key, Apply(Run(ops, show), op, show).1.value) !in Run(ops, show).handed
  {
    var st := Run(ops, show);
    RunKeeps(ops, keys, show);
    LoadKeeps(st, keys, op.readable);
    var ready := Load(st, op.readable);
    NewIdReady(ready, keys, op.key, show);
    NewIsUnused(op.key, ready.sequence + 1, st.top);
  }

  // ---------------------------------------------------------------- where freshness ends

  /** Two renewals of one key in a row return different ids exactly when the sequence is below 2^53 - 1. */
  lemma TwoRenewalsDifferIff(st: State, n: Normalized, show: nat -> string)
    requires st.loaded && IsDouble(st.sequence) && ShowOk(show)
    ensures var first := Apply(st, Reset(n, true, Written), show);
      var second := Apply(first.0, Reset(n, true, Written), show);
      && first.1.Some? && second.1.Some?
      && (first.1.value != second.1.value <==> st.sequence + 1 < EXACT)
  {
    SecondIncStalls(st.sequence);
    var a, b := show(Inc(st.sequence)), show(Inc(Inc(st.sequence)));
    if Numbered(Base(n), a) == Numbered(Base(n), b) {
      assert Numbered(Base(n), a)[|Base(n)| + 1..] == a && Numbered(Base(n), b)[|Base(n)| + 1..] == b;
    }
  }

  /** The user ids of a large platform are numbers past 2^53, and a group session's id ends in one. After one restart
      two renewals in a row return the same id. */
  lemma LargeUserIdsRepeat(n: Normalized, show: nat -> string)
    requires ShowOk(show)
    requires n.userId.Some? && AllDigits(n.userId.value) && 0 < |n.userId.value| <= 64 && DigitsValue(n.userId.value) >= EXACT
    ensures var started := Run([Get(n, false, true, Written), Restart], show);
      var first := Apply(started, Reset(n, true, Written), show);
      var second := Apply(first.0, Reset(n, true, Written), show);
      first.1.Some? && first.1 == second.1
  {
    AfterFirstUse(n, show);
    LargeBase(n);
    LargeLoadRepeats(Run([Get(n, false, true, Written), Restart], show), n, show);
  }

  lemma LargeBase(n: Normalized)
    requires n.userId.Some? && AllDigits(n.userId.value) && 0 < |n.userId.value| <= 64 && DigitsValue(n.userId.value) >= EXACT
    ensures Suffix(Base(n)) >= EXACT && IsDouble(Suffix(Base(n)))
  {
    BaseEndsInUser(n);
    var front :| Base(n) == front + "-" + n.userId.value;
    SuffixInverts(front, n.userId.value);
    RoundedIsDouble(DigitsValue(n.userId.value));
  }

  lemma LargeLoadRepeats(started: State, n: Normalized, show: nat -> string)
    requires ShowOk(show) && Suffix(Base(n)) >= EXACT && IsDouble(Suffix(Base(n)))
    requires !started.loaded && started.entries == map[] && started.sequence == 0 && started.disk == File(map[Stable(n) := Base(n)])
    ensures var first := Apply(started, Reset(n, true, Written), show);
      var second := Apply(first.0, Reset(n, true, Written), show);
      first.1.Some? && first.1 == second.1
  {
    OnlyEntry(started.disk.entries, Stable(n));
    LoadedRenews(started, n, show);
    TwoRenewalsDifferIff(Load(started, true), n, show);
  }

  lemma AfterFirstUse(n: Normalized, show: nat -> string)
    ensures var started := Run([Get(n, false, true, Written), Restart], show);
      !started.loaded && started.entries == map[] && started.sequence == 0 && started.disk == File(map[Stable(n) := Base(n)])
  {
    var got := Get(n, false, true, Written);
    assert [got, Restart][..1] == [got] && [got][..0] == [];
    assert Run([], show) == Initial;
    assert Run([got], show) == Apply(Initial, got, show).0;
    assert Run([got, Restart], show) == Apply(Run([got], show), Restart, show).0;
  }

  /** A call on a fresh process does what it does once the file is loaded. */
  lemma LoadedRenews(st: State, n: Normalized, show: nat -> string)
    requires !LoadFails(st, true)
    ensures Apply(st, Reset(n, true, Written), show) == Apply(Load(st, true), Reset(n, true, Written), show)
  {}

  lemma OnlyEntry(f: map<string, string>, k: string)
    requires f.Keys == {k}
    ensures TopSuffix(f) == Suffix(f[k])
  {
    assert k in f;
  }

  /** Any run, a restart, a call whose load fails, and renewals after it. */
  function FailedRun(before: seq<Op>, failing: Op, resets: seq<Op>): seq<Op> { before + [Restart, failing] + resets }

  ghost predicate FailsToLoad(before: seq<Op>, failing: Op, show: nat -> string) {
    !failing.Restart? && LoadFails(Apply(Run(before, show), Restart, show).0, failing.readable)
  }

  /** Numbered from 1 to `count` since the failure. */
  ghost predicate Renumbered(h: (Normalized, string), count: nat) {
    exists j: nat :: 1 <= j <= count && h.1 == Numbered(Base(h.0), Print(j))
  }

  /** `count` renewals after the failure: what was handed out is what had been before it, and the numbers from 1 on. */
  ghost predicate Restarted(st: State, before: State, count: nat) {
    && st.loaded && st.sequence == count && before.handed <= st.handed
    && forall h :: h in st.handed ==> h in before.handed || Renumbered(h, count)
  }

  lemma FailureForgets(before: seq<Op>, failing: Op, show: nat -> string)
    requires FailsToLoad(before, failing, show)
    ensures Restarted(Run(FailedRun(before, failing, []), show), Run(before, show), 0)
    ensures Run(FailedRun(before, failing, []), show).entries == map[]
  {
    var ops := FailedRun(before, failing, []);
    assert ops[..|ops| - 1] == before + [Restart] && (before + [Restart])[..|before|] == before;
  }

  lemma RenewalCounts(st: State, before: State, count: nat, reset: Op, show: nat -> string)
    requires Restarted(st, before, count) && reset.Reset? && count < EXACT && ShowOk(show)
    ensures Restarted(Apply(st, reset, show).0, before, count + 1)
    ensures reset.flush == Written ==> Apply(st, reset, show).1 == Some(Numbered(Base(reset.key), Print(count + 1)))
  {
    IncCounts(count);
    var st' := Apply(st, reset, show).0;
    var h := (reset.key, Numbered(Base(reset.key), Print(count + 1)));
    assert Renumbered(h, count + 1);
    assert st'.handed == if reset.flush == Written then st.handed + [h] else st.handed;
    forall x | x in st'.handed ensures x in before.handed || Renumbered(x, count + 1) {
      if x in st.handed && x !in before.handed {
        var j: nat :| 1 <= j <= count && x.1 == Numbered(Base(x.0), Print(j));
        assert 1 <= j <= count + 1;
      }
    }
  }

  lemma RunLast(ops: seq<Op>, show: nat -> string)
    requires |ops| > 0
    ensures Run(ops, show) == Apply(Run(ops[..|ops| - 1], show), ops[|ops| - 1], show).0
  {}

  lemma LastRenewal(before: seq<Op>, failing: Op, resets: seq<Op>, show: nat -> string)
    requires resets != []
    ensures var n := |resets| - 1;
      Run(FailedRun(before, failing, resets), show) == Apply(Run(FailedRun(before, failing, resets[..n]), show), resets[n], show).0
  {
    var ops := FailedRun(before, failing, resets);
    assert |ops| > 0 && ops[|ops| - 1] == resets[|resets| - 1];
    assert ops[..|ops| - 1] == FailedRun(before, failing, resets[..|resets| - 1]);
    RunLast(ops, show);
  }

  lemma {:induction false} RenewalsCount(before: seq<Op>, failing: Op, resets: seq<Op>, show: nat -> string)
    requires FailsToLoad(before, failing, show) && ShowOk(show)
    requires |resets| <= EXACT && forall i :: 0 <= i < |resets| ==> resets[i].Reset?
    ensures Restarted(Run(FailedRun(before, failing, resets), show), Run(before, show), |resets|)
    decreases |resets|
  {
    if resets == [] {
      FailureForgets(before, failing, show);
    } else {
      var n := |resets| - 1;
      RenewalsCount(before, failing, resets[..n], show);
      LastRenewal(before, failing, resets, show);
      RenewalCounts(Run(FailedRun(before, failing, resets[..n]), show), Run(before, show), n, resets[n], show);
    }
  }

  /** After any run, a restart and a call whose load fails, renewals count from 1 again: the next one returns the id of
      its key with the number of renewals since, and repeats an id exactly when that id was handed out for the key
      before the failure. */
  lemma RenewalAfterFailureRepeatsIff(before: seq<Op>, failing: Op, resets: seq<Op>, n: Normalized, show: nat -> string)
    requires FailsToLoad(before, failing, show) && ShowOk(show)
    requires |resets| < EXACT && forall i :: 0 <= i < |resets| ==> resets[i].Reset?
    ensures var st := Run(FailedRun(before, failing, resets), show);
      var id := Numbered(Base(n), Print(|resets| + 1));
      && Apply(st, Reset(n, true, Written), show).1 == Some(id)
      && ((n, id) in st.handed <==> (n, id) in Run(before, show).handed)
  {
    RenewalsCount(before, failing, resets, show);
    var st, id := Run(FailedRun(before, failing, resets), show), Numbered(Base(n), Print(|resets| + 1));
    RenewalCounts(st, Run(before, show), |resets|, Reset(n, true, Written), show);
    NotRenumbered(n, |resets|);
  }

  lemma NotRenumbered(n: Normalized, count: nat)
    ensures !Renumbered((n, Numbered(Base(n), Print(count + 1))), count)
  {
    var id := Numbered(Base(n), Print(count + 1));
    forall j: nat | 1 <= j <= count ensures id != Numbered(Base(n), Print(j)) {
      PrintIsInjective(j, count + 1);
      assert id[|Base(n)| + 1..] == Print(count + 1) && Numbered(Base(n), Print(j))[|Base(n)| + 1..] == Print(j);
    }
  }

  /** So it does happen, for every key: one renewal, a restart and a call that cannot read the file, and the next renewal
      returns the first one's id; the saved entries are overwritten. */
  lemma FailedLoadRepeats(n: Normalized, show: nat -> string)
    requires ShowOk(show)
    ensures var first := Reset(n, true, Written);
      var ops := [first, Restart, Reset(n, false, Written)];
      var again := Apply(Run(ops, show), first, show);
      && again.1.Some? && (n, again.1.value) in Run(ops, show).handed
      && again.0.disk == File(map[Stable(n) := again.1.value])
  {
    var first, failing := Reset(n, true, Written), Reset(n, false, Written);
    assert [first, Restart, failing][..2] == [first, Restart] && [first, Restart][..1] == [first] && [first][..0] == [];
    assert Run([], show) == Initial;
    IncCounts(0);
    var id := Numbered(Base(n), show(1));
    var one := Run([first], show);
    assert one == Apply(Initial, first, show).0 && one.handed == [(n, id)];
    var two := Run([first, Restart], show);
    assert two == Apply(one, Restart, show).0;
    var three := Run([first, Restart, failing], show);
    assert three == Apply(two, failing, show).0 && three.loaded && three.entries == map[] && three.sequence == 0;
    assert three.handed[0] == (n, id);
  }
}
