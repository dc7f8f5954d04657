/** What a channel's session id looks like, and that a channel keeps the id it was given until that is renewed. */
module SessionMeaning {
  import opened Wrappers
  import Text
  import opened Decimal
  import opened Doubles
  import opened SessionKeys
  import opened SessionIds

  // ---------------------------------------------------------------- normal forms

  /** A thread id makes a thread; else the chat type given counts, and anything else is a direct message. */
  lemma ChatTypeIs(k: ChannelKey, p: Policy)
    ensures var n := Normalize(k, p);
      var inThread := k.threadId.Some? && |k.threadId.value| > 0;
      && n.platform == k.platform && n.accountId == k.accountId && n.chatId == k.chatId
      && (n.chatType == Thread <==> inThread || k.chatType == Some("thread"))
      && (n.chatType == Group <==> !inThread && k.chatType == Some("group"))
      && (n.chatType == Channel <==> !inThread && k.chatType == Some("channel"))
      && n.threadId == (if inThread || k.chatType == Some("thread") then k.threadId else None)
  {
    TextsDiffer("thread", "group", "channel");
  }

  lemma TextsDiffer(a: string, b: string, c: string)
    requires a == "thread" && b == "group" && c == "channel"
    ensures a != b && b != c && a != c
  {
    assert a[0] == 't' && b[0] == 'g' && c[0] == 'c';
  }

  /** The user id counts in groups unless the policy says no, and in threads where it says yes; nowhere else. */
  lemma UserCountsIff(k: ChannelKey, p: Policy)
    ensures var n := Normalize(k, p);
      && (n.userId.Some? <==>
            && k.userId.Some? && |k.userId.value| > 0
            && (|| (n.chatType == Group && p.groupSessionsPerUser != Some(false))
                || (n.chatType == Thread && p.threadSessionsPerUser == Some(true))))
      && (n.userId.Some? ==> n.userId == k.userId)
  {}

  lemma FiledUnder(n: Normalized)
    ensures Stable(n) == n.platform + ":" + (Default(n.accountId, "") + ":" + (ChatTypeText(n.chatType) + ":" +
      (n.chatId + ":" + (Default(n.threadId, "") + ":" + Default(n.userId, "")))))
  {
    var p := StableParts(n);
    assert p[5..] == [p[5]] && p[4..][1..] == p[5..] && p[3..][1..] == p[4..] && p[2..][1..] == p[3..];
    assert p[1..][1..] == p[2..];
    JoinedTail(p, 4);
    JoinedTail(p, 3);
    JoinedTail(p, 2);
    JoinedTail(p, 1);
    JoinedTail(p, 0);
    assert p[0..] == p;
  }

  lemma JoinedTail(p: seq<string>, i: nat)
    requires i + 1 < |p|
    ensures Text.Joined(p[i..], ':') == p[i] + ":" + Text.Joined(p[i + 1..], ':')
  {
    assert p[i..][1..] == p[i + 1..];
  }

  // ---------------------------------------------------------------- sanitised parts

  predicate IsPlain(s: string) { s != "" && forall k :: 0 <= k < |s| ==> IsIdChar(s[k]) }

  predicate NoneIsId(s: string) { forall k :: 0 <= k < |s| ==> !IsIdChar(s[k]) }

  /** Plain, and no hyphen at either end. */
  predicate IsWord(s: string) { IsPlain(s) && s[0] != '-' && s[|s| - 1] != '-' }

  lemma {:induction false} SquashPlain(s: string, rest: string)
    requires forall k :: 0 <= k < |s| ==> IsIdChar(s[k])
    ensures Squash(s + rest) == s + Squash(rest)
    decreases |s|
  {
    if s == "" {
      assert s + rest == rest;
    } else {
      SquashPlain(s[1..], rest);
      assert (s + rest)[1..] == s[1..] + rest;
      assert [s[0]] + s[1..] == s;
    }
  }

  lemma {:induction false} DropsRun(run: string, rest: string)
    requires NoneIsId(run) && (rest == "" || IsIdChar(rest[0]))
    ensures DropOther(run + rest) == rest
  {
    if run == "" {
      assert run + rest == rest;
    } else {
      assert (run + rest)[1..] == run[1..] + rest;
      DropsRun(run[1..], rest);
    }
  }

  lemma SquashRun(run: string, rest: string)
    requires run != "" && NoneIsId(run) && (rest == "" || IsIdChar(rest[0]))
    ensures Squash(run + rest) == "-" + Squash(rest)
  {
    assert (run + rest)[1..] == run[1..] + rest && !IsIdChar((run + rest)[0]);
    DropsRun(run[1..], rest);
  }

  function Cut(s: string): string { if |s| <= 64 then s else s[..64] }

  lemma {:induction false} HyphensGo(left: string, s: string, right: string)
    requires (forall k :: 0 <= k < |left| ==> left[k] == '-') && (forall k :: 0 <= k < |right| ==> right[k] == '-')
    requires s == "" || (s[0] != '-' && s[|s| - 1] != '-')
    ensures TrimHyphens(left + s + right) == s
    decreases |left| + |right|
  {
    var all := left + s + right;
    if left != "" {
      assert all[1..] == left[1..] + s + right;
      HyphensGo(left[1..], s, right);
    } else if right != "" {
      if s == "" {
        assert all == right && all[1..] == left + s + right[1..];
        HyphensGo(left, s, right[1..]);
      } else {
        assert all[0] == s[0] && all[|all| - 1] == right[|right| - 1];
        assert all[..|all| - 1] == left + s + right[..|right| - 1];
        HyphensGo(left, s, right[..|right| - 1]);
      }
    } else {
      assert all == s;
    }
  }

  /** A word stays, up to 64 characters. */
  lemma WordStays(s: string)
    requires IsWord(s)
    ensures Sanitize(s) == Cut(s)
  {
    SquashPlain(s, "");
    assert s + "" == s;
    HyphensGo("", s, "");
    assert "" + s + "" == s;
  }

  function Hyphen(run: string): string { if run == "" then "" else "-" }

  lemma SquashAround(run: string, rest: string)
    requires NoneIsId(run) && (rest == "" || IsIdChar(rest[0]))
    ensures Squash(run + rest) == Hyphen(run) + Squash(rest)
  {
    if run == "" { assert run + rest == rest; } else { SquashRun(run, rest); }
  }

  lemma SquashWords(s: string, run: string, t: string, after: string)
    requires IsWord(s) && IsWord(t) && run != "" && NoneIsId(run) && NoneIsId(after)
    ensures Squash(s + (run + (t + after))) == s + ("-" + (t + Hyphen(after)))
  {
    SquashAround(after, "");
    assert after + "" == after && Hyphen(after) + "" == Hyphen(after);
    SquashPlain(t, after);
    assert (t + after)[0] == t[0];
    SquashRun(run, t + after);
    SquashPlain(s, run + (t + after));
  }

  /** A run of other characters between two words becomes one hyphen, and runs around them go. */
  lemma RunsBecomeHyphens(before: string, s: string, run: string, t: string, after: string)
    requires IsWord(s) && IsWord(t) && run != "" && NoneIsId(before) && NoneIsId(run) && NoneIsId(after)
    ensures Sanitize(before + (s + (run + (t + after)))) == Cut(s + ("-" + t))
  {
    var inner := s + (run + (t + after));
    assert inner[0] == s[0];
    SquashWords(s, run, t, after);
    SquashAround(before, inner);
    assert Hyphen(before) + (s + ("-" + (t + Hyphen(after)))) == Hyphen(before) + (s + ("-" + t)) + Hyphen(after);
    TrimsTo(before + inner, Hyphen(before), s + ("-" + t), Hyphen(after));
  }

  lemma TrimsTo(value: string, left: string, word: string, right: string)
    requires Squash(value) == left + word + right && left in {"", "-"} && right in {"", "-"}
    requires word != "" && word[0] != '-' && word[|word| - 1] != '-'
    ensures Sanitize(value) == Cut(word)
  {
    HyphensGo(left, word, right);
  }

  /** A text without any word is called default. */
  lemma NoWordIsDefault(s: string)
    requires NoneIsId(s)
    ensures Sanitize(s) == "default"
  {
    assert s + "" == s;
    if s != "" { SquashRun(s, ""); }
    HyphensGo(if s == "" then "" else "-", "", "");
  }

  predicate IdChars(s: string) { forall k :: 0 <= k < |s| ==> IsIdChar(s[k]) }

  lemma {:induction false} SquashChars(s: string)
    ensures IdChars(Squash(s))
    decreases |s|
  {
    if s != "" { SquashChars(if IsIdChar(s[0]) then s[1..] else DropOther(s[1..])); }
  }

  lemma {:induction false} TrimChars(s: string)
    requires IdChars(s)
    ensures var r := TrimHyphens(s); IdChars(r) && (r != "" ==> r[0] != '-' && r[|r| - 1] != '-')
    decreases |s|
  {
    if s != "" && s[0] == '-' {
      TrimChars(s[1..]);
    } else if s != "" && s[|s| - 1] == '-' {
      TrimChars(s[..|s| - 1]);
    }
  }

  /** Whatever the text, its part of an id is made of letters, digits, underscores and hyphens and starts with no hyphen. */
  lemma SanitizedIsPlain(s: string)
    ensures IsPlain(Sanitize(s)) && Sanitize(s)[0] != '-'
  {
    SquashChars(s);
    TrimChars(Squash(s));
  }

  /** The base of a key whose parts are short words spells them out. */
  lemma BaseSpells(n: Normalized)
    requires IsWord(n.platform) && |n.platform| <= 64 && IsWord(n.chatId) && |n.chatId| <= 64
    requires ShortWord(n.accountId) && ShortWord(n.threadId) && ShortWord(n.userId)
    ensures Base(n) == Text.Joined(
      ["channel", n.platform, Default(n.accountId, "default"), ChatTypeText(n.chatType), n.chatId, Default(n.threadId, "main")]
      + (if n.userId.Some? then [n.userId.value] else []), '-')
  {
    WordStays(n.platform);
    WordStays(n.chatId);
    ConstantWords(n.chatType);
    WordStays(ChatTypeText(n.chatType));
    WordStays(Default(n.accountId, "default"));
    WordStays(Default(n.threadId, "main"));
    if n.userId.Some? { WordStays(n.userId.value); }
  }

  predicate ShortWord(o: Option<string>) { o.Some? ==> IsWord(o.value) && |o.value| <= 64 }

  lemma ConstantWords(t: ChatType)
    ensures IsWord(ChatTypeText(t)) && |ChatTypeText(t)| <= 64 && IsWord("default") && IsWord("main")
  {}

  // ---------------------------------------------------------------- ids

  /** Over every sound run an id that is handed out for a key is the key's base, or the base, a hyphen and a number. */
  lemma HandedIdIs(ops: seq<Op>, keys: set<Normalized>, show: nat -> string, n: Normalized, id: string)
    requires SoundRun(ops, keys, show) && (n, id) in Run(ops, show).handed
    ensures id == Base(n) || exists m: nat :: IsNumbered(n, id, m)
  {
    RunKeeps(ops, keys, show);
    HandedIsId(Run(ops, show), keys, n, id);
  }

  predicate IsNumbered(n: Normalized, id: string, m: nat) { 1 <= m <= EXACT && id == Base(n) + "-" + Print(m) }

  lemma HandedIsId(st: State, keys: set<Normalized>, n: Normalized, id: string)
    requires Inv(st, keys) && (n, id) in st.handed
    ensures id == Base(n) || exists m: nat :: IsNumbered(n, id, m)
  {
    assert IdOf(n, id, st.top);
    IdOfMeans(n, id, st.top);
  }

  lemma IdOfMeans(n: Normalized, id: string, bound: nat)
    requires IdOf(n, id, bound)
    ensures id == Base(n) || exists m: nat :: IsNumbered(n, id, m)
  {
    if id != Base(n) {
      var m: nat :| 1 <= m <= bound && m <= EXACT && id == Numbered(Base(n), Print(m));
      assert IsNumbered(n, id, m);
    }
  }

  /** A key that is not filed yet gets its base; a renewal numbers it by one more than the sequence. */
  lemma NewIdIs(st: State, n: Normalized, show: nat -> string)
    requires st.loaded && st.sequence < EXACT && ShowOk(show)
    ensures Apply(st, Reset(n, true, Written), show).1 == Some(Base(n) + "-" + Print(st.sequence + 1))
    ensures forall stale :: Stable(n) !in st.entries ==> Apply(st, Get(n, stale, true, Written), show).1 == Some(Base(n))
    ensures Stable(n) in st.entries ==>
      && Apply(st, Get(n, false, true, Written), show).1 == Some(st.entries[Stable(n)])
      && Apply(st, Get(n, true, true, Written), show).1 == Some(Base(n) + "-" + Print(st.sequence + 1))
  {
    IncCounts(st.sequence);
  }

  /** The id is filed for the key, in the file and, once loaded, in memory. */
  predicate Files(st: State, n: Normalized, id: string) {
    && st.disk.File? && Stable(n) in st.disk.entries && st.disk.entries[Stable(n)] == id
    && (if st.loaded then Stable(n) in st.entries && st.entries[Stable(n)] == id else st.entries == map[])
  }

  /** The operation leaves the key's id alone: a restart, or a call that can read the file, does not tear it, and renews no
      id filed under the key's text. */
  predicate Spares(op: Op, n: Normalized) {
    match op
    case Restart => true
    case Get(k, stale, readable, flush) => readable && flush != Broken && (stale ==> Stable(k) != Stable(n))
    case Reset(k, readable, flush) => readable && flush != Broken && Stable(k) != Stable(n)
  }

  lemma ReturnFiles(st: State, n: Normalized, id: string, flush: Flush)
    requires st.loaded && Return(st, n, id, flush).1.Some?
    ensures Return(st, n, id, flush).1 == Some(id) && Files(Return(st, n, id, flush).0, n, id)
  {}

  lemma ReturnedIsFiled(st: State, op: Op, show: nat -> string)
    requires !op.Restart? && Apply(st, op, show).1.Some?
    ensures Files(Apply(st, op, show).0, op.key, Apply(st, op, show).1.value)
  {
    var ready := Load(st, op.readable);
    if Renews(ready, op) {
      var next := ready.(sequence := Inc(ready.sequence));
      ReturnFiles(next, op.key, Numbered(Base(op.key), show(Inc(ready.sequence))), op.flush);
    } else {
      ReturnFiles(ready, op.key, if Stable(op.key) in ready.entries then ready.entries[Stable(op.key)] else Base(op.key), op.flush);
    }
  }

  /** Filing an id for another key, or the same id again, leaves the key's id where it is. */
  lemma ReturnSpares(st: State, k: Normalized, other: string, flush: Flush, n: Normalized, id: string)
    requires st.loaded && Files(st, n, id) && flush != Broken && (Stable(k) == Stable(n) ==> other == id)
    ensures Files(Return(st, k, other, flush).0, n, id)
  {}

  lemma StaysFiled(st: State, op: Op, n: Normalized, id: string, show: nat -> string)
    requires Files(st, n, id) && Spares(op, n)
    ensures Files(Apply(st, op, show).0, n, id)
    ensures !op.Restart? && Stable(op.key) == Stable(n) && Apply(st, op, show).1.Some? ==> Apply(st, op, show).1 == Some(id)
  {
    if !op.Restart? {
      LoadFiles(st, n, id, op.readable);
      CallSpares(Load(st, op.readable), op, n, id, show);
      ApplyReady(st, op, show);
    }
  }

  lemma ApplyReady(st: State, op: Op, show: nat -> string)
    requires !op.Restart? && !LoadFails(st, op.readable)
    ensures Apply(st, op, show) == Apply(Load(st, op.readable), op, show)
  {}

  lemma CallSpares(st: State, op: Op, n: Normalized, id: string, show: nat -> string)
    requires st.loaded && Files(st, n, id) && Spares(op, n) && !op.Restart?
    ensures Files(Apply(st, op, show).0, n, id)
    ensures Stable(op.key) == Stable(n) && Apply(st, op, show).1.Some? ==> Apply(st, op, show).1 == Some(id)
  {
    if Renews(st, op) {
      var next := st.(sequence := Inc(st.sequence));
      ReturnSpares(next, op.key, Numbered(Base(op.key), show(Inc(st.sequence))), op.flush, n, id);
    } else {
      ReturnSpares(st, op.key, if Stable(op.key) in st.entries then st.entries[Stable(op.key)] else Base(op.key), op.flush, n, id);
    }
  }

  lemma LoadFiles(st: State, n: Normalized, id: string, readable: bool)
    requires Files(st, n, id) && readable
    ensures var r := Load(st, readable);
      !LoadFails(st, readable) && r.loaded && Files(r, n, id)
  {}

  lemma RunNext(ops: seq<Op>, i: nat, show: nat -> string)
    requires i < |ops|
    ensures Run(ops[..i + 1], show) == Apply(Run(ops[..i], show), ops[i], show).0
  {
    assert ops[..i + 1][..i] == ops[..i];
  }

  lemma {:induction false} FiledUntil(ops: seq<Op>, i: nat, m: nat, n: Normalized, id: string, show: nat -> string)
    requires i <= m <= |ops| && Files(Run(ops[..i], show), n, id) && forall j :: i <= j < m ==> Spares(ops[j], n)
    ensures Files(Run(ops[..m], show), n, id)
    decreases m
  {
    if i < m {
      FiledUntil(ops, i, m - 1, n, id, show);
      FiledNext(ops, m - 1, n, id, show);
    }
  }

  lemma FiledNext(ops: seq<Op>, i: nat, n: Normalized, id: string, show: nat -> string)
    requires i < |ops| && Files(Run(ops[..i], show), n, id) && Spares(ops[i], n)
    ensures Files(Run(ops[..i + 1], show), n, id)
  {
    RunNext(ops, i, show);
    StaysFiled(Run(ops[..i], show), ops[i], n, id, show);
  }

  /** Over every run, with restarts, failing saves and other channels' renewals in between, a channel gets the id that was
      returned for it last, until that is renewed, the file cannot be read or a save tears it. */
  lemma IdLasts(ops: seq<Op>, i: nat, m: nat, show: nat -> string)
    requires i < m < |ops| && !ops[i].Restart? && Apply(Run(ops[..i], show), ops[i], show).1.Some?
    requires forall j :: i < j <= m ==> Spares(ops[j], ops[i].key)
    requires !ops[m].Restart? && Stable(ops[m].key) == Stable(ops[i].key) && Apply(Run(ops[..m], show), ops[m], show).1.Some?
    ensures Apply(Run(ops[..m], show), ops[m], show).1 == Apply(Run(ops[..i], show), ops[i], show).1
  {
    var n, id := ops[i].key, Apply(Run(ops[..i], show), ops[i], show).1.value;
    ReturnedIsFiled(Run(ops[..i], show), ops[i], show);
    RunNext(ops, i, show);
    FiledUntil(ops, i + 1, m, n, id, show);
    StaysFiled(Run(ops[..m], show), ops[m], n, id, show);
  }
}
