/** Channel keys: their normal form, the key they are filed under, and the readable base of their session ids. */
module SessionKeys {
  import opened Wrappers
  import opened Text
  import opened Decimal

  datatype ChannelKey = ChannelKey(platform: string, accountId: Option<string>, chatType: Option<string>, chatId: string,
                                   threadId: Option<string>, userId: Option<string>)

  datatype ChatType = Dm | Group | Channel | Thread

  datatype Normalized = Normalized(platform: string, accountId: Option<string>, chatType: ChatType, chatId: string,
                                   threadId: Option<string>, userId: Option<string>)

  /** None is a setting left out. */
  datatype Policy = Policy(groupSessionsPerUser: Option<bool>, threadSessionsPerUser: Option<bool>)

  function Default<T>(o: Option<T>, d: T): T { if o.Some? then o.value else d }

  function ChatTypeText(t: ChatType): string {
    match t case Dm => "dm" case Group => "group" case Channel => "channel" case Thread => "thread"
  }

  function ChatTypeOf(k: ChannelKey): ChatType {
    if k.threadId.Some? && k.threadId.value != "" then Thread
    else if k.chatType == Some("group") then Group
    else if k.chatType == Some("channel") then Channel
    else if k.chatType == Some("thread") then Thread
    else Dm
  }

  predicate PerUser(t: ChatType, userId: Option<string>, p: Policy) {
    && userId.Some? && userId.value != ""
    && match t
       case Dm => false
       case Channel => false
       case Thread => Default(p.threadSessionsPerUser, false)
       case Group => Default(p.groupSessionsPerUser, true)
  }

  function Normalize(k: ChannelKey, p: Policy): Normalized {
    var t := ChatTypeOf(k);
    Normalized(k.platform, k.accountId, t, k.chatId, if t == Thread then k.threadId else None,
               if PerUser(t, k.userId, p) then k.userId else None)
  }

  /** A normal form read as a key again. */
  function AsKey(n: Normalized): ChannelKey {
    ChannelKey(n.platform, n.accountId, Some(ChatTypeText(n.chatType)), n.chatId, n.threadId, n.userId)
  }

  lemma NormalizeIsIdempotent(k: ChannelKey, p: Policy)
    ensures Normalize(AsKey(Normalize(k, p)), p) == Normalize(k, p)
  {
    var n := Normalize(k, p);
    match n.chatType
    case Dm =>
    case Group => assert ChatTypeText(Group) == "group";
    case Channel => assert ChatTypeText(Channel) == "channel";
    case Thread => assert ChatTypeText(Thread) == "thread";
  }

  // ---------------------------------------------------------------- the key entries are filed under

  function StableParts(n: Normalized): seq<string> {
    [n.platform, Default(n.accountId, ""), ChatTypeText(n.chatType), n.chatId, Default(n.threadId, ""), Default(n.userId, "")]
  }

  function Stable(n: Normalized): string { Joined(StableParts(n), ':') }

  predicate NotEmpty(o: Option<string>) { o != Some("") }

  /** Keys whose parts hold no colon, with no part given but empty, are filed apart. */
  lemma StableKeysDiffer(a: Normalized, b: Normalized)
    requires forall i :: 0 <= i < 6 ==> ':' !in StableParts(a)[i] && ':' !in StableParts(b)[i]
    requires NotEmpty(a.accountId) && NotEmpty(a.threadId) && NotEmpty(a.userId)
    requires NotEmpty(b.accountId) && NotEmpty(b.threadId) && NotEmpty(b.userId)
    ensures Stable(a) == Stable(b) ==> a == b
  {
    var p, q := StableParts(a), StableParts(b);
    forall x | x in p ensures ':' !in x {}
    forall x | x in q ensures ':' !in x {}
    SplitJoined(p, ':');
    SplitJoined(q, ':');
    if Stable(a) == Stable(b) {
      assert p[0] == q[0] && p[1] == q[1] && p[2] == q[2] && p[3] == q[3] && p[4] == q[4] && p[5] == q[5];
      ChatTypeTextsDiffer(a.chatType, b.chatType);
    }
  }

  lemma ChatTypeTextsDiffer(s: ChatType, t: ChatType)
    ensures ChatTypeText(s) == ChatTypeText(t) ==> s == t
  {
    assert ChatTypeText(s)[0] == match s case Dm => 'd' case Group => 'g' case Channel => 'c' case Thread => 't';
    assert ChatTypeText(t)[0] == match t case Dm => 'd' case Group => 'g' case Channel => 'c' case Thread => 't';
  }

  // ---------------------------------------------------------------- the base of a session id

  predicate IsIdChar(c: char) { 'a' <= c <= 'z' || 'A' <= c <= 'Z' || '0' <= c <= '9' || c == '_' || c == '-' }

  function DropOther(s: string): (r: string)
    ensures |r| <= |s|
  {
    if s != "" && !IsIdChar(s[0]) then DropOther(s[1..]) else s
  }

  /** Every run of other characters becomes one hyphen. */
  function Squash(s: string): string
    decreases |s|
  {
    if s == "" then ""
    else if IsIdChar(s[0]) then [s[0]] + Squash(s[1..])
    else "-" + Squash(DropOther(s[1..]))
  }

  function TrimHyphens(s: string): string
    decreases |s|
  {
    if s != "" && s[0] == '-' then TrimHyphens(s[1..])
    else if s != "" && s[|s| - 1] == '-' then TrimHyphens(s[..|s| - 1])
    else s
  }

  function Sanitize(value: string): (r: string)
    ensures 0 < |r| <= 64
  {
    var s := TrimHyphens(Squash(value));
    if s == "" then "default" else if |s| <= 64 then s else s[..64]
  }

  function BaseParts(n: Normalized): seq<string> {
    ["channel", Sanitize(n.platform), Sanitize(Default(n.accountId, "default")), Sanitize(ChatTypeText(n.chatType)),
     Sanitize(n.chatId), Sanitize(Default(n.threadId, "main"))]
    + if n.userId.Some? then [Sanitize(n.userId.value)] else []
  }

  function Base(n: Normalized): string { Joined(BaseParts(n), '-') }

  // ---------------------------------------------------------------- when two keys share a base

  /** The words of the parts: a part may hold hyphens itself. */
  function Words(parts: seq<string>): seq<string> {
    if parts == [] then [] else Split(parts[0], '-') + Words(parts[1..])
  }

  /** A character in front of the first word. */
  function Onto(c: char, words: seq<string>): seq<string>
    requires words != []
  {
    [[c] + words[0]] + words[1..]
  }

  lemma SplitCons(c: char, s: string)
    ensures Split([c] + s, '-') == Before(c, Split(s, '-'))
  {
    assert ([c] + s)[1..] == s;
  }

  /** A character in front of a text, seen from its words. */
  function Before(c: char, words: seq<string>): seq<string>
    requires words != []
  {
    if c == '-' then [""] + words else Onto(c, words)
  }

  lemma BeforeConcat(c: char, words: seq<string>, more: seq<string>)
    requires words != []
    ensures Before(c, words + more) == Before(c, words) + more
  {}

  lemma {:induction false} SplitConcat(a: string, b: string)
    ensures Split(a + (['-'] + b), '-') == Split(a, '-') + Split(b, '-')
  {
    if a == "" {
      assert a + (['-'] + b) == ['-'] + b;
      SplitCons('-', b);
    } else {
      SplitConcat(a[1..], b);
      SplitConcatCons(a[0], a[1..], b, a[1..] + (['-'] + b));
      assert a == [a[0]] + a[1..];
      assert a + (['-'] + b) == [a[0]] + (a[1..] + (['-'] + b));
    }
  }

  lemma SplitConcatCons(c: char, rest: string, b: string, s: string)
    requires Split(s, '-') == Split(rest, '-') + Split(b, '-')
    ensures Split([c] + s, '-') == Split([c] + rest, '-') + Split(b, '-')
  {
    SplitCons(c, rest);
    SplitCons(c, s);
    BeforeConcat(c, Split(rest, '-'), Split(b, '-'));
  }

  lemma {:induction false} WordsOfJoined(parts: seq<string>)
    requires parts != []
    ensures Split(Joined(parts, '-'), '-') == Words(parts)
    decreases |parts|
  {
    if |parts| == 1 {
      assert Words(parts[1..]) == [];
    } else {
      WordsOfJoined(parts[1..]);
      SplitConcat(parts[0], Joined(parts[1..], '-'));
      assert Joined(parts, '-') == parts[0] + (['-'] + Joined(parts[1..], '-'));
    }
  }

  lemma {:induction false} JoinedOfSplit(s: string)
    ensures Joined(Split(s, '-'), '-') == s
  {
    if s != "" {
      var rest := Split(s[1..], '-');
      JoinedOfSplit(s[1..]);
      assert s == [s[0]] + s[1..];
      SplitCons(s[0], s[1..]);
      if s[0] == '-' {
        assert ([""] + rest)[1..] == rest;
      } else {
        JoinedLonger(s[0], rest);
      }
    }
  }

  lemma JoinedLonger(c: char, words: seq<string>)
    requires words != []
    ensures Joined(Onto(c, words), '-') == [c] + Joined(words, '-')
  {
    var longer := Onto(c, words);
    assert longer[1..] == words[1..];
    if |words| > 1 {
      assert Joined(longer, '-') == ([c] + words[0]) + ['-'] + Joined(words[1..], '-');
      assert Joined(words, '-') == words[0] + ['-'] + Joined(words[1..], '-');
    }
  }

  /** Two keys have session ids with the same base exactly when their sanitised parts are made of the same words. */
  lemma BasesAgreeIff(a: Normalized, b: Normalized)
    ensures Base(a) == Base(b) <==> Words(BaseParts(a)) == Words(BaseParts(b))
  {
    WordsOfJoined(BaseParts(a));
    WordsOfJoined(BaseParts(b));
    JoinedOfSplit(Base(a));
    JoinedOfSplit(Base(b));
  }

  /** So they do although they are filed apart: an account left out and one called default. */
  lemma DefaultAccountShares(n: Normalized)
    requires n.accountId == None
    ensures var m := n.(accountId := Some("default")); Base(m) == Base(n) && Stable(m) != Stable(n)
  {
    var m := n.(accountId := Some("default"));
    assert BaseParts(m) == BaseParts(n);
    StableLonger(n, "default");
  }

  lemma StableLonger(n: Normalized, account: string)
    requires n.accountId == None
    ensures |Stable(n.(accountId := Some(account)))| == |Stable(n)| + |account|
  {
    var m := n.(accountId := Some(account));
    var p, q := StableParts(n), StableParts(m);
    assert p[1..][1..] == q[1..][1..];
    assert Joined(p, ':') == p[0] + [':'] + (p[1] + [':'] + Joined(p[1..][1..], ':'));
    assert Joined(q, ':') == q[0] + [':'] + (q[1] + [':'] + Joined(q[1..][1..], ':'));
  }

  lemma {:induction false} JoinedLast(parts: seq<string>, last: string, sep: char)
    requires parts != []
    ensures Joined(parts + [last], sep) == Joined(parts, sep) + [sep] + last
  {
    if |parts| > 1 {
      JoinedLast(parts[1..], last, sep);
      assert (parts + [last])[1..] == parts[1..] + [last];
      assert Joined(parts + [last], sep) == parts[0] + [sep] + Joined(parts[1..] + [last], sep);
    } else {
      assert (parts + [last])[1..] == [last];
    }
  }

  lemma {:induction false} DigitsSquash(s: string)
    requires AllDigits(s)
    ensures Squash(s) == s
  {
    if s != "" {
      assert s == [s[0]] + s[1..] && s[0] in s;
      DigitsSquash(s[1..]);
    }
  }

  lemma DigitsStay(s: string)
    requires AllDigits(s) && 0 < |s| <= 64
    ensures Sanitize(s) == s
  {
    DigitsSquash(s);
    assert s[0] in s && s[|s| - 1] in s;
  }

  /** The base of a per-user key ends in the user id, when that is a number of at most 64 digits. */
  lemma BaseEndsInUser(n: Normalized)
    requires n.userId.Some? && AllDigits(n.userId.value) && 0 < |n.userId.value| <= 64
    ensures exists front :: Base(n) == front + "-" + n.userId.value
  {
    var front := BaseParts(n.(userId := None));
    DigitsStay(n.userId.value);
    assert BaseParts(n) == front + [n.userId.value];
    JoinedLast(front, n.userId.value, '-');
    assert Base(n) == Joined(front, '-') + "-" + n.userId.value;
  }
}
