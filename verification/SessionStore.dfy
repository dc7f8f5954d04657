/** The store itself: entries, sequence and loaded mark updated in place, and the file it saves to. */
module SessionStore {
  import opened Wrappers
  import opened Doubles
  import opened SessionKeys
  import opened SessionIds

  class PersistentStore {
    const policy: Policy
    const show: nat -> string
    var entries: map<string, string>
    var sequence: nat
    var loaded: bool
    var disk: Disk
    ghost var handed: seq<(Normalized, string)>
    ghost var top: nat

    ghost function Model(): State
      reads this
    {
      State(loaded, entries, sequence, disk, handed, top)
    }

    /** A new process: nothing loaded, the file and the record of what was handed out as they were. */
    constructor (policy: Policy, show: nat -> string, disk: Disk, ghost handed: seq<(Normalized, string)>, ghost top: nat)
      ensures Model() == State(false, map[], 0, disk, handed, top) && this.policy == policy && this.show == show
    {
      this.policy, this.show, this.disk := policy, show, disk;
      entries, sequence, loaded := map[], 0, false;
      this.handed, this.top := handed, top;
    }

    method EnsureLoaded(readable: bool) returns (ok: bool)
      modifies this
      ensures Model() == Load(old(Model()), readable) && ok == !LoadFails(old(Model()), readable)
    {
      if loaded { return true; }
      loaded := true;
      if !readable || disk == Torn { return false; }
      if disk == Absent { return true; }
      var saved := disk.entries;
      var greatest := GreatestSuffix(saved);
      entries := entries + saved;
      sequence := Max(sequence, greatest);
      return true;
    }

    method GreatestSuffix(saved: map<string, string>) returns (n: nat)
      ensures n == TopSuffix(saved)
    {
      n := 0;
      var rest := saved.Keys;
      while rest != {}
        invariant rest <= saved.Keys
        invariant forall k :: k in saved && k !in rest ==> Suffix(saved[k]) <= n
        invariant n == 0 || exists k :: k in saved && k !in rest && Suffix(saved[k]) == n
        decreases |rest|
      {
        var k :| k in rest;
        rest := rest - {k};
        if Suffix(saved[k]) > n { n := Suffix(saved[k]); }
      }
      TopIsUnique(saved, n, TopSuffix(saved));
    }

    method Save(n: Normalized, id: string, flush: Flush) returns (r: Option<string>)
      modifies this
      ensures (Model(), r) == Return(old(Model()), n, id, flush)
    {
      entries := entries[Stable(n) := id];
      match flush
      case Written =>
        disk := File(entries);
        handed, top := handed + [(n, id)], Max(top, sequence);
        return Some(id);
      case Refused => return None;
      case Broken =>
        disk := Torn;
        return None;
    }

    method NewSessionId(n: Normalized, flush: Flush) returns (r: Option<string>)
      modifies this
      ensures (Model(), r) == NewId(old(Model()), n, flush, show)
    {
      sequence := Inc(sequence);
      r := Save(n, Base(n) + "-" + show(sequence), flush);
    }

    /** None is a call that threw. */
    method GetOrCreateSessionId(key: ChannelKey, stale: bool, readable: bool, flush: Flush) returns (r: Option<string>)
      modifies this
      ensures (Model(), r) == Apply(old(Model()), Get(Normalize(key, policy), stale, readable, flush), show)
    {
      var ok := EnsureLoaded(readable);
      if !ok { return None; }
      var n := Normalize(key, policy);
      if Stable(n) in entries {
        if stale {
          r := NewSessionId(n, flush);
        } else {
          r := Save(n, entries[Stable(n)], flush);
        }
      } else {
        r := Save(n, Base(n), flush);
      }
    }

    method ResetSessionId(key: ChannelKey, readable: bool, flush: Flush) returns (r: Option<string>)
      modifies this
      ensures (Model(), r) == Apply(old(Model()), Reset(Normalize(key, policy), readable, flush), show)
    {
      var ok := EnsureLoaded(readable);
      if !ok { return None; }
      r := NewSessionId(Normalize(key, policy), flush);
    }
  }

  lemma TopIsUnique(entries: map<string, string>, a: nat, b: nat)
    requires IsTop(entries, a) && IsTop(entries, b)
    ensures a == b
  {
    if a > 0 { var k :| k in entries && Suffix(entries[k]) == a; }
    if b > 0 { var k :| k in entries && Suffix(entries[k]) == b; }
  }
}
