/**
 The ordered dictionary behind the login cache, oldest use first, with expiry and a
 bounded number of entries: `_cached` and `_remember` of app/application/login.py:178-193.
 */
module ExpiringCache {
  import opened Common

  type Decision = string

  datatype Tag = Config | Db(version: nat)

  /** Which script version, and whose token. */
  datatype Key = Key(tag: Tag, token: string)

  /** A remembered answer; None is a recorded failure. */
  datatype Entry = Entry(key: Key, decision: Option<Decision>, expires: real)

  function Lookup(cache: seq<Entry>, key: Key): (e: Option<Entry>)
    ensures e.Some? ==> e.value in cache && e.value.key == key
    ensures e.None? ==> forall f :: f in cache ==> f.key != key
  {
    if cache == [] then None else if cache[0].key == key then Some(cache[0]) else Lookup(cache[1..], key)
  }

  function Without(cache: seq<Entry>, key: Key): (rest: seq<Entry>)
    ensures |rest| <= |cache|
    ensures forall e :: e in rest <==> e in cache && e.key != key
  {
    if cache == [] then []
    else if cache[0].key == key then Without(cache[1..], key)
    else [cache[0]] + Without(cache[1..], key)
  }

  ghost predicate Distinct(cache: seq<Entry>) {
    forall i, j :: 0 <= i < j < |cache| ==> cache[i].key != cache[j].key
  }

  /** Dropping the oldest entries until at most `max` are left. */
  function Evict(cache: seq<Entry>, max: nat): (kept: seq<Entry>)
    ensures |kept| <= max && |kept| <= |cache|
    ensures kept == cache[|cache| - |kept|..]
    ensures |kept| < |cache| ==> |kept| == max
  {
    if |cache| > max then cache[|cache| - max..] else cache
  }

  function Remembered(cache: seq<Entry>, max: nat, e: Entry): seq<Entry> {
    Evict(Without(cache, e.key) + [e], max)
  }

  /** The cache after asking for `key` at `now`: a live entry becomes the newest, a dead one goes. */
  function Asked(cache: seq<Entry>, key: Key, now: real): seq<Entry> {
    match Lookup(cache, key)
    case None => cache
    case Some(e) => if now >= e.expires then Without(cache, key) else Without(cache, key) + [e]
  }

  function Live(cache: seq<Entry>, key: Key, now: real): (e: Option<Entry>)
    ensures e.Some? ==> e.value in cache && e.value.key == key && now < e.value.expires
    ensures e.None? ==> forall f :: f in Asked(cache, key, now) ==> f.key != key
  {
    match Lookup(cache, key)
    case None => None
    case Some(e) => if now >= e.expires then None else Some(e)
  }

  lemma {:induction false} WithoutIsDistinct(cache: seq<Entry>, key: Key)
    requires Distinct(cache)
    ensures Distinct(Without(cache, key))
    ensures |Without(cache, key)| == |cache| - if Lookup(cache, key).Some? then 1 else 0
  {
    if cache != [] {
      assert forall i :: 0 < i < |cache| ==> cache[i].key != cache[0].key;
      WithoutIsDistinct(cache[1..], key);
      if cache[0].key == key {
        assert Lookup(cache[1..], key).None?;
      }
    }
  }

  lemma AskedKeeps(cache: seq<Entry>, key: Key, now: real)
    requires Distinct(cache)
    ensures Distinct(Asked(cache, key, now)) && |Asked(cache, key, now)| <= |cache|
    ensures forall e :: e in Asked(cache, key, now) ==> e in cache
  {
    WithoutIsDistinct(cache, key);
  }

  lemma RememberedKeeps(cache: seq<Entry>, max: nat, e: Entry)
    requires Distinct(cache)
    ensures Distinct(Remembered(cache, max, e)) && |Remembered(cache, max, e)| <= max
    ensures forall f :: f in Remembered(cache, max, e) ==> f == e || (f in cache && f.key != e.key)
    ensures max > 0 ==> Lookup(Remembered(cache, max, e), e.key) == Some(e)
  {
    var all := Without(cache, e.key) + [e];
    var kept := Remembered(cache, max, e);
    AppendedIsDistinct(cache, e);
    assert forall f :: f in kept ==> f in all;
    if max > 0 {
      assert kept[|kept| - 1] == e;
    }
  }

  /** An entry is only ever pushed out after every entry that was used longer ago. */
  lemma EvictedIsOldest(cache: seq<Entry>, max: nat, e: Entry, i: nat, j: nat)
    requires i < j < |cache| && cache[i].key != e.key && cache[j].key != e.key && Distinct(cache)
    requires cache[i] in Remembered(cache, max, e)
    ensures cache[j] in Remembered(cache, max, e)
  {
    var rest := Without(cache, e.key);
    hide Without, Lookup, Distinct, Evict;
    var a, b := OrderKept(cache, e.key, i, j);
    AppendedIsDistinct(cache, e);
    LaterKept(rest + [e], max, a, b);
  }

  lemma AppendedIsDistinct(cache: seq<Entry>, e: Entry)
    requires Distinct(cache)
    ensures Distinct(Without(cache, e.key) + [e])
  {
    WithoutIsDistinct(cache, e.key);
  }

  lemma LaterKept(all: seq<Entry>, max: nat, a: nat, b: nat)
    requires Distinct(all) && a < b < |all| && all[a] in Evict(all, max)
    ensures all[b] in Evict(all, max)
  {
    var kept := Evict(all, max);
    var k :| 0 <= k < |kept| && kept[k] == all[a];
    var from := |all| - |kept|;
    assert all[from + k].key == all[a].key;
    assert kept[b - from] == all[b];
  }

  lemma OrderKept(cache: seq<Entry>, key: Key, i: nat, j: nat) returns (a: nat, b: nat)
    requires i < j < |cache| && cache[i].key != key && cache[j].key != key
    ensures a < b < |Without(cache, key)|
    ensures Without(cache, key)[a] == cache[i] && Without(cache, key)[b] == cache[j]
  {
    var rest := Without(cache[1..], key);
    if i > 0 {
      a, b := OrderKept(cache[1..], key, i - 1, j - 1);
      if cache[0].key != key {
        a, b := a + 1, b + 1;
      }
    } else {
      assert cache[j] == cache[1..][j - 1];
      assert cache[j] in rest;
      var k :| 0 <= k < |rest| && rest[k] == cache[j];
      a, b := 0, k + 1;
    }
  }

  // ---- How long an entry stays ----

  /** The entry at `p` is the one for `key`, and every entry used after it has its key in `used`. */
  ghost predicate Leads(cache: seq<Entry>, p: nat, key: Key, used: set<Key>) {
    p < |cache| && cache[p].key == key && forall q :: p < q < |cache| ==> cache[q].key in used
  }

  ghost predicate Behind(cache: seq<Entry>, key: Key, used: set<Key>) {
    exists p :: Leads(cache, p, key, used)
  }

  lemma {:induction false} LeadsWithout(cache: seq<Entry>, p: nat, key: Key, used: set<Key>, other: Key) returns (k: nat)
    requires Leads(cache, p, key, used) && other != key
    ensures Leads(Without(cache, other), k, key, used)
  {
    var rest := Without(cache[1..], other);
    if p == 0 {
      k := 0;
      MembersLead(cache[0], rest, key, used);
    } else {
      hide Leads;
      LaterLeads(cache, p, key, used);
      k := LeadsWithout(cache[1..], p - 1, key, used, other);
      if cache[0].key != other {
        LeadsBehind(cache[0], rest, k, key, used);
        k := k + 1;
      }
    }
  }

  lemma MembersLead(e: Entry, rest: seq<Entry>, key: Key, used: set<Key>)
    requires e.key == key && forall f :: f in rest ==> f.key in used
    ensures Leads([e] + rest, 0, key, used)
  {
  }

  lemma LaterLeads(cache: seq<Entry>, p: nat, key: Key, used: set<Key>)
    requires Leads(cache, p, key, used) && p > 0
    ensures Leads(cache[1..], p - 1, key, used)
  {
  }

  lemma LeadsBehind(e: Entry, rest: seq<Entry>, k: nat, key: Key, used: set<Key>)
    requires Leads(rest, k, key, used)
    ensures Leads([e] + rest, k + 1, key, used)
  {
  }

  lemma LeadsWithAnother(cache: seq<Entry>, p: nat, key: Key, used: set<Key>, e: Entry)
    requires Leads(cache, p, key, used) && e.key in used
    ensures Leads(cache + [e], p, key, used)
  {
  }

  lemma LastLeads(cache: seq<Entry>, key: Key, used: set<Key>)
    requires cache != [] && cache[|cache| - 1].key == key
    ensures Leads(cache, |cache| - 1, key, used)
  {
  }

  /** Using another entry, or looking for one that is not there, leaves it behind. */
  lemma BehindAsked(cache: seq<Entry>, key: Key, used: set<Key>, other: Key, now: real)
    requires Behind(cache, key, used)
    requires if Live(cache, other, now).Some? then other == key || other in used else other != key
    ensures Behind(Asked(cache, other, now), key, used)
  {
    hide Leads, Without;
    if other == key {
      var asked := Asked(cache, key, now);
      LastLeads(asked, key, used);
    } else {
      var p :| Leads(cache, p, key, used);
      var k := LeadsWithout(cache, p, key, used, other);
      var live := Live(cache, other, now);
      if live.Some? {
        LeadsWithAnother(Without(cache, other), k, key, used, live.value);
      }
    }
  }

  /** A live entry that is used becomes the newest. */
  lemma UsedIsNewest(cache: seq<Entry>, key: Key, now: real)
    requires Live(cache, key, now).Some?
    ensures Behind(Asked(cache, key, now), key, {})
  {
    var asked := Asked(cache, key, now);
    assert Leads(asked, |asked| - 1, key, {});
  }

  lemma {:induction false} FewKeys(entries: seq<Entry>, used: set<Key>)
    requires Distinct(entries) && forall e :: e in entries ==> e.key in used
    ensures |entries| <= |used|
  {
    if entries != [] {
      assert entries[0] in entries;
      forall e | e in entries[1..] ensures e.key in used - {entries[0].key} {
        var i :| 0 <= i < |entries[1..]| && entries[1..][i] == e;
        assert entries[i + 1] == e;
      }
      FewKeys(entries[1..], used - {entries[0].key});
    }
  }

  /** While fewer other keys are used than there are places, it is not pushed out. */
  lemma BehindRemembered(cache: seq<Entry>, key: Key, used: set<Key>, max: nat, e: Entry)
    requires Distinct(cache) && Behind(cache, key, used) && e.key != key && e.key in used && |used| < max
    ensures Behind(Remembered(cache, max, e), key, used)
  {
    hide Without, Lookup;
    var p :| Leads(cache, p, key, used);
    var k := LeadsWithout(cache, p, key, used, e.key);
    var all := Without(cache, e.key) + [e];
    LeadsWithAnother(Without(cache, e.key), k, key, used, e);
    AppendedIsDistinct(cache, e);
    FewKeys(all[k + 1..], used);
    LeadsEvicted(all, k, key, used, max);
  }

  lemma LeadsEvicted(all: seq<Entry>, p: nat, key: Key, used: set<Key>, max: nat)
    requires Leads(all, p, key, used) && |all| - p <= max
    ensures Behind(Evict(all, max), key, used)
  {
    var kept := Evict(all, max);
    assert Leads(kept, p - (|all| - |kept|), key, used);
  }

  lemma RememberedIsBehind(cache: seq<Entry>, used: set<Key>, max: nat, e: Entry)
    requires max > 0
    ensures Behind(Remembered(cache, max, e), e.key, used)
  {
    var kept := Remembered(cache, max, e);
    assert Leads(kept, |kept| - 1, e.key, used);
  }
}
