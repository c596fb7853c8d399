/**
 `LoginService` of app/application/login.py:55-230: each method is a piece of the
 class that runs between two awaits, and does what its step of the protocol does.
 */
module LoginServices {
  import opened Common
  import opened ExpiringCache
  import opened LoginCache

  /** What a request gets at once. */
  datatype Served = NoScript | FromCache(decision: Option<Decision>) | Waits(index: nat) | Starts(run: Run)

  /** The parts of `LoginService` that run between two awaits. */
  class LoginService {
    const limits: Limits
    const script: Option<Script>
    var cache: seq<Entry>
    var inflight: map<Key, nat>
    var stored: Option<Stored>
    var checkedAt: Option<real>

    constructor (limits: Limits, script: Option<Script>)
      ensures this.limits == limits && this.script == script
      ensures cache == [] && inflight == map[] && stored.None? && checkedAt.None?
    {
      this.limits, this.script := limits, script;
      cache, inflight, stored, checkedAt := [], map[], None, None;
    }

    /** The service is where state `s` of the protocol says. */
    ghost predicate Is(s: State)
      reads this
    {
      cache == s.cache && inflight == s.inflight && stored == s.stored && checkedAt == s.checkedAt
    }

    /** The script to run now and its tag. */
    method Active() returns (active: Option<(Tag, Script)>)
      ensures active == ActiveScript(stored, script)
    {
      if script.Some? {
        active := Some((Config, script.value));
      } else if stored.Some? && stored.value.script.Some? {
        active := Some((Db(stored.value.version), stored.value.script.value));
      } else {
        active := None;
      }
    }

    /**
     The rest of `decision_for` once the store has been dealt with: no script, a live
     entry, a run to wait for, or a new run, numbered `next`.
     */
    method DecisionFor(q: Request, now: real, next: nat, ghost s: State) returns (r: Served)
      requires Is(s) && s.now == now && next == |s.runs|
      modifies this
      ensures Is(Decide(s, limits, script, q))
      ensures match ActiveScript(s.stored, script)
              case None => r.NoScript? && cache == old(cache) && inflight == old(inflight)
              case Some(active) =>
                var key := Key(active.0, q.token);
                var live := Live(s.cache, key, now);
                && cache == Asked(old(cache), key, now)
                && (live.Some? ==> r == FromCache(live.value.decision) && inflight == old(inflight))
                && (live.None? && key in s.inflight ==> r == Waits(s.inflight[key]) && inflight == old(inflight))
                && (live.None? && key !in s.inflight ==>
                      r == Starts(Run(key, active.1, q.exp, Running)) && inflight == old(inflight)[key := next])
    {
      hide Asked, Live, Lookup, Without, EntryOf;
      var active := Active();
      hide ActiveScript;
      if active.None? {
        return NoScript;
      }
      var key := Key(active.value.0, q.token);
      var live := Cached(key, now);
      if live.Some? {
        return FromCache(live.value.decision);
      }
      if key in inflight {
        return Waits(inflight[key]);
      }
      inflight := inflight[key := next];
      r := Starts(Run(key, active.value.1, q.exp, Running));
    }

    method Cached(key: Key, now: real) returns (e: Option<Entry>)
      modifies this`cache
      ensures cache == Asked(old(cache), key, now)
      ensures e == Live(old(cache), key, now)
    {
      e := Lookup(cache, key);
      if e.Some? {
        if now >= e.value.expires {
          cache := Without(cache, key);
          e := None;
        } else {
          cache := Without(cache, key) + [e.value];
        }
      }
    }

    method Remember(key: Key, decision: Option<Decision>, ttl: real, now: real)
      modifies this`cache
      ensures cache == Remembered(old(cache), limits.maxEntries, Entry(key, decision, now + ttl))
    {
      ghost var all := Without(cache, key) + [Entry(key, decision, now + ttl)];
      cache := Without(cache, key) + [Entry(key, decision, now + ttl)];
      while |cache| > limits.maxEntries
        invariant |cache| <= |all| && cache == all[|all| - |cache|..]
        invariant |cache| < |all| ==> |cache| >= limits.maxEntries
      {
        cache := cache[1..];
      }
    }

    /** The end of `_load_stored`: the loaded version replaces what was there, and a change empties the cache. */
    method Adopt(version: nat, script: Option<Script>)
      modifies this`cache, this`stored
      ensures stored == Some(Stored(version, script))
      ensures cache == if old(stored).Some? && old(stored).value.version != version then [] else old(cache)
    {
      if stored.Some? && stored.value.version != version {
        cache := [];
      }
      stored := Some(Stored(version, script));
    }

    /** The end of `_login`: what a finished run leaves behind is its decision, for as long as that is good. */
    method Conclude(r: Run, outcome: Outcome, now: real) returns (decision: Option<Decision>)
      modifies this`cache
      ensures decision == match outcome case Failed => None case Decided(d, _) => Some(d)
      ensures var done := r.(phase := Done(outcome, now));
              var e := EntryOf(limits, done);
              && e.key == r.key && e.decision == decision
              && (forall at :: at < e.expires <==> StillGood(limits, done, at))
              && cache == Remembered(old(cache), limits.maxEntries, e)
    {
      forall at ensures at < EntryOf(limits, r.(phase := Done(outcome, now))).expires
                        <==> StillGood(limits, r.(phase := Done(outcome, now)), at) {
        EntryLastsWhileGood(limits, r.(phase := Done(outcome, now)), at);
      }
      match outcome
      case Failed =>
        decision := None;
        Remember(r.key, None, limits.failureTtl, now);
      case Decided(d, applied) =>
        decision := Some(d);
        var ttl := limits.failureTtl;
        if applied {
          ttl := TokenTtl(limits, r.exp, now);
        }
        Remember(r.key, decision, ttl, now);
    }

    method Invalidate()
      modifies this
      ensures cache == [] && stored.None? && checkedAt.None? && inflight == old(inflight)
    {
      checkedAt, stored, cache := None, None, [];
    }
  }
}
