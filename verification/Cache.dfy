/**
 The in-memory cache of app/resilience/cache.py: a timed store whose expired entries stay in the
 dictionary until a read happens to meet them.
 */
module Caches {

  import opened Wrappers

  datatype Entry = Entry(value: string, expiresAt: real)

  type Store = map<string, Entry>

  /** One locked section; `at` is the monotonic clock while it runs. */
  datatype Step =
    | Get(key: string, at: real)
    | Set(key: string, value: string, ttl: int, at: real)
    | Delete(key: string, at: real)
    | Clear(at: real)

  predicate Expired(e: Entry, now: real) { e.expiresAt <= now }

  function Lookup(s: Store, key: string, now: real): Option<string> {
    if key in s && !Expired(s[key], now) then Some(s[key].value) else None
  }

  function Apply(s: Store, step: Step): Store {
    match step
    case Get(key, at) => if key in s && Expired(s[key], at) then s - {key} else s
    case Set(key, value, ttl, at) => s[key := Entry(value, at + ttl as real)]
    case Delete(key, _) => s - {key}
    case Clear(_) => map[]
  }

  function Run(log: seq<Step>): Store {
    if log == [] then map[] else Apply(Run(log[..|log| - 1]), log[|log| - 1])
  }

  predicate Chronological(log: seq<Step>) {
    forall i, j :: 0 <= i < j < |log| ==> log[i].at <= log[j].at
  }

  predicate NotBefore(log: seq<Step>, now: real) {
    forall i :: 0 <= i < |log| ==> log[i].at <= now
  }

  // ---------------------------------------------------------------------------------------------
  // The reference: the full log, in which the last write to a key decides
  // ---------------------------------------------------------------------------------------------

  predicate Touches(step: Step, key: string) {
    match step
    case Get(_, _) => false
    case Set(k, _, _, _) => k == key
    case Delete(k, _) => k == key
    case Clear(_) => true
  }

  /** The entry written by the last step that touched the key, unless that step removed it. */
  function Written(log: seq<Step>, key: string): Option<Entry> {
    if log == [] then None
    else
      var last := log[|log| - 1];
      if !Touches(last, key) then Written(log[..|log| - 1], key)
      else if last.Set? then Some(Entry(last.value, last.at + last.ttl as real))
      else None
  }

  lemma WrittenAfter(log: seq<Step>, more: seq<Step>, key: string)
    requires |more| <= 1
    ensures Written(log + more, key) ==
            if more == [] || !Touches(more[0], key) then Written(log, key)
            else if more[0].Set? then Some(Entry(more[0].value, more[0].at + more[0].ttl as real))
            else None
  {
    if more == [] {
      assert log + more == log;
    } else {
      assert (log + more)[..|log + more| - 1] == log;
    }
  }

  function Reference(log: seq<Step>, key: string, now: real): Option<string> {
    match Written(log, key)
    case Some(e) => if Expired(e, now) then None else Some(e.value)
    case None => None
  }

  /** What the reference answers, said without recursion: a value is read exactly when some `Set`
      wrote it less than its ttl ago and nothing touched the key since. */
  lemma {:induction false} ReferenceMeans(log: seq<Step>, key: string, now: real, value: string)
    ensures Reference(log, key, now) == Some(value) <==>
            exists i :: 0 <= i < |log| && log[i].Set? && log[i].key == key && log[i].value == value
                        && now < log[i].at + log[i].ttl as real
                        && forall j :: i < j < |log| ==>
                             !log[j].Clear? && !((log[j].Set? || log[j].Delete?) && log[j].key == key)
  {
    if log != [] {
      var prefix, last := log[..|log| - 1], log[|log| - 1];
      ReferenceMeans(prefix, key, now, value);
      assert forall j :: 0 <= j < |prefix| ==> log[j] == prefix[j];
      if !Touches(last, key) && Reference(prefix, key, now) == Some(value) {
        var i :| 0 <= i < |prefix| && prefix[i].Set? && prefix[i].key == key && prefix[i].value == value
                 && now < prefix[i].at + prefix[i].ttl as real
                 && forall j :: i < j < |prefix| ==>
                      !prefix[j].Clear? && !((prefix[j].Set? || prefix[j].Delete?) && prefix[j].key == key);
        assert log[i] == prefix[i];
      }
    }
  }

  /** The store holds what was written last, minus entries that already expired. */
  ghost predicate Mirrors(s: Store, log: seq<Step>, now: real) {
    forall key: string ::
      match Written(log, key)
      case Some(e) => (key in s ==> s[key] == e) && (key !in s ==> Expired(e, now))
      case None => key !in s
  }

  lemma {:induction false} RunMirrorsTheLog(log: seq<Step>, now: real)
    requires Chronological(log) && NotBefore(log, now)
    ensures Mirrors(Run(log), log, now)
  {
    if log != [] {
      var prefix, last := log[..|log| - 1], log[|log| - 1];
      RunMirrorsTheLog(prefix, last.at);
    }
  }

  /** Every read answers exactly as the full timed log would. */
  lemma {:induction false} LazyExpiryIsInvisible(log: seq<Step>, key: string, now: real)
    requires Chronological(log) && NotBefore(log, now)
    ensures Lookup(Run(log), key, now) == Reference(log, key, now)
  {
    RunMirrorsTheLog(log, now);
  }

  lemma OneMoreStep(log: seq<Step>, step: Step)
    requires Chronological(log) && NotBefore(log, step.at)
    ensures Chronological(log + [step])
    ensures Run(log + [step]) == Apply(Run(log), step)
  {
    assert (log + [step])[..|log + [step]| - 1] == log;
  }

  class InMemoryCache {
    var store: Store
    ghost var log: seq<Step>

    ghost predicate Valid()
      reads this
    {
      Chronological(log) && store == Run(log)
    }

    constructor ()
      ensures Valid() && log == []
    {
      store, log := map[], [];
    }

    method GetValue(key: string, now: real) returns (value: Option<string>)
      requires Valid() && NotBefore(log, now)
      modifies this
      ensures Valid() && log == old(log) + [Get(key, now)]
      ensures value == Reference(old(log), key, now)
    {
      hide Run, Chronological, NotBefore, Reference;
      LazyExpiryIsInvisible(log, key, now);
      OneMoreStep(log, Get(key, now));
      log := log + [Get(key, now)];
      if key !in store {
        return None;
      }
      var entry := store[key];
      if entry.expiresAt <= now {
        store := store - {key};
        return None;
      }
      return Some(entry.value);
    }

    method SetValue(key: string, value: string, ttl: int, now: real)
      requires Valid() && NotBefore(log, now)
      modifies this
      ensures Valid() && log == old(log) + [Set(key, value, ttl, now)]
    {
      hide Run, Chronological, NotBefore;
      store := store[key := Entry(value, now + ttl as real)];
      OneMoreStep(log, Set(key, value, ttl, now));
      log := log + [Set(key, value, ttl, now)];
    }

    method DeleteKey(key: string, now: real)
      requires Valid() && NotBefore(log, now)
      modifies this
      ensures Valid() && log == old(log) + [Delete(key, now)]
    {
      hide Run, Chronological, NotBefore;
      store := store - {key};
      OneMoreStep(log, Delete(key, now));
      log := log + [Delete(key, now)];
    }

    method ClearAll(now: real)
      requires Valid() && NotBefore(log, now)
      modifies this
      ensures Valid() && log == old(log) + [Clear(now)]
    {
      hide Run, Chronological, NotBefore;
      store := map[];
      OneMoreStep(log, Clear(now));
      log := log + [Clear(now)];
    }
  }
}
