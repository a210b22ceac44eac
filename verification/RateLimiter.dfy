/** The request budget of a device (auth.py): a pruned list that decides as the full history would. */
module RateLimiter {
  import opened Seqs

  /** One call of `check`, as it was decided. */
  datatype Call = Call(key: string, time: real, admitted: bool)

  /** The times of a key's calls, admitted or refused, later than `cutoff`. */
  function TimesAfter(calls: seq<Call>, key: string, cutoff: real): seq<real> {
    if calls == [] then []
    else
      var c := calls[|calls| - 1];
      TimesAfter(calls[..|calls| - 1], key, cutoff) + (if c.key == key && c.time > cutoff then [c.time] else [])
  }

  function Later(cutoff: real): real -> bool {
    (t: real) => t > cutoff
  }

  lemma TimesSnoc(calls: seq<Call>, c: Call, key: string, cutoff: real)
    ensures TimesAfter(calls + [c], key, cutoff) == TimesAfter(calls, key, cutoff) +
            (if c.key == key && c.time > cutoff then [c.time] else [])
  {
    assert (calls + [c])[..|calls|] == calls;
  }

  lemma {:induction false} FilterTwice(s: seq<real>, early: real, late: real)
    requires early <= late
    ensures Filter(Filter(s, Later(early)), Later(late)) == Filter(s, Later(late))
  {
    if s != [] {
      FilterTwice(s[1..], early, late);
    }
  }

  /** From this cutoff on, the list answers as the full history does. */
  ghost predicate AsHistory(list: seq<real>, calls: seq<Call>, key: string, from: real) {
    forall cutoff :: cutoff >= from ==> Filter(list, Later(cutoff)) == TimesAfter(calls, key, cutoff)
  }

  /** A call of this key: the list is pruned, then the call is appended. */
  lemma SameKey(list: seq<real>, calls: seq<Call>, c: Call, from: real, window: real)
    requires AsHistory(list, calls, c.key, from) && from <= c.time - window
    ensures AsHistory(Filter(list, Later(c.time - window)) + [c.time], calls + [c], c.key, c.time - window)
  {
    hide Filter, TimesAfter;
    var recent := Filter(list, Later(c.time - window));
    forall cutoff | cutoff >= c.time - window
      ensures Filter(recent + [c.time], Later(cutoff)) == TimesAfter(calls + [c], c.key, cutoff)
    {
      FilterSnoc(recent, c.time, Later(cutoff));
      FilterTwice(list, c.time - window, cutoff);
      TimesSnoc(calls, c, c.key, cutoff);
    }
  }

  /** A call of another key changes nothing here. */
  lemma OtherKey(list: seq<real>, calls: seq<Call>, c: Call, key: string, from: real, later: real)
    requires AsHistory(list, calls, key, from) && from <= later && key != c.key
    ensures AsHistory(list, calls + [c], key, later)
  {
    forall cutoff | cutoff >= later
      ensures Filter(list, Later(cutoff)) == TimesAfter(calls + [c], key, cutoff)
    {
      TimesSnoc(calls, c, key, cutoff);
      assert TimesAfter(calls, key, cutoff) + [] == TimesAfter(calls, key, cutoff);
    }
  }

  function ListOf(hits: map<string, seq<real>>, key: string): seq<real> {
    if key in hits then hits[key] else []
  }

  function LastTime(calls: seq<Call>): real
    requires calls != []
  {
    calls[|calls| - 1].time
  }

  /** Each call was admitted exactly when fewer than `limit` earlier ones of its key lay in (now - window, now]. */
  ghost predicate Decided(calls: seq<Call>, limit: int, window: real) {
    calls == [] ||
    var n := |calls| - 1;
    var c := calls[n];
    Decided(calls[..n], limit, window) && (c.admitted <==> |TimesAfter(calls[..n], c.key, c.time - window)| < limit)
  }

  /** The earlier calls of a key, admitted or not, that lie in (now - window, now]. */
  ghost function Recent(calls: seq<Call>, key: string, now: real, window: real): set<int> {
    set i | 0 <= i < |calls| && calls[i].key == key && now - window < calls[i].time
  }

  lemma {:induction false} RecentCount(calls: seq<Call>, key: string, now: real, window: real)
    ensures |TimesAfter(calls, key, now - window)| == |Recent(calls, key, now, window)|
  {
    hide Recent, TimesAfter;
    if calls == [] {
      NoneRecent(key, now, window);
    } else {
      var n := |calls| - 1;
      RecentCount(calls[..n], key, now, window);
      assert calls == calls[..n] + [calls[n]];
      TimesSnoc(calls[..n], calls[n], key, now - window);
      RecentSnoc(calls[..n], calls[n], key, now, window);
    }
  }

  lemma NoneRecent(key: string, now: real, window: real)
    ensures TimesAfter([], key, now - window) == [] && Recent([], key, now, window) == {}
  {
  }

  lemma RecentSnoc(calls: seq<Call>, c: Call, key: string, now: real, window: real)
    ensures |Recent(calls + [c], key, now, window)| ==
            |Recent(calls, key, now, window)| + (if c.key == key && c.time > now - window then 1 else 0)
  {
    var early, all := Recent(calls, key, now, window), Recent(calls + [c], key, now, window);
    assert |calls| !in early;
    assert all == early + (if c.key == key && c.time > now - window then {|calls|} else {});
  }

  class Limiter {
    const limit: int
    const window: real
    var hits: map<string, seq<real>>
    ghost var calls: seq<Call>

    /** The pruned lists decide as the history, which was decided so throughout. */
    ghost predicate Valid()
      reads this
    {
      && Decided(calls, limit, window)
      && (calls == [] ==> hits == map[])
      && (calls != [] ==> forall key :: AsHistory(ListOf(hits, key), calls, key, LastTime(calls) - window))
    }

    constructor (limit: int, window: real)
      ensures Valid() && calls == [] && this.limit == limit && this.window == window
    {
      this.limit, this.window, hits, calls := limit, window, map[], [];
    }

    /** `check` at a clock reading that is not before the previous one; false is its 429. */
    method Check(key: string, now: real) returns (admitted: bool)
      requires Valid() && (calls != [] ==> LastTime(calls) <= now)
      modifies this
      ensures Valid() && calls == old(calls) + [Call(key, now, admitted)]
      ensures admitted <==> |Recent(old(calls), key, now, window)| < limit
      ensures key in hits && hits == old(hits)[key := hits[key]]
    {
      hide AsHistory, Filter, Decided, TimesAfter;
      ghost var before, lists := calls, hits;
      var recent := Filter(ListOf(hits, key), Later(now - window));
      RecentIsHistory(hits, calls, key, now, window);
      admitted := |recent| < limit;
      hits := hits[key := recent + [now]];
      calls := calls + [Call(key, now, admitted)];
      DecidedSnoc(before, Call(key, now, admitted), limit, window);
      HistoryKept(lists, before, Call(key, now, admitted), window);
      RecentCount(before, key, now, window);
    }
  }

  lemma RecentIsHistory(hits: map<string, seq<real>>, calls: seq<Call>, key: string, now: real, window: real)
    requires calls == [] ==> hits == map[]
    requires calls != [] ==>
               LastTime(calls) <= now &&
               AsHistory(ListOf(hits, key), calls, key, LastTime(calls) - window)
    ensures Filter(ListOf(hits, key), Later(now - window)) == TimesAfter(calls, key, now - window)
  {
  }

  lemma DecidedSnoc(calls: seq<Call>, c: Call, limit: int, window: real)
    requires Decided(calls, limit, window) && (c.admitted <==> |TimesAfter(calls, c.key, c.time - window)| < limit)
    ensures Decided(calls + [c], limit, window)
  {
    hide TimesAfter;
    assert (calls + [c])[..|calls|] == calls;
  }

  lemma HistoryKept(hits: map<string, seq<real>>, calls: seq<Call>, c: Call, window: real)
    requires calls == [] ==> hits == map[]
    requires calls != [] ==>
               LastTime(calls) <= c.time &&
               forall key :: AsHistory(ListOf(hits, key), calls, key, LastTime(calls) - window)
    ensures var after := hits[c.key := Filter(ListOf(hits, c.key), Later(c.time - window)) + [c.time]];
            forall key :: AsHistory(ListOf(after, key), calls + [c], key, LastTime(calls + [c]) - window)
  {
    hide AsHistory, Filter;
    var after := hits[c.key := Filter(ListOf(hits, c.key), Later(c.time - window)) + [c.time]];
    var from := if calls == [] then c.time - window else LastTime(calls) - window;
    forall key
      ensures AsHistory(ListOf(after, key), calls + [c], key, LastTime(calls + [c]) - window)
    {
      if calls == [] {
        EmptyHistory(key, from);
      }
      if key == c.key {
        SameKey(ListOf(hits, key), calls, c, from, window);
      } else {
        OtherKey(ListOf(hits, key), calls, c, key, from, c.time - window);
      }
    }
  }

  lemma EmptyHistory(key: string, from: real)
    ensures AsHistory([], [], key, from)
  {
  }

  // ---------------------------------------------------------------- the budget

  /** Calls of a key that were admitted in the interval (from, to]. */
  function AdmittedIn(calls: seq<Call>, key: string, from: real, to: real): nat {
    if calls == [] then 0
    else
      var c := calls[|calls| - 1];
      AdmittedIn(calls[..|calls| - 1], key, from, to) +
        (if c.key == key && c.admitted && from < c.time <= to then 1 else 0)
  }

  lemma {:induction false} AdmittedAreCalls(calls: seq<Call>, key: string, from: real, to: real, cutoff: real)
    requires cutoff <= from
    ensures AdmittedIn(calls, key, from, to) <= |TimesAfter(calls, key, cutoff)|
  {
    if calls != [] {
      AdmittedAreCalls(calls[..|calls| - 1], key, from, to, cutoff);
    }
  }

  /** Any interval of one window's length, open on the left, admits at most `limit` calls of a key. */
  lemma {:induction false} BudgetHolds(calls: seq<Call>, limit: int, window: real, key: string, from: real)
    requires Decided(calls, limit, window)
    ensures AdmittedIn(calls, key, from, from + window) <= if limit > 0 then limit else 0
  {
    if calls != [] {
      var n := |calls| - 1;
      BudgetHolds(calls[..n], limit, window, key, from);
      var c := calls[n];
      if c.key == key && c.admitted && from < c.time <= from + window {
        AdmittedAreCalls(calls[..n], key, from, from + window, c.time - window);
      }
    }
  }
}
