/**
 * The process-wide registry of match timer managers, keyed by match id and
 * remembering insertion order (the order a JavaScript `Map` iterates in).
 */
module TimerRegistry {
  import opened Wrappers
  import Timers
  import opened MatchTimers

  datatype Registry = Registry(managers: map<string, Manager>, order: seq<string>)

  /** No id occurs twice. */
  predicate NoDuplicates(s: seq<string>) {
    |s| == 0 || (s[0] !in s[1..] && NoDuplicates(s[1..]))
  }

  /** Appending an id not yet listed keeps the list duplicate-free. */
  lemma {:induction false} AppendFresh(s: seq<string>, x: string)
    requires NoDuplicates(s) && x !in s
    ensures NoDuplicates(s + [x])
  {
    if s != [] {
      AppendFresh(s[1..], x);
      assert (s + [x])[1..] == s[1..] + [x];
    }
  }

  /** The order lists each registered match exactly once. */
  ghost predicate Inv(reg: Registry) {
    && NoDuplicates(reg.order)
    && (forall id :: id in reg.managers <==> id in reg.order)
  }

  const Empty := Registry(map[], [])

  datatype Got = Got(registry: Registry, manager: Result<Manager, ManagerError>)

  /**
   * `getMatchTimerManager`: an existing manager is returned as it is, whatever
   * sport and period count are asked for; otherwise a new one is built (four
   * periods unless told otherwise) and registered. A failed construction
   * registers nothing.
   */
  function GetManager(reg: Registry, matchId: string, sport: MatchSport, periodCount: Option<int>, now: int): (r: Got)
    ensures Inv(reg) ==> Inv(r.registry)
    ensures matchId in reg.managers ==> r == Got(reg, Ok(reg.managers[matchId]))
    ensures matchId !in reg.managers ==>
      r.manager == NewManager(matchId, sport, periodCount.GetOr(DefaultPeriodCount), now)
    ensures matchId !in reg.managers && r.manager.Err? ==> r.registry == reg
    ensures matchId !in reg.managers && r.manager.Ok? ==>
      && r.registry.managers == reg.managers[matchId := r.manager.value]
      && r.registry.order == reg.order + [matchId]
  {
    if matchId in reg.managers then Got(reg, Ok(reg.managers[matchId]))
    else
      var made := NewManager(matchId, sport, periodCount.GetOr(DefaultPeriodCount), now);
      if made.Err? then Got(reg, made)
      else
        AppendFreshWhenValid(reg, matchId);
        Got(Registry(reg.managers[matchId := made.value], reg.order + [matchId]), made)
  }

  lemma AppendFreshWhenValid(reg: Registry, matchId: string)
    requires matchId !in reg.managers
    ensures Inv(reg) ==> NoDuplicates(reg.order + [matchId])
  {
    if Inv(reg) {
      AppendFresh(reg.order, matchId);
    }
  }

  /** Asking twice for the same match gives the same manager and registers it once. */
  lemma GetTwice(reg: Registry, matchId: string, sport: MatchSport, sport2: MatchSport,
                 periodCount: Option<int>, periodCount2: Option<int>, now: int, later: int)
    requires Inv(reg)
    ensures var first := GetManager(reg, matchId, sport, periodCount, now);
      first.manager.Ok? ==>
        GetManager(first.registry, matchId, sport2, periodCount2, later) == Got(first.registry, first.manager)
  {
  }

  /** Removes `id` from an order list. */
  function Without(order: seq<string>, id: string): (r: seq<string>)
    ensures forall x :: x in r <==> x in order && x != id
    ensures NoDuplicates(order) ==> NoDuplicates(r)
    ensures |r| <= |order|
  {
    if order == [] then []
    else if order[0] == id then Without(order[1..], id)
    else [order[0]] + Without(order[1..], id)
  }

  /**
   * A caller changes a manager through the reference the registry hands out,
   * so the change is seen by every later lookup: `Put` writes the changed
   * manager back under its id. An id that is not registered is left alone.
   */
  function Put(reg: Registry, matchId: string, m: Manager): (r: Registry)
    ensures Inv(reg) ==> Inv(r)
    ensures r.order == reg.order && r.managers.Keys == reg.managers.Keys
    ensures matchId in reg.managers ==> r.managers[matchId] == m
    ensures forall id :: id in reg.managers && id != matchId ==> r.managers[id] == reg.managers[id]
  {
    if matchId in reg.managers then Registry(reg.managers[matchId := m], reg.order) else reg
  }

  /** A lookup after a write-back returns the manager as changed, and registers nothing. */
  lemma PutThenGet(reg: Registry, matchId: string, m: Manager, sport: MatchSport, periodCount: Option<int>, now: int)
    requires matchId in reg.managers
    ensures var reg2 := Put(reg, matchId, m);
      GetManager(reg2, matchId, sport, periodCount, now) == Got(reg2, Ok(m))
  {
  }

  /**
   * Starting the current period of a registered match, as a controller does
   * through the shared reference: the next lookup sees the started manager.
   */
  lemma StartSeenByNextLookup(reg: Registry, matchId: string, sport: MatchSport, periodCount: Option<int>, now: int, later: int)
    requires matchId in reg.managers
    ensures var got := GetManager(reg, matchId, sport, periodCount, now);
      var started := StartCurrentPeriod(got.manager.value, now).manager;
      var reg2 := Put(got.registry, matchId, started);
      && GetManager(reg2, matchId, sport, periodCount, later).manager == Ok(started)
      && reg2.order == reg.order
  {
    var got := GetManager(reg, matchId, sport, periodCount, now);
    PutThenGet(got.registry, matchId, StartCurrentPeriod(got.manager.value, now).manager, sport, periodCount, later);
  }

  datatype Removed = Removed(registry: Registry, removed: bool, destroyed: Option<Manager>)

  /**
   * `removeMatchTimerManager`: a registered manager is destroyed and
   * unregistered and the answer is true; otherwise false and nothing changes.
   * The destroyed manager is handed back so that callers still holding it see
   * every timer stopped.
   */
  function RemoveManager(reg: Registry, matchId: string, now: int): (r: Removed)
    ensures r.removed <==> matchId in reg.managers
    ensures !r.removed ==> r.registry == reg && r.destroyed == None
    ensures r.removed ==> r.destroyed == Some(MatchTimers.Destroy(reg.managers[matchId], now))
    ensures r.registry.managers == reg.managers - {matchId}
    ensures Inv(reg) ==> Inv(r.registry)
  {
    if matchId in reg.managers then
      Removed(Registry(reg.managers - {matchId}, Without(reg.order, matchId)), true, Some(MatchTimers.Destroy(reg.managers[matchId], now)))
    else Removed(reg, false, None)
  }

  /** `getActiveMatches`: the registered ids in registration order. */
  function ActiveMatches(reg: Registry): (ids: seq<string>)
    ensures Inv(reg) ==> forall id :: id in ids <==> id in reg.managers
    ensures Inv(reg) ==> |ids| == |reg.managers|
  {
    MapCardinality(reg);
    reg.order
  }

  /** A duplicate-free list has one entry per element of its set. */
  lemma {:induction false} DistinctLength(s: seq<string>)
    requires NoDuplicates(s)
    ensures |set x | x in s| == |s|
  {
    if s != [] {
      DistinctLength(s[1..]);
      assert (set x | x in s) == (set x | x in s[1..]) + {s[0]};
    } else {
      assert (set x | x in s) == {};
    }
  }

  lemma MapCardinality(reg: Registry)
    ensures Inv(reg) ==> |reg.order| == |reg.managers|
  {
    if Inv(reg) {
      DistinctLength(reg.order);
      assert reg.managers.Keys == set x | x in reg.order;
    }
  }

  datatype Cleared = Cleared(registry: Registry, destroyed: map<string, Manager>)

  /**
   * `clearAll`: every registered manager is destroyed and the registry
   * emptied; the destroyed managers are handed back under their ids.
   */
  function ClearAll(reg: Registry, now: int): (r: Cleared)
    ensures Inv(r.registry) && r.registry.managers == map[] && ActiveMatches(r.registry) == []
    ensures r.destroyed.Keys == reg.managers.Keys
    ensures forall id :: id in r.destroyed ==> r.destroyed[id] == MatchTimers.Destroy(reg.managers[id], now)
  {
    Cleared(Empty, map id | id in reg.managers :: MatchTimers.Destroy(reg.managers[id], now))
  }

  /** After `clearAll` no timer of any formerly registered match is running. */
  lemma ClearAllStopsEverything(reg: Registry, now: int)
    ensures var c := ClearAll(reg, now);
      forall id :: id in c.destroyed ==>
        && c.destroyed[id].game.status != Timers.Running
        && (forall k :: k in c.destroyed[id].periods ==> c.destroyed[id].periods[k].status != Timers.Running)
  {
  }

  /** Registering then removing a new match leaves the same set of matches. */
  lemma GetThenRemove(reg: Registry, matchId: string, sport: MatchSport, periodCount: Option<int>, now: int, later: int)
    requires Inv(reg) && matchId !in reg.managers
    ensures var got := GetManager(reg, matchId, sport, periodCount, now);
      var r := RemoveManager(got.registry, matchId, later);
      && r.registry.managers == reg.managers
      && (r.removed <==> got.manager.Ok?)
  {
  }

  /** A second removal of the same match reports false. */
  lemma RemoveTwice(reg: Registry, matchId: string, now: int, later: int)
    ensures !RemoveManager(RemoveManager(reg, matchId, now).registry, matchId, later).removed
  {
  }
}
