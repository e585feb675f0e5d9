/** Synchronising a table of named models with a configuration, in place, with a cache and
    counters. Names are unique in the table. */
module ContentModels {

  datatype Stats = Stats(added: nat, updated: nat, same: nat, deleted: nat)

  type Named = map<string, int>

  /** What is stored for a configured value: nothing but the name when the model has no field. */
  function Stored(hasField: bool, value: int): int {
    if hasField then value else 0
  }

  /** The rows a configuration describes. */
  function Described(config: Named, hasField: bool): Named {
    map name | name in config :: Stored(hasField, config[name])
  }

  /** The table after synchronising. */
  function Synced(table: Named, config: Named, hasField: bool, update: bool): Named {
    if update then table + Described(config, hasField) else Described(config, hasField)
  }

  function Changed(table: Named, config: Named, hasField: bool, among: set<string>): set<string> {
    set name | name in among && name in table && name in config && hasField && table[name] != config[name]
  }

  function Gone(table: Named, config: Named, update: bool, among: set<string>): set<string> {
    set name | name in among && name in table && name !in config && !update
  }

  function Elements(order: seq<string>): set<string> {
    set name | name in order
  }

  class ModelTable {
    var table: Named
    var cache: Named

    constructor (table: Named)
      ensures this.table == table && cache == map[]
    {
      this.table, cache := table, map[];
    }

    /** Synchronise the table. The order is that in which the stored rows are visited. The
        configuration comes back without the names that were already stored. */
    method UpdateModelWithContent(config: Named, hasField: bool, update: bool, order: seq<string>)
      returns (stats: Stats, left: Named)
      requires Elements(order) == table.Keys && |order| == |table|
      requires hasField || forall name :: name in table ==> table[name] == 0
      modifies this
      ensures table == Synced(old(table), config, hasField, update)
      ensures cache == old(cache) + table
      ensures left == config - old(table).Keys
      ensures stats.same + stats.updated + stats.deleted == |old(table)|
      ensures |table| == |old(table)| + stats.added - stats.deleted
      ensures stats.added == |config.Keys - old(table).Keys|
      ensures stats.updated == |Changed(old(table), config, hasField, old(table).Keys)|
      ensures stats.deleted == |Gone(old(table), config, update, old(table).Keys)|
    {
      var was := table;
      stats, left := VisitStored(config, hasField, update, order);
      AllVisited(was, config, hasField, update);
      VisitedSize(was, config, hasField, update, was.Keys);
      AddedSize(table, left, hasField);
      var added := AddNew(left, hasField);
      CacheEnd(old(cache), Visited(was, config, hasField, update, was.Keys), Described(left, hasField));
      stats := stats.(added := added);
    }

    /** The loop over the stored rows. */
    method VisitStored(config: Named, hasField: bool, update: bool, order: seq<string>)
      returns (stats: Stats, left: Named)
      requires Elements(order) == table.Keys && |order| == |table|
      modifies this
      ensures table == Visited(old(table), config, hasField, update, old(table).Keys)
      ensures cache == old(cache) + Kept(table, old(table).Keys)
      ensures left == config - old(table).Keys
      ensures Counted(old(table), config, hasField, update, old(table).Keys, stats)
    {
      ghost var was, cache0 := table, cache;
      left, stats := config, Stats(0, 0, 0, 0);
      var i := 0;
      ghost var done: set<string> := {};
      MidwayStart(was, cache0, config, hasField, update);
      while i < |order|
        invariant 0 <= i <= |order| && done == Elements(order[..i]) && |done| == i && done <= was.Keys
        invariant Midway(was, cache0, config, hasField, update, done, table, cache, left, stats)
      {
        var name := order[i];
        NextIsNew(order, i);
        assert name in was && name !in done;
        stats, left := VisitNext(was, cache0, config, hasField, update, done, name, left, stats);
        done := done + {name};
        i := i + 1;
      }
      assert order[..|order|] == order;
    }

    /** One turn of the loop. */
    method VisitNext(
      ghost was: Named, ghost cache0: Named, ghost config: Named, hasField: bool, update: bool,
      ghost done: set<string>, name: string, left: Named, stats: Stats)
      returns (stats': Stats, left': Named)
      requires name in was && name !in done
      requires Midway(was, cache0, config, hasField, update, done, table, cache, left, stats)
      modifies this
      ensures Midway(was, cache0, config, hasField, update, done + {name}, table, cache, left', stats')
    {
      NextIsStored(was, config, hasField, update, done, name);
      ghost var table1, cache1 := table, cache;
      stats' := VisitRow(name, left, hasField, update, stats);
      left' := left - {name};
      MidwayStep(was, cache0, config, hasField, update, done,
                 table1, cache1, left, stats, name, table, cache, left', stats');
    }

    /** Update, keep or delete one stored row. */
    method VisitRow(name: string, left: Named, hasField: bool, update: bool, stats: Stats) returns (stats': Stats)
      requires name in table
      modifies this
      ensures table == if name in left then (if hasField then old(table)[name := left[name]] else old(table))
                       else if update then old(table) else old(table) - {name}
      ensures cache == if name in table then old(cache)[name := table[name]] else old(cache)
      ensures stats' == if name in left then
                          if hasField && old(table)[name] != left[name] then stats.(updated := stats.updated + 1)
                          else stats.(same := stats.same + 1)
                        else if update then stats.(same := stats.same + 1) else stats.(deleted := stats.deleted + 1)
    {
      if name in left {
        if hasField && table[name] != left[name] {
          stats' := stats.(updated := stats.updated + 1);
          table := table[name := left[name]];
        } else {
          stats' := stats.(same := stats.same + 1);
          assert hasField ==> table == table[name := left[name]];
        }
        cache := cache[name := table[name]];
      } else if !update {
        stats' := stats.(deleted := stats.deleted + 1);
        table := table - {name};
      } else {
        cache := cache[name := table[name]];
        stats' := stats.(same := stats.same + 1);
      }
    }

    /** Add the configured names that were not stored. */
    method AddNew(left: Named, hasField: bool) returns (added: nat)
      modifies this
      ensures table == old(table) + Described(left, hasField)
      ensures cache == old(cache) + Described(left, hasField)
      ensures added == |left.Keys|
    {
      added := 0;
      var todo := left.Keys;
      ghost var done: set<string> := {};
      ghost var table0, cache0 := table, cache;
      NoneDescribed(table0, left, hasField);
      NoneDescribed(cache0, left, hasField);
      while todo != {}
        invariant done !! todo && done + todo == left.Keys && added == |done|
        invariant table == table0 + DescribedIn(left, hasField, done)
        invariant cache == cache0 + DescribedIn(left, hasField, done)
      {
        var name :| name in todo;
        DescribedStep(table0, left, hasField, done, name);
        DescribedStep(cache0, left, hasField, done, name);
        SaveRow(name, Stored(hasField, left[name]));
        todo, done := todo - {name}, done + {name};
        added := added + 1;
      }
      AllDescribed(left, hasField, done);
    }

    method SaveRow(name: string, value: int)
      modifies this
      ensures table == old(table)[name := value] && cache == old(cache)[name := value]
    {
      table := table[name := value];
      cache := cache[name := value];
    }
  }

  // ---------- part of the way through ----------

  /** The table when only some of its rows have been visited. */
  ghost function Visited(was: Named, config: Named, hasField: bool, update: bool, done: set<string>): Named {
    map name | name in was && !(name in done && name !in config && !update) ::
      if name in done && name in config && hasField then config[name] else was[name]
  }

  ghost function Kept(table: Named, done: set<string>): Named {
    map name | name in table && name in done :: table[name]
  }

  ghost function DescribedIn(config: Named, hasField: bool, done: set<string>): Named {
    map name | name in config && name in done :: Stored(hasField, config[name])
  }

  lemma DescribedStep(base: Named, config: Named, hasField: bool, done: set<string>, name: string)
    requires name in config
    ensures base + DescribedIn(config, hasField, done + {name}) ==
            (base + DescribedIn(config, hasField, done))[name := Stored(hasField, config[name])]
  {
  }

  lemma NoneDescribed(base: Named, config: Named, hasField: bool)
    ensures base + DescribedIn(config, hasField, {}) == base
  {
  }

  lemma AllDescribed(config: Named, hasField: bool, done: set<string>)
    requires done == config.Keys
    ensures DescribedIn(config, hasField, done) == Described(config, hasField)
  {
  }

  lemma AddedSize(base: Named, config: Named, hasField: bool)
    requires config.Keys !! base.Keys
    ensures |base + Described(config, hasField)| == |base| + |config.Keys|
  {
    var all := base + Described(config, hasField);
    assert all.Keys == base.Keys + config.Keys;
    assert |all.Keys| == |base.Keys| + |config.Keys|;
  }

  lemma VisitStep(was: Named, config: Named, hasField: bool, update: bool, done: set<string>, name: string)
    requires name in was && name !in done
    ensures var table := Visited(was, config, hasField, update, done);
            var table' := Visited(was, config, hasField, update, done + {name});
            && name in table && table[name] == was[name]
            && table' == if name in config then (if hasField then table[name := config[name]] else table)
                         else if update then table else table - {name}
  {
  }

  lemma CacheStep(cache: Named, table: Named, table': Named, done: set<string>, name: string)
    requires name !in done && name in table
    requires table' == table || table' == table - {name} || (name in table' && table' == table[name := table'[name]])
    ensures cache + Kept(table', done + {name}) ==
            if name in table' then (cache + Kept(table, done))[name := table'[name]] else cache + Kept(table, done)
  {
    if name !in table' {
      assert Kept(table', done + {name}) == Kept(table, done);
    }
  }

  /** The counters when only some rows have been visited. */
  ghost predicate Counted(was: Named, config: Named, hasField: bool, update: bool, done: set<string>, stats: Stats) {
    && stats.added == 0 && stats.same + stats.updated + stats.deleted == |done|
    && stats.updated == |Changed(was, config, hasField, done)|
    && stats.deleted == |Gone(was, config, update, done)|
  }

  lemma CountStep(was: Named, config: Named, hasField: bool, update: bool, done: set<string>, name: string,
      stats: Stats)
    requires name in was && name !in done && Counted(was, config, hasField, update, done, stats)
    ensures Counted(was, config, hasField, update, done + {name},
                    if name in config then
                      if hasField && was[name] != config[name] then stats.(updated := stats.updated + 1)
                      else stats.(same := stats.same + 1)
                    else if update then stats.(same := stats.same + 1) else stats.(deleted := stats.deleted + 1))
  {
    OneMoreVisited(was, config, hasField, update, done, name);
  }

  /** Visiting deletes rows and nothing else changes their number. */
  lemma VisitedSize(was: Named, config: Named, hasField: bool, update: bool, done: set<string>)
    requires done <= was.Keys
    ensures |Visited(was, config, hasField, update, done)| == |was| - |Gone(was, config, update, done)|
  {
    var gone := Gone(was, config, update, done);
    assert Visited(was, config, hasField, update, done).Keys == was.Keys - gone;
    assert gone <= was.Keys;
  }

  /** Table, cache, leftover configuration and counters when only some rows have been visited. */
  ghost predicate Midway(
    was: Named, cache0: Named, config: Named, hasField: bool, update: bool, done: set<string>,
    table: Named, cache: Named, left: Named, stats: Stats)
  {
    && table == Visited(was, config, hasField, update, done)
    && cache == cache0 + Kept(table, done)
    && left == config - done
    && Counted(was, config, hasField, update, done, stats)
  }

  lemma MidwayStart(was: Named, cache0: Named, config: Named, hasField: bool, update: bool)
    ensures Midway(was, cache0, config, hasField, update, {}, was, cache0, config, Stats(0, 0, 0, 0))
  {
  }

  lemma MidwayStep(
    was: Named, cache0: Named, config: Named, hasField: bool, update: bool, done: set<string>,
    table: Named, cache: Named, left: Named, stats: Stats, name: string,
    table': Named, cache': Named, left': Named, stats': Stats)
    requires name in was && name !in done
    requires Midway(was, cache0, config, hasField, update, done, table, cache, left, stats)
    requires name in table
    requires table' == if name in left then (if hasField then table[name := left[name]] else table)
                       else if update then table else table - {name}
    requires cache' == if name in table' then cache[name := table'[name]] else cache
    requires left' == left - {name}
    requires stats' == if name in left then
                         if hasField && table[name] != left[name] then stats.(updated := stats.updated + 1)
                         else stats.(same := stats.same + 1)
                       else if update then stats.(same := stats.same + 1) else stats.(deleted := stats.deleted + 1)
    ensures Midway(was, cache0, config, hasField, update, done + {name}, table', cache', left', stats')
  {
    VisitStep(was, config, hasField, update, done, name);
    CacheStep(cache0, table, table', done, name);
    CountStep(was, config, hasField, update, done, name, stats);
  }

  lemma NextIsStored(was: Named, config: Named, hasField: bool, update: bool, done: set<string>, name: string)
    requires name in was && name !in done
    ensures name in Visited(was, config, hasField, update, done)
  {
  }

  lemma NextIsNew(order: seq<string>, i: nat)
    requires i < |order| && |Elements(order)| == |order| && |Elements(order[..i])| == i
    ensures order[i] in Elements(order) && order[i] !in Elements(order[..i])
    ensures Elements(order[..i + 1]) == Elements(order[..i]) + {order[i]}
  {
    ElementsBound(order, i + 1);
    assert order[..i + 1] == order[..i] + [order[i]];
    assert Elements(order[..i + 1]) == Elements(order[..i]) + {order[i]};
  }

  /** Each further element adds at most one to the set. */
  lemma {:induction false} ElementsBound(order: seq<string>, i: nat)
    requires i <= |order|
    ensures |Elements(order)| <= |Elements(order[..i])| + (|order| - i)
    decreases |order|
  {
    if i == |order| {
      assert order[..i] == order;
    } else {
      var before, last := order[..|order| - 1], order[|order| - 1];
      ElementsBound(before, i);
      assert before[..i] == order[..i] && order == before + [last];
      assert Elements(order) == Elements(before) + {last};
    }
  }

  lemma OneMoreVisited(was: Named, config: Named, hasField: bool, update: bool, done: set<string>, name: string)
    requires name in was && name !in done
    ensures Changed(was, config, hasField, done + {name}) ==
            Changed(was, config, hasField, done)
            + (if name in config && hasField && was[name] != config[name] then {name} else {})
    ensures Gone(was, config, update, done + {name}) ==
            Gone(was, config, update, done) + (if name !in config && !update then {name} else {})
    ensures name !in Changed(was, config, hasField, done) && name !in Gone(was, config, update, done)
  {
  }

  lemma CacheEnd(cache: Named, visited: Named, added: Named)
    ensures cache + visited + added == cache + (visited + added)
  {
  }

  lemma AllVisited(was: Named, config: Named, hasField: bool, update: bool)
    requires hasField || forall name :: name in was ==> was[name] == 0
    ensures var table := Visited(was, config, hasField, update, was.Keys);
            && Kept(table, was.Keys) == table
            && table + Described(config - was.Keys, hasField) == Synced(was, config, hasField, update)
            && (config - was.Keys).Keys == config.Keys - was.Keys
            && (config - was.Keys).Keys !! table.Keys
  {
  }

  // ---------- what the synchronisation means ----------

  /** Afterwards exactly the configured names are there, and in an update the stored ones too; each
      configured one has its configured value, where the model has a field, and each other one the
      value it had. */
  lemma SyncedExactly(table: Named, config: Named, hasField: bool, update: bool, name: string)
    ensures var now := Synced(table, config, hasField, update);
            && (name in now <==> name in config || (update && name in table))
            && (name in config ==> now[name] == if hasField then config[name] else 0)
            && (name in now && name !in config ==> now[name] == table[name])
  {
  }

  /** Synchronising twice changes nothing the second time: every row is the same and none is
      added, updated or deleted. */
  lemma SecondSyncIsIdle(table: Named, config: Named, hasField: bool, update: bool)
    requires hasField || forall name :: name in table ==> table[name] == 0
    ensures var once := Synced(table, config, hasField, update);
            && Synced(once, config, hasField, update) == once
            && Changed(once, config, hasField, once.Keys) == {}
            && Gone(once, config, update, once.Keys) == {}
            && config.Keys - once.Keys == {}
  {
  }

  /** The cache equals the table exactly when it held no name that is not in the table now. */
  lemma CacheExact(cache: Named, table: Named)
    ensures cache + table == table <==> cache.Keys <= table.Keys
  {
    if cache + table == table {
      assert forall name :: name in cache ==> name in cache + table;
    }
  }
}
