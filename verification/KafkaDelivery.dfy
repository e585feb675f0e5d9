/** Offsets: what a consumer has fetched, stored and committed, over runs in which batches
    fail, storing and committing raise, and the process restarts from the committed offsets.
    Offsets move only through the dispatcher's own store and commit calls. A partition without
    a committed offset starts wherever the consumer's reset policy puts it. */
module KafkaDelivery {
  import opened Tables
  import opened KafkaDispatch

  /** One position of a partition's log; a gap is an offset that holds no message. */
  datatype Slot = Gap | Data(message: Message)

  type Logs = map<Partition, seq<Slot>>
  type Offsets = map<Partition, nat>

  function At(offsets: Offsets, p: Partition): nat {
    if p in offsets then offsets[p] else 0
  }

  /** How a commit call ends; one that raises may have reached the broker or not. */
  datatype CommitEnd = Commits | CommitRaises(applied: bool)

  /** One turn of the receive loop as its surroundings play it. The store fault is the index
      of the message at which storing an offset raises. */
  datatype Turn =
    | ConsumeRaises
    | Consumed(items: seq<Item>, script: seq<CallEnd>, storeFault: Option<nat>, commit: CommitEnd)

  datatype Session = Session(
    committed: Offsets, stored: Offsets, position: Offsets, good: seq<seq<Item>>, running: bool)

  /** Move offsets just past each record, in order. */
  function Advance(offsets: Offsets, items: seq<Item>): Offsets {
    if items == [] then offsets
    else
      var rest, last := Advance(offsets, items[..|items| - 1]), items[|items| - 1];
      if last.Record? then rest[last.partition := last.offset + 1] else rest
  }

  /** How many of the items are reached before storing raises. */
  function StoredCount(items: seq<Item>, fault: Option<nat>): (n: nat)
    ensures n <= |items|
  {
    if fault.Some? && fault.value < |items| && items[fault.value].Record? then fault.value else |items|
  }

  predicate Succeeds(reg: Registry, items: seq<Item>, script: seq<CallEnd>) {
    !Breaks(reg, items) && !AnyThrows(script, |BatchCalls(reg, items)|)
  }

  function TakeTurn(reg: Registry, s: Session, turn: Turn): Session {
    if !s.running || turn.ConsumeRaises? || turn.items == [] then s
    else
      var fetched := s.(position := Advance(s.position, turn.items));
      if !Succeeds(reg, turn.items, turn.script) then fetched.(running := false)
      else
        var n := StoredCount(turn.items, turn.storeFault);
        var stored := Advance(s.stored, turn.items[..n]);
        var reaches := n == |turn.items| && (turn.commit.Commits? || turn.commit.applied);
        fetched.(stored := stored, committed := if reaches then stored else s.committed,
                 good := s.good + [turn.items],
                 running := !AnyQuits(turn.script, |BatchCalls(reg, turn.items)|))
  }

  /** A consumer that joins: where no offset is committed it starts at the reset position, the
      beginning or the end of the log at that moment. */
  function Begin(committed: Offsets, reset: Offsets): Session {
    Session(committed, committed, reset + committed, [], true)
  }

  /** A turn, or a crash or stop at any moment followed by a restart. */
  datatype Event = Turns(turn: Turn) | Restart(reset: Offsets)

  function Next(reg: Registry, s: Session, e: Event): Session {
    match e
    case Turns(turn) => TakeTurn(reg, s, turn)
    case Restart(reset) => Begin(s.committed, reset).(good := s.good)
  }

  function After(reg: Registry, s: Session, events: seq<Event>): Session {
    if events == [] then s
    else Next(reg, After(reg, s, events[..|events| - 1]), events[|events| - 1])
  }

  // ---------- what a broker may hand over ----------

  /** Each partition's records come in log order from the position on, without leaving a
      message out. */
  ghost predicate Fetches(logs: Logs, position: Offsets, items: seq<Item>) {
    items == [] ||
    var before, last := items[..|items| - 1], items[|items| - 1];
    && Fetches(logs, position, before)
    && (last.Record? ==>
          var from := At(Advance(position, before), last.partition);
          && last.partition in logs && from <= last.offset < |logs[last.partition]|
          && logs[last.partition][last.offset] == Data(last.message)
          && forall o :: from <= o < last.offset ==> logs[last.partition][o].Gap?)
  }

  ghost predicate Possible(logs: Logs, reg: Registry, s: Session, events: seq<Event>) {
    events == [] ||
    var before, last := events[..|events| - 1], events[|events| - 1];
    && Possible(logs, reg, s, before)
    && (last.Turns? && last.turn.Consumed? ==> Fetches(logs, After(reg, s, before).position, last.turn.items))
  }

  // ---------- at least once ----------

  /** The message was skipped, or its batch was handled with every handler returning. */
  ghost predicate Accounted(reg: Registry, good: seq<seq<Item>>, item: Item) {
    Prepare(reg, item).Skip? || exists i :: 0 <= i < |good| && item in good[i]
  }

  ghost predicate Ordered(a: Offsets, b: Offsets) {
    forall p :: At(a, p) <= At(b, p)
  }

  /** No batch counted as good broke in preparation. */
  ghost predicate GoodBatches(reg: Registry, good: seq<seq<Item>>) {
    forall i :: 0 <= i < |good| ==> !Breaks(reg, good[i])
  }

  ghost predicate OffsetsInv(reg: Registry, s: Session) {
    && Ordered(s.committed, s.stored) && Ordered(s.stored, s.position) && s.committed.Keys <= s.stored.Keys
    && GoodBatches(reg, s.good)
  }

  /** No offset has moved past a message that is not accounted for. */
  ghost predicate MessageInv(reg: Registry, s: Session, item: Item)
    requires item.Record?
  {
    Accounted(reg, s.good, item) ||
    (At(s.stored, item.partition) <= item.offset && (s.running ==> At(s.position, item.partition) <= item.offset))
  }

  /** A restart puts the consumer past a message that is not accounted for. */
  ghost predicate Skips(reg: Registry, s: Session, e: Event, item: Item)
    requires item.Record?
  {
    && e.Restart? && item.partition !in s.committed && At(e.reset, item.partition) > item.offset
    && !Accounted(reg, s.good, item)
  }

  ghost predicate SkippedIn(reg: Registry, s: Session, events: seq<Event>, item: Item)
    requires item.Record?
  {
    exists n :: 0 <= n < |events| && Skips(reg, After(reg, s, events[..n]), events[n], item)
  }

  /** The message that stands in the log at an offset. */
  predicate Logged(logs: Logs, item: Item) {
    && item.Record? && item.partition in logs && item.offset < |logs[item.partition]|
    && logs[item.partition][item.offset] == Data(item.message)
  }

  lemma {:induction false} FetchMoves(logs: Logs, position: Offsets, items: seq<Item>)
    requires Fetches(logs, position, items)
    ensures Ordered(position, Advance(position, items))
  {
    if items != [] {
      FetchMoves(logs, position, items[..|items| - 1]);
    }
  }

  /** Every message between the position before a fetch and the position after it is in it. */
  lemma {:induction false} FetchCovers(logs: Logs, position: Offsets, items: seq<Item>, p: Partition, o: nat)
    requires Fetches(logs, position, items) && p in logs && o < |logs[p]| && logs[p][o].Data?
    requires At(position, p) <= o < At(Advance(position, items), p)
    ensures Record(p, o, logs[p][o].message) in items
  {
    var before, last := items[..|items| - 1], items[|items| - 1];
    assert items == before + [last];
    if o < At(Advance(position, before), p) {
      FetchCovers(logs, position, before, p, o);
    } else {
      assert last.Record? && last.partition == p && o <= last.offset;
    }
  }

  /** Storing the first offsets of a fetch moves the stored offsets forward, and not past the
      new position. */
  lemma {:induction false} StoringStaysBehind(logs: Logs, stored: Offsets, position: Offsets, items: seq<Item>, n: nat)
    requires Fetches(logs, position, items) && Ordered(stored, position) && n <= |items|
    ensures Ordered(stored, Advance(stored, items[..n]))
    ensures Ordered(Advance(stored, items[..n]), Advance(position, items))
  {
    if items == [] {
      assert items[..n] == [];
    } else {
      var before := items[..|items| - 1];
      if n == |items| {
        StoringStaysBehind(logs, stored, position, before, n - 1);
        assert items[..n] == items && items[..n - 1] == before && before[..n - 1] == before;
        FetchMoves(logs, position, before);
      } else {
        assert items[..n] == before[..n];
        StoringStaysBehind(logs, stored, position, before, n);
      }
    }
  }

  lemma StillAccounted(reg: Registry, good: seq<seq<Item>>, items: seq<Item>, item: Item)
    requires Accounted(reg, good, item) || item in items
    ensures Accounted(reg, good + [items], item)
  {
    if item in items {
      assert item in (good + [items])[|good|];
    } else if !Prepare(reg, item).Skip? {
      var i :| 0 <= i < |good| && item in good[i];
      assert (good + [items])[i] == good[i];
    }
  }

  lemma TurnKeepsOffsets(logs: Logs, reg: Registry, s: Session, turn: Turn)
    requires OffsetsInv(reg, s) && (turn.Consumed? ==> Fetches(logs, s.position, turn.items))
    ensures OffsetsInv(reg, TakeTurn(reg, s, turn))
    ensures Ordered(s.committed, TakeTurn(reg, s, turn).committed)
    ensures s.committed.Keys <= TakeTurn(reg, s, turn).committed.Keys
  {
    if s.running && turn.Consumed? && turn.items != [] {
      FetchMoves(logs, s.position, turn.items);
      var n := StoredCount(turn.items, turn.storeFault);
      StoringStaysBehind(logs, s.stored, s.position, turn.items, n);
      AdvanceKeys(s.stored, turn.items[..n]);
    }
  }

  lemma {:induction false} AdvanceKeys(offsets: Offsets, items: seq<Item>)
    ensures offsets.Keys <= Advance(offsets, items).Keys
  {
    if items != [] {
      AdvanceKeys(offsets, items[..|items| - 1]);
    }
  }

  lemma TurnKeepsMessage(logs: Logs, reg: Registry, s: Session, turn: Turn, item: Item)
    requires OffsetsInv(reg, s) && (turn.Consumed? ==> Fetches(logs, s.position, turn.items))
    requires Logged(logs, item) && MessageInv(reg, s, item)
    ensures MessageInv(reg, TakeTurn(reg, s, turn), item)
  {
    if s.running && turn.Consumed? && turn.items != [] && Succeeds(reg, turn.items, turn.script) {
      TurnKeepsOffsets(logs, reg, s, turn);
      var p, o := item.partition, item.offset;
      if At(s.position, p) <= o < At(Advance(s.position, turn.items), p) {
        FetchCovers(logs, s.position, turn.items, p, o);
      }
      if Accounted(reg, s.good, item) || item in turn.items {
        StillAccounted(reg, s.good, turn.items, item);
      } else {
        assert At(TakeTurn(reg, s, turn).stored, p) <= At(TakeTurn(reg, s, turn).position, p);
      }
    }
  }

  lemma {:induction false} RunKeepsOffsets(logs: Logs, reg: Registry, s: Session, events: seq<Event>)
    requires OffsetsInv(reg, s) && Possible(logs, reg, s, events)
    ensures OffsetsInv(reg, After(reg, s, events))
    ensures s.committed.Keys <= After(reg, s, events).committed.Keys
  {
    if events != [] {
      RunKeepsOffsets(logs, reg, s, events[..|events| - 1]);
      var last := events[|events| - 1];
      if last.Turns? {
        TurnKeepsOffsets(logs, reg, After(reg, s, events[..|events| - 1]), last.turn);
      }
    }
  }

  lemma {:induction false} RunKeepsMessage(logs: Logs, reg: Registry, s: Session, events: seq<Event>, item: Item)
    requires OffsetsInv(reg, s) && Possible(logs, reg, s, events) && Logged(logs, item)
    requires MessageInv(reg, s, item) && !SkippedIn(reg, s, events, item)
    ensures MessageInv(reg, After(reg, s, events), item)
  {
    if events != [] {
      var n, before := |events| - 1, events[..|events| - 1];
      if SkippedIn(reg, s, before, item) {
        SkippedEarlier(reg, s, events, before, item);
      }
      RunKeepsMessage(logs, reg, s, before, item);
      RunKeepsOffsets(logs, reg, s, before);
      var now := After(reg, s, before);
      match events[n]
      case Turns(turn) => TurnKeepsMessage(logs, reg, now, turn, item);
      case Restart(_) =>
        assert !Skips(reg, now, events[n], item);
        assert At(now.committed, item.partition) <= At(now.stored, item.partition);
    }
  }

  lemma SkippedEarlier(reg: Registry, s: Session, events: seq<Event>, before: seq<Event>, item: Item)
    requires item.Record? && before <= events && SkippedIn(reg, s, before, item)
    ensures SkippedIn(reg, s, events, item)
  {
    var n :| 0 <= n < |before| && Skips(reg, After(reg, s, before[..n]), before[n], item);
    assert before[..n] == events[..n] && before[n] == events[n];
  }

  lemma {:induction false} PossibleEarlier(logs: Logs, reg: Registry, s: Session, events: seq<Event>, n: nat)
    requires Possible(logs, reg, s, events) && n <= |events|
    ensures Possible(logs, reg, s, events[..n])
    decreases |events|
  {
    if n == |events| {
      assert events[..n] == events;
    } else {
      assert events[..|events| - 1][..n] == events[..n];
      PossibleEarlier(logs, reg, s, events[..|events| - 1], n);
    }
  }

  lemma Starts(reg: Registry, committed: Offsets, reset: Offsets, item: Item)
    requires item.Record? && At(reset + committed, item.partition) <= item.offset
    ensures OffsetsInv(reg, Begin(committed, reset)) && MessageInv(reg, Begin(committed, reset), item)
  {
  }

  // ---------- the theorems ----------

  /** The running consumer has not moved past the message without accounting for it. */
  ghost predicate NotPassed(reg: Registry, s: Session, item: Item)
    requires item.Record?
  {
    s.running && At(s.position, item.partition) > item.offset ==> Accounted(reg, s.good, item)
  }

  /** Over a run with failed batches, failed stores, failed commits and restarts, a message at or
      after the start is never passed over without being accounted for, if and only if no
      restart finds its partition without a committed offset and resets it past the message. */
  lemma NothingPassedOver(logs: Logs, reg: Registry, committed: Offsets, reset: Offsets, events: seq<Event>, item: Item)
    requires Possible(logs, reg, Begin(committed, reset), events) && Logged(logs, item)
    requires At(reset + committed, item.partition) <= item.offset
    ensures (forall n :: 0 <= n <= |events| ==> NotPassed(reg, After(reg, Begin(committed, reset), events[..n]), item))
            <==> !SkippedIn(reg, Begin(committed, reset), events, item)
  {
    var s := Begin(committed, reset);
    Starts(reg, committed, reset, item);
    if SkippedIn(reg, s, events, item) {
      var n :| 0 <= n < |events| && Skips(reg, After(reg, s, events[..n]), events[n], item);
      assert events[..n + 1][..n] == events[..n];
      assert After(reg, s, events[..n + 1]) == Next(reg, After(reg, s, events[..n]), events[n]);
      assert !NotPassed(reg, After(reg, s, events[..n + 1]), item);
    } else {
      forall n | 0 <= n <= |events| ensures NotPassed(reg, After(reg, s, events[..n]), item) {
        PossibleEarlier(logs, reg, s, events, n);
        if SkippedIn(reg, s, events[..n], item) {
          SkippedEarlier(reg, s, events, events[..n], item);
        }
        RunKeepsMessage(logs, reg, s, events[..n], item);
      }
    }
  }

  /** On such a run a message below its partition's committed offset was skipped by preparation,
      or its body was handed to its topic's handler in a batch in which every handler returned. */
  lemma AtLeastOnce(logs: Logs, reg: Registry, committed: Offsets, reset: Offsets, events: seq<Event>, item: Item)
    requires Possible(logs, reg, Begin(committed, reset), events) && Logged(logs, item)
    requires At(reset + committed, item.partition) <= item.offset
    requires !SkippedIn(reg, Begin(committed, reset), events, item)
    requires item.offset < At(After(reg, Begin(committed, reset), events).committed, item.partition)
    ensures var s := After(reg, Begin(committed, reset), events);
            || Prepare(reg, item).Skip?
            || (&& Prepare(reg, item).Ready?
                && exists i :: && 0 <= i < |s.good| && item in s.good[i]
                               && Prepare(reg, item).body in Delivered(BatchCalls(reg, s.good[i]),
                                    Prepare(reg, item).topic))
  {
    Starts(reg, committed, reset, item);
    RunKeepsOffsets(logs, reg, Begin(committed, reset), events);
    RunKeepsMessage(logs, reg, Begin(committed, reset), events, item);
    var s := After(reg, Begin(committed, reset), events);
    assert At(s.committed, item.partition) <= At(s.stored, item.partition);
    assert Accounted(reg, s.good, item);
    if !Prepare(reg, item).Skip? {
      var i :| 0 <= i < |s.good| && item in s.good[i];
      assert !Breaks(reg, s.good[i]);
      ReadyIsCalled(reg, s.good[i], item);
    }
  }

  /** No restart resets the partition past the limit: the start of the log under the policy
      earliest, its end under the policy latest. */
  ghost predicate ResetsWithin(events: seq<Event>, p: Partition, limit: nat) {
    forall n :: 0 <= n < |events| && events[n].Restart? ==> At(events[n].reset, p) <= limit
  }

  /** A message that preparation does not skip is safe from resets on every run, if and only if
      its partition has a committed offset at the start or the policy never resets past it. */
  lemma SafeExactly(logs: Logs, reg: Registry, committed: Offsets, reset: Offsets, item: Item, limit: nat)
    requires Logged(logs, item) && !Prepare(reg, item).Skip?
    ensures (forall events ::
               Possible(logs, reg, Begin(committed, reset), events) && ResetsWithin(events, item.partition, limit) ==>
               !SkippedIn(reg, Begin(committed, reset), events, item))
            <==> item.partition in committed || limit <= item.offset
  {
    var s, p := Begin(committed, reset), item.partition;
    if p in committed || limit <= item.offset {
      forall events | Possible(logs, reg, s, events) && ResetsWithin(events, p, limit)
        ensures !SkippedIn(reg, s, events, item)
      {
        forall n | 0 <= n < |events| ensures !Skips(reg, After(reg, s, events[..n]), events[n], item) {
          PossibleEarlier(logs, reg, s, events, n);
          RunKeepsOffsets(logs, reg, s, events[..n]);
        }
      }
    } else {
      var events := [Restart(map[p := limit])];
      assert events[..0] == [];
      assert Possible(logs, reg, s, events) && ResetsWithin(events, p, limit);
      assert Skips(reg, After(reg, s, events[..0]), events[0], item);
    }
  }

  /** A batch that fails advances neither the stored nor the committed offsets, and stops the
      consumer; committed offsets never move back. */
  lemma FailedBatchAdvancesNothing(logs: Logs, reg: Registry, s: Session, turn: Turn)
    requires OffsetsInv(reg, s) && turn.Consumed? && turn.items != [] && s.running
    requires Fetches(logs, s.position, turn.items)
    ensures var s' := TakeTurn(reg, s, turn);
            && (s'.good == s.good <==> !Succeeds(reg, turn.items, turn.script))
            && (s'.good == s.good ==> s'.committed == s.committed && s'.stored == s.stored && !s'.running)
            && Ordered(s.committed, s'.committed)
  {
    TurnKeepsOffsets(logs, reg, s, turn);
    assert |(s.good + [turn.items])| != |s.good|;
  }

  // ---------- a message lost to the policy latest ----------

  lemma OneCall(reg: Registry, item: Item)
    requires Prepare(reg, item).Ready?
    ensures |BatchCalls(reg, [item])| == 1 && !Breaks(reg, [item])
  {
    var ready, one := Prepare(reg, item), [item];
    assert one[..0] == [] && Bodies(reg, [], ready.topic) == [] && TopicOrder(reg, []) == [];
    assert Prepare(reg, one[|one| - 1]) == ready;
    assert Bodies(reg, one, ready.topic) == Bodies(reg, [], ready.topic) + [ready.body] == [ready.body];
    assert TopicOrder(reg, one) == TopicOrder(reg, []) + [ready.topic] == [ready.topic];
    OneTopicCalls(reg, one, ready.topic);
  }

  lemma OneTopicCalls(reg: Registry, items: seq<Item>, topic: string)
    requires TopicOrder(reg, items) == [topic]
    ensures BatchCalls(reg, items) == TopicCalls(reg, topic, Bodies(reg, items, topic))
  {
    var topics := [topic];
    assert topics[..0] == [] && CallsFor(reg, items, []) == [];
    assert CallsFor(reg, items, topics) == CallsFor(reg, items, []) + TopicCalls(reg, topic, Bodies(reg, items, topic));
  }

  /** Fetching the next message of a partition. */
  lemma OneFetch(logs: Logs, offsets: Offsets, position: Offsets, item: Item)
    requires Logged(logs, item) && At(position, item.partition) == item.offset
    ensures Fetches(logs, position, [item])
    ensures Advance(offsets, [item]) == offsets[item.partition := item.offset + 1]
  {
    assert [item][..0] == [];
    assert Fetches(logs, position, []) && Advance(position, []) == position;
    assert Fetches(logs, position, [item][..0]);
  }

  /** A fresh partition with two messages: the batch with the first one fails, the restart
      resets to the end of the log as it was then, the batch with the second one succeeds. The
      committed offset is past the first message, which no good batch holds. */
  lemma LatestLosesMessage(reg: Registry, p: Partition, message: Message)
    returns (logs: Logs, events: seq<Event>)
    requires Prepare(reg, Record(p, 0, message)).Ready?
    ensures logs == map[p := [Data(message), Data(message)]]
    ensures Possible(logs, reg, Begin(map[], map[]), events) && ResetsWithin(events, p, 1)
    ensures var s := After(reg, Begin(map[], map[]), events);
            At(s.committed, p) == 2 && s.good == [[Record(p, 1, message)]]
                && !Accounted(reg, s.good, Record(p, 0, message))
  {
    var first, second := Record(p, 0, message), Record(p, 1, message);
    var failing := Consumed([first], [CallEnd(true, false)], None, Commits);
    var passing := Consumed([second], [], None, Commits);
    logs := map[p := [Data(message), Data(message)]];
    events := [Turns(failing), Restart(map[p := 1]), Turns(passing)];
    var s0, s2 := Begin(map[], map[]), Begin(map[], map[p := 1]);
    FailingTurn(logs, reg, s0, first, failing);
    assert s0.position == map[] && s2.position == map[p := 1];
    PassingTurn(logs, reg, s2, second, passing);
    FailResetPass(logs, reg, s0, failing, map[p := 1], passing);
  }

  /** A turn, a restart and another turn. */
  lemma FailResetPass(logs: Logs, reg: Registry, s: Session, failing: Turn, reset: Offsets, passing: Turn)
    requires failing.Consumed? && passing.Consumed? && Fetches(logs, s.position, failing.items)
    requires var s1 := TakeTurn(reg, s, failing); Fetches(logs, Next(reg, s1, Restart(reset)).position, passing.items)
    ensures var events := [Turns(failing), Restart(reset), Turns(passing)];
            && Possible(logs, reg, s, events)
            && After(reg, s, events) ==
               TakeTurn(reg, Next(reg, TakeTurn(reg, s, failing), Restart(reset)), passing)
  {
    var one, two := [Turns(failing)], [Turns(failing), Restart(reset)];
    var three := [Turns(failing), Restart(reset), Turns(passing)];
    assert one[..0] == [] && two[..1] == one && three[..2] == two;
    assert After(reg, s, one) == TakeTurn(reg, s, failing);
    assert Possible(logs, reg, s, one) && Possible(logs, reg, s, two);
  }

  /** A batch of one message whose handler throws, and one whose handler returns. */
  lemma FailingTurn(logs: Logs, reg: Registry, s: Session, item: Item, turn: Turn)
    requires Logged(logs, item) && At(s.position, item.partition) == item.offset && s.running
    requires Prepare(reg, item).Ready? && turn == Consumed([item], [CallEnd(true, false)], None, Commits)
    ensures Fetches(logs, s.position, [item])
    ensures TakeTurn(reg, s, turn) ==
            s.(position := s.position[item.partition := item.offset + 1], running := false)
  {
    OneCall(reg, item);
    OneFetch(logs, s.position, s.position, item);
    assert EndOf(turn.script, 0).throws;
    assert !Succeeds(reg, [item], turn.script);
  }

  lemma PassingTurn(logs: Logs, reg: Registry, s: Session, item: Item, turn: Turn)
    requires Logged(logs, item) && At(s.position, item.partition) == item.offset && s.running
    requires Prepare(reg, item).Ready? && turn == Consumed([item], [], None, Commits)
    ensures Fetches(logs, s.position, [item])
    ensures TakeTurn(reg, s, turn).committed == s.stored[item.partition := item.offset + 1]
    ensures TakeTurn(reg, s, turn).good == s.good + [[item]]
  {
    OneCall(reg, item);
    OneFetch(logs, s.stored, s.position, item);
    assert [item][..1] == [item];
    assert Succeeds(reg, [item], turn.script);
  }
}
