/** The dispatcher object: its handler table, its quit flag, the calls it has made and the
    offsets of its consumer. */
module KafkaService {
  import opened Tables
  import opened KafkaDispatch
  import opened KafkaDelivery

  datatype BatchEnd = Escaped | Finished(success: bool)

  class KafkaDispatcher {
    var registeredHandlers: Registry
    var quit: bool
    var calls: seq<Call>
    var committed: Offsets
    var stored: Offsets
    var position: Offsets
    ghost var good: seq<seq<Item>>

    /** The offsets as the delivery protocol sees them. */
    ghost function Current(running: bool): Session
      reads this
    {
      Session(committed, stored, position, good, running)
    }

    /** A consumer that joins with these committed offsets; where there is none, the reset
        policy says where it starts. */
    constructor (committed: Offsets, reset: Offsets)
      ensures registeredHandlers == map[] && !quit && calls == []
      ensures Current(true) == Begin(committed, reset)
    {
      registeredHandlers, quit, calls := map[], false, [];
      this.committed, stored, position, good := committed, committed, reset + committed, [];
    }

    /** A second handler for a topic is ignored. */
    method RegisterHandler(topic: string, handler: Handler)
      modifies this`registeredHandlers
      ensures registeredHandlers == map[topic := handler] + old(registeredHandlers)
    {
      if topic in registeredHandlers {
        assert registeredHandlers == map[topic := handler] + registeredHandlers;
        return;
      }
      registeredHandlers := registeredHandlers[topic := handler];
    }

    /** Make one handler call; false when the handler throws. */
    method Invoke(call: Call, end: CallEnd) returns (ok: bool)
      modifies this`calls, this`quit
      ensures calls == old(calls) + [call]
      ensures ok <==> !end.throws
      ensures quit == (old(quit) || end.quits)
    {
      calls := calls + [call];
      if end.quits {
        quit := true;
      }
      return !end.throws;
    }

    /** Group the prepared messages by topic, in order of first arrival. */
    method Group(items: seq<Item>) returns (escaped: bool, order: seq<string>, grouped: map<string, seq<string>>)
      ensures escaped <==> Breaks(registeredHandlers, items)
      ensures !escaped ==> order == TopicOrder(registeredHandlers, items)
      ensures !escaped ==> forall topic :: topic in order ==>
                topic in grouped && grouped[topic] == Bodies(registeredHandlers, items, topic)
    {
      order, grouped := [], map[];
      var i := 0;
      while i < |items|
        invariant 0 <= i <= |items|
        invariant !Breaks(registeredHandlers, items[..i])
        invariant order == TopicOrder(registeredHandlers, items[..i])
        invariant forall topic :: topic in order <==> topic in grouped
        invariant forall topic :: topic in grouped ==> grouped[topic] == Bodies(registeredHandlers, items[..i], topic)
      {
        assert items[..i + 1][..i] == items[..i];
        assert items[..i + 1] == items[..i] + [items[i]];
        var prepared := Prepare(registeredHandlers, items[i]);
        if prepared.Raises? {
          return true, order, grouped;
        }
        if prepared.Ready? {
          TopicOrderExact(registeredHandlers, items[..i], prepared.topic);
          if prepared.topic !in grouped {
            grouped := grouped[prepared.topic := []];
            order := order + [prepared.topic];
          }
          grouped := grouped[prepared.topic := grouped[prepared.topic] + [prepared.body]];
        }
        i := i + 1;
      }
      assert items[..|items|] == items;
      return false, order, grouped;
    }

    /** Make the calls of one topic; the first of them is call number first of the batch. */
    method InvokeAll(invocations: seq<Call>, script: seq<CallEnd>, first: nat) returns (ok: bool)
      modifies this`calls, this`quit
      ensures calls == old(calls) + invocations
      ensures AnyThrows(script, first + |invocations|) <==> AnyThrows(script, first) || !ok
      ensures quit <==> old(quit) || QuitsWithin(script, first, first + |invocations|)
    {
      ok := true;
      for j := 0 to |invocations|
        invariant calls == old(calls) + invocations[..j]
        invariant AnyThrows(script, first + j) <==> AnyThrows(script, first) || !ok
        invariant quit <==> old(quit) || QuitsWithin(script, first, first + j)
      {
        var returned := Invoke(invocations[j], EndOf(script, first + j));
        assert invocations[..j + 1] == invocations[..j] + [invocations[j]];
        if !returned {
          ok := false;
        }
      }
      assert invocations[..|invocations|] == invocations;
    }

    /** Call the handlers topic by topic; every call is made even when earlier ones throw. */
    method CallHandlers(order: seq<string>, grouped: map<string, seq<string>>, script: seq<CallEnd>)
      returns (success: bool)
      requires forall topic :: topic in order ==> topic in grouped
      modifies this`calls, this`quit
      ensures calls == old(calls) + GroupedCalls(registeredHandlers, order, grouped)
      ensures success <==> !AnyThrows(script, |GroupedCalls(registeredHandlers, order, grouped)|)
      ensures quit <==> old(quit) || AnyQuits(script, |GroupedCalls(registeredHandlers, order, grouped)|)
    {
      ghost var reg, calls0, quit0 := registeredHandlers, calls, quit;
      success := true;
      var made: nat := 0;
      for i := 0 to |order|
        invariant registeredHandlers == reg
        invariant Called(reg, order[..i], grouped, script, calls0, quit0, calls, quit, success, made)
      {
        var invocations := TopicCalls(registeredHandlers, order[i], grouped[order[i]]);
        ghost var calls1, quit1 := calls, quit;
        var ok := InvokeAll(invocations, script, made);
        CalledStep(reg, order, i, grouped, script, calls0, quit0, calls1, quit1, success, made, quit, ok);
        made := made + |invocations|;
        if !ok {
          success := false;
        }
      }
      assert order[..|order|] == order;
    }

    /** Handle one batch: the batch succeeds when no call threw. A message that breaks the
        preparation escapes before any call. */
    method HandleBatchMessages(items: seq<Item>, script: seq<CallEnd>) returns (end: BatchEnd)
      modifies this`calls, this`quit
      ensures end.Escaped? <==> Breaks(registeredHandlers, items)
      ensures end.Escaped? ==> calls == old(calls) && quit == old(quit)
      ensures end.Finished? ==> calls == old(calls) + BatchCalls(registeredHandlers, items)
      ensures end.Finished? ==> (end.success <==> !AnyThrows(script, |BatchCalls(registeredHandlers, items)|))
      ensures end.Finished? ==> (quit <==> old(quit) || AnyQuits(script, |BatchCalls(registeredHandlers, items)|))
    {
      var escaped, order, grouped := Group(items);
      if escaped {
        return Escaped;
      }
      GroupedCallsMeet(registeredHandlers, items, order, grouped);
      var success := CallHandlers(order, grouped, script);
      return Finished(success);
    }

    /** Store the offset of every record; storing raises at the faulty message. */
    method StoreOffsets(items: seq<Item>, fault: Option<nat>) returns (ok: bool)
      modifies this`stored
      ensures stored == Advance(old(stored), items[..StoredCount(items, fault)])
      ensures ok <==> StoredCount(items, fault) == |items|
    {
      for i := 0 to |items|
        invariant stored == Advance(old(stored), items[..i])
        invariant i <= StoredCount(items, fault)
      {
        assert items[..i + 1][..i] == items[..i];
        if items[i].Failure? {
          continue;
        }
        if fault == Some(i) {
          return false;
        }
        stored := stored[items[i].partition := items[i].offset + 1];
      }
      return true;
    }

    /** Store the offsets of a batch and commit them; either may raise. */
    method StoreAndCommit(items: seq<Item>, fault: Option<nat>, commit: CommitEnd)
      modifies this`stored, this`committed
      ensures stored == Advance(old(stored), items[..StoredCount(items, fault)])
      ensures committed == if StoredCount(items, fault) == |items| && (commit.Commits? || commit.applied) then stored
                           else old(committed)
    {
      var ok := StoreOffsets(items, fault);
      if ok && (commit.Commits? || commit.applied) {
        committed := stored;
      }
    }

    /** One turn of the batch receive loop. */
    method ReceiveOne(turn: Turn) returns (escaped: bool)
      requires !quit
      modifies this`calls, this`quit, this`committed, this`stored, this`position, this`good
      ensures Current(!escaped && !quit) == TakeTurn(registeredHandlers, old(Current(true)), turn)
      ensures calls == old(calls) + TurnCalls(registeredHandlers, turn)
      ensures escaped <==> Escapes(registeredHandlers, turn)
    {
      if turn.ConsumeRaises? || turn.items == [] {
        return false;
      }
      position := Advance(position, turn.items);
      var end := HandleBatchMessages(turn.items, turn.script);
      if end.Escaped? {
        return true;
      }
      if end.success {
        good := good + [turn.items];
        StoreAndCommit(turn.items, turn.storeFault, turn.commit);
      } else {
        quit := true;
      }
      return false;
    }

    /** The batch receive loop, against the turns its surroundings play: it follows the
        delivery protocol turn by turn, makes the calls of the handled batches and no others,
        and stops at the first failed batch. */
    method ReceiveBatch(turns: seq<Turn>) returns (escaped: bool, ghost handled: seq<seq<Item>>)
      modifies this`calls, this`quit, this`committed, this`stored, this`position, this`good
      ensures Progress(Current(!escaped && !quit), calls, handled, escaped) ==
              PlayTurns(registeredHandlers, Progress(old(Current(!quit)), old(calls), [], false), turns, |turns|)
    {
      ghost var reg, start := registeredHandlers, Progress(Current(!quit), calls, [], false);
      handled := [];
      var i := 0;
      while i < |turns| && !quit
        invariant 0 <= i <= |turns| && registeredHandlers == reg
        invariant Progress(Current(!quit), calls, handled, false) == PlayTurns(reg, start, turns, i)
      {
        escaped := ReceiveOne(turns[i]);
        handled := handled + TurnBatches(reg, turns[i]);
        i := i + 1;
        if escaped {
          StoppedStays(reg, start, turns, i, |turns|);
          return;
        }
      }
      StoppedStays(reg, start, turns, i, |turns|);
      return false, handled;
    }

    /** Single-message mode: a throwing handler is logged and the loop goes on; a handler that
        quits ends it, and a message that breaks the preparation escapes from it. */
    method ReceiveSingle(items: seq<Item>, script: seq<CallEnd>) returns (handled: nat, escaped: bool)
      modifies this`calls, this`quit
      ensures handled <= |items|
      ensures calls == old(calls) + SingleCalls(registeredHandlers, items[..handled])
      ensures escaped <==> !quit && handled < |items|
      ensures escaped ==> Prepare(registeredHandlers, items[handled]).Raises?
      ensures forall j :: 0 <= j < handled ==> !Prepare(registeredHandlers, items[j]).Raises?
      ensures old(quit) ==> handled == 0
      ensures !old(quit) ==> forall j :: 0 <= j < handled ==>
                (QuitsAt(registeredHandlers, items, script, j) <==> quit && j == handled - 1)
    {
      handled, escaped := 0, false;
      while handled < |items| && !quit
        invariant 0 <= handled <= |items|
        invariant calls == old(calls) + SingleCalls(registeredHandlers, items[..handled])
        invariant forall j :: 0 <= j < handled ==> !Prepare(registeredHandlers, items[j]).Raises?
        invariant old(quit) ==> handled == 0 && quit
        invariant quit && !old(quit) ==> handled > 0
        invariant !old(quit) ==> forall j :: 0 <= j < handled ==>
                    (QuitsAt(registeredHandlers, items, script, j) <==> quit && j == handled - 1)
      {
        assert items[..handled + 1][..handled] == items[..handled];
        var prepared := Prepare(registeredHandlers, items[handled]);
        if prepared.Raises? {
          return handled, true;
        }
        if prepared.Ready? && !registeredHandlers[prepared.topic].batch {
          var _ := Invoke(One(prepared.topic, prepared.body), EndOf(script, handled));
        }
        handled := handled + 1;
      }
    }
  }

  /** The message at a place is handed to a handler that asks to quit. */
  predicate QuitsAt(reg: Registry, items: seq<Item>, script: seq<CallEnd>, j: nat)
    requires j < |items|
  {
    var prepared := Prepare(reg, items[j]);
    prepared.Ready? && !reg[prepared.topic].batch && EndOf(script, j).quits
  }

  /** The calls for a grouped batch. */
  function GroupedCalls(reg: Registry, order: seq<string>, grouped: map<string, seq<string>>): seq<Call>
    requires forall topic :: topic in order ==> topic in grouped
  {
    if order == [] then []
    else
      var last := order[|order| - 1];
      GroupedCalls(reg, order[..|order| - 1], grouped) + TopicCalls(reg, last, grouped[last])
  }

  /** The state after the calls of some of the topics. */
  ghost predicate Called(
    reg: Registry, order: seq<string>, grouped: map<string, seq<string>>, script: seq<CallEnd>,
    calls0: seq<Call>, quit0: bool, calls: seq<Call>, quit: bool, success: bool, made: nat)
  {
    && (forall topic :: topic in order ==> topic in grouped)
    && made == |GroupedCalls(reg, order, grouped)| && calls == calls0 + GroupedCalls(reg, order, grouped)
    && (success <==> !AnyThrows(script, made))
    && (quit <==> quit0 || AnyQuits(script, made))
  }

  lemma CalledStep(
    reg: Registry, order: seq<string>, i: nat, grouped: map<string, seq<string>>, script: seq<CallEnd>,
    calls0: seq<Call>, quit0: bool, calls: seq<Call>, quit: bool, success: bool, made: nat, quit': bool, ok: bool)
    requires i < |order| && forall topic :: topic in order ==> topic in grouped
    requires Called(reg, order[..i], grouped, script, calls0, quit0, calls, quit, success, made)
    requires quit' <==> quit || QuitsWithin(script, made, made + |TopicCalls(reg, order[i], grouped[order[i]])|)
    requires AnyThrows(script, made + |TopicCalls(reg, order[i], grouped[order[i]])|) <==>
               AnyThrows(script, made) || !ok
    ensures var more := TopicCalls(reg, order[i], grouped[order[i]]);
            Called(reg, order[..i + 1], grouped, script, calls0, quit0,
                   calls + more, quit', success && ok, made + |more|)
  {
    var more := TopicCalls(reg, order[i], grouped[order[i]]);
    GroupedStep(reg, order, i, grouped);
    QuitsSplit(script, made, made + |more|);
  }

  lemma GroupedStep(reg: Registry, order: seq<string>, i: nat, grouped: map<string, seq<string>>)
    requires i < |order| && forall topic :: topic in order ==> topic in grouped
    ensures GroupedCalls(reg, order[..i + 1], grouped) ==
            GroupedCalls(reg, order[..i], grouped) + TopicCalls(reg, order[i], grouped[order[i]])
  {
    assert order[..i + 1][..i] == order[..i];
  }

  lemma {:induction false} GroupedCallsMeet(
    reg: Registry, items: seq<Item>, order: seq<string>, grouped: map<string, seq<string>>)
    requires forall topic :: topic in order ==> topic in grouped && grouped[topic] == Bodies(reg, items, topic)
    ensures GroupedCalls(reg, order, grouped) == CallsFor(reg, items, order)
  {
    if order != [] {
      GroupedCallsMeet(reg, items, order[..|order| - 1], grouped);
    }
  }

  predicate QuitsWithin(script: seq<CallEnd>, first: nat, end: nat) {
    exists i :: first <= i < end && EndOf(script, i).quits
  }

  lemma QuitsSplit(script: seq<CallEnd>, first: nat, end: nat)
    requires first <= end
    ensures AnyQuits(script, end) <==> AnyQuits(script, first) || QuitsWithin(script, first, end)
  {
  }

  predicate HandsOver(turn: Turn) {
    turn.Consumed? && turn.items != []
  }

  predicate Escapes(reg: Registry, turn: Turn) {
    HandsOver(turn) && Breaks(reg, turn.items)
  }

  /** The batch of one turn, if its handlers are called, and their calls. */
  function TurnBatches(reg: Registry, turn: Turn): seq<seq<Item>> {
    if HandsOver(turn) && !Breaks(reg, turn.items) then [turn.items] else []
  }

  function TurnCalls(reg: Registry, turn: Turn): seq<Call> {
    if HandsOver(turn) && !Breaks(reg, turn.items) then BatchCalls(reg, turn.items) else []
  }

  /** The session, the calls made, the batches they were made for, in order, and whether an
      exception has left the loop. */
  datatype Progress = Progress(session: Session, calls: seq<Call>, handled: seq<seq<Item>>, escaped: bool)

  function Play(reg: Registry, p: Progress, turn: Turn): Progress {
    if !p.session.running then p
    else
      Progress(TakeTurn(reg, p.session, turn), p.calls + TurnCalls(reg, turn), p.handled + TurnBatches(reg, turn),
               Escapes(reg, turn))
  }

  /** The first n turns, one after the other. */
  function PlayTurns(reg: Registry, p: Progress, turns: seq<Turn>, n: nat): Progress
    requires n <= |turns|
  {
    if n == 0 then p else Play(reg, PlayTurns(reg, p, turns, n - 1), turns[n - 1])
  }

  ghost predicate CallsFit(reg: Registry, first: seq<Call>, p: Progress) {
    p.calls == first + CallsOfBatches(reg, p.handled)
  }

  lemma PlayKeepsCalls(reg: Registry, first: seq<Call>, p: Progress, turn: Turn)
    requires CallsFit(reg, first, p)
    ensures CallsFit(reg, first, Play(reg, p, turn))
  {
    if p.session.running {
      MoreCalls(reg, p.handled, turn);
      AddedLast(first, CallsOfBatches(reg, p.handled), TurnCalls(reg, turn));
    }
  }

  lemma AddedLast<T>(a: seq<T>, b: seq<T>, c: seq<T>)
    ensures a + b + c == a + (b + c)
  {
  }

  /** The calls made are those of the handled batches and no others. */
  lemma {:induction false} CallsAreOfHandled(reg: Registry, p: Progress, turns: seq<Turn>, n: nat)
    requires n <= |turns| && p.handled == []
    ensures CallsFit(reg, p.calls, PlayTurns(reg, p, turns, n))
  {
    if n > 0 {
      CallsAreOfHandled(reg, p, turns, n - 1);
      PlayKeepsCalls(reg, p.calls, PlayTurns(reg, p, turns, n - 1), turns[n - 1]);
    }
  }

  lemma MoreCalls(reg: Registry, handled: seq<seq<Item>>, turn: Turn)
    ensures CallsOfBatches(reg, handled + TurnBatches(reg, turn)) == CallsOfBatches(reg, handled) + TurnCalls(reg, turn)
  {
    if HandsOver(turn) && !Breaks(reg, turn.items) {
      assert (handled + [turn.items])[..|handled|] == handled;
    } else {
      assert handled + [] == handled;
    }
  }

  /** Once the consumer has stopped, further turns change nothing. */
  lemma {:induction false} StoppedStays(reg: Registry, p: Progress, turns: seq<Turn>, i: nat, n: nat)
    requires i <= n <= |turns| && (i < n ==> !PlayTurns(reg, p, turns, i).session.running)
    ensures PlayTurns(reg, p, turns, n) == PlayTurns(reg, p, turns, i)
    decreases n
  {
    if i < n {
      StoppedStays(reg, p, turns, i, n - 1);
    }
  }

  /** The batches counted as good are the handled ones, except a last one in which a handler
      threw; then the consumer has stopped. */
  ghost predicate GoodSoFar(p: Progress) {
    || p.session.good == p.handled
    || (!p.session.running && p.handled != [] && p.session.good == p.handled[..|p.handled| - 1])
  }

  lemma PlayKeepsGood(reg: Registry, p: Progress, turn: Turn)
    requires GoodSoFar(p)
    ensures GoodSoFar(Play(reg, p, turn))
  {
  }

  lemma {:induction false} GoodAreHandled(reg: Registry, p: Progress, turns: seq<Turn>, n: nat)
    requires n <= |turns| && GoodSoFar(p)
    ensures GoodSoFar(PlayTurns(reg, p, turns, n))
  {
    if n > 0 {
      GoodAreHandled(reg, p, turns, n - 1);
      PlayKeepsGood(reg, PlayTurns(reg, p, turns, n - 1), turns[n - 1]);
    }
  }

  /** A stretch of turns is a run of the delivery protocol without restarts. */
  lemma {:induction false} PlayIsRun(reg: Registry, p: Progress, turns: seq<Turn>, n: nat)
    requires n <= |turns|
    ensures PlayTurns(reg, p, turns, n).session == After(reg, p.session, TurnEvents(turns, n))
  {
    if n > 0 {
      PlayIsRun(reg, p, turns, n - 1);
      assert TurnEvents(turns, n)[..n - 1] == TurnEvents(turns, n - 1);
    }
  }

  function TurnEvents(turns: seq<Turn>, n: nat): seq<Event>
    requires n <= |turns|
  {
    seq(n, i requires 0 <= i < n => Turns(turns[i]))
  }
}
