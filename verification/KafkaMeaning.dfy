/** Which messages reach which handler, said of the records, their headers and the registered
    handlers alone. */
module KafkaMeaning {
  import opened Tables
  import opened KafkaDispatch
  import opened KafkaDelivery

  // ---------- one message ----------

  /** The last header with this key that has a text has this one. */
  predicate LastText(headers: seq<Header>, key: string, text: string) {
    exists i :: && 0 <= i < |headers| && headers[i] == Header(key, Text(text))
                && forall j :: i < j < |headers| ==> headers[j].key != key || !headers[j].value.Text?
  }

  predicate Unreadable(message: Message) {
    exists i :: 0 <= i < |message.headers| && message.headers[i].value.Undecodable?
  }

  /** A record of a registered topic carries the body as JSON under readable headers, and for
      every filter of the handler the last text header with the filter's key has its value. */
  predicate Reaches(reg: Registry, item: Item, topic: string, body: string) {
    && item.Record? && item.message.topic == topic && topic in reg
    && item.message.body == Json(body) && !Unreadable(item.message)
    && forall key :: key in reg[topic].filters ==> LastText(item.message.headers, key, reg[topic].filters[key])
  }

  lemma {:induction false} HeaderDictExactly(headers: seq<Header>, key: string, text: string)
    ensures key in HeaderDict(headers) && HeaderDict(headers)[key] == text <==> LastText(headers, key, text)
    ensures key in HeaderDict(headers) <==>
              exists i :: 0 <= i < |headers| && headers[i].key == key && headers[i].value.Text?
  {
    if headers != [] {
      var before, n := headers[..|headers| - 1], |headers| - 1;
      HeaderDictExactly(before, key, text);
      assert forall i :: 0 <= i < n ==> before[i] == headers[i];
      if headers[n].key == key && headers[n].value.Text? {
        assert LastText(headers, key, text) <==> headers[n] == Header(key, Text(text));
      } else {
        LastTextEarlier(headers, key, text);
      }
    }
  }

  /** A last header that has another key, or no text, does not matter. */
  lemma LastTextEarlier(headers: seq<Header>, key: string, text: string)
    requires headers != []
    requires var last := headers[|headers| - 1]; last.key != key || !last.value.Text?
    ensures LastText(headers, key, text) <==> LastText(headers[..|headers| - 1], key, text)
  {
    var before := headers[..|headers| - 1];
    if LastText(headers, key, text) {
      var i :| && 0 <= i < |headers| && headers[i] == Header(key, Text(text))
               && forall j :: i < j < |headers| ==> headers[j].key != key || !headers[j].value.Text?;
      assert before[i] == headers[i];
    }
    if LastText(before, key, text) {
      var i :| && 0 <= i < |before| && before[i] == Header(key, Text(text))
               && forall j :: i < j < |before| ==> before[j].key != key || !before[j].value.Text?;
      assert headers[i] == before[i];
      assert forall j :: i < j < |before| ==> headers[j] == before[j];
    }
  }

  /** A message breaks the dispatcher exactly when its topic is registered and a header cannot be
      decoded; it is ready exactly when it reaches its handler; otherwise it is skipped. */
  lemma PrepareExactly(reg: Registry, item: Item)
    ensures Prepare(reg, item).Raises? <==> item.Record? && item.message.topic in reg && Unreadable(item.message)
    ensures forall topic, body :: Prepare(reg, item) == Ready(topic, body) <==> Reaches(reg, item, topic, body)
    ensures Prepare(reg, item).Skip? <==>
              && !(item.Record? && item.message.topic in reg && Unreadable(item.message))
              && forall topic, body :: !Reaches(reg, item, topic, body)
  {
    if item.Record? && item.message.topic in reg {
      var m, filters := item.message, reg[item.message.topic].filters;
      assert Unreadable(m) <==> exists h :: h in m.headers && h.value.Undecodable?;
      forall key | key in filters
        ensures (key in HeaderDict(m.headers) && HeaderDict(m.headers)[key] == filters[key]) <==>
                  LastText(m.headers, key, filters[key])
      {
        HeaderDictExactly(m.headers, key, filters[key]);
      }
      if m.body.Json? && Prepare(reg, item).Ready? {
        assert Reaches(reg, item, m.topic, m.body.value);
      }
    }
  }

  /** The dispatcher breaks on a batch exactly when some message of a registered topic has a
      header that cannot be decoded. */
  lemma BreaksExactly(reg: Registry, items: seq<Item>)
    ensures Breaks(reg, items) <==>
              exists i :: && 0 <= i < |items| && items[i].Record?
                          && items[i].message.topic in reg && Unreadable(items[i].message)
  {
    forall i | 0 <= i < |items|
      ensures Prepare(reg, items[i]).Raises? <==>
        items[i].Record? && items[i].message.topic in reg && Unreadable(items[i].message)
    {
      PrepareExactly(reg, items[i]);
    }
  }

  // ---------- a stream of messages ----------

  /** The bodies that reach a topic's handler, read from the front of the stream. */
  function Reaching(reg: Registry, items: seq<Item>, topic: string): seq<string> {
    if items == [] then []
    else
      var item := items[0];
      (if item.Record? && item.message.body.Json? && Reaches(reg, item, topic, item.message.body.value)
       then [item.message.body.value] else [])
      + Reaching(reg, items[1..], topic)
  }

  lemma {:induction false} ReachingStep(reg: Registry, items: seq<Item>, item: Item, topic: string)
    ensures Reaching(reg, items + [item], topic) == Reaching(reg, items, topic) + Reaching(reg, [item], topic)
  {
    if items == [] {
      assert items + [item] == [item];
    } else {
      assert (items + [item])[1..] == items[1..] + [item] && (items + [item])[0] == items[0];
      ReachingStep(reg, items[1..], item, topic);
    }
  }

  lemma ReachingOne(reg: Registry, item: Item, topic: string)
    ensures Reaching(reg, [item], topic) ==
            if Prepare(reg, item).Ready? && Prepare(reg, item).topic == topic then [Prepare(reg, item).body] else []
  {
    PrepareExactly(reg, item);
    assert [item][1..] == [];
    if Prepare(reg, item).Ready? && Prepare(reg, item).topic == topic {
      assert Reaches(reg, item, topic, Prepare(reg, item).body);
    } else if item.Record? && item.message.body.Json? {
      assert !Reaches(reg, item, topic, item.message.body.value);
    }
  }

  lemma {:induction false} BodiesExactly(reg: Registry, items: seq<Item>, topic: string)
    ensures Bodies(reg, items, topic) == Reaching(reg, items, topic)
  {
    if items != [] {
      var before, last := items[..|items| - 1], items[|items| - 1];
      BodiesExactly(reg, before, topic);
      ReachingStep(reg, before, last, topic);
      ReachingOne(reg, last, topic);
      assert items == before + [last];
    }
  }

  /** A handler gets exactly the bodies that reach it, in arrival order, however the stream is
      cut into batches; in single-message mode a handler that wants batches gets none. */
  lemma DeliveredExactly(reg: Registry, batches: seq<seq<Item>>, topic: string)
    ensures Delivered(CallsOfBatches(reg, batches), topic) == Reaching(reg, Concat(batches), topic)
    ensures topic in reg ==>
              Delivered(SingleCalls(reg, Concat(batches)), topic) ==
              if reg[topic].batch then [] else Reaching(reg, Concat(batches), topic)
  {
    AnySplitDelivers(reg, batches, topic);
    BodiesExactly(reg, Concat(batches), topic);
    if topic in reg {
      SingleDelivers(reg, Concat(batches), topic);
    }
  }

  lemma {:induction false} ReachingMembers(reg: Registry, items: seq<Item>, topic: string, body: string)
    ensures body in Reaching(reg, items, topic) <==> exists i :: 0 <= i < |items| && Reaches(reg, items[i], topic, body)
  {
    if items != [] {
      ReachingMembers(reg, items[1..], topic, body);
      assert forall i :: 1 <= i < |items| ==> items[1..][i - 1] == items[i];
      if exists i :: 0 <= i < |items| && Reaches(reg, items[i], topic, body) {
        var i :| 0 <= i < |items| && Reaches(reg, items[i], topic, body);
        if i > 0 { assert items[1..][i - 1] == items[i]; }
      }
    }
  }

  /** A body is delivered from a batch, or in single-message mode, exactly when some record
      brings it to its topic's handler. */
  lemma DeliveredMembers(reg: Registry, items: seq<Item>, topic: string, body: string)
    ensures body in Delivered(BatchCalls(reg, items), topic) <==>
              exists i :: 0 <= i < |items| && Reaches(reg, items[i], topic, body)
    ensures topic in reg ==>
              (body in Delivered(SingleCalls(reg, items), topic) <==>
               !reg[topic].batch && exists i :: 0 <= i < |items| && Reaches(reg, items[i], topic, body))
  {
    BatchDelivers(reg, items, topic);
    BodiesExactly(reg, items, topic);
    ReachingMembers(reg, items, topic, body);
    if topic in reg {
      SingleDelivers(reg, items, topic);
    }
  }

  // ---------- the calls ----------

  /** A topic whose handler wants batches is called with lists, any other with single bodies. */
  lemma CallsFit(reg: Registry, items: seq<Item>)
    ensures forall c :: c in BatchCalls(reg, items) ==>
              c.topic in reg && (c.Many? <==> reg[c.topic].batch)
    ensures forall c :: c in SingleCalls(reg, items) ==>
              c.topic in reg && c.One? && !reg[c.topic].batch
  {
    forall t | t in TopicOrder(reg, items) ensures t in reg {
      TopicOrderExact(reg, items, t);
    }
    CallsForFit(reg, items, TopicOrder(reg, items));
    SingleCallsFit(reg, items);
  }

  lemma {:induction false} CallsForFit(reg: Registry, items: seq<Item>, topics: seq<string>)
    requires forall t :: t in topics ==> t in reg
    ensures forall c :: c in CallsFor(reg, items, topics) ==> c.topic in reg && (c.Many? <==> reg[c.topic].batch)
  {
    if topics != [] {
      var before, last := topics[..|topics| - 1], topics[|topics| - 1];
      CallsForFit(reg, items, before);
      var calls := TopicCalls(reg, last, Bodies(reg, items, last));
      assert forall c :: c in calls ==> c.topic == last && (c.Many? <==> reg[last].batch);
    }
  }

  lemma {:induction false} SingleCallsFit(reg: Registry, items: seq<Item>)
    ensures forall c :: c in SingleCalls(reg, items) ==> c.topic in reg && c.One? && !reg[c.topic].batch
  {
    if items != [] {
      SingleCallsFit(reg, items[..|items| - 1]);
    }
  }

  /** Some record before this place brings a body to the topic's handler. */
  predicate Arrived(reg: Registry, items: seq<Item>, n: nat, topic: string) {
    exists i :: && 0 <= i < n && i < |items| && items[i].Record? && items[i].message.body.Json?
                && Reaches(reg, items[i], topic, items[i].message.body.value)
  }

  /** The handlers of a batch are called in the order in which their topics first arrive: when
      the later one of two has arrived, so has the earlier one. */
  lemma {:induction false} OrderOfArrival(reg: Registry, items: seq<Item>, n: nat, k: nat, l: nat)
    requires n <= |items| && k < l < |TopicOrder(reg, items)|
    ensures Arrived(reg, items, n, TopicOrder(reg, items)[l]) ==> Arrived(reg, items, n, TopicOrder(reg, items)[k])
    decreases |items|
  {
    var order, before := TopicOrder(reg, items), items[..|items| - 1];
    var m := |items| - 1;
    assert forall i :: 0 <= i < m ==> before[i] == items[i];
    if l < |TopicOrder(reg, before)| {
      if n <= m {
        OrderOfArrival(reg, before, n, k, l);
        assert forall t :: Arrived(reg, items, n, t) <==> Arrived(reg, before, n, t);
      } else {
        ListedHasArrived(reg, before, order[k]);
        assert Arrived(reg, before, m, order[k]);
      }
    } else {
      ListedHasArrived(reg, before, order[k]);
      if Arrived(reg, items, n, order[l]) {
        if n <= m {
          assert Arrived(reg, before, m, order[l]);
          ListedHasArrived(reg, before, order[l]);
          assert false;
        }
      }
    }
  }

  lemma ListedHasArrived(reg: Registry, items: seq<Item>, topic: string)
    ensures topic in TopicOrder(reg, items) <==> Arrived(reg, items, |items|, topic)
  {
    TopicOrderExact(reg, items, topic);
    BodiesExactly(reg, items, topic);
    var bodies := Reaching(reg, items, topic);
    if bodies != [] {
      ReachingMembers(reg, items, topic, bodies[0]);
    }
    if Arrived(reg, items, |items|, topic) {
      var i :| && 0 <= i < |items| && items[i].Record? && items[i].message.body.Json?
               && Reaches(reg, items[i], topic, items[i].message.body.value);
      ReachingMembers(reg, items, topic, items[i].message.body.value);
    }
  }

  /** On a run that the consumer can make, a message below its partition's committed offset was
      handed to its topic's handler in a good batch if it reaches the handler; and no message
      that breaks the dispatcher is below that offset, unless a reset passed over it. */
  lemma ReachingIsDelivered(
    logs: Logs, reg: Registry, committed: Offsets, reset: Offsets, events: seq<Event>, item: Item)
    requires Possible(logs, reg, Begin(committed, reset), events) && Logged(logs, item)
    requires At(reset + committed, item.partition) <= item.offset
    requires !SkippedIn(reg, Begin(committed, reset), events, item)
    requires item.offset < At(After(reg, Begin(committed, reset), events).committed, item.partition)
    ensures !(item.message.topic in reg && Unreadable(item.message))
    ensures forall topic, body :: Reaches(reg, item, topic, body) ==>
              var s := After(reg, Begin(committed, reset), events);
              exists i :: && 0 <= i < |s.good| && item in s.good[i]
                          && body in Delivered(BatchCalls(reg, s.good[i]), topic)
  {
    AtLeastOnce(logs, reg, committed, reset, events, item);
    PrepareExactly(reg, item);
  }

  // ---------- offsets ----------

  /** The last record of this partition. */
  predicate LastOf(items: seq<Item>, i: int, p: Partition) {
    && 0 <= i < |items| && items[i].Record? && items[i].partition == p
    && forall j :: i < j < |items| ==> !(items[j].Record? && items[j].partition == p)
  }

  /** Each partition's offset is just past its last record, or where it was. */
  ghost predicate MovedPast(from: Offsets, items: seq<Item>, to: Offsets) {
    forall p ::
      && (forall i :: LastOf(items, i, p) ==> p in to && to[p] == items[i].offset + 1)
      && ((forall i :: !LastOf(items, i, p)) ==> SameAt(to, from, p))
  }

  lemma {:induction false} AdvanceExactly(from: Offsets, items: seq<Item>)
    ensures MovedPast(from, items, Advance(from, items))
  {
    if items != [] {
      var before, n := items[..|items| - 1], |items| - 1;
      AdvanceExactly(from, before);
      var to := Advance(from, items);
      forall p
        ensures forall i :: LastOf(items, i, p) ==> p in to && to[p] == items[i].offset + 1
        ensures (forall i :: !LastOf(items, i, p)) ==> SameAt(to, from, p)
      {
        LastOfStep(items, p);
        assert forall i :: 0 <= i < n ==> before[i] == items[i];
        assert forall i :: LastOf(before, i, p) ==> 0 <= i < n;
      }
    }
  }

  lemma LastOfStep(items: seq<Item>, p: Partition)
    requires items != []
    ensures var n := |items| - 1;
            if items[n].Record? && items[n].partition == p then LastOf(items, n, p) && forall i ::
                LastOf(items, i, p) ==> i == n
            else forall i :: LastOf(items, i, p) <==> LastOf(items[..n], i, p)
  {
    var n := |items| - 1;
    assert forall i :: 0 <= i < n ==> items[..n][i] == items[i];
    if !(items[n].Record? && items[n].partition == p) {
      forall i ensures LastOf(items, i, p) <==> LastOf(items[..n], i, p) {
        if 0 <= i < n {
          assert forall j :: i < j < n ==> items[..n][j] == items[j];
        }
      }
    }
  }

  /** The handlers' calls of a batch are all made, and none of them throws. */
  predicate AllReturn(script: seq<CallEnd>, calls: nat) {
    forall i :: 0 <= i < calls && i < |script| ==> !script[i].throws
  }

  /** One turn with messages. The position moves past them. If one breaks the dispatcher or a
      handler throws, nothing else moves and the loop ends. Otherwise the stored offsets move past
      the records before a store that raises; they are committed exactly when none raises and the
      commit reaches the broker; and the loop goes on unless a handler asked it to quit. */
  lemma TurnExactly(reg: Registry, s: Session, turn: Turn)
    requires s.running && turn.Consumed? && turn.items != []
    ensures var now, calls := TakeTurn(reg, s, turn), |BatchCalls(reg, turn.items)|;
            var breaks := exists i :: && 0 <= i < |turn.items| && turn.items[i].Record?
                                      && turn.items[i].message.topic in reg && Unreadable(turn.items[i].message);
            var faulty := && turn.storeFault.Some? && turn.storeFault.value < |turn.items|
                          && turn.items[turn.storeFault.value].Record?;
            && MovedPast(s.position, turn.items, now.position)
            && if breaks || !AllReturn(turn.script, calls)
               then !now.running && now.stored == s.stored && now.committed == s.committed && now.good == s.good
               else
                 && MovedPast(s.stored, if faulty then turn.items[..turn.storeFault.value] else turn.items, now.stored)
                 && now.committed == (if faulty || turn.commit == CommitRaises(false) then s.committed else now.stored)
                 && now.good == s.good + [turn.items]
                 && (now.running <==>
                     forall i :: 0 <= i < calls && i < |turn.script| ==> !turn.script[i].quits)
  {
    BreaksExactly(reg, turn.items);
    AdvanceExactly(s.position, turn.items);
    var n, calls := StoredCount(turn.items, turn.storeFault), |BatchCalls(reg, turn.items)|;
    AdvanceExactly(s.stored, turn.items[..n]);
    assert turn.items[..|turn.items|] == turn.items;
    assert forall i :: 0 <= i < |turn.script| ==> EndOf(turn.script, i) == turn.script[i];
    assert AnyThrows(turn.script, calls) <==> !AllReturn(turn.script, calls);
    assert AnyQuits(turn.script, calls) <==>
      exists i :: 0 <= i < calls && i < |turn.script| && turn.script[i].quits;
  }

  /** A restart forgets what was stored and not committed: the consumer goes on from the committed
      offset of each partition that has one, and from the reset position of the others. */
  lemma RestartExactly(reg: Registry, s: Session, reset: Offsets)
    ensures var now := Next(reg, s, Restart(reset));
            && now.committed == s.committed && now.stored == s.committed && now.running && now.good == s.good
            && forall p :: SameAt(now.position, if p in s.committed then s.committed else reset, p)
  {
  }

  // ---------- a filter at work ----------

  /** A message for another service is not delivered to a handler that filters on the service. */
  lemma FilteredOut(body: string, partition: Partition) returns (reg: Registry, item: Item)
    ensures reg == map["t" := Handler(map["service" := "tasks"], false)]
    ensures item == Record(partition, 0, Message("t", [Header("service", Text("other"))], Json(body)))
    ensures SingleCalls(reg, [item]) == [] && BatchCalls(reg, [item]) == []
  {
    reg := map["t" := Handler(map["service" := "tasks"], false)];
    item := Record(partition, 0, Message("t", [Header("service", Text("other"))], Json(body)));
    PrepareExactly(reg, item);
    assert "other"[0] == 'o' && "tasks"[0] == 't';
    assert "service" in reg["t"].filters && !LastText(item.message.headers, "service", "tasks");
    assert forall topic, b :: !Reaches(reg, item, topic, b);
    assert Prepare(reg, item).Skip?;
    assert [item][..0] == [];
    assert TopicOrder(reg, [item]) == [];
  }
}
