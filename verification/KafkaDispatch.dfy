/** The dispatcher that turns consumed messages into handler calls, batch by batch. */
module KafkaDispatch {
  import opened Tables

  datatype HeaderValue = Blank | Text(text: string) | Undecodable
  datatype Header = Header(key: string, value: HeaderValue)
  datatype Body = Malformed | Json(value: string)
  datatype Message = Message(topic: string, headers: seq<Header>, body: Body)

  /** One partition of one topic. */
  datatype Partition = Partition(topic: string, number: nat)

  /** What a consumer hands over: a message at its offset, or an error in a message's place. */
  datatype Item = Failure | Record(partition: Partition, offset: nat, message: Message)

  datatype Handler = Handler(filters: map<string, string>, batch: bool)

  type Registry = map<string, Handler>

  /** A message that is skipped, that breaks the dispatcher, or that is ready for its handler. */
  datatype Prepared = Skip | Raises | Ready(topic: string, body: string)

  /** A call of the handler of a topic, with one body or with a whole list. */
  datatype Call = One(topic: string, body: string) | Many(topic: string, bodies: seq<string>)

  /** How a handler call ends: it may throw, and it may have asked the dispatcher to quit. */
  datatype CallEnd = CallEnd(throws: bool, quits: bool)

  // ---------- preparing a message ----------

  /** The header dictionary: blank values are left out and the last of a repeated key wins. */
  function HeaderDict(headers: seq<Header>): map<string, string> {
    if headers == [] then map[]
    else
      var rest, last := HeaderDict(headers[..|headers| - 1]), headers[|headers| - 1];
      if last.value.Text? then rest[last.key := last.value.text] else rest
  }

  function Prepare(reg: Registry, item: Item): Prepared {
    if item.Failure? || item.message.topic !in reg then Skip
    else if exists h :: h in item.message.headers && h.value.Undecodable? then Raises
    else
      var filters, headers := reg[item.message.topic].filters, HeaderDict(item.message.headers);
      if !(forall key :: key in filters ==> key in headers && headers[key] == filters[key]) then Skip
      else if item.message.body.Malformed? then Skip
      else Ready(item.message.topic, item.message.body.value)
  }

  // ---------- the calls of one batch ----------

  /** The prepared bodies of one topic, in arrival order. */
  function Bodies(reg: Registry, items: seq<Item>, topic: string): seq<string> {
    if items == [] then []
    else
      var rest, last := Bodies(reg, items[..|items| - 1], topic), Prepare(reg, items[|items| - 1]);
      if last.Ready? && last.topic == topic then rest + [last.body] else rest
  }

  /** The topics that occur, in order of first arrival. */
  function TopicOrder(reg: Registry, items: seq<Item>): seq<string> {
    if items == [] then []
    else
      var rest, last := TopicOrder(reg, items[..|items| - 1]), Prepare(reg, items[|items| - 1]);
      if last.Ready? && last.topic !in rest then rest + [last.topic] else rest
  }

  function OneEach(topic: string, bodies: seq<string>): seq<Call> {
    seq(|bodies|, i requires 0 <= i < |bodies| => One(topic, bodies[i]))
  }

  function TopicCalls(reg: Registry, topic: string, bodies: seq<string>): seq<Call>
  {
    if topic in reg && reg[topic].batch then [Many(topic, bodies)] else OneEach(topic, bodies)
  }

  /** The calls for the first n of the topics. */
  function CallsFor(reg: Registry, items: seq<Item>, topics: seq<string>): seq<Call> {
    if topics == [] then []
    else
      var last := topics[|topics| - 1];
      CallsFor(reg, items, topics[..|topics| - 1]) + TopicCalls(reg, last, Bodies(reg, items, last))
  }

  function BatchCalls(reg: Registry, items: seq<Item>): seq<Call> {
    CallsFor(reg, items, TopicOrder(reg, items))
  }

  predicate Breaks(reg: Registry, items: seq<Item>) {
    exists item :: item in items && Prepare(reg, item).Raises?
  }

  function EndOf(script: seq<CallEnd>, i: nat): CallEnd {
    if i < |script| then script[i] else CallEnd(false, false)
  }

  predicate AnyThrows(script: seq<CallEnd>, n: nat) {
    exists i :: 0 <= i < n && EndOf(script, i).throws
  }

  predicate AnyQuits(script: seq<CallEnd>, n: nat) {
    exists i :: 0 <= i < n && EndOf(script, i).quits
  }

  predicate Distinct(topics: seq<string>) {
    topics == [] || (topics[|topics| - 1] !in topics[..|topics| - 1] && Distinct(topics[..|topics| - 1]))
  }

  // ---------- what the calls deliver ----------

  /** All bodies the calls hand to one topic's handler, in order. */
  function Delivered(calls: seq<Call>, topic: string): seq<string> {
    if calls == [] then []
    else
      var rest, last := Delivered(calls[..|calls| - 1], topic), calls[|calls| - 1];
      if last.topic != topic then rest
      else rest + match last case One(_, body) => [body] case Many(_, bodies) => bodies
  }

  lemma {:induction false} DeliveredAppend(a: seq<Call>, b: seq<Call>, topic: string)
    ensures Delivered(a + b, topic) == Delivered(a, topic) + Delivered(b, topic)
  {
    if b == [] {
      assert a + b == a;
    } else {
      assert (a + b)[..|a + b| - 1] == a + b[..|b| - 1];
      DeliveredAppend(a, b[..|b| - 1], topic);
    }
  }

  lemma {:induction false} OneEachDelivers(t: string, bodies: seq<string>, topic: string)
    ensures Delivered(OneEach(t, bodies), topic) == if t == topic then bodies else []
  {
    if bodies != [] {
      assert OneEach(t, bodies)[..|bodies| - 1] == OneEach(t, bodies[..|bodies| - 1]);
      OneEachDelivers(t, bodies[..|bodies| - 1], topic);
    }
  }

  lemma {:induction false} TopicOrderExact(reg: Registry, items: seq<Item>, topic: string)
    ensures topic in TopicOrder(reg, items) <==> Bodies(reg, items, topic) != []
    ensures topic in TopicOrder(reg, items) ==> topic in reg
  {
    if items != [] {
      TopicOrderExact(reg, items[..|items| - 1], topic);
    }
  }

  lemma {:induction false} TopicOrderDistinct(reg: Registry, items: seq<Item>)
    ensures Distinct(TopicOrder(reg, items))
  {
    if items != [] {
      var before, last := TopicOrder(reg, items[..|items| - 1]), Prepare(reg, items[|items| - 1]);
      TopicOrderDistinct(reg, items[..|items| - 1]);
      if last.Ready? && last.topic !in before {
        DistinctAppend(before, last.topic);
      }
    }
  }

  lemma DistinctAppend(topics: seq<string>, topic: string)
    requires Distinct(topics) && topic !in topics
    ensures Distinct(topics + [topic])
  {
    assert (topics + [topic])[..|topics|] == topics;
  }

  lemma TopicCallsDeliver(reg: Registry, t: string, bodies: seq<string>, topic: string)
    ensures Delivered(TopicCalls(reg, t, bodies), topic) == if t == topic then bodies else []
  {
    OneEachDelivers(t, bodies, topic);
    assert [Many(t, bodies)][..0] == [];
  }

  lemma {:induction false} CallsForDeliver(reg: Registry, items: seq<Item>, topics: seq<string>, topic: string)
    requires Distinct(topics)
    ensures Delivered(CallsFor(reg, items, topics), topic) == if topic in topics then Bodies(reg, items, topic) else []
  {
    if topics != [] {
      var before, last := topics[..|topics| - 1], topics[|topics| - 1];
      CallsForDeliver(reg, items, before, topic);
      MoreCallsDeliver(reg, CallsFor(reg, items, before), last, Bodies(reg, items, last), topic);
      InFront(topics, topic);
    }
  }

  lemma InFront(topics: seq<string>, topic: string)
    requires topics != []
    ensures topic in topics <==> topic in topics[..|topics| - 1] || topic == topics[|topics| - 1]
  {
    assert topics == topics[..|topics| - 1] + [topics[|topics| - 1]];
  }

  lemma MoreCallsDeliver(reg: Registry, calls: seq<Call>, t: string, bodies: seq<string>, topic: string)
    ensures Delivered(calls + TopicCalls(reg, t, bodies), topic) ==
            if t == topic then Delivered(calls, topic) + bodies else Delivered(calls, topic)
  {
    DeliveredAppend(calls, TopicCalls(reg, t, bodies), topic);
    TopicCallsDeliver(reg, t, bodies, topic);
  }

  /** A batch hands each topic's handler exactly that topic's prepared bodies, in order. */
  lemma BatchDelivers(reg: Registry, items: seq<Item>, topic: string)
    ensures Delivered(BatchCalls(reg, items), topic) == Bodies(reg, items, topic)
  {
    TopicOrderExact(reg, items, topic);
    TopicOrderDistinct(reg, items);
    CallsForDeliver(reg, items, TopicOrder(reg, items), topic);
  }

  lemma {:induction false} BodiesAppend(reg: Registry, a: seq<Item>, b: seq<Item>, topic: string)
    ensures Bodies(reg, a + b, topic) == Bodies(reg, a, topic) + Bodies(reg, b, topic)
  {
    if b == [] {
      assert a + b == a;
    } else {
      assert (a + b)[..|a + b| - 1] == a + b[..|b| - 1];
      BodiesAppend(reg, a, b[..|b| - 1], topic);
    }
  }

  function Concat<T>(parts: seq<seq<T>>): seq<T> {
    if parts == [] then [] else Concat(parts[..|parts| - 1]) + parts[|parts| - 1]
  }

  function CallsOfBatches(reg: Registry, batches: seq<seq<Item>>): seq<Call> {
    if batches == [] then []
    else CallsOfBatches(reg, batches[..|batches| - 1]) + BatchCalls(reg, batches[|batches| - 1])
  }

  /** However a stream is cut into batches, each handler sees exactly its topic's prepared
      bodies in arrival order, none lost and none repeated. */
  lemma {:induction false} AnySplitDelivers(reg: Registry, batches: seq<seq<Item>>, topic: string)
    ensures Delivered(CallsOfBatches(reg, batches), topic) == Bodies(reg, Concat(batches), topic)
  {
    if batches != [] {
      var before, last := batches[..|batches| - 1], batches[|batches| - 1];
      AnySplitDelivers(reg, before, topic);
      DeliveredAppend(CallsOfBatches(reg, before), BatchCalls(reg, last), topic);
      BatchDelivers(reg, last, topic);
      BodiesAppend(reg, Concat(before), last, topic);
    }
  }

  /** The calls of single-message mode: a topic whose handler wants batches gets none. */
  function SingleCalls(reg: Registry, items: seq<Item>): seq<Call> {
    if items == [] then []
    else
      var rest, last := SingleCalls(reg, items[..|items| - 1]), Prepare(reg, items[|items| - 1]);
      if last.Ready? && last.topic in reg && !reg[last.topic].batch then rest + [One(last.topic, last.body)] else rest
  }

  lemma {:induction false} SingleDelivers(reg: Registry, items: seq<Item>, topic: string)
    requires topic in reg
    ensures Delivered(SingleCalls(reg, items), topic) == if reg[topic].batch then [] else Bodies(reg, items, topic)
  {
    if items != [] {
      var before := items[..|items| - 1];
      SingleDelivers(reg, before, topic);
      var last := Prepare(reg, items[|items| - 1]);
      if last.Ready? && last.topic in reg && !reg[last.topic].batch {
        OneMoreDelivered(SingleCalls(reg, before), last.topic, last.body, topic);
      }
    }
  }

  lemma OneMoreDelivered(calls: seq<Call>, t: string, body: string, topic: string)
    ensures Delivered(calls + [One(t, body)], topic) == Delivered(calls, topic) + if t == topic then [body] else []
  {
    assert (calls + [One(t, body)])[..|calls|] == calls;
  }

  /** For a handler that takes single messages, batches and single-message mode deliver the same. */
  lemma BatchesMatchSingles(reg: Registry, batches: seq<seq<Item>>, topic: string)
    requires topic in reg && !reg[topic].batch
    ensures Delivered(CallsOfBatches(reg, batches), topic) == Delivered(SingleCalls(reg, Concat(batches)), topic)
  {
    AnySplitDelivers(reg, batches, topic);
    SingleDelivers(reg, Concat(batches), topic);
  }

  /** A handler that wants batches is called at most once for each batch, with everything. */
  lemma BatchHandlerCalledOnce(reg: Registry, items: seq<Item>, topic: string)
    requires topic in reg && reg[topic].batch
    ensures multiset(BatchCalls(reg, items))[Many(topic, Bodies(reg, items, topic))] ==
            if Bodies(reg, items, topic) == [] then 0 else 1
    ensures forall c :: c in BatchCalls(reg, items) && c.topic == topic ==> c == Many(topic, Bodies(reg, items, topic))
  {
    TopicOrderExact(reg, items, topic);
    TopicOrderDistinct(reg, items);
    CallsCount(reg, items, TopicOrder(reg, items), topic);
  }

  lemma {:induction false} CallsCount(reg: Registry, items: seq<Item>, topics: seq<string>, topic: string)
    requires topic in reg && reg[topic].batch
    requires Distinct(topics)
    ensures multiset(CallsFor(reg, items, topics))[Many(topic, Bodies(reg, items, topic))] ==
            if topic in topics then 1 else 0
    ensures forall c :: c in CallsFor(reg, items, topics) && c.topic == topic ==>
              c == Many(topic, Bodies(reg, items, topic))
  {
    if topics != [] {
      var before, last := topics[..|topics| - 1], topics[|topics| - 1];
      CallsCount(reg, items, before, topic);
      assert topics == before + [last];
      TopicCallsCount(reg, last, Bodies(reg, items, last), topic, Bodies(reg, items, topic));
    }
  }

  lemma TopicCallsCount(reg: Registry, t: string, bodies: seq<string>, topic: string, all: seq<string>)
    requires topic in reg && reg[topic].batch && (t == topic ==> bodies == all)
    ensures multiset(TopicCalls(reg, t, bodies))[Many(topic, all)] == if t == topic then 1 else 0
    ensures forall c :: c in TopicCalls(reg, t, bodies) && c.topic == topic ==> c == Many(topic, all)
  {
    var calls := TopicCalls(reg, t, bodies);
    if t == topic {
      assert calls == [Many(topic, all)];
    } else {
      assert forall c :: c in calls ==> c.topic == t;
      assert Many(topic, all) !in calls;
    }
  }

  /** A ready message is part of some call to its topic's handler. */
  lemma ReadyIsCalled(reg: Registry, items: seq<Item>, item: Item)
    requires item in items && Prepare(reg, item).Ready?
    ensures Prepare(reg, item).body in Delivered(BatchCalls(reg, items), Prepare(reg, item).topic)
  {
    var ready := Prepare(reg, item);
    BatchDelivers(reg, items, ready.topic);
    ReadyInBodies(reg, items, item);
  }

  lemma {:induction false} ReadyInBodies(reg: Registry, items: seq<Item>, item: Item)
    requires item in items && Prepare(reg, item).Ready?
    ensures Prepare(reg, item).body in Bodies(reg, items, Prepare(reg, item).topic)
  {
    if items[|items| - 1] != item {
      assert items == items[..|items| - 1] + [items[|items| - 1]];
      ReadyInBodies(reg, items[..|items| - 1], item);
    }
  }
}
