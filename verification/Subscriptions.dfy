/** The subscription table and message delivery of src/mqtt/mqtt.c. */
module Subscriptions {
  import opened CStrings
  import opened Decimal
  import opened AtStrings
  import opened AtScan
  import opened TopicMatch

  const MAX_SUB_TOPIC: nat := 5
  const MAX_TOPIC_NAME_LEN: nat := 138
  const MAX_TOPIC_PAYLOAD_LEN: nat := 1024

  datatype Result = SUCCESS | FAILURE | EXCEED_MAX_TOPICS

  /** `fp` names a callback, `context` the pointer it is given. */
  datatype Handler = Handler(filter: string, qos: nat, fp: nat, context: nat)
  datatype Call = Call(fp: nat, payload: string, context: nat)
  type Slots = seq<Option<Handler>>

  predicate Holds(slots: Slots, i: nat, filter: string)
    requires i < |slots|
  {
    slots[i].Some? && slots[i].value.filter == filter
  }

  predicate Distinct(slots: Slots) {
    forall i, j :: 0 <= i < j < |slots| && slots[i].Some? && slots[j].Some? ==>
      slots[i].value.filter != slots[j].value.filter
  }

  /** The slot of a filter, or the length of the table. */
  function SlotOf(slots: Slots, p: nat, filter: string): (r: nat)
    requires p <= |slots|
    ensures p <= r <= |slots| && (r < |slots| ==> Holds(slots, r, filter))
    ensures forall k :: p <= k < r ==> !Holds(slots, k, filter)
    decreases |slots| - p
  {
    if p == |slots| || Holds(slots, p, filter) then p else SlotOf(slots, p + 1, filter)
  }

  function FreeSlot(slots: Slots, p: nat): (r: nat)
    requires p <= |slots|
    ensures p <= r <= |slots| && (r < |slots| ==> slots[r].None?)
    ensures forall k :: p <= k < r ==> slots[k].Some?
    decreases |slots| - p
  {
    if p == |slots| || slots[p].None? then p else FreeSlot(slots, p + 1)
  }

  /** The table after register_sub_topic with a callback, or without one. */
  function Registered(slots: Slots, h: Handler, fp: Option<nat>): (r: (Slots, Result))
    ensures |r.0| == |slots|
  {
    var i := SlotOf(slots, 0, h.filter);
    if fp.None? then
      (if i < |slots| then slots[i := None] else slots, SUCCESS)
    else
      var k := if i < |slots| then i else FreeSlot(slots, 0);
      if k < |slots| then (slots[k := Some(h.(fp := fp.value))], SUCCESS) else (slots, EXCEED_MAX_TOPICS)
  }

  // ---- the table is a map ----

  function Filters(slots: Slots): set<string> {
    set i | 0 <= i < |slots| && slots[i].Some? :: slots[i].value.filter
  }

  /** The table as a map from filters to handlers. */
  function Table(slots: Slots): map<string, Handler> {
    map f | f in Filters(slots) :: slots[SlotIn(slots, f)].value
  }

  function SlotIn(slots: Slots, f: string): (i: nat)
    requires f in Filters(slots)
    ensures i < |slots| && Holds(slots, i, f)
  {
    assert exists k :: 0 <= k < |slots| && Holds(slots, k, f) by {
      var k :| 0 <= k < |slots| && slots[k].Some? && slots[k].value.filter == f;
      assert Holds(slots, k, f);
    }
    SlotOf(slots, 0, f)
  }

  /** With distinct filters the map says what each slot holds. */
  lemma TableAt(slots: Slots, i: nat)
    requires Distinct(slots) && i < |slots| && slots[i].Some?
    ensures slots[i].value.filter in Table(slots) && Table(slots)[slots[i].value.filter] == slots[i].value
  {
  }

  /** A map that agrees with the slots is the table. */
  lemma TableIs(slots: Slots, m: map<string, Handler>)
    requires Distinct(slots)
    requires forall i :: 0 <= i < |slots| && slots[i].Some? ==>
               slots[i].value.filter in m && m[slots[i].value.filter] == slots[i].value
    requires forall f :: f in m ==> f in Filters(slots)
    ensures Table(slots) == m
  {
    hide Distinct;
    forall f | f in Table(slots) ensures f in m && Table(slots)[f] == m[f] {
      var i := SlotIn(slots, f);
      assert slots[i].Some?;
    }
  }

  lemma {:induction false} TableSize(slots: Slots)
    requires Distinct(slots)
    ensures |Filters(slots)| <= |slots|
    ensures |Filters(slots)| == |slots| <==> forall i :: 0 <= i < |slots| ==> slots[i].Some?
  {
    if slots != [] {
      var n := |slots| - 1;
      var rest := slots[..n];
      TableSize(rest);
      assert slots == rest + [slots[n]];
      FiltersSnoc(rest, slots[n]);
      AllTaken(rest, slots[n]);
      hide Filters, Distinct;
      if slots[n].Some? {
        assert |Filters(slots)| == |Filters(rest)| + 1;
      }
    }
  }

  lemma AllTaken(rest: Slots, slot: Option<Handler>)
    ensures var slots := rest + [slot];
            (forall i :: 0 <= i < |slots| ==> slots[i].Some?) <==>
            slot.Some? && forall i :: 0 <= i < |rest| ==> rest[i].Some?
  {
    var slots := rest + [slot];
    assert slots[|rest|] == slot;
    assert forall i :: 0 <= i < |rest| ==> slots[i] == rest[i];
  }

  /** One more slot with a filter of its own. */
  lemma FiltersSnoc(rest: Slots, slot: Option<Handler>)
    requires Distinct(rest + [slot])
    ensures slot.None? ==> Filters(rest + [slot]) == Filters(rest)
    ensures slot.Some? ==>
              Filters(rest + [slot]) == Filters(rest) + {slot.value.filter} && slot.value.filter !in Filters(rest)
  {
    var slots := rest + [slot];
    assert slots[|rest|] == slot && forall i :: 0 <= i < |rest| ==> slots[i] == rest[i];
    if slot.Some? {
      assert Filters(slots) == Filters(rest) + {slot.value.filter};
    } else {
      assert Filters(slots) == Filters(rest);
    }
  }

  /** Registering keeps the filters distinct. */
  lemma RegisteredDistinct(slots: Slots, h: Handler, fp: Option<nat>)
    requires Distinct(slots)
    ensures Distinct(Registered(slots, h, fp).0)
  {
    var i := SlotOf(slots, 0, h.filter);
    forall k | 0 <= k < |slots| && k != i && slots[k].Some? ensures slots[k].value.filter != h.filter {
      assert k < i ==> !Holds(slots, k, h.filter);
    }
  }

  /** Without a callback the filter goes; with one it is set, unless it is new and the table is full. */
  lemma RegisteredTable(slots: Slots, h: Handler, fp: Option<nat>)
    requires Distinct(slots)
    ensures var (after, rc) := Registered(slots, h, fp);
            && (fp.None? ==> rc == SUCCESS && Table(after) == Table(slots) - {h.filter})
            && (fp.Some? && rc == SUCCESS ==> Table(after) == Table(slots)[h.filter := h.(fp := fp.value)])
            && (fp.Some? && rc != SUCCESS ==> rc == EXCEED_MAX_TOPICS && after == slots)
            && (fp.Some? ==> (rc == SUCCESS <==> h.filter in Table(slots) || |Table(slots)| < |slots|))
  {
    var i := SlotOf(slots, 0, h.filter);
    var (after, rc) := Registered(slots, h, fp);
    RegisteredDistinct(slots, h, fp);
    SizeOfTable(slots);
    FilterHeld(slots, h.filter);
    if fp.None? {
      RemovedTable(slots, i, h.filter);
    } else if rc == SUCCESS {
      var k := if i < |slots| then i else FreeSlot(slots, 0);
      SetTable(slots, k, h.(fp := fp.value));
    }
  }

  lemma SizeOfTable(slots: Slots)
    requires Distinct(slots)
    ensures |Table(slots)| < |slots| <==> FreeSlot(slots, 0) < |slots|
  {
    TableSize(slots);
    assert Table(slots).Keys == Filters(slots);
  }

  lemma FilterHeld(slots: Slots, f: string)
    ensures f in Table(slots) <==> SlotOf(slots, 0, f) < |slots|
  {
    var i := SlotOf(slots, 0, f);
    if i < |slots| {
      assert Holds(slots, i, f);
    }
  }

  lemma SetTable(slots: Slots, k: nat, h: Handler)
    requires Distinct(slots) && k < |slots| && Distinct(slots[k := Some(h)])
    requires slots[k].Some? ==> slots[k].value.filter == h.filter
    ensures Table(slots[k := Some(h)]) == Table(slots)[h.filter := h]
  {
    var after := slots[k := Some(h)];
    var m := Table(slots)[h.filter := h];
    assert after[k].Some? && after[k].value.filter == h.filter;
    forall i | 0 <= i < |after| && after[i].Some?
      ensures after[i].value.filter in m && m[after[i].value.filter] == after[i].value
    {
      if i != k {
        TableAt(slots, i);
      }
    }
    forall f | f in m ensures f in Filters(after) {
      if f != h.filter {
        var i := SlotIn(slots, f);
        assert after[i].Some? && after[i].value.filter == f;
      }
    }
    TableIs(after, m);
  }

  lemma RemovedTable(slots: Slots, k: nat, f: string)
    requires Distinct(slots) && k == SlotOf(slots, 0, f)
    ensures Table(if k < |slots| then slots[k := None] else slots) == Table(slots) - {f}
  {
    var after := if k < |slots| then slots[k := None] else slots;
    var m := Table(slots) - {f};
    forall i | 0 <= i < |after| && after[i].Some?
      ensures after[i].value.filter in m && m[after[i].value.filter] == after[i].value
    {
      TableAt(slots, i);
      assert !Holds(after, i, f);
    }
    forall g | g in m ensures g in Filters(after) {
      var i := SlotIn(slots, g);
      assert after[i].Some? && after[i].value.filter == g;
    }
    TableIs(after, m);
  }

  // ---- delivery ----

  /** The filter in this slot takes the topic (_is_topic_equals or _is_topic_matched). */
  predicate Serves(slots: Slots, i: nat, topic: string)
    requires i < |slots|
  {
    slots[i].Some? && (topic == slots[i].value.filter || Matches(slots[i].value.filter, 0, topic, 0))
  }

  /** The lowest slot that takes the topic. */
  function Server(slots: Slots, p: nat, topic: string): (r: nat)
    requires p <= |slots|
    ensures p <= r <= |slots| && (r < |slots| ==> Serves(slots, r, topic))
    ensures forall k :: p <= k < r ==> !Serves(slots, k, topic)
    decreases |slots| - p
  {
    if p == |slots| || Serves(slots, p, topic) then p else Server(slots, p + 1, topic)
  }

  function CallsFor(slots: Slots, topic: string, payload: string): seq<Call> {
    var i := Server(slots, 0, topic);
    if i < |slots| then [Call(slots[i].value.fp, payload, slots[i].value.context)] else []
  }

  function FormatSupported(): (fmt: string)
    ensures Supported(fmt) && fmt == PUBLISH_FORMAT
  {
    FormatFacts();
    PUBLISH_FORMAT
  }

  /** A line with three arguments that fit their buffers and a topic that is not empty. */
  predicate IsPublish(data: string) {
    var args := Scan(data, 0, FormatSupported(), 0);
    && |args| == 3 && args[0].Text? && args[2].Text?
    && args[0].text != "" && Unquote(args[0].text, '"') != "" && args[2].text != ""
    && |args[0].text| <= MAX_TOPIC_NAME_LEN && |args[2].text| <= MAX_TOPIC_PAYLOAD_LEN
    && NUL !in args[0].text && NUL !in args[2].text
  }

  function TopicIn(data: string): string
    requires IsPublish(data)
  {
    Unquote(Scan(data, 0, FormatSupported(), 0)[0].text, '"')
  }

  function PayloadIn(data: string): string
    requires IsPublish(data)
  {
    Unquote(Scan(data, 0, FormatSupported(), 0)[2].text, '"')
  }

  /** Copies a text and its NUL into a fresh buffer and strips its quotes there. */
  method StripQuotes(text: string, size: nat) returns (t: string)
    requires text != "" && |text| < size && NUL !in text
    ensures t == Unquote(text, '"')
  {
    var b := new char[size](_ => NUL);
    for i := 0 to |text|
      invariant b[..i] == text[..i] && forall k :: i <= k < size ==> b[k] == NUL
    {
      b[i] := text[i];
    }
    TextOfIs(b[..], text);
    AtStrip(b, '"');
    t := TextOf(b[..]);
  }

  class Subscriber {
    const handlers: array<Option<Handler>>
    var locked: bool
    /** The callbacks run so far. */
    var calls: seq<Call>

    ghost predicate Valid()
      reads this, handlers
    {
      handlers.Length == MAX_SUB_TOPIC && Distinct(handlers[..])
    }

    constructor ()
      ensures Valid() && !locked && calls == [] && Table(handlers[..]) == map[] && fresh(handlers)
    {
      handlers := new Option<Handler>[MAX_SUB_TOPIC](_ => None);
      locked, calls := false, [];
    }

    /** register_sub_topic; while a message is delivered it is refused. */
    method RegisterSubTopic(h: Handler, fp: Option<nat>) returns (rc: Result)
      requires Valid()
      modifies handlers
      ensures Valid()
      ensures locked ==> rc == FAILURE && handlers[..] == old(handlers[..])
      ensures !locked ==> (handlers[..], rc) == Registered(old(handlers[..]), h, fp)
    {
      if locked {
        return FAILURE;
      }
      ghost var slots := handlers[..];
      RegisteredDistinct(slots, h, fp);
      rc := FAILURE;
      var i := 0;
      while i < MAX_SUB_TOPIC && !(handlers[i].Some? && handlers[i].value.filter == h.filter)
        invariant i <= MAX_SUB_TOPIC && SlotOf(slots, 0, h.filter) == SlotOf(slots, i, h.filter)
      {
        assert !Holds(slots, i, h.filter);
        i := i + 1;
      }
      assert i == SlotOf(slots, 0, h.filter) by {
        assert i < MAX_SUB_TOPIC ==> Holds(slots, i, h.filter);
      }
      if fp.None? {
        if i < MAX_SUB_TOPIC {
          handlers[i] := None;
        }
        return SUCCESS;
      }
      if i == MAX_SUB_TOPIC {
        i := 0;
        while i < MAX_SUB_TOPIC && handlers[i].Some?
          invariant i <= MAX_SUB_TOPIC && FreeSlot(slots, 0) == FreeSlot(slots, i)
        {
          i := i + 1;
        }
      }
      if i < MAX_SUB_TOPIC {
        handlers[i] := Some(h.(fp := fp.value));
        rc := SUCCESS;
      } else {
        rc := EXCEED_MAX_TOPICS;
      }
    }

    /** deliver_message: at most one callback runs, that of the lowest slot that takes the topic. */
    method DeliverMessage(data: string) returns (rc: Result)
      requires Valid() && IsPublish(data)
      modifies this
      ensures Valid() && locked == old(locked)
      ensures locked ==> rc == FAILURE && calls == old(calls)
      ensures !locked ==> rc == SUCCESS && calls == old(calls) + CallsFor(handlers[..], TopicIn(data), PayloadIn(data))
      ensures !locked ==>
                && old(calls) <= calls
                && Delivered(handlers[..], TopicIn(data), PayloadIn(data), calls[|old(calls)|..])
    {
      DeliveredExactly(handlers[..], TopicIn(data), PayloadIn(data));
      hide Delivered;
      if locked {
        return FAILURE;
      }
      locked := true;
      var args := AtSscanf(data, FormatSupported());
      var topic := StripQuotes(args[0].text, MAX_TOPIC_NAME_LEN + 1);
      var payload := StripQuotes(args[2].text, MAX_TOPIC_PAYLOAD_LEN + 1);
      ghost var slots := handlers[..];
      var i := 0;
      while i < MAX_SUB_TOPIC
        invariant i <= MAX_SUB_TOPIC && handlers[..] == slots && locked
        invariant calls == old(calls) && Server(slots, 0, topic) == Server(slots, i, topic)
      {
        if handlers[i].Some? {
          var matched := topic == handlers[i].value.filter;
          if !matched {
            matched := IsTopicMatched(handlers[i].value.filter, topic);
          }
          if matched {
            calls := calls + [Call(handlers[i].value.fp, payload, handlers[i].value.context)];
            break;
          }
        }
        i := i + 1;
      }
      locked := false;
      rc := SUCCESS;
    }
  }

  // ---- from the line to the handler ----

  lemma {:induction false} CompactKeeps(t: string)
    ensures |Compact(t)| <= |t| && forall c :: c in Compact(t) ==> c in t
  {
    if t != "" {
      CompactKeeps(t[1..]);
    }
  }

  /**
   * A publish line within the length limits is delivered with its own topic and with its payload
   * minus the white space, whatever it was.
   */
  lemma PublishLineDelivered(topic: string, len: nat, payload: string, tail: string)
    requires topic != "" && NUL !in topic && NUL !in payload
    requires forall k :: 0 <= k < |topic| ==> topic[k] != ',' && topic[k] !in WHITE
    requires forall k :: 0 <= k < |tail| ==> tail[k] in WHITE
    requires |topic| + 2 <= MAX_TOPIC_NAME_LEN && |payload| + 2 <= MAX_TOPIC_PAYLOAD_LEN
    ensures var data := PublishLine(topic, len, payload, tail);
            IsPublish(data) && TopicIn(data) == topic && Sifted(payload, PayloadIn(data))
  {
    hide Scan, PublishLine, Unquote, Compact, IsPublish, TopicIn, PayloadIn, Clamp, Sifted;
    PublishLineParses(topic, len, payload, tail);
    CompactKeeps(payload);
    Scanned(PublishLine(topic, len, payload, tail), topic, Clamp(len), Compact(payload));
  }

  /** A line as it comes from the wire, letter by letter; a payload without white space is handed over as it is. */
  lemma WireLineDelivered(topic: string, len: nat, payload: string)
    requires topic != "" && NUL !in topic && NUL !in payload
    requires forall k :: 0 <= k < |topic| ==>
               topic[k] != ',' && topic[k] !in {' ', '\t', '\n', '\U{0B}', '\U{0C}', '\r'}
    requires |topic| + 2 <= MAX_TOPIC_NAME_LEN && |payload| + 2 <= MAX_TOPIC_PAYLOAD_LEN
    ensures var data := "+TCMQTTRCVPUB:\"" + topic + "\"," + Digits(len) + ",\"" + payload + "\"\r\n";
            && IsPublish(data) && TopicIn(data) == topic && Sifted(payload, PayloadIn(data))
            && ((forall k :: 0 <= k < |payload| ==> payload[k] !in {' ', '\t', '\n', '\U{0B}', '\U{0C}', '\r'}) ==>
                  PayloadIn(data) == payload)
  {
    var data := "+TCMQTTRCVPUB:\"" + topic + "\"," + Digits(len) + ",\"" + payload + "\"\r\n";
    WireSpelled(topic, len, payload);
    PublishLineDelivered(topic, len, payload, "\r\n");
    if forall k :: 0 <= k < |payload| ==> payload[k] !in WHITE {
      hide IsPublish, TopicIn, PayloadIn, PublishLine;
      var at :| SiftedAt(payload, PayloadIn(data), at);
      SiftedOnce(payload, PayloadIn(data), at);
      WhiteOnly(payload, "");
      CompactSame(payload);
    }
  }

  lemma WireSpelled(topic: string, len: nat, payload: string)
    ensures "+TCMQTTRCVPUB:\"" + topic + "\"," + Digits(len) + ",\"" + payload + "\"\r\n" ==
            PublishLine(topic, len, payload, "\r\n")
  {
    hide Digits;
    assert PUBLISH_HEAD + Quoted(topic) == "+TCMQTTRCVPUB:\"" + topic + "\"";
    assert Quoted(payload) + "\r\n" == "\"" + payload + "\"\r\n";
    assert ",\"" == "," + "\"" && "\"," == "\"" + ",";
  }

  lemma Scanned(data: string, topic: string, n: nat, payload: string)
    requires Scan(data, 0, FormatSupported(), 0) == [Text(Quoted(topic)), Number(n), Text(Quoted(payload))]
    requires topic != "" && NUL !in topic && NUL !in payload
    requires |topic| + 2 <= MAX_TOPIC_NAME_LEN && |payload| + 2 <= MAX_TOPIC_PAYLOAD_LEN
    ensures IsPublish(data) && TopicIn(data) == topic && PayloadIn(data) == payload
  {
    hide Scan, Unquote;
    UnquoteQuoted(topic);
    UnquoteQuoted(payload);
  }

  // ---- who is called, by levels ----

  /**
   * The filter is the topic, or by levels, for a well-formed filter, it matches the topic as in section 4.7.1 of
   * MQTT 3.1.1 or in one of the two further ways of the code.
   */
  predicate Fits(filter: string, topic: string) {
    || filter == topic
    || var fl, nl := Levels(filter, 0), Levels(topic, 0);
       if WellFormed(fl) then StandardMatch(fl, nl) || PrefixBeforeHash(fl, nl) || PlusAtTrailingSlash(fl, nl)
       else Matches(filter, 0, topic, 0)
  }

  lemma ServesExactly(slots: Slots, i: nat, topic: string)
    requires i < |slots| && topic != ""
    ensures Serves(slots, i, topic) <==> slots[i].Some? && Fits(slots[i].value.filter, topic)
  {
    if slots[i].Some? && WellFormed(Levels(slots[i].value.filter, 0)) {
      MatcherExactly(slots[i].value.filter, topic);
    }
    hide Levels, WellFormed, StandardMatch, PrefixBeforeHash, PlusAtTrailingSlash, Matches;
  }

  /** The callback of the lowest slot whose filter fits the topic is called, or none if no filter does. */
  ghost predicate Delivered(slots: Slots, topic: string, payload: string, calls: seq<Call>) {
    if forall i :: 0 <= i < |slots| && slots[i].Some? ==> !Fits(slots[i].value.filter, topic) then calls == []
    else
      exists i ::
        && 0 <= i < |slots| && slots[i].Some? && Fits(slots[i].value.filter, topic)
        && (forall j :: 0 <= j < i && slots[j].Some? ==> !Fits(slots[j].value.filter, topic))
        && calls == [Call(slots[i].value.fp, payload, slots[i].value.context)]
  }

  lemma DeliveredExactly(slots: Slots, topic: string, payload: string)
    requires topic != ""
    ensures Delivered(slots, topic, payload, CallsFor(slots, topic, payload))
  {
    hide Fits, Serves;
    var i := Server(slots, 0, topic);
    if i < |slots| {
      ServesExactly(slots, i, topic);
    }
    forall j | 0 <= j < i && slots[j].Some? ensures !Fits(slots[j].value.filter, topic) {
      ServesExactly(slots, j, topic);
    }
  }

  /** Where no filter holds a wildcard, only the slot of that very topic is called. */
  lemma PlainFiltersExact(slots: Slots, topic: string, payload: string, calls: seq<Call>)
    requires topic != "" && Delivered(slots, topic, payload, calls) && Distinct(slots)
    requires forall i :: 0 <= i < |slots| && slots[i].Some? ==> IsLiteral(slots[i].value.filter)
    ensures forall i :: 0 <= i < |slots| && slots[i].Some? && slots[i].value.filter == topic ==>
              calls == [Call(slots[i].value.fp, payload, slots[i].value.context)]
    ensures (forall i :: 0 <= i < |slots| && slots[i].Some? ==> slots[i].value.filter != topic) ==> calls == []
  {
    forall i | 0 <= i < |slots| && slots[i].Some?
      ensures Fits(slots[i].value.filter, topic) <==> slots[i].value.filter == topic
    {
      PlainFits(slots[i].value.filter, topic);
    }
    hide Fits, IsLiteral;
  }

  lemma PlainFits(filter: string, topic: string)
    requires topic != "" && IsLiteral(filter)
    ensures Fits(filter, topic) <==> filter == topic
  {
    ExactWithoutWildcards(filter, topic);
    hide IsLiteral, Matches;
    if WellFormed(Levels(filter, 0)) {
      hide Levels, WellFormed, StandardMatch, PrefixBeforeHash, PlusAtTrailingSlash;
      LiteralReadable(filter, topic);
      MatcherExactly(filter, topic);
    }
  }

  lemma LiteralReadable(filter: string, topic: string)
    requires topic != ""
    ensures Readable(filter, 0, topic)
  {
  }

  /** At most one callback runs: the one of the lowest slot that takes the topic, if any does. */
  lemma OneHandlerRuns(slots: Slots, topic: string, payload: string)
    ensures var calls := CallsFor(slots, topic, payload);
            && |calls| <= 1
            && (calls == [] <==> forall k :: 0 <= k < |slots| ==> !Serves(slots, k, topic))
            && forall k ::
                 (0 <= k < |slots| && Serves(slots, k, topic) &&
                  forall j :: 0 <= j < k ==> !Serves(slots, j, topic)) ==>
                 calls == [Call(slots[k].value.fp, payload, slots[k].value.context)]
  {
    var i := Server(slots, 0, topic);
    assert i < |slots| ==> Serves(slots, i, topic);
    hide Serves;
    forall k | 0 <= k < |slots| && Serves(slots, k, topic) && (forall j :: 0 <= j < k ==> !Serves(slots, j, topic))
      ensures k == i
    {
      assert !(i < k) && !(k < i);
    }
  }

  /** A subscription whose filter matches by section 4.7.1 of MQTT 3.1.1 is never passed over in silence. */
  lemma SubscriptionServed(slots: Slots, i: nat, topic: string, payload: string)
    requires i < |slots| && slots[i].Some? && topic != ""
    requires var f := Levels(slots[i].value.filter, 0); WellFormed(f) && StandardMatch(f, Levels(topic, 0))
    ensures Server(slots, 0, topic) <= i && |CallsFor(slots, topic, payload)| == 1
  {
    MatcherIsComplete(slots[i].value.filter, topic);
    assert Serves(slots, i, topic);
  }
}
