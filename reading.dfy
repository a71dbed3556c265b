/** The "latest reading" record of the dashboard's session and the update
    that the MQTT message callback `on_message` applies to it
    (app.py:18-25 and app.py:37-56). */
module Reading {

  import opened Wrappers
  import opened PyValues

  const Temp := "temp"
  const Hum := "hum"
  const Alarm := "alarm"

  /** The three keys of `latest_data`. */
  const Fields: set<string> := {Temp, Hum, Alarm}

  /** The placeholder every field shows until a message arrives. */
  const Connecting := "Łączę..."

  /** What `last_update_time` shows before the first message. */
  const NoUpdateYet := "N/A"

  /** The session record: `latest_data`, `last_update_time`, `mqtt_error`. */
  datatype State = State(latest: map<string, Value>, lastUpdate: string, error: Option<string>)

  /** The state `latest_data` must be in for the callback's lookups
      `latest_data["temp"]` etc. never to raise `KeyError`. */
  predicate HasFields(s: State) {
    Fields <= s.latest.Keys
  }

  /** The record a new session starts with (app.py:18-25). */
  function Initial(): (s: State)
    ensures s.latest.Keys == Fields
    ensures forall k :: k in Fields ==> s.latest[k] == Str(Connecting)
    ensures s.lastUpdate == NoUpdateYet && s.error == None
  {
    State(map[Temp := Str(Connecting), Hum := Str(Connecting), Alarm := Str(Connecting)],
          NoUpdateYet, None)
  }

  /** The abstract outcome of `msg.payload.decode('utf-8')` followed by
      `json.loads`. Both library steps are abstracted: only whether they
      failed, and the value they produced, matter here. */
  datatype Decoded = BadUtf8 | BadJson | Json(value: Value)

  /** The object the callback merges from, if any. A JSON value that is not
      an object has no `.get`, so the first lookup raises `AttributeError`
      before anything is written, and the exception is swallowed. */
  function ObjectOf(d: Decoded): Option<map<string, Value>> {
    if d.Json? && d.value.Obj? then Some(d.value.fields) else None
  }

  /** Python's `dict.get(key, default)`: presence decides, so a present
      `null` is returned as is. */
  function DictGet(m: map<string, Value>, key: string, default: Value): Value {
    if key in m then m[key] else default
  }

  /** The three successive in-place writes of app.py:44-46. */
  function Merge(latest: map<string, Value>, obj: map<string, Value>): (r: map<string, Value>)
    requires Fields <= latest.Keys
    ensures r.Keys == latest.Keys
    ensures forall k :: k in Fields ==> r[k] == (if k in obj then obj[k] else latest[k])
    ensures forall k :: k in latest && k !in Fields ==> r[k] == latest[k]
  {
    var afterTemp := latest[Temp := DictGet(obj, Temp, latest[Temp])];
    var afterHum := afterTemp[Hum := DictGet(obj, Hum, afterTemp[Hum])];
    afterHum[Alarm := DictGet(obj, Alarm, afterHum[Alarm])]
  }

  /** One invocation of `on_message` with a payload that decoded to `d`,
      at a moment the clock formats as `now`. */
  function Receive(s: State, d: Decoded, now: string): (r: State)
    requires HasFields(s)
    ensures r.latest.Keys == s.latest.Keys && r.error == s.error
    ensures ObjectOf(d).None? ==> r == s
    ensures ObjectOf(d).Some? ==> r.lastUpdate == now
    ensures forall k :: k in s.latest && k !in Fields ==> r.latest[k] == s.latest[k]
    ensures forall k :: k in Fields ==>
      r.latest[k] == (if ObjectOf(d).Some? && k in ObjectOf(d).value then ObjectOf(d).value[k] else s.latest[k])
  {
    match ObjectOf(d)
    case None => s
    case Some(obj) => s.(latest := Merge(s.latest, obj), lastUpdate := now)
  }

  /** Merging the same object a second time changes nothing. */
  lemma MergeIdempotent(latest: map<string, Value>, obj: map<string, Value>)
    requires Fields <= latest.Keys
    ensures Merge(Merge(latest, obj), obj) == Merge(latest, obj)
  {
  }

  /** Only the keys `temp`, `hum` and `alarm` of a payload have any effect:
      two objects that agree on those keys give the same record. */
  lemma MergeIgnoresOtherKeys(latest: map<string, Value>, obj1: map<string, Value>, obj2: map<string, Value>)
    requires Fields <= latest.Keys
    requires forall k :: k in Fields ==> (k in obj1 <==> k in obj2)
    requires forall k :: k in Fields && k in obj1 ==> obj1[k] == obj2[k]
    ensures Merge(latest, obj1) == Merge(latest, obj2)
  {
  }

  /** One message delivered by the network loop. */
  datatype Message = Message(payload: Decoded, receivedAt: string)

  /** The messages of `msgs` applied in delivery order. */
  function ReceiveAll(s: State, msgs: seq<Message>): (r: State)
    requires HasFields(s)
    ensures r.latest.Keys == s.latest.Keys && r.error == s.error
    decreases |msgs|
  {
    if msgs == [] then s
    else ReceiveAll(Receive(s, msgs[0].payload, msgs[0].receivedAt), msgs[1..])
  }

  /** Reference definition, read from the newest message backwards: the value
      of `key` is the one carried by the newest decoded object holding it,
      or `default` if there is none. */
  function LastValue(msgs: seq<Message>, key: string, default: Value): Value
    decreases |msgs|
  {
    if msgs == [] then default
    else
      var obj := ObjectOf(msgs[|msgs| - 1].payload);
      if obj.Some? && key in obj.value then obj.value[key]
      else LastValue(msgs[..|msgs| - 1], key, default)
  }

  /** Reference definition: the time of the newest message that decoded to
      an object, or `default`. */
  function LastUpdateTime(msgs: seq<Message>, default: string): string
    decreases |msgs|
  {
    if msgs == [] then default
    else if ObjectOf(msgs[|msgs| - 1].payload).Some? then msgs[|msgs| - 1].receivedAt
    else LastUpdateTime(msgs[..|msgs| - 1], default)
  }

  /** The messages that decoded to an object, in order. */
  function Accepted(msgs: seq<Message>): (r: seq<Message>)
    ensures |r| <= |msgs|
    ensures forall i :: 0 <= i < |r| ==> ObjectOf(r[i].payload).Some? && r[i] in msgs
    ensures forall i :: 0 <= i < |msgs| && ObjectOf(msgs[i].payload).Some? ==> msgs[i] in r
    decreases |msgs|
  {
    if msgs == [] then []
    else if ObjectOf(msgs[0].payload).Some? then [msgs[0]] + Accepted(msgs[1..])
    else Accepted(msgs[1..])
  }

  /** Applying one more message after a batch is the same as the batch with
      that message at its end. */
  lemma {:induction false} ReceiveAllSnoc(s: State, msgs: seq<Message>, m: Message)
    requires HasFields(s)
    ensures HasFields(ReceiveAll(s, msgs))
    ensures ReceiveAll(s, msgs + [m]) == Receive(ReceiveAll(s, msgs), m.payload, m.receivedAt)
    decreases |msgs|
  {
    if msgs == [] {
      assert [] + [m] == [m];
    } else {
      var s' := Receive(s, msgs[0].payload, msgs[0].receivedAt);
      assert (msgs + [m])[1..] == msgs[1..] + [m];
      ReceiveAllSnoc(s', msgs[1..], m);
    }
  }

  /** Merge law over any sequence of deliveries: every field holds the value
      of the newest decoded payload that carried its key (a present `null`
      included), and keeps its previous value if no payload carried it;
      `last_update_time` is the time of the newest accepted message;
      `mqtt_error` is never touched. */
  lemma {:induction false} ReceiveAllIsLastWriterWins(s: State, msgs: seq<Message>)
    requires HasFields(s)
    ensures var r := ReceiveAll(s, msgs);
      && (forall k :: k in Fields ==> r.latest[k] == LastValue(msgs, k, s.latest[k]))
      && (forall k :: k in s.latest && k !in Fields ==> r.latest[k] == s.latest[k])
      && r.lastUpdate == LastUpdateTime(msgs, s.lastUpdate)
      && r.error == s.error
    decreases |msgs|
  {
    if msgs != [] {
      var init, m := msgs[..|msgs| - 1], msgs[|msgs| - 1];
      assert msgs == init + [m];
      ReceiveAllSnoc(s, init, m);
      ReceiveAllIsLastWriterWins(s, init);
    }
  }

  /** Messages that failed to decode leave no trace: the record is the one
      the accepted messages alone produce. */
  lemma {:induction false} RejectedMessagesLeaveNoTrace(s: State, msgs: seq<Message>)
    requires HasFields(s)
    ensures ReceiveAll(s, msgs) == ReceiveAll(s, Accepted(msgs))
    decreases |msgs|
  {
    if msgs != [] {
      var s' := Receive(s, msgs[0].payload, msgs[0].receivedAt);
      RejectedMessagesLeaveNoTrace(s', msgs[1..]);
      if ObjectOf(msgs[0].payload).Some? {
        var acc := [msgs[0]] + Accepted(msgs[1..]);
        assert acc[0] == msgs[0] && acc[1..] == Accepted(msgs[1..]);
      }
    }
  }

  /** A message delivered twice in a row (at-least-once delivery) leaves
      the same `latest_data` as delivering it once. */
  lemma DuplicateDeliveryIsHarmless(s: State, msgs: seq<Message>, m: Message, later: string)
    requires HasFields(s)
    ensures HasFields(ReceiveAll(s, msgs + [m]))
    ensures ReceiveAll(s, msgs + [m, m.(receivedAt := later)]).latest == ReceiveAll(s, msgs + [m]).latest
  {
    ReceiveAllSnoc(s, msgs, m);
    ReceiveAllSnoc(s, msgs + [m], m.(receivedAt := later));
    assert msgs + [m] + [m.(receivedAt := later)] == msgs + [m, m.(receivedAt := later)];
    var t := ReceiveAll(s, msgs);
    if ObjectOf(m.payload).Some? {
      MergeIdempotent(t.latest, ObjectOf(m.payload).value);
    }
  }
}
