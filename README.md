# Latest-reading store of the MQTT temperature dashboard

The dashboard (`app.py`) subscribes to one MQTT topic and shows the newest
temperature, humidity and alarm value sent by an ESP32. This project models
the part of it that holds state: the session record `latest_data` /
`last_update_time` / `mqtt_error`, the update that the message callback
`on_message` applies to it, the classification of the stored alarm value for
display, and the credential check and error bookkeeping of `get_mqtt_client`.

Modules:

- `PyValues` (values.dfy): Python values as `json.loads` yields them, Python
  truthiness, `all`, and the numeric comparison behind `== True` / `== False`.
- `Reading` (reading.dfy): the session record, the initial value, the merge
  of app.py:44-46, one callback (`Receive`) and a sequence of callbacks in
  delivery order (`ReceiveAll`), with the reference definitions `LastValue`
  and `LastUpdateTime` it is proved against.
- `AlarmStatus` (alarm.dfy): the three-way alarm display.
- `Connection` (connection.dfy): the credential check and the outcome of one
  `get_mqtt_client` call, with the broker abstracted into a parameter.
- `Session` (session.dfy): `st.session_state` as a class whose methods update
  its fields in place, each tied to the pure model above.
- `Scenario` (scenario.dfy): a full reading followed by a temperature-only one.

Abstractions: UTF-8 decoding and `json.loads` become a `Decoded` outcome
(`BadUtf8`, `BadJson` or a decoded value); the clock string of
`time.strftime("%H:%M:%S")` is a parameter; whether `connect`/`loop_start`
raised is a `ConnectOutcome` parameter; the environment is a `Config` value.

Points where the code's behaviour is easy to misread:
- the fields start as the placeholder string `"Łączę..."`, so there is no
  separate "never reported" state;
- a present key overwrites whatever its value is (a `null`, a string, a
  list): no type check is applied to the payload's values;
- the stored alarm is the raw payload value; it is only classified for
  display, and Python's `==` makes `1`, `1.0` (and `0`, `0.0`) count as
  `True` (and `False`);
- a JSON value that is not an object is dropped like a decode error;
- an empty string counts as a missing credential, and port `0` as unset;
- after a connection exception the client is still returned, with its
  network loop never started.

## Model

| member | source | states |
|---|---|---|
| `Reading.Initial` | app.py:18-25 | the key set is exactly `temp`, `hum`, `alarm`, each holds the placeholder `"Łączę..."`, the last update is `"N/A"` and there is no error |
| `Reading.Merge` | app.py:44-46 | the key set is unchanged; each of the three keys takes the payload's value when the key is present (presence decides, so `null` overwrites) and keeps its previous value otherwise; any other stored key is untouched |
| `Reading.Receive` | app.py:37-56 | a payload that is not valid UTF-8, not valid JSON, or not a JSON object leaves the whole record unchanged; an object updates the three fields by the merge law, keeps every other stored key and sets the last update time to the clock value; the error field is never touched. Whether the payload is an object to merge is decided by the helper `ObjectOf`: any other JSON value has no `.get`, so the first lookup raises and the exception is swallowed |
| `Reading.ReceiveAll` | app.py:37-56 | successive `on_message` calls applied in delivery order keep the key set of `latest_data` and never change `mqtt_error` |
| `Reading.MergeIdempotent` | app.py:44-46 | merging the same object twice gives the same `latest_data` as merging it once |
| `Reading.MergeIgnoresOtherKeys` | app.py:44-46 | two payload objects that agree on `temp`, `hum` and `alarm` (presence and value) give the same record, so all other keys have no effect |
| `Reading.ReceiveAllIsLastWriterWins` | app.py:37-56 | after any sequence of deliveries each field holds the value of the newest decoded object carrying its key, or its earlier value if none did; stored keys other than the three are kept; the last update time is that of the newest accepted message; the error is unchanged |
| `Reading.RejectedMessagesLeaveNoTrace` | app.py:38-56 | dropping every message that failed to decode to an object from a sequence gives exactly the same record |
| `Reading.DuplicateDeliveryIsHarmless` | app.py:44-46 | a message delivered twice in a row leaves the same `latest_data` as delivering it once |
| `PyValues.FromOptional` | app.py:11-14 | the `None`-or-string that `os.getenv` returns becomes a value that is truthy exactly when the variable is set and non-empty |
| `PyValues.All` | app.py:63 | Python `all` is true exactly when every element of the list is truthy |
| `Connection.CredentialsComplete` | app.py:63 | the check passes exactly when username, password and broker are set and non-empty and the port is non-zero |
| `Connection.GetMqttClient` | app.py:60-83 | no client exactly when the credentials are incomplete, and then the credentials error is set; otherwise the configured client (broker, port, user, password, keep-alive 60) is returned, the error is cleared exactly when the connection attempt did not raise and otherwise holds the connection message, and the loop is started exactly on success; every error set is non-empty |
| `Connection.ConnectError` | app.py:81 | the connection error message starts with its fixed prefix, carries the exception's text right after it, and is never the credentials error |
| `AlarmStatus.Classify` | app.py:100-106 | the alarm outcome exactly when the value equals `True` under Python `==`, the normal outcome exactly when it equals `False`, and otherwise the info outcome carrying the raw value |
| `Session.SessionState.constructor` | app.py:18-25 | a new session's record is the initial record and its keys are the three reading keys |
| `Session.SessionState.OnMessage` | app.py:37-56 | the fields are updated in place so that the new record is what the merge model gives for the old record, and the key set stays exactly the three reading keys |
| `Session.SessionState.GetMqttClient` | app.py:60-83 | returns the client and sets `mqtt_error` as the connection model says, leaving `latest_data` and `last_update_time` unchanged |
| `Scenario.PartialReadingKeepsOtherFields` | app.py:44-47 | before any message the alarm column shows the placeholder as info; after a full reading and then a temperature-only reading, the temperature is the new one, the humidity and the normal alarm are kept and the time is the second message's |

## Left out

- Rendering: `st.metric`, `st.error`/`st.success`/`st.info`, the columns, the markdown, the refresh button and `st.rerun` (app.py:88-127) are UI, not state.
- The paho-mqtt client: construction, `username_pw_set`, `tls_set`, `connect`, `loop_start` and the subscribe in `on_connect` (app.py:28-35, 61-76) are network I/O; only whether the `try` block raised is modelled.
- An exception from `tls_set` (outside the `try`) would propagate out of `get_mqtt_client`; the model does not include it.
- UTF-8 decoding and `json.loads` are library behaviour; only their outcome is modelled. A decoded float is modelled as a real: the rounding of decimal literals to IEEE doubles is not modelled, the model admits reals no double can hold, and JSON `NaN` and `Infinity` are not representable.
- The thread handoff between the MQTT network loop and `st.session_state`, including whether the session is reachable from that thread, is concurrency; the model applies callbacks one at a time in delivery order.
- `Session.SessionState.OnMessage`: the order of the writes inside one callback (the three fields before the time) is in the body, but no contract states it, since in a sequential model no reader observes a state between two writes.
- The `'latest_data' not in st.session_state` guard on later reruns: the model creates the record once, in the constructor.
- The `st.cache_resource` memoisation of `get_mqtt_client` (app.py:59) is framework caching; each call is modelled as a fresh call.
- Reading the environment and `int(os.getenv("MQTT_PORT", 8883))` (app.py:11-14) are I/O; the configuration is a parameter, with the port already converted.
- `time.strftime` is the wall clock (a parameter) and `print` is logging.
- The 18-25 °C range at app.py:118 is descriptive text; no code checks it, so no threshold is modelled.
