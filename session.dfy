/** `st.session_state` as the dashboard uses it: an object whose fields the
    message callback and the client setup overwrite in place. */
module Session {

  import opened Wrappers
  import opened PyValues
  import opened Reading
  import Connection

  class SessionState {
    var latestData: map<string, Value>
    var lastUpdateTime: string
    var mqttError: Option<string>

    /** `latest_data` always holds exactly the three reading keys. */
    predicate Valid()
      reads this
    {
      latestData.Keys == Fields
    }

    /** The record the pure model of `on_message` works on. */
    function Snapshot(): State
      reads this
    {
      State(latestData, lastUpdateTime, mqttError)
    }

    /** First run of a session (app.py:18-25). */
    constructor ()
      ensures Valid()
      ensures Snapshot() == Initial()
    {
      latestData := Initial().latest;
      lastUpdateTime := Initial().lastUpdate;
      mqttError := Initial().error;
    }

    /** `on_message` (app.py:37-56): the dictionary is updated field by field
        and the time is written last; a payload that does not decode to an
        object raises before the first write and changes nothing. */
    method OnMessage(payload: Decoded, now: string)
      requires Valid()
      modifies this
      ensures Valid()
      ensures Snapshot() == Receive(old(Snapshot()), payload, now)
    {
      match ObjectOf(payload)
      case None =>
      case Some(data) =>
        latestData := latestData[Temp := DictGet(data, Temp, latestData[Temp])];
        latestData := latestData[Hum := DictGet(data, Hum, latestData[Hum])];
        latestData := latestData[Alarm := DictGet(data, Alarm, latestData[Alarm])];
        lastUpdateTime := now;
    }

    /** `get_mqtt_client` (app.py:60-83) as far as the session sees it: it
        writes `mqtt_error` on every path and touches nothing else. */
    method GetMqttClient(c: Connection.Config, outcome: Connection.ConnectOutcome)
      returns (client: Option<Connection.Client>)
      requires Valid()
      modifies this
      ensures Valid()
      ensures client == Connection.GetMqttClient(c, outcome).client
      ensures mqttError == Connection.GetMqttClient(c, outcome).error
      ensures latestData == old(latestData) && lastUpdateTime == old(lastUpdateTime)
    {
      if !Connection.CredentialsComplete(c) {
        mqttError := Some(Connection.CredentialsError);
        return None;
      }
      client := Some(Connection.Client(c.broker.value, c.port, c.username.value, c.password.value,
                                       Connection.KeepAliveSeconds, outcome.ConnectOk?));
      match outcome
      case ConnectOk =>
        mqttError := None;
      case ConnectRaised(reason) =>
        mqttError := Some(Connection.ConnectError(reason));
    }
  }
}
