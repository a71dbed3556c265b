/** The credential check and the connection attempt of `get_mqtt_client`
    (app.py:60-83). The broker itself is abstracted: a connection attempt is
    a parameter saying whether `connect`/`loop_start` raised. */
module Connection {

  import opened Wrappers
  import opened PyValues

  /** The keep-alive interval passed to `connect`, in seconds. */
  const KeepAliveSeconds := 60

  /** The environment as the module reads it (app.py:11-14): three optional
      strings and the port already converted by `int(...)`. */
  datatype Config = Config(username: Option<string>, password: Option<string>,
                           broker: Option<string>, port: int)

  /** The client `get_mqtt_client` hands back, with what was configured on it
      and whether its background network loop was started. */
  datatype Client = Client(broker: string, port: int, username: string, password: string,
                           keepAlive: int, loopStarted: bool)

  /** How the `try` block of app.py:74-82 ended: normally, or with an
      exception whose text is `reason`. */
  datatype ConnectOutcome = ConnectOk | ConnectRaised(reason: string)

  /** What one call leaves behind: the value returned and `mqtt_error`. */
  datatype Setup = Setup(client: Option<Client>, error: Option<string>)

  const CredentialsError :=
    "Brak wszystkich danych uwierzytelniających MQTT. Upewnij się, że są ustawione w Streamlit Secrets."

  const ConnectErrorPrefix := "Nie udało się połączyć z brokerem MQTT: "

  /** The connection error shows the exception's text, and never reads as
      the credentials error. */
  function ConnectError(reason: string): (msg: string)
    ensures |msg| > |ConnectErrorPrefix| + |reason|
    ensures msg[..|ConnectErrorPrefix|] == ConnectErrorPrefix
    ensures msg[|ConnectErrorPrefix|..|ConnectErrorPrefix| + |reason|] == reason
    ensures msg != CredentialsError
  {
    ConnectErrorPrefix + reason + ". Sprawdź konfigurację."
  }

  /** `all([MQTT_USERNAME, MQTT_PASSWORD, MQTT_BROKER, MQTT_PORT])`: Python
      truthiness, so an empty string counts as missing and port 0 as unset. */
  function CredentialsComplete(c: Config): (r: bool)
    ensures r <==> && c.username.Some? && c.username.value != ""
                   && c.password.Some? && c.password.value != ""
                   && c.broker.Some? && c.broker.value != ""
                   && c.port != 0
  {
    var vs := [FromOptional(c.username), FromOptional(c.password), FromOptional(c.broker), Int(c.port)];
    assert Truthy(vs[0]) && Truthy(vs[1]) && Truthy(vs[2]) && Truthy(vs[3]) ==> All(vs);
    All(vs)
  }

  /** One call of `get_mqtt_client`. With incomplete credentials nothing is
      attempted, the credentials error is recorded and `None` is returned.
      Otherwise the configured client is returned whatever the outcome: a
      normal end clears the error and leaves the loop running, an exception
      records the connection error and the loop was never started. */
  function GetMqttClient(c: Config, outcome: ConnectOutcome): (r: Setup)
    ensures r.client.None? <==> !CredentialsComplete(c)
    ensures !CredentialsComplete(c) ==> r.error == Some(CredentialsError)
    ensures r.error.None? <==> CredentialsComplete(c) && outcome.ConnectOk?
    ensures CredentialsComplete(c) && outcome.ConnectRaised? ==> r.error == Some(ConnectError(outcome.reason))
    ensures r.client.Some? ==> && r.client.value.broker == c.broker.value
                               && r.client.value.port == c.port
                               && r.client.value.username == c.username.value
                               && r.client.value.password == c.password.value
                               && r.client.value.keepAlive == KeepAliveSeconds
                               && (r.client.value.loopStarted <==> outcome.ConnectOk?)
    ensures r.error.Some? ==> r.error.value != ""
  {
    if !CredentialsComplete(c) then
      Setup(None, Some(CredentialsError))
    else
      var ok := outcome.ConnectOk?;
      var client := Client(c.broker.value, c.port, c.username.value, c.password.value, KeepAliveSeconds, ok);
      if ok then Setup(Some(client), None)
      else Setup(Some(client), Some(ConnectError(outcome.reason)))
  }
}
