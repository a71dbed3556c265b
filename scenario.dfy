/** The dashboard's behaviour on the publisher's message sequence: the
    placeholder before any message, then a full reading, then a reading that
    only carries the temperature. */
module Scenario {

  import opened Wrappers
  import opened PyValues
  import opened Reading
  import opened AlarmStatus

  lemma PartialReadingKeepsOtherFields()
    ensures Classify(Initial().latest[Alarm]) == Info(Str(Connecting))
    ensures var first := Message(Json(Obj(map[Temp := Float(21.5), Hum := Int(40), Alarm := Bool(false)])), "12:00:00");
            var second := Message(Json(Obj(map[Temp := Float(30.0)])), "12:00:05");
            var r := ReceiveAll(Initial(), [first, second]);
            && r.latest[Temp] == Float(30.0)
            && r.latest[Hum] == Int(40)
            && Classify(r.latest[Alarm]) == Normal
            && r.lastUpdate == "12:00:05"
            && r.error == None
  {
    var first := Message(Json(Obj(map[Temp := Float(21.5), Hum := Int(40), Alarm := Bool(false)])), "12:00:00");
    var second := Message(Json(Obj(map[Temp := Float(30.0)])), "12:00:05");
    ReceiveAllIsLastWriterWins(Initial(), [first, second]);
    assert [first, second][..1] == [first];
    assert Hum != Temp && Alarm != Temp by { assert Hum[0] != Temp[0] && Alarm[0] != Temp[0]; }
    assert LastValue([first, second], Hum, Str(Connecting)) == LastValue([first], Hum, Str(Connecting));
    assert LastValue([first, second], Alarm, Str(Connecting)) == LastValue([first], Alarm, Str(Connecting));
  }
}
