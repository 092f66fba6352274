/** The outbound side of a profile: matrixToJSON's result object (six
    temperatures, the activation flag and seven block lists) and the
    fourteen (subtopic, payload) pairs a save publishes from it. */
module Profile {
  import opened Codec
  import opened Values
  import opened Topics

  /** The object matrixToJSON returns; days[d] is the value of key
      "Day" + (d + 1). */
  datatype ProfileData = ProfileData(
    temp1: Float, temp2: Float, temp3: Float, temp4: Float,
    tempAway: Float, tempHoliday: Float, activated: bool,
    days: seq<seq<Block>>)

  /** The days of a week, each encoded. */
  function EncodeWeek(matrix: seq<seq<int>>): (days: seq<seq<Block>>)
    requires |matrix| >= 7
    ensures |days| == 7
    ensures forall d :: 0 <= d < 7 ==> days[d] == EncodeDay(matrix[d])
  {
    seq(7, d requires 0 <= d < 7 => EncodeDay(matrix[d]))
  }

  /** matrixToJSON: copy the scalar fields and encode the first seven
      rows of the matrix. */
  method MatrixToJSON(matrix: seq<seq<int>>, temps: seq<Float>, tempAway: Float, tempHoliday: Float, activated: bool)
    returns (result: ProfileData)
    requires |matrix| >= 7 && |temps| >= 4
    ensures result == ProfileData(temps[0], temps[1], temps[2], temps[3], tempAway, tempHoliday, activated, EncodeWeek(matrix))
  {
    var days: seq<seq<Block>> := [];
    var day := 0;
    while day < 7
      invariant 0 <= day <= 7
      invariant days == EncodeWeek(matrix)[..day]
    {
      var timeBlocks := EncodeDayBlocks(matrix[day]);
      days := days + [timeBlocks];
      day := day + 1;
    }
    result := ProfileData(temps[0], temps[1], temps[2], temps[3], tempAway, tempHoliday, activated, days);
  }

  /** The publish calls of a save, in their fixed order: the six
      temperatures and the flag, then Day1..Day7. Each payload is given as
      the receiver parses it back. */
  function PublishMessages(data: ProfileData): (r: seq<(string, Value)>)
    requires |data.days| == 7
    ensures |r| == |Subtopics|
    ensures r[6] == ("Activated", Bool(data.activated))
    ensures forall i :: 7 <= i < 14 ==> r[i].1.Arr?
  {
    [ ("Temp1", FloatJson(data.temp1)),
      ("Temp2", FloatJson(data.temp2)),
      ("Temp3", FloatJson(data.temp3)),
      ("Temp4", FloatJson(data.temp4)),
      ("TempAway", FloatJson(data.tempAway)),
      ("TempHoliday", FloatJson(data.tempHoliday)),
      ("Activated", Bool(data.activated)) ]
    + seq(7, i requires 0 <= i < 7 => ("Day" + [Util.DigitChar(i + 1)], Arr(data.days[i])))
  }

  /** A save publishes on exactly the subscribed subtopics, in subscription
      order, and each Day payload is that day's block list. */
  lemma PublishOrder(data: ProfileData)
    requires |data.days| == 7
    ensures var msgs := PublishMessages(data);
      && |msgs| == |Subtopics|
      && (forall i :: 0 <= i < |msgs| ==> msgs[i].0 == Subtopics[i])
      && (forall d :: 0 <= d < 7 ==> msgs[7 + d].1 == Arr(data.days[d]))
  {
    var msgs := PublishMessages(data);
    assert msgs[7].0 == "Day1";
    assert msgs[8].0 == "Day2";
    assert msgs[9].0 == "Day3";
    assert msgs[10].0 == "Day4";
    assert msgs[11].0 == "Day5";
    assert msgs[12].0 == "Day6";
    assert msgs[13].0 == "Day7";
  }
}
