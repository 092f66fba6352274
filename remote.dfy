/** What an inbound field update does to a profile's schedule state, as
    functions: the state the message handler must leave behind, and the
    laws that follow (each field is updated on its own, the last write to
    a field wins, and receiving back one's own save changes nothing). */
module Remote {
  import opened Util
  import opened Clock
  import opened Codec
  import opened Values
  import opened Topics
  import opened Profile

  /** A week: seven rows of 96 slots. */
  predicate IsWeek(m: seq<seq<int>>)
  {
    |m| == 7 && forall d :: 0 <= d < 7 ==> |m[d]| == SlotsPerDay
  }

  /** The schedule state a card owns: the four setpoints, the away and
      holiday temperatures, the activation flag and the matrix. */
  datatype Schedule = Schedule(
    temp1: Float, temp2: Float, temp3: Float, temp4: Float,
    away: Float, holiday: Float, active: bool,
    matrix: seq<seq<int>>)

  /** updateMatrix's new matrix: row k is replaced by the decoded day,
      every other row is kept as it is. */
  function ReplaceRow(m: seq<seq<int>>, k: int, row: seq<int>): (r: seq<seq<int>>)
    ensures |r| == |m|
    ensures 0 <= k < |m| ==> r[k] == row
    ensures forall i :: 0 <= i < |m| && i != k ==> r[i] == m[i]
  {
    seq(|m|, i requires 0 <= i < |m| => if i == k then row else m[i])
  }

  /** The new day a Day payload yields: the decoded blocks when the value
      is an array, otherwise nothing. */
  function DayUpdate(v: Value): (r: Option<seq<int>>)
    ensures r.Some? <==> v.Arr?
    ensures r.Some? ==> |r.value| == SlotsPerDay
  {
    if v.Arr? then Some(Decode(v.blocks)) else None
  }

  /** A scalar field set to an already coerced value: temperatures take
      t, the activation flag takes b. */
  function SetScalar(s: Schedule, f: Field, t: Float, b: bool): (r: Schedule)
    ensures r.temp1 == if f == Temp(1) then t else s.temp1
    ensures r.temp2 == if f == Temp(2) then t else s.temp2
    ensures r.temp3 == if f == Temp(3) then t else s.temp3
    ensures r.temp4 == if f == Temp(4) then t else s.temp4
    ensures r.away == if f == TempAway then t else s.away
    ensures r.holiday == if f == TempHoliday then t else s.holiday
    ensures r.active == if f == Activated then b else s.active
    ensures r.matrix == s.matrix
  {
    match f
    case Temp(n) =>
      if n == 1 then s.(temp1 := t)
      else if n == 2 then s.(temp2 := t)
      else if n == 3 then s.(temp3 := t)
      else if n == 4 then s.(temp4 := t)
      else s
    case TempAway => s.(away := t)
    case TempHoliday => s.(holiday := t)
    case Activated => s.(active := b)
    case Day(_) => s
  }

  /** The state after field f receives payload v: temperatures take
      parseFloat of v, the flag the true/'true'/1 test, a day its decoded
      blocks. */
  function ApplyRemote(s: Schedule, f: Field, v: Value): (r: Schedule)
    ensures |r.matrix| == |s.matrix|
    ensures !f.Day? ==> r.matrix == s.matrix
  {
    match f
    case Day(k) =>
      (match DayUpdate(v)
       case Some(row) => s.(matrix := ReplaceRow(s.matrix, k, row))
       case None => s)
    case _ => SetScalar(s, f, ParseFloat(v), IsActivated(v))
  }

  /** The state after a message arrives on topic `incoming`. */
  function Receive(s: Schedule, topic: string, profile: string, incoming: string, v: Value): (r: Schedule)
    ensures Route(topic, profile, incoming).None? ==> r == s
    ensures |r.matrix| == |s.matrix|
  {
    match Route(topic, profile, incoming)
    case None => s
    case Some(f) => ApplyRemote(s, f, v)
  }

  // ---------------------------------------------------------------------
  // Frame laws
  // ---------------------------------------------------------------------

  /** A Day field with an array payload replaces exactly its own row, with
      the decoded day, and touches nothing else; any other payload leaves
      the state as it was. */
  lemma DayFrame(s: Schedule, k: int, v: Value)
    requires IsWeek(s.matrix) && 0 <= k < 7
    ensures var s' := ApplyRemote(s, Day(k), v);
      && IsWeek(s'.matrix)
      && (v.Arr? ==> s'.matrix[k] == Decode(v.blocks))
      && (forall d :: 0 <= d < 7 && d != k ==> s'.matrix[d] == s.matrix[d])
      && s'.(matrix := s.matrix) == s
      && (!v.Arr? ==> s' == s)
  {
    var s' := ApplyRemote(s, Day(k), v);
    if v.Arr? {
      DecodeLength(v.blocks);
    }
  }

  /** Activated becomes true exactly for true, 'true' and 1, and nothing
      else changes. */
  lemma ActivatedFrame(s: Schedule, v: Value)
    ensures var s' := ApplyRemote(s, Activated, v);
      && (s'.active <==> (v == Bool(true) || v == Str("true") || v == Num(1.0)))
      && s'.(active := s.active) == s
  {
  }

  /** Each temperature field sets only its own temperature, to
      parseFloat of the payload. */
  lemma TemperatureFrame(s: Schedule, f: Field, v: Value)
    requires f.Temp? || f.TempAway? || f.TempHoliday?
    requires ValidField(f)
    ensures var s' := ApplyRemote(s, f, v);
      && s'.active == s.active && s'.matrix == s.matrix
      && (f == Temp(1) ==> s' == s.(temp1 := ParseFloat(v)))
      && (f == Temp(2) ==> s' == s.(temp2 := ParseFloat(v)))
      && (f == Temp(3) ==> s' == s.(temp3 := ParseFloat(v)))
      && (f == Temp(4) ==> s' == s.(temp4 := ParseFloat(v)))
      && (f == TempAway ==> s' == s.(away := ParseFloat(v)))
      && (f == TempHoliday ==> s' == s.(holiday := ParseFloat(v)))
  {
  }

  /** Topics outside the prefix and unknown subtopics change nothing. */
  lemma UnroutedIgnored(s: Schedule, topic: string, profile: string, incoming: string, v: Value)
    requires Route(topic, profile, incoming).None?
    ensures Receive(s, topic, profile, incoming, v) == s
  {
  }

  // ---------------------------------------------------------------------
  // Ordering laws
  // ---------------------------------------------------------------------

  /** Last write wins: a second update of the same field overrides the
      first (for a Day field, when the second payload is an array). */
  lemma LastWriteWins(s: Schedule, f: Field, v1: Value, v2: Value)
    requires ValidField(f)
    requires f.Day? ==> v2.Arr?
    ensures ApplyRemote(ApplyRemote(s, f, v1), f, v2) == ApplyRemote(s, f, v2)
  {
    if f.Day? {
      var m1 := ApplyRemote(s, f, v1).matrix;
      var row := Decode(v2.blocks);
      assert ReplaceRow(m1, f.index, row) == ReplaceRow(s.matrix, f.index, row);
    }
  }

  /** Updates of different fields are independent: their order does not
      matter. */
  lemma DistinctFieldsCommute(s: Schedule, f1: Field, v1: Value, f2: Field, v2: Value)
    requires ValidField(f1) && ValidField(f2) && f1 != f2
    ensures ApplyRemote(ApplyRemote(s, f1, v1), f2, v2) == ApplyRemote(ApplyRemote(s, f2, v2), f1, v1)
  {
    if f1.Day? && f2.Day? {
      if v1.Arr? && v2.Arr? {
        ReplaceRowsCommute(s.matrix, f1.index, Decode(v1.blocks), f2.index, Decode(v2.blocks));
      }
    } else if f1.Day? {
      DayCommutesWithScalar(s, f1.index, v1, f2, v2);
    } else if f2.Day? {
      DayCommutesWithScalar(s, f2.index, v2, f1, v1);
    } else {
      var t1, b1 := ParseFloat(v1), IsActivated(v1);
      var t2, b2 := ParseFloat(v2), IsActivated(v2);
      assert ApplyRemote(ApplyRemote(s, f1, v1), f2, v2) == SetScalar(SetScalar(s, f1, t1, b1), f2, t2, b2);
      assert ApplyRemote(ApplyRemote(s, f2, v2), f1, v1) == SetScalar(SetScalar(s, f2, t2, b2), f1, t1, b1);
      ScalarsCommute(s, f1, t1, b1, f2, t2, b2);
    }
  }

  /** A Day update and a scalar update touch disjoint parts of the state. */
  lemma DayCommutesWithScalar(s: Schedule, k: int, w: Value, f: Field, v: Value)
    requires !f.Day?
    ensures ApplyRemote(ApplyRemote(s, Day(k), w), f, v) == ApplyRemote(ApplyRemote(s, f, v), Day(k), w)
  {
  }

  /** Setting two different scalar fields commutes. */
  lemma ScalarsCommute(s: Schedule, f1: Field, t1: Float, b1: bool, f2: Field, t2: Float, b2: bool)
    requires ValidField(f1) && ValidField(f2)
    requires !f1.Day? && !f2.Day? && f1 != f2
    ensures SetScalar(SetScalar(s, f1, t1, b1), f2, t2, b2) == SetScalar(SetScalar(s, f2, t2, b2), f1, t1, b1)
  {
    var x := SetScalar(SetScalar(s, f1, t1, b1), f2, t2, b2);
    var y := SetScalar(SetScalar(s, f2, t2, b2), f1, t1, b1);
    assert x == Schedule(x.temp1, x.temp2, x.temp3, x.temp4, x.away, x.holiday, x.active, x.matrix);
    assert y == Schedule(y.temp1, y.temp2, y.temp3, y.temp4, y.away, y.holiday, y.active, y.matrix);
  }

  lemma ReplaceRowsCommute(m: seq<seq<int>>, k1: int, r1: seq<int>, k2: int, r2: seq<int>)
    requires k1 != k2
    ensures ReplaceRow(ReplaceRow(m, k1, r1), k2, r2) == ReplaceRow(ReplaceRow(m, k2, r2), k1, r1)
  {
    var a := ReplaceRow(ReplaceRow(m, k1, r1), k2, r2);
    var b := ReplaceRow(ReplaceRow(m, k2, r2), k1, r1);
    forall i | 0 <= i < |m|
      ensures a[i] == b[i]
    {
    }
  }

  /** The example order Temp1 = 22.5, Activated = false, Temp1 = 19.0
      leaves Temp1 at 19.0 and the flag cleared. */
  lemma LastWriteWinsExample(s: Schedule)
    ensures var s' := ApplyRemote(ApplyRemote(ApplyRemote(s, Temp(1), Num(22.5)), Activated, Bool(false)), Temp(1), Num(19.0));
      s'.temp1 == Finite(19.0) && !s'.active
  {
  }

  /** A temperature sent as the decimal text of a whole number, rather
      than as a JSON number, sets the same temperature. */
  lemma TextTemperature(s: Schedule, f: Field, n: nat)
    requires f.Temp? || f.TempAway? || f.TempHoliday?
    ensures ApplyRemote(s, f, Str(NatToString(n))) == ApplyRemote(s, f, Num(n as real))
  {
    NatToStringWellFormed(n);
  }

  /** Day payloads from untrusted sources are inert unless they are
      arrays. */
  lemma MalformedDayInert(s: Schedule, k: int, text: string)
    ensures ApplyRemote(s, Day(k), Str(text)) == s
  {
  }

  // ---------------------------------------------------------------------
  // Save echo
  // ---------------------------------------------------------------------

  /** The snapshot a save publishes from a schedule. */
  function SnapshotOf(s: Schedule): ProfileData
    requires |s.matrix| >= 7
  {
    ProfileData(s.temp1, s.temp2, s.temp3, s.temp4, s.away, s.holiday, s.active, EncodeWeek(s.matrix))
  }

  /** The state after a sequence of messages, each on the full topic of its
      subtopic. */
  function ReceiveAll(s: Schedule, topic: string, profile: string, msgs: seq<(string, Value)>): Schedule
    decreases |msgs|
  {
    if msgs == [] then s
    else ReceiveAll(Receive(s, topic, profile, FullTopic(ProfileTopic(topic, profile), msgs[0].0), msgs[0].1), topic, profile, msgs[1..])
  }

  /** Receiving a day's own encoding back leaves the schedule as it is. */
  lemma EchoDay(s: Schedule, d: int)
    requires IsWeek(s.matrix) && 0 <= d < 7
    ensures ApplyRemote(s, Day(d), Arr(EncodeDay(s.matrix[d]))) == s
  {
    DecodeEncode(s.matrix[d]);
    assert ReplaceRow(s.matrix, d, s.matrix[d]) == s.matrix;
  }

  /** Each scalar message of one's own save sets its field to the value
      it already has. */
  lemma EchoScalar(s: Schedule, i: int)
    requires IsWeek(s.matrix)
    requires 0 <= i < 7
    ensures ApplyRemote(s, AllFields[i], PublishMessages(SnapshotOf(s))[i].1) == s
  {
    var msgs := PublishMessages(SnapshotOf(s));
    if i == 0 {
      ParseFloatJson(s.temp1);
      assert msgs[0].1 == FloatJson(s.temp1);
    } else if i == 1 {
      ParseFloatJson(s.temp2);
      assert msgs[1].1 == FloatJson(s.temp2);
    } else if i == 2 {
      ParseFloatJson(s.temp3);
      assert msgs[2].1 == FloatJson(s.temp3);
    } else if i == 3 {
      ParseFloatJson(s.temp4);
      assert msgs[3].1 == FloatJson(s.temp4);
    } else if i == 4 {
      ParseFloatJson(s.away);
      assert msgs[4].1 == FloatJson(s.away);
    } else if i == 5 {
      ParseFloatJson(s.holiday);
      assert msgs[5].1 == FloatJson(s.holiday);
    } else {
      assert msgs[6].1 == Bool(s.active);
    }
  }

  /** Each Day message of one's own save decodes to the row it came
      from. */
  lemma EchoDayMessage(s: Schedule, i: int)
    requires IsWeek(s.matrix)
    requires 7 <= i < 14
    ensures ApplyRemote(s, AllFields[i], PublishMessages(SnapshotOf(s))[i].1) == s
  {
    var data := SnapshotOf(s);
    PublishOrder(data);
    DayFields();
    EchoDay(s, i - 7);
  }

  /** Receiving any one of the fourteen messages of one's own save leaves
      the schedule as it is. */
  lemma EchoStep(s: Schedule, topic: string, profile: string, i: int)
    requires IsWeek(s.matrix)
    requires 0 <= i < 14
    ensures var m := PublishMessages(SnapshotOf(s))[i];
      Receive(s, topic, profile, FullTopic(ProfileTopic(topic, profile), m.0), m.1) == s
  {
    var data := SnapshotOf(s);
    var m := PublishMessages(data)[i];
    PublishOrder(data);
    FullTopicRoutes(topic, profile, m.0);
    ParseSubtopic(i);
    if i < 7 {
      EchoScalar(s, i);
    } else {
      EchoDayMessage(s, i);
    }
  }

  /** A save echoed back by the broker (the retained messages arrive on the
      subscribed topics) leaves the schedule exactly as it was. */
  lemma {:induction false} SaveEchoIsIdentity(s: Schedule, topic: string, profile: string)
    requires IsWeek(s.matrix)
    ensures ReceiveAll(s, topic, profile, PublishMessages(SnapshotOf(s))) == s
  {
    EchoSuffix(s, topic, profile, 0);
  }

  lemma {:induction false} EchoSuffix(s: Schedule, topic: string, profile: string, j: int)
    requires IsWeek(s.matrix)
    requires 0 <= j <= 14
    ensures ReceiveAll(s, topic, profile, PublishMessages(SnapshotOf(s))[j..]) == s
    decreases 14 - j
  {
    var msgs := PublishMessages(SnapshotOf(s));
    if j < 14 {
      EchoStep(s, topic, profile, j);
      assert msgs[j..][0] == msgs[j];
      assert msgs[j..][1..] == msgs[j + 1..];
      EchoSuffix(s, topic, profile, j + 1);
    }
  }
}
