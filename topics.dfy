/** Message-bus topics: the fourteen per-field subtopics, how a profile's
    topic prefix is built, and how an inbound topic is routed to the field
    it updates. */
module Topics {
  import opened Util

  /** The fields a profile publishes and accepts, one per subtopic. */
  datatype Field =
    | Temp(n: int)      // Temp1..Temp4, the setpoints of modes 1..4
    | TempAway
    | TempHoliday
    | Activated
    | Day(index: int)   // Day1..Day7, matrix rows 0..6

  predicate ValidField(f: Field)
  {
    match f
    case Temp(n) => 1 <= n <= 4
    case Day(i) => 0 <= i < 7
    case _ => true
  }

  /** The subscription list, in its fixed order. */
  const Subtopics: seq<string> := [
    "Temp1", "Temp2", "Temp3", "Temp4", "TempAway", "TempHoliday", "Activated",
    "Day1", "Day2", "Day3", "Day4", "Day5", "Day6", "Day7"
  ]

  /** The fields in the order of the subscription list. */
  const AllFields: seq<Field> := [
    Temp(1), Temp(2), Temp(3), Temp(4), TempAway, TempHoliday, Activated,
    Day(0), Day(1), Day(2), Day(3), Day(4), Day(5), Day(6)
  ]

  function FieldName(f: Field): string
    requires ValidField(f)
  {
    match f
    case Temp(n) => "Temp" + [DigitChar(n)]
    case TempAway => "TempAway"
    case TempHoliday => "TempHoliday"
    case Activated => "Activated"
    case Day(i) => "Day" + [DigitChar(i + 1)]
  }

  /** The handler's switch on the subtopic; None is its default branch.
      The four setpoint cases pick the field by the subtopic's last
      character. */
  function ParseField(sub: string): (r: Option<Field>)
    ensures r.Some? ==> ValidField(r.value)
  {
    if sub == "Temp1" || sub == "Temp2" || sub == "Temp3" || sub == "Temp4" then Some(Temp(DigitValue(sub[|sub| - 1])))
    else if sub == "TempAway" then Some(TempAway)
    else if sub == "TempHoliday" then Some(TempHoliday)
    else if sub == "Activated" then Some(Activated)
    else if sub == "Day1" then Some(Day(0))
    else if sub == "Day2" then Some(Day(1))
    else if sub == "Day3" then Some(Day(2))
    else if sub == "Day4" then Some(Day(3))
    else if sub == "Day5" then Some(Day(4))
    else if sub == "Day6" then Some(Day(5))
    else if sub == "Day7" then Some(Day(6))
    else None
  }

  /** The subscription list names every field, in the order of AllFields. */
  lemma SubtopicsAreFieldNames()
    ensures |Subtopics| == |AllFields| == 14
    ensures forall i :: 0 <= i < 14 ==> ValidField(AllFields[i]) && Subtopics[i] == FieldName(AllFields[i])
    ensures forall f :: ValidField(f) ==> f in AllFields
  {
    forall f | ValidField(f)
      ensures f in AllFields
    {
      match f
      case Temp(n) =>
        assert f == AllFields[n - 1];
      case Day(i) =>
        assert f == AllFields[7 + i];
      case _ =>
    }
  }

  /** Field names and the switch are inverse: every field's name selects
      exactly that field, and the switch selects a field only for its
      name. */
  lemma ParseFieldName(f: Field)
    requires ValidField(f)
    ensures ParseField(FieldName(f)) == Some(f)
  {
  }

  lemma ParseFieldOnlyNames(sub: string)
    requires ParseField(sub).Some?
    ensures ValidField(ParseField(sub).value) && sub == FieldName(ParseField(sub).value)
  {
  }

  /** The switch maps the i-th subscribed subtopic to the i-th field. */
  lemma ParseSubtopic(i: int)
    requires 0 <= i < 14
    ensures ParseField(Subtopics[i]) == Some(AllFields[i])
  {
  }

  /** The last seven fields are the days, in order. */
  lemma DayFields()
    ensures forall i :: 7 <= i < 14 ==> AllFields[i] == Day(i - 7)
  {
  }

  /** Every subscribed subtopic is recognised by the switch. */
  lemma SubtopicsRecognised()
    ensures forall s :: s in Subtopics ==> ParseField(s).Some?
  {
  }

  // ---------------------------------------------------------------------
  // Topic strings
  // ---------------------------------------------------------------------

  /** The client's topic prefix: (topic + "/" + profile), lower-cased. */
  function ProfileTopic(topic: string, profile: string): (r: string)
    ensures |r| == |topic| + 1 + |profile| && r[|topic|] == '/'
  {
    Lower(topic + "/" + profile)
  }

  /** The full topic of a subtopic: the configured base topic, a slash,
      and the subtopic. */
  function FullTopic(prefix: string, subtopic: string): (r: string)
    ensures |r| == |prefix| + 1 + |subtopic|
    ensures StartsWith(r, prefix) && r[|prefix|] == '/' && r[|prefix| + 1..] == subtopic
  {
    prefix + "/" + subtopic
  }

  /** The prefix the handler accepts: (topic + "/" + profile + "/"),
      lower-cased. */
  function BaseTopic(topic: string, profile: string): (r: string)
    ensures r == ProfileTopic(topic, profile) + "/"
  {
    LowerAppend(topic + "/" + profile, "/");
    assert Lower("/") == "/";
    Lower(topic + "/" + profile + "/")
  }

  /** The subtopic the handler extracts, or None when the topic is
      outside the prefix. */
  function Subtopic(topic: string, profile: string, incoming: string): (r: Option<string>)
    ensures r.Some? <==> StartsWith(incoming, BaseTopic(topic, profile))
  {
    var base := BaseTopic(topic, profile);
    if StartsWith(incoming, base) then Some(incoming[|base|..]) else None
  }

  /** The field an inbound topic updates, if any. */
  function Route(topic: string, profile: string, incoming: string): (r: Option<Field>)
    ensures !StartsWith(incoming, BaseTopic(topic, profile)) ==> r == None
    ensures r.Some? ==> ValidField(r.value) && ParseField(incoming[|BaseTopic(topic, profile)|..]) == r
  {
    match Subtopic(topic, profile, incoming)
    case None => None
    case Some(sub) => ParseField(sub)
  }

  /** Topic routing: the topic a subtopic is subscribed and published under
      passes the handler's prefix check, the handler extracts exactly that
      subtopic, and for a subscribed subtopic it selects the subtopic's
      field. */
  lemma {:induction false} FullTopicRoutes(topic: string, profile: string, sub: string)
    ensures Subtopic(topic, profile, FullTopic(ProfileTopic(topic, profile), sub)) == Some(sub)
    ensures Route(topic, profile, FullTopic(ProfileTopic(topic, profile), sub)) == ParseField(sub)
    ensures sub in Subtopics ==> Route(topic, profile, FullTopic(ProfileTopic(topic, profile), sub)).Some?
  {
    var base := BaseTopic(topic, profile);
    var full := FullTopic(ProfileTopic(topic, profile), sub);
    assert full == base + sub;
    assert full[..|base|] == base;
    assert full[|base|..] == sub;
  }

  /** A topic outside the prefix selects no field. */
  lemma OutsidePrefixIgnored(topic: string, profile: string, incoming: string)
    requires !StartsWith(incoming, BaseTopic(topic, profile))
    ensures Route(topic, profile, incoming) == None
  {
  }
}
