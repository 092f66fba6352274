/** Times of day on the quarter-hour grid: the mapping between a slot
    index (0..96) and an hour/minute pair, the "H:MM" text form used on the
    wire, and the slot arithmetic the decoder applies to a block's From and
    To times. */
module Clock {
  import opened Util

  /** Number of 15-minute slots in a day. */
  const SlotsPerDay: int := 96

  /** An hour/minute pair as the decoder sees it after splitting "H:MM" and
      converting both halves with Number(). */
  datatype Time = Time(hour: int, minute: int)

  /** The literal end of day, "24:00". */
  const EndOfDay: Time := Time(24, 0)

  /** Start time of slot i: hour floor(i/4), minute (i mod 4) * 15. */
  function SlotTime(i: nat): (t: Time)
    ensures t.hour * 4 + t.minute / 15 == i
    ensures t.minute in {0, 15, 30, 45}
  {
    Time(i / 4, (i % 4) * 15)
  }

  /** The end time the encoder writes when it closes a run whose last slot
      is i - 1: the end minute of slot i - 1, carried into the next hour
      when it reaches 60. */
  function CloseTime(i: nat): (t: Time)
    requires i >= 1
    ensures t.hour * 4 + t.minute / 15 == i
    ensures t.minute in {0, 15, 30, 45}
  {
    var endHour := (i - 1) / 4;
    var endMinute := ((i - 1) % 4) * 15 + 15;
    if endMinute == 60 then Time(endHour + 1, 0) else Time(endHour, endMinute)
  }

  /** Closing a run before slot i writes exactly the start time of slot i. */
  lemma CloseTimeIsSlotTime(i: nat)
    requires i >= 1
    ensures CloseTime(i) == SlotTime(i)
  {
  }

  /** Math.ceil(m / 15) for an integer m (Dafny's division by a positive
      number rounds down). */
  function CeilQuarter(m: int): (r: int)
    ensures 15 * (r - 1) < m <= 15 * r
  {
    -((-m) / 15)
  }

  /** First slot of a block: hour * 4 + floor(minute / 15). */
  function StartSlot(t: Time): int
  {
    t.hour * 4 + t.minute / 15
  }

  /** End slot (exclusive) of a block: hour * 4 + ceil(minute / 15), except
      that hour 24 always means slot 96. */
  function EndSlot(t: Time): int
  {
    if t.hour == 24 then SlotsPerDay else t.hour * 4 + CeilQuarter(t.minute)
  }

  /** A block's From is rounded down to the start of its quarter hour and
      its To is rounded up to the end of one, so the two agree exactly on
      a quarter-hour boundary; an hour of 24 ends the day whatever its
      minute. */
  lemma SlotRounding(t: Time)
    ensures 15 * (StartSlot(t) - 4 * t.hour) <= t.minute < 15 * (StartSlot(t) - 4 * t.hour + 1)
    ensures t.hour != 24 ==> EndSlot(t) == StartSlot(t) + (if t.minute % 15 == 0 then 0 else 1)
    ensures t.hour == 24 ==> EndSlot(t) == SlotsPerDay
  {
  }

  /** The slot times are exactly what the decoder turns back into the same
      slot index, both as a start and as an end. */
  lemma SlotTimeInverse(i: nat)
    requires i <= SlotsPerDay
    ensures StartSlot(SlotTime(i)) == i
    ensures EndSlot(SlotTime(i)) == i
    ensures i == SlotsPerDay ==> SlotTime(i) == EndOfDay
  {
    var t := SlotTime(i);
    assert CeilQuarter(t.minute) == t.minute / 15;
  }

  /** A time that sits on the quarter-hour grid of one day. */
  predicate OnGrid(t: Time)
  {
    0 <= t.hour <= 24 && t.minute in {0, 15, 30, 45} && (t.hour == 24 ==> t.minute == 0)
  }

  lemma SlotTimeOnGrid(i: nat)
    requires i <= SlotsPerDay
    ensures OnGrid(SlotTime(i))
  {
  }

  /** Time a is earlier in the day than time b. */
  predicate Before(a: Time, b: Time)
  {
    a.hour < b.hour || (a.hour == b.hour && a.minute < b.minute)
  }

  /** On the grid, being earlier is having the smaller slot index. */
  lemma GridBefore(a: Time, b: Time)
    requires OnGrid(a) && OnGrid(b)
    ensures Before(a, b) <==> StartSlot(a) < StartSlot(b)
  {
    assert 0 <= a.minute / 15 <= 3 && 0 <= b.minute / 15 <= 3;
    assert a.minute == 15 * (a.minute / 15) && b.minute == 15 * (b.minute / 15);
  }

  /** A grid time names one slot boundary: it decodes to the same slot as
      a start and as an end, and that slot's time is the time itself. */
  lemma GridSlot(t: Time)
    requires OnGrid(t)
    ensures 0 <= StartSlot(t) <= SlotsPerDay
    ensures EndSlot(t) == StartSlot(t)
    ensures SlotTime(StartSlot(t)) == t
  {
  }

  // ---------------------------------------------------------------------
  // "H:MM" text
  // ---------------------------------------------------------------------

  /** The wire text of a time: the hour in decimal without padding, a
      colon, and the minute in decimal padded with zeros to two digits. */
  function FormatTime(t: Time): (r: string)
    requires t.hour >= 0 && t.minute >= 0
    ensures |r| >= 4
    ensures t.minute < 100 ==> r[|r| - 3] == ':' && AllDigits(r[..|r| - 3]) && AllDigits(r[|r| - 2..])
  {
    var h := NatToString(t.hour);
    var m := PadTwo(NatToString(t.minute));
    assert t.minute < 100 ==> |m| == 2 && AllDigits(m) by {
      if 10 <= t.minute < 100 {
        assert |NatToString(t.minute / 10)| == 1;
      }
    }
    var r := h + ":" + m;
    assert t.minute < 100 ==> r[..|r| - 3] == h && r[|r| - 2..] == m;
    r
  }

  /** Number() of a time component, for components made of decimal digits
      only; anything else is NaN, written None. */
  function ParseNumber(s: string): (r: Option<int>)
    ensures r.Some? <==> AllDigits(s)
    ensures r.Some? ==> r.value >= 0
    ensures s == [] ==> r == Some(0)
  {
    if AllDigits(s) then Some(DigitsValue(s)) else None
  }

  /** Reading a time back: split the text at colons, convert the first
      two parts to numbers, and take them as hour and minute. */
  function ParseTime(s: string): (r: Option<Time>)
    ensures r.Some? ==> r.value.hour >= 0 && r.value.minute >= 0
    ensures (forall i :: 0 <= i < |s| ==> s[i] != ':') ==> r == None
  {
    var parts := Split(s, ':');
    assert (forall i :: 0 <= i < |s| ==> s[i] != ':') ==> |parts| == 1 by {
      if forall i :: 0 <= i < |s| ==> s[i] != ':' {
        SplitNone(s, ':');
      }
    }
    if |parts| < 2 then None
    else match (ParseNumber(parts[0]), ParseNumber(parts[1]))
      case (Some(h), Some(m)) => Some(Time(h, m))
      case _ => None
  }

  /** The two minute digits the encoder writes for a grid minute. */
  lemma MinuteText(m: int)
    requires m in {0, 15, 30, 45}
    ensures var d := PadTwo(NatToString(m));
      && d in ["00", "15", "30", "45"]
      && AllDigits(d) && DigitsValue(d) == m
  {
    var d := PadTwo(NatToString(m));
    if m == 0 {
      assert d == "00";
    } else if m == 15 {
      assert NatToString(15) == NatToString(1) + [DigitChar(5)];
      assert d == "15";
      assert d[..1] == "1";
    } else if m == 30 {
      assert NatToString(30) == NatToString(3) + [DigitChar(0)];
      assert d == "30";
      assert d[..1] == "3";
    } else {
      assert NatToString(45) == NatToString(4) + [DigitChar(5)];
      assert d == "45";
      assert d[..1] == "4";
    }
  }

  /** Every grid time is written as an unpadded hour, a colon and two
      minute digits out of 00, 15, 30, 45; and reading that text back gives
      the same time. */
  lemma {:induction false} FormatOnGrid(t: Time)
    requires OnGrid(t)
    ensures var s := FormatTime(t);
      && |s| >= 4
      && s[|s| - 3] == ':'
      && s[|s| - 2..] in ["00", "15", "30", "45"]
      && s[..|s| - 3] == NatToString(t.hour)
      && (|s| > 4 ==> s[0] != '0')
      && ParseTime(s) == Some(t)
  {
    var h := NatToString(t.hour);
    var m := PadTwo(NatToString(t.minute));
    NatToStringWellFormed(t.hour);
    MinuteText(t.minute);
    var s := FormatTime(t);
    assert s == h + [':'] + m;
    ParseDigitsPair(h, m);
    assert |m| == 2;
    assert s[..|s| - 3] == h;
    assert s[|s| - 2..] == m;
  }

  /** Two digit strings joined by a colon parse back to their values. */
  lemma ParseDigitsPair(h: string, m: string)
    requires AllDigits(h) && AllDigits(m)
    ensures ParseTime(h + [':'] + m) == Some(Time(DigitsValue(h), DigitsValue(m)))
  {
    assert forall i :: 0 <= i < |h| ==> h[i] != ':' by {
      assert forall i :: 0 <= i < |h| ==> IsDigit(h[i]);
    }
    assert forall i :: 0 <= i < |m| ==> m[i] != ':' by {
      assert forall i :: 0 <= i < |m| ==> IsDigit(m[i]);
    }
    SplitAround(h, m, ':');
  }

  /** Two grid times, the first earlier, bound a non-empty slot interval
      inside the day, and each is the time of its own slot index. */
  lemma GridInterval(a: Time, b: Time)
    requires OnGrid(a) && OnGrid(b) && Before(a, b)
    ensures 0 <= StartSlot(a) < EndSlot(b) <= SlotsPerDay
    ensures SlotTime(StartSlot(a)) == a && SlotTime(EndSlot(b)) == b
  {
    GridSlot(a);
    GridSlot(b);
    GridBefore(a, b);
  }
}
