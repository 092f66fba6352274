/** The heating-profile card: the component that owns the schedule state,
    applies inbound MQTT field messages to it, lets the user paint the grid
    by dragging, and produces the messages of a save. */
module Card {
  import opened Util
  import opened Clock
  import opened Codec
  import opened Values
  import opened Topics
  import opened Profile
  import opened Remote

  /** A grid cell: a day (0..6) and a quarter-hour slot (0..95). */
  datatype Cell = Cell(day: int, interval: int)

  predicate InGrid(c: Cell)
  {
    0 <= c.day < 7 && 0 <= c.interval < SlotsPerDay
  }

  /** Cell (d, i) lies in the inclusive rectangle spanned by a and b. */
  predicate InRect(a: Cell, b: Cell, d: int, i: int)
  {
    Min(a.day, b.day) <= d <= Max(a.day, b.day) && Min(a.interval, b.interval) <= i <= Max(a.interval, b.interval)
  }

  /** What a drag from `start` to `current` shows: the snapshot with the
      rectangle between the two cells painted in `mode`. */
  function DragPreview(snapshot: seq<seq<int>>, start: Cell, current: Cell, mode: int): (m: seq<seq<int>>)
    ensures |m| == |snapshot|
    ensures forall d :: 0 <= d < |m| ==> |m[d]| == |snapshot[d]|
    ensures forall d, i :: 0 <= d < |m| && 0 <= i < |m[d]| ==>
      m[d][i] == if InRect(start, current, d, i) then mode else snapshot[d][i]
  {
    seq(|snapshot|, d requires 0 <= d < |snapshot| =>
      seq(|snapshot[d]|, i requires 0 <= i < |snapshot[d]| =>
        if InRect(start, current, d, i) then mode else snapshot[d][i]))
  }

  /** A drag that has not left its start cell paints exactly that cell,
      which is what mouse-down paints. */
  lemma DragPreviewAtStart(snapshot: seq<seq<int>>, c: Cell, mode: int)
    requires IsWeek(snapshot) && InGrid(c)
    ensures DragPreview(snapshot, c, c, mode) == snapshot[c.day := snapshot[c.day][c.interval := mode]]
  {
    var p := DragPreview(snapshot, c, c, mode);
    var q := snapshot[c.day := snapshot[c.day][c.interval := mode]];
    forall d | 0 <= d < 7
      ensures p[d] == q[d]
    {
      assert |p[d]| == |q[d]|;
      forall i | 0 <= i < |p[d]|
        ensures p[d][i] == q[d][i]
      {
      }
    }
  }

  /** Painting one cell keeps the week's shape. */
  lemma PaintCellIsWeek(m: seq<seq<int>>, c: Cell, mode: int)
    requires IsWeek(m) && InGrid(c)
    ensures IsWeek(m[c.day := m[c.day][c.interval := mode]])
  {
  }

  /** The rectangle does not depend on which corner the drag started at. */
  lemma DragPreviewSymmetric(snapshot: seq<seq<int>>, a: Cell, b: Cell, mode: int)
    ensures DragPreview(snapshot, a, b, mode) == DragPreview(snapshot, b, a, mode)
  {
    var p := DragPreview(snapshot, a, b, mode);
    var q := DragPreview(snapshot, b, a, mode);
    forall d | 0 <= d < |p|
      ensures p[d] == q[d]
    {
    }
  }

  /** Moving back shrinks the painted area: once the pointer is at
      `current`, every cell outside the rectangle from `start` to
      `current` is back at its snapshot value, whatever rectangle an
      earlier move painted. */
  lemma DragBackShrinks(snapshot: seq<seq<int>>, start: Cell, earlier: Cell, current: Cell, mode: int, d: int, i: int)
    requires IsWeek(snapshot) && 0 <= d < 7 && 0 <= i < SlotsPerDay
    requires InRect(start, earlier, d, i) && !InRect(start, current, d, i)
    ensures DragPreview(snapshot, start, earlier, mode)[d][i] == mode
    ensures DragPreview(snapshot, start, current, mode)[d][i] == snapshot[d][i]
  {
  }

  /** The drag example: start at slot 10 of day 0, move to slot 20, then
      back to slot 5; slots 5..10 hold the mode and slots 11..20 are back
      at their pre-drag values. */
  lemma DragShrinkExample(snapshot: seq<seq<int>>, mode: int)
    requires IsWeek(snapshot)
    ensures var m := DragPreview(snapshot, Cell(0, 10), Cell(0, 5), mode);
      && (forall i :: 5 <= i <= 10 ==> m[0][i] == mode)
      && (forall i :: 10 < i <= 20 ==> m[0][i] == snapshot[0][i])
      && (forall i :: 0 <= i < SlotsPerDay && !(5 <= i <= 10) ==> m[0][i] == snapshot[0][i])
      && (forall d :: 0 < d < 7 ==> m[d] == snapshot[d])
  {
    var m := DragPreview(snapshot, Cell(0, 10), Cell(0, 5), mode);
    forall d | 0 < d < 7
      ensures m[d] == snapshot[d]
    {
    }
  }

  class HeatingProfileCard {
    // configuration
    var topic: string
    var profile: string
    // schedule state
    var selectedMode: int
    var isActive: bool
    var abwesend: Float   // away temperature
    var urlaub: Float     // holiday temperature
    var temp1: Float
    var temp2: Float
    var temp3: Float
    var temp4: Float
    var matrix: seq<seq<int>>
    // drawing state
    var isDrawing: bool
    var drawStart: Option<Cell>
    var tempMatrix: Option<seq<seq<int>>>
    /** Number of requestUpdate() calls so far. */
    var updates: nat

    ghost predicate Valid()
      reads this
    {
      && IsWeek(matrix)
      && (tempMatrix.Some? ==> IsWeek(tempMatrix.value))
      && (drawStart.Some? ==> InGrid(drawStart.value))
    }

    /** The schedule part of the card's state. */
    function State(): Schedule
      reads this
    {
      Schedule(temp1, temp2, temp3, temp4, abwesend, urlaub, isActive, matrix)
    }

    constructor (topic: string, profile: string)
      ensures Valid()
      ensures this.topic == topic && this.profile == profile
      ensures State() == Schedule(Finite(23.0), Finite(20.0), Finite(18.0), Finite(5.0), Finite(20.0), Finite(5.0), true,
                                  seq(7, _ => EmptyDay()))
      ensures selectedMode == 0 && !isDrawing && drawStart.None? && tempMatrix.None? && updates == 0
    {
      this.topic := topic;
      this.profile := profile;
      selectedMode := 0;
      isActive := true;
      abwesend := Finite(20.0);
      urlaub := Finite(5.0);
      temp1 := Finite(23.0);
      temp2 := Finite(20.0);
      temp3 := Finite(18.0);
      temp4 := Finite(5.0);
      isDrawing := false;
      drawStart := None;
      tempMatrix := None;
      matrix := seq(7, _ => EmptyDay());
      updates := 0;
    }

    method RequestUpdate()
      modifies this`updates
      ensures updates == old(updates) + 1
    {
      updates := updates + 1;
    }

    /** updateMatrix: replace row dayIndex with the decoded blocks, but only
        when the payload is an array. */
    method UpdateMatrix(dayIndex: int, dayData: Value)
      requires Valid() && 0 <= dayIndex < 7
      modifies this`matrix
      ensures Valid()
      ensures State() == ApplyRemote(old(State()), Day(dayIndex), dayData)
    {
      if dayData.Arr? {
        var newDayMatrix := JsonToMatrix(dayData.blocks);
        DecodeLength(dayData.blocks);
        matrix := ReplaceRow(matrix, dayIndex, newDayMatrix);
      }
    }

    /** The body of handleMQTTMessage's switch for a recognised field:
        update exactly the addressed field. */
    method ApplyField(f: Field, value: Value)
      requires Valid() && ValidField(f)
      modifies this`temp1, this`temp2, this`temp3, this`temp4, this`abwesend, this`urlaub, this`isActive, this`matrix
      ensures Valid()
      ensures State() == ApplyRemote(old(State()), f, value)
    {
      match f {
        case Temp(n) =>
          // the field is chosen by the subtopic's last character
          var t := ParseFloat(value);
          if n == 1 { temp1 := t; }
          else if n == 2 { temp2 := t; }
          else if n == 3 { temp3 := t; }
          else { temp4 := t; }
        case TempAway =>
          abwesend := ParseFloat(value);
        case TempHoliday =>
          urlaub := ParseFloat(value);
        case Activated =>
          isActive := IsActivated(value);
        case Day(k) =>
          UpdateMatrix(k, value);
      }
    }

    /** handleMQTTMessage's switch on the subtopic: a recognised field is
        updated and a render requested; any other subtopic takes the
        default branch, which changes nothing. */
    method Dispatch(subtopic: string, value: Value)
      requires Valid()
      modifies this`temp1, this`temp2, this`temp3, this`temp4, this`abwesend, this`urlaub, this`isActive, this`matrix, this`updates
      ensures Valid()
      ensures ParseField(subtopic).None? ==> State() == old(State()) && updates == old(updates)
      ensures ParseField(subtopic).Some? ==>
        State() == ApplyRemote(old(State()), ParseField(subtopic).value, value) && updates == old(updates) + 1
    {
      var field := ParseField(subtopic);
      if field.None? {
        // unhandled subtopic: a warning, and no render
        return;
      }
      ApplyField(field.value, value);
      RequestUpdate();
    }

    /** handleMQTTMessage: accept only topics under the lower-cased
        "topic/profile/" prefix, dispatch on the rest, update exactly the
        addressed field, and request a render for every recognised
        subtopic. */
    method HandleMQTTMessage(incoming: string, value: Value)
      requires Valid()
      modifies this`temp1, this`temp2, this`temp3, this`temp4, this`abwesend, this`urlaub, this`isActive, this`matrix, this`updates
      ensures Valid()
      ensures State() == Receive(old(State()), topic, profile, incoming, value)
      ensures updates == if Route(topic, profile, incoming).Some? then old(updates) + 1 else old(updates)
    {
      var fullBaseTopic := Lower(topic + "/" + profile + "/");
      if !StartsWith(incoming, fullBaseTopic) {
        return;
      }
      var subtopic := incoming[|fullBaseTopic|..];
      assert Subtopic(topic, profile, incoming) == Some(subtopic);
      Dispatch(subtopic, value);
    }

    /** handleMouseDown: start drawing, keep a copy of the matrix, and paint
        the start cell. */
    method HandleMouseDown(day: int, interval: int)
      requires Valid() && InGrid(Cell(day, interval))
      modifies this`isDrawing, this`drawStart, this`tempMatrix, this`matrix, this`updates
      ensures Valid()
      ensures isDrawing && drawStart == Some(Cell(day, interval)) && tempMatrix == Some(old(matrix))
      ensures matrix == DragPreview(old(matrix), Cell(day, interval), Cell(day, interval), selectedMode)
      ensures updates == old(updates) + 1
    {
      isDrawing := true;
      drawStart := Some(Cell(day, interval));
      tempMatrix := Some(matrix);
      var newMatrix := matrix[day := matrix[day][interval := selectedMode]];
      DragPreviewAtStart(matrix, Cell(day, interval), selectedMode);
      PaintCellIsWeek(matrix, Cell(day, interval), selectedMode);
      matrix := newMatrix;
      RequestUpdate();
    }

    /** handleMouseMove: while drawing, rebuild the matrix from the snapshot
        with the rectangle between the start cell and this cell painted;
        otherwise do nothing. */
    method HandleMouseMove(day: int, interval: int)
      requires Valid() && InGrid(Cell(day, interval))
      modifies this`matrix, this`updates
      ensures Valid()
      ensures old(isDrawing && drawStart.Some? && tempMatrix.Some?) ==>
        matrix == DragPreview(old(tempMatrix.value), old(drawStart.value), Cell(day, interval), selectedMode)
        && updates == old(updates) + 1
      ensures !old(isDrawing && drawStart.Some? && tempMatrix.Some?) ==>
        matrix == old(matrix) && updates == old(updates)
    {
      if !isDrawing || drawStart.None? || tempMatrix.None? {
        return;
      }
      var snapshot := tempMatrix.value;
      var mode := selectedMode;
      var newMatrix := snapshot;
      var startDay := Min(drawStart.value.day, day);
      var endDay := Max(drawStart.value.day, day);
      var startInterval := Min(drawStart.value.interval, interval);
      var endInterval := Max(drawStart.value.interval, interval);
      var d := startDay;
      while d <= endDay
        invariant startDay <= d <= endDay + 1
        invariant IsWeek(newMatrix)
        invariant forall dd, ii :: 0 <= dd < 7 && 0 <= ii < SlotsPerDay ==>
          newMatrix[dd][ii] == if startDay <= dd < d && startInterval <= ii <= endInterval then mode else snapshot[dd][ii]
      {
        var i := startInterval;
        while i <= endInterval
          invariant startInterval <= i <= endInterval + 1
          invariant IsWeek(newMatrix)
          invariant forall dd, ii :: 0 <= dd < 7 && 0 <= ii < SlotsPerDay ==>
            newMatrix[dd][ii] == if (startDay <= dd < d && startInterval <= ii <= endInterval) || (dd == d && startInterval <= ii < i) then mode else snapshot[dd][ii]
        {
          newMatrix := newMatrix[d := newMatrix[d][i := mode]];
          i := i + 1;
        }
        d := d + 1;
      }
      ghost var preview := DragPreview(snapshot, drawStart.value, Cell(day, interval), mode);
      forall dd | 0 <= dd < 7
        ensures newMatrix[dd] == preview[dd]
      {
      }
      matrix := newMatrix;
      RequestUpdate();
    }

    /** handleMouseUp (also bound to mouse-leave): stop drawing and drop the
        snapshot; the painted matrix stays. */
    method HandleMouseUp()
      requires Valid()
      modifies this`isDrawing, this`drawStart, this`tempMatrix
      ensures Valid()
      ensures !isDrawing && drawStart.None? && tempMatrix.None?
      ensures matrix == old(matrix) && State() == old(State())
    {
      isDrawing := false;
      drawStart := None;
      tempMatrix := None;
    }

    /** A mode button's click handler: select the paint mode. */
    method SelectMode(mode: int)
      modifies this`selectedMode, this`updates
      ensures selectedMode == mode && updates == old(updates) + 1
    {
      selectedMode := mode;
      RequestUpdate();
    }

    /** publishToMQTT: nothing while disconnected; otherwise the fourteen
        messages of matrixToJSON's result, in order. */
    method PublishToMQTT(connected: bool) returns (published: seq<(string, Value)>)
      requires Valid()
      ensures published == if connected then PublishMessages(SnapshotOf(State())) else []
    {
      if !connected {
        // the card shows an alert instead
        return [];
      }
      var data := MatrixToJSON(matrix, [temp1, temp2, temp3, temp4], abwesend, urlaub, isActive);
      published := PublishMessages(data);
    }
  }

  /** The drag shrink example run against a card: paint from slot 10 to
      slot 20 of Monday, back to slot 5, and release. */
  method DragShrinkScenario(card: HeatingProfileCard)
    requires card.Valid()
    modifies card
    ensures card.Valid() && !card.isDrawing && card.selectedMode == 2
    ensures forall i :: 5 <= i <= 10 ==> card.matrix[0][i] == 2
    ensures forall i :: 10 < i <= 20 ==> card.matrix[0][i] == old(card.matrix)[0][i]
    ensures forall i :: 0 <= i < SlotsPerDay && !(5 <= i <= 10) ==> card.matrix[0][i] == old(card.matrix)[0][i]
    ensures forall d :: 0 < d < 7 ==> card.matrix[d] == old(card.matrix)[d]
  {
    ghost var before := card.matrix;
    card.SelectMode(2);
    card.HandleMouseDown(0, 10);
    card.HandleMouseMove(0, 20);
    card.HandleMouseMove(0, 5);
    card.HandleMouseUp();
    DragShrinkExample(before, 2);
  }

  /** Repeating a move is idempotent: the second identical move leaves the
      matrix as the first left it. */
  method RepeatedMoveScenario(card: HeatingProfileCard, day: int, interval: int)
    requires card.Valid() && InGrid(Cell(day, interval))
    requires card.isDrawing && card.drawStart.Some? && card.tempMatrix.Some?
    modifies card
    ensures card.Valid()
    ensures card.matrix == DragPreview(old(card.tempMatrix.value), old(card.drawStart.value), Cell(day, interval), old(card.selectedMode))
  {
    card.HandleMouseMove(day, interval);
    ghost var once := card.matrix;
    card.HandleMouseMove(day, interval);
    assert card.matrix == once;
  }

  /** Any message that arrives in the middle of a drag, a remote Day
      update included, is overwritten by the next move, which rebuilds the
      matrix from the snapshot taken at mouse-down: local painting wins
      over the remote row it never saw. */
  method RemoteUpdateDuringDrag(card: HeatingProfileCard, incoming: string, value: Value, day: int, interval: int)
    requires card.Valid() && InGrid(Cell(day, interval))
    requires card.isDrawing && card.drawStart.Some? && card.tempMatrix.Some?
    modifies card
    ensures card.Valid()
    ensures card.matrix == DragPreview(old(card.tempMatrix.value), old(card.drawStart.value), Cell(day, interval), old(card.selectedMode))
  {
    card.HandleMQTTMessage(incoming, value);
    card.HandleMouseMove(day, interval);
  }
}
