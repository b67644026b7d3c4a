/**
 `parseData`: the nested day -> room -> event-list tree of a schedule becomes
 one flat list. Every event is copied with its `room` replaced by the key of
 the room it was listed under and with `day` set to the position of its day
 in the conference's day array. The order is day-major, then the rooms' key
 order, then each room's own event order.
 */
module Flatten {
  import opened Types

  /** The events of one room, in order, each re-tagged with the room key and the day position. */
  function Tag(events: seq<Event>, room: string, day: int): (r: seq<ExtendedEvent>)
    ensures |r| == |events|
    ensures forall k :: 0 <= k < |events| ==> r[k] == ExtendedEvent(events[k].(room := room), day)
  {
    if |events| == 0 then []
    else Tag(events[..|events| - 1], room, day) + [ExtendedEvent(events[|events| - 1].(room := room), day)]
  }

  /** The flattened events of a list of rooms of the day at position `day`. */
  function RoomsEvents(rooms: seq<(string, seq<Event>)>, day: int): seq<ExtendedEvent>
  {
    if |rooms| == 0 then []
    else
      var last := rooms[|rooms| - 1];
      RoomsEvents(rooms[..|rooms| - 1], day) + Tag(last.1, last.0, day)
  }

  /** The flattened events of a list of days; day `d` is tagged with its position `d`. */
  function DaysEvents(days: seq<Day>): seq<ExtendedEvent>
  {
    if |days| == 0 then []
    else DaysEvents(days[..|days| - 1]) + RoomsEvents(days[|days| - 1].rooms, |days| - 1)
  }

  /** The flat event list of a schedule. */
  function Flatten(schedule: Schedule): seq<ExtendedEvent>
  {
    DaysEvents(schedule.conference.days)
  }

  /** The number of events listed under a list of rooms. */
  function RoomsCount(rooms: seq<(string, seq<Event>)>): nat
  {
    if |rooms| == 0 then 0 else RoomsCount(rooms[..|rooms| - 1]) + |rooms[|rooms| - 1].1|
  }

  /** The number of events listed under all rooms of all days. */
  function DaysCount(days: seq<Day>): nat
  {
    if |days| == 0 then 0 else DaysCount(days[..|days| - 1]) + RoomsCount(days[|days| - 1].rooms)
  }

  /**
   The loop of `parseData`: for each day position, for each room key, for each
   event, append the event with the room key and the day position.
   */
  method ParseData(schedule: Schedule) returns (data: seq<ExtendedEvent>)
    ensures data == Flatten(schedule)
  {
    var days := schedule.conference.days;
    data := [];
    var d := 0;
    while d < |days|
      invariant 0 <= d <= |days|
      invariant data == DaysEvents(days[..d])
    {
      data := PushDay(data, days[d].rooms, d);
      assert days[..d + 1][..d] == days[..d];
      d := d + 1;
    }
    assert days[..d] == days;
  }

  /** The middle loop of `parseData`: the rooms of the day at position `d`, in key order. */
  method PushDay(acc: seq<ExtendedEvent>, rooms: seq<(string, seq<Event>)>, d: int) returns (data: seq<ExtendedEvent>)
    ensures data == acc + RoomsEvents(rooms, d)
  {
    data := acc;
    var r := 0;
    while r < |rooms|
      invariant 0 <= r <= |rooms|
      invariant data == acc + RoomsEvents(rooms[..r], d)
    {
      data := PushRoom(data, rooms[r].1, rooms[r].0, d);
      assert rooms[..r + 1][..r] == rooms[..r];
      r := r + 1;
    }
    assert rooms[..r] == rooms;
  }

  /** The inner loop of `parseData`: the events of one room, re-tagged, in list order. */
  method PushRoom(acc: seq<ExtendedEvent>, events: seq<Event>, room: string, d: int) returns (data: seq<ExtendedEvent>)
    ensures data == acc + Tag(events, room, d)
  {
    data := acc;
    var k := 0;
    while k < |events|
      invariant 0 <= k <= |events|
      invariant data == acc + Tag(events[..k], room, d)
    {
      data := data + [ExtendedEvent(events[k].(room := room), d)];
      assert events[..k + 1][..k] == events[..k];
      k := k + 1;
    }
    assert events[..k] == events;
  }

  lemma {:induction false} RoomsEventsCount(rooms: seq<(string, seq<Event>)>, day: int)
    ensures |RoomsEvents(rooms, day)| == RoomsCount(rooms)
    decreases |rooms|
  {
    if |rooms| > 0 {
      RoomsEventsCount(rooms[..|rooms| - 1], day);
    }
  }

  /** The flat list has one entry per event of every room of every day. */
  lemma {:induction false} FlattenCount(days: seq<Day>)
    ensures |DaysEvents(days)| == DaysCount(days)
    decreases |days|
  {
    if |days| > 0 {
      FlattenCount(days[..|days| - 1]);
      RoomsEventsCount(days[|days| - 1].rooms, |days| - 1);
    }
  }

  /** `x` is event `k` of room `r` of day `d`, re-tagged as `parseData` tags it. */
  predicate IsOrigin(days: seq<Day>, x: ExtendedEvent, d: int, r: int, k: int)
  {
    && 0 <= d < |days|
    && 0 <= r < |days[d].rooms|
    && 0 <= k < |days[d].rooms[r].1|
    && x == ExtendedEvent(days[d].rooms[r].1[k].(room := days[d].rooms[r].0), d)
  }

  /** The events of the last room follow those of all earlier rooms. */
  lemma RoomsEventsAtLast(rooms: seq<(string, seq<Event>)>, day: int, k: int)
    requires |rooms| > 0 && 0 <= k < |rooms[|rooms| - 1].1|
    ensures RoomsCount(rooms[..|rooms| - 1]) + k < |RoomsEvents(rooms, day)|
    ensures RoomsEvents(rooms, day)[RoomsCount(rooms[..|rooms| - 1]) + k]
      == ExtendedEvent(rooms[|rooms| - 1].1[k].(room := rooms[|rooms| - 1].0), day)
  {
    var init := rooms[..|rooms| - 1];
    var tag := Tag(rooms[|rooms| - 1].1, rooms[|rooms| - 1].0, day);
    RoomsEventsCount(init, day);
    assert RoomsEvents(rooms, day) == RoomsEvents(init, day) + tag;
  }

  /** Appending a room leaves the positions of the earlier rooms' events alone. */
  lemma RoomsEventsAtInit(rooms: seq<(string, seq<Event>)>, day: int, i: int)
    requires |rooms| > 0 && 0 <= i < |RoomsEvents(rooms[..|rooms| - 1], day)|
    ensures i < |RoomsEvents(rooms, day)|
    ensures RoomsEvents(rooms, day)[i] == RoomsEvents(rooms[..|rooms| - 1], day)[i]
  {
  }

  /** Event `k` of room `r` sits after all events of the earlier rooms. */
  lemma {:induction false} RoomsEventsAt(rooms: seq<(string, seq<Event>)>, day: int, r: int, k: int)
    requires 0 <= r < |rooms| && 0 <= k < |rooms[r].1|
    ensures RoomsCount(rooms[..r]) + k < |RoomsEvents(rooms, day)|
    ensures RoomsEvents(rooms, day)[RoomsCount(rooms[..r]) + k]
      == ExtendedEvent(rooms[r].1[k].(room := rooms[r].0), day)
    decreases |rooms|
  {
    var init := rooms[..|rooms| - 1];
    if r == |rooms| - 1 {
      RoomsEventsAtLast(rooms, day, k);
    } else {
      RoomsEventsAt(init, day, r, k);
      assert init[..r] == rooms[..r];
      RoomsEventsAtInit(rooms, day, RoomsCount(rooms[..r]) + k);
    }
  }

  /** The events of the last day follow those of all earlier days. */
  lemma DaysEventsAtLast(days: seq<Day>, j: int)
    requires |days| > 0 && 0 <= j < |RoomsEvents(days[|days| - 1].rooms, |days| - 1)|
    ensures DaysCount(days[..|days| - 1]) + j < |DaysEvents(days)|
    ensures DaysEvents(days)[DaysCount(days[..|days| - 1]) + j]
      == RoomsEvents(days[|days| - 1].rooms, |days| - 1)[j]
  {
    var init := days[..|days| - 1];
    FlattenCount(init);
    assert DaysEvents(days) == DaysEvents(init) + RoomsEvents(days[|days| - 1].rooms, |days| - 1);
  }

  /** Appending a day leaves the positions of the earlier days' events alone. */
  lemma DaysEventsAtInit(days: seq<Day>, i: int)
    requires |days| > 0 && 0 <= i < |DaysEvents(days[..|days| - 1])|
    ensures i < |DaysEvents(days)|
    ensures DaysEvents(days)[i] == DaysEvents(days[..|days| - 1])[i]
  {
  }

  /**
   Event `k` of room `r` of day `d` appears in the flat list at position
   (events of days before `d`) + (events of rooms before `r` in day `d`) + `k`,
   copied with the room key as its `room` and `d` as its `day`.
   */
  lemma {:induction false} FlattenAt(days: seq<Day>, d: int, r: int, k: int)
    requires 0 <= d < |days| && 0 <= r < |days[d].rooms| && 0 <= k < |days[d].rooms[r].1|
    ensures DaysCount(days[..d]) + RoomsCount(days[d].rooms[..r]) + k < |DaysEvents(days)|
    ensures DaysEvents(days)[DaysCount(days[..d]) + RoomsCount(days[d].rooms[..r]) + k]
      == ExtendedEvent(days[d].rooms[r].1[k].(room := days[d].rooms[r].0), d)
    decreases |days|
  {
    var init := days[..|days| - 1];
    if d == |days| - 1 {
      RoomsEventsAt(days[d].rooms, d, r, k);
      assert days[..d] == init;
      DaysEventsAtLast(days, RoomsCount(days[d].rooms[..r]) + k);
    } else {
      var i := DaysCount(days[..d]) + RoomsCount(days[d].rooms[..r]) + k;
      var x := ExtendedEvent(days[d].rooms[r].1[k].(room := days[d].rooms[r].0), d);
      FlattenAt(init, d, r, k);
      assert init[..d] == days[..d] && init[d] == days[d];
      assert DaysEvents(init)[i] == x;
      DaysEventsAtInit(days, i);
      assert DaysEvents(days)[i] == x;
    }
  }

  lemma {:induction false} TagMembership(events: seq<Event>, room: string, day: int, x: ExtendedEvent)
    requires x in Tag(events, room, day)
    ensures exists k :: 0 <= k < |events| && x == ExtendedEvent(events[k].(room := room), day)
  {
    var i :| 0 <= i < |events| && Tag(events, room, day)[i] == x;
  }

  lemma {:induction false} RoomsEventsMembership(rooms: seq<(string, seq<Event>)>, day: int, x: ExtendedEvent)
    requires x in RoomsEvents(rooms, day)
    ensures exists r, k ::
      (0 <= r < |rooms| && 0 <= k < |rooms[r].1| && x == ExtendedEvent(rooms[r].1[k].(room := rooms[r].0), day))
    decreases |rooms|
  {
    var n := |rooms|;
    if x in RoomsEvents(rooms[..n - 1], day) {
      RoomsEventsMembership(rooms[..n - 1], day, x);
      var r, k :| 0 <= r < n - 1 && 0 <= k < |rooms[..n - 1][r].1|
        && x == ExtendedEvent(rooms[..n - 1][r].1[k].(room := rooms[..n - 1][r].0), day);
      assert rooms[..n - 1][r] == rooms[r];
    } else {
      TagMembership(rooms[n - 1].1, rooms[n - 1].0, day, x);
    }
  }

  /**
   An event is in the flat list iff it is some event of some room of some day,
   re-tagged with that room's key and that day's position.
   */
  lemma {:induction false} FlattenMembership(days: seq<Day>, x: ExtendedEvent)
    ensures x in DaysEvents(days) <==> exists d, r, k :: IsOrigin(days, x, d, r, k)
    decreases |days|
  {
    if exists d, r, k :: IsOrigin(days, x, d, r, k) {
      var d, r, k :| IsOrigin(days, x, d, r, k);
      FlattenAt(days, d, r, k);
    }
    if x in DaysEvents(days) {
      var n := |days|;
      var init := days[..n - 1];
      if x in DaysEvents(init) {
        FlattenMembership(init, x);
        var d, r, k :| IsOrigin(init, x, d, r, k);
        assert init[d] == days[d];
        assert IsOrigin(days, x, d, r, k);
      } else {
        RoomsEventsMembership(days[n - 1].rooms, n - 1, x);
        var r, k :| 0 <= r < |days[n - 1].rooms| && 0 <= k < |days[n - 1].rooms[r].1|
          && x == ExtendedEvent(days[n - 1].rooms[r].1[k].(room := days[n - 1].rooms[r].0), n - 1);
        assert IsOrigin(days, x, n - 1, r, k);
      }
    }
  }

  lemma {:induction false} RoomsEventsAppend(a: seq<(string, seq<Event>)>, b: seq<(string, seq<Event>)>, day: int)
    ensures RoomsEvents(a + b, day) == RoomsEvents(a, day) + RoomsEvents(b, day)
    decreases |b|
  {
    if |b| == 0 {
      assert a + b == a;
    } else {
      var n := |b|;
      assert (a + b)[..|a + b| - 1] == a + b[..n - 1];
      assert (a + b)[|a + b| - 1] == b[n - 1];
      RoomsEventsAppend(a, b[..n - 1], day);
    }
  }

  /** A room with no events contributes nothing, wherever it is listed. */
  lemma EmptyRoomContributesNothing(rooms: seq<(string, seq<Event>)>, i: int, key: string, day: int)
    requires 0 <= i <= |rooms|
    ensures RoomsEvents(rooms[..i] + [(key, [])] + rooms[i..], day) == RoomsEvents(rooms, day)
  {
    var empty: seq<(string, seq<Event>)> := [(key, [])];
    var a, b := rooms[..i], rooms[i..];
    assert RoomsEvents(empty, day) == [] by {
      assert empty[..0] == [];
    }
    RoomsEventsAppend(a + empty, b, day);
    RoomsEventsAppend(a, empty, day);
    assert RoomsEvents(a + empty, day) == RoomsEvents(a, day);
    RoomsEventsAppend(a, b, day);
    assert a + b == rooms;
  }

  lemma {:induction false} RoomsCountZero(rooms: seq<(string, seq<Event>)>, r: int)
    requires RoomsCount(rooms) == 0 && 0 <= r < |rooms|
    ensures |rooms[r].1| == 0
    decreases |rooms|
  {
    if r < |rooms| - 1 {
      RoomsCountZero(rooms[..|rooms| - 1], r);
    }
  }

  /**
   Each flattened event's `day` is the position of a day in the array, and a
   day with no events (no rooms, or only empty rooms) contributes no event.
   */
  lemma FlattenDays(days: seq<Day>, x: ExtendedEvent)
    requires x in DaysEvents(days)
    ensures 0 <= x.day < |days|
    ensures RoomsCount(days[x.day].rooms) > 0
  {
    FlattenMembership(days, x);
    var d, r, k :| IsOrigin(days, x, d, r, k);
    if RoomsCount(days[d].rooms) == 0 {
      RoomsCountZero(days[d].rooms, r);
    }
  }
}
