/**
 What the feed schema accepts and rejects. The first group of lemmas holds for
 every object shape (a missing required key rejects, an unknown key is ignored,
 an optional key may be dropped, `null` passes exactly the nullable keys); the
 rest spell out, schema by schema, what a document must contain.
 */
module SchemaFacts {
  import opened Wrappers
  import opened Json
  import opened Schema

  predicate IsStringAt(m: seq<(string, Json)>, k: string)
  {
    Get(m, k).Some? && Get(m, k).value.Str?
  }

  predicate IsNumberAt(m: seq<(string, Json)>, k: string)
  {
    Get(m, k).Some? && Get(m, k).value.Num?
  }

  predicate IsStringOrNullAt(m: seq<(string, Json)>, k: string)
  {
    Get(m, k).Some? && (Get(m, k).value.Str? || Get(m, k).value.Null?)
  }

  /** The key is absent, or its value is `null` or accepted by `s`. */
  predicate IsAbsentNullOr(m: seq<(string, Json)>, k: string, s: Schema)
  {
    Get(m, k).None? || Get(m, k).value.Null? || Accepts(s, Get(m, k).value)
  }

  /** The key is absent or its value is accepted by `s`. */
  predicate IsAbsentOr(m: seq<(string, Json)>, k: string, s: Schema)
  {
    Get(m, k).None? || Accepts(s, Get(m, k).value)
  }

  predicate Keys(shape: seq<Entry>, k: string)
  {
    exists i :: 0 <= i < |shape| && shape[i].key == k
  }

  // ---------------------------------------------------------------------------
  // Facts about every object shape
  // ---------------------------------------------------------------------------

  /** No schema accepts `null` by itself; only a nullable key lets it through. */
  lemma NullNeverAccepted(s: Schema)
    ensures !Accepts(s, Null)
  {
  }

  /** An accepted object satisfies each entry of its shape. */
  lemma EntryHolds(shape: seq<Entry>, m: seq<(string, Json)>, e: Entry)
    requires Accepts(ZObject(shape), Obj(m))
    requires e in shape
    ensures EntryAccepts(e, m)
  {
  }

  /** An object satisfying every entry of a shape is accepted by it. */
  lemma AcceptedByEntries(shape: seq<Entry>, m: seq<(string, Json)>)
    requires forall e :: e in shape ==> EntryAccepts(e, m)
    ensures Accepts(ZObject(shape), Obj(m))
  {
    forall i | 0 <= i < |shape|
      ensures EntryAccepts(shape[i], m)
    {
      assert shape[i] in shape;
    }
  }

  /** An object accepted by two shapes is accepted by their concatenation. */
  lemma AcceptedByParts(a: seq<Entry>, b: seq<Entry>, m: seq<(string, Json)>)
    requires Accepts(ZObject(a), Obj(m)) && Accepts(ZObject(b), Obj(m))
    ensures Accepts(ZObject(a + b), Obj(m))
  {
    forall i | 0 <= i < |a + b|
      ensures EntryAccepts((a + b)[i], m)
    {
      if i < |a| {
        assert EntryAccepts(a[i], m);
      } else {
        assert EntryAccepts(b[i - |a|], m);
      }
    }
  }

  /** An accepted object holds an accepted value under each key that is neither optional nor nullable. */
  lemma RequiredEntryValue(shape: seq<Entry>, m: seq<(string, Json)>, i: int)
    requires Accepts(ZObject(shape), Obj(m))
    requires 0 <= i < |shape| && !shape[i].optional && !shape[i].nullable
    ensures Get(m, shape[i].key).Some? && Accepts(shape[i].schema, Get(m, shape[i].key).value)
  {
    assert EntryAccepts(shape[i], m);
  }

  /** Leaving out a key that is not optional rejects the object, whatever else it holds. */
  lemma MissingRequiredKeyRejects(shape: seq<Entry>, m: seq<(string, Json)>, i: int)
    requires 0 <= i < |shape| && !shape[i].optional
    ensures !Accepts(ZObject(shape), Obj(Without(m, shape[i].key)))
  {
    assert !EntryAccepts(shape[i], Without(m, shape[i].key));
  }

  /** Setting a key to `null` rejects the object when that key is not nullable. */
  lemma NullRejectedUnlessNullable(shape: seq<Entry>, m: seq<(string, Json)>, i: int)
    requires 0 <= i < |shape| && !shape[i].nullable
    ensures !Accepts(ZObject(shape), Obj(With(m, shape[i].key, Null)))
  {
    NullNeverAccepted(shape[i].schema);
    assert !EntryAccepts(shape[i], With(m, shape[i].key, Null));
  }

  /** Adding, changing or dropping a key the shape does not mention never changes acceptance. */
  lemma UnknownKeyIgnored(shape: seq<Entry>, m: seq<(string, Json)>, k: string, v: Json)
    requires !Keys(shape, k)
    ensures Accepts(ZObject(shape), Obj(With(m, k, v))) <==> Accepts(ZObject(shape), Obj(m))
    ensures Accepts(ZObject(shape), Obj(Without(m, k))) <==> Accepts(ZObject(shape), Obj(m))
  {
    forall i | 0 <= i < |shape|
      ensures EntryAccepts(shape[i], With(m, k, v)) == EntryAccepts(shape[i], m)
      ensures EntryAccepts(shape[i], Without(m, k)) == EntryAccepts(shape[i], m)
    {
      assert shape[i].key != k;
    }
  }

  /** No entry of the shape other than entry `i` has entry `i`'s key. */
  predicate UniqueKeyAt(shape: seq<Entry>, i: int)
    requires 0 <= i < |shape|
  {
    forall j :: 0 <= j < |shape| && j != i ==> shape[j].key != shape[i].key
  }

  /** An accepted object stays accepted when an optional key is dropped. */
  lemma OptionalKeyRemovable(shape: seq<Entry>, m: seq<(string, Json)>, i: int)
    requires 0 <= i < |shape| && shape[i].optional && UniqueKeyAt(shape, i)
    requires Accepts(ZObject(shape), Obj(m))
    ensures Accepts(ZObject(shape), Obj(Without(m, shape[i].key)))
  {
    var k := shape[i].key;
    forall j | 0 <= j < |shape|
      ensures EntryAccepts(shape[j], Without(m, k))
    {
      assert EntryAccepts(shape[j], m);
      if j != i {
        assert shape[j].key != k;
        assert Get(Without(m, k), shape[j].key) == Get(m, shape[j].key);
      }
    }
  }

  /** An accepted object stays accepted when a nullable key is set to `null`. */
  lemma NullableKeyAcceptsNull(shape: seq<Entry>, m: seq<(string, Json)>, i: int)
    requires 0 <= i < |shape| && shape[i].nullable && UniqueKeyAt(shape, i)
    requires Accepts(ZObject(shape), Obj(m))
    ensures Accepts(ZObject(shape), Obj(With(m, shape[i].key, Null)))
  {
    var k := shape[i].key;
    forall j | 0 <= j < |shape|
      ensures EntryAccepts(shape[j], With(m, k, Null))
    {
      assert EntryAccepts(shape[j], m);
      if j != i {
        assert shape[j].key != k;
        assert Get(With(m, k, Null), shape[j].key) == Get(m, shape[j].key);
      }
    }
  }

  // ---------------------------------------------------------------------------
  // Events and persons
  // ---------------------------------------------------------------------------

  predicate ValidPerson(j: Json) { Accepts(PersonSchema, j) }
  predicate ValidEvent(j: Json) { Accepts(EventSchema, j) }

  /** The event keys whose value must be a string. */
  const EventStringKeys: seq<string> :=
    ["guid", "date", "start", "duration", "room", "slug", "url", "title", "type", "abstract", "description"]

  /** The event keys that must be present but may hold `null`. */
  const EventNullableKeys: seq<string> := ["subtitle", "language", "track", "logo"]

  /** The event keys that may be left out. */
  const EventOptionalKeys: seq<string> :=
    ["links", "attachments", "feedback_url", "recording_license", "do_not_record", "do_not_stream"]

  /** An accepted event has its eleven string fields as strings and a numeric `id`. */
  lemma EventRequiredFields(j: Json)
    requires ValidEvent(j)
    ensures j.Obj?
    ensures forall k :: k in EventStringKeys ==> IsStringAt(j.members, k)
    ensures IsNumberAt(j.members, "id")
  {
    forall k | k in EventStringKeys
      ensures IsStringAt(j.members, k)
    {
      EntryHolds(EventSchema.shape, j.members, Req(k, ZString));
    }
    EntryHolds(EventSchema.shape, j.members, Req("id", ZNumber));
  }

  /** Position of each nullable key in the event shape. */
  function NullableEventKeyIndex(k: string): (i: int)
    requires k in EventNullableKeys
    ensures 0 <= i < |EventSchema.shape|
    ensures EventSchema.shape[i] == Nullable(k, ZString)
  {
    if k == "subtitle" then 9 else if k == "language" then 10 else if k == "track" then 11 else 15
  }

  /**
   `subtitle`, `language`, `track` and `logo` hold a string or `null` in an
   accepted event, and leaving one out rejects any event.
   */
  lemma EventNullableFields(m: seq<(string, Json)>, k: string)
    requires k in EventNullableKeys
    ensures ValidEvent(Obj(m)) ==> IsStringOrNullAt(m, k)
    ensures !ValidEvent(Obj(Without(m, k)))
  {
    var i := NullableEventKeyIndex(k);
    if ValidEvent(Obj(m)) {
      assert EntryAccepts(EventSchema.shape[i], m);
    }
    MissingRequiredKeyRejects(EventSchema.shape, m, i);
  }

  /** Setting `subtitle`, `language`, `track` or `logo` to `null` keeps an accepted event accepted. */
  lemma EventNullableAcceptsNull(m: seq<(string, Json)>, k: string)
    requires k in EventNullableKeys
    requires ValidEvent(Obj(m))
    ensures ValidEvent(Obj(With(m, k, Null)))
  {
    var i := NullableEventKeyIndex(k);
    assert UniqueKeyAt(EventSchema.shape, i);
    NullableKeyAcceptsNull(EventSchema.shape, m, i);
  }

  /** A string-valued or numeric event key, or `persons`, set to `null` or left out rejects the event. */
  lemma EventRequiredFieldsNotNullable(m: seq<(string, Json)>, k: string)
    requires k in EventStringKeys || k == "id" || k == "persons"
    ensures !ValidEvent(Obj(With(m, k, Null)))
    ensures !ValidEvent(Obj(Without(m, k)))
  {
    var shape := EventSchema.shape;
    var i: int;
    if k == "id" {
      i := 1;
    } else if k == "persons" {
      i := 16;
    } else {
      assert Req(k, ZString) in shape;
      i :| 0 <= i < |shape| && shape[i] == Req(k, ZString);
    }
    NullRejectedUnlessNullable(shape, m, i);
    MissingRequiredKeyRejects(shape, m, i);
  }

  /** Each optional event key may be dropped from an accepted event. */
  lemma EventOptionalFieldRemovable(m: seq<(string, Json)>, k: string)
    requires k in EventOptionalKeys
    requires ValidEvent(Obj(m))
    ensures ValidEvent(Obj(Without(m, k)))
  {
    var i := if k == "links" then 17 else if k == "attachments" then 18
      else if k == "feedback_url" then 19 else if k == "recording_license" then 20
      else if k == "do_not_record" then 21 else 22;
    assert EventSchema.shape[i].key == k && EventSchema.shape[i].optional;
    assert UniqueKeyAt(EventSchema.shape, i);
    OptionalKeyRemovable(EventSchema.shape, m, i);
  }

  /** When an optional event key is present it has the declared type. */
  lemma EventOptionalFieldsTyped(j: Json)
    requires ValidEvent(j)
    ensures j.Obj?
    ensures IsAbsentOr(j.members, "links", ZArray(LinkSchema))
    ensures IsAbsentOr(j.members, "attachments", ZArray(AttachmentSchema))
    ensures IsAbsentOr(j.members, "feedback_url", ZString)
    ensures IsAbsentOr(j.members, "recording_license", ZString)
    ensures IsAbsentOr(j.members, "do_not_record", ZBoolean)
    ensures IsAbsentOr(j.members, "do_not_stream", ZBoolean)
  {
    var shape := EventSchema.shape;
    EntryHolds(shape, j.members, Opt("links", ZArray(LinkSchema)));
    EntryHolds(shape, j.members, Opt("attachments", ZArray(AttachmentSchema)));
    EntryHolds(shape, j.members, Opt("feedback_url", ZString));
    EntryHolds(shape, j.members, Opt("recording_license", ZString));
    EntryHolds(shape, j.members, Opt("do_not_record", ZBoolean));
    EntryHolds(shape, j.members, Opt("do_not_stream", ZBoolean));
  }

  /**
   A person is accepted iff it has string `guid`, `name`, `public_name` and
   `url`, an `avatar` that is a string or `null`, and a `biography` that is a
   string, `null` or absent.
   */
  lemma PersonAcceptedIff(j: Json)
    ensures ValidPerson(j) <==>
      && j.Obj?
      && IsStringAt(j.members, "guid")
      && IsStringAt(j.members, "name")
      && IsStringAt(j.members, "public_name")
      && IsStringOrNullAt(j.members, "avatar")
      && IsAbsentNullOr(j.members, "biography", ZString)
      && IsStringAt(j.members, "url")
  {
    if j.Obj? {
      var shape := PersonSchema.shape;
      var m := j.members;
      if ValidPerson(j) {
        EntryHolds(shape, m, Req("guid", ZString));
        EntryHolds(shape, m, Req("name", ZString));
        EntryHolds(shape, m, Req("public_name", ZString));
        EntryHolds(shape, m, Nullable("avatar", ZString));
        EntryHolds(shape, m, NullOpt("biography", ZString));
        EntryHolds(shape, m, Req("url", ZString));
      }
    }
  }

  /** An accepted event's `persons` is an array of accepted persons. */
  lemma EventPersons(j: Json)
    requires ValidEvent(j)
    ensures j.Obj? && Get(j.members, "persons").Some?
    ensures var p := Get(j.members, "persons").value;
      p.Arr? && forall i :: 0 <= i < |p.items| ==> ValidPerson(p.items[i])
  {
    EntryHolds(EventSchema.shape, j.members, Req("persons", ZArray(PersonSchema)));
  }

  /** Keys outside the event shape never change whether an event is accepted. */
  lemma EventUnknownKeyIgnored(m: seq<(string, Json)>, k: string, v: Json)
    requires k !in EventStringKeys && k !in EventNullableKeys && k !in EventOptionalKeys
    requires k != "id" && k != "persons"
    ensures ValidEvent(Obj(With(m, k, v))) <==> ValidEvent(Obj(m))
  {
    UnknownKeyIgnored(EventSchema.shape, m, k, v);
  }

  /**
   An event is accepted iff its eleven string keys hold strings, `id` is a
   number, `subtitle`, `language`, `track` and `logo` hold a string or `null`,
   `persons` is an array of accepted persons, and each optional key is absent
   or has its declared type.
   */
  predicate EventFields(j: Json)
  {
    && j.Obj?
    && (forall k :: k in EventStringKeys ==> IsStringAt(j.members, k))
    && IsNumberAt(j.members, "id")
    && (forall k :: k in EventNullableKeys ==> IsStringOrNullAt(j.members, k))
    && Get(j.members, "persons").Some? && AllItems(Get(j.members, "persons").value, PersonSchema)
    && IsAbsentOr(j.members, "links", ZArray(LinkSchema))
    && IsAbsentOr(j.members, "attachments", ZArray(AttachmentSchema))
    && IsAbsentOr(j.members, "feedback_url", ZString)
    && IsAbsentOr(j.members, "recording_license", ZString)
    && IsAbsentOr(j.members, "do_not_record", ZBoolean)
    && IsAbsentOr(j.members, "do_not_stream", ZBoolean)
  }

  lemma EventAcceptedIff(j: Json)
    ensures ValidEvent(j) <==> EventFields(j)
  {
    if ValidEvent(j) {
      EventRequiredFields(j);
      forall k | k in EventNullableKeys
        ensures IsStringOrNullAt(j.members, k)
      {
        EventNullableFields(j.members, k);
      }
      EventPersons(j);
      EventOptionalFieldsTyped(j);
    }
    if EventFields(j) {
      EventFieldsAccepted(j);
    }
  }

  /** The "if" half of the event rule, shown for four runs of keys in turn. */
  lemma EventFieldsAccepted(j: Json)
    requires EventFields(j)
    ensures ValidEvent(j)
  {
    var m, shape := j.members, EventSchema.shape;
    assert shape == shape[..5] + shape[5..9] + shape[9..17] + shape[17..];
    EventIdentityAccepted(m);
    EventPlacementAccepted(m);
    EventTrailingAccepted(m);
    EventOptionalAccepted(m);
    AcceptedByParts(shape[..5], shape[5..9], m);
    AcceptedByParts(shape[..5] + shape[5..9], shape[9..17], m);
    AcceptedByParts(shape[..5] + shape[5..9] + shape[9..17], shape[17..], m);
  }

  /** `guid`, `id`, `date`, `start` and `duration`. */
  lemma EventIdentityAccepted(m: seq<(string, Json)>)
    requires EventFields(Obj(m))
    ensures Accepts(ZObject(EventSchema.shape[..5]), Obj(m))
  {
    var shape := EventSchema.shape[..5];
    forall k | k in ["guid", "date", "start", "duration"]
      ensures EntryAccepts(Req(k, ZString), m)
    {
      assert k in EventStringKeys;
    }
    assert EntryAccepts(Req("id", ZNumber), m);
    forall e | e in shape
      ensures EntryAccepts(e, m)
    {
    }
    AcceptedByEntries(shape, m);
  }

  /** `room`, `slug`, `url` and `title`. */
  lemma EventPlacementAccepted(m: seq<(string, Json)>)
    requires EventFields(Obj(m))
    ensures Accepts(ZObject(EventSchema.shape[5..9]), Obj(m))
  {
    var shape := EventSchema.shape[5..9];
    forall k | k in ["room", "slug", "url", "title"]
      ensures EntryAccepts(Req(k, ZString), m)
    {
      assert k in EventStringKeys;
    }
    forall e | e in shape
      ensures EntryAccepts(e, m)
    {
    }
    AcceptedByEntries(shape, m);
  }

  /** `subtitle` through `persons`: the nullable keys, the trailing string keys and `persons`. */
  lemma EventTrailingAccepted(m: seq<(string, Json)>)
    requires EventFields(Obj(m))
    ensures Accepts(ZObject(EventSchema.shape[9..17]), Obj(m))
  {
    var shape := EventSchema.shape[9..17];
    forall k | k in ["type", "abstract", "description"]
      ensures EntryAccepts(Req(k, ZString), m)
    {
      assert k in EventStringKeys;
    }
    forall k | k in EventNullableKeys
      ensures EntryAccepts(Nullable(k, ZString), m)
    {
      assert IsStringOrNullAt(m, k);
    }
    assert EntryAccepts(Req("persons", ZArray(PersonSchema)), m);
    forall e | e in shape
      ensures EntryAccepts(e, m)
    {
    }
    AcceptedByEntries(shape, m);
  }

  lemma EventOptionalAccepted(m: seq<(string, Json)>)
    requires EventFields(Obj(m))
    ensures Accepts(ZObject(EventSchema.shape[17..]), Obj(m))
  {
    var shape := EventSchema.shape[17..];
    forall e | e in shape
      ensures EntryAccepts(e, m)
    {
    }
    AcceptedByEntries(shape, m);
  }

  // ---------------------------------------------------------------------------
  // Rooms, days, the conference and the document
  // ---------------------------------------------------------------------------

  predicate ValidAssembly(j: Json) { Accepts(AssemblySchema, j) }
  predicate ValidRoom(j: Json) { Accepts(RoomSchema, j) }
  predicate ValidDay(j: Json) { Accepts(DaySchema, j) }
  predicate ValidConference(j: Json) { Accepts(ConferenceSchema, j) }
  predicate ValidData(j: Json) { Accepts(DataSchema, j) }

  // ---------------------------------------------------------------------------
  // The small records: tracks, assemblies, links, attachments
  // ---------------------------------------------------------------------------

  /** A track is accepted iff its `name`, `color` and `slug` are strings. */
  lemma TrackAcceptedIff(j: Json)
    ensures Accepts(TrackSchema, j) <==>
      j.Obj? && IsStringAt(j.members, "name") && IsStringAt(j.members, "color") && IsStringAt(j.members, "slug")
  {
    if j.Obj? && Accepts(TrackSchema, j) {
      EntryHolds(TrackSchema.shape, j.members, Req("name", ZString));
      EntryHolds(TrackSchema.shape, j.members, Req("color", ZString));
      EntryHolds(TrackSchema.shape, j.members, Req("slug", ZString));
    }
  }

  /** An assembly is accepted iff its `name`, `slug` and `guid` are strings. */
  lemma AssemblyAcceptedIff(j: Json)
    ensures ValidAssembly(j) <==>
      j.Obj? && IsStringAt(j.members, "name") && IsStringAt(j.members, "slug") && IsStringAt(j.members, "guid")
  {
    if j.Obj? && ValidAssembly(j) {
      EntryHolds(AssemblySchema.shape, j.members, Req("name", ZString));
      EntryHolds(AssemblySchema.shape, j.members, Req("slug", ZString));
      EntryHolds(AssemblySchema.shape, j.members, Req("guid", ZString));
    }
  }

  /** A link is accepted iff its `url` and `title` are strings. */
  lemma LinkAcceptedIff(j: Json)
    ensures Accepts(LinkSchema, j) <==> j.Obj? && IsStringAt(j.members, "url") && IsStringAt(j.members, "title")
  {
    if j.Obj? && Accepts(LinkSchema, j) {
      EntryHolds(LinkSchema.shape, j.members, Req("url", ZString));
      EntryHolds(LinkSchema.shape, j.members, Req("title", ZString));
    }
  }

  /** An attachment is accepted exactly when a link is: a string `url` and a string `title`. */
  lemma AttachmentAcceptedIff(j: Json)
    ensures Accepts(AttachmentSchema, j) <==> Accepts(LinkSchema, j)
  {
    LinkAcceptedIff(j);
    if j.Obj? && Accepts(AttachmentSchema, j) {
      EntryHolds(AttachmentSchema.shape, j.members, Req("url", ZString));
      EntryHolds(AttachmentSchema.shape, j.members, Req("title", ZString));
    }
  }


  /** Every value of the object `j` is accepted by `s` (what `z.record(s)` demands). */
  predicate AllValues(j: Json, s: Schema)
  {
    j.Obj? && forall i :: 0 <= i < |j.members| ==> Accepts(s, j.members[i].1)
  }

  /** `j` is an array whose every element is accepted by `s`. */
  predicate AllItems(j: Json, s: Schema)
  {
    j.Arr? && forall i :: 0 <= i < |j.items| ==> Accepts(s, j.items[i])
  }

  /**
   A room is accepted iff its `name`, `slug`, `guid` and `type` are strings, its
   `stream_id` is a string or `null`, its `capacity` is a number, both
   descriptions are strings, `null` or absent, `features` is absent or a record
   of strings, and `assembly` is an accepted assembly.
   */
  predicate RoomFields(j: Json)
  {
    && j.Obj?
    && IsStringAt(j.members, "name")
    && IsStringAt(j.members, "slug")
    && IsStringAt(j.members, "guid")
    && IsStringAt(j.members, "type")
    && IsStringOrNullAt(j.members, "stream_id")
    && IsNumberAt(j.members, "capacity")
    && IsAbsentNullOr(j.members, "description_en", ZString)
    && IsAbsentNullOr(j.members, "description_de", ZString)
    && (Get(j.members, "features").None? || AllValues(Get(j.members, "features").value, ZString))
    && Get(j.members, "assembly").Some? && ValidAssembly(Get(j.members, "assembly").value)
  }

  lemma RoomAcceptedIff(j: Json)
    ensures ValidRoom(j) <==> RoomFields(j)
  {
    if ValidRoom(j) {
      RoomAcceptedHasFields(j);
    }
    if RoomFields(j) {
      RoomFieldsAccepted(j);
    }
  }

  lemma RoomAcceptedHasFields(j: Json)
    requires ValidRoom(j)
    ensures RoomFields(j)
  {
    var shape, m := RoomSchema.shape, j.members;
    forall k | k in ["name", "slug", "guid", "type"]
      ensures IsStringAt(m, k)
    {
      EntryHolds(shape, m, Req(k, ZString));
    }
    forall k | k in ["description_en", "description_de"]
      ensures IsAbsentNullOr(m, k, ZString)
    {
      EntryHolds(shape, m, NullOpt(k, ZString));
    }
    EntryHolds(shape, m, Nullable("stream_id", ZString));
    EntryHolds(shape, m, Req("capacity", ZNumber));
    EntryHolds(shape, m, Opt("features", ZRecord(ZString)));
    EntryHolds(shape, m, Req("assembly", AssemblySchema));
  }

  lemma RoomFieldsAccepted(j: Json)
    requires RoomFields(j)
    ensures ValidRoom(j)
  {
    var shape, m := RoomSchema.shape, j.members;
    forall i | 0 <= i < |shape|
      ensures EntryAccepts(shape[i], m)
    {
      if i == 9 {
        assert shape[i] == Req("assembly", AssemblySchema);
      } else if i == 8 {
        assert shape[i] == Opt("features", ZRecord(ZString));
      }
    }
  }

  /**
   A day is accepted iff `index` is a number, `date`, `day_start` and `day_end`
   are strings, and `rooms` is an object whose every value is an array of
   accepted events.
   */
  predicate DayFields(j: Json)
  {
    && j.Obj?
    && IsNumberAt(j.members, "index")
    && IsStringAt(j.members, "date")
    && IsStringAt(j.members, "day_start")
    && IsStringAt(j.members, "day_end")
    && Get(j.members, "rooms").Some?
    && AllValues(Get(j.members, "rooms").value, ZArray(EventSchema))
  }

  lemma DayAcceptedIff(j: Json)
    ensures ValidDay(j) <==> DayFields(j)
  {
    if j.Obj? {
      var shape, m := DaySchema.shape, j.members;
      if DayFields(j) {
        forall e | e in shape
          ensures EntryAccepts(e, m)
        {
        }
        AcceptedByEntries(shape, m);
      }
      if ValidDay(j) {
        EntryHolds(shape, m, Req("index", ZNumber));
        EntryHolds(shape, m, Req("date", ZString));
        EntryHolds(shape, m, Req("day_start", ZString));
        EntryHolds(shape, m, Req("day_end", ZString));
        EntryHolds(shape, m, Req("rooms", ZRecord(ZArray(EventSchema))));
      }
    }
  }

  /**
   A conference is accepted iff its `acronym`, `title`, `start`, `end`,
   `timeslot_duration`, `time_zone_name` and `url` are strings, `daysCount` is
   a number, `tracks`, `rooms` and `days` are arrays of accepted tracks, rooms
   and days, and `assembly` is absent or a record of accepted assemblies.
   */
  predicate ConferenceFields(j: Json)
  {
    && j.Obj?
    && IsStringAt(j.members, "acronym") && IsStringAt(j.members, "title")
    && IsStringAt(j.members, "start") && IsStringAt(j.members, "end")
    && IsNumberAt(j.members, "daysCount")
    && IsStringAt(j.members, "timeslot_duration") && IsStringAt(j.members, "time_zone_name")
    && IsStringAt(j.members, "url")
    && Get(j.members, "tracks").Some? && AllItems(Get(j.members, "tracks").value, TrackSchema)
    && Get(j.members, "rooms").Some? && AllItems(Get(j.members, "rooms").value, RoomSchema)
    && (Get(j.members, "assembly").None? || AllValues(Get(j.members, "assembly").value, AssemblySchema))
    && Get(j.members, "days").Some? && AllItems(Get(j.members, "days").value, DaySchema)
  }

  lemma ConferenceAcceptedIff(j: Json)
    ensures ValidConference(j) <==> ConferenceFields(j)
  {
    if ValidConference(j) {
      ConferenceAccepted(j);
    }
    if ConferenceFields(j) {
      ConferenceFieldsAccepted(j);
    }
  }

  /** The "if" half of the conference rule, shown for the scalar keys and the collection keys in turn. */
  lemma ConferenceFieldsAccepted(j: Json)
    requires ConferenceFields(j)
    ensures ValidConference(j)
  {
    var shape := ConferenceSchema.shape;
    assert shape == shape[..8] + shape[8..];
    ConferenceScalarsAccepted(j);
    ConferenceCollectionsAccepted(j);
    AcceptedByParts(shape[..8], shape[8..], j.members);
  }

  /** `acronym` through `url`: the string keys and `daysCount`. */
  lemma ConferenceScalarsAccepted(j: Json)
    requires ConferenceFields(j)
    ensures Accepts(ZObject(ConferenceSchema.shape[..8]), j)
  {
    var shape, m := ConferenceSchema.shape[..8], j.members;
    forall e | e in shape
      ensures EntryAccepts(e, m)
    {
    }
    AcceptedByEntries(shape, m);
  }

  /** `tracks`, `rooms`, `assembly` and `days`. */
  lemma ConferenceCollectionsAccepted(j: Json)
    requires ConferenceFields(j)
    ensures Accepts(ZObject(ConferenceSchema.shape[8..]), j)
  {
    var shape, m := ConferenceSchema.shape[8..], j.members;
    forall e | e in shape
      ensures EntryAccepts(e, m)
    {
    }
    AcceptedByEntries(shape, m);
  }

  lemma ConferenceAccepted(j: Json)
    requires ValidConference(j)
    ensures ConferenceFields(j)
  {
    ConferenceScalars(j);
    var shape, m := ConferenceSchema.shape, j.members;
    RequiredEntryValue(shape, m, 8);
    RequiredEntryValue(shape, m, 9);
    RequiredEntryValue(shape, m, 11);
    assert EntryAccepts(shape[10], m);
  }

  lemma ConferenceScalars(j: Json)
    requires ValidConference(j)
    ensures j.Obj?
    ensures IsStringAt(j.members, "acronym") && IsStringAt(j.members, "title")
    ensures IsStringAt(j.members, "start") && IsStringAt(j.members, "end")
    ensures IsStringAt(j.members, "timeslot_duration") && IsStringAt(j.members, "time_zone_name")
    ensures IsStringAt(j.members, "url")
    ensures IsNumberAt(j.members, "daysCount")
  {
    var shape, m := ConferenceSchema.shape, j.members;
    forall k | k in ["acronym", "title", "start", "end", "timeslot_duration", "time_zone_name", "url"]
      ensures IsStringAt(m, k)
    {
      EntryHolds(shape, m, Req(k, ZString));
    }
    EntryHolds(shape, m, Req("daysCount", ZNumber));
  }

  /** Dropping `assembly` keeps an accepted conference accepted. */
  lemma ConferenceAssemblyOptional(m: seq<(string, Json)>)
    requires ValidConference(Obj(m))
    ensures ValidConference(Obj(Without(m, "assembly")))
  {
    assert UniqueKeyAt(ConferenceSchema.shape, 10);
    OptionalKeyRemovable(ConferenceSchema.shape, m, 10);
  }

  /** A schedule is accepted iff `version` and `base_url` are strings and `conference` is an accepted conference. */
  predicate ScheduleFields(j: Json)
  {
    && j.Obj?
    && IsStringAt(j.members, "version")
    && IsStringAt(j.members, "base_url")
    && Get(j.members, "conference").Some?
    && ValidConference(Get(j.members, "conference").value)
  }

  lemma ScheduleAcceptedIff(j: Json)
    ensures Accepts(ScheduleSchema, j) <==> ScheduleFields(j)
  {
    if j.Obj? {
      var shape, m := ScheduleSchema.shape, j.members;
      if Accepts(ScheduleSchema, j) {
        EntryHolds(shape, m, Req("version", ZString));
        EntryHolds(shape, m, Req("base_url", ZString));
        EntryHolds(shape, m, Req("conference", ConferenceSchema));
      }
      if ScheduleFields(j) {
        forall e | e in shape
          ensures EntryAccepts(e, m)
        {
        }
        AcceptedByEntries(shape, m);
      }
    }
  }

  /** The whole document is accepted iff `$schema` is a string and `schedule` is an accepted schedule. */
  lemma DataAcceptedIff(j: Json)
    ensures ValidData(j) <==>
      && j.Obj?
      && IsStringAt(j.members, "$schema")
      && Get(j.members, "schedule").Some?
      && ScheduleFields(Get(j.members, "schedule").value)
  {
    if j.Obj? {
      var shape, m := DataSchema.shape, j.members;
      if ValidData(j) {
        EntryHolds(shape, m, Req("$schema", ZString));
        EntryHolds(shape, m, Req("schedule", ScheduleSchema));
        ScheduleAcceptedIff(Get(m, "schedule").value);
      }
      if IsStringAt(m, "$schema") && Get(m, "schedule").Some? && ScheduleFields(Get(m, "schedule").value) {
        ScheduleAcceptedIff(Get(m, "schedule").value);
        forall e | e in shape
          ensures EntryAccepts(e, m)
        {
        }
        AcceptedByEntries(shape, m);
      }
    }
  }
}
