/**
 The schedule feed's schema, written the way zod declares it: a schema is a
 string, number, boolean, array, record or object shape, and an object shape
 lists its keys, each possibly `.nullable()` and/or `.optional()`. `Accepts`
 says which JSON documents the schema accepts; the parse result is not modelled.
 Keys the shape does not mention are ignored, as zod strips them.
 */
module Schema {
  import opened Wrappers
  import opened Json

  datatype Schema =
    | ZString
    | ZNumber
    | ZBoolean
    | ZArray(element: Schema)
    | ZRecord(value: Schema)
    | ZObject(shape: seq<Entry>)

  /** One key of an object shape. */
  datatype Entry = Entry(key: string, schema: Schema, nullable: bool, optional: bool)

  predicate Accepts(s: Schema, j: Json)
    decreases s
  {
    match s
    case ZString => j.Str?
    case ZNumber => j.Num?
    case ZBoolean => j.Bool?
    case ZArray(element) =>
      j.Arr? && forall i :: 0 <= i < |j.items| ==> Accepts(element, j.items[i])
    case ZRecord(value) =>
      j.Obj? && forall i :: 0 <= i < |j.members| ==> Accepts(value, j.members[i].1)
    case ZObject(shape) =>
      j.Obj? && forall i :: 0 <= i < |shape| ==> EntryAccepts(shape[i], j.members)
  }

  /** An absent key passes iff it is optional; `null` passes iff it is nullable. */
  predicate EntryAccepts(e: Entry, members: seq<(string, Json)>)
    decreases e
  {
    match Get(members, e.key)
    case None => e.optional
    case Some(v) => (e.nullable && v.Null?) || Accepts(e.schema, v)
  }

  // The four modifiers of a zod object key.
  function Req(key: string, s: Schema): Entry { Entry(key, s, false, false) }
  function Nullable(key: string, s: Schema): Entry { Entry(key, s, true, false) }
  function Opt(key: string, s: Schema): Entry { Entry(key, s, false, true) }
  function NullOpt(key: string, s: Schema): Entry { Entry(key, s, true, true) }

  const TrackSchema := ZObject([
    Req("name", ZString),
    Req("color", ZString),
    Req("slug", ZString)])

  const AssemblySchema := ZObject([
    Req("name", ZString),
    Req("slug", ZString),
    Req("guid", ZString)])

  const RoomSchema := ZObject([
    Req("name", ZString),
    Req("slug", ZString),
    Req("guid", ZString),
    Req("type", ZString),
    Nullable("stream_id", ZString),
    Req("capacity", ZNumber),
    NullOpt("description_en", ZString),
    NullOpt("description_de", ZString),
    Opt("features", ZRecord(ZString)),
    Req("assembly", AssemblySchema)])

  const PersonSchema := ZObject([
    Req("guid", ZString),
    Req("name", ZString),
    Req("public_name", ZString),
    Nullable("avatar", ZString),
    NullOpt("biography", ZString),
    Req("url", ZString)])

  const LinkSchema := ZObject([
    Req("url", ZString),
    Req("title", ZString)])

  const AttachmentSchema := ZObject([
    Req("url", ZString),
    Req("title", ZString)])

  const EventSchema := ZObject([
    Req("guid", ZString),
    Req("id", ZNumber),
    Req("date", ZString),
    Req("start", ZString),
    Req("duration", ZString),
    Req("room", ZString),
    Req("slug", ZString),
    Req("url", ZString),
    Req("title", ZString),
    Nullable("subtitle", ZString),
    Nullable("language", ZString),
    Nullable("track", ZString),
    Req("type", ZString),
    Req("abstract", ZString),
    Req("description", ZString),
    Nullable("logo", ZString),
    Req("persons", ZArray(PersonSchema)),
    Opt("links", ZArray(LinkSchema)),
    Opt("attachments", ZArray(AttachmentSchema)),
    Opt("feedback_url", ZString),
    Opt("recording_license", ZString),
    Opt("do_not_record", ZBoolean),
    Opt("do_not_stream", ZBoolean)])

  const DaySchema := ZObject([
    Req("index", ZNumber),
    Req("date", ZString),
    Req("day_start", ZString),
    Req("day_end", ZString),
    Req("rooms", ZRecord(ZArray(EventSchema)))])

  const ConferenceSchema := ZObject([
    Req("acronym", ZString),
    Req("title", ZString),
    Req("start", ZString),
    Req("end", ZString),
    Req("daysCount", ZNumber),
    Req("timeslot_duration", ZString),
    Req("time_zone_name", ZString),
    Req("url", ZString),
    Req("tracks", ZArray(TrackSchema)),
    Req("rooms", ZArray(RoomSchema)),
    Opt("assembly", ZRecord(AssemblySchema)),
    Req("days", ZArray(DaySchema))])

  const ScheduleSchema := ZObject([
    Req("version", ZString),
    Req("base_url", ZString),
    Req("conference", ConferenceSchema)])

  const DataSchema := ZObject([
    Req("$schema", ZString),
    Req("schedule", ScheduleSchema)])
}
