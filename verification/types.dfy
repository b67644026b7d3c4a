/**
 The typed schedule the flattener and the event table work on: a schedule has
 a conference, a conference has days, a day maps room names to event lists.
 `ExtendedEvent` is an event together with the position of its day.
 */
module Types {
  import opened Wrappers

  datatype Person = Person(
    guid: string,
    name: string,
    publicName: string,
    avatar: Option<string>,
    biography: Option<string>,
    url: string)

  /** A link or an attachment: both are a URL with a title. */
  datatype Link = Link(url: string, title: string)

  /** One talk. `Option` fields are the feed's nullable or optional keys. */
  datatype Event = Event(
    guid: string,
    id: int,
    date: string,
    start: string,
    duration: string,
    room: string,
    slug: string,
    url: string,
    title: string,
    subtitle: Option<string>,
    language: Option<string>,
    track: Option<string>,
    eventType: string,
    abstractText: string,
    description: string,
    logo: Option<string>,
    persons: seq<Person>,
    links: Option<seq<Link>>,
    attachments: Option<seq<Link>>,
    feedbackUrl: Option<string>,
    recordingLicense: Option<string>,
    doNotRecord: Option<bool>,
    doNotStream: Option<bool>)

  /** An event as the table shows it: `day` is the position of its day in the conference. */
  datatype ExtendedEvent = ExtendedEvent(event: Event, day: int)

  /** A day: `rooms` lists each room name with its events, in the object's key order. */
  datatype Day = Day(
    index: int,
    date: string,
    dayStart: string,
    dayEnd: string,
    rooms: seq<(string, seq<Event>)>)

  datatype Conference = Conference(
    acronym: string,
    title: string,
    start: string,
    end: string,
    daysCount: int,
    timeslotDuration: string,
    days: seq<Day>)

  datatype Schedule = Schedule(version: string, baseUrl: string, conference: Conference)

  /** The keys of an `ExtendedEvent` that the table can search, show and sort by. */
  datatype Field =
    | Guid | Id | Date | Start | Duration | Room | Slug | Url | Title | Subtitle
    | Language | Track | Type | Abstract | Description | Logo | Persons | Links
    | Attachments | FeedbackUrl | RecordingLicense | DoNotRecord | DoNotStream | DayIndex

  /** The fields whose value is a string in every event. */
  predicate AlwaysString(f: Field)
  {
    f in {Guid, Date, Start, Duration, Room, Slug, Url, Title, Type, Abstract, Description}
  }

  /** The fields whose value is never a string: numbers, booleans and arrays. */
  predicate NeverString(f: Field)
  {
    f in {Id, Persons, Links, Attachments, DoNotRecord, DoNotStream, DayIndex}
  }

  /**
   `event[field]` when `typeof event[field] === "string"`, and `None` otherwise:
   for a number, a boolean, an array, `null` or an absent key.
   */
  function FieldText(e: ExtendedEvent, f: Field): (r: Option<string>)
    ensures AlwaysString(f) ==> r.Some?
    ensures NeverString(f) ==> r.None?
  {
    match f
    case Guid => Some(e.event.guid)
    case Id => None
    case Date => Some(e.event.date)
    case Start => Some(e.event.start)
    case Duration => Some(e.event.duration)
    case Room => Some(e.event.room)
    case Slug => Some(e.event.slug)
    case Url => Some(e.event.url)
    case Title => Some(e.event.title)
    case Subtitle => e.event.subtitle
    case Language => e.event.language
    case Track => e.event.track
    case Type => Some(e.event.eventType)
    case Abstract => Some(e.event.abstractText)
    case Description => Some(e.event.description)
    case Logo => e.event.logo
    case Persons => None
    case Links => None
    case Attachments => None
    case FeedbackUrl => e.event.feedbackUrl
    case RecordingLicense => e.event.recordingLicense
    case DoNotRecord => None
    case DoNotStream => None
    case DayIndex => None
  }
}
