/**
 The entities the meeting endpoints exchange, the responses they return, and
 the partial-update policy of PUT /api/meetings/{id}.
 */
module Model {

  datatype Option<T> = None | Some(value: T)

  /** A participant, identified by its login; its profile fields are not modelled. */
  datatype Participant = Participant(login: string)

  /** A meeting date; its representation is never examined, only stored and compared. */
  datatype Date = Date(stamp: string)

  /** A meeting: an externally assigned id, three optional fields and a roster of participants. */
  datatype Meeting = Meeting(
    id: int,
    title: Option<string>,
    description: Option<string>,
    date: Option<Date>,
    participants: set<Participant>)

  datatype Status = Ok | Created | NotFound | Conflict {
    /** The HTTP status code sent for this status. */
    function Code(): int {
      match this
      case Ok => 200
      case Created => 201
      case NotFound => 404
      case Conflict => 409
    }
  }

  /** A response body: a structured value on success, a plain string (or nothing) on failure. */
  datatype Body =
    | Empty
    | Text(message: string)
    | OneMeeting(meeting: Meeting)
    | Meetings(meetings: set<Meeting>)
    | OneParticipant(participant: Participant)
    | Participants(participants: set<Participant>)

  datatype Response = Response(status: Status, body: Body)

  /** The meeting store files every meeting under its own id. */
  ghost predicate StoredById(meetings: map<int, Meeting>) {
    forall id :: id in meetings ==> meetings[id].id == id
  }

  /** The participant store files every participant under its own login. */
  ghost predicate StoredByLogin(participants: map<string, Participant>) {
    forall login :: login in participants ==> participants[login].login == login
  }

  /** A field of the payload replaces the stored one only when it is present (non-null). */
  function Overlay<T>(stored: Option<T>, given: Option<T>): Option<T> {
    if given.Some? then given else stored
  }

  /** The meeting that a partial update with `payload` makes of `stored`: each optional field
      takes the payload's value if present and otherwise keeps its stored value; the id and the
      roster are never touched. */
  function ApplyUpdate(stored: Meeting, payload: Meeting): (r: Meeting)
    ensures payload.title.Some? ==> r.title == payload.title
    ensures payload.title.None? ==> r.title == stored.title
    ensures payload.description.Some? ==> r.description == payload.description
    ensures payload.description.None? ==> r.description == stored.description
    ensures payload.date.Some? ==> r.date == payload.date
    ensures payload.date.None? ==> r.date == stored.date
    ensures r.id == stored.id && r.participants == stored.participants
  {
    stored.(
      title := Overlay(stored.title, payload.title),
      description := Overlay(stored.description, payload.description),
      date := Overlay(stored.date, payload.date))
  }

  /** A payload with no field set leaves the meeting as it was. */
  lemma EmptyUpdateKeepsMeeting(stored: Meeting, payload: Meeting)
    requires payload.title.None? && payload.description.None? && payload.date.None?
    ensures ApplyUpdate(stored, payload) == stored
  {
  }

  /** Sending the same update twice has the effect of sending it once. */
  lemma UpdateIdempotent(stored: Meeting, payload: Meeting)
    ensures ApplyUpdate(ApplyUpdate(stored, payload), payload) == ApplyUpdate(stored, payload)
  {
  }

  /** A field once set can never be cleared through an update: null means "leave as is". */
  lemma UpdateNeverClears(stored: Meeting, payload: Meeting)
    ensures var r := ApplyUpdate(stored, payload);
      && (stored.title.Some? ==> r.title.Some?)
      && (stored.description.Some? ==> r.description.Some?)
      && (stored.date.Some? ==> r.date.Some?)
  {
  }

  /** Two updates in a row equal one update whose payload is the second laid over the first. */
  lemma UpdatesCompose(stored: Meeting, first: Meeting, second: Meeting)
    ensures ApplyUpdate(ApplyUpdate(stored, first), second)
         == ApplyUpdate(stored, ApplyUpdate(first, second))
  {
  }
}
