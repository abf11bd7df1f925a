/**
 Properties that span several requests, proved from the handlers' contracts
 alone: each method below is a client that issues a sequence of requests to
 one controller and states what the responses and the stores must be.
 */
module Scenarios {
  import opened Model
  import opened Messages
  import opened Controller

  /** Creating the same meeting twice answers 201, then 409; the second call changes nothing. */
  method CreateTwice(c: MeetingRestController, meeting: Meeting) returns (first: Response, second: Response)
    requires c.Valid()
    requires meeting.id !in c.meetings
    modifies c
    ensures c.Valid()
    ensures first == Response(Created, OneMeeting(meeting))
    ensures second == Response(Conflict, Text(AddConflict(meeting.id)))
    ensures c.meetings == old(c.meetings)[meeting.id := meeting]
    ensures c.participants == old(c.participants)
  {
    first := c.AddMeeting(meeting);
    second := c.AddMeeting(meeting);
  }

  /** A meeting read back right after its creation carries the created field values. */
  method CreateThenGet(c: MeetingRestController, meeting: Meeting) returns (created: Response, read: Response)
    requires c.Valid()
    requires meeting.id !in c.meetings
    modifies c
    ensures created.status == Created && read.status == Ok
    ensures read.body == OneMeeting(meeting)
  {
    created := c.AddMeeting(meeting);
    read := c.GetMeeting(meeting.id);
  }

  /** Once a meeting is deleted, reading it answers 404 with an empty body. */
  method DeleteThenGet(c: MeetingRestController, id: int) returns (deleted: Response, read: Response)
    requires c.Valid()
    requires id in c.meetings
    modifies c
    ensures deleted == Response(Ok, OneMeeting(old(c.meetings)[id]))
    ensures read == Response(NotFound, Empty)
    ensures c.meetings == old(c.meetings) - {id}
  {
    deleted := c.DeleteMeeting(id);
    read := c.GetMeeting(id);
  }

  /** Registering a known non-member and then removing it by login restores both stores exactly. */
  method RegisterThenRemove(c: MeetingRestController, id: int, login: string)
    returns (added: Response, removed: Response)
    requires c.Valid()
    requires id in c.meetings && login in c.participants
    requires c.participants[login] !in c.meetings[id].participants
    modifies c
    ensures added == Response(Created, OneParticipant(old(c.participants)[login]))
    ensures removed == Response(Ok, OneMeeting(old(c.meetings)[id]))
    ensures c.meetings == old(c.meetings) && c.participants == old(c.participants)
  {
    added := c.RegisterParticipantToMeeting(id, Participant(login));
    removed := c.DeleteMeetingParticipant(id, login);
    assert c.meetings[id].participants == old(c.meetings)[id].participants;
  }

  /** Registering a login the participant store does not know answers 404 and leaves every roster as it was. */
  method RegisterUnknown(c: MeetingRestController, id: int, login: string) returns (r: Response)
    requires c.Valid()
    requires id in c.meetings && login !in c.participants
    modifies c
    ensures r == Response(NotFound, Text(ParticipantNotFound(login)))
    ensures c.meetings == old(c.meetings)
  {
    r := c.RegisterParticipantToMeeting(id, Participant(login));
  }

  /** Removing a known participant who is not on the roster answers 404 naming both the login
      and the meeting id, and leaves the meeting as it was. The login must be known: for an
      unknown login the answer is the earlier "Participant <login> not found.", which names no id. */
  method RemoveNonMember(c: MeetingRestController, id: int, login: string) returns (r: Response)
    requires c.Valid()
    requires id in c.meetings && login in c.participants
    requires c.participants[login] !in c.meetings[id].participants
    modifies c
    ensures r == Response(NotFound, Text(NotRegistered(login, id)))
    ensures c.meetings == old(c.meetings)
  {
    r := c.DeleteMeetingParticipant(id, login);
  }

  /** Updating only the title leaves the description, the date and the roster as stored. */
  method UpdateTitleOnly(c: MeetingRestController, id: int, title: string) returns (r: Response)
    requires c.Valid()
    requires id in c.meetings
    modifies c
    ensures r.status == Ok && id in c.meetings
    ensures c.meetings[id].title == Some(title)
    ensures c.meetings[id].description == old(c.meetings)[id].description
    ensures c.meetings[id].date == old(c.meetings)[id].date
    ensures c.meetings[id].participants == old(c.meetings)[id].participants
  {
    r := c.UpdateMeeting(id, Meeting(id, Some(title), None, None, {}));
  }

  /** The worked example: create meeting 1 "Standup", create it again, read it, delete it, read it. */
  method StandupExample(c: MeetingRestController)
    returns (create: Response, again: Response, read: Response, deleted: Response, gone: Response)
    requires c.Valid()
    requires 1 !in c.meetings
    modifies c
    ensures create.status.Code() == 201
    ensures again == Response(Conflict, Text("Unable to add meeting. The ID: 1 already exists."))
    ensures again.status.Code() == 409
    ensures read.status.Code() == 200 && read.body.OneMeeting? && read.body.meeting.title == Some("Standup")
    ensures deleted.status.Code() == 200
    ensures gone == Response(NotFound, Empty) && gone.status.Code() == 404
    ensures c.meetings == old(c.meetings)
  {
    var standup := Meeting(1, Some("Standup"), None, None, {});
    create := c.AddMeeting(standup);
    again := c.AddMeeting(standup);
    AddConflictForOne();
    read := c.GetMeeting(1);
    deleted := c.DeleteMeeting(1);
    gone := c.GetMeeting(1);
  }
}
