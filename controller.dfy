/**
 The meeting endpoint handler (MeetingRestController). Its two collaborators are
 modelled by the fields they stand for: the meeting store (MeetingService) as a
 map from id to meeting, and the participant store (ParticipantService) as a map
 from login to participant. Each handler is one atomic step on these maps and
 returns a status with a body.

 Modelling assumptions about the collaborators, whose code is not part of this model:
 - findById(id) yields the meeting filed under `id`, or null when there is none;
 - add, update and addParticipantToMeeting file the given meeting under its own id,
   delete removes the entry filed under the given meeting's id;
 - findByLogin(login) yields the participant filed under `login`, or null;
 - Meeting.addParticipant is set insertion, and getParticipants(m) is m's roster.
 */
module Controller {
  import opened Model
  import opened Messages

  class MeetingRestController {
    /** The meeting store: every meeting, filed by id. */
    var meetings: map<int, Meeting>
    /** The participant store: every participant, filed by login. Read only here. */
    var participants: map<string, Participant>

    ghost predicate Valid()
      reads this
    {
      StoredById(meetings) && StoredByLogin(participants)
    }

    /** Every member of `roster` can be found in the participant store. */
    ghost predicate Registered(roster: set<Participant>)
      reads this
    {
      forall p :: p in roster ==> p.login in participants
    }

    /** The roster invariant: no meeting lists a participant the store does not know. */
    ghost predicate RostersRegistered()
      reads this
    {
      forall id :: id in meetings ==> Registered(meetings[id].participants)
    }

    constructor (meetings: map<int, Meeting>, participants: map<string, Participant>)
      requires StoredById(meetings) && StoredByLogin(participants)
      ensures Valid()
      ensures this.meetings == meetings && this.participants == participants
    {
      this.meetings := meetings;
      this.participants := participants;
    }

    /** GET /api/meetings: every stored meeting and nothing else, with 200. */
    method GetMeetings() returns (r: Response)
      ensures r.status == Ok && r.body == Meetings(meetings.Values)
      ensures forall id :: id in meetings ==> meetings[id] in r.body.meetings
    {
      r := Response(Ok, Meetings(meetings.Values));
    }

    /** POST /api/meetings: file a new meeting, refusing an id already in use. */
    method AddMeeting(meeting: Meeting) returns (r: Response)
      requires Valid()
      modifies this`meetings
      ensures Valid()
      ensures r.status == Conflict <==> meeting.id in old(meetings)
      ensures r.status == Conflict ==>
        r.body == Text(AddConflict(meeting.id)) && meetings == old(meetings)
      ensures r.status != Conflict ==>
        && r == Response(Created, OneMeeting(meeting))
        && meetings == old(meetings)[meeting.id := meeting]
      ensures old(RostersRegistered()) && Registered(meeting.participants) ==> RostersRegistered()
    {
      if meeting.id in meetings {
        return Response(Conflict, Text(AddConflict(meeting.id)));
      }
      meetings := meetings[meeting.id := meeting];
      r := Response(Created, OneMeeting(meeting));
    }

    /** GET /api/meetings/{id}: the meeting filed under `id`, or 404 with an empty body. */
    method GetMeeting(id: int) returns (r: Response)
      requires Valid()
      ensures r.status == Ok <==> id in meetings
      ensures id !in meetings ==> r == Response(NotFound, Empty)
      ensures id in meetings ==> r.body == OneMeeting(meetings[id])
      ensures r.status == Ok ==> r.body.meeting.id == id
    {
      if id !in meetings {
        return Response(NotFound, Empty);
      }
      var meeting := meetings[id];
      r := Response(Ok, OneMeeting(meeting));
    }

    /** DELETE /api/meetings/{id}: remove the meeting and answer with it, or 404 with an empty body. */
    method DeleteMeeting(id: int) returns (r: Response)
      requires Valid()
      modifies this`meetings
      ensures Valid()
      ensures id !in old(meetings) ==> r == Response(NotFound, Empty) && meetings == old(meetings)
      ensures id in old(meetings) ==>
        && r == Response(Ok, OneMeeting(old(meetings)[id]))
        && meetings == old(meetings) - {id}
      ensures id !in meetings
      ensures old(RostersRegistered()) ==> RostersRegistered()
    {
      if id !in meetings {
        return Response(NotFound, Empty);
      }
      var meeting := meetings[id];
      meetings := meetings - {meeting.id};
      r := Response(Ok, OneMeeting(meeting));
    }

    /** PUT /api/meetings/{id}: overwrite the fields present in `updated`, or 409 for an unknown id. */
    method UpdateMeeting(id: int, updated: Meeting) returns (r: Response)
      requires Valid()
      modifies this`meetings
      ensures Valid()
      ensures id !in old(meetings) ==>
        r == Response(Conflict, Text(UpdateMissing(id))) && meetings == old(meetings)
      ensures id in old(meetings) ==>
        && r == Response(Ok, OneMeeting(ApplyUpdate(old(meetings)[id], updated)))
        && meetings == old(meetings)[id := ApplyUpdate(old(meetings)[id], updated)]
      ensures old(RostersRegistered()) ==> RostersRegistered()
    {
      if id !in meetings {
        return Response(Conflict, Text(UpdateMissing(id)));
      }
      var found := meetings[id];
      if updated.title.Some? {
        found := found.(title := updated.title);
      }
      if updated.description.Some? {
        found := found.(description := updated.description);
      }
      if updated.date.Some? {
        found := found.(date := updated.date);
      }
      meetings := meetings[found.id := found];
      r := Response(Ok, OneMeeting(found));
    }

    /** POST /api/meetings/{id}/participants: add the participant with the payload's login to the roster. */
    method RegisterParticipantToMeeting(id: int, participant: Participant) returns (r: Response)
      requires Valid()
      modifies this`meetings
      ensures Valid()
      ensures id !in old(meetings) ==>
        r == Response(NotFound, Text(MeetingNotFound(id))) && meetings == old(meetings)
      ensures id in old(meetings) && participant.login !in participants ==>
        r == Response(NotFound, Text(ParticipantNotFound(participant.login))) && meetings == old(meetings)
      ensures id in old(meetings) && participant.login in participants ==>
        var enrolled := participants[participant.login];
        var before := old(meetings)[id];
        && r == Response(Created, OneParticipant(enrolled))
        && meetings == old(meetings)[id := before.(participants := before.participants + {enrolled})]
      ensures r.status == Created ==>
        r.body.participant.login == participant.login && r.body.participant in meetings[id].participants
      ensures old(RostersRegistered()) ==> RostersRegistered()
    {
      if id !in meetings {
        return Response(NotFound, Text(MeetingNotFound(id)));
      }
      var found := meetings[id];
      if participant.login !in participants {
        return Response(NotFound, Text(ParticipantNotFound(participant.login)));
      }
      var foundParticipant := participants[participant.login];
      found := found.(participants := found.participants + {foundParticipant});
      meetings := meetings[found.id := found];
      r := Response(Created, OneParticipant(foundParticipant));
    }

    /** GET /api/meetings/{id}/participants: the meeting's roster, or 404 naming the id. */
    method GetMeetingParticipants(id: int) returns (r: Response)
      ensures r.status == Ok <==> id in meetings
      ensures id !in meetings ==> r == Response(NotFound, Text(MeetingNotFound(id)))
      ensures id in meetings ==> r.body == Participants(meetings[id].participants)
    {
      if id !in meetings {
        return Response(NotFound, Text(MeetingNotFound(id)));
      }
      var found := meetings[id];
      r := Response(Ok, Participants(found.participants));
    }

    /** DELETE /api/meetings/{id}/participants/{login}: take a member off the roster.
        Checks, in order: the meeting exists, the login is known, the participant is a member. */
    method DeleteMeetingParticipant(id: int, login: string) returns (r: Response)
      requires Valid()
      modifies this`meetings
      ensures Valid()
      ensures r.status != Ok ==> meetings == old(meetings)
      ensures id !in old(meetings) ==>
        r == Response(NotFound, Text(MeetingNotFound(id)))
      ensures id in old(meetings) && login !in participants ==>
        r == Response(NotFound, Text(ParticipantNotFound(login)))
      ensures id in old(meetings) && login in participants
              && participants[login] !in old(meetings)[id].participants ==>
        r == Response(NotFound, Text(NotRegistered(login, id)))
      ensures id in old(meetings) && login in participants
              && participants[login] in old(meetings)[id].participants ==>
        var before := old(meetings)[id];
        var after := before.(participants := before.participants - {participants[login]});
        && r == Response(Ok, OneMeeting(after))
        && meetings == old(meetings)[id := after]
      ensures old(RostersRegistered()) && id in meetings ==>
        forall p :: p in meetings[id].participants ==> p.login != login
      ensures old(RostersRegistered()) ==> RostersRegistered()
    {
      if id !in meetings {
        return Response(NotFound, Text(MeetingNotFound(id)));
      }
      var found := meetings[id];
      if login !in participants {
        return Response(NotFound, Text(ParticipantNotFound(login)));
      }
      var foundParticipant := participants[login];
      if foundParticipant !in found.participants {
        return Response(NotFound, Text(NotRegistered(login, id)));
      }
      found := found.(participants := found.participants - {foundParticipant});
      meetings := meetings[found.id := found];
      r := Response(Ok, OneMeeting(found));
    }
  }
}
