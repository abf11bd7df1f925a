# Enroller meeting endpoints, modelled in Dafny

This project models the meeting endpoint handler of the Enroller service
(`MeetingRestController`). The handler serves `/api/meetings`. It lists, creates,
reads, deletes and partially updates meetings. It also registers, lists and
removes the participants of a meeting.

The handler has two collaborators, and the model replaces each one with the data
it stands for:

- the meeting store (`MeetingService`) becomes the field `meetings: map<int, Meeting>`, keyed by meeting id;
- the participant store (`ParticipantService`) becomes the field `participants: map<string, Participant>`, keyed by login.

Both fields live in the class `Controller.MeetingRestController`. There is one
method per endpoint. Each method returns a `Response` (a status and a body) and
changes at most the meeting map, which its `modifies this`meetings` clause states.
A body is a meeting, a set of meetings, a participant, a set of participants, an
error string, or nothing.

Files:

- `model.dfy` (module `Model`): meetings, participants, responses, the store
  invariants, and the partial-update policy `ApplyUpdate` with its lemmas.
- `messages.dfy` (module `Messages`): the error strings. Java concatenation writes a `long`
  id in decimal. The module proves that this decimal text reads back to the id, that each
  message names its id or login unambiguously, and that the three 404 answers of
  participant removal always differ.
- `controller.dfy` (module `Controller`): the handler class.
- `scenarios.dfy` (module `Scenarios`): client methods that prove properties spanning
  several requests. They are proved from the handler contracts alone: creating twice gives
  201 then 409, delete then get gives 404, and register then remove restores the stores.

Modelling assumptions about code that is not part of this model:

- `findById` returns the meeting filed under the id, or null.
- `add`, `update` and `addParticipantToMeeting` file the meeting under its own id.
- `delete` removes the entry filed under the meeting's id.
- `findByLogin` returns the participant filed under the login, or null.
- `Meeting.addParticipant` inserts into a set.
- `getParticipants(m)` returns `m`'s roster.

`Valid()` states that each store files its entries under their own key. Under
`Valid()`, "write at the meeting's own id" is the same as "write at the requested id".

The roster invariant `RostersRegistered` says that every roster member is known
to the participant store. `addMeeting` hands the deserialised request body to the
store as it is, and whether that body can carry a `participants` set depends on the
JSON mapping of `Meeting`, which is not part of this model. The model therefore lets
a create payload carry any roster. Under this choice `addMeeting` keeps the invariant
only when the payload's own roster is registered, and its contract states exactly that
condition; every other handler keeps it unconditionally.

## Model

| member | source | states |
|---|---|---|
| `Controller.MeetingRestController.constructor` | src/main/java/com/company/enroller/controllers/MeetingRestController.java:18-22 | the handler starts over the two given stores, which file entries under their own keys |
| `Controller.MeetingRestController.GetMeetings` | src/main/java/com/company/enroller/controllers/MeetingRestController.java:24-28 | 200 with exactly the set of stored meetings; every stored meeting is in the body; nothing changes |
| `Controller.MeetingRestController.AddMeeting` | src/main/java/com/company/enroller/controllers/MeetingRestController.java:30-41 | 409 exactly when the id is already stored, with "Unable to add meeting. The ID: <id> already exists." and both stores unchanged; otherwise 201 with the meeting, filed under its id, and no other entry changes; preserves the store invariant, and the roster invariant when the payload's roster is registered |
| `Controller.MeetingRestController.GetMeeting` | src/main/java/com/company/enroller/controllers/MeetingRestController.java:43-52 | 200 exactly when the id is stored, with the stored meeting, whose id is the requested one; otherwise 404 with an empty body; never changes the stores |
| `Controller.MeetingRestController.DeleteMeeting` | src/main/java/com/company/enroller/controllers/MeetingRestController.java:54-64 | absent id: 404 with an empty body, stores unchanged; present id: 200 with the deleted meeting and exactly that entry removed; afterwards the id is absent; invariants preserved |
| `Controller.MeetingRestController.UpdateMeeting` | src/main/java/com/company/enroller/controllers/MeetingRestController.java:66-91 | absent id: 409 with "Unable to update meeting. The ID: <id> does not exist." and nothing changes; present id: 200 with the stored meeting after the partial update `ApplyUpdate`, which replaces only that entry |
| `Controller.MeetingRestController.RegisterParticipantToMeeting` | src/main/java/com/company/enroller/controllers/MeetingRestController.java:94-116 | missing meeting checked first: 404 "Meeting with ID: <id> not found."; then an unknown login: 404 "Participant <login> not found."; both leave the stores unchanged; on success 201 with the stored participant, who has the requested login and is now on the roster; no other meeting or field changes; roster invariant preserved |
| `Controller.MeetingRestController.GetMeetingParticipants` | src/main/java/com/company/enroller/controllers/MeetingRestController.java:118-130 | 200 exactly when the meeting exists, with its roster; otherwise 404 "Meeting with ID: <id> not found."; never changes the stores |
| `Controller.MeetingRestController.DeleteMeetingParticipant` | src/main/java/com/company/enroller/controllers/MeetingRestController.java:132-160 | checks in order: missing meeting, unknown login, not a member, each a 404 with its own message; every failure leaves the stores unchanged; for a member, exactly that participant leaves the roster, other fields and meetings are untouched, and the response is 200 with the updated meeting; under the roster invariant the login is off the roster afterwards |
| `Model.ApplyUpdate` | src/main/java/com/company/enroller/controllers/MeetingRestController.java:77-87 | title, description and date each take the payload's value when present (non-null) and keep the stored one when absent; id and roster are never altered |
| `Model.EmptyUpdateKeepsMeeting` | src/main/java/com/company/enroller/controllers/MeetingRestController.java:77-87 | a payload with no field set leaves the meeting unchanged |
| `Model.UpdateIdempotent` | src/main/java/com/company/enroller/controllers/MeetingRestController.java:77-87 | applying the same update twice equals applying it once |
| `Model.UpdateNeverClears` | src/main/java/com/company/enroller/controllers/MeetingRestController.java:77-87 | a field that is set stays set: an update cannot clear it |
| `Model.UpdatesCompose` | src/main/java/com/company/enroller/controllers/MeetingRestController.java:77-87 | two updates in a row equal one update with the second payload laid over the first |
| `Messages.NatDigits` | src/main/java/com/company/enroller/controllers/MeetingRestController.java:35 | the decimal text of a non-negative id is non-empty, all digits, and has no leading zero |
| `Messages.Decimal` | src/main/java/com/company/enroller/controllers/MeetingRestController.java:35 | the text of an id is non-empty, ends in a digit, is digits after an optional sign, starts with '-' exactly when the id is negative, and has no leading zero |
| `Messages.NatDigitsRoundTrip` | src/main/java/com/company/enroller/controllers/MeetingRestController.java:35 | reading the decimal digits of n back gives n |
| `Messages.DecimalRoundTrip` | src/main/java/com/company/enroller/controllers/MeetingRestController.java:35 | reading the signed decimal text of an id back gives the id |
| `Messages.DecimalInjective` | src/main/java/com/company/enroller/controllers/MeetingRestController.java:35 | distinct ids are written differently |
| `Messages.AddConflict` | src/main/java/com/company/enroller/controllers/MeetingRestController.java:35 | the 409 text of a create starts with "Unable to add meeting. The ID: ", ends with " already exists.", and the text between is decimal text that reads back as the id |
| `Messages.UpdateMissing` | src/main/java/com/company/enroller/controllers/MeetingRestController.java:73 | the 409 text of an update starts with "Unable to update meeting. The ID: ", ends with " does not exist.", and the text between reads back as the id |
| `Messages.MeetingNotFound` | src/main/java/com/company/enroller/controllers/MeetingRestController.java:101 | the 404 text for an unknown meeting (also lines 124 and 139) starts with "Meeting with ID: ", ends with " not found.", and the text between reads back as the id |
| `Messages.ParticipantNotFound` | src/main/java/com/company/enroller/controllers/MeetingRestController.java:108 | the 404 text for an unknown login (also line 146) is "Participant ", then exactly the login, then " not found." |
| `Messages.NotRegistered` | src/main/java/com/company/enroller/controllers/MeetingRestController.java:152 | the 404 text for a non-member starts with "Participant "; its last word reads back as the id, and what lies before that word is the login followed by " not registered on the meeting ID " |
| `Messages.AddConflictForOne` | src/main/java/com/company/enroller/controllers/MeetingRestController.java:34-36 | the conflict text for id 1 is "Unable to add meeting. The ID: 1 already exists." |
| `Messages.MessagesNameTheId` | src/main/java/com/company/enroller/controllers/MeetingRestController.java:35-101 | the add-conflict, update-missing and meeting-not-found texts each determine the id they were built from |
| `Messages.MessagesNameTheLogin` | src/main/java/com/company/enroller/controllers/MeetingRestController.java:145-153 | the participant-not-found text determines the login; the not-registered text determines both the login and the id |
| `Messages.RemovalMessagesDistinct` | src/main/java/com/company/enroller/controllers/MeetingRestController.java:136-153 | the three 404 texts of participant removal never coincide, whatever the ids and logins |
| `Scenarios.CreateTwice` | src/main/java/com/company/enroller/controllers/MeetingRestController.java:30-41 | creating the same meeting twice gives 201 then 409, and the store holds the meeting once |
| `Scenarios.CreateThenGet` | src/main/java/com/company/enroller/controllers/MeetingRestController.java:30-52 | reading a meeting right after creating it returns the created values |
| `Scenarios.DeleteThenGet` | src/main/java/com/company/enroller/controllers/MeetingRestController.java:54-64 | after deleting a present meeting, reading it gives 404 with an empty body |
| `Scenarios.RegisterThenRemove` | src/main/java/com/company/enroller/controllers/MeetingRestController.java:94-158 | registering a known non-member and then removing it gives 201 then 200 and restores both stores exactly |
| `Scenarios.RegisterUnknown` | src/main/java/com/company/enroller/controllers/MeetingRestController.java:105-110 | registering an unknown login gives 404 "Participant <login> not found." and no roster changes |
| `Scenarios.RemoveNonMember` | src/main/java/com/company/enroller/controllers/MeetingRestController.java:150-153 | removing a known non-member gives 404 naming the login and the id, and the meeting is unchanged |
| `Scenarios.UpdateTitleOnly` | src/main/java/com/company/enroller/controllers/MeetingRestController.java:77-89 | an update carrying only a title sets the title and keeps description, date and roster |
| `Scenarios.StandupExample` | src/main/java/com/company/enroller/controllers/MeetingRestController.java:30-64 | create "Standup" as meeting 1 (201), create again (409 with the exact text), read (200, title "Standup"), delete (200), read (404) |

## Left out

- Spring routing, annotations, dependency injection and `ResponseEntity` construction: each response is a plain status with a body.
- JSON (de)serialisation of request and response bodies: payloads arrive as `Meeting` and `Participant` values.
- The real `MeetingService` and `ParticipantService` (Hibernate, database): replaced by the two maps, under the assumptions listed above. Store faults, which would surface as a 500, are not modelled.
- `Participant.equals` and the participant profile fields: a participant is identified by its login alone.
- The type of `date`: modelled as an opaque value that is only stored and replaced.
- Controller.MeetingRestController.AddMeeting: keeps the roster invariant only when the payload's roster is registered, because the model lets a create payload carry any roster; if the JSON mapping of `Meeting` ignores `participants`, the invariant would hold unconditionally, which the model does not promise.
- A null login in the body of `registerParticipantToMeeting`: logins are modelled as non-null strings, because what `findByLogin(null)` does is not visible; if it returned null, the answer would be "Participant null not found.".
- A null id in the body of `addMeeting`: ids are modelled as non-null integers, because what `findById(null)` does is not visible.
- The 64-bit range of `long` ids: ids are unbounded integers. The handler does no arithmetic on them, and decimal text is written for any integer.
- Aliasing between the handler's `foundMeeting` and the store's entity: meetings are values, and each handler writes its modified copy back in one step.
- The ordering of the returned collections: meetings and rosters are returned as sets.
- Concurrency: the check-then-act races on create and on membership updates are outside this sequential model, where each handler call is one atomic step.
