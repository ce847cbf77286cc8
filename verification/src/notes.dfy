/** The meeting-notes endpoint (backend/app/api/endpoints/notes.py): one JSON record read,
    updated field by field and written back. The file itself is the `record` field here. */
module Notes {
  import opened Common
  import opened Json

  const LastMeetingNotes := "last_meeting_notes"
  const DiscussionPoints := "discussion_points"

  class NotesStore {
    var record: map<string, Json>

    /** The record written when no file exists yet: both fields empty. */
    constructor ()
      ensures record == map[LastMeetingNotes := JStr(""), DiscussionPoints := JStr("")]
    {
      record := map[LastMeetingNotes := JStr(""), DiscussionPoints := JStr("")];
    }

    /** `POST /notes`: each argument that is given overwrites its field; every other key keeps
        its value. The record written is the one returned. */
    method Update(lastMeetingNotes: Option<string>, discussionPoints: Option<string>) returns (r: map<string, Json>)
      modifies this
      ensures r == record
      ensures lastMeetingNotes.Some? ==> LastMeetingNotes in r && r[LastMeetingNotes] == JStr(lastMeetingNotes.value)
      ensures discussionPoints.Some? ==> DiscussionPoints in r && r[DiscussionPoints] == JStr(discussionPoints.value)
      ensures forall k :: (k != LastMeetingNotes || lastMeetingNotes.None?) && (k != DiscussionPoints || discussionPoints.None?)
                ==> (k in r <==> k in old(record)) && (k in r ==> r[k] == old(record)[k])
      ensures lastMeetingNotes.None? && discussionPoints.None? ==> record == old(record)
    {
      var notes := record;
      if lastMeetingNotes.Some? {
        notes := notes[LastMeetingNotes := JStr(lastMeetingNotes.value)];
      }
      if discussionPoints.Some? {
        notes := notes[DiscussionPoints := JStr(discussionPoints.value)];
      }
      record := notes;
      r := notes;
    }
  }
}
