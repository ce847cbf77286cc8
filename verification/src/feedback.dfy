/** The professor-feedback endpoint (backend/app/api/endpoints/feedback.py): one JSON record
    with the feedback text and the time of its last change. The clock is a parameter: `now`
    is the ISO-8601 text of the current time. */
module Feedback {
  import opened Common
  import opened Json

  const ProfessorFeedback := "professor_feedback"
  const LastUpdated := "last_updated"

  /** The record with no feedback, stamped `now`. */
  function EmptyFeedback(now: string): (r: map<string, Json>)
    ensures r.Keys == {ProfessorFeedback, LastUpdated}
    ensures r[ProfessorFeedback] == JStr("") && r[LastUpdated] == JStr(now)
  {
    map[ProfessorFeedback := JStr(""), LastUpdated := JStr(now)]
  }

  class FeedbackStore {
    var record: map<string, Json>

    /** The record written when no file exists yet. */
    constructor (now: string)
      ensures record == EmptyFeedback(now)
    {
      record := EmptyFeedback(now);
    }

    /** `POST /feedback`: a given text sets both the feedback and the time stamp; without
        one neither changes. Other keys keep their values; the record written is returned. */
    method Update(professorFeedback: Option<string>, now: string) returns (r: map<string, Json>)
      modifies this
      ensures r == record
      ensures professorFeedback.Some? ==> ProfessorFeedback in r && r[ProfessorFeedback] == JStr(professorFeedback.value)
                                          && LastUpdated in r && r[LastUpdated] == JStr(now)
      ensures professorFeedback.None? ==> record == old(record)
      ensures forall k | k != ProfessorFeedback && k != LastUpdated ::
                (k in r <==> k in old(record)) && (k in r ==> r[k] == old(record)[k])
    {
      var feedback := record;
      if professorFeedback.Some? {
        feedback := feedback[ProfessorFeedback := JStr(professorFeedback.value)];
        feedback := feedback[LastUpdated := JStr(now)];
      }
      record := feedback;
      r := feedback;
    }

    /** `DELETE /feedback`: the record is reset to empty feedback stamped `now`, whatever it
        held, and success is reported. */
    method Delete(now: string) returns (success: bool)
      modifies this
      ensures success && record == EmptyFeedback(now)
    {
      record := EmptyFeedback(now);
      success := true;
    }
  }
}
