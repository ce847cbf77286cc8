/** The discussion-points endpoint (backend/app/api/endpoints/discussion.py): one JSON record
    read, updated and written back. The file itself is the `record` field here. */
module Discussion {
  import opened Common
  import opened Json

  const DiscussionPoints := "discussion_points"

  class DiscussionStore {
    var record: map<string, Json>

    /** The record written when no file exists yet. */
    constructor ()
      ensures record == map[DiscussionPoints := JStr("")]
    {
      record := map[DiscussionPoints := JStr("")];
    }

    /** `POST /discussion`: a given value overwrites `discussion_points`; all other keys keep
        their values. The record written is the one returned. */
    method Update(discussionPoints: Option<string>) returns (r: map<string, Json>)
      modifies this
      ensures r == record
      ensures discussionPoints.Some? ==> DiscussionPoints in r && r[DiscussionPoints] == JStr(discussionPoints.value)
      ensures discussionPoints.None? ==> record == old(record)
      ensures forall k | k != DiscussionPoints :: (k in r <==> k in old(record)) && (k in r ==> r[k] == old(record)[k])
    {
      var discussion := record;
      if discussionPoints.Some? {
        discussion := discussion[DiscussionPoints := JStr(discussionPoints.value)];
      }
      record := discussion;
      r := discussion;
    }
  }
}
