/** Admin announcements: `set_announcement` stores one, and the daily job
    `send_scheduled_announcement` posts the latest stored one. */
module Announcements {
  import opened Options
  import opened Text

  /** The user ids allowed to set announcements. */
  const AdminIds: set<int> := {1186503158}

  datatype Announcement = Announcement(message: string, timestamp: int)

  /** What `set_announcement` answers. */
  datatype SetReply = Unauthorized | Usage | Updated

  /** The announcement collection, in insertion (id) order. */
  class AnnouncementBoard {
    var announcements: seq<Announcement>

    constructor ()
      ensures announcements == []
    {
      announcements := [];
    }

    /** `set_announcement`: a caller outside the allow-list, or a command
        without arguments, changes nothing; otherwise exactly one
        announcement holding the arguments joined by spaces is stored. */
    method SetAnnouncement(user: int, args: seq<string>, now: int) returns (reply: SetReply)
      modifies this
      ensures reply == Unauthorized <==> user !in AdminIds
      ensures reply == Usage <==> user in AdminIds && |args| == 0
      ensures reply == Updated ==> announcements == old(announcements) + [Announcement(Join(args, ' '), now)]
      ensures reply != Updated ==> announcements == old(announcements)
    {
      if user !in AdminIds {
        return Unauthorized;
      }
      if |args| == 0 {
        return Usage;
      }
      announcements := announcements + [Announcement(Join(args, ' '), now)];
      reply := Updated;
    }

    /** `send_scheduled_announcement`: the most recently stored announcement,
        or nothing to send when there is none. */
    method SendScheduledAnnouncement() returns (sent: Option<Announcement>)
      ensures sent.None? <==> announcements == []
      ensures sent.Some? ==> sent.value == announcements[|announcements| - 1]
    {
      if announcements == [] {
        sent := None;
      } else {
        sent := Some(announcements[|announcements| - 1]);
      }
    }
  }
}
