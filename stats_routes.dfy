/** GET /api/stats: three counts over the User and Community collections, combined into one
    record; `meetingsToday` is a constant placeholder. */
module StatsRoutes {
  import opened Common
  import opened CommunityModel
  import opened UserModel

  datatype StatsData = StatsData(totalUsers: nat, onlineUsers: nat, totalCommunities: nat, meetingsToday: nat)

  /** The outcome of one `countDocuments` query. */
  datatype Count = Counted(n: nat) | CountFailed

  const StatsError: string := "Failed to load stats"

  /** `Promise.all` over the three counts: every count succeeded and the reply carries all four
      fields, or some count failed and the reply is a 500 with no data at all. */
  function Aggregate(total: Count, online: Count, communities: Count): (r: Response<StatsData>)
    ensures r.Success? <==> total.Counted? && online.Counted? && communities.Counted?
    ensures r.Success? ==> r.status == 200 && r.body.meetingsToday == 0
                           && r.body.totalUsers == total.n && r.body.onlineUsers == online.n
                           && r.body.totalCommunities == communities.n
    ensures r.Failure? ==> r == Failure(500, StatsError)
  {
    if total.CountFailed? || online.CountFailed? || communities.CountFailed? then
      Failure(500, StatsError)
    else
      Success(200, StatsData(total.n, online.n, communities.n, 0))
  }

  /** The reply when every count runs against the collections as they stand. */
  function Snapshot(users: seq<User>, communities: seq<Community>): (r: Response<StatsData>) {
    Aggregate(Counted(|users|), Counted(OnlineCount(users)), Counted(|communities|))
  }

  /** A snapshot succeeds, counts what it claims to count, and never reports more users online
      than there are users. */
  lemma {:induction false} SnapshotCounts(users: seq<User>, communities: seq<Community>)
    ensures Snapshot(users, communities).Success?
    ensures var d := Snapshot(users, communities).body;
            && d.totalUsers == |users| && d.onlineUsers == OnlineCount(users)
            && d.totalCommunities == |communities| && d.meetingsToday == 0
            && d.onlineUsers <= d.totalUsers
  {
    OnlineCountBounded(users);
  }
}
