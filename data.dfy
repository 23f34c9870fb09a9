/** The in-memory data set that stands in for the backend in demo mode: its record
    shapes, the lookup helpers defined on it, and its sample users and teams. */
module Data {
  import opened Text
  import Lists
  import Config
  import Tournaments

  datatype User = User(uid: string, ign: string, currentBalance: int,
                       teamId: Option<string>, isTeamAdmin: bool)

  datatype Role = Admin | Member

  datatype TeamMember = TeamMember(uid: string, ign: string, role: Role)

  datatype Team = Team(id: string, name: string, adminUid: string, teamCode: string,
                       members: seq<TeamMember>)

  datatype TransactionKind = Deposit | EntryFee | Winning | Withdrawal

  datatype TransactionStatus = Completed | Pending

  datatype Transaction = Transaction(uid: string, kind: TransactionKind, amount: int,
                                     status: TransactionStatus, tournamentId: Option<string>)

  datatype Notification = Notification(id: string, uid: string, kind: string, read: bool,
                                       actionRequired: bool)

  datatype HistoryEntry = HistoryEntry(uid: string, tournamentName: string, tournamentId: string,
                                       position: nat, prizeWon: nat, participants: nat)

  datatype Dataset = Dataset(
    users: seq<User>, tournaments: seq<Tournaments.Tournament>, teams: seq<Team>,
    transactions: seq<Transaction>, notifications: seq<Notification>, history: seq<HistoryEntry>)
  {
    /** `getUserByUID`: the first user with that uid, or nothing. */
    function UserByUid(uid: string): (r: Option<User>)
      ensures r.None? <==> forall j | 0 <= j < |users| :: users[j].uid != uid
      ensures r.Some? ==> exists j | 0 <= j < |users| ::
                users[j] == r.value && r.value.uid == uid && forall k | 0 <= k < j :: users[k].uid != uid
    {
      Lists.Find(users, (u: User) => u.uid == uid)
    }

    /** `getTeamById`: the first team with that id, or nothing. */
    function TeamById(id: string): (r: Option<Team>)
      ensures r.None? <==> forall j | 0 <= j < |teams| :: teams[j].id != id
      ensures r.Some? ==> exists j | 0 <= j < |teams| ::
                teams[j] == r.value && r.value.id == id && forall k | 0 <= k < j :: teams[k].id != id
    {
      Lists.Find(teams, (t: Team) => t.id == id)
    }

    /** `getTournamentById`: the first tournament with that id, or nothing. */
    function TournamentById(id: string): (r: Option<Tournaments.Tournament>)
      ensures r.None? <==> forall j | 0 <= j < |tournaments| :: tournaments[j].id != id
      ensures r.Some? ==> exists j | 0 <= j < |tournaments| ::
                tournaments[j] == r.value && r.value.id == id && forall k | 0 <= k < j :: tournaments[k].id != id
    {
      Lists.Find(tournaments, (t: Tournaments.Tournament) => t.id == id)
    }

    /** `getUserTransactions`: the user's transactions, in ledger order. */
    function UserTransactions(uid: string): (r: seq<Transaction>)
      ensures forall t | t in r :: t in transactions && t.uid == uid
      ensures forall t | t in transactions && t.uid == uid :: t in r
    {
      Lists.Filter(transactions, (t: Transaction) => t.uid == uid)
    }

    /** `getUserNotifications`: the user's notifications, in stored order. */
    function UserNotifications(uid: string): (r: seq<Notification>)
      ensures forall n | n in r :: n in notifications && n.uid == uid
      ensures forall n | n in notifications && n.uid == uid :: n in r
    {
      Lists.Filter(notifications, (n: Notification) => n.uid == uid)
    }

    /** `getUserTournamentHistory`: the user's history entries, in stored order. */
    function UserTournamentHistory(uid: string): (r: seq<HistoryEntry>)
      ensures forall h | h in r :: h in history && h.uid == uid
      ensures forall h | h in history && h.uid == uid :: h in r
    {
      Lists.Filter(history, (h: HistoryEntry) => h.uid == uid)
    }
  }

  /** Appending a transaction to the ledger extends exactly its owner's list, at the end,
      and leaves every other user's list as it was. */
  lemma UserTransactionsAfterAppend(d: Dataset, t: Transaction, uid: string)
    ensures d.(transactions := d.transactions + [t]).UserTransactions(uid)
         == d.UserTransactions(uid) + (if t.uid == uid then [t] else [])
  {
    var p := (x: Transaction) => x.uid == uid;
    Lists.FilterConcat(d.transactions, [t], p);
    assert Lists.Filter([t], p) == (if t.uid == uid then [t] else []) by {
      assert [t][1..] == [];
    }
  }

  /** A user's transaction list holds each of their transactions as often as the ledger does. */
  lemma UserTransactionsKeepDuplicates(d: Dataset, uid: string, t: Transaction)
    requires t.uid == uid
    ensures multiset(d.UserTransactions(uid))[t] == multiset(d.transactions)[t]
  {
    Lists.FilterCount(d.transactions, (x: Transaction) => x.uid == uid, t);
  }

  // The sample users and teams.

  const SampleUsers: seq<User> := [
    User("2847593021", "ProGamerX", 2450, Some("team_001"), true),
    User("3947281056", "SniperKing", 1200, Some("team_001"), false),
    User("4738291047", "HeadHunter", 850, None, false),
    User("5839472018", "FireStorm", 1500, Some("team_001"), false),
    User("6749382056", "EliteLeader", 3200, Some("team_002"), true),
    User("7849302847", "QuickShot", 980, Some("team_002"), false),
    User("8592847103", "NightRider", 1750, None, false),
    User("9284756301", "ShadowNinja", 2100, None, false)
  ]

  const ShadowWarriors := Team("team_001", "Shadow Warriors", "2847593021", "SW2024", [
    TeamMember("2847593021", "ProGamerX", Admin),
    TeamMember("3947281056", "SniperKing", Member),
    TeamMember("5839472018", "FireStorm", Member)
  ])

  const EliteSquad := Team("team_002", "Elite Squad", "6749382056", "ES2024", [
    TeamMember("6749382056", "EliteLeader", Admin),
    TeamMember("7849302847", "QuickShot", Member)
  ])

  const SampleTeams: seq<Team> := [ShadowWarriors, EliteSquad]

  /** Some team with id `teamId` lists a member with uid `uid`. */
  predicate Listed(teams: seq<Team>, teamId: string, uid: string) {
    exists j, k | 0 <= j < |teams| && 0 <= k < |teams[j].members| ::
      teams[j].id == teamId && teams[j].members[k].uid == uid
  }

  /** Some user with uid `uid` belongs to team `teamId`. */
  predicate PointsBack(users: seq<User>, uid: string, teamId: string) {
    exists i | 0 <= i < |users| :: users[i].uid == uid && users[i].teamId == Some(teamId)
  }

  /** Membership agrees in both directions: a user's team lists the user, and a listed
      member's user record points back at the team. */
  predicate MembershipLinked(users: seq<User>, teams: seq<Team>) {
    && (forall i | 0 <= i < |users| && users[i].teamId.Some? ::
          Listed(teams, users[i].teamId.value, users[i].uid))
    && (forall j, k | 0 <= j < |teams| && 0 <= k < |teams[j].members| ::
          PointsBack(users, teams[j].members[k].uid, teams[j].id))
  }

  /** The admin of a team: listed with role admin, and the only member with that role. */
  predicate SoleAdmin(t: Team, k: nat) {
    k < |t.members| && t.members[k].role == Admin && t.members[k].uid == t.adminUid &&
    forall m | 0 <= m < |t.members| && m != k :: t.members[m].role == Member
  }

  /** Each team has exactly one admin member, who is its adminUid and whose user record
      carries the admin flag; no teamless user carries the flag. */
  predicate AdminsConsistent(users: seq<User>, teams: seq<Team>) {
    && (forall j | 0 <= j < |teams| :: exists k | 0 <= k < |teams[j].members| :: SoleAdmin(teams[j], k))
    && (forall j | 0 <= j < |teams| :: exists i | 0 <= i < |users| ::
          users[i].uid == teams[j].adminUid && users[i].isTeamAdmin)
    && (forall i | 0 <= i < |users| && users[i].teamId.None? :: !users[i].isTeamAdmin)
  }

  /** Rosters fit the team size limit and team codes are valid and distinct. */
  predicate TeamsWellFormed(teams: seq<Team>) {
    && (forall j | 0 <= j < |teams| :: |teams[j].members| <= Config.MaxMembers)
    && (forall j | 0 <= j < |teams| :: Config.ValidTeamCode(teams[j].teamCode))
    && (forall j, k | 0 <= j < k < |teams| :: teams[j].teamCode != teams[k].teamCode)
  }

  lemma SampleMembershipLinked()
    ensures MembershipLinked(SampleUsers, SampleTeams)
  {
    var us, ts := SampleUsers, SampleTeams;
    forall i | 0 <= i < |us| && us[i].teamId.Some?
      ensures Listed(ts, us[i].teamId.value, us[i].uid)
    {
      var j := if i < 4 then 0 else 1;
      var k := [0, 1, 0, 2, 0, 1, 0, 0][i];
      assert ts[j].id == us[i].teamId.value && ts[j].members[k].uid == us[i].uid;
    }
    forall j, k | 0 <= j < |ts| && 0 <= k < |ts[j].members|
      ensures PointsBack(us, ts[j].members[k].uid, ts[j].id)
    {
      var i := if j == 0 then [0, 1, 3][k] else [4, 5][k];
      assert us[i].uid == ts[j].members[k].uid && us[i].teamId == Some(ts[j].id);
    }
  }

  lemma SampleAdminsConsistent()
    ensures AdminsConsistent(SampleUsers, SampleTeams)
  {
    var us, ts := SampleUsers, SampleTeams;
    assert SoleAdmin(ts[0], 0);
    assert SoleAdmin(ts[1], 0);
    assert us[0].uid == ts[0].adminUid && us[0].isTeamAdmin;
    assert us[4].uid == ts[1].adminUid && us[4].isTeamAdmin;
  }

  lemma SampleTeamsWellFormed()
    ensures TeamsWellFormed(SampleTeams)
  {
    assert Config.ValidTeamCode(SampleTeams[0].teamCode);
    assert Config.ValidTeamCode(SampleTeams[1].teamCode);
    assert SampleTeams[0].teamCode[0] != SampleTeams[1].teamCode[0];
  }
}
