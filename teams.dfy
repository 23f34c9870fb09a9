/** The team handlers: the backend tables they read and write (profiles, teams,
    notifications, team invitations), held in one store, and one method per handler.
    Each handler runs as one atomic step; the acting user is given by profile id, and
    each `confirm()` dialog is a boolean input. */
module Teams {
  import opened Text

  type ProfileId = nat
  type TeamId = nat
  type NotificationId = nat

  datatype Profile = Profile(uid: string, ign: string, teamId: Option<TeamId>, isTeamAdmin: bool)

  /** A team row. `memberCount` is stored; it is written once, at creation. */
  datatype TeamRow = TeamRow(name: string, admin: ProfileId, code: string,
                             memberCount: int, maxMembers: int)

  datatype NoticeKind = TeamRequest | TeamInvite | TeamInfo

  /** What an actionable notification's buttons act on. */
  datatype Action = NoAction | RequestAction(team: TeamId, player: ProfileId) | InviteAction(team: TeamId)

  datatype Notice = Notice(userId: ProfileId, kind: NoticeKind, actionRequired: bool, action: Action)

  datatype InvitationStatus = Pending | Accepted

  datatype Invitation = Invitation(team: TeamId, invitedUser: ProfileId, invitedBy: ProfileId,
                                   status: InvitationStatus)

  /** The alerts that stop a handler. `LookupFailed` stands for a backend error or a
      property read on a missing row, which the handler's catch block reports. */
  datatype Failure =
    | EmptyTeamName | AlreadyInTeam | EmptyTeamCode | InvalidTeamCode | TeamFull
    | EmptyPlayerUid | NotTeamAdmin | PlayerNotFound | CannotInviteSelf | PlayerAlreadyInTeam
    | AlreadyInvited | MemberNotFound | AdminCannotLeave | LookupFailed

  datatype Outcome = Done | Dismissed | Found(player: ProfileId) | Created(team: TeamId) | Failed(why: Failure)

  predicate IsFull(t: TeamRow) {
    t.memberCount >= t.maxMembers
  }

  /** A profile taken out of its team. */
  function Cleared(p: Profile): Profile {
    p.(teamId := None, isTeamAdmin := false)
  }

  /** A profile put into team `t` as a plain member. */
  function Joined(p: Profile, t: TeamId): Profile {
    p.(teamId := Some(t), isTeamAdmin := false)
  }

  /** The non-actionable notice of type `team` sent to `to`. */
  function Info(to: ProfileId): Notice {
    Notice(to, TeamInfo, false, NoAction)
  }

  lemma SingletonOf(s: set<nat>, x: nat)
    requires x in s && |s| == 1
    ensures s == {x}
  {
    assert |s - {x}| == 0;
    assert s - {x} == {};
  }

  /** The one element of `s` when it has exactly one: what a `.single()` query yields. */
  ghost function Single(s: set<nat>): (r: Option<nat>)
    ensures r.Some? <==> |s| == 1
    ensures r.Some? ==> s == {r.value}
  {
    if |s| == 1 then
      var x :| x in s;
      SingletonOf(s, x);
      Some(x)
    else None
  }

  /** The profiles of team `t`. */
  function MembersOf(ps: map<ProfileId, Profile>, t: TeamId): (r: set<ProfileId>)
    ensures forall p | p in r :: p in ps && ps[p].teamId == Some(t)
    ensures forall p | p in ps && ps[p].teamId == Some(t) :: p in r
  {
    set p | p in ps && ps[p].teamId == Some(t)
  }

  /** Every profile of team `t` taken out of it; the others as they were. */
  function ClearTeam(ps: map<ProfileId, Profile>, t: TeamId): (r: map<ProfileId, Profile>)
    ensures r.Keys == ps.Keys
    ensures forall p | p in r :: r[p].teamId != Some(t)
    ensures forall p | p in ps && ps[p].teamId == Some(t) :: r[p] == Cleared(ps[p])
    ensures forall p | p in ps && ps[p].teamId != Some(t) :: r[p] == ps[p]
  {
    map p | p in ps :: if ps[p].teamId == Some(t) then Cleared(ps[p]) else ps[p]
  }

  /** Indices of the pending invitations of player `p` to team `t`. */
  function PendingFor(invs: seq<Invitation>, t: TeamId, p: ProfileId): (r: set<nat>)
    ensures forall i | i in r :: i < |invs| && invs[i] == Invitation(t, p, invs[i].invitedBy, Pending)
    ensures forall i | 0 <= i < |invs| && invs[i].team == t && invs[i].invitedUser == p &&
                       invs[i].status == Pending :: i in r
  {
    set i | 0 <= i < |invs| && invs[i].team == t && invs[i].invitedUser == p && invs[i].status == Pending
  }

  /** No two pending invitations of the same player to the same team. */
  predicate PendingUnique(invs: seq<Invitation>) {
    forall i, j | 0 <= i < j < |invs| && invs[i].status == Pending && invs[j].status == Pending ::
      invs[i].team != invs[j].team || invs[i].invitedUser != invs[j].invitedUser
  }

  /** With no duplicate pending invitations, a `.maybeSingle()` query for one sees at most one row. */
  lemma PendingAtMostOne(invs: seq<Invitation>, t: TeamId, p: ProfileId)
    requires PendingUnique(invs)
    ensures |PendingFor(invs, t, p)| <= 1
  {
    var s := PendingFor(invs, t, p);
    if s != {} {
      var i :| i in s;
      assert s == {i};
    }
  }

  /** `acceptTeamInvite`'s status update: every invitation of `p` to `t` becomes accepted. */
  function AcceptAll(invs: seq<Invitation>, t: TeamId, p: ProfileId): (r: seq<Invitation>)
    ensures |r| == |invs|
    ensures forall i | 0 <= i < |invs| && invs[i].team == t && invs[i].invitedUser == p ::
              r[i] == invs[i].(status := Accepted)
    ensures forall i | 0 <= i < |invs| && (invs[i].team != t || invs[i].invitedUser != p) :: r[i] == invs[i]
  {
    seq(|invs|, i requires 0 <= i < |invs| =>
      if invs[i].team == t && invs[i].invitedUser == p then invs[i].(status := Accepted) else invs[i])
  }

  /** Accepting invitations never creates a duplicate pending one. */
  lemma AcceptAllKeepsUnique(invs: seq<Invitation>, t: TeamId, p: ProfileId)
    requires PendingUnique(invs)
    ensures PendingUnique(AcceptAll(invs, t, p))
    ensures forall i | 0 <= i < |invs| :: AcceptAll(invs, t, p)[i].status == Pending ==> invs[i].status == Pending
  {
  }

  /** `ns` after one informational notice per entry of `order`, under the ids `start`,
      `start + 1`, ... in that order. */
  function Notified(ns: map<NotificationId, Notice>, start: NotificationId, order: seq<ProfileId>)
    : map<NotificationId, Notice>
  {
    if order == [] then ns
    else Notified(ns, start, order[..|order| - 1])[start + |order| - 1 := Info(order[|order| - 1])]
  }

  /** When `start` is above every existing id, the existing notifications are kept and
      each entry of `order` gets exactly its own new notice. */
  lemma {:induction false} NotifiedContents(ns: map<NotificationId, Notice>, start: NotificationId,
                                            order: seq<ProfileId>)
    requires forall n | n in ns :: n < start
    ensures forall n :: n in Notified(ns, start, order) <==> n in ns || start <= n < start + |order|
    ensures forall n | n in ns :: Notified(ns, start, order)[n] == ns[n]
    ensures forall k | 0 <= k < |order| :: Notified(ns, start, order)[start + k] == Info(order[k])
    decreases |order|
  {
    if order != [] {
      var front := order[..|order| - 1];
      NotifiedContents(ns, start, front);
      forall k | 0 <= k < |front| ensures front[k] == order[k] { }
    }
  }

  /** A profile's team is an issued id; an admin flag comes with a team, and while that
      team exists the flagged profile is its admin. */
  predicate ProfileOk(p: ProfileId, prof: Profile, teams: map<TeamId, TeamRow>, nextTeamId: TeamId) {
    && (prof.teamId.Some? ==> prof.teamId.value < nextTeamId)
    && (prof.isTeamAdmin ==> prof.teamId.Some?)
    && (prof.isTeamAdmin && prof.teamId.Some? && prof.teamId.value in teams ==>
          teams[prof.teamId.value].admin == p)
  }

  /** Issuing team `next` with `me` as its admin keeps every profile `ProfileOk`. */
  lemma NewTeamKeepsProfilesOk(ps: map<ProfileId, Profile>, ts: map<TeamId, TeamRow>, next: TeamId,
                               me: ProfileId, row: TeamRow)
    requires forall t | t in ts :: t < next
    requires forall p | p in ps :: ProfileOk(p, ps[p], ts, next)
    requires me in ps && row.admin == me
    ensures var ps' := ps[me := ps[me].(teamId := Some(next), isTeamAdmin := true)];
            forall p | p in ps' :: ProfileOk(p, ps'[p], ts[next := row], next + 1)
  {
    var ps' := ps[me := ps[me].(teamId := Some(next), isTeamAdmin := true)];
    forall p | p in ps' ensures ProfileOk(p, ps'[p], ts[next := row], next + 1) {
      if p != me {
        assert ProfileOk(p, ps[p], ts, next);
      }
    }
  }

  class TeamStore {
    var profiles: map<ProfileId, Profile>
    var teams: map<TeamId, TeamRow>
    var notifications: map<NotificationId, Notice>
    var invitations: seq<Invitation>
    /** The ids the backend hands out next. */
    var nextTeamId: TeamId
    var nextNotificationId: NotificationId

    /** Ids are issued fresh, every profile satisfies `ProfileOk`, and no invitation is
        pending twice. */
    ghost predicate Valid()
      reads this
    {
      && (forall t | t in teams :: t < nextTeamId)
      && (forall n | n in notifications :: n < nextNotificationId)
      && (forall p | p in profiles :: ProfileOk(p, profiles[p], teams, nextTeamId))
      && PendingUnique(invitations)
    }

    /** A store holding registered profiles that are in no team yet. */
    constructor (profiles: map<ProfileId, Profile>)
      requires forall p | p in profiles :: profiles[p].teamId.None? && !profiles[p].isTeamAdmin
      ensures Valid()
      ensures this.profiles == profiles
      ensures teams == map[] && notifications == map[] && invitations == []
    {
      this.profiles := profiles;
      teams := map[];
      notifications := map[];
      invitations := [];
      nextTeamId := 0;
      nextNotificationId := 0;
    }

    /** The profile a `.single()` query by uid returns, if exactly one matches. */
    ghost function ProfileWithUid(uid: string): (r: Option<ProfileId>)
      reads this
      ensures r.Some? ==> r.value in profiles && profiles[r.value].uid == uid
    {
      Single(set p | p in profiles && profiles[p].uid == uid)
    }

    /** The team a `.single()` query by code returns, if exactly one matches. */
    ghost function TeamWithCode(code: string): (r: Option<TeamId>)
      reads this
      ensures r.Some? ==> r.value in teams && teams[r.value].code == code
    {
      Single(set t | t in teams && teams[t].code == code)
    }

    /** A `.single()` query on profiles by uid. */
    method LookupUid(uid: string) returns (r: Option<ProfileId>)
      ensures r == ProfileWithUid(uid)
    {
      var found := set p | p in profiles && profiles[p].uid == uid;
      if |found| != 1 {
        return None;
      }
      var p :| p in found;
      SingletonOf(found, p);
      r := Some(p);
    }

    /** Inserts a notification under a fresh id. */
    method Notify(n: Notice)
      requires Valid()
      modifies this
      ensures Valid()
      ensures notifications == old(notifications)[old(nextNotificationId) := n]
      ensures old(nextNotificationId) !in old(notifications)
      ensures nextNotificationId == old(nextNotificationId) + 1
      ensures profiles == old(profiles) && teams == old(teams) && invitations == old(invitations)
      ensures nextTeamId == old(nextTeamId)
    {
      notifications := notifications[nextNotificationId := n];
      nextNotificationId := nextNotificationId + 1;
    }

    /** `createTeam`: the trimmed name must be non-empty and the user teamless; then a
        team row with the backend-generated `code`, the user as admin, a member count of 1
        and a maximum of 6 is inserted, and the user becomes its admin. */
    method CreateTeam(me: ProfileId, nameField: string, code: string) returns (r: Outcome)
      requires Valid() && me in profiles
      modifies this
      ensures Valid()
      ensures var name := Trim(nameField);
        if name == [] then r == Failed(EmptyTeamName)
        else if old(profiles[me].teamId).Some? then r == Failed(AlreadyInTeam)
        else
          && r == Created(old(nextTeamId))
          && old(nextTeamId) !in old(teams)
          && teams == old(teams)[r.team := TeamRow(name, me, code, 1, 6)]
          && profiles == old(profiles)[me := old(profiles[me]).(teamId := Some(r.team), isTeamAdmin := true)]
          && nextTeamId == old(nextTeamId) + 1
      ensures !r.Created? ==> teams == old(teams) && profiles == old(profiles) && nextTeamId == old(nextTeamId)
      ensures notifications == old(notifications) && nextNotificationId == old(nextNotificationId)
      ensures invitations == old(invitations)
    {
      var name := Trim(nameField);
      if name == [] {
        return Failed(EmptyTeamName);
      }
      if profiles[me].teamId.Some? {
        return Failed(AlreadyInTeam);
      }
      var id := nextTeamId;
      NewTeamKeepsProfilesOk(profiles, teams, id, me, TeamRow(name, me, code, 1, 6));
      teams := teams[id := TeamRow(name, me, code, 1, 6)];
      nextTeamId := nextTeamId + 1;
      profiles := profiles[me := profiles[me].(teamId := Some(id), isTeamAdmin := true)];
      r := Created(id);
    }

    /** `joinTeamByCode`: the code is trimmed and upper-cased; a teamless user whose code
        names exactly one team that is not full sends that team's admin a join request.
        No profile, team or invitation changes. */
    method JoinTeamByCode(me: ProfileId, codeField: string) returns (r: Outcome)
      requires Valid() && me in profiles
      modifies this
      ensures Valid()
      ensures var code := ToUpper(Trim(codeField));
              var t := old(TeamWithCode(code));
        if code == [] then r == Failed(EmptyTeamCode)
        else if old(profiles[me].teamId).Some? then r == Failed(AlreadyInTeam)
        else if t.None? then r == Failed(InvalidTeamCode)
        else if IsFull(old(teams[t.value])) then r == Failed(TeamFull)
        else if old(teams[t.value].admin) !in old(profiles) then r == Failed(LookupFailed)
        else
          && r == Done
          && notifications == old(notifications)[old(nextNotificationId) :=
               Notice(old(teams[t.value].admin), TeamRequest, true, RequestAction(t.value, me))]
          && nextNotificationId == old(nextNotificationId) + 1
      ensures r != Done ==> notifications == old(notifications) && nextNotificationId == old(nextNotificationId)
      ensures profiles == old(profiles) && teams == old(teams) && invitations == old(invitations)
      ensures nextTeamId == old(nextTeamId)
    {
      var code := ToUpper(Trim(codeField));
      if code == [] {
        return Failed(EmptyTeamCode);
      }
      if profiles[me].teamId.Some? {
        return Failed(AlreadyInTeam);
      }
      var found := set t | t in teams && teams[t].code == code;
      if |found| != 1 {
        return Failed(InvalidTeamCode);
      }
      var t :| t in found;
      SingletonOf(found, t);
      var team := teams[t];
      if IsFull(team) {
        return Failed(TeamFull);
      }
      if team.admin !in profiles {
        return Failed(LookupFailed);
      }
      Notify(Notice(team.admin, TeamRequest, true, RequestAction(t, me)));
      r := Done;
    }

    /** `searchPlayer`: reads only. The trimmed uid must be non-empty and the user a team
        admin; then the uid must name exactly one profile, not the user's own, one in no
        team, and the user's team must not be full. */
    method SearchPlayer(me: ProfileId, uidField: string) returns (r: Outcome)
      requires me in profiles
      ensures var uid := Trim(uidField);
              var self := profiles[me];
              var p := ProfileWithUid(uid);
        if uid == [] then r == Failed(EmptyPlayerUid)
        else if self.teamId.None? || !self.isTeamAdmin then r == Failed(NotTeamAdmin)
        else if p.None? then r == Failed(PlayerNotFound)
        else if p.value == me then r == Failed(CannotInviteSelf)
        else if profiles[p.value].teamId.Some? then r == Failed(PlayerAlreadyInTeam)
        else if self.teamId.value !in teams then r == Failed(LookupFailed)
        else if IsFull(teams[self.teamId.value]) then r == Failed(TeamFull)
        else r == Found(p.value)
    {
      var uid := Trim(uidField);
      var self := profiles[me];
      if uid == [] {
        return Failed(EmptyPlayerUid);
      }
      if self.teamId.None? || !self.isTeamAdmin {
        return Failed(NotTeamAdmin);
      }
      var p := LookupUid(uid);
      if p.None? {
        return Failed(PlayerNotFound);
      }
      var player := p.value;
      if player == me {
        return Failed(CannotInviteSelf);
      }
      if profiles[player].teamId.Some? {
        return Failed(PlayerAlreadyInTeam);
      }
      if self.teamId.value !in teams {
        return Failed(LookupFailed);
      }
      if IsFull(teams[self.teamId.value]) {
        return Failed(TeamFull);
      }
      r := Found(player);
    }

    /** `invitePlayer`: the user's team must exist; a player already holding a pending
        invitation to it is refused; otherwise one pending invitation and one actionable
        invite notice to the player are added. The handler checks no admin flag. */
    method InvitePlayer(me: ProfileId, player: ProfileId) returns (r: Outcome)
      requires Valid() && me in profiles
      modifies this
      ensures Valid()
      ensures var t := old(profiles[me].teamId);
        if t.None? || t.value !in old(teams) then r == Failed(LookupFailed)
        else if exists i | 0 <= i < |old(invitations)| ::
                  old(invitations)[i] == Invitation(t.value, player, old(invitations)[i].invitedBy, Pending)
        then r == Failed(AlreadyInvited)
        else
          && r == Done
          && invitations == old(invitations) + [Invitation(t.value, player, me, Pending)]
          && notifications == old(notifications)[old(nextNotificationId) :=
               Notice(player, TeamInvite, true, InviteAction(t.value))]
          && nextNotificationId == old(nextNotificationId) + 1
      ensures r != Done ==>
        && invitations == old(invitations) && notifications == old(notifications)
        && nextNotificationId == old(nextNotificationId)
      ensures profiles == old(profiles) && teams == old(teams) && nextTeamId == old(nextTeamId)
    {
      var t := profiles[me].teamId;
      if t.None? || t.value !in teams {
        return Failed(LookupFailed);
      }
      var pending := PendingFor(invitations, t.value, player);
      PendingAtMostOne(invitations, t.value, player);
      if |pending| == 1 {
        var i :| i in pending;
        return Failed(AlreadyInvited);
      }
      assert pending == {};
      var inv := Invitation(t.value, player, me, Pending);
      assert PendingUnique(invitations + [inv]);
      invitations := invitations + [inv];
      Notify(Notice(player, TeamInvite, true, InviteAction(t.value)));
      r := Done;
    }

    /** `acceptTeamInvite`: a teamless user joins `teamId` unless it is full, in which case
        only the notification is deleted. On joining, the user's invitations to that team
        are marked accepted, the notification is deleted and the team's admin is told.
        Whether the user still holds an invitation is not checked. */
    method AcceptTeamInvite(me: ProfileId, notice: NotificationId, teamId: TeamId) returns (r: Outcome)
      requires Valid() && me in profiles
      modifies this
      ensures Valid()
      ensures
        if old(profiles[me].teamId).Some? then
          && r == Failed(AlreadyInTeam)
          && notifications == old(notifications) && profiles == old(profiles)
        else if teamId !in old(teams) then
          && r == Failed(LookupFailed)
          && notifications == old(notifications) && profiles == old(profiles)
        else if IsFull(old(teams[teamId])) then
          && r == Failed(TeamFull)
          && notifications == old(notifications) - {notice} && profiles == old(profiles)
        else
          && r == Done
          && profiles == old(profiles)[me := Joined(old(profiles[me]), teamId)]
          && invitations == AcceptAll(old(invitations), teamId, me)
          && notifications == (old(notifications) - {notice})[old(nextNotificationId) := Info(old(teams[teamId].admin))]
          && nextNotificationId == old(nextNotificationId) + 1
      ensures r != Done ==> invitations == old(invitations) && nextNotificationId == old(nextNotificationId)
      ensures teams == old(teams) && nextTeamId == old(nextTeamId)
    {
      if profiles[me].teamId.Some? {
        return Failed(AlreadyInTeam);
      }
      if teamId !in teams {
        return Failed(LookupFailed);
      }
      var team := teams[teamId];
      if IsFull(team) {
        notifications := notifications - {notice};
        return Failed(TeamFull);
      }
      profiles := profiles[me := Joined(profiles[me], teamId)];
      AcceptAllKeepsUnique(invitations, teamId, me);
      invitations := AcceptAll(invitations, teamId, me);
      notifications := notifications - {notice};
      Notify(Info(team.admin));
      r := Done;
    }

    /** `declineTeamInvite` and `declineTeamRequest`: the notification is deleted. */
    method DeclineNotice(notice: NotificationId)
      requires Valid()
      modifies this
      ensures Valid()
      ensures notifications == old(notifications) - {notice}
      ensures profiles == old(profiles) && teams == old(teams) && invitations == old(invitations)
      ensures nextTeamId == old(nextTeamId) && nextNotificationId == old(nextNotificationId)
    {
      notifications := notifications - {notice};
    }

    /** `acceptTeamRequest`: an admin accepts `player` into `teamId` (which need not be
        the admin's own team). A full team or a player already in a team only deletes the
        notification; otherwise the player joins, the notification is deleted and the
        player is told. */
    method AcceptTeamRequest(me: ProfileId, notice: NotificationId, player: ProfileId, teamId: TeamId)
      returns (r: Outcome)
      requires Valid() && me in profiles
      modifies this
      ensures Valid()
      ensures
        if !old(profiles[me].isTeamAdmin) then
          r == Failed(NotTeamAdmin) && notifications == old(notifications) && profiles == old(profiles)
        else if teamId !in old(teams) then
          r == Failed(LookupFailed) && notifications == old(notifications) && profiles == old(profiles)
        else if IsFull(old(teams[teamId])) then
          r == Failed(TeamFull) && notifications == old(notifications) - {notice} && profiles == old(profiles)
        else if player !in old(profiles) then
          r == Failed(LookupFailed) && notifications == old(notifications) && profiles == old(profiles)
        else if old(profiles[player].teamId).Some? then
          && r == Failed(PlayerAlreadyInTeam)
          && notifications == old(notifications) - {notice} && profiles == old(profiles)
        else
          && r == Done
          && profiles == old(profiles)[player := Joined(old(profiles[player]), teamId)]
          && notifications == (old(notifications) - {notice})[old(nextNotificationId) := Info(player)]
          && nextNotificationId == old(nextNotificationId) + 1
      ensures r != Done ==> nextNotificationId == old(nextNotificationId)
      ensures teams == old(teams) && invitations == old(invitations) && nextTeamId == old(nextTeamId)
    {
      if !profiles[me].isTeamAdmin {
        return Failed(NotTeamAdmin);
      }
      if teamId !in teams {
        return Failed(LookupFailed);
      }
      if IsFull(teams[teamId]) {
        notifications := notifications - {notice};
        return Failed(TeamFull);
      }
      if player !in profiles {
        return Failed(LookupFailed);
      }
      if profiles[player].teamId.Some? {
        notifications := notifications - {notice};
        return Failed(PlayerAlreadyInTeam);
      }
      profiles := profiles[player := Joined(profiles[player], teamId)];
      notifications := notifications - {notice};
      Notify(Info(player));
      r := Done;
    }

    /** `removeMember`: an admin removes the profile a uid names, once confirmed, and
        tells it so. Whether that profile is in the admin's team, or is the admin, is not
        checked. */
    method RemoveMember(me: ProfileId, memberUid: string, confirmed: bool) returns (r: Outcome)
      requires Valid() && me in profiles
      modifies this
      ensures Valid()
      ensures var m := old(ProfileWithUid(memberUid));
        if !old(profiles[me].isTeamAdmin) then r == Failed(NotTeamAdmin)
        else if m.None? then r == Failed(MemberNotFound)
        else if !confirmed then r == Dismissed
        else
          && r == Done
          && profiles == old(profiles)[m.value := Cleared(old(profiles[m.value]))]
          && notifications == old(notifications)[old(nextNotificationId) := Info(m.value)]
          && nextNotificationId == old(nextNotificationId) + 1
      ensures r != Done ==>
        && profiles == old(profiles) && notifications == old(notifications)
        && nextNotificationId == old(nextNotificationId)
      ensures teams == old(teams) && invitations == old(invitations) && nextTeamId == old(nextTeamId)
    {
      if !profiles[me].isTeamAdmin {
        return Failed(NotTeamAdmin);
      }
      var m := LookupUid(memberUid);
      if m.None? {
        return Failed(MemberNotFound);
      }
      if !confirmed {
        return Dismissed;
      }
      profiles := profiles[m.value := Cleared(profiles[m.value])];
      Notify(Info(m.value));
      r := Done;
    }

    /** `leaveTeam`: anyone but an admin may leave, once confirmed. */
    method LeaveTeam(me: ProfileId, confirmed: bool) returns (r: Outcome)
      requires Valid() && me in profiles
      modifies this
      ensures Valid()
      ensures
        if old(profiles[me].isTeamAdmin) then r == Failed(AdminCannotLeave) && profiles == old(profiles)
        else if !confirmed then r == Dismissed && profiles == old(profiles)
        else r == Done && profiles == old(profiles)[me := Cleared(old(profiles[me]))]
      ensures teams == old(teams) && notifications == old(notifications) && invitations == old(invitations)
      ensures nextTeamId == old(nextTeamId) && nextNotificationId == old(nextNotificationId)
    {
      if profiles[me].isTeamAdmin {
        return Failed(AdminCannotLeave);
      }
      if !confirmed {
        return Dismissed;
      }
      profiles := profiles[me := Cleared(profiles[me])];
      r := Done;
    }

    /** The notice loop of `dissolveTeam`: each profile in `members` other than `me` gets
        one notice, in the order `order`. */
    method NotifyMembers(members: set<ProfileId>, me: ProfileId) returns (ghost order: seq<ProfileId>)
      requires Valid()
      modifies this
      ensures Valid()
      ensures forall p :: p in order <==> p in members && p != me
      ensures forall i, j | 0 <= i < j < |order| :: order[i] != order[j]
      ensures nextNotificationId == old(nextNotificationId) + |order|
      ensures notifications == Notified(old(notifications), old(nextNotificationId), order)
      ensures profiles == old(profiles) && teams == old(teams) && invitations == old(invitations)
      ensures nextTeamId == old(nextTeamId)
    {
      order := [];
      var rest := members;
      while rest != {}
        invariant forall n | n in notifications :: n < nextNotificationId
        invariant rest <= members
        invariant profiles == old(profiles) && teams == old(teams)
        invariant invitations == old(invitations) && nextTeamId == old(nextTeamId)
        invariant forall p :: p in order <==> p in members - rest && p != me
        invariant forall i, j | 0 <= i < j < |order| :: order[i] != order[j]
        invariant nextNotificationId == old(nextNotificationId) + |order|
        invariant notifications == Notified(old(notifications), old(nextNotificationId), order)
        decreases |rest|
      {
        var m :| m in rest;
        if m != me {
          forall i | 0 <= i < |order| ensures order[i] != m {
            assert order[i] in order;
            assert order[i] !in rest;
          }
          notifications := notifications[nextNotificationId := Info(m)];
          nextNotificationId := nextNotificationId + 1;
          assert (order + [m])[..|order|] == order;
          order := order + [m];
        }
        rest := rest - {m};
      }
    }

    /** `dissolveTeam`: after two confirmations an admin's team is emptied, every member
        other than the admin gets one notice, and the team row is deleted. `order` is the
        order in which the members were notified. */
    method DissolveTeam(me: ProfileId, confirm1: bool, confirm2: bool)
      returns (r: Outcome, ghost order: seq<ProfileId>)
      requires Valid() && me in profiles
      modifies this
      ensures Valid()
      ensures
        if !old(profiles[me].isTeamAdmin) then r == Failed(NotTeamAdmin)
        else if !confirm1 || !confirm2 then r == Dismissed
        else
          var t := old(profiles[me].teamId.value);
          var start := old(nextNotificationId);
          && r == Done
          && profiles == ClearTeam(old(profiles), t)
          && teams == old(teams) - {t}
          && (forall p :: p in order <==> p in MembersOf(old(profiles), t) && p != me)
          && (forall i, j | 0 <= i < j < |order| :: order[i] != order[j])
          && nextNotificationId == start + |order|
          && notifications == Notified(old(notifications), start, order)
      ensures r != Done ==>
        && profiles == old(profiles) && teams == old(teams) && notifications == old(notifications)
        && nextNotificationId == old(nextNotificationId)
      ensures invitations == old(invitations) && nextTeamId == old(nextTeamId)
    {
      order := [];
      if !profiles[me].isTeamAdmin {
        return Failed(NotTeamAdmin), order;
      }
      if !confirm1 || !confirm2 {
        return Dismissed, order;
      }
      var t := profiles[me].teamId.value;
      var members := MembersOf(profiles, t);
      profiles := ClearTeam(profiles, t);
      order := NotifyMembers(members, me);
      teams := teams - {t};
      r := Done;
    }

    /** The orphan branch of `loadTeamPage`: a user whose team row no longer exists is
        taken out of it; nothing else changes. */
    method ClearOrphanTeam(me: ProfileId) returns (cleared: bool)
      requires Valid() && me in profiles
      modifies this
      ensures Valid()
      ensures cleared <==> old(profiles[me].teamId).Some? && old(profiles[me].teamId.value) !in old(teams)
      ensures profiles == if cleared then old(profiles)[me := Cleared(old(profiles[me]))] else old(profiles)
      ensures teams == old(teams) && notifications == old(notifications) && invitations == old(invitations)
      ensures nextTeamId == old(nextTeamId) && nextNotificationId == old(nextNotificationId)
    {
      var t := profiles[me].teamId;
      cleared := t.Some? && t.value !in teams;
      if cleared {
        profiles := profiles[me := Cleared(profiles[me])];
      }
    }
  }
}
