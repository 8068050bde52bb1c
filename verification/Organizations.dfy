/** Members, invites and the last-owner guard, with the guard's check and the write it protects as separate steps. */
module Organizations {
  import opened Common

  datatype User = User(id: nat)
  datatype Org = Org(id: nat)
  datatype Role = Owner | Admin | Plain

  /** Requests and invites can only name these. */
  type Granted = r: Role | r != Owner witness Plain

  datatype Member = Member(org: Org, user: User, role: Role)
  datatype InviteStatus = Pending | Accepted | Revoked
  datatype Invite = Invite(org: Org, email: string, role: Granted, status: InviteStatus,
                           expiresAt: int, acceptedAt: Option<int>)

  /** Owners of organizations, membership rows by row id, invites by token. */
  datatype Db = Db(orgs: map<Org, User>, members: map<int, Member>, invites: map<int, Invite>)

  predicate IsRow(db: Db, row: int, org: Org, user: User) {
    row in db.members && db.members[row].org == org && db.members[row].user == user
  }

  predicate OwnsRow(db: Db, row: int, org: Org) {
    row in db.members && db.members[row].org == org && db.members[row].role == Owner
  }

  /** The owner rows of an organization. */
  function Owners(db: Db, org: Org): set<int> {
    set row | row in db.members && OwnsRow(db, row, org)
  }

  /** The database refuses a second row for a user in an organization. */
  predicate HasRow(db: Db, org: Org, user: User) {
    exists row :: row in db.members && IsRow(db, row, org, user)
  }

  lemma {:induction false} HasRowExactly(db: Db, org: Org, user: User)
    ensures HasRow(db, org, user) <==>
            exists row :: row in db.members && db.members[row].org == org && db.members[row].user == user
  {
    if row :| row in db.members && db.members[row].org == org && db.members[row].user == user {
      assert IsRow(db, row, org, user);
    }
  }

  // ---------- the two halves of a member edit ----------

  datatype Edit = SetRole(role: Granted) | Remove
  datatype Refusal = NotFound | LastOwner

  /** What the handler decides from the row it loaded and the owner count. */
  function Guarded(db: Db, row: Option<int>): Option<Refusal>
    requires row.Some? ==> row.value in db.members
  {
    if row.None? then Some(NotFound)
    else if db.members[row.value].role == Owner && |Owners(db, db.members[row.value].org)| <= 1 then Some(LastOwner)
    else None
  }

  /** The commit; a row that is gone by then is not brought back. */
  function Written(db: Db, row: int, edit: Edit): Db {
    if row !in db.members then db
    else match edit
         case SetRole(role) => db.(members := db.members[row := db.members[row].(role := role)])
         case Remove => db.(members := db.members - {row})
  }

  /** An edit changes the role of its row, or removes it, and touches nothing else. */
  lemma {:induction false} WrittenExactly(db: Db, row: int, edit: Edit)
    requires row in db.members
    ensures var after := Written(db, row, edit);
            && after.orgs == db.orgs && after.invites == db.invites
            && (forall r :: r != row ==> (r in after.members <==> r in db.members))
            && (forall r :: r != row && r in db.members ==> after.members[r] == db.members[r])
            && match edit
               case Remove => row !in after.members
               case SetRole(role) =>
                 row in after.members && after.members[row].role == role &&
                 after.members[row].org == db.members[row].org && after.members[row].user == db.members[row].user
  {
  }

  function Founded(db: Db, org: Org, owner: User, row: int): Db {
    db.(orgs := db.orgs[org := owner], members := db.members[row := Member(org, owner, Owner)])
  }

  // ---------- invites ----------

  datatype Acceptance = Unknown | Already(status: InviteStatus) | Expired | WrongEmail | Joined

  /** Emails are carried lower-cased. */
  function Acceptable(db: Db, token: int, email: string, now: int): Acceptance {
    if token !in db.invites then Unknown
    else
      var invite := db.invites[token];
      if invite.status != Pending then Already(invite.status)
      else if invite.expiresAt < now then Expired
      else if invite.email != email then WrongEmail
      else Joined
  }

  /** An acceptance that has read an acceptable invite, and whether the user was a member by then. */
  datatype Join = Join(token: int, user: User, member: bool)

  /** Its commit: the invite is spent, and the user joins with its role unless found a member. A membership that
      appeared in between makes the database refuse the whole commit. */
  function JoinCommitted(db: Db, join: Join, now: int, row: int): Db
    requires join.token in db.invites
  {
    var invite := db.invites[join.token];
    var invites := db.invites[join.token := invite.(status := Accepted, acceptedAt := Some(now))];
    if join.member then db.(invites := invites)
    else if HasRow(db, invite.org, join.user) then db
    else db.(invites := invites, members := db.members[row := Member(invite.org, join.user, invite.role)])
  }

  /** An acceptance that meets no other. */
  function InviteAccepted(db: Db, token: int, user: User, now: int, row: int): Db
    requires token in db.invites
  {
    JoinCommitted(db, Join(token, user, HasRow(db, db.invites[token].org, user)), now, row)
  }

  function InviteRevoked(db: Db, token: int): Db
    requires token in db.invites
  {
    db.(invites := db.invites[token := db.invites[token].(status := Revoked)])
  }

  class Directory {
    var orgs: map<Org, User>
    var members: map<int, Member>
    var invites: map<int, Invite>

    constructor ()
      ensures View() == Db(map[], map[], map[])
    {
      orgs, members, invites := map[], map[], map[];
    }

    function View(): Db
      reads this
    {
      Db(orgs, members, invites)
    }

    method CreateOrganization(org: Org, owner: User, row: int)
      modifies this
      ensures View() == Founded(old(View()), org, owner, row)
    {
      orgs := orgs[org := owner];
      members := members[row := Member(org, owner, Owner)];
    }

    method CountOwners(org: Org) returns (n: nat)
      ensures n == |Owners(View(), org)|
    {
      n := |set row | row in members && members[row].org == org && members[row].role == Owner|;
      assert Owners(View(), org) == set row | row in members && members[row].org == org && members[row].role == Owner;
    }

    /** `row` is what looking up the member yielded. */
    method UpdateMemberRole(row: Option<int>, role: Granted) returns (refusal: Option<Refusal>)
      requires row.Some? ==> row.value in members
      modifies this`members
      ensures refusal == Guarded(old(View()), row)
      ensures View() == if refusal.None? then Written(old(View()), row.value, SetRole(role)) else old(View())
    {
      if row.None? {
        return Some(NotFound);
      }
      if members[row.value].role == Owner {
        var owners := CountOwners(members[row.value].org);
        if owners <= 1 {
          return Some(LastOwner);
        }
      }
      members := members[row.value := members[row.value].(role := role)];
      refusal := None;
    }

    method RemoveMember(row: Option<int>) returns (refusal: Option<Refusal>)
      requires row.Some? ==> row.value in members
      modifies this`members
      ensures refusal == Guarded(old(View()), row)
      ensures View() == if refusal.None? then Written(old(View()), row.value, Remove) else old(View())
    {
      if row.None? {
        return Some(NotFound);
      }
      if members[row.value].role == Owner {
        var owners := CountOwners(members[row.value].org);
        if owners <= 1 {
          return Some(LastOwner);
        }
      }
      members := members - {row.value};
      refusal := None;
    }

    method AcceptInvite(token: int, user: User, email: string, now: int, row: int) returns (answer: Acceptance)
      modifies this`members, this`invites
      ensures answer == Acceptable(old(View()), token, email, now)
      ensures answer.Joined? ==> token in old(invites) && View() == InviteAccepted(old(View()), token, user, now, row)
      ensures !answer.Joined? ==> View() == old(View())
      ensures answer.Joined? <==>
                token in old(invites) && old(invites)[token].status == Pending &&
                old(invites)[token].expiresAt >= now && old(invites)[token].email == email
      ensures answer.Joined? ==>
                var invite := old(invites)[token];
                && invites == old(invites)[token := invite.(status := Accepted, acceptedAt := Some(now))]
                && members ==
                   if exists r :: r in old(members) && old(members)[r].org == invite.org && old(members)[r].user == user
                   then old(members) else old(members)[row := Member(invite.org, user, invite.role)]
    {
      if token !in invites {
        return Unknown;
      }
      var invite := invites[token];
      HasRowExactly(View(), invite.org, user);
      if invite.status != Pending {
        return Already(invite.status);
      }
      if invite.expiresAt < now {
        return Expired;
      }
      if invite.email != email {
        return WrongEmail;
      }
      if !HasRow(View(), invite.org, user) {
        members := members[row := Member(invite.org, user, invite.role)];
      }
      invites := invites[token := invite.(status := Accepted, acceptedAt := Some(now))];
      answer := Joined;
    }

    method RevokeInvite(token: int)
      requires token in invites
      modifies this`invites
      ensures View() == InviteRevoked(old(View()), token)
    {
      invites := invites[token := invites[token].(status := Revoked)];
    }
  }

  // ---------- concurrent handlers ----------

  /** Edits that passed their check, and acceptances that read their invite, before they commit; and the users'
      email addresses. */
  datatype World = World(db: Db, pending: map<int, (int, Edit)>, joins: map<int, Join>, emails: map<User, string>)

  datatype Event =
    | Found(org: Org, owner: User, row: int)
    | Check(job: int, row: int, edit: Edit)
    | Write(job: int)
    | ReadInvite(job: int, token: int, user: User, now: int)
    | CommitJoin(job: int, now: int, row: int)
    | Invited(token: int, invite: Invite)
    | Withdrawn(token: int)

  /** Row ids, organization ids and tokens are new when they are given out. */
  predicate Enabled(w: World, e: Event) {
    match e
    case Found(org, _, row) => org !in w.db.orgs && Unused(w, row)
    case Check(job, row, _) => job !in w.pending && row in w.db.members
    case Write(job) => job in w.pending
    case ReadInvite(job, _, user, _) => job !in w.joins && user in w.emails
    case CommitJoin(job, _, row) => job in w.joins && w.joins[job].token in w.db.invites && Unused(w, row)
    case Invited(token, invite) => token !in w.db.invites && invite.org in w.db.orgs
    case Withdrawn(token) => token in w.db.invites
  }

  predicate Unused(w: World, row: int) {
    row !in w.db.members && forall job :: job in w.pending ==> w.pending[job].0 != row
  }

  function Apply(w: World, e: Event): World
    requires Enabled(w, e)
  {
    match e
    case Found(org, owner, row) => w.(db := Founded(w.db, org, owner, row))
    case Check(job, row, edit) =>
      if Guarded(w.db, Some(row)).None? then w.(pending := w.pending[job := (row, edit)]) else w
    case Write(job) => w.(db := Written(w.db, w.pending[job].0, w.pending[job].1), pending := w.pending - {job})
    case ReadInvite(job, token, user, now) =>
      if Acceptable(w.db, token, w.emails[user], now).Joined? then
        w.(joins := w.joins[job := Join(token, user, HasRow(w.db, w.db.invites[token].org, user))])
      else w
    case CommitJoin(job, now, row) => w.(db := JoinCommitted(w.db, w.joins[job], now, row), joins := w.joins - {job})
    case Invited(token, invite) => w.(db := w.db.(invites := w.db.invites[token := invite]))
    case Withdrawn(token) => w.(db := InviteRevoked(w.db, token))
  }

  ghost predicate Run(worlds: seq<World>, events: seq<Event>) {
    && |worlds| == |events| + 1 && worlds[0] == World(Db(map[], map[], map[]), map[], map[], worlds[0].emails)
    && forall i :: 0 <= i < |events| ==> Enabled(worlds[i], events[i]) && worlds[i + 1] == Apply(worlds[i], events[i])
  }

  /** The organization has one owner row, and it is that of its recorded owner. */
  ghost predicate OneOwner(db: Db, org: Org) {
    && org in db.orgs
    && exists row :: row in db.members && Owners(db, org) == {row} && db.members[row].user == db.orgs[org]
  }

  /** The parts of the invariant that do not speak of owner rows. */
  ghost predicate Rest(w: World) {
    && (forall row :: row in w.db.members ==> w.db.members[row].org in w.db.orgs)
    && (forall token :: token in w.db.invites ==> w.db.invites[token].org in w.db.orgs)
    && (forall job :: job in w.pending && w.pending[job].0 in w.db.members ==>
        w.db.members[w.pending[job].0].role != Owner)
  }

  ghost predicate Invariant(w: World) {
    (forall org :: org in w.db.orgs ==> OneOwner(w.db, org)) && Rest(w)
  }

  lemma {:induction false} SameOwners(db: Db, after: Db, org: Org)
    requires OneOwner(db, org) && org in after.orgs && after.orgs[org] == db.orgs[org]
    requires forall row: int :: OwnsRow(after, row, org) <==> OwnsRow(db, row, org)
    requires forall row: int :: OwnsRow(after, row, org) && OwnsRow(db, row, org) ==>
             after.members[row] == db.members[row]
    ensures OneOwner(after, org)
  {
    var row :| row in db.members && Owners(db, org) == {row} && db.members[row].user == db.orgs[org];
    assert row in Owners(db, org);
    assert Owners(after, org) == Owners(db, org);
  }

  /** Only this row may differ, and it is an owner's in neither. */
  predicate ButOneRow(db: Db, after: Db, row: int) {
    && after.orgs == db.orgs
    && (forall r :: r in db.members && r != row ==> r in after.members && after.members[r] == db.members[r])
    && (forall r :: r in after.members && r != row ==> r in db.members)
    && (row in db.members ==> db.members[row].role != Owner)
    && (row in after.members ==> after.members[row].role != Owner)
  }

  lemma {:induction false} ButOneRowOwner(db: Db, after: Db, row: int, org: Org)
    requires ButOneRow(db, after, row) && OneOwner(db, org)
    ensures OneOwner(after, org)
  {
    SameOwners(db, after, org);
  }

  lemma {:induction false} EditKeeps(w: World, after: World, row: int)
    requires Invariant(w) && ButOneRow(w.db, after.db, row) && Rest(after)
    ensures Invariant(after)
  {
    forall org | org in after.db.orgs ensures OneOwner(after.db, org) {
      ButOneRowOwner(w.db, after.db, row, org);
    }
  }

  lemma {:induction false} JoinEdits(w: World, job: int, now: int, row: int)
    requires Rest(w) && Enabled(w, CommitJoin(job, now, row))
    ensures ButOneRow(w.db, Apply(w, CommitJoin(job, now, row)).db, row)
    ensures Rest(Apply(w, CommitJoin(job, now, row)))
  {
  }

  lemma {:induction false} WriteEdits(w: World, job: int)
    requires Rest(w) && Enabled(w, Write(job))
    ensures ButOneRow(w.db, Apply(w, Write(job)).db, w.pending[job].0)
    ensures Rest(Apply(w, Write(job)))
  {
  }

  lemma {:induction false} FoundKeeps(w: World, org: Org, owner: User, row: int)
    requires Invariant(w) && Enabled(w, Found(org, owner, row))
    ensures Invariant(Apply(w, Found(org, owner, row)))
  {
    var after := Apply(w, Found(org, owner, row)).db;
    forall o | o in after.orgs ensures OneOwner(after, o) {
      if o == org {
        assert Owners(after, org) == {row};
      } else {
        SameOwners(w.db, after, o);
      }
    }
  }

  lemma {:induction false} JoinKeeps(w: World, job: int, now: int, row: int)
    requires Invariant(w) && Enabled(w, CommitJoin(job, now, row))
    ensures Invariant(Apply(w, CommitJoin(job, now, row)))
  {
    JoinEdits(w, job, now, row);
    EditKeeps(w, Apply(w, CommitJoin(job, now, row)), row);
  }

  /** The guard refuses every edit of an owner row, since there is always exactly one. */
  lemma {:induction false} GuardRefusesOwners(w: World, row: int)
    requires Invariant(w) && row in w.db.members
    ensures Guarded(w.db, Some(row)) == if w.db.members[row].role == Owner then Some(LastOwner) else None
  {
    assert OneOwner(w.db, w.db.members[row].org);
  }

  lemma {:induction false} CheckKeeps(w: World, job: int, row: int, edit: Edit)
    requires Invariant(w) && Enabled(w, Check(job, row, edit))
    ensures Invariant(Apply(w, Check(job, row, edit)))
  {
    GuardRefusesOwners(w, row);
  }

  lemma {:induction false} WriteKeeps(w: World, job: int)
    requires Invariant(w) && Enabled(w, Write(job))
    ensures Invariant(Apply(w, Write(job)))
  {
    WriteEdits(w, job);
    EditKeeps(w, Apply(w, Write(job)), w.pending[job].0);
  }

  /** Invites have no part in who owns what. */
  lemma {:induction false} InvitesKeep(w: World, after: World)
    requires Invariant(w) && Rest(after) && after.db.orgs == w.db.orgs && after.db.members == w.db.members
    ensures Invariant(after)
  {
    forall o | o in after.db.orgs ensures OneOwner(after.db, o) {
      SameOwners(w.db, after.db, o);
    }
  }

  lemma {:induction false} StepKeeps(w: World, e: Event)
    requires Invariant(w) && Enabled(w, e)
    ensures Invariant(Apply(w, e))
  {
    match e {
      case Found(org, owner, row) => FoundKeeps(w, org, owner, row);
      case Check(job, row, edit) => CheckKeeps(w, job, row, edit);
      case Write(job) => WriteKeeps(w, job);
      case ReadInvite(_, _, _, _) => InvitesKeep(w, Apply(w, e));
      case CommitJoin(job, now, row) => JoinKeeps(w, job, now, row);
      case Invited(_, _) => InvitesKeep(w, Apply(w, e));
      case Withdrawn(_) => InvitesKeep(w, Apply(w, e));
    }
  }

  lemma {:induction false} RunKeeps(worlds: seq<World>, events: seq<Event>, i: nat)
    requires Run(worlds, events) && i < |worlds|
    ensures Invariant(worlds[i])
  {
    if i == 0 {
    } else {
      RunKeeps(worlds, events, i - 1);
      StepKeeps(worlds[i - 1], events[i - 1]);
    }
  }

  /** However member edits, acceptances and foundings interleave, each organization has exactly one owner membership,
      and it belongs to its recorded owner. */
  lemma {:induction false} AlwaysOneOwner(worlds: seq<World>, events: seq<Event>, i: nat, org: Org) returns (row: int)
    requires Run(worlds, events) && i < |worlds| && org in worlds[i].db.orgs
    ensures var db := worlds[i].db;
            row in db.members && Owners(db, org) == {row} && db.members[row].user == db.orgs[org]
  {
    RunKeeps(worlds, events, i);
    var db := worlds[i].db;
    assert OneOwner(db, org);
    row :| row in db.members && Owners(db, org) == {row} && db.members[row].user == db.orgs[org];
  }

  // ---------- where members come from ----------

  /** A token is acceptable exactly if its invite is pending, unexpired and addressed to this email. */
  lemma {:induction false} AcceptableExactly(db: Db, token: int, email: string, now: int)
    ensures Acceptable(db, token, email, now).Joined? <==>
            token in db.invites && db.invites[token].status == Pending && db.invites[token].expiresAt >= now &&
            db.invites[token].email == email
  {
  }

  /** Why a token is refused: the first of these that applies. */
  lemma {:induction false} RefusalsExactly(db: Db, token: int, email: string, now: int)
    ensures var answer := Acceptable(db, token, email, now);
            && (answer == Unknown <==> token !in db.invites)
            && (token in db.invites ==>
                  var invite := db.invites[token];
                  && (invite.status != Pending ==> answer == Already(invite.status))
                  && (invite.status == Pending && invite.expiresAt < now ==> answer == Expired)
                  && (invite.status == Pending && invite.expiresAt >= now && invite.email != email ==>
                        answer == WrongEmail))
  {
  }

  /** A revoked invite is refused from then on, and an invite that was accepted is not accepted again. */
  lemma {:induction false} SpentInvites(db: Db, token: int, user: User, row: int, email: string, now: int, later: int)
    requires token in db.invites
    ensures Acceptable(InviteRevoked(db, token), token, email, later) == Already(Revoked)
    ensures Acceptable(InviteAccepted(db, token, user, now, row), token, email, later) == Already(Accepted)
    ensures InviteRevoked(db, token).members == db.members
  {
  }

  /** Invites are never readdressed, nor moved or promoted. */
  lemma {:induction false} InviteStays(worlds: seq<World>, events: seq<Event>, i: nat, j: nat, token: int)
    requires Run(worlds, events) && i <= j < |worlds| && token in worlds[i].db.invites
    ensures token in worlds[j].db.invites
    ensures var before, after := worlds[i].db.invites[token], worlds[j].db.invites[token];
            after.org == before.org && after.email == before.email && after.role == before.role
    decreases j - i
  {
    if i == j {
    } else {
      InviteStays(worlds, events, i, j - 1, token);
      StepKeepsInvite(worlds[j - 1], events[j - 1], token);
    }
  }

  lemma {:induction false} StepKeepsInvite(w: World, e: Event, token: int)
    requires Enabled(w, e) && token in w.db.invites
    ensures token in Apply(w, e).db.invites
    ensures var before, after := w.db.invites[token], Apply(w, e).db.invites[token];
            after.org == before.org && after.email == before.email && after.role == before.role
  {
  }

  lemma {:induction false} SameEmails(worlds: seq<World>, events: seq<Event>, i: nat)
    requires Run(worlds, events) && i < |worlds|
    ensures worlds[i].emails == worlds[0].emails
  {
    if i == 0 {
    } else {
      SameEmails(worlds, events, i - 1);
    }
  }

  /** Event r read, for this job and user, an invite that was pending, unexpired and addressed to the user's email. */
  ghost predicate ReadGood(worlds: seq<World>, events: seq<Event>, r: int, job: int, token: int, user: User)
    requires |worlds| == |events| + 1
  {
    && 0 <= r < |events| && events[r].ReadInvite? && events[r].job == job
    && events[r].token == token && events[r].user == user
    && token in worlds[r].db.invites && user in worlds[r].emails
    && worlds[r].db.invites[token].status == Pending && worlds[r].db.invites[token].expiresAt >= events[r].now
    && worlds[r].db.invites[token].email == worlds[r].emails[user]
  }

  lemma {:induction false} JoinWasRead(worlds: seq<World>, events: seq<Event>, i: nat, job: int) returns (r: int)
    requires Run(worlds, events) && i < |worlds| && job in worlds[i].joins
    ensures r < i && ReadGood(worlds, events, r, job, worlds[i].joins[job].token, worlds[i].joins[job].user)
  {
    var w, e := worlds[i - 1], events[i - 1];
    if e.ReadInvite? && e.job == job {
      r := i - 1;
      AcceptableExactly(w.db, e.token, w.emails[e.user], e.now);
    } else {
      r := JoinWasRead(worlds, events, i - 1, job);
    }
  }

  /** The row was written when its organization was founded. */
  ghost predicate FromFounding(events: seq<Event>, i: int, row: int, member: Member)
    requires i <= |events|
  {
    exists f :: 0 <= f < i && events[f] == Found(member.org, member.user, row)
  }

  /** Event e gave the row this role. */
  ghost predicate EditedTo(worlds: seq<World>, events: seq<Event>, e: int, row: int, role: Role)
    requires |worlds| == |events| + 1 && 0 <= e < |events|
  {
    && events[e].Write? && events[e].job in worlds[e].pending
    && worlds[e].pending[events[e].job].0 == row && worlds[e].pending[events[e].job].1.SetRole?
    && worlds[e].pending[events[e].job].1.role == role
  }

  /** The row was written by the commit c of an acceptance that had read a good invite to this organization at r, and
      has the invited role or that of an edit since. */
  ghost predicate FromInvite(worlds: seq<World>, events: seq<Event>, i: int, row: int, member: Member, r: int, c: int)
    requires |worlds| == |events| + 1 && i <= |events|
  {
    && 0 <= r < c < i && events[c].CommitJoin? && events[c].row == row && events[r].ReadInvite?
    && ReadGood(worlds, events, r, events[c].job, events[r].token, member.user)
    && worlds[r].db.invites[events[r].token].org == member.org
    && (member.role == worlds[r].db.invites[events[r].token].role ||
        exists e :: c < e < i && EditedTo(worlds, events, e, row, member.role))
  }

  ghost predicate Accounted(worlds: seq<World>, events: seq<Event>, i: int, row: int, member: Member)
    requires |worlds| == |events| + 1 && i <= |events|
  {
    FromFounding(events, i, row, member) || exists r, c :: FromInvite(worlds, events, i, row, member, r, c)
  }

  /** Where a row comes from in one step. */
  lemma {:induction false} RowOrigin(w: World, e: Event, row: int)
    requires Enabled(w, e) && row in Apply(w, e).db.members
    ensures var member := Apply(w, e).db.members[row];
            || (e.Found? && e.row == row && member == Member(e.org, e.owner, Owner))
            || (e.CommitJoin? && e.row == row && row !in w.db.members &&
                var join := w.joins[e.job];
                var invite := w.db.invites[join.token];
                member == Member(invite.org, join.user, invite.role))
            || (row in w.db.members && member == w.db.members[row])
            || (row in w.db.members && member.org == w.db.members[row].org && member.user == w.db.members[row].user &&
                e.Write? && w.pending[e.job].0 == row && w.pending[e.job].1.SetRole? &&
                w.pending[e.job].1.role == member.role)
  {
  }

  lemma {:induction false} JoinedAccounted(worlds: seq<World>, events: seq<Event>, i: nat, row: int)
    requires Run(worlds, events) && i < |events| && events[i].CommitJoin? && events[i].row == row
    requires row in worlds[i + 1].db.members
    requires var join := worlds[i].joins[events[i].job];
             var invite := worlds[i].db.invites[join.token];
             worlds[i + 1].db.members[row] == Member(invite.org, join.user, invite.role)
    ensures Accounted(worlds, events, i + 1, row, worlds[i + 1].db.members[row])
  {
    var join := worlds[i].joins[events[i].job];
    var r := JoinWasRead(worlds, events, i, events[i].job);
    InviteStays(worlds, events, r, i, join.token);
    assert FromInvite(worlds, events, i + 1, row, worlds[i + 1].db.members[row], r, i);
  }

  /** What accounted for the row before still does, after an edit of its role at most. */
  lemma {:induction false} StillAccounted(
      worlds: seq<World>, events: seq<Event>, i: nat, row: int, before: Member, after: Member)
    requires |worlds| == |events| + 1 && i < |events| && Accounted(worlds, events, i, row, before)
    requires after.org == before.org && after.user == before.user
    requires after.role == before.role || EditedTo(worlds, events, i, row, after.role)
    ensures Accounted(worlds, events, i + 1, row, after)
  {
    if FromFounding(events, i, row, before) {
      var f :| 0 <= f < i && events[f] == Found(before.org, before.user, row);
      assert 0 <= f < i + 1 && events[f] == Found(after.org, after.user, row);
    } else {
      var r, c :| FromInvite(worlds, events, i, row, before, r, c);
      if after.role == before.role && before.role != worlds[r].db.invites[events[r].token].role {
        var e :| c < e < i && EditedTo(worlds, events, e, row, before.role);
        assert c < e < i + 1 && EditedTo(worlds, events, e, row, after.role);
      }
      assert FromInvite(worlds, events, i + 1, row, after, r, c);
    }
  }

  /** In every run each membership is its organization's founding one, or its user was invited to the organization under
      their own email by an invite that was pending and unexpired when it was read, and has the invited role until an
      edit gives them another. */
  lemma {:induction false} MembersAreInvited(worlds: seq<World>, events: seq<Event>, i: nat, row: int)
    requires Run(worlds, events) && i < |worlds| && row in worlds[i].db.members
    ensures Accounted(worlds, events, i, row, worlds[i].db.members[row])
  {
    var w, e, member := worlds[i - 1], events[i - 1], worlds[i].db.members[row];
    RowOrigin(w, e, row);
    if e.Found? && e.row == row && member == Member(e.org, e.owner, Owner) {
      assert events[i - 1] == Found(member.org, member.user, row);
    } else if e.CommitJoin? && e.row == row && row !in w.db.members {
      JoinedAccounted(worlds, events, i - 1, row);
    } else {
      MembersAreInvited(worlds, events, i - 1, row);
      StillAccounted(worlds, events, i - 1, row, w.db.members[row], member);
    }
  }
}
