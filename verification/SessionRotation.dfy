/** Refresh-token sessions on the server: rotation reads a row, then revokes it and adds a new one, without a lock. */
module SessionRotation {
  import opened Common

  /** A refresh token, told apart from every other by its random id. */
  datatype Token = Token(jti: nat)
  datatype User = User(id: nat)

  datatype Session = Session(user: User, revoked: bool, expiresAt: int)
  type Table = map<Token, Session>

  /** What decoding the old token yields: nothing, a payload without a subject, or a user. */
  datatype Payload = Undecodable | NoSubject | Subject(user: User)

  // ---------- rotation, in its two halves ----------

  /** The check made on the row that was read. */
  predicate Accepts(table: Table, token: Token, now: int) {
    token in table && !table[token].revoked && table[token].expiresAt >= now
  }

  /** A live row for a new token. */
  function Opened(table: Table, token: Token, user: User, expiresAt: int): Table {
    table[token := Session(user, false, expiresAt)]
  }

  function Revoked(table: Table, token: Token): Table {
    if token in table then table[token := table[token].(revoked := true)] else table
  }

  /** What the commit writes for a row that was accepted. */
  function Committed(table: Table, spent: Token, payload: Payload, next: Token, expiresAt: int): Table {
    var revoked := Revoked(table, spent);
    if payload.Subject? then Opened(revoked, next, payload.user, expiresAt) else revoked
  }

  function Issued(payload: Payload, next: Token): Option<Token> {
    if payload.Subject? then Some(next) else None
  }

  class SessionStore {
    var table: Table

    constructor ()
      ensures table == map[]
    {
      table := map[];
    }

    method CreateUserSession(user: User, token: Token, expiresAt: int)
      modifies this
      ensures table == Opened(old(table), token, user, expiresAt)
    {
      table := table[token := Session(user, false, expiresAt)];
    }

    method RevokeSession(token: Token)
      modifies this
      ensures table == Revoked(old(table), token)
    {
      if token in table {
        table := table[token := table[token].(revoked := true)];
      }
    }

    /** One rotation that meets no other. */
    method RotateRefreshToken(token: Token, now: int, payload: Payload, next: Token, expiresAt: int)
      returns (issued: Option<Token>)
      modifies this
      ensures Accepts(old(table), token, now) ==>
                table == Committed(old(table), token, payload, next, expiresAt) && issued == Issued(payload, next)
      ensures !Accepts(old(table), token, now) ==> table == old(table) && issued == None
      ensures token !in old(table) || old(table)[token].revoked || old(table)[token].expiresAt < now ==>
                table == old(table) && issued == None
      ensures token in old(table) && !old(table)[token].revoked && old(table)[token].expiresAt >= now ==>
                var spent := old(table)[token := old(table)[token].(revoked := true)];
                match payload
                case Subject(user) => issued == Some(next) && table == spent[next := Session(user, false, expiresAt)]
                case _ => issued == None && table == spent
    {
      if token !in table || table[token].revoked || table[token].expiresAt < now {
        return None;
      }
      var session := table[token].(revoked := true);
      table := table[token := session];
      match payload {
        case Undecodable => return None;
        case NoSubject => return None;
        case Subject(user) =>
          table := table[next := Session(user, false, expiresAt)];
          return Some(next);
      }
    }
  }

  // ---------- rotations that overlap ----------

  /** The table, the rotations that have read their row but not committed, and who was issued for whom. */
  datatype Server = Server(table: Table, pending: map<int, Token>, heirs: set<(Token, Token)>)

  datatype Step =
    | Login(token: Token, user: User, expiresAt: int)
    | Logout(token: Token)
    | Read(job: int, token: Token, now: int)
    | Commit(job: int, user: User, next: Token, expiresAt: int)

  /** Job numbers and new tokens are not reused; every payload that is committed names a user. */
  predicate Enabled(s: Server, step: Step) {
    match step
    case Login(token, _, _) => token !in s.table
    case Logout(_) => true
    case Read(job, _, _) => job !in s.pending
    case Commit(job, _, next, _) => job in s.pending && next !in s.table
  }

  function Apply(s: Server, step: Step): Server
    requires Enabled(s, step)
  {
    match step
    case Login(token, user, expiresAt) => s.(table := Opened(s.table, token, user, expiresAt))
    case Logout(token) => s.(table := Revoked(s.table, token))
    case Read(job, token, now) =>
      if Accepts(s.table, token, now) then s.(pending := s.pending[job := token]) else s
    case Commit(job, user, next, expiresAt) =>
      Server(Committed(s.table, s.pending[job], Subject(user), next, expiresAt),
             s.pending - {job},
             s.heirs + {(s.pending[job], next)})
  }

  const FRESH := Server(map[], map[], {})

  ghost function After(steps: seq<Step>): Server {
    if steps == [] then FRESH
    else
      var s := After(steps[..|steps| - 1]);
      if Enabled(s, steps[|steps| - 1]) then Apply(s, steps[|steps| - 1]) else s
  }

  ghost predicate Legal(steps: seq<Step>) {
    steps == [] || (Legal(steps[..|steps| - 1]) && Enabled(After(steps[..|steps| - 1]), steps[|steps| - 1]))
  }

  predicate IsPending(s: Server, token: Token) {
    exists job :: job in s.pending && s.pending[job] == token
  }

  /** The read is accepted while another rotation of the same token has yet to commit. */
  predicate Overlaps(s: Server, step: Step) {
    step.Read? && Accepts(s.table, step.token, step.now) && IsPending(s, step.token)
  }

  ghost predicate Unoverlapped(steps: seq<Step>) {
    steps == [] || (Unoverlapped(steps[..|steps| - 1]) && !Overlaps(After(steps[..|steps| - 1]), steps[|steps| - 1]))
  }

  function PendingOn(s: Server, token: Token): set<int> {
    set job | job in s.pending && s.pending[job] == token
  }

  function HeirsOf(s: Server, token: Token): set<(Token, Token)> {
    set h | h in s.heirs && h.0 == token
  }

  /** How often the token has been rotated, or is about to be. */
  function Uses(s: Server, token: Token): nat {
    |HeirsOf(s, token)| + |PendingOn(s, token)|
  }

  ghost predicate Consistent(s: Server) {
    && (forall h :: h in s.heirs ==> h.0 in s.table && h.1 in s.table)
    && (forall h :: h in s.heirs ==> s.table[h.0].revoked)
    && (forall job :: job in s.pending ==> s.pending[job] in s.table)
  }

  lemma {:induction false} StepKeepsConsistent(s: Server, step: Step)
    requires Consistent(s) && Enabled(s, step)
    ensures Consistent(Apply(s, step))
  {
  }

  /** A step changes how often a token is used only by reading it. */
  lemma {:induction false} StepUses(s: Server, step: Step, token: Token)
    requires Consistent(s) && Enabled(s, step)
    ensures Uses(Apply(s, step), token)
         == Uses(s, token)
            + if step.Read? && Accepts(s.table, step.token, step.now) && step.token == token then 1 else 0
  {
    match step {
      case Login(_, _, _) => SameUses(s, Apply(s, step), token);
      case Logout(_) => SameUses(s, Apply(s, step), token);
      case Read(job, read, now) => ReadUses(s, job, read, now, token);
      case Commit(job, user, next, expiresAt) => CommitUses(s, job, user, next, expiresAt, token);
    }
  }

  lemma {:induction false} ReadUses(s: Server, job: int, read: Token, now: int, token: Token)
    requires Enabled(s, Read(job, read, now))
    ensures Uses(Apply(s, Read(job, read, now)), token)
         == Uses(s, token) + if Accepts(s.table, read, now) && read == token then 1 else 0
  {
    if Accepts(s.table, read, now) {
      OneMorePending(s, Apply(s, Read(job, read, now)), job, read, token);
    }
  }

  lemma {:induction false} OneMorePending(s: Server, t: Server, job: int, read: Token, token: Token)
    requires job !in s.pending && t.pending == s.pending[job := read] && t.heirs == s.heirs
    ensures Uses(t, token) == Uses(s, token) + if read == token then 1 else 0
  {
    assert HeirsOf(t, token) == HeirsOf(s, token);
    PendingGrows(s, t, job, read, token);
    assert job !in PendingOn(s, token);
  }

  lemma {:induction false} PendingGrows(s: Server, t: Server, job: int, read: Token, token: Token)
    requires job !in s.pending && t.pending == s.pending[job := read]
    ensures PendingOn(t, token) == PendingOn(s, token) + if read == token then {job} else {}
  {
    var grown := PendingOn(s, token) + if read == token then {job} else {};
    forall j ensures j in PendingOn(t, token) <==> j in grown {
    }
  }

  lemma {:induction false} CommitUses(s: Server, job: int, user: User, next: Token, expiresAt: int, token: Token)
    requires Consistent(s) && Enabled(s, Commit(job, user, next, expiresAt))
    ensures Uses(Apply(s, Commit(job, user, next, expiresAt)), token) == Uses(s, token)
  {
    var t := Apply(s, Commit(job, user, next, expiresAt));
    assert (s.pending[job], next) !in s.heirs;
    Handover(s, t, job, next, token);
  }

  /** A job leaves and its heir appears: the same use of the same token. */
  lemma {:induction false} Handover(s: Server, t: Server, job: int, next: Token, token: Token)
    requires job in s.pending && (s.pending[job], next) !in s.heirs
    requires t.pending == s.pending - {job} && t.heirs == s.heirs + {(s.pending[job], next)}
    ensures Uses(t, token) == Uses(s, token)
  {
    if s.pending[job] == token {
      assert HeirsOf(t, token) == HeirsOf(s, token) + {(token, next)};
      assert PendingOn(t, token) == PendingOn(s, token) - {job};
    } else {
      assert HeirsOf(t, token) == HeirsOf(s, token);
      assert PendingOn(t, token) == PendingOn(s, token);
    }
  }

  lemma {:induction false} SameUses(s: Server, t: Server, token: Token)
    requires s.pending == t.pending && s.heirs == t.heirs
    ensures Uses(s, token) == Uses(t, token)
  {
  }

  /** An accepted token has no heir yet, so it is used already exactly when another rotation of it is pending. */
  lemma {:induction false} AcceptedUnused(s: Server, token: Token, now: int)
    requires Consistent(s) && Accepts(s.table, token, now)
    ensures Uses(s, token) == 0 <==> !IsPending(s, token)
  {
    assert HeirsOf(s, token) == {};
    if IsPending(s, token) {
      var job :| job in s.pending && s.pending[job] == token;
      assert job in PendingOn(s, token);
    } else {
      assert forall job :: job in s.pending ==> s.pending[job] != token;
      assert PendingOn(s, token) == {};
    }
  }

  lemma {:induction false} RunConsistent(steps: seq<Step>)
    requires Legal(steps)
    ensures Consistent(After(steps))
  {
    if steps == [] {
    } else {
      RunConsistent(steps[..|steps| - 1]);
      StepKeepsConsistent(After(steps[..|steps| - 1]), steps[|steps| - 1]);
    }
  }

  lemma {:induction false} UsesBounded(steps: seq<Step>, token: Token)
    requires Legal(steps) && Unoverlapped(steps)
    ensures Uses(After(steps), token) <= 1
  {
    if steps == [] {
      assert HeirsOf(FRESH, token) == {} && PendingOn(FRESH, token) == {};
    } else {
      var before, step := steps[..|steps| - 1], steps[|steps| - 1];
      var s := After(before);
      UsesBounded(before, token);
      RunConsistent(before);
      StepUses(s, step, token);
      if step.Read? && Accepts(s.table, step.token, step.now) {
        AcceptedUnused(s, step.token, step.now);
      }
    }
  }

  lemma {:induction false} OverlapUsesTwice(steps: seq<Step>) returns (token: Token)
    requires Legal(steps) && !Unoverlapped(steps)
    ensures Uses(After(steps), token) >= 2
  {
    var before, step := steps[..|steps| - 1], steps[|steps| - 1];
    var s := After(before);
    RunConsistent(before);
    if Unoverlapped(before) {
      token := step.token;
      AcceptedUnused(s, token, step.now);
    } else {
      token := OverlapUsesTwice(before);
    }
    StepUses(s, step, token);
  }

  /** No token is ever rotated twice. */
  ghost predicate ForkFree(s: Server) {
    forall token :: |HeirsOf(s, token)| <= 1
  }

  /** Once every rotation that read its row has committed, no token has two heirs if and only if no read was accepted
      while another rotation of the same token was still to commit. */
  lemma {:induction false} ForkFreeExactly(steps: seq<Step>)
    requires Legal(steps) && After(steps).pending == map[]
    ensures ForkFree(After(steps)) <==> Unoverlapped(steps)
  {
    var s := After(steps);
    if Unoverlapped(steps) {
      forall token ensures |HeirsOf(s, token)| <= 1 {
        UsesBounded(steps, token);
      }
    } else {
      var token := OverlapUsesTwice(steps);
      assert PendingOn(s, token) == {};
    }
  }

  lemma {:induction false} OneMore(steps: seq<Step>, step: Step)
    requires Legal(steps) && Enabled(After(steps), step)
    ensures Legal(steps + [step]) && After(steps + [step]) == Apply(After(steps), step)
  {
    assert (steps + [step])[..|steps|] == steps;
  }

  function ReadTwice(user: User, spent: Token, expiresAt: int): Server {
    Server(map[spent := Session(user, false, expiresAt)], map[1 := spent, 2 := spent], {})
  }

  lemma {:induction false} BothRead(user: User, spent: Token, now: int, expiresAt: int) returns (steps: seq<Step>)
    requires now <= expiresAt
    ensures Legal(steps) && After(steps) == ReadTwice(user, spent, expiresAt)
  {
    steps := [];
    assert After(steps) == FRESH;
    OneMore(steps, Login(spent, user, expiresAt));
    steps := steps + [Login(spent, user, expiresAt)];
    OneMore(steps, Read(1, spent, now));
    steps := steps + [Read(1, spent, now)];
    OneMore(steps, Read(2, spent, now));
    steps := steps + [Read(2, spent, now)];
  }

  /** Two tabs that refresh at once: both rotations of one token read its row before either commits, and the login
      ends with two live sessions. */
  lemma {:induction false} OverlapForks(user: User, spent: Token, first: Token, second: Token, now: int, expiresAt: int)
    returns (steps: seq<Step>)
    requires spent != first && first != second && spent != second && now <= expiresAt
    ensures Legal(steps) && After(steps).pending == map[] && |HeirsOf(After(steps), spent)| == 2
    ensures var table := After(steps).table; Accepts(table, first, now) && Accepts(table, second, now)
  {
    steps := BothRead(user, spent, now, expiresAt);
    OneMore(steps, Commit(1, user, first, expiresAt));
    steps := steps + [Commit(1, user, first, expiresAt)];
    assert After(steps).pending == map[2 := spent] && After(steps).heirs == {(spent, first)};
    OneMore(steps, Commit(2, user, second, expiresAt));
    steps := steps + [Commit(2, user, second, expiresAt)];
    assert HeirsOf(After(steps), spent) == {(spent, first), (spent, second)};
  }

  // ---------- what was read ----------

  /** Step r is this job's read of the token, whose row was then neither revoked nor expired. */
  ghost predicate ReadLive(steps: seq<Step>, r: int, job: int, token: Token) {
    && 0 <= r < |steps| && steps[r].Read? && steps[r].job == job && steps[r].token == token
    && var table := After(steps[..r]).table;
       token in table && !table[token].revoked && table[token].expiresAt >= steps[r].now
  }

  lemma {:induction false} ReadStaysLive(steps: seq<Step>, n: nat, r: int, job: int, token: Token)
    requires n <= |steps| && ReadLive(steps[..n], r, job, token)
    ensures ReadLive(steps, r, job, token)
  {
    assert steps[..n][..r] == steps[..r];
  }

  /** A rotation that is pending has read a live row. */
  lemma {:induction false} PendingWasRead(steps: seq<Step>, job: int) returns (r: int)
    requires Legal(steps) && job in After(steps).pending
    ensures ReadLive(steps, r, job, After(steps).pending[job])
  {
    var n := |steps| - 1;
    var before, last := steps[..n], steps[n];
    if last.Read? && last.job == job {
      r := n;
    } else {
      r := PendingWasRead(before, job);
      ReadStaysLive(steps, n, r, job, After(before).pending[job]);
    }
  }

  /** Every token that was issued for another was issued by a rotation that had read the other's row while it was
      neither revoked nor expired, and started out live for the committed user. */
  lemma {:induction false} HeirsWereReadLive(steps: seq<Step>, h: (Token, Token)) returns (r: int, c: int)
    requires Legal(steps) && h in After(steps).heirs
    ensures 0 <= r < c < |steps| && steps[c].Commit? && steps[c].next == h.1 && ReadLive(steps, r, steps[c].job, h.0)
    ensures var table := After(steps[..c + 1]).table;
            h.1 in table && table[h.1] == Session(steps[c].user, false, steps[c].expiresAt)
  {
    var n := |steps| - 1;
    var before, last := steps[..n], steps[n];
    if h in After(before).heirs {
      r, c := HeirsWereReadLive(before, h);
      ReadStaysLive(steps, n, r, steps[c].job, h.0);
      assert before[..c + 1] == steps[..c + 1];
    } else {
      c := n;
      r := PendingWasRead(before, last.job);
      ReadStaysLive(steps, n, r, last.job, h.0);
      assert steps[..c + 1] == steps;
    }
  }
}
